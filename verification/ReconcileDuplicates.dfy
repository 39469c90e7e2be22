/** Shared keys: a reconcile does not merge the records, or the generated sessions, that have one key. */
module ReconcileDuplicates {
  import opened Wrappers
  import opened StoreNames
  import opened StoreIndex
  import opened Prune
  import opened Reconcile
  import opened Converge
  import opened ReconcileAgain
  import opened StoreExamples

  /** A store of nothing but its root folder. */
  function JustRoot(): Index {
    Index("r", map["r" := Folder("r", "root", "", "", 1, 0, None, "")], map[], map["r" := []], map[], 0)
  }

  function NamedRecord(name: string): Record {
    Record("", name, "h", 22, "", "ssh", [], "")
  }

  lemma SomeEnvOk()
    ensures IndexOk(SomeEnv(), JustRoot())
  {
    var env, idx := SomeEnv(), JustRoot();
    SomeEnvValid();
    assert FolderOk(idx, "r");
  }

  /** The session a named record becomes at the root. */
  function RootSession(name: string, id: Id): Session {
    Session(id, name, "r", "h", 22, "", "ssh", [], "", "r", "", 1, 0)
  }

  lemma NoFolder(name: string)
    ensures FolderParts(NamedRecord(name)) == Some([])
  {
    hide TrimSpace;
    EmptyTrims();
    assert SplitSlash("") == [""] && NonEmpty([""]) == [];
  }

  lemma PutAtRoot(idx: Index, c: char, s: Session)
    requires idx.rootId == "r" && "r" in idx.folders && idx.folderDir == map["r" := []] && (c == 'a' || c == 'b')
    requires forall k :: k in idx.sessions ==> idx.sessions[k].name != [c]
    requires forall k :: k in idx.sessionFile ==> idx.sessionFile[k] != [[c] + YAML]
    requires s.id == "" && s.name == [c] && s.folderId == "r"
    ensures PutSession(SomeEnv(), idx, s)
         == Ok(WithSession(idx, Stored(SomeEnv(), idx, s, "r"), [[c] + YAML]))
  {
    hide SessionFileName, TrimSpace, Sanitized;
    LetterName(c);
    var target := [[c] + YAML];
    assert idx.folderDir["r"] + target == target;
    assert !SessionClash(SomeEnv(), idx, s.id, "r", s.name, target);
    assert target !in idx.folderDir.Values;
  }

  lemma PlaceAtRoot(idx: Index, c: char)
    requires idx.rootId == "r" && "r" in idx.folders && idx.folderDir == map["r" := []] && (c == 'a' || c == 'b')
    requires forall k :: k in idx.sessions ==> idx.sessions[k].name != [c]
    requires forall k :: k in idx.sessionFile ==> idx.sessionFile[k] != [[c] + YAML]
    ensures Place(SomeEnv(), idx, map[], "r", ByHost, NamedRecord([c]))
         == Ok((WithSession(idx, RootSession([c], SomeEnv().ulid(idx.tick)), [[c] + YAML]), Added(SomeEnv().ulid(idx.tick))))
  {
    hide PutSession, FolderParts, WithSession;
    NoFolder([c]);
    PutAtRoot(idx, c, Patched(BLANK, NamedRecord([c]), "r", "r"));
  }

  /** Two new records of one key are both added: duplicate keys are not merged. */
  lemma DuplicateKeysKept() returns (env: Env, idx: Index, rs: seq<Record>, a: Id, b: Id)
    ensures IndexOk(env, idx) && Indexes(map[], idx, "r", ByHost) && DistinctGenerated(idx, "r", ByHost)
    ensures |rs| == 2 && RecordKey(ByHost, rs[0]) == RecordKey(ByHost, rs[1])
    ensures var out := Reconciled(env, idx, map[], "r", ByHost, rs);
            (out.Ok? && out.value.1 == Report(2, 0, 0, 0) && a != b
             && Generated(out.value.0, "r", ByHost, RecordKey(ByHost, rs[0]), a)
             && Generated(out.value.0, "r", ByHost, RecordKey(ByHost, rs[0]), b))
  {
    hide IndexOk, Place, PlaceAll, CountAdded, CountUpdated, CountSkipped, WithSession;
    env, idx := SomeEnv(), JustRoot();
    SomeEnvOk();
    var r1, r2 := NamedRecord("a"), NamedRecord("b");
    a, b := env.ulid(0), env.ulid(1);
    var one, two := TwoPlaced(a, b);
    rs := [] + [r1] + [r2];
    var fates := [] + [Added(a)] + [Added(b)];
    CountSnoc([], Added(a));
    CountSnoc([] + [Added(a)], Added(b));
    assert CountAdded([]) == CountUpdated([]) == CountSkipped([]) == 0 by { CountsSum([]); }
    assert PlaceAll(env, idx, map[], "r", ByHost, rs) == Ok((two, fates));
    assert StaleKeys(map[], ByHost, rs) == {};
    DropNothing(map[], two);
    assert Eligible(two, "r") == {};
  }

  lemma TwoPlaced(a: Id, b: Id) returns (one: Index, two: Index)
    requires a == SomeEnv().ulid(0) && b == SomeEnv().ulid(1)
    ensures PlaceAll(SomeEnv(), JustRoot(), map[], "r", ByHost, [] + [NamedRecord("a")] + [NamedRecord("b")])
         == Ok((two, [] + [Added(a)] + [Added(b)]))
    ensures a != b && two.folders == JustRoot().folders && two.rootId == "r"
    ensures two.sessions == map[a := RootSession("a", a), b := RootSession("b", b)]
  {
    hide Place, PlaceAll;
    var env, idx := SomeEnv(), JustRoot();
    var r1, r2 := NamedRecord("a"), NamedRecord("b");
    assert |a| == 1 && |b| == 2;
    one := WithSession(idx, RootSession("a", a), [['a'] + YAML]);
    two := WithSession(one, RootSession("b", b), [['b'] + YAML]);
    assert (['a'] + YAML)[0] != (['b'] + YAML)[0];
    PlaceAtRoot(idx, 'a');
    PlaceAtRoot(one, 'b');
    NonePlacedYet(env, idx);
    PlaceSnoc(env, idx, "r", ByHost, [], r1, idx, [], one, Added(a));
    PlaceSnoc(env, idx, "r", ByHost, [] + [r1], r2, one, [] + [Added(a)], two, Added(b));
  }

  lemma NonePlacedYet(env: Env, idx: Index)
    ensures PlaceAll(env, idx, map[], "r", ByHost, []) == Ok((idx, []))
  {
  }

  lemma PlaceSnoc(env: Env, idx: Index, src: Id, mode: By, rs: seq<Record>, r: Record, mid: Index, fates: seq<Fate>,
                  done: Index, f: Fate)
    requires PlaceAll(env, idx, map[], src, mode, rs) == Ok((mid, fates)) && Place(env, mid, map[], src, mode, r) == Ok((done, f))
    ensures PlaceAll(env, idx, map[], src, mode, rs + [r]) == Ok((done, fates + [f]))
  {
    hide Place;
    assert (rs + [r])[..|rs|] == rs;
  }

  lemma CountSnoc(fates: seq<Fate>, f: Fate)
    ensures CountAdded(fates + [f]) == CountAdded(fates) + if f.Added? then 1 else 0
    ensures CountUpdated(fates + [f]) == CountUpdated(fates) + if f.Updated? then 1 else 0
    ensures CountSkipped(fates + [f]) == CountSkipped(fates) + if f.Skipped? then 1 else 0
  {
    assert (fates + [f])[..|fates|] == fates;
  }

  // ------------------------------------------------------- repeated generated keys

  /** The root with two generated sessions of one key. */
  function TwoOfAKey(): Index {
    JustRoot().(sessions := map["a" := RootSession("a", "a"), "b" := RootSession("b", "b")],
                sessionFile := map["a" := ["a.yaml"], "b" := ["b.yaml"]])
  }

  lemma TwoOfAKeyOk()
    ensures IndexOk(SomeEnv(), TwoOfAKey())
  {
    hide SessionsOk, FoldersOk, Env.Valid;
    SomeEnvOk();
    FoldersFrame(SomeEnv(), JustRoot(), TwoOfAKey());
    TwoSessionsOk();
    SomeEnvValid();
    assert [] != ["a.yaml"] && [] != ["b.yaml"];
  }

  lemma TwoSessionsOk()
    ensures SessionsOk(SomeEnv(), TwoOfAKey())
  {
    hide SessionOk, Injective, SessionNamesUnique;
    OneSession("a");
    OneSession("b");
    TwoFiles();
    TwoSessionNames();
  }

  lemma TwoFiles()
    ensures Injective(TwoOfAKey().sessionFile)
  {
    assert "a.yaml"[0] != "b.yaml"[0] && ["a.yaml"][0] != ["b.yaml"][0];
  }

  lemma TwoSessionNames()
    ensures SessionNamesUnique(SomeEnv(), TwoOfAKey().sessions)
  {
    var sessions := TwoOfAKey().sessions;
    assert forall k :: k in sessions ==> sessions[k].name == k;
  }

  lemma OneSession(id: Id)
    requires id == "a" || id == "b"
    ensures id in TwoOfAKey().sessions && SessionOk(TwoOfAKey(), id)
  {
    var file := TwoOfAKey().sessionFile[id];
    assert file[..0] == [] && file[0] == id + YAML;
    assert (id + YAML)[|id + YAML| - |YAML|..] == YAML;
    assert (id + YAML)[0] != 'f';
  }

  /** Of two generated sessions under one key a reconcile without records removes one and leaves the other. */
  lemma GeneratedTwice() returns (env: Env, idx: Index, existing: map<string, Session>, k: string)
    ensures IndexOk(env, idx) && Indexes(existing, idx, "r", ByHost) && !DistinctGenerated(idx, "r", ByHost)
    ensures var out := Reconciled(env, idx, existing, "r", ByHost, []);
            (out.Ok? && out.value.1 == Report(0, 0, 1, 0) && Generated(out.value.0, "r", ByHost, k, "b"))
  {
    hide IndexOk, SomeEnv, TwoOfAKey, Reconciled, Eligible;
    env, idx, k := SomeEnv(), TwoOfAKey(), Key(ByHost, "", "h");
    existing := map[k := RootSession("a", "a")];
    TwoOfAKeyOk();
    Found(existing, k);
    OneLeft(env, existing, k);
  }

  lemma Found(existing: map<string, Session>, k: string)
    requires k == Key(ByHost, "", "h") && existing == map[k := RootSession("a", "a")]
    ensures Indexes(existing, TwoOfAKey(), "r", ByHost)
    ensures Generated(TwoOfAKey(), "r", ByHost, k, "a") && Generated(TwoOfAKey(), "r", ByHost, k, "b")
  {
  }

  lemma OneLeft(env: Env, existing: map<string, Session>, k: string)
    requires k == Key(ByHost, "", "h") && existing == map[k := RootSession("a", "a")]
    ensures Reconciled(env, TwoOfAKey(), existing, "r", ByHost, [])
         == Ok((Dropped(TwoOfAKey(), {"a"}), Report(0, 0, 1, 0)))
    ensures Generated(Dropped(TwoOfAKey(), {"a"}), "r", ByHost, k, "b")
  {
    hide Key;
    assert StaleKeys(existing, ByHost, []) == {k} && IdsOf(existing, {k}) == {"a"};
    NothingOwned();
  }

  lemma NothingOwned()
    ensures Eligible(Dropped(TwoOfAKey(), {"a"}), "r") == {}
  {
  }
}
