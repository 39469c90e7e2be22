/** Import sources over whole runs: one per subtree, as long as nothing is moved. */
module SourceRuns {
  import opened Wrappers
  import opened StoreNames
  import opened StoreIndex
  import opened StoreMove
  import opened StoreSources
  import opened StoreExamples

  datatype Op = Set(id: Id, src: Source) | Clear(id: Id) | Create(name: string, parent: Id, owner: Id)
              | Rename(id: Id, name: string) | Remove(id: Id)

  /** The operation's result; a refused one changes nothing. */
  ghost function Outcome(env: Env, idx: Index, op: Op): Result<Index, StoreError>
    requires idx.rootId in idx.folders
  {
    match op
    case Set(id, src) => SetSource(env, idx, id, src)
    case Clear(id) => ClearSource(env, idx, id)
    case Create(name, parent, owner) => PutFolder(env, idx, Folder("", name, parent, "", 0, 0, None, owner))
    case Rename(id, name) => if id in idx.folders then PutFolder(env, idx, idx.folders[id].(name := name)) else Err(NotFound)
    case Remove(id) => DeleteId(idx, id)
  }

  ghost function After(env: Env, idx: Index, op: Op): Index
    requires idx.rootId in idx.folders
  {
    match Outcome(env, idx, op)
    case Ok(r) => r
    case Err(_) => idx
  }

  ghost predicate Good(env: Env, idx: Index) {
    IndexOk(env, idx) && OneSourcePerSubtree(idx)
  }

  lemma RootThere(env: Env, idx: Index)
    requires IndexOk(env, idx)
    ensures idx.rootId in idx.folders
  {
  }

  /** A folder renamed where it is keeps its source and whatever is below it. */
  lemma RenameGood(env: Env, idx: Index, id: Id, name: string)
    requires Good(env, idx) && idx.rootId in idx.folders && id in idx.folders
    requires PutFolder(env, idx, idx.folders[id].(name := name)).Ok?
    ensures OneSourcePerSubtree(PutFolder(env, idx, idx.folders[id].(name := name)).value)
  {
    hide FoldersOk, SessionsOk, Apart, OneSourcePerSubtree, PutFolder, MovedFolder, CanMove;
    var f := idx.folders[id].(name := name);
    OthersNamedApart(env, idx, id);
    NoEmptyId(env, idx);
    if id == idx.rootId {
      RootRenamed(env, idx, f);
    } else {
      var out, target := UpdateIs(env, idx, f);
      ParentKept(env, idx, id);
      if idx.folderDir[id] == target {
        StillThere(idx, out, target);
      } else {
        UpdateCanMove(env, idx, f, out, target);
        RenameKeeps(env, idx, out, idx.folderDir[id], target);
      }
    }
  }

  lemma ParentKept(env: Env, idx: Index, id: Id)
    requires FoldersOk(env, idx) && id in idx.folders && id != idx.rootId
    ensures idx.folders[id].parentId != ""
  {
    RootAlone(env, idx);
  }

  lemma RootRenamed(env: Env, idx: Index, f: Folder)
    requires OneSourcePerSubtree(idx) && idx.rootId in idx.folders && f.id == idx.rootId != ""
    requires f.source == idx.folders[f.id].source
    ensures PutFolder(env, idx, f).Ok? && OneSourcePerSubtree(PutFolder(env, idx, f).value)
  {
    var r := PutFolder(env, idx, f).value;
    SameSources(idx, r);
  }

  /** Where no path and no folder's having a source changes, the rule stays. */
  lemma SameSources(idx: Index, r: Index)
    requires OneSourcePerSubtree(idx) && r.rootId == idx.rootId && r.folderDir == idx.folderDir
    requires forall k :: Sourced(r, k) ==> Sourced(idx, k)
    ensures OneSourcePerSubtree(r)
  {
    forall a, b | Sourced(r, a) && Sourced(r, b) ensures !Above(r, a, b) {
      assert Above(r, a, b) ==> Above(idx, a, b);
    }
  }

  lemma StillThere(idx: Index, out: Folder, target: Path)
    requires OneSourcePerSubtree(idx) && out.id in idx.folders && out.source == idx.folders[out.id].source
    ensures OneSourcePerSubtree(MovedFolder(idx, out, target, target))
  {
    RelocateNothing(idx.folderDir, target);
    SameSources(idx, MovedFolder(idx, out, target, target));
  }

  lemma OpKeeps(env: Env, idx: Index, op: Op)
    requires Good(env, idx) && idx.rootId in idx.folders
    ensures Good(env, After(env, idx, op))
  {
    hide IndexOk, OneSourcePerSubtree, PutFolder, DeleteId, SetSource, ClearSource, WithSource, AddFolder;
    if Outcome(env, idx, op).Ok? {
      match op
      case Set(id, src) => SetKeeps(env, idx, id, src);
      case Clear(id) => ClearKeeps(env, idx, id);
      case Create(name, parent, owner) =>
        var f := Folder("", name, parent, "", 0, 0, None, owner);
        CreateIsAdd(env, idx, f);
        AddFolderOk(env, idx, f);
        AddKeeps(env, idx, f);
      case Rename(id, name) =>
        PutFolderOk(env, idx, idx.folders[id].(name := name));
        RenameGood(env, idx, id, name);
      case Remove(id) =>
        DeleteOk(env, idx, id);
        DeleteKeeps(idx, id);
    }
  }

  lemma CreateIsAdd(env: Env, idx: Index, f: Folder)
    requires idx.rootId in idx.folders && f.id == ""
    ensures PutFolder(env, idx, f) == AddFolder(env, idx, f)
  {
  }

  lemma SetKeeps(env: Env, idx: Index, id: Id, src: Source)
    requires Good(env, idx) && SetSource(env, idx, id, src).Ok?
    ensures Good(env, SetSource(env, idx, id, src).value)
  {
    hide IndexOk, OneSourcePerSubtree, WithSource, SourceInTheWay;
    WithSourceOk(env, idx, id, Some(src.(updatedAt := env.clock(idx.tick))));
    SetSourceExact(env, idx, id, src);
  }

  lemma ClearKeeps(env: Env, idx: Index, id: Id)
    requires Good(env, idx) && ClearSource(env, idx, id).Ok?
    ensures Good(env, ClearSource(env, idx, id).value)
  {
    hide IndexOk, OneSourcePerSubtree, WithSource;
    ClearSourceKeeps(env, idx, id);
    if idx.folders[id].source.Some? {
      WithSourceOk(env, idx, id, None);
    }
  }

  /** Where a run of operations gets to. */
  ghost function RunAll(env: Env, idx: Index, ops: seq<Op>): (r: Index)
    requires Good(env, idx)
    ensures Good(env, r)
  {
    if ops == [] then idx
    else
      var mid := RunAll(env, idx, ops[..|ops| - 1]);
      RootThere(env, mid);
      OpKeeps(env, mid, ops[|ops| - 1]);
      After(env, mid, ops[|ops| - 1])
  }

  /** No run of these operations puts one source under another, or one on the root. */
  lemma RunKeeps(env: Env, idx: Index, ops: seq<Op>, a: Id, b: Id)
    requires Good(env, idx)
    ensures var r := RunAll(env, idx, ops);
            && !Sourced(r, r.rootId)
            && (Sourced(r, a) && Sourced(r, b) ==> !Above(r, a, b))
  {
    assert OneSourcePerSubtree(RunAll(env, idx, ops));
  }

  // --------------------------------------------------- why nothing may be moved

  function Plain(id: Id, parent: Id, src: Option<Source>): Folder {
    Folder(id, id, parent, "", 1, 0, src, "")
  }

  /** Two folders with a source side by side. */
  function TwoSources(): Index {
    var src := Some(Source("cfg", 0));
    Index("r", map["r" := Plain("r", "", None), "a" := Plain("a", "r", src), "b" := Plain("b", "r", src)],
          map[], map["r" := [], "a" := ["a"], "b" := ["b"]], map[], 0)
  }

  lemma TwoSourcesGood()
    ensures Good(SomeEnv(), TwoSources())
  {
    hide FoldersOk, SessionOk, Env.Valid;
    SomeEnvValid();
    TwoFolders();
    assert ["a"][0] != ["b"][0] && !(["a"] < ["b"]) && !(["b"] < ["a"]);
  }

  lemma TwoFolders()
    ensures FoldersOk(SomeEnv(), TwoSources())
  {
    hide FolderNamesUnique, Injective, SomeEnv, FolderOk;
    RootFolderOk();
    ChildFolderOk("a");
    ChildFolderOk("b");
    TwoNames();
    TwoDirs();
  }

  lemma RootFolderOk()
    ensures FolderOk(TwoSources(), "r")
  {
  }

  lemma ChildFolderOk(id: Id)
    requires id == "a" || id == "b"
    ensures id in TwoSources().folders && FolderOk(TwoSources(), id)
  {
    assert [id][..0] == [];
  }

  lemma TwoNames()
    ensures FolderNamesUnique(SomeEnv(), TwoSources().folders)
  {
    var env, folders := SomeEnv(), TwoSources().folders;
    assert forall k :: k in folders ==> folders[k].name == k;
  }

  lemma TwoDirs()
    ensures Injective(TwoSources().folderDir)
  {
    var m := TwoSources().folderDir;
    assert ["a"][0] == "a" && ["b"][0] == "b" && |["a"]| == 1;
  }

  /** Moving a folder with a source under another that has one is not refused. */
  lemma MoveBreaks() returns (env: Env, idx: Index, f: Folder)
    ensures Good(env, idx) && idx.rootId in idx.folders && f.id in idx.folders && f == idx.folders[f.id].(parentId := f.parentId)
    ensures PutFolder(env, idx, f).Ok? && IndexOk(env, PutFolder(env, idx, f).value)
    ensures !OneSourcePerSubtree(PutFolder(env, idx, f).value)
  {
    hide IndexOk, PutFolder, OneSourcePerSubtree, TwoSources, MovedFolder;
    env, idx := SomeEnv(), TwoSources();
    TwoSourcesGood();
    MoveAllowed();
    f := idx.folders["b"].(parentId := "a");
    BothSourced();
    PutFolderOk(env, idx, f);
  }

  function MovedB(): Folder { TwoSources().folders["b"].(parentId := "a", revision := 2, updatedAt := 0) }

  lemma MoveAllowed()
    ensures TwoSources().rootId in TwoSources().folders && "b" in TwoSources().folders && TwoSources().folders["b"].id == "b"
    ensures PutFolder(SomeEnv(), TwoSources(), TwoSources().folders["b"].(parentId := "a"))
         == Ok(MovedFolder(TwoSources(), MovedB(), ["b"], ["a"] + ["b"]))
  {
    hide Sanitized, TrimSpace, SessionFileName, MovedFolder, FolderClash;
    var env, idx := SomeEnv(), TwoSources();
    LetterName('b');
    assert "b" == ['b'];
    NoneUnderA();
    assert ["b"][0] != (["a"] + ["b"])[0];
  }

  lemma NoneUnderA()
    ensures !FolderClash(SomeEnv(), TwoSources(), "b", "a", "b", ["a"] + ["b"])
  {
  }

  lemma BothSourced()
    ensures !OneSourcePerSubtree(MovedFolder(TwoSources(), MovedB(), ["b"], ["a"] + ["b"]))
  {
    var r := MovedFolder(TwoSources(), MovedB(), ["b"], ["a"] + ["b"]);
    assert ["b"][1..] == [] && ["a"][0] != ["b"][0];
    assert Relocated(["b"], ["b"], ["a"] + ["b"]) == ["a"] + ["b"];
    assert Relocated(["a"], ["b"], ["a"] + ["b"]) == ["a"];
    assert Sourced(r, "a") && Sourced(r, "b") && Above(r, "a", "b");
  }
}
