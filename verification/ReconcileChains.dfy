/** Chains of empty auto-created folders too long for the bounded prune. */
module ReconcileChains {
  import opened Wrappers
  import opened StoreNames
  import opened StoreIndex
  import opened StoreMove
  import opened Prune
  import opened Reconcile
  import opened Converge
  import opened ReconcileAgain
  import opened StoreExamples

  const SRC: Id := "s"

  function IdAt(k: nat): Id { if k == 0 then SRC else seq(k, _ => 'a') }

  function Level(id: Id): nat { if id == SRC then 0 else |id| }

  function DirAt(k: nat): Path { ["s"] + seq(k, _ => "a") }

  function FolderAt(k: nat): Folder {
    if k == 0 then Folder(SRC, "s", "r", "", 1, 0, Some(Source("cfg", 0)), "")
    else Folder(IdAt(k), "a", IdAt(k - 1), "", 1, 0, None, SRC)
  }

  function Ids(n: nat): set<Id> {
    {"r"} + set k | 0 <= k <= n :: IdAt(k)
  }

  /** A source folder below the root, and below it n empty folders in a row that belong to the source. */
  function Chain(n: nat): Index {
    Index("r", map id | id in Ids(n) :: if id == "r" then Folder("r", "root", "", "", 1, 0, None, "") else FolderAt(Level(id)),
          map[], map id | id in Ids(n) :: if id == "r" then [] else DirAt(Level(id)), map[], 0)
  }

  lemma AtLevel(k: nat)
    ensures Level(IdAt(k)) == k && IdAt(k) != "r" && IdAt(k) != "" && IdAt(k)[0] != 'x'
  {
    assert k > 0 ==> IdAt(k)[0] == 'a';
  }

  lemma IsAt(n: nat, id: Id)
    requires id in Ids(n) && id != "r"
    ensures Level(id) <= n && id == IdAt(Level(id))
  {
    var k :| 0 <= k <= n && id == IdAt(k);
    AtLevel(k);
  }

  lemma Has(n: nat, k: nat)
    requires k <= n
    ensures IdAt(k) in Chain(n).folders && IdAt(k) in Chain(n).folderDir
    ensures Chain(n).folders[IdAt(k)] == FolderAt(k) && Chain(n).folderDir[IdAt(k)] == DirAt(k)
  {
    AtLevel(k);
  }

  lemma ChainFolderOk(n: nat, id: Id)
    requires id in Ids(n)
    ensures FolderOk(Chain(n), id)
  {
    hide IdAt, Chain;
    if id == "r" {
      RootOk(n);
    } else {
      IsAt(n, id);
      LevelOk(n, Level(id));
    }
  }

  lemma RootOk(n: nat)
    ensures "r" in Chain(n).folders && "r" in Chain(n).folderDir && Chain(n).folderDir["r"] == [] && FolderOk(Chain(n), "r")
  {
  }

  lemma LevelOk(n: nat, k: nat)
    requires k <= n
    ensures IdAt(k) in Chain(n).folders && FolderOk(Chain(n), IdAt(k))
  {
    hide IdAt, Chain, Ids;
    Has(n, k);
    AtLevel(k);
    RootOk(n);
    ChainKeys(n);
    OwnIdAt(k);
    DirAbove(k);
    if k > 0 {
      Has(n, k - 1);
    }
  }

  lemma DirAbove(k: nat)
    ensures ChildPath(DirAt(k), if k == 0 then [] else DirAt(k - 1)) && IsFolderDir(DirAt(k)[|DirAt(k)| - 1])
  {
    assert DirAt(k)[..|DirAt(k)| - 1] == if k == 0 then [] else DirAt(k - 1);
  }

  lemma OwnIdAt(k: nat)
    ensures FolderAt(k).id == IdAt(k)
  {
  }

  lemma ChainKeys(n: nat)
    ensures Chain(n).folders.Keys == Ids(n) && Chain(n).folderDir.Keys == Ids(n) && Chain(n).rootId == "r"
    ensures Chain(n).sessions == map[] && Chain(n).sessionFile == map[] && Chain(n).tick == 0
  {
  }

  lemma ChainNames(n: nat)
    ensures FolderNamesUnique(SomeEnv(), Chain(n).folders)
  {
    hide IdAt, SomeEnv, Chain, Ids;
    var folders := Chain(n).folders;
    ChainKeys(n);
    forall a, b | a in folders && b in folders && SameFolderName(SomeEnv(), folders[a], folders[b]) ensures a == b {
      ParentTells(n, a);
      ParentTells(n, b);
    }
  }

  lemma ChainDirs(n: nat)
    ensures Injective(Chain(n).folderDir)
  {
    hide IdAt, Chain, Ids;
    var dirs := Chain(n).folderDir;
    ChainKeys(n);
    forall a, b | a in dirs && b in dirs && dirs[a] == dirs[b] ensures a == b {
      DirTells(n, a);
      DirTells(n, b);
    }
  }

  /** The parent of a folder of the chain gives the folder away. */
  lemma ParentTells(n: nat, id: Id)
    requires id in Ids(n)
    ensures var p := Chain(n).folders[id].parentId;
            id == if p == "" then "r" else if p == "r" then SRC else IdAt(Level(p) + 1)
  {
    hide IdAt;
    if id != "r" {
      IsAt(n, id);
      if Level(id) > 0 {
        AtLevel(Level(id) - 1);
      } else {
        AtZero();
      }
    }
  }

  lemma AtZero()
    ensures IdAt(0) == SRC
  {
  }

  lemma DirTells(n: nat, id: Id)
    requires id in Ids(n)
    ensures var d := Chain(n).folderDir[id];
            id == if d == [] then "r" else IdAt(|d| - 1)
  {
    hide IdAt;
    if id != "r" {
      IsAt(n, id);
    }
  }

  lemma ChainFoldersOk(n: nat)
    ensures FoldersOk(SomeEnv(), Chain(n))
  {
    hide FolderOk, FolderNamesUnique, Injective, IdAt, SomeEnv, Chain;
    ChainNames(n);
    ChainDirs(n);
    ChainKeys(n);
    forall id | id in Ids(n) ensures FolderOk(Chain(n), id) {
      ChainFolderOk(n, id);
    }
  }

  lemma ChainOk(n: nat)
    ensures IndexOk(SomeEnv(), Chain(n))
  {
    hide FoldersOk, IdAt, SomeEnv, Env.Valid, Chain, Ids;
    SomeEnvValid();
    ChainFoldersOk(n);
    ChainKeys(n);
    forall id | id in Ids(n) ensures id != "" && id[0] != 'x' {
      NotMinted(n, id);
    }
  }

  lemma NotMinted(n: nat, id: Id)
    requires id in Ids(n)
    ensures id != "" && id[0] != 'x'
  {
    hide IdAt;
    if id != "r" {
      IsAt(n, id);
      AtLevel(Level(id));
    }
  }

  lemma IsEligible(n: nat, id: Id)
    requires id in Ids(n)
    ensures id in Eligible(Chain(n), SRC) <==> n > 0 && id == IdAt(n)
  {
    hide IdAt, HasChild;
    ChainKeys(n);
    AtLevel(n);
    if id != "r" {
      IsAt(n, id);
      ChildOnly(n, Level(id));
    }
  }

  /** Only the last folder of the chain is empty. */
  lemma LastEligible(n: nat)
    ensures Eligible(Chain(n), SRC) == if n == 0 then {} else {IdAt(n)}
  {
    hide IdAt, Chain, Ids, Owned, HasChild, HasSession;
    ChainKeys(n);
    Has(n, n);
    forall id | id in Chain(n).folders ensures id in Eligible(Chain(n), SRC) <==> n > 0 && id == IdAt(n) {
      IsEligible(n, id);
    }
  }

  lemma ChildOnly(n: nat, k: nat)
    requires k <= n
    ensures HasChild(Chain(n), IdAt(k)) <==> k < n
    ensures Owned(Chain(n), SRC, IdAt(k)) <==> k > 0
  {
    hide IdAt;
    Has(n, k);
    AtLevel(k);
    if k < n {
      Has(n, k + 1);
    }
    if HasChild(Chain(n), IdAt(k)) {
      var c :| c in Chain(n).folders && Chain(n).folders[c].parentId == IdAt(k);
      ParentTells(n, c);
      if k == n {
        AtLevel(n + 1);
        IsAt(n, c);
      }
    }
  }

  lemma InIds(n: nat, k: nat)
    requires k <= n
    ensures IdAt(k) in Ids(n) && "r" in Ids(n)
  {
  }

  lemma FewerIds(n: nat)
    requires n > 0
    ensures Ids(n) - {IdAt(n)} == Ids(n - 1)
  {
    hide IdAt, Ids;
    AtLevel(n);
    InIds(n, n);
    InIds(n - 1, n - 1);
    forall id | id in Ids(n) && id != IdAt(n) ensures id in Ids(n - 1) {
      if id != "r" {
        IsAt(n, id);
        InIds(n - 1, Level(id));
      }
    }
    forall id | id in Ids(n - 1) ensures id in Ids(n) && id != IdAt(n) {
      if id != "r" {
        IsAt(n - 1, id);
        InIds(n, Level(id));
      }
    }
  }

  lemma SameRecord(n: nat, m: nat, id: Id)
    requires id in Ids(n) && id in Ids(m)
    ensures Chain(n).folders[id] == Chain(m).folders[id] && Chain(n).folderDir[id] == Chain(m).folderDir[id]
  {
  }

  lemma Shorter(n: nat)
    requires n > 0
    ensures Without(Chain(n), {IdAt(n)}) == Chain(n - 1)
  {
    hide IdAt, Ids, Chain;
    FewerIds(n);
    ChainKeys(n);
    ChainKeys(n - 1);
    var r, c := Without(Chain(n), {IdAt(n)}), Chain(n - 1);
    assert r.folders.Keys == Ids(n - 1) && r.folderDir.Keys == Ids(n - 1);
    forall id | id in Ids(n - 1) ensures r.folders[id] == c.folders[id] && r.folderDir[id] == c.folderDir[id] {
      assert id in Ids(n);
      SameRecord(n, n - 1, id);
    }
    assert r.folders == c.folders && r.folderDir == c.folderDir;
  }

  function Rest(n: nat, m: nat): nat { if n < m then 0 else n - m }

  lemma {:induction false} ChainPruned(n: nat, m: nat)
    ensures Pruned(Chain(n), SRC, m) == Ok(Chain(Rest(n, m)))
    decreases m
  {
    hide IdAt, Chain, Eligible, Without;
    LastEligible(n);
    ChainKeys(n);
    AtLevel(n);
    if m > 0 && n > 0 {
      Shorter(n);
      ChainPruned(n - 1, m - 1);
    }
  }

  /** A reconcile without records takes nine folders off the end. */
  lemma ChainReconciled(n: nat)
    ensures Indexes(map[], Chain(n), SRC, ByHost)
    ensures Reconciled(SomeEnv(), Chain(n), map[], SRC, ByHost, [])
         == Ok((Chain(Rest(n, MAX_FOLDER_DEPTH + 1)), Report(0, 0, 0, 0)))
  {
    hide IdAt, Pruned, SomeEnv;
    Has(n, 0);
    AtZero();
    ChainKeys(n);
    ChainPruned(n, MAX_FOLDER_DEPTH + 1);
    assert StaleKeys(map[], ByHost, []) == {};
    DropNothing(map[], Chain(n));
  }

  lemma NotComplete(n: nat)
    requires n > 0
    ensures !Complete(Chain(n), SRC)
  {
    hide FoldersOk, SessionsOk, Apart, IdAt, Chain, Eligible, Supported;
    ChainOk(n);
    LastEligible(n);
    assert IdAt(n) in Eligible(Chain(n), SRC);
    if Complete(Chain(n), SRC) {
      PrunedAgain(SomeEnv(), Chain(n), SRC, 1);
      assert false;
    }
  }

  /**
   * Every chain longer than the passes are many: the first reconcile leaves part of it, and a second
   * one, with the same (no) records and nothing skipped, takes more folders away.
   */
  lemma PruneStopsShort(n: nat) returns (first: Index, second: Index)
    requires n > MAX_FOLDER_DEPTH + 1
    ensures IndexOk(SomeEnv(), Chain(n)) && Indexes(map[], Chain(n), SRC, ByHost)
    ensures Reconciled(SomeEnv(), Chain(n), map[], SRC, ByHost, []) == Ok((first, Report(0, 0, 0, 0)))
    ensures !Complete(first, SRC) && Indexes(map[], first, SRC, ByHost)
    ensures Reconciled(SomeEnv(), first, map[], SRC, ByHost, []) == Ok((second, Report(0, 0, 0, 0)))
    ensures !SameButStamp(first, second) && exists id :: id in first.folders && id !in second.folders
  {
    hide FoldersOk, SessionsOk, Apart, IdAt, Chain, Complete, Reconciled, SomeEnv, Indexes;
    var k := n - (MAX_FOLDER_DEPTH + 1);
    first, second := Chain(k), Chain(Rest(k, MAX_FOLDER_DEPTH + 1));
    ChainOk(n);
    ChainReconciled(n);
    ChainReconciled(k);
    NotComplete(k);
    Has(k, k);
    Gone(Rest(k, MAX_FOLDER_DEPTH + 1), k);
    assert IdAt(k) in first.folders && IdAt(k) !in second.folders;
  }

  lemma Gone(n: nat, k: nat)
    requires n < k
    ensures IdAt(k) !in Chain(n).folders
  {
    hide IdAt;
    AtLevel(k);
    if IdAt(k) in Ids(n) {
      IsAt(n, IdAt(k));
    }
  }
}
