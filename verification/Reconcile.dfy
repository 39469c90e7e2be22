/** Import reconcile on the store's index: what it does, and what it guarantees. */
module Reconcile {
  import opened Wrappers
  import opened StoreNames
  import opened StoreIndex
  import opened StoreMove
  import opened Prune

  datatype Record = Record(externalId: string, name: string, host: string, port: int, user: string, proto: string,
                           tags: seq<string>, folder: string)

  datatype By = ByHost | ByExternalId

  /** What became of a record. */
  datatype Fate = Added(id: Id) | Updated(id: Id) | Skipped

  datatype Report = Report(added: nat, updated: nat, removed: nat, skipped: nat)

  function Key(mode: By, externalId: string, host: string): string {
    if mode == ByExternalId then "e:" + externalId else "h:" + host
  }

  function RecordKey(mode: By, r: Record): string { Key(mode, r.externalId, r.host) }

  function SessionKey(mode: By, s: Session): string { Key(mode, s.externalId, s.host) }

  // ------------------------------------------------------------------- folder paths

  predicate IsChildNamed(env: Env, idx: Index, parent: Id, name: string, k: Id) {
    k in idx.folders && idx.folders[k].parentId == parent && env.EqualFold(idx.folders[k].name, name)
  }

  ghost function ChildNamed(env: Env, idx: Index, parent: Id, name: string): Option<Id> {
    if exists k :: IsChildNamed(env, idx, parent, name, k)
    then var k :| IsChildNamed(env, idx, parent, name, k); Some(k)
    else None
  }

  function AutoFolder(name: string, parent: Id, src: Id): Folder {
    Folder("", name, parent, "", 0, 0, None, src)
  }

  /** Follows the parts from `parent`, creating the folders that are missing. */
  ghost function Descend(env: Env, idx: Index, src: Id, parent: Id, parts: seq<string>): Result<(Index, Id), StoreError>
    decreases |parts|
  {
    if parts == [] then Ok((idx, parent))
    else
      match ChildNamed(env, idx, parent, parts[0])
      case Some(k) => Descend(env, idx, src, k, parts[1..])
      case None =>
        match AddFolder(env, idx, AutoFolder(parts[0], parent, src))
        case Err(e) => Err(e)
        case Ok(r) =>
          match ChildNamed(env, r, parent, parts[0])
          case None => Err(NotFound)
          case Some(k) => Descend(env, r, src, k, parts[1..])
  }

  function Slash(c: char): bool { c == '/' }

  function FolderParts(r: Record): Option<seq<string>> {
    PathParts(Trim(r.folder, Slash))
  }

  ghost function EnsurePath(env: Env, idx: Index, src: Id, r: Record): Result<(Index, Id), StoreError> {
    match FolderParts(r)
    case None => Err(BadPath)
    case Some(parts) => Descend(env, idx, src, src, parts)
  }

  /** The folder the parts lead to from `parent`. */
  ghost predicate Resolves(env: Env, idx: Index, parent: Id, parts: seq<string>, leaf: Id)
    decreases |parts|
  {
    if parts == [] then leaf == parent
    else exists k :: IsChildNamed(env, idx, parent, parts[0], k) && Resolves(env, idx, k, parts[1..], leaf)
  }

  /** Only folders owned by the source were added; all else about folders is as before. */
  ghost predicate Grown(idx: Index, r: Index, src: Id) {
    && r.rootId == idx.rootId && r.tick >= idx.tick
    && (forall k :: k in idx.folders ==> k in r.folders && r.folders[k] == idx.folders[k])
    && (forall k :: k in idx.folderDir ==> k in r.folderDir && r.folderDir[k] == idx.folderDir[k])
    && (forall k :: k in r.folders && k !in idx.folders ==> Owned(r, src, k) && r.folders[k].source.None?)
  }

  lemma GrownTrans(a: Index, b: Index, c: Index, src: Id)
    requires Grown(a, b, src) && Grown(b, c, src)
    ensures Grown(a, c, src)
  {
  }

  lemma {:induction false} ResolvesGrown(env: Env, idx: Index, r: Index, src: Id, parent: Id, parts: seq<string>, leaf: Id)
    requires Resolves(env, idx, parent, parts, leaf) && Grown(idx, r, src)
    ensures Resolves(env, r, parent, parts, leaf)
    decreases |parts|
  {
    if parts != [] {
      var k :| IsChildNamed(env, idx, parent, parts[0], k) && Resolves(env, idx, k, parts[1..], leaf);
      ResolvesGrown(env, idx, r, src, k, parts[1..], leaf);
      assert IsChildNamed(env, r, parent, parts[0], k);
    }
  }

  lemma OneChild(env: Env, idx: Index, parent: Id, name: string, a: Id, b: Id)
    requires FoldersOk(env, idx) && IsChildNamed(env, idx, parent, name, a) && IsChildNamed(env, idx, parent, name, b)
    ensures a == b
  {
    assert SameFolderName(env, idx.folders[a], idx.folders[b]);
  }

  /** The descent succeeds at a folder the path leads to, and only grows the tree. */
  lemma {:induction false} DescendOk(env: Env, idx: Index, src: Id, parent: Id, parts: seq<string>)
    requires IndexOk(env, idx) && parent in idx.folders && Descend(env, idx, src, parent, parts).Ok?
    ensures var (r, leaf) := Descend(env, idx, src, parent, parts).value;
            && IndexOk(env, r) && Grown(idx, r, src) && leaf in r.folders && Resolves(env, r, parent, parts, leaf)
            && r.sessions == idx.sessions && r.sessionFile == idx.sessionFile
    decreases |parts|
  {
    hide IndexOk, Grown, AddFolder, IsChildNamed;
    if parts == [] {
      GrownRefl(idx, src);
    } else {
      var start := idx;
      if ChildNamed(env, idx, parent, parts[0]).None? {
        AddGrows(env, idx, AutoFolder(parts[0], parent, src), src);
        start := AddFolder(env, idx, AutoFolder(parts[0], parent, src)).value;
      } else {
        GrownRefl(idx, src);
      }
      var k := ChildNamed(env, start, parent, parts[0]).value;
      ChildIn(env, start, parent, parts[0], k);
      DescendOk(env, start, src, k, parts[1..]);
      var (r, leaf) := Descend(env, idx, src, parent, parts).value;
      ChildGrown(env, start, r, src, parent, parts[0], k);
      GrownTrans(idx, start, r, src);
    }
  }

  lemma GrownRefl(idx: Index, src: Id)
    ensures Grown(idx, idx, src)
  {
  }

  lemma ChildIn(env: Env, idx: Index, parent: Id, name: string, k: Id)
    requires IsChildNamed(env, idx, parent, name, k)
    ensures k in idx.folders
  {
  }

  lemma ChildGrown(env: Env, idx: Index, r: Index, src: Id, parent: Id, name: string, k: Id)
    requires IsChildNamed(env, idx, parent, name, k) && Grown(idx, r, src)
    ensures IsChildNamed(env, r, parent, name, k)
  {
  }

  lemma AddGrows(env: Env, idx: Index, f: Folder, src: Id)
    requires IndexOk(env, idx) && AddFolder(env, idx, f).Ok? && f.sourceOwner == src && f.source.None?
    ensures var r := AddFolder(env, idx, f).value;
            IndexOk(env, r) && Grown(idx, r, src) && r.sessions == idx.sessions && r.sessionFile == idx.sessionFile
  {
    hide IndexOk, FolderClash, Sanitized, TrimSpace, AddFolder;
    AddFolderOk(env, idx, f);
    var out, d := AddFolderIs(env, idx, f);
    FreshId(env, idx);
  }

  lemma FreshId(env: Env, idx: Index)
    requires IndexOk(env, idx)
    ensures env.ulid(idx.tick) !in idx.folders && env.ulid(idx.tick) !in idx.folderDir
  {
  }

  /** Where the path leads already, the descent goes and creates nothing. */
  lemma {:induction false} DescendExisting(env: Env, idx: Index, src: Id, parent: Id, parts: seq<string>, leaf: Id)
    requires FoldersOk(env, idx) && Resolves(env, idx, parent, parts, leaf)
    ensures Descend(env, idx, src, parent, parts) == Ok((idx, leaf))
    decreases |parts|
  {
    if parts != [] {
      var k :| IsChildNamed(env, idx, parent, parts[0], k) && Resolves(env, idx, k, parts[1..], leaf);
      var j := ChildNamed(env, idx, parent, parts[0]).value;
      OneChild(env, idx, parent, parts[0], j, k);
      DescendExisting(env, idx, src, k, parts[1..], leaf);
    }
  }

  // -------------------------------------------------------------------- one record

  const BLANK := Session("", "", "", "", 0, "", "", [], "", "", "", 0, 0)

  function PortOf(r: Record): int { if r.port == 0 then 22 else r.port }

  function ProtoOf(r: Record): string { if r.proto == "" then "ssh" else r.proto }

  /** The session with the record's fields; options, id and revision stay. */
  function Patched(cur: Session, r: Record, leaf: Id, src: Id): Session {
    cur.(name := r.name, folderId := leaf, host := r.host, port := PortOf(r), user := r.user, proto := ProtoOf(r),
         tags := r.tags, externalId := r.externalId, source := src)
  }

  ghost function Place(env: Env, idx: Index, existing: map<string, Session>, src: Id, mode: By, r: Record)
    : Result<(Index, Fate), StoreError>
  {
    match EnsurePath(env, idx, src, r)
    case Err(e) => Err(e)
    case Ok((mid, leaf)) =>
      var k := RecordKey(mode, r);
      var s := Patched(if k in existing then existing[k] else BLANK, r, leaf, src);
      match PutSession(env, mid, s)
      case Err(e) => if e == Duplicate then Ok((mid, Skipped)) else Err(e)
      case Ok(done) => Ok((done, if k in existing then Updated(s.id) else Added(env.ulid(mid.tick))))
  }

  ghost function PlaceAll(env: Env, idx: Index, existing: map<string, Session>, src: Id, mode: By, rs: seq<Record>)
    : Result<(Index, seq<Fate>), StoreError>
  {
    if rs == [] then Ok((idx, []))
    else
      match PlaceAll(env, idx, existing, src, mode, rs[..|rs| - 1])
      case Err(e) => Err(e)
      case Ok((mid, fates)) =>
        match Place(env, mid, existing, src, mode, rs[|rs| - 1])
        case Err(e) => Err(e)
        case Ok((done, fate)) => Ok((done, fates + [fate]))
  }

  /** The session has the record's normalized fields and sits, with its file, in the record's leaf folder. */
  ghost predicate Lands(env: Env, idx: Index, src: Id, r: Record, id: Id) {
    && id in idx.sessions && id in idx.sessionFile
    && var s := idx.sessions[id];
       && s == Patched(s, r, s.folderId, src)
       && FolderParts(r).Some? && Resolves(env, idx, src, FolderParts(r).value, s.folderId)
       && s.folderId in idx.folderDir && TrimSpace(r.name) != "" && SessionFileName(r.name).Some?
       && idx.sessionFile[id] == idx.folderDir[s.folderId] + [SessionFileName(r.name).value]
  }

  /** The generated sessions, by key, that the reconcile found: for every key of one, some session of that key. */
  ghost predicate Indexes(existing: map<string, Session>, idx: Index, src: Id, mode: By) {
    && (forall k :: k in existing ==>
          existing[k].id in idx.sessions && idx.sessions[existing[k].id] == existing[k]
          && existing[k].source == src && SessionKey(mode, existing[k]) == k)
    && (forall id :: id in idx.sessions && idx.sessions[id].source == src ==> SessionKey(mode, idx.sessions[id]) in existing)
  }

  /** The ids the reconcile found are still there. */
  ghost predicate StillThere(existing: map<string, Session>, idx: Index) {
    forall k :: k in existing ==> existing[k].id in idx.sessions && existing[k].id != ""
  }

  function IdOf(f: Fate): Id
    requires !f.Skipped?
  {
    f.id
  }

  /** Only session id was stored. */
  ghost predicate Touched(mid: Index, done: Index, id: Id) {
    && id in done.sessions && id in done.sessionFile
    && done.sessions == mid.sessions[id := done.sessions[id]]
    && done.sessionFile == mid.sessionFile[id := done.sessionFile[id]]
  }

  /** What one placed record means for the session maps. */
  ghost predicate OnePlaced(env: Env, mid: Index, done: Index, existing: map<string, Session>, src: Id, mode: By,
                            r: Record, fate: Fate) {
    var k := RecordKey(mode, r);
    && (fate.Skipped? ==> done.sessions == mid.sessions && done.sessionFile == mid.sessionFile)
    && (!fate.Skipped? ==>
          Lands(env, done, src, r, IdOf(fate)) && Touched(mid, done, IdOf(fate)))
    && (fate.Added? ==> k !in existing && fate.id !in mid.sessions)
    && (fate.Updated? ==> k in existing && fate.id == existing[k].id)
  }

  /** One record: it lands, alone, or it is skipped and nothing about sessions changes. */
  lemma PlaceOk(env: Env, idx: Index, existing: map<string, Session>, src: Id, mode: By, r: Record)
    requires IndexOk(env, idx) && src in idx.folders && src != "" && StillThere(existing, idx)
    requires Place(env, idx, existing, src, mode, r).Ok?
    ensures var (done, fate) := Place(env, idx, existing, src, mode, r).value;
            IndexOk(env, done) && Grown(idx, done, src) && OnePlaced(env, idx, done, existing, src, mode, r, fate)
  {
    hide IndexOk, PutSession, Lands, Grown, FolderParts;
    var (mid, leaf) := EnsurePath(env, idx, src, r).value;
    DescendOk(env, idx, src, src, FolderParts(r).value);
    var k := RecordKey(mode, r);
    var s := Patched(if k in existing then existing[k] else BLANK, r, leaf, src);
    assert s == Patched(s, r, leaf, src);
    assert FolderParts(r).Some? && Resolves(env, mid, src, FolderParts(r).value, leaf);
    if PutSession(env, mid, s).Ok? {
      assert s.id == "" || s.id in mid.sessions;
      assert src in mid.folders by { StillFolder(idx, mid, src); }
      PutLands(env, mid, s, r, leaf, src);
      GrownTrans(idx, mid, PutSession(env, mid, s).value, src);
    }
  }

  lemma NoEmptyLeaf(env: Env, idx: Index, leaf: Id)
    requires IndexOk(env, idx) && leaf in idx.folders
    ensures leaf != ""
  {
    NoEmptyId(env, idx);
  }

  lemma PutIdNew(env: Env, idx: Index, s: Session)
    requires IndexOk(env, idx) && (s.id == "" || s.id in idx.sessions)
    ensures Stored(env, idx, s, s.folderId).id == (if s.id == "" then env.ulid(idx.tick) else s.id)
    ensures env.ulid(idx.tick) !in idx.sessions
  {
  }

  lemma StillFolder(idx: Index, r: Index, src: Id)
    requires Grown(idx, r, src) && src in idx.folders
    ensures src in r.folders
  {
  }

  lemma PutLands(env: Env, mid: Index, s: Session, r: Record, leaf: Id, src: Id)
    requires IndexOk(env, mid) && src in mid.folders && leaf in mid.folders
    requires s == Patched(s, r, leaf, src) && (s.id == "" || s.id in mid.sessions) && PutSession(env, mid, s).Ok?
    requires FolderParts(r).Some? && Resolves(env, mid, src, FolderParts(r).value, leaf)
    ensures var done := PutSession(env, mid, s).value;
            var id := if s.id == "" then env.ulid(mid.tick) else s.id;
            && IndexOk(env, done) && Grown(mid, done, src) && Lands(env, done, src, r, id)
            && (s.id == "" ==> id !in mid.sessions)
            && done.sessions == mid.sessions[id := done.sessions[id]]
            && done.sessionFile == mid.sessionFile[id := done.sessionFile[id]]
  {
    hide IndexOk, PutSession, SessionClash, SessionFileName, TrimSpace, FolderParts, Resolves;
    NoEmptyLeaf(env, mid, leaf);
    PutSessionOk(env, mid, s);
    var folder, fn := PutSessionIs(env, mid, s);
    var done := PutSession(env, mid, s).value;
    PutIdNew(env, mid, s);
    ResolvesGrown(env, mid, done, src, src, FolderParts(r).value, leaf);
  }

  // ------------------------------------------------------------------- all records

  ghost predicate DistinctKeys(mode: By, rs: seq<Record>) {
    forall i, j :: 0 <= i < j < |rs| ==> RecordKey(mode, rs[i]) != RecordKey(mode, rs[j])
  }

  /** The same folder names, ignoring case. */
  predicate SamePath(env: Env, p: seq<string>, q: seq<string>) {
    |p| == |q| && forall i :: 0 <= i < |p| ==> env.EqualFold(p[i], q[i])
  }

  /** The same normalized fields and the same leaf folder. */
  predicate Agree(env: Env, r: Record, q: Record) {
    && r.name == q.name && r.host == q.host && PortOf(r) == PortOf(q) && r.user == q.user && ProtoOf(r) == ProtoOf(q)
    && r.tags == q.tags && r.externalId == q.externalId
    && FolderParts(r).Some? && FolderParts(q).Some? && SamePath(env, FolderParts(r).value, FolderParts(q).value)
  }

  /** Records that share a key share it with a session found at the start, and agree. */
  ghost predicate Agreeing(env: Env, existing: map<string, Session>, mode: By, rs: seq<Record>) {
    forall i, j {:trigger RecordKey(mode, rs[i]), RecordKey(mode, rs[j])} ::
      0 <= i < j < |rs| && RecordKey(mode, rs[i]) == RecordKey(mode, rs[j]) ==>
        RecordKey(mode, rs[i]) in existing && Agree(env, rs[i], rs[j])
  }

  lemma DistinctAgree(env: Env, existing: map<string, Session>, mode: By, rs: seq<Record>)
    requires DistinctKeys(mode, rs)
    ensures Agreeing(env, existing, mode, rs)
  {
  }

  lemma {:induction false} SamePathLeads(env: Env, idx: Index, parent: Id, p: seq<string>, q: seq<string>, leaf: Id)
    requires Resolves(env, idx, parent, p, leaf) && SamePath(env, p, q)
    ensures Resolves(env, idx, parent, q, leaf)
    decreases |p|
  {
    if p != [] {
      var k :| IsChildNamed(env, idx, parent, p[0], k) && Resolves(env, idx, k, p[1..], leaf);
      SamePathLeads(env, idx, k, p[1..], q[1..], leaf);
      assert env.EqualFold(p[0], q[0]);
      assert IsChildNamed(env, idx, parent, q[0], k);
    }
  }

  /** A session that landed for a record landed for every record that agrees with it. */
  lemma LandsAgree(env: Env, idx: Index, src: Id, r: Record, q: Record, id: Id)
    requires Lands(env, idx, src, r, id) && Agree(env, q, r)
    ensures Lands(env, idx, src, q, id)
  {
    hide FolderParts, SessionFileName, TrimSpace, Resolves;
    var s := idx.sessions[id];
    assert SamePath(env, FolderParts(r).value, FolderParts(q).value);
    SamePathLeads(env, idx, src, FolderParts(r).value, FolderParts(q).value, s.folderId);
  }

  /** Each fate is what it says: an old session of that key, or a new one. */
  ghost predicate FateOk(idx0: Index, idx: Index, existing: map<string, Session>, mode: By, r: Record, f: Fate) {
    var k := RecordKey(mode, r);
    match f
    case Skipped => true
    case Added(id) => k !in existing && id in idx.sessions && id !in idx0.sessions
    case Updated(id) => k in existing && id == existing[k].id && id in idx.sessions
  }

  /** Old sessions no record updated are untouched; every new session was added for some record. */
  ghost predicate OnlyFates(idx0: Index, idx: Index, fates: seq<Fate>) {
    && (forall id :: id in idx0.sessions ==> id in idx.sessions)
    && (forall id :: id in idx0.sessions && Updated(id) !in fates ==> SameSession(idx0, idx, id))
    && (forall id :: id in idx.sessions && id !in idx0.sessions ==> Added(id) in fates)
  }

  predicate SameSession(a: Index, b: Index, id: Id) {
    && id in a.sessions && id in b.sessions && b.sessions[id] == a.sessions[id]
    && (id in a.sessionFile <==> id in b.sessionFile) && (id in a.sessionFile ==> b.sessionFile[id] == a.sessionFile[id])
  }

  ghost predicate Placed(env: Env, idx0: Index, idx: Index, existing: map<string, Session>, src: Id, mode: By,
                         rs: seq<Record>, fates: seq<Fate>) {
    && |fates| == |rs| && IndexOk(env, idx) && Grown(idx0, idx, src)
    && OnlyFates(idx0, idx, fates)
    && (forall i :: 0 <= i < |rs| ==> FateOk(idx0, idx, existing, mode, rs[i], fates[i]))
    && (forall i, j :: 0 <= i < j < |rs| && fates[i].Added? ==> fates[i] != fates[j])
    && (forall i :: 0 <= i < |rs| && !fates[i].Skipped? && (fates[i].Added? || Agreeing(env, existing, mode, rs)) ==>
          Lands(env, idx, src, rs[i], IdOf(fates[i])))
  }

  /** A later step that leaves session id alone leaves it landed. */
  lemma LandsKept(env: Env, idx: Index, done: Index, src: Id, r: Record, id: Id)
    requires Lands(env, idx, src, r, id) && Grown(idx, done, src)
    requires id in done.sessions && done.sessions[id] == idx.sessions[id]
    requires id in done.sessionFile && done.sessionFile[id] == idx.sessionFile[id]
    ensures Lands(env, done, src, r, id)
  {
    hide FolderParts, SessionFileName;
    ResolvesGrown(env, idx, done, src, src, FolderParts(r).value, idx.sessions[id].folderId);
  }

  lemma {:induction false} PlaceAllOk(env: Env, idx0: Index, existing: map<string, Session>, src: Id, mode: By, rs: seq<Record>)
    requires IndexOk(env, idx0) && src in idx0.folders && src != "" && Indexes(existing, idx0, src, mode)
    requires PlaceAll(env, idx0, existing, src, mode, rs).Ok?
    ensures var (idx, fates) := PlaceAll(env, idx0, existing, src, mode, rs).value;
            Placed(env, idx0, idx, existing, src, mode, rs, fates)
  {
    hide Placed, IndexOk, Grown, Place;
    if rs == [] {
      NonePlaced(env, idx0, existing, src, mode);
    } else {
      var init, r := rs[..|rs| - 1], rs[|rs| - 1];
      PlaceAllOk(env, idx0, existing, src, mode, init);
      var (mid, fates) := PlaceAll(env, idx0, existing, src, mode, init).value;
      PlacedFacts(env, idx0, mid, existing, src, mode, init, fates);
      PlaceOk(env, mid, existing, src, mode, r);
      var (done, fate) := Place(env, mid, existing, src, mode, r).value;
      PlacedStep(env, idx0, mid, done, existing, src, mode, init, fates, r, fate);
      assert init + [r] == rs;
    }
  }

  lemma NonePlaced(env: Env, idx0: Index, existing: map<string, Session>, src: Id, mode: By)
    requires IndexOk(env, idx0)
    ensures Placed(env, idx0, idx0, existing, src, mode, [], [])
  {
  }

  lemma PlacedFacts(env: Env, idx0: Index, idx: Index, existing: map<string, Session>, src: Id, mode: By,
                    rs: seq<Record>, fates: seq<Fate>)
    requires Placed(env, idx0, idx, existing, src, mode, rs, fates) && IndexOk(env, idx0)
    requires src in idx0.folders && Indexes(existing, idx0, src, mode)
    ensures IndexOk(env, idx) && src in idx.folders && StillThere(existing, idx)
  {
    hide Lands;
    NoEmptySession(env, idx0);
  }

  lemma PlacedStep(env: Env, idx0: Index, mid: Index, done: Index, existing: map<string, Session>, src: Id, mode: By,
                   rs: seq<Record>, fates: seq<Fate>, r: Record, fate: Fate)
    requires Placed(env, idx0, mid, existing, src, mode, rs, fates)
    requires IndexOk(env, done) && Grown(mid, done, src) && OnePlaced(env, mid, done, existing, src, mode, r, fate)
    requires Indexes(existing, idx0, src, mode) && StillThere(existing, mid)
    ensures Placed(env, idx0, done, existing, src, mode, rs + [r], fates + [fate])
  {
    hide IndexOk, Grown, Lands, Indexes, FateOk, OnlyFates;
    GrownTrans(idx0, mid, done, src);
    FatesStep(idx0, mid, done, fates, fate);
    forall i | 0 <= i < |rs + [r]| ensures FateOk(idx0, done, existing, mode, (rs + [r])[i], (fates + [fate])[i]) {
      if i < |rs| {
        FateKept(idx0, mid, done, existing, mode, rs[i], fates[i], fate);
      } else {
        NewFate(env, idx0, mid, done, existing, src, mode, r, fate, fates);
      }
    }
    forall i | 0 <= i < |fates| && fates[i].Added? ensures fates[i] != fate {
      FateThere(idx0, mid, existing, mode, rs[i], fates[i]);
    }
    LandsStep(env, idx0, mid, done, existing, src, mode, rs, fates, r, fate);
  }

  lemma FateThere(idx0: Index, mid: Index, existing: map<string, Session>, mode: By, r: Record, f: Fate)
    requires FateOk(idx0, mid, existing, mode, r, f)
    ensures !f.Skipped? ==> IdOf(f) in mid.sessions
  {
  }

  lemma FateKept(idx0: Index, mid: Index, done: Index, existing: map<string, Session>, mode: By, r: Record, f: Fate, fate: Fate)
    requires FateOk(idx0, mid, existing, mode, r, f)
    requires done.sessions == if fate.Skipped? || IdOf(fate) !in done.sessions then mid.sessions
                              else mid.sessions[IdOf(fate) := done.sessions[IdOf(fate)]]
    ensures FateOk(idx0, done, existing, mode, r, f)
  {
  }

  lemma NewFate(env: Env, idx0: Index, mid: Index, done: Index, existing: map<string, Session>, src: Id, mode: By,
                r: Record, fate: Fate, fates: seq<Fate>)
    requires OnePlaced(env, mid, done, existing, src, mode, r, fate) && OnlyFates(idx0, mid, fates)
    ensures FateOk(idx0, done, existing, mode, r, fate)
  {
    hide Lands;
  }

  /** How the fates of the earlier records carry over one more step. */
  lemma FatesStep(idx0: Index, mid: Index, done: Index, fates: seq<Fate>, fate: Fate)
    requires OnlyFates(idx0, mid, fates)
    requires fate.Skipped? ==> done.sessions == mid.sessions && done.sessionFile == mid.sessionFile
    requires !fate.Skipped? ==> Touched(mid, done, IdOf(fate))
    requires fate.Added? ==> fate.id !in mid.sessions
    requires fate.Updated? ==> fate.id in mid.sessions
    ensures OnlyFates(idx0, done, fates + [fate])
  {
  }

  lemma LandsStep(env: Env, idx0: Index, mid: Index, done: Index, existing: map<string, Session>, src: Id, mode: By,
                  rs: seq<Record>, fates: seq<Fate>, r: Record, fate: Fate)
    requires Placed(env, idx0, mid, existing, src, mode, rs, fates)
    requires Grown(mid, done, src) && OnePlaced(env, mid, done, existing, src, mode, r, fate)
    requires Indexes(existing, idx0, src, mode)
    ensures forall i :: 0 <= i < |rs + [r]| && !(fates + [fate])[i].Skipped?
                        && ((fates + [fate])[i].Added? || Agreeing(env, existing, mode, rs + [r])) ==>
              Lands(env, done, src, (rs + [r])[i], IdOf((fates + [fate])[i]))
  {
    hide IndexOk, Grown, Lands, Indexes, FateOk, OnlyFates, Agreeing, Agree;
    forall i | 0 <= i < |rs| && !fates[i].Skipped? && (fates[i].Added? || Agreeing(env, existing, mode, rs + [r]))
      ensures Lands(env, done, src, rs[i], IdOf(fates[i]))
    {
      FateThere(idx0, mid, existing, mode, rs[i], fates[i]);
      AgreeingInit(env, existing, mode, rs, r, i);
      if fate.Skipped? || IdOf(fate) != IdOf(fates[i]) {
        LandsOther(env, mid, done, src, rs[i], IdOf(fates[i]), fate);
      } else {
        SharedId(idx0, mid, existing, src, mode, rs[i], fates[i], r, fate);
        LandsAgree(env, done, src, r, rs[i], IdOf(fate));
      }
    }
  }

  lemma AgreeingInit(env: Env, existing: map<string, Session>, mode: By, rs: seq<Record>, r: Record, i: nat)
    requires i < |rs|
    ensures Agreeing(env, existing, mode, rs + [r]) ==>
              Agreeing(env, existing, mode, rs) && (RecordKey(mode, rs[i]) == RecordKey(mode, r) ==> Agree(env, rs[i], r))
  {
    hide Agree;
    var all := rs + [r];
    assert forall k :: 0 <= k < |rs| ==> all[k] == rs[k];
    assert all[|rs|] == r;
    if Agreeing(env, existing, mode, all) {
      assert RecordKey(mode, all[i]) == RecordKey(mode, all[|rs|]) ==> Agree(env, all[i], all[|rs|]);
      forall j, k | 0 <= j < k < |rs| && RecordKey(mode, rs[j]) == RecordKey(mode, rs[k])
        ensures RecordKey(mode, rs[j]) in existing && Agree(env, rs[j], rs[k])
      {
        assert RecordKey(mode, all[j]) == RecordKey(mode, all[k]);
      }
    }
  }

  lemma LandsOther(env: Env, mid: Index, done: Index, src: Id, r: Record, id: Id, fate: Fate)
    requires Lands(env, mid, src, r, id) && Grown(mid, done, src) && (fate.Skipped? || IdOf(fate) != id)
    requires fate.Skipped? ==> done.sessions == mid.sessions && done.sessionFile == mid.sessionFile
    requires !fate.Skipped? ==> Touched(mid, done, IdOf(fate))
    ensures Lands(env, done, src, r, id)
  {
    hide Grown, Resolves, FolderParts, SessionFileName;
    LandsKept(env, mid, done, src, r, id);
  }

  /** Two records share a session only as updates under one key. */
  lemma SharedId(idx0: Index, mid: Index, existing: map<string, Session>, src: Id, mode: By,
                 r1: Record, f1: Fate, r2: Record, f2: Fate)
    requires Indexes(existing, idx0, src, mode) && !f1.Skipped? && FateOk(idx0, mid, existing, mode, r1, f1)
    requires f2.Added? ==> f2.id !in mid.sessions
    requires f2.Updated? ==> RecordKey(mode, r2) in existing && f2.id == existing[RecordKey(mode, r2)].id
    requires !f2.Skipped? && IdOf(f1) == IdOf(f2)
    ensures f1.Updated? && f2.Updated? && RecordKey(mode, r1) == RecordKey(mode, r2)
  {
  }
}
