/** Names on disk: sanitizing, session file names, folder path components. */
module StoreNames {
  import opened Wrappers

  const FOLDER_FILE := "folder.yaml"
  const YAML := ".yaml"

  // ------------------------------------------------------------------ trimming

  /** unicode.IsSpace. */
  predicate IsSpace(c: char) {
    var n := c as int;
    9 <= n <= 13 || n == 32 || n == 0x85 || n == 0xA0 || n == 0x1680 || 0x2000 <= n <= 0x200a
    || n == 0x2028 || n == 0x2029 || n == 0x202f || n == 0x205f || n == 0x3000
  }

  function TrimLeft(s: string, cut: char -> bool): (r: string)
    ensures r != [] ==> !cut(r[0])
    ensures |r| <= |s| && r == s[|s| - |r|..]
    ensures forall i :: 0 <= i < |s| - |r| ==> cut(s[i])
  {
    if s != [] && cut(s[0]) then TrimLeft(s[1..], cut) else s
  }

  function TrimRight(s: string, cut: char -> bool): (r: string)
    ensures r != [] ==> !cut(r[|r| - 1])
    ensures r <= s
    ensures forall i :: |r| <= i < |s| ==> cut(s[i])
  {
    if s != [] && cut(s[|s| - 1]) then TrimRight(s[..|s| - 1], cut) else s
  }

  function Trim(s: string, cut: char -> bool): string {
    TrimRight(TrimLeft(s, cut), cut)
  }

  function TrimSpace(s: string): string {
    Trim(s, IsSpace)
  }

  // ---------------------------------------------------------------- sanitizing

  predicate IsSeparator(c: char) {
    c == '-' || c == '_' || c == '.'
  }

  predicate IsSafe(c: char) {
    'a' <= c <= 'z' || 'A' <= c <= 'Z' || '0' <= c <= '9' || IsSeparator(c)
  }

  function SafeChar(c: char): char {
    if IsSafe(c) then c else if c == ' ' then '_' else '-'
  }

  function SafeChars(name: string): (r: string)
    ensures |r| == |name|
  {
    seq(|name|, i requires 0 <= i < |name| => SafeChar(name[i]))
  }

  function Sanitized(name: string): string {
    Trim(SafeChars(name), IsSeparator)
  }

  method SanitizeName(name: string) returns (r: string)
    ensures r == Sanitized(name)
  {
    hide IsSafe;
    var b := "";
    for i := 0 to |name|
      invariant b == SafeChars(name[..i])
    {
      var c := name[i];
      assert SafeChars(name[..i + 1]) == SafeChars(name[..i]) + [SafeChar(c)];
      if IsSafe(c) {
        b := b + [c];
      } else if c == ' ' {
        b := b + ['_'];
      } else {
        b := b + ['-'];
      }
    }
    assert name[..|name|] == name;
    r := Trim(b, IsSeparator);
  }

  /** File-system-safe: only safe characters, no separator at either end (so never "." or "..", never hidden). */
  predicate CleanName(s: string) {
    && (forall i :: 0 <= i < |s| ==> IsSafe(s[i]))
    && (s != [] ==> !IsSeparator(s[0]) && !IsSeparator(s[|s| - 1]))
  }

  lemma SanitizedIsClean(name: string)
    ensures CleanName(Sanitized(name))
  {
    hide IsSafe, IsSeparator, TrimLeft, TrimRight;
    var b := SafeChars(name);
    forall i | 0 <= i < |b| ensures IsSafe(b[i]) {
      SafeCharIsSafe(name[i]);
    }
    var l := TrimLeft(b, IsSeparator);
    forall i | 0 <= i < |l| ensures IsSafe(l[i]) {
      assert l[i] == b[|b| - |l| + i];
    }
    var r := TrimRight(l, IsSeparator);
    assert r != [] ==> r[0] == l[0];
  }

  lemma SafeCharIsSafe(c: char)
    ensures IsSafe(SafeChar(c))
  {
  }

  /** A name is kept as it is exactly when it is clean already; so sanitizing twice changes nothing. */
  lemma CleanKept(name: string)
    ensures Sanitized(name) == name <==> CleanName(name)
    ensures Sanitized(Sanitized(name)) == Sanitized(name)
  {
    SanitizedIsClean(name);
    StaysClean(name);
    StaysClean(Sanitized(name));
  }

  lemma StaysClean(name: string)
    ensures CleanName(name) ==> Sanitized(name) == name
  {
    if CleanName(name) {
      assert SafeChars(name) == name;
    }
  }

  /**
   * Every safe character is kept, a space becomes an underscore and anything else a hyphen, save
   * for what would be separators at either end, which are dropped.
   */
  lemma SanitizedChars(name: string) returns (skip: nat)
    ensures skip + |Sanitized(name)| <= |name|
    ensures forall i :: 0 <= i < |name| && !(skip <= i < skip + |Sanitized(name)|) ==>
              IsSeparator(name[i]) || !IsSafe(name[i])
    ensures forall i :: 0 <= i < |Sanitized(name)| ==>
              Sanitized(name)[i] == if IsSafe(name[skip + i]) then name[skip + i] else if name[skip + i] == ' ' then '_' else '-'
  {
    hide IsSafe, IsSeparator, TrimLeft, TrimRight;
    var l := TrimLeft(SafeChars(name), IsSeparator);
    skip := |name| - |l|;
    assert TrimRight(l, IsSeparator) <= l;
    assert l == SafeChars(name)[skip..];
    var b := SafeChars(name);
    forall i | 0 <= i < |name| && !(skip <= i < skip + |Sanitized(name)|) ensures IsSeparator(name[i]) || !IsSafe(name[i]) {
      if i >= skip {
        assert l[i - skip] == b[i];
      }
      assert IsSeparator(b[i]);
    }
  }

  /** The file a session of this name is stored in, if there is one. */
  function SessionFileName(name: string): Option<string> {
    var base := Sanitized(name);
    if base == "" then None
    else if base + YAML == FOLDER_FILE then Some("s-" + FOLDER_FILE)
    else Some(base + YAML)
  }

  /** Loaded as a session: not hidden, a .yaml file, not the folder's own record. */
  predicate IsSessionFile(fn: string) {
    && fn != [] && fn[0] != '.' && fn != FOLDER_FILE
    && |fn| >= |YAML| && fn[|fn| - |YAML|..] == YAML
  }

  /** Loaded as a folder: not hidden and not in the way of the parent's own record. */
  predicate IsFolderDir(d: string) {
    d != [] && d[0] != '.' && d != FOLDER_FILE
  }

  lemma FileNameLoads(name: string)
    ensures SessionFileName(name).Some? ==> IsSessionFile(SessionFileName(name).value)
    ensures Sanitized(name) != "" && Sanitized(name) != FOLDER_FILE ==> IsFolderDir(Sanitized(name))
  {
    hide Sanitized;
    SanitizedIsClean(name);
    var base := Sanitized(name);
    if base != "" {
      YamlSuffix(base);
      YamlSuffix("s-folder");
    }
  }

  lemma YamlSuffix(base: string)
    requires base != ""
    ensures (base + YAML)[|base + YAML| - |YAML|..] == YAML && (base + YAML)[0] == base[0]
    ensures "s-folder" + YAML == "s-" + FOLDER_FILE
  {
    assert (base + YAML)[|base|..] == YAML;
  }

  // -------------------------------------------------------------- folder paths

  const MAX_FOLDER_DEPTH: nat := 8

  /** strings.Split(s, "/"). */
  function SplitSlash(s: string): seq<string> {
    if s == "" then [""]
    else if s[|s| - 1] == '/' then SplitSlash(s[..|s| - 1]) + [""]
    else
      var parts := SplitSlash(s[..|s| - 1]);
      if |parts| == 0 then [s] else parts[..|parts| - 1] + [parts[|parts| - 1] + [s[|s| - 1]]]
  }

  function NonEmpty(parts: seq<string>): seq<string> {
    if parts == [] then []
    else
      var p := TrimSpace(parts[|parts| - 1]);
      NonEmpty(parts[..|parts| - 1]) + if p == "" then [] else [p]
  }

  /** The folder names a path stands for; None when it is refused. */
  function PathParts(path: string): Option<seq<string>> {
    var parts := NonEmpty(SplitSlash(path));
    if (exists i :: 0 <= i < |parts| && (parts[i] == "." || parts[i] == "..")) || |parts| > MAX_FOLDER_DEPTH
    then None else Some(parts)
  }

  /** The parts with a slash between any two. */
  function Joined(parts: seq<string>): string {
    if parts == [] then ""
    else if |parts| == 1 then parts[0]
    else Joined(parts[..|parts| - 1]) + "/" + parts[|parts| - 1]
  }

  predicate NoSlash(parts: seq<string>) {
    forall i :: 0 <= i < |parts| ==> '/' !in parts[i]
  }

  /** Splitting at slashes loses nothing: joining the parts, none of which holds a slash, gives the string back. */
  lemma {:induction false} SplitSlashExact(s: string)
    ensures SplitSlash(s) != [] && NoSlash(SplitSlash(s)) && Joined(SplitSlash(s)) == s
  {
    if s != "" {
      var init, c := s[..|s| - 1], s[|s| - 1];
      var parts := SplitSlash(init);
      SplitSlashExact(init);
      assert s == init + [c];
      if c == '/' {
        assert (parts + [""])[..|parts|] == parts;
      } else {
        LastGrows(parts, c);
      }
    }
  }

  lemma LastGrows(parts: seq<string>, c: char)
    requires parts != []
    ensures Joined(parts[..|parts| - 1] + [parts[|parts| - 1] + [c]]) == Joined(parts) + [c]
  {
    var more := parts[..|parts| - 1] + [parts[|parts| - 1] + [c]];
    assert more[..|parts| - 1] == parts[..|parts| - 1];
  }

  /** And no other parts do: what was joined is split again. */
  lemma {:induction false} JoinedSplits(parts: seq<string>)
    requires parts != [] && NoSlash(parts)
    ensures SplitSlash(Joined(parts)) == parts
    decreases |parts|
  {
    var init, last := parts[..|parts| - 1], parts[|parts| - 1];
    if init == [] {
      SplitsAfter("", last);
      assert parts == [last] && "" + last == last;
    } else {
      JoinedSplits(init);
      var head := Joined(init) + "/";
      assert head[..|head| - 1] == Joined(init);
      assert SplitSlash(head) == init + [""];
      SplitsAfter(head, last);
      assert parts == init + [last] && "" + last == last;
    }
  }

  lemma SplitOneMore(s: string, c: char)
    requires c != '/' && SplitSlash(s) != []
    ensures var parts := SplitSlash(s);
            SplitSlash(s + [c]) == parts[..|parts| - 1] + [parts[|parts| - 1] + [c]]
  {
    assert (s + [c])[..|s|] == s;
  }

  lemma {:induction false} SplitsAfter(head: string, last: string)
    requires '/' !in last
    ensures var parts := SplitSlash(head);
            |parts| > 0 && SplitSlash(head + last) == parts[..|parts| - 1] + [parts[|parts| - 1] + last]
    decreases |last|
  {
    hide SplitSlash;
    SplitSlashExact(head);
    var parts := SplitSlash(head);
    if last == "" {
      assert head + last == head && parts[|parts| - 1] + last == parts[|parts| - 1];
    } else {
      var init, c := last[..|last| - 1], last[|last| - 1];
      assert c in last;
      SplitsAfter(head, init);
      assert head + last == (head + init) + [c];
      SplitOneMore(head + init, c);
      assert parts[|parts| - 1] + last == (parts[|parts| - 1] + init) + [c];
    }
  }

  /** Blank parts go, the others stay in order, trimmed. */
  lemma {:induction false} NonEmptyConcat(a: seq<string>, b: seq<string>)
    ensures NonEmpty(a + b) == NonEmpty(a) + NonEmpty(b)
    ensures |b| == 1 ==> NonEmpty(b) == if TrimSpace(b[0]) == "" then [] else [TrimSpace(b[0])]
    decreases |b|
  {
    hide TrimSpace;
    if b == [] {
      assert a + b == a;
    } else {
      NonEmptyConcat(a, b[..|b| - 1]);
      assert (a + b)[..|a + b| - 1] == a + b[..|b| - 1];
    }
  }

  /** A folder name as a path component: not blank, trimmed, without a slash and no dot name. */
  predicate IsComponent(p: string) {
    && p != "" && !IsSpace(p[0]) && !IsSpace(p[|p| - 1]) && '/' !in p && p != "." && p != ".."
  }

  lemma TrimmedPart(p: string)
    ensures TrimSpace(p) != "" ==> !IsSpace(TrimSpace(p)[0]) && !IsSpace(TrimSpace(p)[|TrimSpace(p)| - 1])
    ensures '/' !in p ==> '/' !in TrimSpace(p)
    ensures p != "" && !IsSpace(p[0]) && !IsSpace(p[|p| - 1]) ==> TrimSpace(p) == p
  {
    hide IsSpace, TrimLeft, TrimRight;
    var l := TrimLeft(p, IsSpace);
    var r := TrimRight(l, IsSpace);
    assert r != [] ==> r[0] == l[0];
    forall c | c in r ensures c in p {
      assert c in l;
    }
    if p != "" && !IsSpace(p[0]) && !IsSpace(p[|p| - 1]) {
      assert l == p;
      assert r == l;
    }
  }

  lemma {:induction false} NonEmptyParts(parts: seq<string>)
    requires NoSlash(parts)
    ensures forall i :: 0 <= i < |NonEmpty(parts)| ==>
              var p := NonEmpty(parts)[i]; p != "" && !IsSpace(p[0]) && !IsSpace(p[|p| - 1]) && '/' !in p
  {
    hide IsSpace, TrimSpace;
    if parts != [] {
      NonEmptyParts(parts[..|parts| - 1]);
      TrimmedPart(parts[|parts| - 1]);
    }
  }

  lemma {:induction false} ComponentsStay(parts: seq<string>)
    requires forall i :: 0 <= i < |parts| ==> IsComponent(parts[i])
    ensures NonEmpty(parts) == parts && NoSlash(parts)
  {
    hide IsSpace, TrimSpace;
    if parts != [] {
      ComponentsStay(parts[..|parts| - 1]);
      TrimmedPart(parts[|parts| - 1]);
      assert parts == parts[..|parts| - 1] + [parts[|parts| - 1]];
    }
  }

  /**
   * The folder names of a path are at most eight components, and joined they stand for themselves again;
   * any components are the names of some path, unless there are too many.
   */
  lemma PathPartsExact(path: string)
    ensures PathParts(path).Some? ==>
              var parts := PathParts(path).value;
              && |parts| <= MAX_FOLDER_DEPTH && (forall i :: 0 <= i < |parts| ==> IsComponent(parts[i]))
              && PathParts(Joined(parts)) == Some(parts)
  {
    hide IsSpace, TrimSpace, SplitSlash, NonEmpty, Joined;
    if PathParts(path).Some? {
      SplitSlashExact(path);
      NonEmptyParts(SplitSlash(path));
      ComponentsJoined(PathParts(path).value);
    }
  }

  lemma ComponentsJoined(parts: seq<string>)
    requires forall i :: 0 <= i < |parts| ==> IsComponent(parts[i])
    ensures PathParts(Joined(parts)) == if |parts| <= MAX_FOLDER_DEPTH then Some(parts) else None
  {
    hide IsSpace, TrimSpace, SplitSlash, NonEmpty, Joined;
    ComponentsStay(parts);
    if parts == [] {
      BlankPath();
    } else {
      JoinedSplits(parts);
    }
  }

  lemma BlankPath()
    ensures Joined([]) == "" && NonEmpty(SplitSlash("")) == []
  {
    assert SplitSlash("") == [""] && [""][..0] == [];
    assert TrimSpace("") == "";
  }

  /** A path is refused exactly when one of its trimmed parts is a dot name or more than eight are not blank. */
  lemma PathRefusedIff(raw: seq<string>)
    requires raw != [] && NoSlash(raw)
    ensures PathParts(Joined(raw)) == None <==>
              (exists i :: 0 <= i < |raw| && (TrimSpace(raw[i]) == "." || TrimSpace(raw[i]) == ".."))
              || |NonEmpty(raw)| > MAX_FOLDER_DEPTH
  {
    hide TrimSpace, SplitSlash, NonEmpty, Joined;
    JoinedSplits(raw);
    NonEmptyKeeps(raw);
    var parts := NonEmpty(raw);
    assert (exists i :: 0 <= i < |parts| && (parts[i] == "." || parts[i] == "..")) <==> "." in parts || ".." in parts;
    assert "." in parts <==> exists i :: 0 <= i < |raw| && TrimSpace(raw[i]) == ".";
    assert ".." in parts <==> exists i :: 0 <= i < |raw| && TrimSpace(raw[i]) == "..";
  }

  lemma {:induction false} NonEmptyKeeps(parts: seq<string>)
    ensures forall p: string :: p in NonEmpty(parts) <==> p != "" && exists i :: 0 <= i < |parts| && TrimSpace(parts[i]) == p
  {
    hide TrimSpace;
    if parts != [] {
      var init, last := parts[..|parts| - 1], TrimSpace(parts[|parts| - 1]);
      NonEmptyKeeps(init);
      forall p: string ensures p in NonEmpty(parts) <==> p != "" && exists i :: 0 <= i < |parts| && TrimSpace(parts[i]) == p {
        if i :| 0 <= i < |init| && TrimSpace(init[i]) == p {
          assert TrimSpace(parts[i]) == p;
        }
        assert last == p ==> TrimSpace(parts[|parts| - 1]) == p;
      }
    }
  }

  /**
   * Two session names share a file exactly when they are the same once sanitized, or one becomes "folder",
   * which makes way for the folder's own record, and the other "s-folder".
   */
  lemma SameFileIff(a: string, b: string)
    requires Sanitized(a) != "" && Sanitized(b) != ""
    ensures SessionFileName(a) == SessionFileName(b) <==>
              || Sanitized(a) == Sanitized(b)
              || (Sanitized(a) == "folder" && Sanitized(b) == "s-folder")
              || (Sanitized(a) == "s-folder" && Sanitized(b) == "folder")
  {
    hide Sanitized;
    var x, y := Sanitized(a), Sanitized(b);
    YamlSuffix("s-folder");
    YamlEqual(x, y);
    YamlEqual(x, "folder");
    YamlEqual(y, "folder");
    YamlEqual(x, "s-folder");
    YamlEqual(y, "s-folder");
    assert "folder" + YAML == FOLDER_FILE;
  }

  lemma YamlEqual(a: string, b: string)
    ensures a + YAML == b + YAML <==> a == b
  {
    if a + YAML == b + YAML {
      assert a == (a + YAML)[..|a + YAML| - |YAML|];
      assert b == (b + YAML)[..|b + YAML| - |YAML|];
    }
  }
}
