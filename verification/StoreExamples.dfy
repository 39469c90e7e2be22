/** Small concrete stores, to show what can happen. */
module StoreExamples {
  import opened Wrappers
  import opened StoreNames
  import opened StoreIndex

  function SomeEnv(): Env {
    Env((s: string) => s, (n: nat) => seq(n + 1, _ => 'x'), (n: nat) => 0)
  }

  lemma SomeEnvValid()
    ensures SomeEnv().Valid()
    ensures forall n: nat :: SomeEnv().ulid(n) != "" && SomeEnv().ulid(n)[0] == 'x'
  {
    var env := SomeEnv();
    forall m: nat, n: nat | env.ulid(m) == env.ulid(n) ensures m == n {
      assert |env.ulid(m)| == m + 1 && |env.ulid(n)| == n + 1;
    }
  }

  lemma TrimOne(c: char, cut: char -> bool)
    requires !cut(c)
    ensures Trim([c], cut) == [c]
  {
    assert TrimLeft([c], cut) == [c] && TrimRight([c], cut) == [c];
  }

  /** One letter is a name as it is. */
  lemma LetterName(c: char)
    requires c == 'a' || c == 'b'
    ensures TrimSpace([c]) == [c] && Sanitized([c]) == [c] && SessionFileName([c]) == Some([c] + YAML)
  {
    hide Trim;
    TrimOne(c, IsSpace);
    TrimOne(c, IsSeparator);
    assert SafeChars([c]) == [c];
    assert ([c] + YAML)[0] == c && FOLDER_FILE[0] == 'f';
  }

  lemma EmptyTrims()
    ensures TrimSpace("") == ""
  {
  }
}
