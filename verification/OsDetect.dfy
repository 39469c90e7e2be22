/** Passive OS detection: a chunk-fed line scanner with a ledger of scores. */
module OsDetect {
  import opened Wrappers
  import opened ByteLines

  const OBSERVE_BUDGET: nat := 256 * 1024
  const MAX_TAIL: nat := 512
  const CR: Byte := 13
  const SPACE: Byte := 32

  type Family = string

  datatype Weight = Weight(fam: Family, w: real)

  /** Version and line rules look for a hint, prompt rules match a pattern. */
  datatype Rule = Rule(hits: Bytes -> bool, weights: seq<Weight>, hostBanner: bool)

  function HintRule(hint: Bytes, weights: seq<Weight>, hostBanner: bool): Rule {
    Rule((b: Bytes) => Contains(b, hint), weights, hostBanner)
  }

  /** The rule tables, the escape stripping, and what kind of session this is. */
  datatype Config = Config(version: seq<Rule>, line: seq<Rule>, prompt: seq<Rule>, clean: Bytes -> Bytes,
                           relay: bool, marker: Option<Bytes>)

  datatype Evidence = Evidence(scores: map<Family, real>, version: seq<bool>, line: seq<bool>, prompt: seq<bool>, passed: bool)

  datatype Detection = Detection(ev: Evidence, tail: Bytes, observed: nat, done: bool)

  ghost predicate WeightsOk(rules: seq<Rule>) {
    forall i, j :: 0 <= i < |rules| && 0 <= j < |rules[i].weights| ==>
      rules[i].weights[j].w > 0.0 && rules[i].weights[j].fam != ""
  }

  ghost predicate ConfigOk(cfg: Config) {
    WeightsOk(cfg.version) && WeightsOk(cfg.line) && WeightsOk(cfg.prompt)
  }

  predicate Fits(cfg: Config, ev: Evidence) {
    |ev.version| == |cfg.version| && |ev.line| == |cfg.line| && |ev.prompt| == |cfg.prompt|
  }

  function NoneFired(n: nat): seq<bool> { seq(n, _ => false) }

  function Fresh(cfg: Config): Evidence {
    Evidence(map[], NoneFired(|cfg.version|), NoneFired(|cfg.line|), NoneFired(|cfg.prompt|), false)
  }

  // --------------------------------------------------------------------- scoring

  function ScoreOf(scores: map<Family, real>, fam: Family): real {
    if fam in scores then scores[fam] else 0.0
  }

  function AddWeights(scores: map<Family, real>, weights: seq<Weight>): map<Family, real> {
    if weights == [] then scores
    else
      var s := AddWeights(scores, weights[..|weights| - 1]);
      var fw := weights[|weights| - 1];
      s[fw.fam := ScoreOf(s, fw.fam) + fw.w]
  }

  /** A family's share of a rule. */
  function Share(weights: seq<Weight>, fam: Family): real {
    if weights == [] then 0.0
    else
      Share(weights[..|weights| - 1], fam)
      + if weights[|weights| - 1].fam == fam then weights[|weights| - 1].w else 0.0
  }

  /** A family's share of the rules that fired. */
  function Earned(rules: seq<Rule>, fired: seq<bool>, fam: Family): real
    requires |rules| == |fired|
  {
    if rules == [] then 0.0
    else
      Earned(rules[..|rules| - 1], fired[..|rules| - 1], fam)
      + if fired[|rules| - 1] then Share(rules[|rules| - 1].weights, fam) else 0.0
  }

  /** Every score is the sum of the weights of the rules that fired. */
  ghost predicate Ledger(cfg: Config, ev: Evidence)
    requires Fits(cfg, ev)
  {
    && (forall fam :: ScoreOf(ev.scores, fam)
                      == Earned(cfg.version, ev.version, fam) + Earned(cfg.line, ev.line, fam)
                         + Earned(cfg.prompt, ev.prompt, fam))
    && (forall fam :: fam in ev.scores ==> ev.scores[fam] > 0.0 && fam != "")
  }

  lemma {:induction false} AddedShare(scores: map<Family, real>, weights: seq<Weight>, fam: Family)
    ensures ScoreOf(AddWeights(scores, weights), fam) == ScoreOf(scores, fam) + Share(weights, fam)
  {
    if weights != [] {
      AddedShare(scores, weights[..|weights| - 1], fam);
    }
  }

  lemma {:induction false} AddedPositive(scores: map<Family, real>, weights: seq<Weight>)
    requires forall fam :: fam in scores ==> scores[fam] > 0.0 && fam != ""
    requires forall j :: 0 <= j < |weights| ==> weights[j].w > 0.0 && weights[j].fam != ""
    ensures forall fam :: fam in AddWeights(scores, weights) ==> AddWeights(scores, weights)[fam] > 0.0 && fam != ""
  {
    if weights != [] {
      AddedPositive(scores, weights[..|weights| - 1]);
    }
  }

  /** Firing one more rule adds exactly its share. */
  lemma {:induction false} EarnedMore(rules: seq<Rule>, fired: seq<bool>, i: nat, fam: Family)
    requires |rules| == |fired| && i < |rules| && !fired[i]
    ensures Earned(rules, fired[i := true], fam) == Earned(rules, fired, fam) + Share(rules[i].weights, fam)
    decreases |rules|
  {
    var n := |rules| - 1;
    var more := fired[i := true];
    if i == n {
      assert more[..n] == fired[..n];
    } else {
      EarnedMore(rules[..n], fired[..n], i, fam);
      assert more[..n] == fired[..n][i := true];
    }
  }

  lemma {:induction false} NothingEarned(rules: seq<Rule>, fam: Family)
    ensures Earned(rules, NoneFired(|rules|), fam) == 0.0
  {
    if rules != [] {
      NothingEarned(rules[..|rules| - 1], fam);
      assert NoneFired(|rules|)[..|rules| - 1] == NoneFired(|rules| - 1);
    }
  }

  lemma FreshLedger(cfg: Config)
    ensures Fits(cfg, Fresh(cfg)) && Ledger(cfg, Fresh(cfg))
  {
    forall fam ensures Earned(cfg.version, NoneFired(|cfg.version|), fam) + Earned(cfg.line, NoneFired(|cfg.line|), fam)
                       + Earned(cfg.prompt, NoneFired(|cfg.prompt|), fam) == 0.0
    {
      NothingEarned(cfg.version, fam);
      NothingEarned(cfg.line, fam);
      NothingEarned(cfg.prompt, fam);
    }
  }

  // ----------------------------------------------------------------------- rules

  predicate Hop(cfg: Config, ev: Evidence) {
    cfg.relay && !ev.passed
  }

  /** A rule that may fire now. */
  predicate Fires(cfg: Config, ev: Evidence, r: Rule, fired: bool, text: Bytes) {
    !(Hop(cfg, ev) && r.hostBanner) && !fired && r.hits(text)
  }

  function LineRules(cfg: Config, ev: Evidence, line: Bytes, n: nat): (r: Evidence)
    requires Fits(cfg, ev) && n <= |cfg.line|
    ensures Fits(cfg, r) && r == ev.(line := r.line, scores := r.scores)
  {
    if n == 0 then ev
    else
      var e := LineRules(cfg, ev, line, n - 1);
      if Fires(cfg, e, cfg.line[n - 1], e.line[n - 1], line)
      then e.(line := e.line[n - 1 := true], scores := AddWeights(e.scores, cfg.line[n - 1].weights)) else e
  }

  function LineSeen(cfg: Config, ev: Evidence, line: Bytes): (r: Evidence)
    requires Fits(cfg, ev)
    ensures Fits(cfg, r)
  {
    if line == [] then ev
    else if Hop(cfg, ev) && cfg.marker.Some? then
      if Contains(line, cfg.marker.value) then ev.(passed := true) else ev
    else LineRules(cfg, ev, line, |cfg.line|)
  }

  /** Without trailing carriage returns and spaces. */
  function TrimLine(b: Bytes): (r: Bytes)
    ensures r <= b && (r != [] ==> r[|r| - 1] != CR && r[|r| - 1] != SPACE)
    ensures forall i :: |r| <= i < |b| ==> b[i] == CR || b[i] == SPACE
  {
    if b != [] && (b[|b| - 1] == CR || b[|b| - 1] == SPACE) then TrimLine(b[..|b| - 1]) else b
  }

  /** Without trailing spaces. */
  function TrimSpaces(b: Bytes): (r: Bytes)
    ensures r <= b && (r != [] ==> r[|r| - 1] != SPACE)
    ensures forall i :: |r| <= i < |b| ==> b[i] == SPACE
  {
    if b != [] && b[|b| - 1] == SPACE then TrimSpaces(b[..|b| - 1]) else b
  }

  function LinesSeen(cfg: Config, ev: Evidence, lines: seq<Bytes>): (r: Evidence)
    requires Fits(cfg, ev)
    ensures Fits(cfg, r)
  {
    if lines == [] then ev
    else LineSeen(cfg, LinesSeen(cfg, ev, lines[..|lines| - 1]), TrimLine(lines[|lines| - 1]))
  }

  function PromptRules(cfg: Config, ev: Evidence, text: Bytes, n: nat): (r: Evidence)
    requires Fits(cfg, ev) && n <= |cfg.prompt|
    ensures Fits(cfg, r) && r == ev.(prompt := r.prompt, scores := r.scores)
  {
    if n == 0 then ev
    else
      var e := PromptRules(cfg, ev, text, n - 1);
      if Fires(cfg, e, cfg.prompt[n - 1], e.prompt[n - 1], text)
      then e.(prompt := e.prompt[n - 1 := true], scores := AddWeights(e.scores, cfg.prompt[n - 1].weights)) else e
  }

  function PromptSeen(cfg: Config, ev: Evidence, text: Bytes): (r: Evidence)
    requires Fits(cfg, ev)
    ensures Fits(cfg, r) && r == ev.(prompt := r.prompt, scores := r.scores)
  {
    if text == [] || (Hop(cfg, ev) && cfg.marker.Some?) then ev
    else PromptRules(cfg, ev, text, |cfg.prompt|)
  }

  function VersionRules(cfg: Config, ev: Evidence, v: Bytes, n: nat): (r: Evidence)
    requires Fits(cfg, ev) && n <= |cfg.version|
    ensures Fits(cfg, r) && r == ev.(version := r.version, scores := r.scores)
  {
    if n == 0 then ev
    else
      var e := VersionRules(cfg, ev, v, n - 1);
      if !e.version[n - 1] && cfg.version[n - 1].hits(v)
      then e.(version := e.version[n - 1 := true], scores := AddWeights(e.scores, cfg.version[n - 1].weights)) else e
  }

  function Observed(cfg: Config, d: Detection, p: Bytes): (r: Detection)
    requires Fits(cfg, d.ev)
    ensures Fits(cfg, r.ev)
  {
    if d.done then d
    else
      var data := d.tail + p;
      var tail := LastBytes(Tail(data), MAX_TAIL);
      var ev := PromptSeen(cfg, LinesSeen(cfg, d.ev, Complete(data)), TrimSpaces(cfg.clean(tail)));
      var done := d.observed + |p| > OBSERVE_BUDGET;
      Detection(ev, if done then [] else tail, d.observed + |p|, done)
  }

  // ---------------------------------------------------------- the ledger is kept

  lemma OneFired(cfg: Config, ev: Evidence, rules: seq<Rule>, fired: seq<bool>, i: nat)
    requires WeightsOk(rules) && |rules| == |fired| && i < |rules| && !fired[i]
    requires forall fam :: fam in ev.scores ==> ev.scores[fam] > 0.0 && fam != ""
    ensures var scores := AddWeights(ev.scores, rules[i].weights);
            && (forall fam :: fam in scores ==> scores[fam] > 0.0 && fam != "")
            && (forall fam :: ScoreOf(scores, fam) - Earned(rules, fired[i := true], fam)
                              == ScoreOf(ev.scores, fam) - Earned(rules, fired, fam))
  {
    AddedPositive(ev.scores, rules[i].weights);
    forall fam
      ensures ScoreOf(AddWeights(ev.scores, rules[i].weights), fam) - Earned(rules, fired[i := true], fam)
           == ScoreOf(ev.scores, fam) - Earned(rules, fired, fam)
    {
      AddedShare(ev.scores, rules[i].weights, fam);
      EarnedMore(rules, fired, i, fam);
    }
  }

  lemma {:induction false} LineRulesLedger(cfg: Config, ev: Evidence, line: Bytes, n: nat)
    requires ConfigOk(cfg) && Fits(cfg, ev) && Ledger(cfg, ev) && n <= |cfg.line|
    ensures Ledger(cfg, LineRules(cfg, ev, line, n))
  {
    hide WeightsOk, AddWeights, ScoreOf, Earned;
    if n > 0 {
      LineRulesLedger(cfg, ev, line, n - 1);
      var e := LineRules(cfg, ev, line, n - 1);
      if !e.line[n - 1] {
        OneFired(cfg, e, cfg.line, e.line, n - 1);
      }
    }
  }

  lemma {:induction false} PromptRulesLedger(cfg: Config, ev: Evidence, text: Bytes, n: nat)
    requires ConfigOk(cfg) && Fits(cfg, ev) && Ledger(cfg, ev) && n <= |cfg.prompt|
    ensures Ledger(cfg, PromptRules(cfg, ev, text, n))
  {
    hide WeightsOk, AddWeights, ScoreOf, Earned;
    if n > 0 {
      PromptRulesLedger(cfg, ev, text, n - 1);
      var e := PromptRules(cfg, ev, text, n - 1);
      if !e.prompt[n - 1] {
        OneFired(cfg, e, cfg.prompt, e.prompt, n - 1);
      }
    }
  }

  lemma {:induction false} VersionRulesLedger(cfg: Config, ev: Evidence, v: Bytes, n: nat)
    requires ConfigOk(cfg) && Fits(cfg, ev) && Ledger(cfg, ev) && n <= |cfg.version|
    ensures Ledger(cfg, VersionRules(cfg, ev, v, n))
  {
    hide WeightsOk, AddWeights, ScoreOf, Earned;
    if n > 0 {
      VersionRulesLedger(cfg, ev, v, n - 1);
      var e := VersionRules(cfg, ev, v, n - 1);
      if !e.version[n - 1] && cfg.version[n - 1].hits(v) {
        var r := VersionRules(cfg, ev, v, n);
        OneFired(cfg, e, cfg.version, e.version, n - 1);
        assert r == e.(version := e.version[n - 1 := true], scores := AddWeights(e.scores, cfg.version[n - 1].weights));
        forall fam
          ensures ScoreOf(r.scores, fam) == Earned(cfg.version, r.version, fam) + Earned(cfg.line, r.line, fam)
                                            + Earned(cfg.prompt, r.prompt, fam)
        {
          assert ScoreOf(r.scores, fam) - Earned(cfg.version, r.version, fam)
              == ScoreOf(e.scores, fam) - Earned(cfg.version, e.version, fam);
        }
      }
    }
  }

  lemma {:induction false} LinesLedger(cfg: Config, ev: Evidence, lines: seq<Bytes>)
    requires ConfigOk(cfg) && Fits(cfg, ev) && Ledger(cfg, ev)
    ensures Ledger(cfg, LinesSeen(cfg, ev, lines))
  {
    hide ConfigOk, LineRules, ScoreOf, Earned;
    if lines != [] {
      var e := LinesSeen(cfg, ev, lines[..|lines| - 1]);
      LinesLedger(cfg, ev, lines[..|lines| - 1]);
      LineRulesLedger(cfg, e, TrimLine(lines[|lines| - 1]), |cfg.line|);
    }
  }

  /** Whatever is observed, scores stay the sums of the weights of the rules that fired. */
  lemma ObservedLedger(cfg: Config, d: Detection, p: Bytes)
    requires ConfigOk(cfg) && Fits(cfg, d.ev) && Ledger(cfg, d.ev)
    ensures Ledger(cfg, Observed(cfg, d, p).ev)
  {
    hide ConfigOk, LinesSeen, PromptRules, Ledger, Complete, Tail;
    var data := d.tail + p;
    var ev := LinesSeen(cfg, d.ev, Complete(data));
    LinesLedger(cfg, d.ev, Complete(data));
    PromptRulesLedger(cfg, ev, TrimSpaces(cfg.clean(LastBytes(Tail(data), MAX_TAIL))), |cfg.prompt|);
  }
}
