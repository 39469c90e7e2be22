/** The detector as the program runs it, and its guess. */
module OsDetector {
  import opened Wrappers
  import opened ByteLines
  import opened OsDetect

  // ----------------------------------------------------------------------- order

  /** String order. */
  predicate Less(a: string, b: string) {
    b != "" && (a == "" || a[0] < b[0] || (a[0] == b[0] && Less(a[1..], b[1..])))
  }

  lemma {:induction false} LessTotal(a: string, b: string)
    ensures a == b || Less(a, b) || Less(b, a)
    ensures !(Less(a, b) && (a == b || Less(b, a)))
    decreases |a|
  {
    if a != "" && b != "" {
      LessTotal(a[1..], b[1..]);
      assert a == [a[0]] + a[1..] && b == [b[0]] + b[1..];
    }
  }

  lemma {:induction false} LessTrans(a: string, b: string, c: string)
    requires Less(a, b) && Less(b, c)
    ensures Less(a, c)
    decreases |a|
  {
    if a != "" && b != "" && c != "" && a[0] == b[0] && b[0] == c[0] {
      LessTrans(a[1..], b[1..], c[1..]);
    }
  }

  // ----------------------------------------------------------------------- guess

  datatype Guess = Unknown | Best(family: Family, confidence: real)

  /** Ahead: a higher score, or the same under an earlier name. */
  predicate Ahead(scores: map<Family, real>, a: Family, b: Family)
    requires a in scores && b in scores
  {
    scores[a] > scores[b] || (scores[a] == scores[b] && Less(a, b))
  }

  ghost predicate IsTop(scores: map<Family, real>, fam: Family) {
    fam in scores && forall g :: g in scores && g != fam ==> Ahead(scores, fam, g)
  }

  /** Sum over some of the families. */
  ghost function Total(scores: map<Family, real>, fams: set<Family>): real
    requires fams <= scores.Keys
  {
    if fams == {} then 0.0
    else var f :| f in fams; scores[f] + Total(scores, fams - {f})
  }

  /** The sum does not depend on the order of summing. */
  lemma {:induction false} TotalWithout(scores: map<Family, real>, fams: set<Family>, f: Family)
    requires fams <= scores.Keys && f in fams
    ensures Total(scores, fams) == scores[f] + Total(scores, fams - {f})
    decreases fams
  {
    var g :| g in fams && Total(scores, fams) == scores[g] + Total(scores, fams - {g});
    if g != f {
      TotalWithout(scores, fams - {g}, f);
      TotalWithout(scores, fams - {f}, g);
      assert fams - {g} - {f} == fams - {f} - {g};
    }
  }

  lemma {:induction false} TotalAtLeast(scores: map<Family, real>, fams: set<Family>, f: Family)
    requires fams <= scores.Keys && f in fams && forall g :: g in scores ==> scores[g] > 0.0
    ensures Total(scores, fams) >= scores[f]
  {
    TotalWithout(scores, fams, f);
    TotalPositive(scores, fams - {f});
  }

  lemma {:induction false} TotalPositive(scores: map<Family, real>, fams: set<Family>)
    requires fams <= scores.Keys && forall g :: g in scores ==> scores[g] > 0.0
    ensures Total(scores, fams) >= 0.0
    decreases fams
  {
    if fams != {} {
      var g :| g in fams && Total(scores, fams) == scores[g] + Total(scores, fams - {g});
      TotalPositive(scores, fams - {g});
    }
  }

  lemma OneTop(scores: map<Family, real>, a: Family, b: Family)
    requires IsTop(scores, a) && IsTop(scores, b)
    ensures a == b
  {
    LessTotal(a, b);
  }

  /** The guess the scores stand for; it mentions no order. */
  ghost predicate IsGuess(scores: map<Family, real>, g: Guess) {
    match g
    case Unknown => scores == map[]
    case Best(fam, c) =>
      && IsTop(scores, fam) && Total(scores, scores.Keys) > 0.0
      && c == scores[fam] / Total(scores, scores.Keys) * (if scores[fam] / 4.0 > 1.0 then 1.0 else scores[fam] / 4.0)
  }

  /** There is one guess, whatever order the families were visited in. */
  lemma OneGuess(scores: map<Family, real>, g: Guess, h: Guess)
    requires IsGuess(scores, g) && IsGuess(scores, h)
    ensures g == h
  {
    if g.Best? && h.Best? {
      OneTop(scores, g.family, h.family);
    }
  }

  lemma ShareWithin(top: real, total: real)
    requires 0.0 < top <= total
    ensures 0.0 < top / total <= 1.0
  {
  }

  lemma NonNegative(a: real, b: real)
    requires a >= 0.0 && b >= 0.0
    ensures a * b >= 0.0
  {
  }

  lemma ProductWithin(a: real, b: real)
    requires 0.0 <= a <= 1.0 && 0.0 <= b <= 1.0
    ensures 0.0 <= a * b <= 1.0
  {
    NonNegative(a, b);
    NonNegative(a, 1.0 - b);
    assert a * (1.0 - b) == a - a * b;
  }

  /** The confidence is a share of one. */
  lemma ConfidenceWithin(scores: map<Family, real>, g: Guess)
    requires IsGuess(scores, g) && g.Best? && forall f :: f in scores ==> scores[f] > 0.0
    ensures 0.0 <= g.confidence <= 1.0
  {
    hide Total;
    TotalAtLeast(scores, scores.Keys, g.family);
    var top, total := scores[g.family], Total(scores, scores.Keys);
    ShareWithin(top, total);
    ProductWithin(top / total, if top / 4.0 > 1.0 then 1.0 else top / 4.0);
  }

  // -------------------------------------------------------------------- detector

  class Detector {
    const cfg: Config
    var scores: map<Family, real>
    var tail: Bytes
    var observed: nat
    var done: bool
    var firedVersion: seq<bool>
    var firedLine: seq<bool>
    var firedPrompt: seq<bool>
    var passed: bool

    ghost function Ev(): Evidence
      reads this
    {
      Evidence(scores, firedVersion, firedLine, firedPrompt, passed)
    }

    ghost function State(): Detection
      reads this
    {
      Detection(Ev(), tail, observed, done)
    }

    /** The scores are the sums of the weights of the rules that fired. */
    ghost predicate Valid()
      reads this
    {
      ConfigOk(cfg) && Fits(cfg, Ev()) && Ledger(cfg, Ev())
    }

    constructor (cfg: Config)
      requires ConfigOk(cfg)
      ensures Valid() && this.cfg == cfg && State() == Detection(Fresh(cfg), [], 0, false)
    {
      this.cfg := cfg;
      scores, tail, observed, done, passed := map[], [], 0, false, false;
      firedVersion, firedLine, firedPrompt := NoneFired(|cfg.version|), NoneFired(|cfg.line|), NoneFired(|cfg.prompt|);
      new;
      FreshLedger(cfg);
    }

    predicate HopPhase()
      reads this
    {
      cfg.relay && !passed
    }

    method Apply(weights: seq<Weight>)
      modifies `scores
      ensures scores == AddWeights(old(scores), weights)
    {
      for j := 0 to |weights|
        invariant scores == AddWeights(old(scores), weights[..j])
      {
        var fw := weights[j];
        assert weights[..j + 1][..j] == weights[..j];
        scores := scores[fw.fam := (if fw.fam in scores then scores[fw.fam] else 0.0) + fw.w];
      }
      assert weights[..|weights|] == weights;
    }

    /** Back to the hop phase, for another terminal on the same session. */
    method RearmRelay()
      requires Valid()
      modifies `passed, `tail
      ensures Valid() && State() == (if cfg.relay && cfg.marker.Some?
                                     then old(State()).(ev := old(Ev()).(passed := false), tail := []) else old(State()))
    {
      if cfg.relay && cfg.marker.Some? {
        passed := false;
        tail := [];
      }
    }

    method ObserveServerVersion(v: Bytes)
      requires Valid()
      modifies `scores, `firedVersion
      ensures Valid() && Ev() == VersionRules(cfg, old(Ev()), v, |cfg.version|)
    {
      hide AddWeights, Ledger, ConfigOk;
      ghost var ev := Ev();
      for i := 0 to |cfg.version|
        invariant Fits(cfg, Ev()) && Ev() == VersionRules(cfg, ev, v, i)
      {
        var r := cfg.version[i];
        if firedVersion[i] || !r.hits(v) {
          continue;
        }
        firedVersion := firedVersion[i := true];
        Apply(r.weights);
      }
      VersionRulesLedger(cfg, ev, v, |cfg.version|);
    }

    method MatchLine(line: Bytes)
      requires Valid()
      modifies `scores, `firedLine, `passed
      ensures Valid() && Ev() == LineSeen(cfg, old(Ev()), line)
    {
      hide AddWeights, Ledger, ConfigOk, Contains;
      ghost var ev := Ev();
      if |line| == 0 {
        return;
      }
      if HopPhase() && cfg.marker.Some? {
        if Contains(line, cfg.marker.value) {
          passed := true;
          PassedAside(cfg, ev);
        }
        return;
      }
      for i := 0 to |cfg.line|
        invariant Fits(cfg, Ev()) && Ev() == LineRules(cfg, ev, line, i)
      {
        var r := cfg.line[i];
        if HopPhase() && r.hostBanner {
          continue;
        }
        if firedLine[i] || !r.hits(line) {
          continue;
        }
        firedLine := firedLine[i := true];
        Apply(r.weights);
      }
      LineRulesLedger(cfg, ev, line, |cfg.line|);
    }

    method MatchPrompt(text: Bytes)
      requires Valid()
      modifies `scores, `firedPrompt
      ensures Valid() && Ev() == PromptSeen(cfg, old(Ev()), text)
    {
      hide AddWeights, Ledger, ConfigOk;
      ghost var ev := Ev();
      if |text| == 0 || (HopPhase() && cfg.marker.Some?) {
        return;
      }
      for i := 0 to |cfg.prompt|
        invariant Fits(cfg, Ev()) && Ev() == PromptRules(cfg, ev, text, i)
      {
        var r := cfg.prompt[i];
        if HopPhase() && r.hostBanner {
          continue;
        }
        if firedPrompt[i] || !r.hits(text) {
          continue;
        }
        firedPrompt := firedPrompt[i := true];
        Apply(r.weights);
      }
      PromptRulesLedger(cfg, ev, text, |cfg.prompt|);
    }

    /** Scans a chunk line by line, carrying the partial line, then looks at the tail for a prompt. */
    method ObserveOutput(p: Bytes)
      requires Valid()
      modifies this
      ensures Valid() && State() == Observed(cfg, old(State()), p)
    {
      hide Ledger, ConfigOk, Fits, LineSeen, PromptSeen, TrimLine, TrimSpaces, Complete, Tail;
      if done {
        return;
      }
      observed := observed + |p|;
      var rest := tail + p;
      ghost var all, ev := rest, Ev();
      ghost var seen: seq<Bytes> := [];
      while true
        invariant Valid() && Ev() == LinesSeen(cfg, ev, seen)
        invariant Complete(all) == seen + Complete(rest) && Tail(all) == Tail(rest)
        decreases |rest|
        modifies `scores, `firedLine, `passed
      {
        var idx := IndexNL(rest);
        if idx < 0 {
          NoNLSplit(rest);
          break;
        }
        NextLine(rest, idx);
        assert (seen + [rest[..idx]])[..|seen|] == seen;
        MatchLine(TrimLine(rest[..idx]));
        seen := seen + [rest[..idx]];
        rest := rest[idx + 1..];
      }
      assert seen == Complete(all);
      if |rest| > MAX_TAIL {
        rest := rest[|rest| - MAX_TAIL..];
      }
      tail := rest;
      assert tail == LastBytes(Tail(all), MAX_TAIL) && Ev() == LinesSeen(cfg, ev, Complete(all));
      MatchPrompt(TrimSpaces(cfg.clean(tail)));
      if observed > OBSERVE_BUDGET {
        done := true;
        tail := [];
      }
    }

    /** The best family and how sure it is: the same for every order of visiting the families. */
    method GuessFamily() returns (g: Guess)
      requires Valid()
      ensures IsGuess(scores, g) && (g.Best? ==> 0.0 <= g.confidence <= 1.0)
    {
      hide Total, Earned, Less;
      var top, total := 0.0, 0.0;
      var topFam: Family := "";
      var todo := scores.Keys;
      ghost var seen: set<Family> := {};
      assert Total(scores, {}) == 0.0 by { NoTotal(scores); }
      while todo != {}
        invariant todo <= scores.Keys && seen == scores.Keys - todo
        invariant total == Total(scores, seen)
        invariant seen == {} ==> topFam == "" && top == 0.0
        invariant seen != {} ==> topFam in seen && top == scores[topFam] && topFam != ""
        invariant forall f :: f in seen && f != topFam ==> topFam in scores && Ahead(scores, topFam, f)
        decreases todo
      {
        var fam :| fam in todo;
        var s := scores[fam];
        assert (seen + {fam}) - {fam} == seen;
        TotalWithout(scores, seen + {fam}, fam);
        total := total + s;
        if seen != {} {
          Overtake(scores, seen, topFam, fam);
        }
        if s > top || (s == top && (topFam == "" || Less(fam, topFam))) {
          top, topFam := s, fam;
        }
        seen := seen + {fam};
        todo := todo - {fam};
      }
      assert seen == scores.Keys;
      if topFam == "" || total == 0.0 {
        if topFam != "" {
          TotalAtLeast(scores, scores.Keys, topFam);
        }
        return Unknown;
      }
      var damp := top / 4.0;
      if damp > 1.0 {
        damp := 1.0;
      }
      TotalAtLeast(scores, scores.Keys, topFam);
      g := Best(topFam, top / total * damp);
      ConfidenceWithin(scores, g);
    }
  }

  lemma NoTotal(scores: map<Family, real>)
    ensures Total(scores, {}) == 0.0
  {
  }

  /** A newcomer is ahead of everything seen exactly when it is ahead of the top. */
  lemma Overtake(scores: map<Family, real>, seen: set<Family>, top: Family, fam: Family)
    requires seen <= scores.Keys && top in seen && fam in scores && fam !in seen
    requires forall f :: f in seen && f != top ==> Ahead(scores, top, f)
    ensures Ahead(scores, fam, top) ==> forall f :: f in seen ==> Ahead(scores, fam, f)
    ensures !Ahead(scores, fam, top) ==> Ahead(scores, top, fam)
  {
    hide Less;
    LessTotal(fam, top);
    if Ahead(scores, fam, top) {
      forall f | f in seen ensures Ahead(scores, fam, f) {
        if f != top && Less(fam, top) && Less(top, f) {
          LessTrans(fam, top, f);
        }
      }
    }
  }

  lemma PassedAside(cfg: Config, ev: Evidence)
    requires Fits(cfg, ev) && Ledger(cfg, ev)
    ensures Ledger(cfg, ev.(passed := true))
  {
  }

  lemma NextLine(b: Bytes, j: nat)
    requires j < |b| && b[j] == NL && NoNL(b[..j])
    ensures Complete(b) == [b[..j]] + Complete(b[j + 1..]) && Tail(b) == Tail(b[j + 1..])
  {
    assert b == b[..j] + [NL] + b[j + 1..];
    LineFirst(b[..j], b[j + 1..]);
  }
}
