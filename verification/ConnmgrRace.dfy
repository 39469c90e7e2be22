/** The connection manager under every interleaving of dials, deaths and disconnects. */
module ConnmgrRace {
  import opened Wrappers
  import opened Connmgr

  type Thread = nat

  /** A dial goroutine. While `slot` it occupies the semaphore. */
  datatype Dial =
    | Waiting(id: Id)
    | InDial(id: Id)
    | HasResult(id: Id, result: Result<Client, string>, slot: bool)
    | Leaving(id: Id)

  /** Where a dialed client is; the history variable the ledger is about. */
  datatype Place = Transit(th: Thread) | Held(id: Id) | Closing | Closed | Lost

  datatype Sys = Sys(conns: Conns, dials: map<Thread, Dial>, sem: nat, watchers: set<(Id, Client)>,
                     closing: multiset<Client>, closed: multiset<Client>,
                     place: map<Client, Place>)

  datatype Step =
    | Connect(th: Thread, id: Id)
    | Acquire(th: Thread)
    | Cancel(th: Thread)              // the context ends before a slot was free
    | DialOk(th: Thread, client: Client)
    | DialErr(th: Thread, err: string)
    | Settle(th: Thread)
    | Release(th: Thread)
    | Dies(id: Id, client: Client)    // a watched client's Wait returns
    | Drop(id: Id)
    | DropAll
    | Close(client: Client)           // a scheduled Close call runs

  predicate UsesSlot(d: Dial) {
    d.InDial? || d.Leaving? || (d.HasResult? && d.slot)
  }

  predicate Enabled(cap: nat, s: Sys, e: Step) {
    match e
    case Connect(th, _) => th !in s.dials
    case Acquire(th) => th in s.dials && s.dials[th].Waiting? && s.sem < cap
    case Cancel(th) => th in s.dials && s.dials[th].Waiting?
    case DialOk(th, c) => th in s.dials && s.dials[th].InDial? && c !in s.place  // every dial makes a new client
    case DialErr(th, _) => th in s.dials && s.dials[th].InDial?
    case Settle(th) => th in s.dials && s.dials[th].HasResult?
    case Release(th) => th in s.dials && s.dials[th].Leaving? && s.sem > 0
    case Dies(id, c) => (id, c) in s.watchers
    case Drop(_) => true
    case DropAll => true
    case Close(c) => c in s.closing
  }

  /** A client taken out of the table, or never put there, is closed by one step. */
  function Scheduled(s: Sys, c: Option<Client>): (r: Sys)
    ensures r == s.(closing := r.closing, place := r.place)
    ensures r.place == if c.Some? then s.place[c.value := Closing] else s.place
  {
    match c
    case None => s
    case Some(c) => s.(closing := s.closing + multiset{c}, place := s.place[c := Closing])
  }

  function Next(s: Sys, cap: nat, e: Step): Sys
    requires Enabled(cap, s, e)
  {
    match e
    case Connect(th, id) =>
      var r := StartConn(s.conns, id);
      if r.dials then Scheduled(s.(conns := r.conns, dials := s.dials[th := Waiting(id)]), r.stale) else s
    case Acquire(th) => s.(sem := s.sem + 1, dials := s.dials[th := InDial(s.dials[th].id)])
    case Cancel(th) => s.(dials := s.dials[th := HasResult(s.dials[th].id, Err("context"), false)])
    case DialOk(th, c) =>
      s.(dials := s.dials[th := HasResult(s.dials[th].id, Ok(c), true)], place := s.place[c := Transit(th)])
    case DialErr(th, err) => s.(dials := s.dials[th := HasResult(s.dials[th].id, Err(err), true)])
    case Settle(th) => AfterSettle(s, th, s.dials[th])
    case Release(th) => s.(sem := s.sem - 1, dials := s.dials - {th})
    case Dies(id, c) =>
      var r := WatchConn(s.conns, id, c);
      Scheduled(s.(conns := r.conns, watchers := s.watchers - {(id, c)}), r.close)
    case Drop(id) =>
      var r := DropConn(s.conns, id);
      Scheduled(s.(conns := r.conns), r.close)
    case DropAll =>
      var held := set id | id in s.conns && s.conns[id].client.Some? :: s.conns[id].client.value;
      s.(conns := map[], closing := s.closing + multiset(held),
         place := map c | c in s.place :: if c in held then Closing else s.place[c])
    case Close(c) =>
      s.(closing := s.closing - multiset{c}, closed := s.closed + multiset{c}, place := s.place[c := Closed])
  }

  function AfterSettle(s: Sys, th: Thread, d: Dial): (r: Sys)
    requires d.HasResult?
    ensures r.conns == SettleConn(s.conns, d.id, d.result).conns && r.sem == s.sem
    ensures r.dials == if d.slot then s.dials[th := Leaving(d.id)] else s.dials - {th}
  {
    var r := SettleConn(s.conns, d.id, d.result);
    var t := s.(conns := r.conns, dials := if d.slot then s.dials[th := Leaving(d.id)] else s.dials - {th});
    var u := if r.watch.Some? then Installed(t, d.id, r.watch.value,
                                             if d.id in s.conns then s.conns[d.id].client else None)
             else t;
    Scheduled(u, r.close)
  }

  /** The entry now holds c; a client it held before is dropped on the floor. */
  function Installed(s: Sys, id: Id, c: Client, before: Option<Client>): Sys {
    var p := if before.Some? then s.place[before.value := Lost] else s.place;
    s.(watchers := s.watchers + {(id, c)}, place := p[c := Held(id)])
  }

  // ------------------------------------------------------------------ the ledger

  function Count(b: bool): nat { if b then 1 else 0 }

  /** Every dialed client is in exactly one place, and the state agrees with the ledger about which. */
  ghost predicate Ledger(s: Sys) {
    TransitOk(s.dials, s.place) && HeldOk(s.conns, s.place) && ClosesOk(s.closing, s.closed, s.place)
  }

  /** Thread th carries a freshly dialed client to its settle. */
  predicate Carries(dials: map<Thread, Dial>, th: Thread) {
    th in dials && dials[th].HasResult? && dials[th].result.Ok?
  }

  predicate Holds(conns: Conns, id: Id) {
    id in conns && conns[id].client.Some?
  }

  predicate At(place: map<Client, Place>, c: Client, p: Place) {
    c in place && place[c] == p
  }

  ghost predicate TransitOk(dials: map<Thread, Dial>, place: map<Client, Place>) {
    && (forall th :: Carries(dials, th) ==> At(place, dials[th].result.value, Transit(th)))
    && (forall c :: c in place && place[c].Transit? ==>
          Carries(dials, place[c].th) && dials[place[c].th].result.value == c)
  }

  ghost predicate HeldOk(conns: Conns, place: map<Client, Place>) {
    && (forall id :: Holds(conns, id) ==> At(place, conns[id].client.value, Held(id)))
    && (forall c :: c in place && place[c].Held? ==>
          Holds(conns, place[c].id) && conns[place[c].id].client.value == c)
  }

  ghost predicate ClosesOk(closing: multiset<Client>, closed: multiset<Client>, place: map<Client, Place>) {
    forall c :: closing[c] == Count(At(place, c, Closing)) && closed[c] == Count(At(place, c, Closed))
  }

  /** The semaphore counts the goroutines that occupy a slot. */
  ghost predicate Slots(cap: nat, s: Sys) {
    s.sem == |Users(s.dials)| && s.sem <= cap
  }

  ghost function Users(dials: map<Thread, Dial>): set<Thread> {
    set th | th in dials && UsesSlot(dials[th])
  }

  ghost predicate Initial(s: Sys) {
    s == Sys(map[], map[], 0, {}, multiset{}, multiset{}, map[])
  }

  // ------------------------------------------------- one client moves, the rest stay

  lemma TransitFrame(dials: map<Thread, Dial>, now: map<Thread, Dial>, place: map<Client, Place>, after: map<Client, Place>)
    requires TransitOk(dials, place)
    requires forall th :: Carries(now, th) <==> Carries(dials, th)
    requires forall th :: Carries(now, th) ==> now[th].result == dials[th].result
    requires forall c, th :: At(after, c, Transit(th)) <==> At(place, c, Transit(th))
    ensures TransitOk(now, after)
  {
    forall c | c in after && after[c].Transit? ensures Carries(now, after[c].th) && now[after[c].th].result.value == c {
      assert At(after, c, Transit(after[c].th));
    }
  }

  lemma HeldFrame(conns: Conns, now: Conns, place: map<Client, Place>, after: map<Client, Place>)
    requires HeldOk(conns, place)
    requires forall id :: Holds(now, id) <==> Holds(conns, id)
    requires forall id :: Holds(now, id) ==> now[id].client == conns[id].client
    requires forall c, id :: At(after, c, Held(id)) <==> At(place, c, Held(id))
    ensures HeldOk(now, after)
  {
    forall c | c in after && after[c].Held? ensures Holds(now, after[c].id) && now[after[c].id].client.value == c {
      assert At(after, c, Held(after[c].id));
    }
  }

  /** The client of entry id leaves the table. */
  lemma TakeOut(conns: Conns, now: Conns, id: Id, place: map<Client, Place>, to: Place)
    requires HeldOk(conns, place) && Holds(conns, id) && !Holds(now, id) && !to.Held?
    requires forall k :: k != id && k in conns ==> k in now && now[k] == conns[k]
    requires forall k :: k != id && k in now ==> k in conns
    ensures HeldOk(now, place[conns[id].client.value := to])
    ensures At(place, conns[id].client.value, Held(id))
  {
    var gone := conns[id].client.value;
    forall k | Holds(now, k) ensures At(place[gone := to], now[k].client.value, Held(k)) {
      assert Holds(conns, k);
    }
  }

  /** The client of thread th is no longer carried by it. */
  lemma Delivered(dials: map<Thread, Dial>, now: map<Thread, Dial>, th: Thread, place: map<Client, Place>, to: Place)
    requires TransitOk(dials, place) && Carries(dials, th) && !Carries(now, th) && !to.Transit?
    requires forall t :: t != th ==> (t in now <==> t in dials) && (t in dials ==> now[t] == dials[t])
    ensures TransitOk(now, place[dials[th].result.value := to])
    ensures At(place, dials[th].result.value, Transit(th))
  {
    var c := dials[th].result.value;
    forall t | Carries(now, t) ensures At(place[c := to], now[t].result.value, Transit(t)) {
      assert Carries(dials, t);
    }
  }

  /** Client c starts a scheduled close. */
  lemma ScheduleClose(closing: multiset<Client>, closed: multiset<Client>, place: map<Client, Place>, c: Client)
    requires ClosesOk(closing, closed, place) && !At(place, c, Closing) && !At(place, c, Closed)
    ensures ClosesOk(closing + multiset{c}, closed, place[c := Closing])
  {
  }

  lemma MoveElsewhere(closing: multiset<Client>, closed: multiset<Client>, place: map<Client, Place>, c: Client, to: Place)
    requires ClosesOk(closing, closed, place) && !At(place, c, Closing) && !At(place, c, Closed)
    requires to != Closing && to != Closed
    ensures ClosesOk(closing, closed, place[c := to])
  {
  }

  /** Entry id loses its client, if it has one, and the client's close is scheduled. */
  lemma RemovedLedger(s: Sys, t: Sys, id: Id)
    requires Ledger(s) && t.place == s.place && t.closing == s.closing && t.closed == s.closed
    requires TransitOk(t.dials, s.place)
    requires !Holds(t.conns, id)
    requires forall k :: k != id && k in s.conns ==> k in t.conns && t.conns[k] == s.conns[k]
    requires forall k :: k != id && k in t.conns ==> k in s.conns
    ensures Ledger(Scheduled(t, if id in s.conns then s.conns[id].client else None))
  {
    hide TransitOk, HeldOk, ClosesOk;
    if Holds(s.conns, id) {
      var c := s.conns[id].client.value;
      TakeOut(s.conns, t.conns, id, s.place, Closing);
      TransitFrame(t.dials, t.dials, s.place, s.place[c := Closing]);
      ScheduleClose(s.closing, s.closed, s.place, c);
    } else {
      HeldFrame(s.conns, t.conns, s.place, s.place);
    }
  }

  // --------------------------------------------------------------------- the steps

  lemma ConnectLedger(cap: nat, s: Sys, th: Thread, id: Id)
    requires Ledger(s) && Enabled(cap, s, Connect(th, id))
    ensures Ledger(Next(s, cap, Connect(th, id)))
  {
    hide TransitOk, HeldOk, ClosesOk;
    var r := StartConn(s.conns, id);
    if r.dials {
      var t := s.(conns := r.conns, dials := s.dials[th := Waiting(id)]);
      TransitFrame(s.dials, t.dials, s.place, s.place);
      RemovedLedger(s, t, id);
    }
  }

  /** Steps that only move a goroutine that carries no client. */
  lemma GoroutineLedger(s: Sys, t: Sys, th: Thread)
    requires Ledger(s) && t.place == s.place && t.closing == s.closing && t.closed == s.closed && t.conns == s.conns
    requires !Carries(s.dials, th) && !Carries(t.dials, th)
    requires forall k :: k != th ==> (k in t.dials <==> k in s.dials) && (k in s.dials ==> t.dials[k] == s.dials[k])
    ensures Ledger(t)
  {
    hide HeldOk, ClosesOk, TransitOk;
    TransitFrame(s.dials, t.dials, s.place, s.place);
  }

  lemma DialOkLedger(cap: nat, s: Sys, th: Thread, c: Client)
    requires Ledger(s) && Enabled(cap, s, DialOk(th, c))
    ensures Ledger(Next(s, cap, DialOk(th, c)))
  {
    hide HeldOk, ClosesOk;
    var r := Next(s, cap, DialOk(th, c));
    HeldFrame(s.conns, s.conns, s.place, r.place);
    MoveElsewhere(s.closing, s.closed, s.place, c, Transit(th));
    forall t | Carries(r.dials, t) ensures At(r.place, r.dials[t].result.value, Transit(t)) {
      assert t != th ==> Carries(s.dials, t);
    }
  }

  lemma SettleLedger(cap: nat, s: Sys, th: Thread)
    requires Ledger(s) && Enabled(cap, s, Settle(th))
    ensures Ledger(Next(s, cap, Settle(th)))
  {
    hide TransitOk, HeldOk, ClosesOk;
    var d := s.dials[th];
    var now := if d.slot then s.dials[th := Leaving(d.id)] else s.dials - {th};
    var r := Next(s, cap, Settle(th));
    if d.result.Err? {
      TransitFrame(s.dials, now, s.place, s.place);
      HeldFrame(s.conns, r.conns, s.place, s.place);
    } else if d.id !in s.conns {
      var c := d.result.value;
      Delivered(s.dials, now, th, s.place, Closing);
      HeldFrame(s.conns, s.conns, s.place, s.place[c := Closing]);
      ScheduleClose(s.closing, s.closed, s.place, c);
    } else {
      InstallLedger(s, th, d.id, d.result.value, now, r.conns);
    }
  }

  /** A settled client enters the table, pushing out the one that was there. */
  lemma InstallLedger(s: Sys, th: Thread, id: Id, c: Client, now: map<Thread, Dial>, conns: Conns)
    requires Ledger(s) && Carries(s.dials, th) && s.dials[th].result.value == c && id in s.conns
    requires !Carries(now, th)
    requires forall t :: t != th ==> (t in now <==> t in s.dials) && (t in s.dials ==> now[t] == s.dials[t])
    requires conns == s.conns[id := s.conns[id].(state := Connected, client := Some(c))]
    ensures var p := if Holds(s.conns, id) then s.place[s.conns[id].client.value := Lost] else s.place;
            && TransitOk(now, p[c := Held(id)]) && HeldOk(conns, p[c := Held(id)])
            && ClosesOk(s.closing, s.closed, p[c := Held(id)])
  {
    hide TransitOk, HeldOk, ClosesOk;
    var without := s.conns[id := s.conns[id].(client := None)];
    var p := s.place;
    if Holds(s.conns, id) {
      var gone := s.conns[id].client.value;
      TakeOut(s.conns, without, id, s.place, Lost);
      p := s.place[gone := Lost];
      TransitFrame(s.dials, s.dials, s.place, p);
      MoveElsewhere(s.closing, s.closed, s.place, gone, Lost);
    } else {
      HeldFrame(s.conns, without, s.place, p);
    }
    Delivered(s.dials, now, th, p, Held(id));
    MoveElsewhere(s.closing, s.closed, p, c, Held(id));
    PutIn(without, conns, id, p, c);
  }

  lemma PutIn(without: Conns, conns: Conns, id: Id, place: map<Client, Place>, c: Client)
    requires HeldOk(without, place) && !Holds(without, id) && c in place && !place[c].Held?
    requires Holds(conns, id) && conns[id].client == Some(c)
    requires forall k :: k != id ==> (k in conns <==> k in without) && (k in conns ==> conns[k] == without[k])
    ensures HeldOk(conns, place[c := Held(id)])
  {
    forall k | Holds(conns, k) ensures At(place[c := Held(id)], conns[k].client.value, Held(k)) {
      assert k != id ==> Holds(without, k);
    }
  }

  lemma DropAllLedger(cap: nat, s: Sys)
    requires Ledger(s)
    ensures Ledger(Next(s, cap, DropAll))
  {
    hide TransitOk;
    var r := Next(s, cap, DropAll);
    forall c, th ensures At(r.place, c, Transit(th)) <==> At(s.place, c, Transit(th)) {
      HolderOf(s, c);
    }
    TransitFrame(s.dials, s.dials, s.place, r.place);
    DropAllCloses(cap, s);
    forall c | c in r.place ensures !r.place[c].Held? {
      HolderOf(s, c);
    }
  }

  ghost function AllHeld(conns: Conns): set<Client> {
    set id | id in conns && conns[id].client.Some? :: conns[id].client.value
  }

  lemma HolderOf(s: Sys, c: Client)
    requires HeldOk(s.conns, s.place)
    ensures c in AllHeld(s.conns) <==> c in s.place && s.place[c].Held?
  {
    if c in AllHeld(s.conns) {
      var id :| Holds(s.conns, id) && s.conns[id].client.value == c;
    }
    if c in s.place && s.place[c].Held? {
      assert Holds(s.conns, s.place[c].id);
    }
  }

  lemma DropAllCloses(cap: nat, s: Sys)
    requires Ledger(s)
    ensures var r := Next(s, cap, DropAll); ClosesOk(r.closing, r.closed, r.place)
  {
    hide TransitOk, HeldOk;
    var r := Next(s, cap, DropAll);
    forall c ensures r.closing[c] == Count(At(r.place, c, Closing)) && r.closed[c] == Count(At(r.place, c, Closed)) {
      HolderOf(s, c);
    }
  }

  lemma CloseLedger(cap: nat, s: Sys, c: Client)
    requires Ledger(s) && Enabled(cap, s, Close(c))
    ensures Ledger(Next(s, cap, Close(c)))
  {
    hide TransitOk, HeldOk;
    var r := Next(s, cap, Close(c));
    assert At(s.place, c, Closing);
    TransitFrame(s.dials, s.dials, s.place, r.place);
    HeldFrame(s.conns, s.conns, s.place, r.place);
  }

  lemma LedgerStep(cap: nat, s: Sys, e: Step)
    requires Ledger(s) && Enabled(cap, s, e)
    ensures Ledger(Next(s, cap, e))
  {
    hide TransitOk, HeldOk, ClosesOk;
    match e
    case Connect(th, id) => ConnectLedger(cap, s, th, id);
    case Acquire(th) => GoroutineLedger(s, Next(s, cap, e), th);
    case Cancel(th) => GoroutineLedger(s, Next(s, cap, e), th);
    case DialOk(th, c) => DialOkLedger(cap, s, th, c);
    case DialErr(th, _) => GoroutineLedger(s, Next(s, cap, e), th);
    case Settle(th) => SettleLedger(cap, s, th);
    case Release(th) => GoroutineLedger(s, Next(s, cap, e), th);
    case Dies(id, c) => DiesLedger(cap, s, id, c);
    case Drop(id) => RemovedLedger(s, s.(conns := DropConn(s.conns, id).conns), id);
    case DropAll => DropAllLedger(cap, s);
    case Close(c) => CloseLedger(cap, s, c);
  }

  lemma DiesLedger(cap: nat, s: Sys, id: Id, c: Client)
    requires Ledger(s) && Enabled(cap, s, Dies(id, c))
    ensures Ledger(Next(s, cap, Dies(id, c)))
  {
    hide TransitOk, HeldOk, ClosesOk;
    if id in s.conns && s.conns[id].client == Some(c) {
      RemovedLedger(s, s.(conns := s.conns - {id}, watchers := s.watchers - {(id, c)}), id);
    }
  }

  // ------------------------------------------------------------------ the semaphore

  predicate SlotOf(dials: map<Thread, Dial>, th: Thread) {
    th in dials && UsesSlot(dials[th])
  }

  lemma SlotMove(dials: map<Thread, Dial>, now: map<Thread, Dial>, th: Thread)
    requires forall k :: k != th ==> (k in now <==> k in dials) && (k in dials ==> now[k] == dials[k])
    ensures |Users(now)| == |Users(dials)| - Count(SlotOf(dials, th)) + Count(SlotOf(now, th))
  {
    assert Users(now) - {th} == Users(dials) - {th};
    OneOut(Users(now), th);
    OneOut(Users(dials), th);
  }

  lemma OneOut(a: set<Thread>, th: Thread)
    ensures |a| == |a - {th}| + Count(th in a)
  {
    if th !in a {
      assert a - {th} == a;
    }
  }

  lemma SlotsStep(cap: nat, s: Sys, e: Step)
    requires Slots(cap, s) && Enabled(cap, s, e)
    ensures Slots(cap, Next(s, cap, e))
  {
    hide Users, WatchConn, DropConn, Scheduled, AfterSettle;
    var now := Next(s, cap, e).dials;
    match e
    case Connect(th, _) => SlotMove(s.dials, now, th);
    case Acquire(th) => SlotMove(s.dials, now, th);
    case Cancel(th) => SlotMove(s.dials, now, th);
    case DialOk(th, _) => SlotMove(s.dials, now, th);
    case DialErr(th, _) => SlotMove(s.dials, now, th);
    case Settle(th) => SettleSlots(s, th);
    case Release(th) => SlotMove(s.dials, now, th);
    case _ => assert now == s.dials;
  }

  lemma SettleSlots(s: Sys, th: Thread)
    requires th in s.dials && s.dials[th].HasResult?
    ensures var r := AfterSettle(s, th, s.dials[th]);
            |Users(r.dials)| == |Users(s.dials)| && r.sem == s.sem
  {
    hide Users, SettleConn, AfterSettle;
    SlotMove(s.dials, AfterSettle(s, th, s.dials[th]).dials, th);
  }

  /** At most cap dials run at the same time. */
  lemma DialsBounded(cap: nat, s: Sys)
    requires Slots(cap, s)
    ensures |Running(s.dials)| <= cap
  {
    Subset(Running(s.dials), Users(s.dials));
  }

  ghost function Running(dials: map<Thread, Dial>): set<Thread> {
    set th | th in dials && dials[th].InDial?
  }

  lemma {:induction false} Subset(a: set<Thread>, b: set<Thread>)
    requires a <= b
    ensures |a| <= |b|
  {
    if a != {} {
      var x :| x in a;
      Subset(a - {x}, b - {x});
    }
  }

  // ------------------------------------------------------------------ whole runs

  ghost predicate IsRun(cap: nat, states: seq<Sys>, steps: seq<Step>) {
    && |states| == |steps| + 1 && Initial(states[0])
    && forall k :: 0 <= k < |steps| ==> Moves(cap, states[k], steps[k], states[k + 1])
  }

  ghost predicate Moves(cap: nat, s: Sys, e: Step, r: Sys) {
    Enabled(cap, s, e) && r == Next(s, cap, e)
  }

  lemma {:induction false} RunKeeps(cap: nat, states: seq<Sys>, steps: seq<Step>, k: nat)
    requires IsRun(cap, states, steps) && k < |states|
    ensures Ledger(states[k]) && Slots(cap, states[k])
  {
    if k > 0 {
      RunKeeps(cap, states, steps, k - 1);
      assert Moves(cap, states[k - 1], steps[k - 1], states[k]);
      LedgerStep(cap, states[k - 1], steps[k - 1]);
      SlotsStep(cap, states[k - 1], steps[k - 1]);
    } else {
      assert Users(states[0].dials) == {};
    }
  }

  /** In every interleaving at most cap dials run at once, and no client is closed, or about to be closed, twice. */
  lemma NeverClosedTwice(cap: nat, states: seq<Sys>, steps: seq<Step>, k: nat)
    requires IsRun(cap, states, steps) && k < |states|
    ensures |Running(states[k].dials)| <= cap
    ensures forall c :: states[k].closed[c] + states[k].closing[c] <= 1
  {
    RunKeeps(cap, states, steps, k);
    DialsBounded(cap, states[k]);
  }

  /** A connected entry holds a client. */
  ghost predicate ConnectedHolds(conns: Conns) {
    forall id :: id in conns && conns[id].state == Connected ==> conns[id].client.Some?
  }

  lemma ConnectedStep(cap: nat, s: Sys, e: Step)
    requires ConnectedHolds(s.conns) && Enabled(cap, s, e)
    ensures ConnectedHolds(Next(s, cap, e).conns)
  {
  }

  /** In every run asking for the client of a connected session gives one, and of any other gives none. */
  lemma {:induction false} ConnectedRun(cap: nat, states: seq<Sys>, steps: seq<Step>, k: nat)
    requires IsRun(cap, states, steps) && k < |states|
    ensures ConnectedHolds(states[k].conns)
    ensures forall id :: ClientAt(states[k].conns, id).Some? <==> id in states[k].conns && states[k].conns[id].state == Connected
  {
    hide Next;
    if k > 0 {
      ConnectedRun(cap, states, steps, k - 1);
      assert Moves(cap, states[k - 1], steps[k - 1], states[k]);
      ConnectedStep(cap, states[k - 1], steps[k - 1]);
    }
  }

  // ------------------------------------------------------------------- lost clients

  /** The client is held by exactly one entry, on its way to one, or closed or about to be closed once. */
  ghost predicate Accounted(s: Sys, c: Client) {
    && (forall id, k :: HoldsClient(s, id, c) && HoldsClient(s, k, c) ==> id == k)
    && (forall th, t :: CarriesClient(s, th, c) && CarriesClient(s, t, c) ==> th == t)
    && Count(exists id :: HoldsClient(s, id, c)) + Count(exists th :: CarriesClient(s, th, c))
       + s.closing[c] + s.closed[c] == 1
  }

  predicate HoldsClient(s: Sys, id: Id, c: Client) {
    Holds(s.conns, id) && s.conns[id].client.value == c
  }

  predicate CarriesClient(s: Sys, th: Thread, c: Client) {
    Carries(s.dials, th) && s.dials[th].result.value == c
  }

  lemma AccountedIffNotLost(s: Sys, c: Client)
    requires Ledger(s) && c in s.place
    ensures Accounted(s, c) <==> s.place[c] != Lost
  {
    match s.place[c]
    case Transit(th) => assert CarriesClient(s, th, c);
    case Held(id) => assert HoldsClient(s, id, c);
    case _ =>
  }

  /** A successful dial settles on an entry that already holds a client. */
  predicate Overwrites(s: Sys, e: Step) {
    e.Settle? && Carries(s.dials, e.th) && Holds(s.conns, s.dials[e.th].id)
  }

  ghost predicate NoneLost(s: Sys) {
    forall c :: c in s.place ==> s.place[c] != Lost
  }

  /** One step loses a client exactly when it overwrites one. */
  lemma LossStep(cap: nat, s: Sys, e: Step)
    requires Ledger(s) && Enabled(cap, s, e) && NoneLost(s)
    ensures NoneLost(Next(s, cap, e)) <==> !Overwrites(s, e)
  {
    hide Ledger, StartConn, WatchConn, DropConn;
    if e.Settle? {
      SettleLoses(s, e.th);
    }
  }

  lemma SettleLoses(s: Sys, th: Thread)
    requires Ledger(s) && NoneLost(s) && th in s.dials && s.dials[th].HasResult?
    ensures NoneLost(AfterSettle(s, th, s.dials[th])) <==> !Overwrites(s, Settle(th))
  {
    hide ClosesOk;
    if Overwrites(s, Settle(th)) {
      var c := s.conns[s.dials[th].id].client.value;
      assert At(s.place, c, Held(s.dials[th].id));
      assert At(s.place, s.dials[th].result.value, Transit(th));
      assert At(AfterSettle(s, th, s.dials[th]).place, c, Lost);
    }
  }

  /** Once lost, a client stays lost. */
  lemma LostStays(cap: nat, s: Sys, e: Step, c: Client)
    requires Ledger(s) && Enabled(cap, s, e) && At(s.place, c, Lost)
    ensures At(Next(s, cap, e).place, c, Lost)
  {
    hide Ledger, Scheduled, AfterSettle;
    match e
    case Connect(_, id) => HeldNotLost(s, id, c);
    case Settle(th) => SettleKeepsLost(s, th, c);
    case Dies(id, _) => HeldNotLost(s, id, c);
    case Drop(id) => HeldNotLost(s, id, c);
    case DropAll => NotHeldIfLost(s, c);
    case Close(d) => ClosingNotLost(s, d, c);
    case _ =>
  }

  lemma SettleKeepsLost(s: Sys, th: Thread, c: Client)
    requires Ledger(s) && At(s.place, c, Lost) && th in s.dials && s.dials[th].HasResult?
    ensures At(AfterSettle(s, th, s.dials[th]).place, c, Lost)
  {
    hide Ledger;
    CarriedNotLost(s, th, c);
  }

  lemma NotHeldIfLost(s: Sys, c: Client)
    requires Ledger(s) && At(s.place, c, Lost)
    ensures c !in AllHeld(s.conns)
  {
    HolderOf(s, c);
  }

  lemma HeldNotLost(s: Sys, id: Id, c: Client)
    requires Ledger(s) && At(s.place, c, Lost)
    ensures !HoldsClient(s, id, c)
  {
  }

  lemma CarriedNotLost(s: Sys, th: Thread, c: Client)
    requires Ledger(s) && At(s.place, c, Lost)
    ensures !CarriesClient(s, th, c)
  {
  }

  lemma ClosingNotLost(s: Sys, d: Client, c: Client)
    requires Ledger(s) && At(s.place, c, Lost) && d in s.closing
    ensures c != d
  {
  }

  /** In every run no client was lost iff no settle overwrote an entry's client. */
  lemma {:induction false} NoneLostIff(cap: nat, states: seq<Sys>, steps: seq<Step>, k: nat)
    requires IsRun(cap, states, steps) && k < |states|
    ensures NoneLost(states[k]) <==> forall i :: 0 <= i < k ==> !Overwrites(states[i], steps[i])
  {
    hide Ledger, Slots, Next;
    if k > 0 {
      var s, e := states[k - 1], steps[k - 1];
      NoneLostIff(cap, states, steps, k - 1);
      RunKeeps(cap, states, steps, k - 1);
      assert Moves(cap, s, e, states[k]);
      if NoneLost(s) {
        LossStep(cap, s, e);
      } else {
        var c :| c in s.place && s.place[c] == Lost;
        LostStays(cap, s, e, c);
      }
    } else {
      assert states[0].place == map[];
    }
  }

  /**
   * In every run, every client a dial returned is held by exactly one entry, on its way
   * there, or closed or about to be closed by exactly one step, iff no settle ever
   * overwrote a client.
   */
  lemma AllAccountedIff(cap: nat, states: seq<Sys>, steps: seq<Step>, k: nat)
    requires IsRun(cap, states, steps) && k < |states|
    ensures (forall c :: c in states[k].place ==> Accounted(states[k], c))
       <==> (forall i :: 0 <= i < k ==> !Overwrites(states[i], steps[i]))
  {
    NoneLostIff(cap, states, steps, k);
    RunKeeps(cap, states, steps, k);
    forall c | c in states[k].place ensures Accounted(states[k], c) <==> states[k].place[c] != Lost {
      AccountedIffNotLost(states[k], c);
    }
  }

  // ------------------------------------------------------------- the callers' discipline

  /** A dial for id is still going to settle. */
  predicate InFlight(s: Sys, th: Thread, id: Id) {
    th in s.dials && !s.dials[th].Leaving? && s.dials[th].id == id
  }

  /** The session is not reconnected while a dial from a removed entry is in flight. */
  ghost predicate Careful(s: Sys, e: Step) {
    e.Connect? && !Live(s.conns, e.id) ==> forall th :: !InFlight(s, th, e.id)
  }

  /** At most one dial per session, and only for entries that wait for it. */
  ghost predicate OneDialEach(s: Sys) {
    && (forall th, t, id :: InFlight(s, th, id) && InFlight(s, t, id) ==> th == t)
    && (forall th, id :: InFlight(s, th, id) && id in s.conns ==> s.conns[id].state == Dialing)
    && (forall id :: id in s.conns && s.conns[id].client.Some? ==> s.conns[id].state == Connected)
  }

  lemma CarefulStep(cap: nat, s: Sys, e: Step)
    requires OneDialEach(s) && Enabled(cap, s, e) && Careful(s, e)
    ensures OneDialEach(Next(s, cap, e)) && !Overwrites(s, e)
  {
    hide Scheduled, AfterSettle;
    var r := Next(s, cap, e);
    assert e.Settle? ==> InFlight(s, e.th, s.dials[e.th].id);
    forall th, id | InFlight(r, th, id)
      ensures InFlight(s, th, id) || (e.Connect? && !Live(s.conns, e.id) && th == e.th && id == e.id)
    {
    }
    forall th, id | InFlight(r, th, id) && id in r.conns ensures r.conns[id].state == Dialing {
    }
  }

  /** In every run of careful callers no client is ever lost, and every held client belongs to a connected entry. */
  lemma {:induction false} CarefulRun(cap: nat, states: seq<Sys>, steps: seq<Step>, k: nat)
    requires IsRun(cap, states, steps) && k < |states|
    requires forall i :: 0 <= i < k ==> Careful(states[i], steps[i])
    ensures OneDialEach(states[k])
    ensures forall c :: c in states[k].place ==> Accounted(states[k], c)
    ensures forall id, c :: HoldsClient(states[k], id, c) ==> states[k].conns[id].state == Connected
  {
    CarefulNeverOverwrites(cap, states, steps, k);
    AllAccountedIff(cap, states, steps, k);
  }

  lemma {:induction false} CarefulNeverOverwrites(cap: nat, states: seq<Sys>, steps: seq<Step>, k: nat)
    requires IsRun(cap, states, steps) && k < |states|
    requires forall i :: 0 <= i < k ==> Careful(states[i], steps[i])
    ensures OneDialEach(states[k]) && forall i :: 0 <= i < k ==> !Overwrites(states[i], steps[i])
  {
    if k > 0 {
      CarefulNeverOverwrites(cap, states, steps, k - 1);
      assert Moves(cap, states[k - 1], steps[k - 1], states[k]);
      CarefulStep(cap, states[k - 1], steps[k - 1]);
    }
  }

  // ------------------------------------------------- without the discipline, a loss

  const NONE: multiset<Client> := multiset{}
  const WAITS := Entry(Dialing, None, "")
  const HAS7 := Entry(Connected, Some(7), "")

  /** Disconnect and reconnect while the first dial is running, and let it settle on the new entry. */
  function ReconnectRun(): (seq<Sys>, seq<Step>) {
    ([Sys(map[], map[], 0, {}, NONE, NONE, map[]),
      Sys(map["a" := WAITS], map[0 := Waiting("a")], 0, {}, NONE, NONE, map[]),
      Sys(map["a" := WAITS], map[0 := InDial("a")], 1, {}, NONE, NONE, map[]),
      Sys(map[], map[0 := InDial("a")], 1, {}, NONE, NONE, map[]),
      Sys(map["a" := WAITS], map[0 := InDial("a"), 1 := Waiting("a")], 1, {}, NONE, NONE, map[]),
      Sys(map["a" := WAITS], map[0 := HasResult("a", Ok(7), true), 1 := Waiting("a")], 1, {}, NONE, NONE,
          map[7 := Transit(0)]),
      Sys(map["a" := HAS7], map[0 := Leaving("a"), 1 := Waiting("a")], 1, {("a", 7)}, NONE, NONE, map[7 := Held("a")]),
      Sys(map["a" := HAS7], map[0 := Leaving("a"), 1 := InDial("a")], 2, {("a", 7)}, NONE, NONE, map[7 := Held("a")]),
      Sys(map["a" := HAS7], map[0 := Leaving("a"), 1 := HasResult("a", Ok(8), true)], 2, {("a", 7)}, NONE, NONE,
          map[7 := Held("a"), 8 := Transit(1)])],
     [Connect(0, "a"), Acquire(0), Drop("a"), Connect(1, "a"), DialOk(0, 7), Settle(0), Acquire(1), DialOk(1, 8)])
  }

  lemma FirstMoves(k: nat)
    requires k < 4
    ensures Moves(2, ReconnectRun().0[k], ReconnectRun().1[k], ReconnectRun().0[k + 1])
  {
  }

  lemma MiddleMoves(k: nat)
    requires 4 <= k < 6
    ensures Moves(2, ReconnectRun().0[k], ReconnectRun().1[k], ReconnectRun().0[k + 1])
  {
  }

  lemma LastMoves(k: nat)
    requires 6 <= k < 8
    ensures Moves(2, ReconnectRun().0[k], ReconnectRun().1[k], ReconnectRun().0[k + 1])
  {
  }

  /** Then the second dial settles too, and the first client is nowhere: never closed, held by nobody. */
  lemma ReconnectLoses() returns (states: seq<Sys>, steps: seq<Step>)
    ensures IsRun(2, states, steps)
    ensures exists c :: c in states[|steps|].place && !Accounted(states[|steps|], c)
  {
    hide Next;
    var (ss, es) := ReconnectRun();
    forall k | 0 <= k < 8 ensures Moves(2, ss[k], es[k], ss[k + 1]) {
      if k < 4 {
        FirstMoves(k);
      } else if k < 6 {
        MiddleMoves(k);
      } else {
        LastMoves(k);
      }
    }
    steps := es + [Settle(1)];
    states := ss + [Next(ss[8], 2, Settle(1))];
    assert Moves(2, states[8], steps[8], states[9]);
    assert Overwrites(states[8], steps[8]);
    AllAccountedIff(2, states, steps, 9);
  }
}
