/** What an entry of the connection manager says about the dials and deaths that led to it. */
module ConnmgrHistory {
  import opened Wrappers
  import opened Connmgr
  import opened ConnmgrRace

  /** A settle of a failed dial of id with that error text. */
  predicate SettlesErr(s: Sys, e: Step, id: Id, err: string) {
    && e.Settle? && e.th in s.dials && s.dials[e.th].HasResult?
    && s.dials[e.th].id == id && s.dials[e.th].result == Err(err)
  }

  predicate SettlesOk(s: Sys, e: Step, id: Id, c: Client) {
    && e.Settle? && e.th in s.dials && s.dials[e.th].HasResult?
    && s.dials[e.th].id == id && s.dials[e.th].result == Ok(c)
  }

  /** The entry of id is removed or dialed anew. */
  predicate Resets(s: Sys, e: Step, id: Id) {
    || (e.Connect? && e.id == id && !Live(s.conns, id))
    || (e.Drop? && e.id == id) || e.DropAll?
    || (e.Dies? && e.id == id && id in s.conns && s.conns[id].client == Some(e.client))
  }

  /** What one step does to the entry of id: removed or made anew, settled, or nothing. */
  lemma EntryStep(cap: nat, s: Sys, e: Step, id: Id)
    requires Enabled(cap, s, e)
    ensures var r := Next(s, cap, e).conns;
            && (Resets(s, e, id) && e.Connect? ==> id in r && r[id] == Entry(Dialing, None, ""))
            && (Resets(s, e, id) && !e.Connect? ==> id !in r)
            && (!Resets(s, e, id) ==> (id in r <==> id in s.conns))
            && (!Resets(s, e, id) && id in r ==>
                  r[id] == if e.Settle? && s.dials[e.th].id == id then
                             match s.dials[e.th].result
                             case Err(err) => s.conns[id].(state := Failed, err := err)
                             case Ok(c) => s.conns[id].(state := Connected, client := Some(c))
                           else s.conns[id])
  {
    hide Scheduled, AfterSettle;
  }

  /** Watchers come with a settled client and go with its death. */
  lemma WatchersStep(cap: nat, s: Sys, e: Step)
    requires Enabled(cap, s, e)
    ensures Next(s, cap, e).watchers
         == if e.Settle? && s.dials[e.th].result.Ok? && s.dials[e.th].id in s.conns
            then s.watchers + {(s.dials[e.th].id, s.dials[e.th].result.value)}
            else if e.Dies? then s.watchers - {(e.id, e.client)} else s.watchers
  {
  }

  /** A dial for id has not settled yet. */
  ghost predicate Awaited(s: Sys, id: Id) {
    exists th :: InFlight(s, th, id)
  }

  /** A dialing entry waits for a dial that is in flight, and a held client is watched. */
  ghost predicate Attended(s: Sys) {
    && (forall id :: id in s.conns && s.conns[id].state == Dialing ==> Awaited(s, id))
    && (forall id :: Holds(s.conns, id) ==> (id, s.conns[id].client.value) in s.watchers)
  }

  lemma AttendedStep(cap: nat, s: Sys, e: Step)
    requires Attended(s) && Enabled(cap, s, e)
    ensures Attended(Next(s, cap, e))
  {
    hide Awaited, Next;
    var r := Next(s, cap, e);
    forall id | id in r.conns && r.conns[id].state == Dialing ensures Awaited(r, id) {
      StillAwaited(cap, s, e, id);
    }
    forall id | Holds(r.conns, id) ensures (id, r.conns[id].client.value) in r.watchers {
      StillWatched(cap, s, e, id);
    }
  }

  lemma StillAwaited(cap: nat, s: Sys, e: Step, id: Id)
    requires Enabled(cap, s, e) && id in Next(s, cap, e).conns && Next(s, cap, e).conns[id].state == Dialing
    requires id in s.conns && s.conns[id].state == Dialing ==> Awaited(s, id)
    ensures Awaited(Next(s, cap, e), id)
  {
    hide Scheduled, AfterSettle, Awaited;
    EntryStep(cap, s, e, id);
    var r := Next(s, cap, e);
    if id in s.conns && s.conns[id].state == Dialing {
      var th := Waiter(s, id);
      assert InFlight(r, th, id);
      Waits(r, th, id);
    } else {
      assert e.Connect? && InFlight(r, e.th, id);
      Waits(r, e.th, id);
    }
  }

  lemma Waiter(s: Sys, id: Id) returns (th: Thread)
    requires Awaited(s, id)
    ensures InFlight(s, th, id)
  {
    th :| InFlight(s, th, id);
  }

  lemma Waits(s: Sys, th: Thread, id: Id)
    requires InFlight(s, th, id)
    ensures Awaited(s, id)
  {
  }

  lemma StillWatched(cap: nat, s: Sys, e: Step, id: Id)
    requires Enabled(cap, s, e) && Holds(Next(s, cap, e).conns, id)
    requires Holds(s.conns, id) ==> (id, s.conns[id].client.value) in s.watchers
    ensures (id, Next(s, cap, e).conns[id].client.value) in Next(s, cap, e).watchers
  {
    hide Next, WatchConn;
    EntryStep(cap, s, e, id);
    WatchersStep(cap, s, e);
  }

  /** In every run a dialing entry waits for a dial in flight, and a held client is watched. */
  lemma {:induction false} AttendedRun(cap: nat, states: seq<Sys>, steps: seq<Step>, k: nat)
    requires IsRun(cap, states, steps) && k < |states|
    ensures Attended(states[k])
  {
    hide Next, Attended;
    if k > 0 {
      AttendedRun(cap, states, steps, k - 1);
      assert Moves(cap, states[k - 1], steps[k - 1], states[k]);
      AttendedStep(cap, states[k - 1], steps[k - 1]);
    } else {
      AttendedFirst(states[0]);
    }
  }

  lemma AttendedFirst(s: Sys)
    requires Initial(s)
    ensures Attended(s)
  {
  }

  /**
   * In every run of careful callers an entry is dialing exactly when a dial for its id is in flight, connected
   * exactly when it holds a client, and failed otherwise; so it is live exactly in the first two cases.
   */
  lemma CarefulEntries(cap: nat, states: seq<Sys>, steps: seq<Step>, k: nat, id: Id)
    requires IsRun(cap, states, steps) && k < |states| && id in states[k].conns
    requires forall i :: 0 <= i < k ==> Careful(states[i], steps[i])
    ensures var s := states[k];
            && (s.conns[id].state == Dialing <==> Awaited(s, id))
            && (s.conns[id].state == Connected <==> s.conns[id].client.Some?)
            && (Live(s.conns, id) <==> Awaited(s, id) || s.conns[id].client.Some?)
            && (Awaited(s, id) ==> s.conns[id].client.None?)
  {
    CarefulRun(cap, states, steps, k);
    AttendedRun(cap, states, steps, k);
    ConnectedRun(cap, states, steps, k);
  }

  /** How a dial ended: the step that brought its result. */
  ghost predicate Reported(e: Step, th: Thread, r: Result<Client, string>) {
    || (e == Cancel(th) && r == Err("context"))
    || (r.Err? && e == DialErr(th, r.error))
    || (r.Ok? && e == DialOk(th, r.value))
  }

  /** A thread gets its result from the step that reports it, and keeps it until it settles. */
  lemma DialStep(cap: nat, s: Sys, e: Step, th: Thread)
    requires Enabled(cap, s, e)
    ensures var r := Next(s, cap, e);
            th in r.dials && r.dials[th].HasResult? ==>
              && th in s.dials && r.dials[th].id == s.dials[th].id
              && if s.dials[th].HasResult? then r.dials[th].result == s.dials[th].result
                 else Reported(e, th, r.dials[th].result) && InFlight(s, th, s.dials[th].id)
  {
    hide Scheduled, AfterSettle, WatchConn, DropConn;
  }

  /** In every run the result a thread carries to its settle is the one its own dial reported, for the same id. */
  lemma {:induction false} ResultOfDial(cap: nat, states: seq<Sys>, steps: seq<Step>, k: nat, th: Thread) returns (i: nat)
    requires IsRun(cap, states, steps) && k < |states| && th in states[k].dials && states[k].dials[th].HasResult?
    ensures i < k && Reported(steps[i], th, states[k].dials[th].result)
    ensures InFlight(states[i], th, states[k].dials[th].id)
  {
    hide Next;
    assert k > 0;
    var s, e := states[k - 1], steps[k - 1];
    assert Moves(cap, s, e, states[k]);
    DialStep(cap, s, e, th);
    if th in s.dials && s.dials[th].HasResult? {
      i := ResultOfDial(cap, states, steps, k - 1, th);
    } else {
      i := k - 1;
    }
  }

  /** In every run a failed entry says why: the last dial to settle on it since it was made failed with its error text. */
  lemma {:induction false} FailedWhy(cap: nat, states: seq<Sys>, steps: seq<Step>, k: nat, id: Id) returns (i: nat)
    requires IsRun(cap, states, steps) && k < |states| && id in states[k].conns && states[k].conns[id].state == Failed
    ensures i < k && SettlesErr(states[i], steps[i], id, states[k].conns[id].err)
    ensures forall j :: i <= j < k ==> !Resets(states[j], steps[j], id)
  {
    hide Next, Live;
    assert k > 0;
    var s, e := states[k - 1], steps[k - 1];
    assert Moves(cap, s, e, states[k]);
    EntryStep(cap, s, e, id);
    if SettlesErr(s, e, id, states[k].conns[id].err) {
      i := k - 1;
    } else {
      i := FailedWhy(cap, states, steps, k - 1, id);
    }
  }

  /** In every run the client of a connected entry came from a dial of its id that settled since it was made. */
  lemma {:induction false} ConnectedWhy(cap: nat, states: seq<Sys>, steps: seq<Step>, k: nat, id: Id, c: Client) returns (i: nat)
    requires IsRun(cap, states, steps) && k < |states| && HoldsClient(states[k], id, c)
    ensures i < k && SettlesOk(states[i], steps[i], id, c)
    ensures forall j :: i <= j < k ==> !Resets(states[j], steps[j], id)
  {
    hide Next, Live;
    assert k > 0;
    var s, e := states[k - 1], steps[k - 1];
    assert Moves(cap, s, e, states[k]);
    EntryStep(cap, s, e, id);
    if SettlesOk(s, e, id, c) {
      i := k - 1;
    } else {
      i := ConnectedWhy(cap, states, steps, k - 1, id, c);
    }
  }

  /** Once its one dial has settled nothing is in flight for a session. */
  lemma NoneLeft(cap: nat, s: Sys, e: Step, id: Id, err: string)
    requires OneDialEach(s) && Enabled(cap, s, e) && SettlesErr(s, e, id, err)
    ensures forall t: Thread :: !InFlight(Next(s, cap, e), t, id)
  {
    hide AfterSettle;
    assert InFlight(s, e.th, id);
    assert forall t: Thread :: InFlight(Next(s, cap, e), t, id) ==> InFlight(s, t, id);
  }

  /**
   * After a failed settle in a careful run the session is not live, shows the error its dial reported unless it
   * was removed meanwhile, and the next connect dials it.
   */
  lemma FailedSettles(cap: nat, states: seq<Sys>, steps: seq<Step>, k: nat, id: Id, err: string, th: Thread) returns (i: nat)
    requires IsRun(cap, states, steps) && k < |steps| && SettlesErr(states[k], steps[k], id, err)
    requires forall j :: 0 <= j < k ==> Careful(states[j], steps[j])
    requires th !in states[k + 1].dials
    ensures i < k && Reported(steps[i], steps[k].th, Err(err)) && InFlight(states[i], steps[k].th, id)
    ensures var s := states[k + 1];
            && !Live(s.conns, id) && (id in s.conns <==> id in states[k].conns)
            && (id in s.conns ==> s.conns[id] == Entry(Failed, None, err))
            && Careful(s, Connect(th, id))
            && var r := Next(s, cap, Connect(th, id));
               InFlight(r, th, id) && id in r.conns && r.conns[id] == Entry(Dialing, None, "")
  {
    hide Scheduled, AfterSettle;
    assert Moves(cap, states[k], steps[k], states[k + 1]);
    i := ResultOfDial(cap, states, steps, k, steps[k].th);
    CarefulRun(cap, states, steps, k);
    assert Careful(states[k], steps[k]);
    CarefulStep(cap, states[k], steps[k]);
    assert InFlight(states[k], steps[k].th, id);
    EntryStep(cap, states[k], steps[k], id);
    NoneLeft(cap, states[k], steps[k], id, err);
    assert id in states[k].conns ==> states[k].conns[id].state == Dialing && states[k].conns[id].client == None;
  }

  /** A session that is dialing or connected is not dialed again, and one that is neither always is. */
  lemma ConnectExact(cap: nat, s: Sys, th: Thread, id: Id)
    requires Enabled(cap, s, Connect(th, id))
    ensures var r := Next(s, cap, Connect(th, id));
            && (id in s.conns && s.conns[id].state != Failed ==> r == s)
            && (id !in s.conns || s.conns[id].state == Failed ==>
                  && r.dials == s.dials[th := Waiting(id)] && r.conns == s.conns[id := Entry(Dialing, None, "")])
  {
  }

  /** A watched client whose transport dies leaves the table for good and is about to be closed, if it was still there. */
  lemma DiesExact(cap: nat, s: Sys, id: Id, c: Client)
    requires Ledger(s) && Enabled(cap, s, Dies(id, c))
    ensures var r := Next(s, cap, Dies(id, c));
            && (forall k :: k in r.conns <==> k in s.conns && !(k == id && HoldsClient(s, id, c)))
            && (forall k :: k in r.conns ==> r.conns[k] == s.conns[k])
            && (HoldsClient(s, id, c) ==> At(r.place, c, Closing) && r.closing[c] == 1)
            && (!HoldsClient(s, id, c) ==> r.place == s.place)
            && !HoldsClient(r, id, c)
  {
    hide TransitOk, Next;
    DiesNext(cap, s, id, c);
  }

  lemma DiesNext(cap: nat, s: Sys, id: Id, c: Client)
    requires Enabled(cap, s, Dies(id, c))
    ensures var r := Next(s, cap, Dies(id, c));
            if HoldsClient(s, id, c) then
              r.conns == s.conns - {id} && r.place == s.place[c := Closing] && r.closing == s.closing + multiset{c}
            else r.conns == s.conns && r.place == s.place && r.closing == s.closing
  {
  }

  /** Disconnecting removes the session, whatever its state, and its client is about to be closed. */
  lemma DropExact(cap: nat, s: Sys, id: Id)
    requires Ledger(s)
    ensures var r := Next(s, cap, Drop(id));
            && r.conns == s.conns - {id}
            && (forall c :: HoldsClient(s, id, c) ==> At(r.place, c, Closing) && r.closing[c] == 1)
  {
    hide TransitOk;
  }
}
