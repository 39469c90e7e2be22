/** The connection manager: its critical sections, and the protocol they form when interleaved. */
module Connmgr {
  import opened Wrappers

  type Id = string
  type Client = nat  // identity of a dialed client

  datatype State = Dialing | Connected | Failed

  datatype Entry = Entry(state: State, client: Option<Client>, err: string)

  type Conns = map<Id, Entry>

  predicate Live(conns: Conns, id: Id) {
    id in conns && (conns[id].state == Dialing || conns[id].state == Connected)
  }

  // --------------------------------------- what each critical section does to the table

  /** Makes an entry for id unless one is live; `stale` is the client of a replaced entry. */
  datatype Started = Started(conns: Conns, dials: bool, stale: Option<Client>)

  function StartConn(conns: Conns, id: Id): Started {
    if Live(conns, id) then Started(conns, false, None)
    else Started(conns[id := Entry(Dialing, None, "")], true, if id in conns then conns[id].client else None)
  }

  /** Records a dial result; without an entry the new client is closed, otherwise it is watched. */
  datatype Settled = Settled(conns: Conns, close: Option<Client>, watch: Option<Client>)

  function SettleConn(conns: Conns, id: Id, r: Result<Client, string>): Settled {
    if id !in conns then Settled(conns, if r.Ok? then Some(r.value) else None, None)
    else
      match r
      case Err(e) => Settled(conns[id := conns[id].(state := Failed, err := e)], None, None)
      case Ok(c) => Settled(conns[id := conns[id].(state := Connected, client := Some(c))], None, Some(c))
  }

  datatype Removed = Removed(conns: Conns, close: Option<Client>)

  /** The transport of `client` died: removes the entry if it still holds that client. */
  function WatchConn(conns: Conns, id: Id, client: Client): Removed {
    if id in conns && conns[id].client == Some(client) then Removed(conns - {id}, Some(client)) else Removed(conns, None)
  }

  function DropConn(conns: Conns, id: Id): Removed {
    if id in conns then Removed(conns - {id}, conns[id].client) else Removed(conns, None)
  }

  /** The client of a connected session. */
  function ClientAt(conns: Conns, id: Id): Option<Client> {
    if id in conns && conns[id].state == Connected then conns[id].client else None
  }

  /** The clients held under these ids, each id's once. */
  function ClientsOf(conns: Conns, ids: seq<Id>): seq<Client> {
    if ids == [] then [] else ClientsOf(conns, ids[..|ids| - 1]) + HeldBy(conns, ids[|ids| - 1])
  }

  function HeldBy(conns: Conns, id: Id): seq<Client> {
    if id in conns && conns[id].client.Some? then [conns[id].client.value] else []
  }

  /** The targets a batch dials: those not live, each id once, in order. */
  function NewIds(conns: Conns, targets: seq<Id>): seq<Id> {
    if targets == [] then []
    else
      var prev, t := NewIds(conns, targets[..|targets| - 1]), targets[|targets| - 1];
      if Live(conns, t) || t in prev then prev else prev + [t]
  }

  /** The table with a new dialing entry for each of the ids. */
  function Dialed(conns: Conns, ids: seq<Id>): Conns {
    if ids == [] then conns else Dialed(conns, ids[..|ids| - 1])[ids[|ids| - 1] := Entry(Dialing, None, "")]
  }

  lemma {:induction false} NewIdsExact(conns: Conns, targets: seq<Id>)
    ensures forall id :: id in NewIds(conns, targets) <==> id in targets && !Live(conns, id)
    ensures forall i, k :: 0 <= i < k < |NewIds(conns, targets)| ==> NewIds(conns, targets)[i] != NewIds(conns, targets)[k]
  {
    if targets != [] {
      var init := targets[..|targets| - 1];
      NewIdsExact(conns, init);
      assert targets == init + [targets[|targets| - 1]];
    }
  }

  lemma {:induction false} DialedExact(conns: Conns, ids: seq<Id>, id: Id)
    ensures id in Dialed(conns, ids) <==> id in conns || id in ids
    ensures id in ids ==> Dialed(conns, ids)[id] == Entry(Dialing, None, "")
    ensures id !in ids && id in conns ==> Dialed(conns, ids)[id] == conns[id]
  {
    if ids != [] {
      var init := ids[..|ids| - 1];
      DialedExact(conns, init, id);
      assert ids == init + [ids[|ids| - 1]];
    }
  }

  lemma OneMoreId(conns: Conns, ids: seq<Id>, id: Id)
    ensures ClientsOf(conns, ids + [id]) == ClientsOf(conns, ids) + HeldBy(conns, id)
    ensures Dialed(conns, ids + [id]) == Dialed(conns, ids)[id := Entry(Dialing, None, "")]
  {
    assert (ids + [id])[..|ids|] == ids;
  }

  lemma NextTarget(conns: Conns, targets: seq<Id>, i: nat)
    requires i < |targets|
    ensures NewIds(conns, targets[..i + 1])
         == if Live(conns, targets[i]) || targets[i] in NewIds(conns, targets[..i]) then NewIds(conns, targets[..i])
            else NewIds(conns, targets[..i]) + [targets[i]]
  {
    assert targets[..i + 1][..i] == targets[..i];
  }

  lemma NothingYet(conns: Conns)
    ensures ClientsOf(conns, []) == [] && Dialed(conns, []) == conns && NewIds(conns, []) == []
  {
  }

  class Manager {
    var conns: Conns

    constructor ()
      ensures conns == map[]
    {
      conns := map[];
    }

    method StartOne(id: Id) returns (dials: bool, stale: Option<Client>)
      modifies this
      ensures Started(conns, dials, stale) == StartConn(old(conns), id)
    {
      dials, stale := false, None;
      if id in conns {
        var e := conns[id];
        if e.state == Dialing || e.state == Connected {
          return;
        }
        stale := e.client;
      }
      conns := conns[id := Entry(Dialing, None, "")];
      dials := true;
    }

    /** Starts a dial for every target that is not live yet, each id once. */
    method ConnectBatch(targets: seq<Id>) returns (dials: seq<Id>, stale: seq<Client>)
      modifies this
      ensures dials == NewIds(old(conns), targets) && conns == Dialed(old(conns), dials)
      ensures stale == ClientsOf(old(conns), dials)
    {
      hide NewIds, Dialed, ClientsOf;
      dials, stale := [], [];
      var i := 0;
      NothingYet(conns);
      assert targets[..0] == [];
      while i < |targets|
        invariant 0 <= i <= |targets| && dials == NewIds(old(conns), targets[..i])
        invariant conns == Dialed(old(conns), dials) && stale == ClientsOf(old(conns), dials)
      {
        var t := targets[i];
        NextTarget(old(conns), targets, i);
        DialedExact(old(conns), dials, t);
        OneMoreId(old(conns), dials, t);
        var starts, gone := StartOne(t);
        if starts {
          if gone.Some? {
            stale := stale + [gone.value];
          }
          dials := dials + [t];
        }
        i := i + 1;
      }
      assert targets[..i] == targets;
    }

    method Settle(id: Id, r: Result<Client, string>) returns (close: Option<Client>, watch: Option<Client>)
      modifies this
      ensures Settled(conns, close, watch) == SettleConn(old(conns), id, r)
    {
      close, watch := None, None;
      if id !in conns {
        if r.Ok? {
          close := Some(r.value);
        }
        return;
      }
      var e := conns[id];
      if r.Err? {
        e := e.(state := Failed).(err := r.error);
      } else {
        e := e.(state := Connected).(client := Some(r.value));
        watch := Some(r.value);
      }
      conns := conns[id := e];
    }

    method Watch(id: Id, client: Client) returns (close: Option<Client>)
      modifies this
      ensures Removed(conns, close) == WatchConn(old(conns), id, client)
    {
      if id !in conns || conns[id].client != Some(client) {
        return None;
      }
      conns := conns - {id};
      close := Some(client);
    }

    method Disconnect(id: Id) returns (close: Option<Client>)
      modifies this
      ensures Removed(conns, close) == DropConn(old(conns), id)
    {
      if id !in conns {
        return None;
      }
      close := conns[id].client;
      conns := conns - {id};
    }

    /** Empties the table; the clients of its entries are to be closed, one close for each entry. */
    method DisconnectAll() returns (close: seq<Client>, ghost ids: seq<Id>)
      modifies this
      ensures conns == map[] && close == ClientsOf(old(conns), ids)
      ensures forall id :: id in ids <==> id in old(conns)
      ensures forall i, k :: 0 <= i < k < |ids| ==> ids[i] != ids[k]
    {
      hide ClientsOf;
      close, ids := [], [];
      var left := conns.Keys;
      NothingYet(conns);
      while left != {}
        invariant left <= conns.Keys && conns == old(conns) && close == ClientsOf(conns, ids)
        invariant forall id :: id in ids <==> id in conns && id !in left
        invariant forall i, k :: 0 <= i < k < |ids| ==> ids[i] != ids[k]
        decreases left
      {
        var id :| id in left;
        var e := conns[id];
        OneMoreId(conns, ids, id);
        if e.client.Some? {
          close := close + [e.client.value];
        }
        left := left - {id};
        assert forall x :: x in ids + [id] <==> x in ids || x == id;
        ids := ids + [id];
      }
      conns := map[];
    }

    /** The live client of a session. */
    method ClientOf(id: Id) returns (c: Option<Client>)
      ensures c == ClientAt(conns, id)
    {
      if id !in conns || conns[id].state != Connected {
        return None;
      }
      c := conns[id].client;
    }
  }
}
