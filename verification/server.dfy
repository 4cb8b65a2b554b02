/** The SQL proxy server's registry object: the fields guarded by its lock,
    the constructor, the admission and deregistration steps of the
    per-connection handler, and shutdown's close-everything loop. */
module Proxy {
  import opened Registry

  /** An error returned by closing the listener or a client connection. */
  datatype Error = Error(message: string)

  predicate Distinct(ids: seq<nat>)
  {
    forall i, j :: 0 <= i < j < |ids| ==> ids[i] != ids[j]
  }

  /** The error shutdown records for the listener: one if there is a
      listener and closing it failed, none otherwise. */
  function ListenerErrors(listening: bool, listenerClose: Option<Error>): (errs: seq<Error>)
    ensures |errs| <= 1
    ensures errs != [] <==> listening && listenerClose.Some?
    ensures errs != [] ==> errs[0] == listenerClose.value
  {
    if listening && listenerClose.Some? then [listenerClose.value] else []
  }

  /** The ids, in closing order, whose client connection failed to close. */
  function FailedClients(ids: seq<nat>, clients: map<nat, ConnRef>, clientClose: ConnRef -> Option<Error>): (failed: seq<nat>)
    requires forall id :: id in ids ==> id in clients
    ensures forall id :: id in failed <==> id in ids && clientClose(clients[id]).Some?
    ensures Distinct(ids) ==> Distinct(failed)
    decreases |ids|
  {
    if ids == [] then []
    else
      var last := ids[|ids| - 1];
      var before := FailedClients(ids[..|ids| - 1], clients, clientClose);
      if clientClose(clients[last]).Some? then before + [last] else before
  }

  /** The errors collected while closing the clients listed in ids, in order:
      each close that fails appends its error. */
  function CloseErrors(ids: seq<nat>, clients: map<nat, ConnRef>, clientClose: ConnRef -> Option<Error>): seq<Error>
    requires forall id :: id in ids ==> id in clients
    decreases |ids|
  {
    if ids == [] then []
    else
      var last := ids[|ids| - 1];
      var before := CloseErrors(ids[..|ids| - 1], clients, clientClose);
      match clientClose(clients[last])
      case Some(e) => before + [e]
      case None => before
  }

  /** The registered clients whose close fails. */
  function FailingClients(clients: map<nat, ConnRef>, clientClose: ConnRef -> Option<Error>): set<nat>
  {
    set id | id in clients && clientClose(clients[id]).Some?
  }

  /** The ids a list holds, as a set. */
  function Elements(xs: seq<nat>): set<nat>
  {
    set x | x in xs
  }

  /** A list without duplicates has as many elements as it has entries. */
  lemma {:induction false} DistinctCardinality(xs: seq<nat>)
    requires Distinct(xs)
    ensures |Elements(xs)| == |xs|
    decreases |xs|
  {
    if xs != [] {
      var before, last := xs[..|xs| - 1], xs[|xs| - 1];
      assert Distinct(before);
      DistinctCardinality(before);
      assert forall k :: 0 <= k < |before| ==> before[k] != last;
      assert last !in Elements(before);
      assert Elements(xs) == Elements(before) + {last};
    }
  }

  /** Closing every registered client once fails exactly once per failing
      client. */
  lemma FailedClientsCount(closed: seq<nat>, clients: map<nat, ConnRef>, clientClose: ConnRef -> Option<Error>)
    requires Distinct(closed)
    requires forall id :: id in closed <==> id in clients
    ensures |FailedClients(closed, clients, clientClose)| == |FailingClients(clients, clientClose)|
  {
    var failed := FailedClients(closed, clients, clientClose);
    DistinctCardinality(failed);
    assert Elements(failed) == FailingClients(clients, clientClose);
  }

  /** Closing one more client appends its error, if its close fails. */
  lemma CloseErrorsSnoc(ids: seq<nat>, id: nat, clients: map<nat, ConnRef>, clientClose: ConnRef -> Option<Error>)
    requires forall x :: x in ids ==> x in clients
    requires id in clients
    ensures CloseErrors(ids + [id], clients, clientClose) ==
      CloseErrors(ids, clients, clientClose) + (if clientClose(clients[id]).Some? then [clientClose(clients[id]).value] else [])
  {
    assert (ids + [id])[..|ids|] == ids;
  }

  /** Every collected client error is the error some closed client returned. */
  lemma {:induction false} CloseErrorsComeFromClosedClients(ids: seq<nat>, clients: map<nat, ConnRef>, clientClose: ConnRef -> Option<Error>)
    requires forall id :: id in ids ==> id in clients
    ensures forall e :: e in CloseErrors(ids, clients, clientClose) ==>
      exists id :: id in ids && clientClose(clients[id]) == Some(e)
    decreases |ids|
  {
    if ids != [] {
      CloseErrorsComeFromClosedClients(ids[..|ids| - 1], clients, clientClose);
    }
  }

  /** The collected client errors are exactly the close errors of the
      failed clients, one entry each, in closing order. */
  lemma {:induction false} CloseErrorsOfFailedClients(ids: seq<nat>, clients: map<nat, ConnRef>, clientClose: ConnRef -> Option<Error>)
    requires forall id :: id in ids ==> id in clients
    ensures var failed := FailedClients(ids, clients, clientClose);
      && |CloseErrors(ids, clients, clientClose)| == |failed|
      && forall k :: 0 <= k < |failed| ==>
           CloseErrors(ids, clients, clientClose)[k] == clientClose(clients[failed[k]]).value
    decreases |ids|
  {
    if ids != [] {
      CloseErrorsOfFailedClients(ids[..|ids| - 1], clients, clientClose);
    }
  }

  /** A shutdown error list that starts with the listener's errors and goes
      on with the errors of closing every registered client, each once, holds
      after that head one entry per client whose close failed, that
      client's own error, and nothing else. */
  lemma ShutdownErrors(head: seq<Error>, closed: seq<nat>, clients: map<nat, ConnRef>, clientClose: ConnRef -> Option<Error>)
    requires Distinct(closed)
    requires forall id :: id in closed <==> id in clients
    ensures var errs := head + CloseErrors(closed, clients, clientClose);
      var failed := FailedClients(closed, clients, clientClose);
      && Distinct(failed)
      && (forall id :: id in failed <==> id in clients && clientClose(clients[id]).Some?)
      && |errs| == |head| + |failed|
      && (forall k :: 0 <= k < |failed| ==> errs[|head| + k] == clientClose(clients[failed[k]]).value)
  {
    CloseErrorsOfFailedClients(closed, clients, clientClose);
  }

  class SQLServer {
    var connID: nat
    var maxConnections: nat
    var clients: map<nat, ConnRef>
    /** Whether the server holds a listener. */
    var listening: bool

    /** The registry part of the server, as a value. */
    function Snapshot(): State
      reads this
    {
      State(connID, maxConnections, clients)
    }

    ghost predicate Valid()
      reads this
    {
      Inv(Snapshot())
    }

    /** A freshly constructed server: counter at zero, no clients, the
        configured limit, and a listener. */
    constructor (maxConnections: nat)
      ensures Valid()
      ensures Snapshot() == Initial(maxConnections)
      ensures connID == 0 && clients == map[] && this.maxConnections == maxConnections
      ensures listening
    {
      this.connID := 0;
      this.maxConnections := maxConnections;
      this.clients := map[];
      this.listening := true;
    }

    /** Check-and-register as one atomic step, as under the server's lock. */
    method Admit(conn: ConnRef) returns (outcome: Admission)
      requires Valid()
      modifies this`connID, this`clients
      ensures Valid()
      ensures Step(Snapshot(), outcome) == Registry.Admit(old(Snapshot()), conn)
      ensures outcome.Rejected? <==> old(AtCapacity(Snapshot()))
      ensures outcome.Rejected? ==> connID == old(connID) && clients == old(clients)
      ensures outcome.Admitted? ==>
        && outcome.id == old(connID)
        && outcome.id !in old(clients)
        && connID == old(connID) + 1
        && clients == old(clients)[outcome.id := conn]
    {
      var conns := |clients|;
      if maxConnections != 0 && maxConnections <= conns {
        return Rejected;
      }
      var id := connID;
      connID := connID + 1;
      clients := clients[id := conn];
      outcome := Admitted(id);
    }

    /** Deregistration when a connection's handler exits. */
    method Remove(id: nat)
      requires Valid()
      modifies this`clients
      ensures Valid()
      ensures Snapshot() == Registry.Remove(old(Snapshot()), id)
      ensures clients == old(clients) - {id}
    {
      clients := clients - {id};
    }

    /** Shutdown: close the listener, then every registered client, whatever
        the earlier closes returned. The registry itself is left as it is:
        each handler deregisters itself once its connection is closed.
        closed is the order the clients were closed in (the map's iteration
        order, which is unspecified); errs is the listener's error, if any,
        followed by one error per client whose close failed. */
    method Close(listenerClose: Option<Error>, clientClose: ConnRef -> Option<Error>)
      returns (errs: seq<Error>, ghost closed: seq<nat>)
      ensures Distinct(closed)
      ensures forall id :: id in closed <==> id in clients
      ensures |closed| == |clients|
      ensures errs == ListenerErrors(listening, listenerClose) + CloseErrors(closed, clients, clientClose)
      ensures var head := |ListenerErrors(listening, listenerClose)|;
        var failed := FailedClients(closed, clients, clientClose);
        && Distinct(failed)
        && (forall id :: id in failed <==> id in clients && clientClose(clients[id]).Some?)
        && |errs| == head + |failed|
        && (forall k :: 0 <= k < |failed| ==> errs[head + k] == clientClose(clients[failed[k]]).value)
      ensures |errs| == |ListenerErrors(listening, listenerClose)| + |FailingClients(clients, clientClose)|
    {
      errs := [];
      if listening {
        match listenerClose {
          case Some(e) => errs := errs + [e];
          case None =>
        }
      }
      assert errs == ListenerErrors(listening, listenerClose);
      var clientErrs;
      clientErrs, closed := CloseClients(clientClose);
      ShutdownErrors(errs, closed, clients, clientClose);
      errs := errs + clientErrs;
    }

    /** The locked part of shutdown: close every registered client once, in
        the map's (unspecified) order, and collect the errors of the closes
        that fail, in that order. */
    method CloseClients(clientClose: ConnRef -> Option<Error>) returns (errs: seq<Error>, ghost closed: seq<nat>)
      ensures Distinct(closed)
      ensures forall id :: id in closed <==> id in clients
      ensures |closed| == |clients|
      ensures errs == CloseErrors(closed, clients, clientClose)
      ensures |errs| == |FailingClients(clients, clientClose)|
    {
      errs := [];
      closed := [];
      var remaining := clients.Keys;
      while remaining != {}
        invariant remaining <= clients.Keys
        invariant Distinct(closed)
        invariant forall id :: id in closed ==> id in clients && id !in remaining
        invariant forall id :: id in clients ==> id in closed || id in remaining
        invariant |closed| + |remaining| == |clients|
        invariant errs == CloseErrors(closed, clients, clientClose)
        decreases remaining
      {
        var id :| id in remaining;
        CloseErrorsSnoc(closed, id, clients, clientClose);
        match clientClose(clients[id]) {
          case Some(e) => errs := errs + [e];
          case None =>
        }
        closed := closed + [id];
        remaining := remaining - {id};
      }
      CloseErrorsOfFailedClients(closed, clients, clientClose);
      FailedClientsCount(closed, clients, clientClose);
    }
  }
}
