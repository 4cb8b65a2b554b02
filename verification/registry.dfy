/** The connection registry of the SQL proxy server as a value-level state
    machine: a monotonic id counter, an admission limit (0 means unlimited)
    and the map from connection id to client connection. The class in
    server.dfy is proved against these functions. */
module Registry {

  /** An opaque handle on an accepted client connection. */
  datatype ConnRef = ConnRef(handle: nat)

  /** The registry's state, as guarded by the server's lock. */
  datatype State = State(connID: nat, maxConnections: nat, clients: map<nat, ConnRef>)

  /** What admission decided for one accepted socket. A rejected socket is
      closed by the caller before any protocol byte is written. */
  datatype Admission = Rejected | Admitted(id: nat)

  datatype Option<T> = None | Some(value: T)

  /** The registry after one admission attempt, with its outcome. */
  datatype Step = Step(next: State, outcome: Admission)

  /** The registry invariant: every registered id was handed out by the
      counter, and a non-zero limit is never exceeded. */
  ghost predicate Inv(s: State)
  {
    && (forall id :: id in s.clients ==> id < s.connID)
    && (s.maxConnections != 0 ==> |s.clients| <= s.maxConnections)
  }

  /** The registry of a freshly constructed server. */
  function Initial(maxConnections: nat): (s: State)
    ensures Inv(s)
    ensures s.maxConnections == maxConnections
  {
    State(0, maxConnections, map[])
  }

  /** The limit is reached: a non-zero maximum no greater than the number of
      registered clients. */
  predicate AtCapacity(s: State)
  {
    s.maxConnections != 0 && s.maxConnections <= |s.clients|
  }

  /** The check-and-register critical section of the connection handler:
      either reject, or hand out the counter's value as the new id, bump the
      counter and register the connection under that id. */
  function Admit(s: State, conn: ConnRef): (r: Step)
    ensures Inv(s) ==> Inv(r.next)
  {
    if AtCapacity(s) then
      Step(s, Rejected)
    else
      Step(State(s.connID + 1, s.maxConnections, s.clients[s.connID := conn]), Admitted(s.connID))
  }

  /** The deferred deregistration of a connection handler that exits. */
  function Remove(s: State, id: nat): (r: State)
    ensures Inv(s) ==> Inv(r)
    ensures id !in r.clients
  {
    State(s.connID, s.maxConnections, s.clients - {id})
  }

  /** With no limit configured, admission never rejects. */
  lemma AdmitUnlimited(s: State, conn: ConnRef)
    requires s.maxConnections == 0
    ensures Admit(s, conn).outcome.Admitted?
  {
  }

  /** Admission rejects exactly when the limit is reached, and a rejection
      leaves the counter and the map as they were. */
  lemma AdmitRejectsWhenFull(s: State, conn: ConnRef)
    ensures Admit(s, conn).outcome == Rejected <==> (s.maxConnections != 0 && |s.clients| >= s.maxConnections)
    ensures Admit(s, conn).outcome == Rejected ==> Admit(s, conn).next == s
  {
  }

  /** A successful admission hands out the old counter value as a fresh id,
      bumps the counter by one and adds exactly that key. */
  lemma AdmitRegistersFreshId(s: State, conn: ConnRef)
    requires Inv(s)
    requires Admit(s, conn).outcome.Admitted?
    ensures var r := Admit(s, conn); var id := r.outcome.id;
      && id == s.connID
      && id !in s.clients
      && r.next.connID == s.connID + 1
      && r.next.maxConnections == s.maxConnections
      && r.next.clients.Keys == s.clients.Keys + {id}
      && r.next.clients[id] == conn
      && |r.next.clients| == |s.clients| + 1
      && (forall k :: k in s.clients ==> k in r.next.clients && r.next.clients[k] == s.clients[k])
  {
  }

  /** Deregistration deletes only its own key; every other entry, the counter
      and the limit stay as they were. */
  lemma RemoveTouchesOnlyOwnKey(s: State, id: nat)
    ensures var r := Remove(s, id);
      && r.connID == s.connID
      && r.maxConnections == s.maxConnections
      && r.clients.Keys == s.clients.Keys - {id}
      && (forall k :: k in r.clients ==> r.clients[k] == s.clients[k])
      && |r.clients| == if id in s.clients then |s.clients| - 1 else |s.clients|
  {
  }

  /** One thing that can happen to the registry: a socket is accepted and
      goes through admission, or the handler of a connection exits. */
  datatype Event = Accept(conn: ConnRef) | Exit(id: nat)

  /** The registry after one event, and the id it handed out, if any. */
  datatype Transition = Transition(next: State, handedOut: Option<nat>)

  /** The final registry after a sequence of events, and the ids handed out
      along the way, in order. */
  datatype Run = Run(final: State, issued: seq<nat>)

  /** The registry after one event: an accepted socket goes through
      admission, an exiting handler deregisters its id. */
  function Apply(s: State, e: Event): Transition
  {
    match e
    case Accept(conn) =>
      var step := Admit(s, conn);
      Transition(step.next, if step.outcome.Admitted? then Some(step.outcome.id) else None)
    case Exit(id) => Transition(Remove(s, id), None)
  }

  /** The registry after a sequence of events, applied in order. No event
      changes the limit. */
  function Replay(s: State, events: seq<Event>): (r: Run)
    ensures r.final.maxConnections == s.maxConnections
    decreases |events|
  {
    if events == [] then Run(s, [])
    else
      var step := Apply(s, events[0]);
      var rest := Replay(step.next, events[1..]);
      var handedOut := if step.handedOut.Some? then [step.handedOut.value] else [];
      Run(rest.final, handedOut + rest.issued)
  }

  predicate StrictlyIncreasing(xs: seq<nat>)
  {
    forall i, j :: 0 <= i < j < |xs| ==> xs[i] < xs[j]
  }

  /** Whatever interleaving of admissions and exits happens, the invariant
      holds throughout, the counter grows by one per
      admission, and the ids handed out are strictly increasing and lie in
      [old counter, new counter), so no id is ever handed out twice: not
      while registered, and not after its connection has been removed. */
  lemma {:induction false} ReplayNeverReusesIds(s: State, events: seq<Event>)
    requires Inv(s)
    ensures var r := Replay(s, events);
      && Inv(r.final)
      && r.final.connID == s.connID + |r.issued|
      && StrictlyIncreasing(r.issued)
      && (forall i :: 0 <= i < |r.issued| ==> s.connID <= r.issued[i] < r.final.connID)
    decreases |events|
  {
    if events != [] {
      var step := Apply(s, events[0]);
      ApplyCountsIds(s, events[0]);
      ReplayNeverReusesIds(step.next, events[1..]);
      var rest := Replay(step.next, events[1..]);
      var r := Replay(s, events);
      assert r.final == rest.final;
      if step.handedOut.Some? {
        assert r.issued == [s.connID] + rest.issued;
        forall i | 0 < i < |r.issued|
          ensures r.issued[i] == rest.issued[i - 1]
        {
        }
      } else {
        assert r.issued == rest.issued;
      }
    }
  }

  /** One event keeps the invariant, and the counter grows by one exactly
      when the event hands out an id, which is then the old counter. */
  lemma ApplyCountsIds(s: State, e: Event)
    requires Inv(s)
    ensures var t := Apply(s, e);
      && Inv(t.next)
      && (t.handedOut.Some? ==> t.handedOut.value == s.connID && t.next.connID == s.connID + 1)
      && (t.handedOut.None? ==> t.next.connID == s.connID)
  {
  }

  /** The events of a burst of accepted sockets, with no handler exiting. */
  function Accepts(conns: seq<ConnRef>): seq<Event>
  {
    seq(|conns|, i requires 0 <= i < |conns| => Accept(conns[i]))
  }

  function Min(a: nat, b: nat): nat
  {
    if a <= b then a else b
  }

  /** A burst of accepts with no exits admits every socket when there is no
      limit, and otherwise exactly as many as there are free places; the
      rest are rejected. */
  lemma {:induction false} AcceptsFillToLimit(s: State, conns: seq<ConnRef>)
    requires Inv(s)
    ensures var r := Replay(s, Accepts(conns));
      && |r.issued| == (if s.maxConnections == 0 then |conns| else Min(|conns|, s.maxConnections - |s.clients|))
      && |r.final.clients| == |s.clients| + |r.issued|
    decreases |conns|
  {
    if conns != [] {
      var events := Accepts(conns);
      assert events[1..] == Accepts(conns[1..]);
      var step := Admit(s, conns[0]);
      if step.outcome.Admitted? {
        AdmitRegistersFreshId(s, conns[0]);
      }
      AcceptsFillToLimit(step.next, conns[1..]);
    }
  }

  /** The sockets a burst of accepts admits are its first ones, in order,
      registered under consecutive ids from the old counter on, and every
      entry registered before the burst stays as it was. */
  lemma {:induction false} AcceptsRegisterInOrder(s: State, conns: seq<ConnRef>)
    requires Inv(s)
    ensures var r := Replay(s, Accepts(conns));
      && |r.issued| <= |conns|
      && (forall i :: 0 <= i < |r.issued| ==>
            r.issued[i] == s.connID + i && r.issued[i] in r.final.clients && r.final.clients[r.issued[i]] == conns[i])
      && (forall k :: k in s.clients ==> k in r.final.clients && r.final.clients[k] == s.clients[k])
    decreases |conns|
  {
    if conns != [] {
      var events := Accepts(conns);
      assert events[0] == Accept(conns[0]);
      assert events[1..] == Accepts(conns[1..]);
      var step := Admit(s, conns[0]);
      AcceptsRegisterInOrder(step.next, conns[1..]);
      var rest := Replay(step.next, Accepts(conns[1..]));
      var r := Replay(s, events);
      assert r.final == rest.final;
      if step.outcome.Admitted? {
        AdmitRegistersFreshId(s, conns[0]);
        assert r.issued == [s.connID] + rest.issued;
        forall i | 0 <= i < |r.issued|
          ensures r.issued[i] == s.connID + i && r.issued[i] in r.final.clients && r.final.clients[r.issued[i]] == conns[i]
        {
          if i > 0 {
            assert r.issued[i] == rest.issued[i - 1];
          }
        }
      } else {
        assert step.next == s;
        AcceptsFillToLimit(s, conns[1..]);
        assert r.issued == rest.issued == [];
      }
    }
  }

  /** Corollary: no id handed out during a run was registered when it began. */
  lemma IssuedIdsAreNew(s: State, events: seq<Event>)
    requires Inv(s)
    ensures forall i :: 0 <= i < |Replay(s, events).issued| ==> Replay(s, events).issued[i] !in s.clients
  {
    ReplayNeverReusesIds(s, events);
  }
}
