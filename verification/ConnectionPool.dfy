/** The connection a RabbitMQ producer keeps, and how it is replaced under concurrent callers.

    Every operation holds the producer's lock from beginning to end, so a run of any number of workers is a
    sequence of whole operations, with connections going bad in between. */
module ConnectionPool {
  import opened Wrappers
  import opened PublisherConfirms

  /** A dialed connection. Numbers are given in the order of the dials. */
  type Conn = nat

  datatype Pool = Pool(client: Option<Conn>, closed: bool, dialed: nat, bad: set<Conn>)

  /** The first connection is dialed when the producer is made. */
  const FRESH: Pool := Pool(Some(0), false, 1, {})

  /** What is done to connections, in the order it is done. */
  datatype Deed = Dial(conn: Conn) | CloseStale(conn: Conn) | CloseLast(conn: Conn)

  /** The client to publish on; a producer without one dials. */
  function Current(p: Pool, dialOk: bool): (Pool, Option<Conn>, seq<Deed>) {
    if p.closed then (p, None, [])
    else if p.client.Some? then (p, p.client, [])
    else if !dialOk then (p, None, [])
    else (p.(client := Some(p.dialed), dialed := p.dialed + 1), Some(p.dialed), [Dial(p.dialed)])
  }

  datatype Replacement = Replaced | Kept | Refused(error: Error)

  /** Replaces a client that can no longer be used. A healthy one is kept, and so is one that another worker
      has already replaced. */
  function Reconnect(p: Pool, stale: Conn, dialOk: bool): (Pool, Replacement, seq<Deed>) {
    if p.closed then (p, Refused(ProducerClosed), [])
    else if p.client != Some(stale) then (p, Kept, [])
    else if stale !in p.bad then (p, Kept, [])
    else if !dialOk then (p.(client := None), Refused(DialFailed), [CloseStale(stale)])
    else (p.(client := Some(p.dialed), dialed := p.dialed + 1), Replaced, [CloseStale(stale), Dial(p.dialed)])
  }

  /** Whether a publish that has returned is worth another connection: a message the broker could not route
      would only be sent back again. */
  predicate WorthReplacing(reply: Reply) {
    reply.Failed? && !reply.error.Unroutable?
  }

  function Shut(p: Pool): (Pool, seq<Deed>) {
    if p.closed then (p, [])
    else if p.client.None? then (p.(closed := true), [])
    else (p.(closed := true, client := None), [CloseLast(p.client.value)])
  }
}

/** Runs of any number of workers over one producer. */
module ConnectionRuns {
  import opened Wrappers
  import opened ConnectionPool
  import opened Runs

  datatype Step =
    | GetCurrent(dialOk: bool)
    | Replace(stale: Conn, dialOk: bool)
    | Close
    | GoesBad(conn: Conn)

  /** The pool and everything that was ever done to connections. */
  datatype State = State(pool: Pool, deeds: seq<Deed>)

  const INIT: State := State(FRESH, [Dial(0)])

  function Next(s: State, step: Step): Option<State> {
    match step
    case GetCurrent(dialOk) =>
      var r := Current(s.pool, dialOk);
      Some(State(r.0, s.deeds + r.2))
    case Replace(stale, dialOk) =>
      var r := Reconnect(s.pool, stale, dialOk);
      Some(State(r.0, s.deeds + r.2))
    case Close =>
      var r := Shut(s.pool);
      Some(State(r.0, s.deeds + r.1))
    case GoesBad(conn) =>
      if conn >= s.pool.dialed then None else Some(s.(pool := s.pool.(bad := s.pool.bad + {conn})))
  }

  ghost predicate Reachable(s: State) {
    exists steps :: After(Next, INIT, steps) == Some(s)
  }

  /** The connections that are open after some deeds, whatever the producer believes. */
  function OpenAfter(deeds: seq<Deed>): set<Conn> {
    if deeds == [] then {}
    else
      var open := OpenAfter(deeds[..|deeds| - 1]);
      match deeds[|deeds| - 1]
      case Dial(conn) => open + {conn}
      case CloseStale(conn) => open - {conn}
      case CloseLast(conn) => open - {conn}
  }

  lemma OpenAfterOne(deeds: seq<Deed>, d: Deed)
    ensures OpenAfter(deeds + [d]) == if d.Dial? then OpenAfter(deeds) + {d.conn} else OpenAfter(deeds) - {d.conn}
  {
    assert (deeds + [d])[..|deeds + [d]| - 1] == deeds;
  }

  /** Numbers are given once, in order, and nothing is done to a connection after it was closed. */
  ghost predicate Orderly(deeds: seq<Deed>, dialed: nat) {
    && (forall i :: 0 <= i < |deeds| ==> deeds[i].conn < dialed)
    && (forall i, j :: 0 <= i < j < |deeds| && deeds[j].Dial? ==> deeds[i].conn < deeds[j].conn)
    && (forall i, j :: 0 <= i < j < |deeds| && !deeds[i].Dial? ==> deeds[i].conn != deeds[j].conn)
  }

  lemma DialIsOrderly(deeds: seq<Deed>, dialed: nat)
    requires Orderly(deeds, dialed)
    ensures Orderly(deeds + [Dial(dialed)], dialed + 1)
  {
  }

  ghost predicate Inv(s: State) {
    var p := s.pool;
    && OpenIs(s.deeds, p.client)
    && (p.client.Some? ==> p.client.value < p.dialed)
    && (p.closed ==> p.client.None?)
    && Orderly(s.deeds, p.dialed)
    && Closed(s.deeds, p)
  }

  /** What is open is the client, or nothing. */
  ghost predicate OpenIs(deeds: seq<Deed>, client: Option<Conn>) {
    OpenAfter(deeds) == if client.Some? then {client.value} else {}
  }

  lemma DialOpens(deeds: seq<Deed>, conn: Conn)
    requires OpenIs(deeds, None)
    ensures OpenIs(deeds + [Dial(conn)], Some(conn))
  {
    OpenAfterOne(deeds, Dial(conn));
  }

  /** What is closed is not the client any more; only a bad connection is replaced, and the last one is closed last. */
  ghost predicate Closed(deeds: seq<Deed>, p: Pool) {
    forall i :: 0 <= i < |deeds| && !deeds[i].Dial? ==>
      && p.client != Some(deeds[i].conn)
      && (deeds[i].CloseStale? ==> deeds[i].conn in p.bad)
      && (deeds[i].CloseLast? ==> i == |deeds| - 1 && p.closed)
  }

  lemma DialStaysClosed(deeds: seq<Deed>, p: Pool)
    requires Closed(deeds, p) && Orderly(deeds, p.dialed) && !p.closed
    ensures Closed(deeds + [Dial(p.dialed)], p.(client := Some(p.dialed), dialed := p.dialed + 1))
  {
  }

  lemma DialKeeps(s: State)
    requires Inv(s) && s.pool.client.None? && !s.pool.closed
    ensures Inv(State(s.pool.(client := Some(s.pool.dialed), dialed := s.pool.dialed + 1),
                      s.deeds + [Dial(s.pool.dialed)]))
  {
    DialIsOrderly(s.deeds, s.pool.dialed);
    DialStaysClosed(s.deeds, s.pool);
    DialOpens(s.deeds, s.pool.dialed);
  }

  lemma CloseStaleKeeps(s: State)
    requires Inv(s) && s.pool.client.Some? && !s.pool.closed && s.pool.client.value in s.pool.bad
    ensures Inv(State(s.pool.(client := None), s.deeds + [CloseStale(s.pool.client.value)]))
  {
    OpenAfterOne(s.deeds, CloseStale(s.pool.client.value));
  }

  lemma CloseLastKeeps(s: State)
    requires Inv(s) && s.pool.client.Some? && !s.pool.closed
    ensures Inv(State(s.pool.(closed := true, client := None), s.deeds + [CloseLast(s.pool.client.value)]))
  {
    OpenAfterOne(s.deeds, CloseLast(s.pool.client.value));
  }

  lemma ReplaceKeeps(s: State, stale: Conn, dialOk: bool)
    requires Inv(s) && !s.pool.closed && s.pool.client == Some(stale) && stale in s.pool.bad
    ensures Inv(Next(s, Replace(stale, dialOk)).value)
  {
    CloseStaleKeeps(s);
    if dialOk {
      DialKeeps(State(s.pool.(client := None), s.deeds + [CloseStale(stale)]));
      assert s.deeds + [CloseStale(stale), Dial(s.pool.dialed)] ==
             s.deeds + [CloseStale(stale)] + [Dial(s.pool.dialed)];
    }
  }

  lemma NextKeeps(s: State, step: Step)
    requires Inv(s) && Next(s, step).Some?
    ensures Inv(Next(s, step).value)
  {
    assert s.deeds + [] == s.deeds;
    match step
    case GetCurrent(dialOk) => if s.pool.client.None? && !s.pool.closed && dialOk { DialKeeps(s); }
    case Close => if s.pool.client.Some? && !s.pool.closed { CloseLastKeeps(s); }
    case Replace(stale, dialOk) =>
      if !s.pool.closed && s.pool.client == Some(stale) && stale in s.pool.bad { ReplaceKeeps(s, stale, dialOk); }
    case GoesBad(conn) =>
  }

  lemma ReachableInv(s: State)
    requires Reachable(s)
    ensures Inv(s)
  {
    var steps :| After(Next, INIT, steps) == Some(s);
    forall t, step | Inv(t) && Next(t, step).Some?
      ensures Inv(Next(t, step).value)
    {
      NextKeeps(t, step);
    }
    assert [Dial(0)][..0] == [];
    RunKeeps(Next, Inv, INIT, steps);
  }

  /** The open connections are exactly the producer's client, or none. */
  lemma NoConnectionLeaks(s: State)
    requires Reachable(s)
    ensures OpenAfter(s.deeds) == if s.pool.client.Some? then {s.pool.client.value} else {}
    ensures s.pool.closed ==> OpenAfter(s.deeds) == {}
  {
    ReachableInv(s);
  }

  /** A connection is dialed once, and torn down at most once and only after that. */
  lemma EachConnectionOnce(s: State, i: nat, j: nat)
    requires Reachable(s) && i < j < |s.deeds| && s.deeds[i].conn == s.deeds[j].conn
    ensures s.deeds[i].Dial? && !s.deeds[j].Dial?
  {
    ReachableInv(s);
  }

  /** Only a connection that has gone bad is ever replaced. */
  lemma HealthyIsKept(s: State, conn: Conn)
    requires Reachable(s) && CloseStale(conn) in s.deeds
    ensures conn in s.pool.bad && s.pool.client != Some(conn)
  {
    ReachableInv(s);
    var i :| 0 <= i < |s.deeds| && s.deeds[i] == CloseStale(conn);
  }

  /** Closing the producer is the end: nothing is dialed and nothing is torn down in any run that follows. */
  lemma {:induction false} ClosedForGood(s: State, steps: seq<Step>)
    requires Reachable(s) && s.pool.closed && After(Next, s, steps).Some?
    ensures After(Next, s, steps).value.deeds == s.deeds && After(Next, s, steps).value.pool.closed
    decreases |steps|
  {
    if steps != [] {
      ClosedForGood(s, steps[..|steps| - 1]);
    }
  }

  // ---------------------------------------------------------------------------------------------------
  // What other workers do in the meantime

  /** A step, or nothing if it cannot be taken. */
  function Acted(s: State, step: Step): State {
    if Next(s, step).Some? then Next(s, step).value else s
  }

  /** What a number of steps cannot take back. A client that is found afterwards is the same, or was dialed since. */
  ghost predicate Later(s: State, t: State) {
    && s.pool.dialed <= t.pool.dialed && s.pool.bad <= t.pool.bad && (s.pool.closed ==> t.pool.closed)
    && (t.pool.client.None? || t.pool.client == s.pool.client || s.pool.dialed <= t.pool.client.value)
    && s.deeds <= t.deeds
  }

  lemma ActedKeeps(s: State, step: Step)
    requires Reachable(s)
    ensures Reachable(Acted(s, step)) && Later(s, Acted(s, step))
  {
    ReachableInv(s);
    if Next(s, step).Some? {
      var steps :| After(Next, INIT, steps) == Some(s);
      Extend(Next, INIT, steps, step);
    }
  }

  lemma LaterIsTransitive(s: State, t: State, u: State)
    requires Later(s, t) && Later(t, u)
    ensures Later(s, u)
  {
  }

  lemma InitIsReachable()
    ensures Reachable(INIT)
  {
    assert After(Next, INIT, []) == Some(INIT);
  }
}

/** The producer's fields, and the operations on them. */
module RabbitProducer {
  import opened Wrappers
  import opened PublisherConfirms
  import opened ConnectionPool
  import Workers = ConnectionRuns

  class Producer {
    var client: Option<Conn>
    var closed: bool
    /** How many connections were dialed. */
    var dialed: nat
    /** The connections that can no longer be used. */
    var bad: set<Conn>
    /** Everything that was ever done to connections. */
    ghost var deeds: seq<Deed>

    ghost function View(): Pool
      reads this
    {
      Pool(client, closed, dialed, bad)
    }

    ghost function All(): Workers.State
      reads this
    {
      Workers.State(View(), deeds)
    }

    /** The producer is where some run of its workers can bring it. */
    ghost predicate Valid()
      reads this
    {
      Workers.Reachable(All())
    }

    constructor ()
      ensures Valid() && All() == Workers.INIT
    {
      client, closed, dialed, bad := Some(0), false, 1, {};
      deeds := [Dial(0)];
      new;
      Workers.InitIsReachable();
    }

    method GetCurrent(dialOk: bool) returns (c: Option<Conn>)
      requires Valid()
      modifies `client, `dialed, `deeds
      ensures Valid() && All() == old(Workers.Acted(All(), Workers.GetCurrent(dialOk)))
      ensures Workers.Later(old(All()), All())
      ensures c == old(Current(View(), dialOk).1)
      ensures c == if closed then None else client
      ensures client == if old(closed) || old(client).Some? || !dialOk then old(client) else Some(old(dialed))
    {
      Workers.ActedKeeps(All(), Workers.GetCurrent(dialOk));
      if closed {
        return None;
      }
      if client.None? {
        if !dialOk {
          return None;
        }
        client, dialed, deeds := Some(dialed), dialed + 1, deeds + [Dial(dialed)];
      }
      return client;
    }

    method Replace(stale: Conn, dialOk: bool) returns (r: Replacement)
      requires Valid()
      modifies `client, `dialed, `deeds
      ensures Valid() && All() == old(Workers.Acted(All(), Workers.Replace(stale, dialOk)))
      ensures Workers.Later(old(All()), All())
      ensures r == old(Reconnect(View(), stale, dialOk).1)
      ensures r.Replaced? <==> !closed && old(client) == Some(stale) && stale in bad && dialOk
      ensures client == if closed || old(client) != Some(stale) || stale !in bad then old(client)
                        else if dialOk then Some(old(dialed)) else None
    {
      Workers.ActedKeeps(All(), Workers.Replace(stale, dialOk));
      ghost var before := deeds;
      if closed {
        return Refused(ProducerClosed);
      }
      if client != Some(stale) {
        return Kept;
      }
      if stale !in bad {
        return Kept;
      }
      deeds := deeds + [CloseStale(stale)];
      if !dialOk {
        client := None;
        return Refused(DialFailed);
      }
      client, dialed, deeds := Some(dialed), dialed + 1, deeds + [Dial(dialed)];
      assert deeds == before + [CloseStale(stale), Dial(dialed - 1)];
      return Replaced;
    }

    method Close()
      requires Valid()
      modifies `client, `closed, `deeds
      ensures Valid() && All() == old(Workers.Acted(All(), Workers.Close))
      ensures closed && client.None?
      ensures deeds == old(deeds) + (if old(client).Some? then [CloseLast(old(client).value)] else [])
    {
      Workers.ActedKeeps(All(), Workers.Close);
      Workers.ReachableInv(All());
      assert deeds + [] == deeds;
      if closed {
        return;
      }
      closed := true;
      if client.Some? {
        deeds := deeds + [CloseLast(client.value)];
        client := None;
      }
    }

    /** Whatever other workers, and the broker, do in the meantime. */
    method Meanwhile(steps: seq<Workers.Step>)
      requires Valid()
      modifies this
      ensures Valid() && Workers.Later(old(All()), All())
      ensures OnlyBad(steps) ==> All() == old(All()).(pool := old(View()).(bad := bad))
      ensures steps == [] ==> bad == old(bad)
    {
      for i := 0 to |steps|
        invariant Valid() && Workers.Later(old(All()), All())
        invariant OnlyBad(steps) ==> All() == old(All()).(pool := old(View()).(bad := bad))
        invariant i == 0 ==> bad == old(bad)
      {
        Workers.ActedKeeps(All(), steps[i]);
        match steps[i] {
          case GetCurrent(dialOk) => var c := GetCurrent(dialOk);
          case Replace(stale, dialOk) => var r := Replace(stale, dialOk);
          case Close => Close();
          case GoesBad(conn) => if conn < dialed { bad := bad + {conn}; }
        }
      }
    }

    ghost predicate OnlyBad(steps: seq<Workers.Step>) {
      forall i :: 0 <= i < |steps| ==> steps[i].GoesBad?
    }

    /** Another connection for a send whose publish has failed, if there is one. `meanwhile` is what happens between
        the replacement and its use. */
    method Another(stale: Conn, dials: (bool, bool), meanwhile: seq<Workers.Step>) returns (again: Option<Conn>)
      requires Valid() && stale < dialed
      modifies this
      ensures Valid() && Workers.Later(old(All()), All())
      ensures again.Some? ==> stale < again.value && CloseStale(stale) in deeds[|old(deeds)|..]
      ensures meanwhile == [] && old(client) == Some(stale) ==>
        && (again.Some? <==> stale in bad && dials.0)
        && client == (if stale in bad then again else Some(stale))
        && dialed == old(dialed) + (if again.Some? then 1 else 0) && bad == old(bad)
    {
      Workers.ReachableInv(All());
      var r := Replace(stale, dials.0);
      if r != Replaced {
        return None;
      }
      assert deeds[|old(deeds)|] == CloseStale(stale);
      ghost var replaced := All();
      Meanwhile(meanwhile);
      Workers.LaterIsTransitive(old(All()), replaced, All());
      assert deeds[|old(deeds)|] == CloseStale(stale);
      ghost var used := All();
      again := GetCurrent(dials.1);
      Workers.LaterIsTransitive(old(All()), used, All());
      assert deeds[|old(deeds)|] == CloseStale(stale);
    }

    /** One send: at most two publishes, the second one on another connection. `encodable` says whether the
        event has an encoding, `dials` whether the dials succeed if they are needed, `replies` what the two
        publishes return, and `meanwhile` what else happens during the first publish, and between the replacement
        of its connection and the second one. */
    method Send(
      encodable: bool, dials: (bool, bool, bool), replies: (Reply, Reply),
      meanwhile: (seq<Workers.Step>, seq<Workers.Step>))
      returns (reply: Reply, publishes: seq<(Conn, Reply)>)
      requires Valid()
      modifies this
      ensures Valid() && Workers.Later(old(All()), All())
      ensures reply == Delivered <==> publishes != [] && publishes[|publishes| - 1].1 == Delivered
      ensures reply.Failed? && publishes != [] ==> reply == publishes[0].1
      ensures publishes == [] ==>
        reply == Failed(if !encodable then NotEncodable else if old(closed) then ProducerClosed else DialFailed)
      // the first publish
      ensures publishes == [] <==> !encodable || old(closed) || (old(client).None? && !dials.0)
      ensures publishes != [] ==> publishes[0] == (old(if client.Some? then client.value else dialed), replies.0)
      // the second one is on a connection dialed later, and this send has torn the first one down
      ensures |publishes| <= 2
      ensures |publishes| == 2 ==>
        && replies.0.Failed? && !replies.0.error.Unroutable? && publishes[1].1 == replies.1
        && publishes[0].0 < publishes[1].0
        && CloseStale(publishes[0].0) in deeds[|old(deeds)|..]
      // with nobody else about
      ensures OnlyBad(meanwhile.0) && meanwhile.1 == [] && publishes != [] ==>
        var lost := replies.0.Failed? && !replies.0.error.Unroutable? && publishes[0].0 in bad;
        && |publishes| == (if lost && dials.1 then 2 else 1)
        && client == (if |publishes| == 2 then Some(publishes[1].0) else if lost then None else Some(publishes[0].0))
        && dialed == old(dialed) + (if old(client).None? then 1 else 0) + (if |publishes| == 2 then 1 else 0)
    {
      publishes := [];
      if !encodable {
        return Failed(NotEncodable), [];
      }
      Workers.ReachableInv(All());
      var c := GetCurrent(dials.0);
      if c.None? {
        return Failed(if closed then ProducerClosed else DialFailed), [];
      }
      reply, publishes := replies.0, [(c.value, replies.0)];
      ghost var published := All();
      Meanwhile(meanwhile.0);
      Workers.LaterIsTransitive(old(All()), published, All());
      if !WorthReplacing(reply) {
        return;
      }
      ghost var failed := All();
      var again := Another(c.value, (dials.1, dials.2), meanwhile.1);
      Workers.LaterIsTransitive(old(All()), failed, All());
      if again.None? {
        return;
      }
      assert CloseStale(c.value) in deeds[|failed.deeds|..];
      publishes := publishes + [(again.value, replies.1)];
      if replies.1 == Delivered {
        reply := Delivered;
      }
    }
  }
}
