/**
 * ConnectionPool and its inner Connection as objects: the pool keeps the
 * idle deque as a sequence of Connection objects, the in-use counter and the
 * chain of waiting requests, and works through the factory's router, writer,
 * id suppliers and correlation table. Each operation is proved to perform a
 * transition of module PoolModel on the value the objects stand for (Abs):
 * mostly the one of the same name, while Lend performs Deliver,
 * ClaimCorrelation performs Claim, ReturnConnection and RetireConnection
 * perform ReturnOrRetire, and HandleThrottleDefault and HandleReset perform
 * HandleThrottle. The steps MakeConnection, OpenStream, Register,
 * RemoveAvailable, SendEnd and ResetReply state the fields they change.
 * PoolProperties and PoolTraces prove what the transitions mean.
 */
module Pool {
  import opened Nukleus
  import PoolModel

  /** The stream ids of some connections, in order. */
  function Ids(cs: seq<Connection>): (r: seq<int>)
    ensures |r| == |cs|
    ensures forall i :: 0 <= i < |cs| ==> r[i] == cs[i].connectStreamId
  {
    if cs == [] then [] else [cs[0].connectStreamId] + Ids(cs[1..])
  }

  /** When c is the only connection in cs with its stream id, removing c and removing its id agree. */
  lemma {:induction false} IdsRemoveFirst(cs: seq<Connection>, c: Connection)
    requires forall i :: 0 <= i < |cs| && cs[i].connectStreamId == c.connectStreamId ==> cs[i] == c
    ensures Ids(PoolModel.RemoveFirst(cs, c)) == PoolModel.RemoveFirst(Ids(cs), c.connectStreamId)
  {
    if cs != [] {
      assert Ids(cs)[1..] == Ids(cs[1..]);
      if cs[0] != c {
        assert Ids(cs)[0] != c.connectStreamId;
        IdsRemoveFirst(cs[1..], c);
        assert Ids([cs[0]] + PoolModel.RemoveFirst(cs[1..], c))
            == [cs[0].connectStreamId] + Ids(PoolModel.RemoveFirst(cs[1..], c));
      }
    }
  }

  /** release changes at most whether an end was sent on the released connection. */
  lemma ReleaseKeepsReply(p: PoolModel.PoolState, id: int, doEndIfNotPersistent: bool)
    requires id in p.conns && id < p.nextStreamId
    ensures var q := PoolModel.Release(p, id, doEndIfNotPersistent);
      id in q.conns && q.conns[id].replyThrottle == p.conns[id].replyThrottle
      && q.conns[id].replyStreamId == p.conns[id].replyStreamId
  {
    var p1 := PoolModel.Claim(p, p.conns[id].correlationId);
    var p2 := PoolModel.ReturnOrRetire(p1, id, doEndIfNotPersistent);
    assert p2.conns[id].replyThrottle == p.conns[id].replyThrottle && p2.conns[id].replyStreamId == p.conns[id].replyStreamId;
    assert p2.nextStreamId >= p.nextStreamId;
    var q := PoolModel.ServeNext(p2);
    assert id in q.conns && q.conns[id] == p2.conns[id];
  }

  /** The states of some connections, by stream id. */
  ghost function ConnStates(created: map<int, Connection>): (states: map<int, PoolModel.ConnState>)
    reads created.Values
  {
    map id | id in created :: created[id].State()
  }

  /** When only connection c changed, the states change in c's entry only. */
  lemma ConnStatesAfterUpdate(created: map<int, Connection>, before: map<int, PoolModel.ConnState>, c: Connection)
    requires c.connectStreamId in created && created[c.connectStreamId] == c
    requires before.Keys == created.Keys
    requires forall k :: k in created && k != c.connectStreamId ==> created[k].State() == before[k]
    ensures ConnStates(created) == before[c.connectStreamId := c.State()]
  {
  }

  lemma ConnStatesAdd(created: map<int, Connection>, c: Connection)
    ensures ConnStates(created[c.connectStreamId := c]) == ConnStates(created)[c.connectStreamId := c.State()]
  {
  }

  /** newConnection's transition, written as one update of the pool value. */
  lemma NewConnectionUpdates(p: PoolModel.PoolState)
    ensures PoolModel.NewConnection(p) ==
      (PoolModel.PoolState(p.connectName, p.connectRef, p.maximum, p.idle, p.inUse + 1,
         p.waiting, p.lent, p.conns[p.nextStreamId := PoolModel.InitialConnection(p.nextCorrelationId)],
         p.correlations, p.nextStreamId + 1, p.nextCorrelationId + 1,
         p.throttles[(p.connectName, p.nextStreamId) := DefaultThrottle(p.nextStreamId)],
         p.frames + [Begin(Target(p.connectName), p.nextStreamId, p.connectRef, p.nextCorrelationId)], p.grants),
       p.nextStreamId)
  {
  }

  class Connection {
    const pool: ConnectionPool
    const connectStreamId: int
    const correlationId: int
    var window: i32
    var persistent: bool
    var endSent: bool
    var connectReplyStreamId: int
    var connectReplyThrottle: Option<Consumer>

    /** A connection starts persistent, with no end sent, no credit and no reply stream. */
    constructor (pool: ConnectionPool, outputStreamId: int, outputCorrelationId: int)
      ensures this.pool == pool
      ensures connectStreamId == outputStreamId && correlationId == outputCorrelationId
      ensures State() == PoolModel.InitialConnection(outputCorrelationId)
    {
      this.pool := pool;
      connectStreamId := outputStreamId;
      correlationId := outputCorrelationId;
      window := 0;
      persistent := true;
      endSent := false;
      connectReplyStreamId := 0;
      connectReplyThrottle := None;
    }

    function State(): (s: PoolModel.ConnState)
      reads this
    {
      PoolModel.ConnState(correlationId, window, persistent, endSent, connectReplyThrottle, connectReplyStreamId)
    }

    /** The connection is the one its pool knows under its stream id. */
    ghost predicate Registered()
      reads this, pool, pool.factory
    {
      pool.Valid() && connectStreamId in pool.created && pool.created[connectStreamId] == this
    }

    /** setInput: remember the connect-reply throttle and stream id. */
    method SetInput(throttle: Option<Consumer>, replyStreamId: int)
      requires Registered()
      modifies this
      ensures connectReplyThrottle == throttle && connectReplyStreamId == replyStreamId
      ensures window == old(window) && persistent == old(persistent) && endSent == old(endSent)
      ensures Registered()
      ensures pool.Abs() == PoolModel.SetInput(old(pool.Abs()), connectStreamId, throttle, replyStreamId)
    {
      ghost var p := pool.Abs();
      connectReplyThrottle := throttle;
      connectReplyStreamId := replyStreamId;
      ConnStatesAfterUpdate(pool.created, p.conns, this);
    }

    /**
     * handleThrottleDefault: a reset makes the connection non-persistent,
     * releases it without an end and then resets the connect-reply stream if
     * one was set; a window adds its update to the credit; anything else is
     * ignored.
     */
    method HandleThrottleDefault(message: ThrottleMessage)
      requires Registered()
      modifies pool.Repr
      ensures Registered()
      ensures pool.Repr >= old(pool.Repr) && fresh(pool.Repr - old(pool.Repr))
      ensures pool.Abs() == PoolModel.HandleThrottle(old(pool.Abs()), connectStreamId, message)
    {
      ghost var p := pool.Abs();
      match message
      case ResetMsg =>
        HandleReset();
      case WindowMsg(update) =>
        window := AddWrap(window, update);
        ConnStatesAfterUpdate(pool.created, p.conns, this);
      case OtherMsg(_) =>
    }

    /**
     * The reset branch of handleThrottleDefault: no longer persistent,
     * released without an end, then a reset on the connect-reply stream if
     * one was set.
     */
    method HandleReset()
      requires Registered()
      modifies pool.Repr
      ensures Registered()
      ensures pool.Repr >= old(pool.Repr) && fresh(pool.Repr - old(pool.Repr))
      ensures pool.Abs() == PoolModel.HandleThrottle(old(pool.Abs()), connectStreamId, ResetMsg)
    {
      ghost var p := pool.Abs();
      persistent := false;
      ConnStatesAfterUpdate(pool.created, p.conns, this);
      ghost var p0 := pool.Abs();
      assert p0 == PoolModel.Unpersist(p, connectStreamId);
      pool.Release(this, false);
      ReleaseKeepsReply(p0, connectStreamId, false);
      assert pool.Abs().conns[connectStreamId] == State();
      ResetReply();
    }

    /** A reset on the connect-reply stream, when a connect-reply throttle was set. */
    method ResetReply()
      requires Registered()
      modifies pool.factory.writer
      ensures Registered()
      ensures var p := old(pool.Abs());
        pool.Abs() == if connectReplyThrottle.Some?
          then p.(frames := p.frames + [Reset(connectReplyThrottle.value, connectReplyStreamId)])
          else p
    {
      ghost var p := pool.Abs();
      if connectReplyThrottle.Some? {
        pool.factory.writer.DoReset(connectReplyThrottle.value, connectReplyStreamId);
        assert ConnStates(pool.created) == p.conns;
      }
    }
  }

  class ConnectionPool {
    const factory: Factory
    const connectName: string
    const connectRef: int
    var availableConnections: seq<Connection>
    var connectionsInUse: int
    var nextRequest: seq<Request>
    /** The requests whose consumer was handed a connection, in order. */
    ghost var grants: seq<Grant>
    /** The stream ids of the connections handed out and not yet released. */
    ghost var lent: set<int>
    /** Every connection this pool created, by stream id. */
    ghost var created: map<int, Connection>
    ghost var Repr: set<object>

    /**
     * The objects hang together: the factory and its router and writer,
     * every created connection with its own stream id and this pool, the
     * idle deque made of created connections, and the stream id supplier
     * past every id handed to a connection.
     */
    ghost predicate Valid()
      reads this, factory
    {
      && this in Repr && factory in Repr && factory.router in Repr && factory.writer in Repr
      && 1 <= factory.maximumConnectionsPerRoute
      && (forall id :: id in created ==>
            created[id] in Repr && created[id].pool == this && created[id].connectStreamId == id
            && id < factory.nextStreamId)
      && (forall i :: 0 <= i < |availableConnections| ==>
            availableConnections[i].connectStreamId in created
            && created[availableConnections[i].connectStreamId] == availableConnections[i])
    }

    /** The value the pool and its connections stand for. */
    ghost function Abs(): (p: PoolModel.PoolState)
      requires Valid()
      reads this, factory, factory.router, factory.writer, created.Values
    {
      PoolModel.PoolState(connectName, connectRef, factory.maximumConnectionsPerRoute,
        Ids(availableConnections), connectionsInUse, nextRequest, lent,
        ConnStates(created),
        factory.correlations, factory.nextStreamId, factory.nextCorrelationId,
        factory.router.throttles, factory.writer.frames, grants)
    }

    /** A new pool over a factory: nothing idle, nothing in use, nobody waiting. */
    constructor (factory: Factory, connectName: string, connectRef: int)
      requires 1 <= factory.maximumConnectionsPerRoute
      ensures Valid() && fresh(Repr - {factory, factory.router, factory.writer})
      ensures this.factory == factory && this.connectName == connectName && this.connectRef == connectRef
      ensures Abs() == PoolModel.NewPool(connectName, connectRef, factory.maximumConnectionsPerRoute,
        factory.correlations, factory.nextStreamId, factory.nextCorrelationId,
        factory.router.throttles, factory.writer.frames)
      ensures PoolModel.Inv(Abs())
    {
      this.factory := factory;
      this.connectName := connectName;
      this.connectRef := connectRef;
      availableConnections := [];
      connectionsInUse := 0;
      nextRequest := [];
      grants := [];
      lent := {};
      created := map[];
      Repr := {this, factory, factory.router, factory.writer};
      new;
      assert ConnStates(created) == map[];
    }

    /** acquire: poll an idle connection, else create one under the limit; grant it, or else enqueue the request. */
    method Acquire(request: Request)
      requires Valid()
      modifies Repr
      ensures Valid() && Repr >= old(Repr) && fresh(Repr - old(Repr))
      ensures forall id :: id in old(created) ==> id in created && created[id] == old(created)[id]
      ensures Abs() == PoolModel.Acquire(old(Abs()), request)
    {
      ghost var p := Abs();
      var connection: Connection? := null;
      if |availableConnections| > 0 {
        connection := availableConnections[0];
        availableConnections := availableConnections[1..];
        assert Abs() == p.(idle := p.idle[1..]);
      }
      if connection == null && connectionsInUse < factory.maximumConnectionsPerRoute {
        connection := NewConnection();
      }
      if connection != null {
        Lend(request, connection.connectStreamId);
      } else {
        Enqueue(request);
      }
    }

    /** request.getConsumer().accept(connection): the grant is logged and the connection is lent. */
    ghost method Lend(request: Request, id: int)
      requires Valid()
      modifies this`grants, this`lent
      ensures Valid()
      ensures Abs() == PoolModel.Deliver(old(Abs()), request, id)
    {
      grants := grants + [Grant(request, id)];
      lent := lent + {id};
    }

    /**
     * newConnection: a correlation id, then a stream id; the connection; a
     * begin on connectName; the default throttle; one more in use.
     */
    method NewConnection() returns (connection: Connection)
      requires Valid()
      modifies Repr
      ensures Valid() && Repr == old(Repr) + {connection} && fresh(connection)
      ensures created == old(created)[connection.connectStreamId := connection]
      ensures connection.pool == this
      ensures (Abs(), connection.connectStreamId) == PoolModel.NewConnection(old(Abs()))
    {
      ghost var p := Abs();
      connection := MakeConnection();
      ghost var conns := ConnStates(created);
      OpenStream(connection.connectStreamId, connection.correlationId);
      connectionsInUse := connectionsInUse + 1;
      assert ConnStates(created) == conns;
      NewConnectionUpdates(p);
    }

    /** The two ids, in the source's order, and the connection made from them, booked as created. */
    method MakeConnection() returns (connection: Connection)
      requires Valid()
      modifies factory, this`created, this`Repr
      ensures Valid() && fresh(connection) && connection.pool == this
      ensures connection.connectStreamId == old(factory.nextStreamId)
      ensures connection.correlationId == old(factory.nextCorrelationId)
      ensures factory.nextStreamId == old(factory.nextStreamId) + 1
      ensures factory.nextCorrelationId == old(factory.nextCorrelationId) + 1
      ensures factory.correlations == old(factory.correlations)
      ensures created == old(created)[connection.connectStreamId := connection]
      ensures Repr == old(Repr) + {connection}
      ensures ConnStates(created) ==
        old(ConnStates(created))[connection.connectStreamId := PoolModel.InitialConnection(connection.correlationId)]
    {
      var correlationId := factory.SupplyCorrelationId();
      var streamId := factory.SupplyStreamId();
      connection := new Connection(this, streamId, correlationId);
      Register(connection);
    }

    /** A begin on connectName for the new stream, then its default throttle. */
    method OpenStream(streamId: int, correlationId: int)
      requires Valid()
      modifies factory.writer, factory.router
      ensures factory.writer.frames == old(factory.writer.frames) + [Begin(Target(connectName), streamId, connectRef, correlationId)]
      ensures factory.router.throttles == old(factory.router.throttles)[(connectName, streamId) := DefaultThrottle(streamId)]
    {
      var output := factory.router.SupplyTarget(connectName);
      factory.writer.DoBegin(output, streamId, connectRef, correlationId);
      factory.router.SetThrottle(connectName, streamId, DefaultThrottle(streamId));
    }

    /** Book a freshly made connection among the created ones. */
    ghost method Register(connection: Connection)
      requires Valid() && connection.pool == this && connection.connectStreamId < factory.nextStreamId
      requires connection.connectStreamId !in created
      modifies this`created, this`Repr
      ensures Valid()
      ensures created == old(created)[connection.connectStreamId := connection]
      ensures Repr == old(Repr) + {connection}
      ensures ConnStates(created) == old(ConnStates(created))[connection.connectStreamId := connection.State()]
    {
      ConnStatesAdd(created, connection);
      created := created[connection.connectStreamId := connection];
      Repr := Repr + {connection};
    }

    /**
     * release: claim the connection's correlation (a 503 and an end when it
     * was pending); return a persistent connection to the idle deque, retire
     * any other; then acquire for the head of the waiting chain.
     */
    method Release(connection: Connection, doEndIfNotPersistent: bool)
      requires Valid() && connection.connectStreamId in created && created[connection.connectStreamId] == connection
      modifies Repr
      ensures Valid() && Repr >= old(Repr) && fresh(Repr - old(Repr))
      ensures forall id :: id in old(created) ==> id in created && created[id] == old(created)[id]
      ensures Abs() == PoolModel.Release(old(Abs()), connection.connectStreamId, doEndIfNotPersistent)
    {
      ClaimCorrelation(connection);
      ReturnOrRetire(connection, doEndIfNotPersistent);
      ServeNext();
    }

    /** The last step of release: the head of the waiting chain, if any, leaves it and acquires. */
    method ServeNext()
      requires Valid()
      modifies Repr
      ensures Valid() && Repr >= old(Repr) && fresh(Repr - old(Repr))
      ensures forall id :: id in old(created) ==> id in created && created[id] == old(created)[id]
      ensures Abs() == PoolModel.ServeNext(old(Abs()))
    {
      if |nextRequest| > 0 {
        var current := nextRequest[0];
        nextRequest := nextRequest[1..];
        Acquire(current);
      }
    }

    /** The first step of release: remove the correlation entry and answer a pending one with a 503 and an end. */
    method ClaimCorrelation(connection: Connection)
      requires Valid()
      modifies factory, factory.writer
      ensures Valid()
      ensures Abs() == PoolModel.Claim(old(Abs()), connection.correlationId)
    {
      ghost var p := Abs();
      var correlation := factory.RemoveCorrelation(connection.correlationId);
      if correlation.Some? {
        var acceptReply := factory.router.SupplyTarget(correlation.value.source);
        var targetId := factory.SupplyStreamId();
        var sourceCorrelationId := correlation.value.id;
        factory.writer.DoHttpBegin(acceptReply, targetId, 0, sourceCorrelationId, PoolModel.Status503);
        factory.writer.DoHttpEnd(acceptReply, targetId);
      }
      assert ConnStates(created) == p.conns;
    }

    /** The second step of release: return a persistent connection to the idle deque, or retire it. */
    method ReturnOrRetire(connection: Connection, doEndIfNotPersistent: bool)
      requires Valid() && connection.connectStreamId in created && created[connection.connectStreamId] == connection
      modifies this, factory.router, factory.writer, connection
      ensures Valid() && Repr == old(Repr) && created == old(created)
      ensures Abs() == PoolModel.ReturnOrRetire(old(Abs()), connection.connectStreamId, doEndIfNotPersistent)
    {
      if connection.persistent {
        ReturnConnection(connection);
      } else {
        RetireConnection(connection, doEndIfNotPersistent);
      }
    }

    /** A persistent connection gets its default throttle back and joins the tail of the idle deque. */
    method ReturnConnection(connection: Connection)
      requires Valid() && connection.connectStreamId in created && created[connection.connectStreamId] == connection
      requires connection.persistent
      modifies this, factory.router
      ensures Valid() && Repr == old(Repr) && created == old(created)
      ensures Abs() == PoolModel.ReturnOrRetire(old(Abs()), connection.connectStreamId, false)
    {
      ghost var p := Abs();
      var id := connection.connectStreamId;
      SetDefaultThrottle(connection);
      ghost var p1 := Abs();
      availableConnections := availableConnections + [connection];
      lent := lent - {id};
      assert Ids(availableConnections) == p.idle + [id];
      assert ConnStates(created) == p.conns;
      assert Abs() == p1.(idle := p.idle + [id], lent := p.lent - {id});
    }

    /**
     * Any other connection is retired: one fewer in use, its first occurrence
     * in the idle deque removed, and an end on its stream when asked.
     */
    method RetireConnection(connection: Connection, doEndIfNotPersistent: bool)
      requires Valid() && connection.connectStreamId in created && created[connection.connectStreamId] == connection
      requires !connection.persistent
      modifies this, factory.writer, connection
      ensures Valid() && Repr == old(Repr) && created == old(created)
      ensures Abs() == PoolModel.ReturnOrRetire(old(Abs()), connection.connectStreamId, doEndIfNotPersistent)
    {
      ghost var p := Abs();
      var id := connection.connectStreamId;
      connectionsInUse := connectionsInUse - 1;
      RemoveAvailable(connection);
      lent := lent - {id};
      assert Abs() == p.(inUse := p.inUse - 1, idle := PoolModel.RemoveFirst(p.idle, id), lent := p.lent - {id});
      if doEndIfNotPersistent {
        SendEnd(connection);
      }
    }

    /** removeFirstOccurrence on the idle deque. */
    method RemoveAvailable(connection: Connection)
      requires Valid() && connection.connectStreamId in created && created[connection.connectStreamId] == connection
      modifies this
      ensures Valid() && Repr == old(Repr) && created == old(created)
      ensures availableConnections == PoolModel.RemoveFirst(old(availableConnections), connection)
      ensures Abs() == old(Abs()).(idle := PoolModel.RemoveFirst(old(Abs()).idle, connection.connectStreamId))
    {
      IdsRemoveFirst(availableConnections, connection);
      PoolModel.RemoveFirstWithin(availableConnections, connection);
      ghost var before := availableConnections;
      availableConnections := PoolModel.RemoveFirst(availableConnections, connection);
      assert forall i :: 0 <= i < |availableConnections| ==> availableConnections[i] in before;
    }

    /** The end on a retired connection's stream, and endSent. */
    method SendEnd(connection: Connection)
      requires Valid() && connection.connectStreamId in created && created[connection.connectStreamId] == connection
      modifies factory.writer, connection
      ensures Valid()
      ensures var p, id := old(Abs()), connection.connectStreamId;
        Abs() == p.(frames := p.frames + [End(Target(connectName), id)],
                    conns := p.conns[id := p.conns[id].(endSent := true)])
    {
      ghost var p := Abs();
      var connect := factory.router.SupplyTarget(connectName);
      factory.writer.DoEnd(connect, connection.connectStreamId);
      connection.endSent := true;
      ConnStatesAfterUpdate(created, p.conns, connection);
    }

    /** setDefaultThrottle: the connection's handleThrottleDefault becomes the throttle of its stream. */
    method SetDefaultThrottle(connection: Connection)
      requires Valid()
      modifies factory.router
      ensures Valid()
      ensures Abs() == PoolModel.SetDefaultThrottle(old(Abs()), connection.connectStreamId)
    {
      ghost var p := Abs();
      factory.router.SetThrottle(connectName, connection.connectStreamId, DefaultThrottle(connection.connectStreamId));
      assert Abs().conns == p.conns;
    }

    /**
     * enqueue: a request becomes the head of an empty chain; otherwise,
     * unless it already is the head, the chain is walked to its tail and the
     * request linked after it.
     */
    method Enqueue(request: Request)
      requires Valid()
      modifies this
      ensures Valid() && Repr == old(Repr) && created == old(created)
      ensures nextRequest == PoolModel.Enqueue(old(nextRequest), request)
      ensures Abs() == old(Abs()).(waiting := PoolModel.Enqueue(old(nextRequest), request))
    {
      if |nextRequest| == 0 {
        nextRequest := [request];
      } else if request != nextRequest[0] {
        // The walk computes nothing but the index of the tail of the chain.
        var latest := 0;
        while latest + 1 < |nextRequest|
          invariant 0 <= latest < |nextRequest|
          decreases |nextRequest| - latest
        {
          latest := latest + 1;
        }
        assert latest == |nextRequest| - 1;
        nextRequest := nextRequest[..latest + 1] + [request];
      }
    }
  }
}
