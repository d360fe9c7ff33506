/**
 * The upstream connection pool of one route as a value: what ConnectionPool
 * keeps (the idle deque, the in-use counter, the chain of waiting requests),
 * the state of each Connection it created, and the parts of the client stream
 * factory it changes (correlation table, id suppliers, router throttles,
 * writer output), together with the log of requests whose consumer was handed
 * a connection.
 *
 * Each operation of ConnectionPool is a transition function on this value;
 * the classes in module Pool are proved to perform exactly these transitions.
 */
module PoolModel {
  import opened Nukleus

  /** The mutable part of one Connection. */
  datatype ConnState = ConnState(
    correlationId: int,
    window: i32,
    persistent: bool,
    endSent: bool,
    replyThrottle: Option<Consumer>,
    replyStreamId: int)

  /**
   * Connections are named by their connectStreamId, which the stream id
   * supplier hands out fresh. `lent` holds the connections currently handed to
   * a request and not yet released: bookkeeping the source leaves implicit,
   * used to say which calls of release its callers make.
   */
  datatype PoolState = PoolState(
    connectName: string,
    connectRef: int,
    maximum: int,
    idle: seq<int>,
    inUse: int,
    waiting: seq<Request>,
    lent: set<int>,
    conns: map<int, ConnState>,
    correlations: map<int, Correlation>,
    nextStreamId: int,
    nextCorrelationId: int,
    throttles: map<(string, int), Consumer>,
    frames: seq<Frame>,
    grants: seq<Grant>)

  /** The headers of the response synthesised when an upstream connection fails. */
  const Status503: seq<Header> := [Header(0, ":status", "503")]

  /** A freshly constructed Connection. */
  function InitialConnection(correlationId: int): (c: ConnState)
  {
    ConnState(correlationId, 0, true, false, None, 0)
  }

  predicate Distinct<T(==)>(s: seq<T>)
  {
    forall i, j :: 0 <= i < j < |s| ==> s[i] != s[j]
  }

  /** ArrayDeque.removeFirstOccurrence on the contents of the deque. */
  function RemoveFirst<T(==)>(s: seq<T>, x: T): (r: seq<T>)
    ensures x !in s ==> r == s
    ensures x in s ==> |r| == |s| - 1
  {
    if s == [] then []
    else
      assert s == [s[0]] + s[1..];
      if s[0] == x then s[1..]
      else [s[0]] + RemoveFirst(s[1..], x)
  }

  /** removeFirstOccurrence takes out exactly one copy of x, if there is one, and keeps everything else. */
  lemma {:induction false} RemoveFirstCounts<T>(s: seq<T>, x: T)
    ensures multiset(RemoveFirst(s, x)) == multiset(s) - multiset{x}
  {
    if s != [] {
      assert s == [s[0]] + s[1..];
      if s[0] != x {
        RemoveFirstCounts(s[1..], x);
      }
    }
  }

  /** The index of the first occurrence of x in s. */
  function FirstIndex<T(==)>(s: seq<T>, x: T): (i: nat)
    requires x in s
    ensures i < |s| && s[i] == x && x !in s[..i]
  {
    if s[0] == x then 0
    else
      assert s == [s[0]] + s[1..];
      var j := FirstIndex(s[1..], x);
      assert s[..j + 1] == [s[0]] + s[1..][..j];
      j + 1
  }

  /** removeFirstOccurrence takes out the first occurrence of x and keeps the rest in order. */
  lemma {:induction false} RemoveFirstAt<T>(s: seq<T>, x: T)
    requires x in s
    ensures RemoveFirst(s, x) == s[..FirstIndex(s, x)] + s[FirstIndex(s, x) + 1..]
  {
    if s[0] != x {
      assert s == [s[0]] + s[1..];
      RemoveFirstAt(s[1..], x);
      var j := FirstIndex(s[1..], x);
      assert s[..j + 1] == [s[0]] + s[1..][..j];
      assert s[j + 2..] == s[1..][j + 1..];
    }
  }

  /** The same, as the JDK states it: some occurrence with none before it is removed, and the rest keeps its order. */
  lemma RemoveFirstOrder<T>(s: seq<T>, x: T)
    ensures x in s ==> exists i :: 0 <= i < |s| && s[i] == x && x !in s[..i] && RemoveFirst(s, x) == s[..i] + s[i + 1..]
  {
    if x in s {
      RemoveFirstAt(s, x);
      var i := FirstIndex(s, x);
      assert 0 <= i < |s| && s[i] == x && x !in s[..i] && RemoveFirst(s, x) == s[..i] + s[i + 1..];
    }
  }

  lemma RemoveFirstWithin<T>(s: seq<T>, x: T)
    ensures forall y :: y in RemoveFirst(s, x) ==> y in s
  {
    RemoveFirstCounts(s, x);
    forall y | y in RemoveFirst(s, x) ensures y in s {
      assert y in multiset(RemoveFirst(s, x));
    }
  }

  lemma {:induction false} RemoveFirstDistinct<T>(s: seq<T>, x: T)
    requires Distinct(s)
    ensures Distinct(RemoveFirst(s, x))
    ensures x !in RemoveFirst(s, x)
    ensures forall y :: y in RemoveFirst(s, x) <==> y in s && y != x
  {
    if s != [] && s[0] != x {
      assert Distinct(s[1..]) by {
        forall i, j | 0 <= i < j < |s[1..]| ensures s[1..][i] != s[1..][j] {
          assert s[1..][i] == s[i + 1] && s[1..][j] == s[j + 1];
        }
      }
      RemoveFirstDistinct(s[1..], x);
      var r := RemoveFirst(s, x);
      assert r == [s[0]] + RemoveFirst(s[1..], x);
      assert s[0] !in s[1..];
      forall i, j | 0 <= i < j < |r| ensures r[i] != r[j] {
        if i > 0 {
          assert r[i] == RemoveFirst(s[1..], x)[i - 1];
          assert r[j] == RemoveFirst(s[1..], x)[j - 1];
        } else {
          assert r[j] == RemoveFirst(s[1..], x)[j - 1];
        }
      }
    } else if s != [] {
      assert s == [s[0]] + s[1..];
      forall i, j | 0 <= i < j < |s[1..]| ensures s[1..][i] != s[1..][j] {
        assert s[1..][i] == s[i + 1] && s[1..][j] == s[j + 1];
      }
    }
  }

  /** setDefaultThrottle: connection::handleThrottleDefault becomes the throttle of its stream. */
  function SetDefaultThrottle(p: PoolState, id: int): (q: PoolState)
  {
    p.(throttles := p.throttles[(p.connectName, id) := DefaultThrottle(id)])
  }

  /**
   * newConnection: a correlation id, then a stream id, from the suppliers; a
   * begin on connectName; the default throttle; one more connection in use.
   * Returns the new state and the new connection's stream id.
   */
  function NewConnection(p: PoolState): (r: (PoolState, int))
  {
    var correlationId := p.nextCorrelationId;
    var streamId := p.nextStreamId;
    var q := p.(nextCorrelationId := correlationId + 1,
                nextStreamId := streamId + 1,
                conns := p.conns[streamId := InitialConnection(correlationId)],
                frames := p.frames + [Begin(Target(p.connectName), streamId, p.connectRef, correlationId)]);
    (SetDefaultThrottle(q, streamId).(inUse := p.inUse + 1), streamId)
  }

  /** request.getConsumer().accept(connection), recorded in the grant log. */
  function Deliver(p: PoolState, r: Request, id: int): (q: PoolState)
  {
    p.(grants := p.grants + [Grant(r, id)], lent := p.lent + {id})
  }

  /** enqueue: append at the tail unless the request is already the head. */
  function Enqueue(waiting: seq<Request>, r: Request): (w: seq<Request>)
  {
    if waiting == [] then [r]
    else if r == waiting[0] then waiting
    else waiting + [r]
  }

  /** acquire: poll an idle connection, else create one under the limit, else wait. */
  function Acquire(p: PoolState, r: Request): (q: PoolState)
  {
    if |p.idle| > 0 then
      Deliver(p.(idle := p.idle[1..]), r, p.idle[0])
    else if p.inUse < p.maximum then
      var created := NewConnection(p);
      Deliver(created.0, r, created.1)
    else
      p.(waiting := Enqueue(p.waiting, r))
  }

  /**
   * The first step of release: claim the correlation entry of the connection;
   * if one was pending, answer its accept-reply target with a 503 and an end
   * on a fresh stream. Nothing but the table, the stream id supplier and the
   * writer's output changes.
   */
  function Claim(p: PoolState, correlationId: int): (q: PoolState)
    ensures q.correlations == p.correlations - {correlationId}
    ensures q == p.(correlations := q.correlations, nextStreamId := q.nextStreamId, frames := q.frames)
    ensures correlationId !in p.correlations ==> q == p
    ensures correlationId in p.correlations ==>
      var c := p.correlations[correlationId];
      q.nextStreamId == p.nextStreamId + 1 &&
      q.frames == p.frames + [HttpBegin(Target(c.source), p.nextStreamId, 0, c.id, Status503),
                              HttpEnd(Target(c.source), p.nextStreamId)]
  {
    if correlationId in p.correlations then
      var c := p.correlations[correlationId];
      var targetId := p.nextStreamId;
      p.(correlations := p.correlations - {correlationId},
         nextStreamId := targetId + 1,
         frames := p.frames + [HttpBegin(Target(c.source), targetId, 0, c.id, Status503),
                                HttpEnd(Target(c.source), targetId)])
    else
      p
  }

  /**
   * The second step of release: a persistent connection gets its default
   * throttle back and goes to the tail of the idle deque; any other is
   * retired: one connection fewer in use, its first occurrence taken out of
   * the idle deque, and an end on its stream when doEndIfNotPersistent.
   */
  function ReturnOrRetire(p: PoolState, id: int, doEndIfNotPersistent: bool): (q: PoolState)
    requires id in p.conns
  {
    if p.conns[id].persistent then
      SetDefaultThrottle(p, id).(idle := p.idle + [id], lent := p.lent - {id})
    else
      var q := p.(inUse := p.inUse - 1, idle := RemoveFirst(p.idle, id), lent := p.lent - {id});
      if doEndIfNotPersistent then
        q.(frames := q.frames + [End(Target(p.connectName), id)],
           conns := q.conns[id := q.conns[id].(endSent := true)])
      else
        q
  }

  /** The last step of release: the head of the waiting chain is popped and acquired again. */
  function ServeNext(p: PoolState): (q: PoolState)
  {
    if p.waiting == [] then p
    else Acquire(p.(waiting := p.waiting[1..]), p.waiting[0])
  }

  /** release(connection, doEndIfNotPersistent), for the connection on stream id. */
  function Release(p: PoolState, id: int, doEndIfNotPersistent: bool): (q: PoolState)
    requires id in p.conns
  {
    var claimed := Claim(p, p.conns[id].correlationId);
    ServeNext(ReturnOrRetire(claimed, id, doEndIfNotPersistent))
  }

  /** Connection.setInput: remember the connect-reply throttle and stream. */
  function SetInput(p: PoolState, id: int, throttle: Option<Consumer>, replyStreamId: int): (q: PoolState)
    requires id in p.conns
  {
    p.(conns := p.conns[id := p.conns[id].(replyThrottle := throttle, replyStreamId := replyStreamId)])
  }

  /** persistent = false: the first step of a reset. */
  function Unpersist(p: PoolState, id: int): (q: PoolState)
    requires id in p.conns
    ensures q.conns.Keys == p.conns.Keys && !q.conns[id].persistent
  {
    p.(conns := p.conns[id := p.conns[id].(persistent := false)])
  }

  /**
   * Connection.handleThrottleDefault: a window adds credit; a reset retires
   * and releases the connection without an end, then resets the connect-reply
   * stream when one was set; anything else is ignored.
   */
  function HandleThrottle(p: PoolState, id: int, message: ThrottleMessage): (q: PoolState)
    requires id in p.conns
  {
    var c := p.conns[id];
    match message
    case WindowMsg(update) =>
      p.(conns := p.conns[id := c.(window := AddWrap(c.window, update))])
    case ResetMsg =>
      var released := Release(Unpersist(p, id), id, false);
      if c.replyThrottle.Some? then
        released.(frames := released.frames + [Reset(c.replyThrottle.value, c.replyStreamId)])
      else
        released
    case OtherMsg(_) =>
      p
  }

  /** The pool as a fresh ConnectionPool sees it, over any factory state. */
  function NewPool(connectName: string, connectRef: int, maximum: int,
                   correlations: map<int, Correlation>, nextStreamId: int, nextCorrelationId: int,
                   throttles: map<(string, int), Consumer>, frames: seq<Frame>): (p: PoolState)
  {
    PoolState(connectName, connectRef, maximum, [], 0, [], {}, map[], correlations,
              nextStreamId, nextCorrelationId, throttles, frames, [])
  }

  /**
   * The bookkeeping every reachable pool keeps: the cap on connections in
   * use; every counted connection is either idle (exactly once) or lent,
   * never both; the ids of known connections were handed out by the
   * suppliers and lie below their next values.
   */
  ghost predicate Accounted(p: PoolState)
  {
    && 1 <= p.maximum
    && 0 <= p.inUse <= p.maximum
    && Distinct(p.idle)
    && (forall i :: 0 <= i < |p.idle| ==> p.idle[i] in p.conns && p.idle[i] !in p.lent)
    && p.lent <= p.conns.Keys
    && p.inUse == |p.idle| + |p.lent|
    && (forall id :: id in p.conns ==> id < p.nextStreamId && p.conns[id].correlationId < p.nextCorrelationId)
  }

  /** The pool invariant: the bookkeeping, and a request waits only while no connection is idle and no slot is free. */
  ghost predicate Inv(p: PoolState)
  {
    Accounted(p) && (p.waiting != [] ==> p.idle == [] && p.inUse == p.maximum)
  }

  /** The calls of release the pool's callers make: of a lent connection, or of an idle one being retired. */
  ghost predicate ReleaseEnabled(p: PoolState, id: int)
  {
    id in p.conns && (id in p.lent || (id in p.idle && !p.conns[id].persistent))
  }

  /**
   * The throttle messages the invariant is stated for: any message for a
   * known connection, and a reset only for one the pool still holds. The
   * peer can also reset a connection after it was retired, since retiring
   * leaves its default throttle installed; that reset releases the
   * connection a second time and breaks the count in use.
   */
  ghost predicate ThrottleEnabled(p: PoolState, id: int, message: ThrottleMessage)
  {
    id in p.conns && (message.ResetMsg? ==> id in p.lent || id in p.idle)
  }
}
