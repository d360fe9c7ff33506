/**
 * The pool over whole runs: sequences of acquire, release, throttle and
 * setInput calls, and of the client stream clearing the persistent flag of a
 * connection it holds, restricted as Enabled says. Over every such run the pool
 * invariant holds (so connectionsInUse never exceeds the limit), requests are
 * granted in the order they arrived, a connection is never granted while it
 * is lent to another request, the correlation table only shrinks, and the
 * synthesised 503 responses are exactly the correlation entries claimed.
 */
module PoolTraces {
  import opened Nukleus
  import opened PoolModel
  import opened PoolProperties

  /** One call into the pool. */
  datatype Op =
    | AcquireOp(request: Request)
    | ReleaseOp(id: int, doEndIfNotPersistent: bool)
    | ThrottleOp(id: int, message: ThrottleMessage)
    | SetInputOp(id: int, throttle: Option<Consumer>, replyStreamId: int)
    /** The client stream clearing the package-visible persistent flag of a connection it holds. */
    | UnpersistOp(id: int)

  predicate StepDefined(p: PoolState, op: Op)
  {
    !op.AcquireOp? ==> op.id in p.conns
  }

  /**
   * The calls the run lemmas cover: a request is acquired at most once (not
   * while it waits, and not after it was granted, since a request served from
   * the chain keeps its stale next link); release and throttle messages as
   * ReleaseEnabled and ThrottleEnabled say (which leaves out a reset after
   * retirement); setInput on a known connection; persistence is cleared only
   * by the holder of a lent connection.
   */
  ghost predicate Enabled(p: PoolState, op: Op)
  {
    match op
    case AcquireOp(r) => r !in p.waiting && r !in Requests(p.grants)
    case ReleaseOp(id, _) => ReleaseEnabled(p, id)
    case ThrottleOp(id, message) => ThrottleEnabled(p, id, message)
    case SetInputOp(id, _, _) => id in p.conns
    case UnpersistOp(id) => id in p.lent
  }

  function Step(p: PoolState, op: Op): (q: PoolState)
    requires StepDefined(p, op)
  {
    match op
    case AcquireOp(r) => Acquire(p, r)
    case ReleaseOp(id, doEnd) => Release(p, id, doEnd)
    case ThrottleOp(id, message) => HandleThrottle(p, id, message)
    case SetInputOp(id, throttle, replyStreamId) => SetInput(p, id, throttle, replyStreamId)
    case UnpersistOp(id) => Unpersist(p, id)
  }

  ghost predicate Runs(p: PoolState, ops: seq<Op>)
    decreases |ops|
  {
    ops == [] || (Enabled(p, ops[0]) && StepDefined(p, ops[0]) && Runs(Step(p, ops[0]), ops[1..]))
  }

  function Run(p: PoolState, ops: seq<Op>): (q: PoolState)
    requires Runs(p, ops)
    decreases |ops|
  {
    if ops == [] then p else Run(Step(p, ops[0]), ops[1..])
  }

  /** The request a call brings: that of an acquire, none otherwise. */
  function Arrival(op: Op): (rs: seq<Request>)
  {
    if op.AcquireOp? then [op.request] else []
  }

  /** The requests of the acquire calls, in arrival order. */
  function Arrivals(ops: seq<Op>): (rs: seq<Request>)
  {
    if ops == [] then [] else Arrival(ops[0]) + Arrivals(ops[1..])
  }

  /** The requests granted, in grant order. */
  function Requests(grants: seq<Grant>): (rs: seq<Request>)
  {
    if grants == [] then [] else Requests(grants[..|grants| - 1]) + [grants[|grants| - 1].request]
  }

  /** The calls that hand a connection back to the pool: a release, or a reset on its throttle. */
  predicate HandsBack(op: Op)
  {
    op.ReleaseOp? || (op.ThrottleOp? && op.message.ResetMsg?)
  }

  /** The connection a call hands back to the pool, if any. */
  function Returned(op: Op): (ids: set<int>)
  {
    if HandsBack(op) then {op.id} else {}
  }

  ghost predicate SubMap(a: map<int, Correlation>, b: map<int, Correlation>)
  {
    forall k :: k in a ==> k in b && a[k] == b[k]
  }

  lemma RequestsAppend(grants: seq<Grant>, g: Grant)
    ensures Requests(grants + [g]) == Requests(grants) + [g.request]
  {
    assert (grants + [g])[..|grants|] == grants;
  }

  lemma MapRemoveCard(m: map<int, Correlation>, k: int)
    ensures |m - {k}| == if k in m then |m| - 1 else |m|
  {
    assert (m - {k}).Keys == m.Keys - {k};
    if k in m {
      assert |m.Keys - {k}| == |m.Keys| - 1;
    } else {
      assert m.Keys - {k} == m.Keys;
    }
  }

  // ---------------------------------------------------------------- one step

  lemma StepKeepsInv(p: PoolState, op: Op)
    requires Inv(p) && Enabled(p, op) && StepDefined(p, op)
    ensures Inv(Step(p, op))
  {
    match op
    case AcquireOp(r) => AcquireKeepsInv(p, r);
    case ReleaseOp(id, doEnd) => ReleaseKeepsInv(p, id, doEnd);
    case ThrottleOp(id, message) => ThrottleKeepsInv(p, id, message);
    case SetInputOp(id, throttle, replyStreamId) => SetInputKeepsInv(p, id, throttle, replyStreamId);
    case UnpersistOp(id) => UnpersistKeepsInv(p, id);
  }

  /** A release serves the waiting head, so granted-then-waiting is unchanged. */
  lemma ReleaseKeepsOrder(p: PoolState, id: int, doEnd: bool)
    requires Inv(p) && ReleaseEnabled(p, id)
    ensures var q := Release(p, id, doEnd);
      Requests(q.grants) + q.waiting == Requests(p.grants) + p.waiting
  {
    var q := Release(p, id, doEnd);
    ReleaseServesHead(p, id, doEnd);
    if p.waiting != [] {
      var g := q.grants[|p.grants|];
      assert q.grants == p.grants + [g];
      RequestsAppend(p.grants, g);
      assert p.waiting == [p.waiting[0]] + p.waiting[1..];
    }
  }

  /**
   * Each call extends granted-then-waiting by the request it brings, if it is
   * an acquire, and by nothing otherwise: requests leave the wait queue only
   * into the grant log, at its end, in queue order.
   */
  lemma StepKeepsOrder(p: PoolState, op: Op)
    requires Inv(p) && Enabled(p, op) && StepDefined(p, op)
    ensures var q := Step(p, op);
      && p.grants <= q.grants
      && Requests(q.grants) + q.waiting == Requests(p.grants) + p.waiting + Arrival(op)
  {
    match op
    case AcquireOp(r) =>
      AcquireKeepsOrder(p, r);
    case ReleaseOp(id, doEnd) =>
      ReleaseKeepsOrder(p, id, doEnd);
      ReleaseServesHead(p, id, doEnd);
    case ThrottleOp(id, message) => ThrottleKeepsOrder(p, id, message);
    case SetInputOp(_, _, _) =>
    case UnpersistOp(_) =>
  }

  /** A reset releases the connection, which serves the waiting head; other messages grant nothing. */
  lemma ThrottleKeepsOrder(p: PoolState, id: int, message: ThrottleMessage)
    requires Inv(p) && ThrottleEnabled(p, id, message)
    ensures var q := HandleThrottle(p, id, message);
      && p.grants <= q.grants
      && Requests(q.grants) + q.waiting == Requests(p.grants) + p.waiting
  {
    if message.ResetMsg? {
      UnpersistKeepsInv(p, id);
      ReleaseKeepsOrder(Unpersist(p, id), id, false);
      ReleaseServesHead(Unpersist(p, id), id, false);
      ResetUnfold(p, id);
    }
  }

  /** acquire grants at once only when no one waits, so the request joins the end either way. */
  lemma AcquireKeepsOrder(p: PoolState, r: Request)
    requires Inv(p) && r !in p.waiting
    ensures var q := Acquire(p, r);
      && p.grants <= q.grants
      && Requests(q.grants) + q.waiting == Requests(p.grants) + p.waiting + [r]
  {
    var q := Acquire(p, r);
    AcquireOutcome(p, r);
    if |p.idle| > 0 || p.inUse < p.maximum {
      assert p.waiting == [] && q.waiting == [];
      var id := if |p.idle| > 0 then p.idle[0] else p.nextStreamId;
      assert q.grants == p.grants + [Grant(r, id)];
      RequestsAppend(p.grants, Grant(r, id));
    } else {
      assert q.grants == p.grants;
      EnqueueAppends(p.waiting, r);
    }
  }

  /**
   * Each call claims at most the correlation of the connection it releases;
   * a response is synthesised exactly when that entry was still there.
   */
  lemma StepClaims(p: PoolState, op: Op)
    requires Inv(p) && Enabled(p, op) && StepDefined(p, op)
    ensures var q := Step(p, op);
      && (HandsBack(op) ==> q.correlations == p.correlations - {p.conns[op.id].correlationId})
      && (!HandsBack(op) ==> q.correlations == p.correlations)
      && Count503(q.frames) + |q.correlations| == Count503(p.frames) + |p.correlations|
  {
    match op
    case AcquireOp(r) => AcquireClaimsNothing(p, r);
    case ReleaseOp(id, doEnd) => ReleaseCountsClaim(p, id, doEnd);
    case ThrottleOp(id, message) => ThrottleCountsClaim(p, id, message);
    case SetInputOp(_, _, _) =>
    case UnpersistOp(_) =>
  }

  lemma ThrottleCountsClaim(p: PoolState, id: int, message: ThrottleMessage)
    requires Inv(p) && ThrottleEnabled(p, id, message)
    ensures var q := HandleThrottle(p, id, message);
      && (message.ResetMsg? ==> q.correlations == p.correlations - {p.conns[id].correlationId})
      && (!message.ResetMsg? ==> q.correlations == p.correlations)
      && Count503(q.frames) + |q.correlations| == Count503(p.frames) + |p.correlations|
  {
    if message.ResetMsg? {
      ResetClaims(p, id);
    }
  }

  lemma AcquireClaimsNothing(p: PoolState, r: Request)
    ensures var q := Acquire(p, r);
      q.correlations == p.correlations && Count503(q.frames) == Count503(p.frames)
  {
    var q := Acquire(p, r);
    AcquireFrames(p, r);
    if q.frames != p.frames {
      Count503Other(p.frames, Begin(Target(p.connectName), p.nextStreamId, p.connectRef, p.nextCorrelationId));
    }
  }

  lemma ReleaseCountsClaim(p: PoolState, id: int, doEnd: bool)
    requires Inv(p) && ReleaseEnabled(p, id)
    ensures var q, cid := Release(p, id, doEnd), p.conns[id].correlationId;
      && q.correlations == p.correlations - {cid}
      && Count503(q.frames) + |q.correlations| == Count503(p.frames) + |p.correlations|
  {
    ReleaseClaims(p, id, doEnd);
    MapRemoveCard(p.correlations, p.conns[id].correlationId);
  }

  lemma ResetClaims(p: PoolState, id: int)
    requires Inv(p) && ThrottleEnabled(p, id, ResetMsg)
    ensures var q, cid := HandleThrottle(p, id, ResetMsg), p.conns[id].correlationId;
      && q.correlations == p.correlations - {cid}
      && Count503(q.frames) + |q.correlations| == Count503(p.frames) + |p.correlations|
  {
    var c := p.conns[id];
    var p0 := Unpersist(p, id);
    var released := Release(p0, id, false);
    assert p0.conns[id].correlationId == c.correlationId;
    assert Count503(released.frames) + |released.correlations| == Count503(p.frames) + |p.correlations|
        && released.correlations == p.correlations - {c.correlationId} by {
      ReleaseClaims(p0, id, false);
      MapRemoveCard(p.correlations, c.correlationId);
    }
    ResetUnfold(p, id);
    if c.replyThrottle.Some? {
      Count503Other(released.frames, Reset(c.replyThrottle.value, c.replyStreamId));
    }
  }

  /**
   * A call grants at most one connection, and never one that is lent to a
   * request other than the one the call hands back.
   */
  lemma StepGrantsUnlent(p: PoolState, op: Op)
    requires Inv(p) && Enabled(p, op) && StepDefined(p, op)
    ensures var q := Step(p, op);
      && |q.grants| <= |p.grants| + 1
      && (|q.grants| == |p.grants| + 1 ==> q.grants[|p.grants|].connectStreamId !in p.lent - Returned(op))
  {
    match op
    case AcquireOp(r) =>
      AcquireOutcome(p, r);
      if |p.idle| == 0 && p.inUse < p.maximum {
        assert p.nextStreamId !in p.lent;
      }
    case ReleaseOp(id, doEnd) =>
      ReleaseServesHead(p, id, doEnd);
    case ThrottleOp(id, message) =>
      if message.ResetMsg? {
        UnpersistKeepsInv(p, id);
        ReleaseServesHead(Unpersist(p, id), id, false);
        ResetUnfold(p, id);
      }
    case SetInputOp(_, _, _) =>
    case UnpersistOp(_) =>
  }

  /** A window message on the throttle of connection k: the only call meant to change k's credit. */
  predicate Credits(op: Op, k: int)
  {
    op.ThrottleOp? && op.id == k && op.message.WindowMsg?
  }

  /** A connection's window changes only through a window message on its own throttle. */
  lemma StepKeepsWindow(p: PoolState, op: Op, k: int)
    requires Inv(p) && Enabled(p, op) && StepDefined(p, op)
    requires k in p.conns && !Credits(op, k)
    ensures k in Step(p, op).conns && Step(p, op).conns[k].window == p.conns[k].window
  {
    match op
    case AcquireOp(r) => AcquireKeepsAccounted(p, r);
    case ReleaseOp(id, doEnd) => ReleaseKeepsConnections(p, id, doEnd);
    case ThrottleOp(id, message) =>
      match message {
        case WindowMsg(update) => WindowAddsCredit(p, id, update);
        case ResetMsg =>
          UnpersistKeepsInv(p, id);
          ReleaseKeepsConnections(Unpersist(p, id), id, false);
          ResetUnfold(p, id);
        case OtherMsg(_) =>
      }
    case SetInputOp(_, _, _) =>
    case UnpersistOp(_) =>
  }

  lemma DistinctTail(s: seq<Request>)
    requires s != [] && Distinct(s)
    ensures Distinct(s[1..])
  {
    forall i, j | 0 <= i < j < |s[1..]| ensures s[1..][i] != s[1..][j] {
      assert s[1..][i] == s[i + 1] && s[1..][j] == s[j + 1];
    }
  }

  lemma DistinctAppend(s: seq<Request>, r: Request)
    requires Distinct(s) && r !in s
    ensures Distinct(s + [r])
  {
    forall i, j | 0 <= i < j < |s + [r]| ensures (s + [r])[i] != (s + [r])[j] {
      if j == |s| {
        assert (s + [r])[i] == s[i];
      } else {
        assert (s + [r])[i] == s[i] && (s + [r])[j] == s[j];
      }
    }
  }

  /** No call puts a request into the waiting chain twice. */
  lemma StepKeepsWaitingDistinct(p: PoolState, op: Op)
    requires Inv(p) && Distinct(p.waiting) && Enabled(p, op) && StepDefined(p, op)
    ensures Distinct(Step(p, op).waiting)
  {
    match op
    case AcquireOp(r) =>
      AcquireOutcome(p, r);
      if p.idle == [] && p.inUse >= p.maximum {
        EnqueueAppends(p.waiting, r);
        DistinctAppend(p.waiting, r);
      }
    case ReleaseOp(id, doEnd) =>
      ReleaseServesHead(p, id, doEnd);
      if p.waiting != [] {
        DistinctTail(p.waiting);
      }
    case ThrottleOp(id, message) =>
      if message.ResetMsg? {
        UnpersistKeepsInv(p, id);
        ReleaseServesHead(Unpersist(p, id), id, false);
        ResetUnfold(p, id);
        if p.waiting != [] {
          DistinctTail(p.waiting);
        }
      }
    case SetInputOp(_, _, _) =>
    case UnpersistOp(_) =>
  }

  // ---------------------------------------------------------------- whole runs

  /** connectionsInUse stays within [0, maximumConnectionsPerRoute], and every other part of Inv holds, over every run. */
  lemma {:induction false} RunKeepsInv(p: PoolState, ops: seq<Op>)
    requires Inv(p) && Runs(p, ops)
    ensures Inv(Run(p, ops))
    ensures 0 <= Run(p, ops).inUse <= Run(p, ops).maximum
    decreases |ops|
  {
    if ops != [] {
      StepKeepsInv(p, ops[0]);
      RunKeepsInv(Step(p, ops[0]), ops[1..]);
    }
  }

  /** From a freshly constructed pool, the cap holds after every run. */
  lemma FreshRunKeepsCap(connectName: string, connectRef: int, maximum: int,
                         correlations: map<int, Correlation>, nextStreamId: int, nextCorrelationId: int,
                         throttles: map<(string, int), Consumer>, frames: seq<Frame>, ops: seq<Op>)
    requires 1 <= maximum
    requires Runs(NewPool(connectName, connectRef, maximum, correlations, nextStreamId, nextCorrelationId, throttles, frames), ops)
    ensures var q := Run(NewPool(connectName, connectRef, maximum, correlations, nextStreamId, nextCorrelationId, throttles, frames), ops);
      Inv(q) && 0 <= q.inUse <= maximum
  {
    var p := NewPool(connectName, connectRef, maximum, correlations, nextStreamId, nextCorrelationId, throttles, frames);
    NewPoolInv(connectName, connectRef, maximum, correlations, nextStreamId, nextCorrelationId, throttles, frames);
    RunKeepsInv(p, ops);
    RunKeepsMaximum(p, ops);
  }

  lemma {:induction false} RunKeepsMaximum(p: PoolState, ops: seq<Op>)
    requires Runs(p, ops)
    ensures Run(p, ops).maximum == p.maximum
    decreases |ops|
  {
    if ops != [] {
      StepKeepsMaximum(p, ops[0]);
      RunKeepsMaximum(Step(p, ops[0]), ops[1..]);
    }
  }

  lemma StepKeepsMaximum(p: PoolState, op: Op)
    requires StepDefined(p, op)
    ensures Step(p, op).maximum == p.maximum
  {
    match op
    case AcquireOp(r) =>
      assert Acquire(p, r).maximum == p.maximum;
    case ReleaseOp(id, doEnd) =>
      var returned := ReturnOrRetire(Claim(p, p.conns[id].correlationId), id, doEnd);
      assert returned.maximum == p.maximum;
      assert ServeNext(returned).maximum == p.maximum;
    case ThrottleOp(id, message) =>
      if message.ResetMsg? {
        var p0 := Unpersist(p, id);
        var returned := ReturnOrRetire(Claim(p0, p0.conns[id].correlationId), id, false);
        assert returned.maximum == p.maximum;
        assert ServeNext(returned).maximum == p.maximum;
      }
    case SetInputOp(_, _, _) =>
    case UnpersistOp(_) =>
  }

  /**
   * FIFO: over any run, the requests granted followed by those still waiting
   * are the ones granted and waiting at the start followed by the requests
   * acquired during the run, in arrival order.
   */
  lemma {:induction false} RunServesInOrder(p: PoolState, ops: seq<Op>)
    requires Inv(p) && Runs(p, ops)
    ensures p.grants <= Run(p, ops).grants
    ensures Requests(Run(p, ops).grants) + Run(p, ops).waiting == Requests(p.grants) + p.waiting + Arrivals(ops)
    decreases |ops|
  {
    if ops != [] {
      var p1 := Step(p, ops[0]);
      var q := Run(p1, ops[1..]);
      assert Run(p, ops) == q;
      var before := Requests(p.grants) + p.waiting;
      var middle := Requests(p1.grants) + p1.waiting;
      var after := Requests(q.grants) + q.waiting;
      assert middle == before + Arrival(ops[0]) && p.grants <= p1.grants by {
        StepKeepsOrder(p, ops[0]);
      }
      assert after == middle + Arrivals(ops[1..]) && p1.grants <= q.grants by {
        StepKeepsInv(p, ops[0]);
        RunServesInOrder(p1, ops[1..]);
      }
      Reassociate(before, Arrival(ops[0]), Arrivals(ops[1..]), middle, after);
    }
  }

  /** Kept apart from RunServesInOrder: in that lemma's context the solver does not find this step by itself. */
  lemma Reassociate(a: seq<Request>, b: seq<Request>, c: seq<Request>, ab: seq<Request>, abc: seq<Request>)
    requires ab == a + b && abc == ab + c
    ensures abc == a + (b + c)
  {
  }

  /**
   * Over any run the correlation table only loses entries, and the number of
   * synthesised responses emitted equals the number of entries it lost.
   */
  lemma {:induction false} RunClaims(p: PoolState, ops: seq<Op>)
    requires Inv(p) && Runs(p, ops)
    ensures SubMap(Run(p, ops).correlations, p.correlations)
    ensures Count503(Run(p, ops).frames) - Count503(p.frames) == |p.correlations| - |Run(p, ops).correlations|
    decreases |ops|
  {
    if ops != [] {
      var p1 := Step(p, ops[0]);
      StepClaims(p, ops[0]);
      StepKeepsInv(p, ops[0]);
      RunClaims(p1, ops[1..]);
    }
  }

  /** Over any run with no window message for connection k, k's window is what it was. */
  lemma {:induction false} RunKeepsWindow(p: PoolState, ops: seq<Op>, k: int)
    requires Inv(p) && Runs(p, ops) && k in p.conns
    requires forall i :: 0 <= i < |ops| ==> !Credits(ops[i], k)
    ensures k in Run(p, ops).conns && Run(p, ops).conns[k].window == p.conns[k].window
    decreases |ops|
  {
    if ops != [] {
      StepKeepsWindow(p, ops[0], k);
      StepKeepsInv(p, ops[0]);
      assert forall i :: 0 <= i < |ops[1..]| ==> !Credits(ops[1..][i], k) by {
        forall i | 0 <= i < |ops[1..]| ensures !Credits(ops[1..][i], k) {
          assert ops[1..][i] == ops[i + 1];
        }
      }
      RunKeepsWindow(Step(p, ops[0]), ops[1..], k);
    }
  }

  /** Over any run, a request waits in the chain at most once. */
  lemma {:induction false} RunKeepsWaitingDistinct(p: PoolState, ops: seq<Op>)
    requires Inv(p) && Distinct(p.waiting) && Runs(p, ops)
    ensures Distinct(Run(p, ops).waiting)
    decreases |ops|
  {
    if ops != [] {
      StepKeepsWaitingDistinct(p, ops[0]);
      StepKeepsInv(p, ops[0]);
      RunKeepsWaitingDistinct(Step(p, ops[0]), ops[1..]);
    }
  }

  // ---------------------------------------------------------------- scenarios

  /**
   * With one connection per route: A1 gets a new connection C1; A2 waits;
   * releasing C1 while persistent hands that same connection to A2, and no
   * second connection is created.
   */
  lemma ReuseScenario(s0: int, c0: int, throttles: map<(string, int), Consumer>)
    ensures var p := NewPool("R", 7, 1, map[], s0, c0, throttles, []);
      var a1, a2 := Request(1), Request(2);
      var ops := [AcquireOp(a1), AcquireOp(a2), ReleaseOp(s0, true)];
      && Runs(p, ops)
      && var q := Run(p, ops);
      && q.grants == [Grant(a1, s0), Grant(a2, s0)]
      && q.waiting == [] && q.idle == [] && q.inUse == 1
      && q.nextStreamId == s0 + 1
      && q.frames == [Begin(Target("R"), s0, 7, c0)]
  {
    var p := NewPool("R", 7, 1, map[], s0, c0, throttles, []);
    var a1, a2 := Request(1), Request(2);
    var p1 := Step(p, AcquireOp(a1));
    assert p1.grants == [Grant(a1, s0)] && p1.lent == {s0} && p1.idle == [] && p1.inUse == 1;
    assert Requests(p1.grants) == [a1] by {
      RequestsAppend([], Grant(a1, s0));
    }
    assert Enabled(p1, AcquireOp(a2));
    var p2 := Step(p1, AcquireOp(a2));
    assert p2 == p1.(waiting := [a2]);
    assert ReleaseEnabled(p2, s0);
    var p3 := Step(p2, ReleaseOp(s0, true));
    HandOver(p2, s0, a2);
    var ops := [AcquireOp(a1), AcquireOp(a2), ReleaseOp(s0, true)];
    assert ops[1..] == [AcquireOp(a2), ReleaseOp(s0, true)];
    assert ops[1..][1..] == [ReleaseOp(s0, true)];
    assert Enabled(p2, ReleaseOp(s0, true));
    assert Runs(p3, []) && Run(p3, []) == p3;
    assert [ReleaseOp(s0, true)][1..] == [];
    assert Runs(p2, [ReleaseOp(s0, true)]) && Run(p2, [ReleaseOp(s0, true)]) == p3;
    assert Run(p, ops) == p3;
  }

  /**
   * Releasing a persistent connection with no pending correlation while one
   * request waits hands that connection straight to the waiting request:
   * nothing stays idle, nothing is created and nothing is written.
   */
  lemma HandOver(p: PoolState, id: int, r: Request)
    requires id in p.conns && p.conns[id].persistent && p.conns[id].correlationId !in p.correlations
    requires p.idle == [] && p.waiting == [r]
    ensures var q := Release(p, id, true);
      && q.grants == p.grants + [Grant(r, id)] && q.waiting == [] && q.idle == []
      && q.inUse == p.inUse && q.nextStreamId == p.nextStreamId && q.frames == p.frames
      && q.lent == p.lent + {id} && q.conns == p.conns
  {
    var claimed := Claim(p, p.conns[id].correlationId);
    assert claimed == p;
    var returned := ReturnOrRetire(p, id, true);
    assert returned.idle == [id] && returned.waiting == [r];
  }

  /**
   * With one connection per route: A1 gets a new connection C1 with
   * correlation id 5; the client stream records that id 5 awaits a response
   * for (accept-reply, 42); a reset on C1's throttle then synthesises one 503
   * and its end to accept-reply with correlation 42, retires C1 and frees
   * its slot.
   */
  lemma ResetScenario(s0: int, throttles: map<(string, int), Consumer>)
    ensures var p := NewPool("R", 7, 1, map[], s0, 5, throttles, []);
      var a1 := Request(1);
      var p1 := Step(p, AcquireOp(a1));
      var registered := p1.(correlations := p1.correlations[5 := Correlation("accept-reply", 42)]);
      && Enabled(registered, ThrottleOp(s0, ResetMsg)) && StepDefined(registered, ThrottleOp(s0, ResetMsg))
      && var q := Step(registered, ThrottleOp(s0, ResetMsg));
      && q.frames == [Begin(Target("R"), s0, 7, 5),
                      HttpBegin(Target("accept-reply"), s0 + 1, 0, 42, Status503),
                      HttpEnd(Target("accept-reply"), s0 + 1)]
      && q.correlations == map[]
      && !q.conns[s0].persistent && !q.conns[s0].endSent
      && q.inUse == 0 && q.idle == [] && q.lent == {}
  {
    var p := NewPool("R", 7, 1, map[], s0, 5, throttles, []);
    var p1 := Step(p, AcquireOp(Request(1)));
    assert p1.lent == {s0} && p1.inUse == 1 && p1.conns == map[s0 := InitialConnection(5)];
    var registered := p1.(correlations := p1.correlations[5 := Correlation("accept-reply", 42)]);
    var p0 := Unpersist(registered, s0);
    var claimed := Claim(p0, 5);
    assert claimed.frames == [Begin(Target("R"), s0, 7, 5),
                              HttpBegin(Target("accept-reply"), s0 + 1, 0, 42, Status503),
                              HttpEnd(Target("accept-reply"), s0 + 1)];
    assert claimed.correlations == map[];
    var retired := ReturnOrRetire(claimed, s0, false);
    assert retired.inUse == 0 && retired.lent == {} && retired.idle == [] && retired.waiting == [];
  }

  /**
   * With one connection per route: A1 gets C1; its holder clears
   * persistence; releasing C1 with doEndIfNotPersistent retires it with an
   * end on its stream and frees its slot.
   */
  lemma EndOnRetireScenario(s0: int, c0: int, throttles: map<(string, int), Consumer>)
    ensures var p := NewPool("R", 7, 1, map[], s0, c0, throttles, []);
      var ops := [AcquireOp(Request(1)), UnpersistOp(s0), ReleaseOp(s0, true)];
      && Runs(p, ops)
      && var q := Run(p, ops);
      && q.frames == [Begin(Target("R"), s0, 7, c0), End(Target("R"), s0)]
      && s0 in q.conns && q.conns[s0].endSent && !q.conns[s0].persistent
      && q.inUse == 0 && q.idle == [] && q.lent == {}
  {
    var p := NewPool("R", 7, 1, map[], s0, c0, throttles, []);
    var p1 := Step(p, AcquireOp(Request(1)));
    assert p1.lent == {s0} && p1.inUse == 1 && p1.idle == [] && p1.conns == map[s0 := InitialConnection(c0)];
    var p2 := Step(p1, UnpersistOp(s0));
    assert ReleaseEnabled(p2, s0);
    var claimed := Claim(p2, c0);
    assert claimed == p2;
    var p3 := Step(p2, ReleaseOp(s0, true));
    assert p3 == ReturnOrRetire(p2, s0, true);
    var ops := [AcquireOp(Request(1)), UnpersistOp(s0), ReleaseOp(s0, true)];
    assert ops[1..] == [UnpersistOp(s0), ReleaseOp(s0, true)];
    assert ops[1..][1..] == [ReleaseOp(s0, true)];
    assert Enabled(p2, ReleaseOp(s0, true));
    assert Runs(p3, []) && Run(p3, []) == p3;
    assert [ReleaseOp(s0, true)][1..] == [];
    assert Runs(p2, [ReleaseOp(s0, true)]) && Run(p2, [ReleaseOp(s0, true)]) == p3;
    assert Run(p, ops) == p3;
  }

  /**
   * With one connection per route, a reset after retirement breaks the count:
   * A1 gets C1; a reset retires C1 and leaves its default throttle
   * installed; a second reset on that throttle drops the count in use to -1;
   * A2 and A3 then each get a new connection, so two connections are lent
   * while the count says one.
   */
  lemma ResetAfterRetireScenario(s0: int, c0: int, throttles: map<(string, int), Consumer>)
    ensures var p := NewPool("R", 7, 1, map[], s0, c0, throttles, []);
      var p1 := Acquire(p, Request(1));
      var p2 := HandleThrottle(p1, s0, ResetMsg);
      && s0 in p2.conns && s0 !in p2.idle && s0 !in p2.lent
      && ("R", s0) in p2.throttles && p2.throttles[("R", s0)] == DefaultThrottle(s0)
      && var p3 := HandleThrottle(p2, s0, ResetMsg);
      && p3.inUse == -1 && !Inv(p3)
      && var p5 := Acquire(Acquire(p3, Request(2)), Request(3));
      && p5.lent == {s0 + 1, s0 + 2} && p5.inUse == 1 && p5.inUse < |p5.lent|
  {
    var p := NewPool("R", 7, 1, map[], s0, c0, throttles, []);
    var p1 := Acquire(p, Request(1));
    assert p1.lent == {s0} && p1.inUse == 1 && p1.idle == [] && p1.waiting == [] && p1.nextStreamId == s0 + 1;
    var p2 := HandleThrottle(p1, s0, ResetMsg);
    ResetAfterRetireUndercounts(p1, s0);
    assert p2 == ReturnOrRetire(Unpersist(p1, s0), s0, false);
    assert p2.inUse == 0 && p2.lent == {} && p2.idle == [] && p2.nextStreamId == s0 + 1;
    var p3 := HandleThrottle(p2, s0, ResetMsg);
    ResetAfterRetireUndercounts(p2, s0);
    assert p3 == ReturnOrRetire(Unpersist(p2, s0), s0, false);
    assert p3.inUse == -1 && p3.lent == {} && p3.idle == [] && p3.nextStreamId == s0 + 1;
    AcquireCreates(p3, Request(2));
    AcquireCreates(Acquire(p3, Request(2)), Request(3));
  }

  /** With nothing idle and a slot free, acquire lends a new connection on the next stream id. */
  lemma AcquireCreates(p: PoolState, r: Request)
    requires p.idle == [] && p.inUse < p.maximum
    ensures var q := Acquire(p, r);
      && q.lent == p.lent + {p.nextStreamId} && q.inUse == p.inUse + 1 && q.idle == []
      && q.nextStreamId == p.nextStreamId + 1 && q.maximum == p.maximum
  {
  }
}
