/**
 * What each operation of the connection pool promises, one call at a time:
 * the three outcomes of acquire, what newConnection creates, the correlation
 * claim and the 503 of release, returning versus retiring, the waiting head
 * served by release, the throttle transitions; and that each of them keeps
 * the pool invariant.
 */
module PoolProperties {
  import opened Nukleus
  import opened PoolModel

  /** The number of synthesised responses (HTTP begins) among some frames. */
  function Count503(fs: seq<Frame>): (n: nat)
  {
    if fs == [] then 0
    else (if fs[0].HttpBegin? then 1 else 0) + Count503(fs[1..])
  }

  lemma {:induction false} Count503Append(a: seq<Frame>, b: seq<Frame>)
    ensures Count503(a + b) == Count503(a) + Count503(b)
  {
    if a == [] {
      assert a + b == b;
    } else {
      assert (a + b)[0] == a[0];
      assert (a + b)[1..] == a[1..] + b;
      Count503Append(a[1..], b);
    }
  }

  lemma Count503Other(fs: seq<Frame>, f: Frame)
    requires !f.HttpBegin?
    ensures Count503(fs + [f]) == Count503(fs)
  {
    Count503Append(fs, [f]);
    assert [f][1..] == [];
  }

  lemma Count503Response(fs: seq<Frame>, begin: Frame, end: Frame)
    requires begin.HttpBegin? && !end.HttpBegin?
    ensures Count503(fs + [begin, end]) == Count503(fs) + 1
  {
    var two := [begin, end];
    assert Count503([end]) == 0 by {
      assert [end][1..] == [];
    }
    assert Count503(two) == 1 by {
      assert two[1..] == [end];
    }
    Count503Append(fs, two);
  }

  // ---------------------------------------------------------------- newConnection

  /**
   * newConnection: the connection is fresh (neither its stream id nor its
   * correlation id is used by a known connection), starts persistent with no
   * end sent and no credit, and exactly one begin goes out on connectName;
   * the default throttle is installed and one more connection is in use.
   */
  lemma NewConnectionCreates(p: PoolState)
    requires Accounted(p)
    ensures var q, id := NewConnection(p).0, NewConnection(p).1;
      && id == p.nextStreamId && id !in p.conns
      && (forall k :: k in p.conns ==> p.conns[k].correlationId != p.nextCorrelationId)
      && q.conns == p.conns[id := InitialConnection(p.nextCorrelationId)]
      && q.conns[id].persistent && !q.conns[id].endSent && q.conns[id].window == 0
      && q.frames == p.frames + [Begin(Target(p.connectName), id, p.connectRef, p.nextCorrelationId)]
      && q.throttles == p.throttles[(p.connectName, id) := DefaultThrottle(id)]
      && q.inUse == p.inUse + 1
      && q.nextStreamId == p.nextStreamId + 1 && q.nextCorrelationId == p.nextCorrelationId + 1
      && q.idle == p.idle && q.waiting == p.waiting && q.lent == p.lent
      && q.grants == p.grants && q.correlations == p.correlations
  {
  }

  // ---------------------------------------------------------------- acquire

  /**
   * acquire does exactly one of three things: grants the head of the idle
   * deque, grants a connection it creates under the limit, or enqueues the
   * request and grants nothing. A granted connection is never one already
   * lent to another request.
   */
  lemma AcquireOutcome(p: PoolState, r: Request)
    requires Accounted(p)
    ensures var q := Acquire(p, r);
      && (|p.idle| > 0 ==>
            q.grants == p.grants + [Grant(r, p.idle[0])] && p.idle[0] !in p.lent
            && q.idle == p.idle[1..] && q.inUse == p.inUse && q.waiting == p.waiting
            && q.frames == p.frames && q.conns == p.conns)
      && (p.idle == [] && p.inUse < p.maximum ==>
            q.grants == p.grants + [Grant(r, p.nextStreamId)] && p.nextStreamId !in p.conns
            && q.inUse == p.inUse + 1 && q.waiting == p.waiting
            && q.frames == p.frames + [Begin(Target(p.connectName), p.nextStreamId, p.connectRef, p.nextCorrelationId)])
      && (p.idle == [] && p.inUse >= p.maximum ==>
            q == p.(waiting := Enqueue(p.waiting, r)))
  {
    if |p.idle| > 0 {
      assert p.idle[0] in p.idle;
    }
  }

  lemma {:induction false} AcquireKeepsAccounted(p: PoolState, r: Request)
    requires Accounted(p)
    ensures Accounted(Acquire(p, r))
    ensures Acquire(p, r).conns.Keys >= p.conns.Keys
    ensures forall k :: k in p.conns ==> Acquire(p, r).conns[k] == p.conns[k]
  {
    if |p.idle| > 0 {
      PollBookkeeping(p.idle, p.lent, p.conns.Keys, p.inUse);
    } else if p.inUse < p.maximum {
      var id := p.nextStreamId;
      assert id !in p.conns;
      assert id !in p.lent;
      assert |p.lent + {id}| == |p.lent| + 1;
    }
  }

  /** The counting behind polling: moving the head of the idle deque into the lent set keeps the total. */
  lemma PollBookkeeping(idle: seq<int>, lent: set<int>, keys: set<int>, inUse: int)
    requires Distinct(idle) && lent <= keys && inUse == |idle| + |lent| && |idle| > 0
    requires forall i :: 0 <= i < |idle| ==> idle[i] in keys && idle[i] !in lent
    ensures var idle', lent' := idle[1..], lent + {idle[0]};
      && Distinct(idle') && lent' <= keys && inUse == |idle'| + |lent'|
      && (forall i :: 0 <= i < |idle'| ==> idle'[i] in keys && idle'[i] !in lent')
  {
    var idle', lent' := idle[1..], lent + {idle[0]};
    assert |lent'| == |lent| + 1;
    forall i | 0 <= i < |idle'| ensures idle'[i] in keys && idle'[i] !in lent' {
      assert idle'[i] == idle[i + 1];
    }
    forall i, j | 0 <= i < j < |idle'| ensures idle'[i] != idle'[j] {
      assert idle'[i] == idle[i + 1] && idle'[j] == idle[j + 1];
    }
  }

  lemma AcquireKeepsInv(p: PoolState, r: Request)
    requires Inv(p)
    ensures Inv(Acquire(p, r))
  {
    AcquireKeepsAccounted(p, r);
  }

  /** enqueue appends at the tail; enqueuing the current head again changes nothing. */
  lemma EnqueueAppends(waiting: seq<Request>, r: Request)
    ensures r !in waiting ==> Enqueue(waiting, r) == waiting + [r]
    ensures waiting != [] && r == waiting[0] ==> Enqueue(waiting, r) == waiting
    ensures Enqueue(waiting, r)[..|waiting|] == waiting
  {
  }

  // ---------------------------------------------------------------- release

  lemma ClaimKeepsAccounted(p: PoolState, correlationId: int)
    requires Accounted(p)
    ensures Accounted(Claim(p, correlationId))
  {
  }

  /**
   * The correlation claim of release: afterwards the table has no entry for
   * the connection's correlation id and all other entries are as before;
   * when an entry was pending, the frames begin with one 503 response and
   * its end, on a fresh stream id, to the pending target with its
   * correlation id, and no other response is emitted; when none was, no
   * response is emitted at all.
   */
  lemma {:induction false} ReleaseClaims(p: PoolState, id: int, doEndIfNotPersistent: bool)
    requires Accounted(p) && id in p.conns
    ensures var cid, q := p.conns[id].correlationId, Release(p, id, doEndIfNotPersistent);
      && q.correlations == p.correlations - {cid}
      && (forall k :: k in p.correlations && k != cid ==> k in q.correlations && q.correlations[k] == p.correlations[k])
      && Count503(q.frames) == Count503(p.frames) + (if cid in p.correlations then 1 else 0)
      && p.frames <= q.frames
      && (cid in p.correlations ==>
            var c := p.correlations[cid];
            && p.nextStreamId !in p.conns
            && q.frames[..|p.frames| + 2] ==
                 p.frames + [HttpBegin(Target(c.source), p.nextStreamId, 0, c.id, Status503),
                             HttpEnd(Target(c.source), p.nextStreamId)])
  {
    var cid := p.conns[id].correlationId;
    var p1 := Claim(p, cid);
    var p2 := ReturnOrRetire(p1, id, doEndIfNotPersistent);
    var q := ServeNext(p2);
    assert Release(p, id, doEndIfNotPersistent) == q;
    assert p1.frames <= q.frames && Count503(q.frames) == Count503(p1.frames) && q.correlations == p1.correlations by {
      assert p2.frames == p1.frames || p2.frames == p1.frames + [End(Target(p.connectName), id)];
      assert p2.correlations == p1.correlations;
      if p2.frames != p1.frames {
        Count503Other(p1.frames, End(Target(p.connectName), id));
      }
      ServeNextFrames(p2);
      if q.frames != p2.frames {
        Count503Other(p2.frames, Begin(Target(p.connectName), p2.nextStreamId, p.connectRef, p2.nextCorrelationId));
      }
    }
    if cid in p.correlations {
      var c := p.correlations[cid];
      var two := [HttpBegin(Target(c.source), p.nextStreamId, 0, c.id, Status503),
                  HttpEnd(Target(c.source), p.nextStreamId)];
      assert p1.frames == p.frames + two;
      Count503Response(p.frames, two[0], two[1]);
      assert q.frames[..|p.frames| + 2] == p1.frames;
    }
  }

  /** acquire emits at most the begin of a new connection and leaves the correlation table alone. */
  lemma AcquireFrames(p: PoolState, r: Request)
    ensures var q := Acquire(p, r);
      && q.correlations == p.correlations
      && (q.frames == p.frames
          || q.frames == p.frames + [Begin(Target(p.connectName), p.nextStreamId, p.connectRef, p.nextCorrelationId)])
  {
  }

  lemma ServeNextFrames(p: PoolState)
    ensures var q := ServeNext(p);
      && q.correlations == p.correlations
      && (q.frames == p.frames
          || q.frames == p.frames + [Begin(Target(p.connectName), p.nextStreamId, p.connectRef, p.nextCorrelationId)])
  {
    if p.waiting != [] {
      AcquireFrames(p.(waiting := p.waiting[1..]), p.waiting[0]);
    }
  }

  /**
   * Returning a persistent connection re-installs its default throttle and
   * appends it to the idle deque, leaving the count in use as it was.
   */
  lemma ReturnPersistent(p: PoolState, id: int, doEndIfNotPersistent: bool)
    requires id in p.conns && p.conns[id].persistent
    ensures var q := ReturnOrRetire(p, id, doEndIfNotPersistent);
      && q.idle == p.idle + [id] && q.inUse == p.inUse
      && q.throttles == p.throttles[(p.connectName, id) := DefaultThrottle(id)]
      && q.frames == p.frames && q.conns == p.conns
      && q.lent == p.lent - {id} && q.waiting == p.waiting && q.maximum == p.maximum
      && q.nextStreamId == p.nextStreamId && q.nextCorrelationId == p.nextCorrelationId
  {
  }

  /**
   * Retiring a non-persistent connection: one fewer in use, its first
   * occurrence (if any) leaves the idle deque, and an end goes out on its
   * stream, marking endSent, exactly when doEndIfNotPersistent holds.
   */
  lemma RetireNonPersistent(p: PoolState, id: int, doEndIfNotPersistent: bool)
    requires id in p.conns && !p.conns[id].persistent
    ensures var q := ReturnOrRetire(p, id, doEndIfNotPersistent);
      && q.inUse == p.inUse - 1
      && q.idle == RemoveFirst(p.idle, id)
      && q.throttles == p.throttles
      && q.conns.Keys == p.conns.Keys
      && (q.conns[id].endSent <==> p.conns[id].endSent || doEndIfNotPersistent)
      && q.frames == p.frames + (if doEndIfNotPersistent then [End(Target(p.connectName), id)] else [])
      && q.lent == p.lent - {id} && q.waiting == p.waiting && q.maximum == p.maximum
      && q.nextStreamId == p.nextStreamId && q.nextCorrelationId == p.nextCorrelationId
      && (forall k :: k in q.conns ==>
            q.conns[k].correlationId == p.conns[k].correlationId && q.conns[k].window == p.conns[k].window)
  {
    var q := ReturnOrRetire(p, id, doEndIfNotPersistent);
    var q0 := p.(inUse := p.inUse - 1, idle := RemoveFirst(p.idle, id), lent := p.lent - {id});
    if doEndIfNotPersistent {
      assert q == q0.(frames := q0.frames + [End(Target(p.connectName), id)],
                     conns := q0.conns[id := q0.conns[id].(endSent := true)]);
    } else {
      assert q == q0;
      assert p.frames + [] == p.frames;
    }
  }

  lemma ReturnOrRetireKeepsAccounted(p: PoolState, id: int, doEndIfNotPersistent: bool)
    requires Accounted(p) && ReleaseEnabled(p, id)
    ensures Accounted(ReturnOrRetire(p, id, doEndIfNotPersistent))
  {
    if p.conns[id].persistent {
      ReturnKeepsAccounted(p, id, doEndIfNotPersistent);
    } else {
      RetireKeepsAccounted(p, id, doEndIfNotPersistent);
    }
  }

  lemma ReturnKeepsAccounted(p: PoolState, id: int, doEndIfNotPersistent: bool)
    requires Accounted(p) && ReleaseEnabled(p, id) && p.conns[id].persistent
    ensures Accounted(ReturnOrRetire(p, id, doEndIfNotPersistent))
  {
    var q := ReturnOrRetire(p, id, doEndIfNotPersistent);
    ReturnPersistent(p, id, doEndIfNotPersistent);
    assert id in p.lent;
    assert id !in p.idle;
    assert |q.lent| == |p.lent| - 1;
    assert |q.idle| == |p.idle| + 1;
    forall i | 0 <= i < |q.idle| ensures q.idle[i] in q.conns && q.idle[i] !in q.lent {
      if i < |p.idle| {
        assert q.idle[i] == p.idle[i];
      }
    }
    assert Distinct(q.idle) by {
      forall i, j | 0 <= i < j < |q.idle| ensures q.idle[i] != q.idle[j] {
        assert q.idle[i] == p.idle[i];
        if j < |p.idle| {
          assert q.idle[j] == p.idle[j];
        }
      }
    }
  }

  lemma RetireKeepsAccounted(p: PoolState, id: int, doEndIfNotPersistent: bool)
    requires Accounted(p) && ReleaseEnabled(p, id) && !p.conns[id].persistent
    ensures Accounted(ReturnOrRetire(p, id, doEndIfNotPersistent))
  {
    RetireNonPersistent(p, id, doEndIfNotPersistent);
    RetireBookkeeping(p.idle, p.lent, p.conns.Keys, p.inUse, id);
  }

  /** The counting behind retiring: taking id out of the idle deque and out of the lent set loses one connection. */
  lemma RetireBookkeeping(idle: seq<int>, lent: set<int>, keys: set<int>, inUse: int, id: int)
    requires Distinct(idle) && lent <= keys && inUse == |idle| + |lent|
    requires forall i :: 0 <= i < |idle| ==> idle[i] in keys && idle[i] !in lent
    requires id in lent || id in idle
    ensures var idle', lent' := RemoveFirst(idle, id), lent - {id};
      && Distinct(idle') && lent' <= keys && inUse - 1 == |idle'| + |lent'|
      && (forall i :: 0 <= i < |idle'| ==> idle'[i] in keys && idle'[i] !in lent')
  {
    var idle', lent' := RemoveFirst(idle, id), lent - {id};
    assert Distinct(idle') && forall y :: y in idle' <==> y in idle && y != id by {
      RemoveFirstDistinct(idle, id);
    }
    assert inUse - 1 == |idle'| + |lent'| by {
      if id in lent {
        assert id !in idle;
        assert |lent'| == |lent| - 1;
      } else {
        assert lent' == lent;
      }
    }
    assert forall i :: 0 <= i < |idle'| ==> idle'[i] in keys && idle'[i] !in lent' by {
      forall i | 0 <= i < |idle'| ensures idle'[i] in keys && idle'[i] !in lent' {
        assert idle'[i] in idle;
        var j :| 0 <= j < |idle| && idle[j] == idle'[i];
      }
    }
  }

  /**
   * release keeps the pool invariant; in particular the count in use never
   * exceeds the limit and never goes below zero.
   */
  lemma {:induction false} ReleaseKeepsInv(p: PoolState, id: int, doEndIfNotPersistent: bool)
    requires Inv(p) && ReleaseEnabled(p, id)
    ensures Inv(Release(p, id, doEndIfNotPersistent))
  {
    var p1 := Claim(p, p.conns[id].correlationId);
    ClaimKeepsAccounted(p, p.conns[id].correlationId);
    var p2 := ReturnOrRetire(p1, id, doEndIfNotPersistent);
    ReturnOrRetireKeepsAccounted(p1, id, doEndIfNotPersistent);
    if p.waiting != [] {
      AcquireKeepsAccounted(p2.(waiting := p2.waiting[1..]), p2.waiting[0]);
      if p1.conns[id].persistent {
        assert p2.idle == [id];
      } else {
        assert p2.idle == [] && p2.inUse == p.maximum - 1;
      }
    }
  }

  /**
   * release serves the waiting chain in order: it pops the head and, by the
   * invariant, that head is always granted a connection — the released one
   * itself when it is persistent, a newly created one otherwise. With no one
   * waiting, release grants nothing.
   */
  lemma {:induction false} ReleaseServesHead(p: PoolState, id: int, doEndIfNotPersistent: bool)
    requires Inv(p) && ReleaseEnabled(p, id)
    ensures var q := Release(p, id, doEndIfNotPersistent);
      && (p.waiting == [] ==> q.waiting == [] && q.grants == p.grants)
      && (p.waiting != [] ==>
            && q.waiting == p.waiting[1..]
            && |q.grants| == |p.grants| + 1
            && q.grants[..|p.grants|] == p.grants
            && q.grants[|p.grants|].request == p.waiting[0]
            && (p.conns[id].persistent ==> q.grants[|p.grants|].connectStreamId == id)
            && (!p.conns[id].persistent ==> q.grants[|p.grants|].connectStreamId !in p.conns))
  {
    var p1 := Claim(p, p.conns[id].correlationId);
    var p2 := ReturnOrRetire(p1, id, doEndIfNotPersistent);
    if p.waiting != [] {
      assert id !in p.idle;
      if p1.conns[id].persistent {
        assert p2.idle == [id];
      } else {
        assert p2.idle == [] && p2.inUse == p.maximum - 1;
        assert p2.nextStreamId >= p.nextStreamId;
      }
    }
  }

  /** Once release has claimed the correlation, a later release of the same connection emits no second 503. */
  lemma SecondReleaseNo503(p: PoolState, id: int, first: bool, second: bool)
    requires Inv(p) && ReleaseEnabled(p, id)
    ensures var q := Release(p, id, first);
      && id in q.conns && q.conns[id].correlationId == p.conns[id].correlationId
      && Count503(Release(q, id, second).frames) == Count503(q.frames)
  {
    var cid := p.conns[id].correlationId;
    ReleaseClaims(p, id, first);
    ReleaseKeepsInv(p, id, first);
    var q := Release(p, id, first);
    ReleaseKeepsConnections(p, id, first);
    ReleaseClaims(q, id, second);
  }

  /**
   * release is not idempotent: with nobody waiting, releasing a persistent
   * connection twice puts it in the idle deque twice, since add does not
   * look for duplicates.
   */
  lemma DoubleReturnDuplicates(p: PoolState, id: int)
    requires id in p.conns && p.conns[id].persistent && p.waiting == []
    ensures Release(Release(p, id, false), id, false).idle == p.idle + [id, id]
  {
    var q := Release(p, id, false);
    assert q.idle == p.idle + [id] && q.waiting == [] && q.conns == p.conns by {
      ReturnPersistent(Claim(p, p.conns[id].correlationId), id, false);
    }
    ReturnPersistent(Claim(q, q.conns[id].correlationId), id, false);
  }

  /**
   * Nor for a retired connection: with nobody waiting, releasing a
   * non-persistent connection twice takes two off the count in use.
   */
  lemma DoubleRetireUndercounts(p: PoolState, id: int)
    requires id in p.conns && !p.conns[id].persistent && p.waiting == []
    ensures Release(Release(p, id, false), id, false).inUse == p.inUse - 2
  {
    var q := Release(p, id, false);
    assert q.inUse == p.inUse - 1 && q.waiting == [] && id in q.conns && !q.conns[id].persistent by {
      RetireNonPersistent(Claim(p, p.conns[id].correlationId), id, false);
    }
    RetireNonPersistent(Claim(q, q.conns[id].correlationId), id, false);
  }

  /**
   * Nor for a reset: a reset always releases its connection again, and with
   * nobody waiting takes one more off the count in use, whether or not the
   * pool still holds the connection. Retiring a connection leaves its
   * default throttle installed, so a reset that arrives after retirement
   * takes this path.
   */
  lemma ResetAfterRetireUndercounts(p: PoolState, id: int)
    requires id in p.conns && p.waiting == []
    ensures var q := HandleThrottle(p, id, ResetMsg);
      q.inUse == p.inUse - 1 && q.throttles == p.throttles && q.waiting == []
  {
    var p0 := Unpersist(p, id);
    RetireNonPersistent(Claim(p0, p0.conns[id].correlationId), id, false);
    ResetUnfold(p, id);
  }

  /** release never forgets a connection and never changes one's correlation id or its window. */
  lemma ReleaseKeepsConnections(p: PoolState, id: int, doEndIfNotPersistent: bool)
    requires Accounted(p) && ReleaseEnabled(p, id)
    ensures var q := Release(p, id, doEndIfNotPersistent);
      forall k :: k in p.conns ==>
        k in q.conns && q.conns[k].correlationId == p.conns[k].correlationId && q.conns[k].window == p.conns[k].window
  {
    var p1 := Claim(p, p.conns[id].correlationId);
    var p2 := ReturnOrRetire(p1, id, doEndIfNotPersistent);
    assert Release(p, id, doEndIfNotPersistent) == ServeNext(p2);
    assert Accounted(p2) by {
      ClaimKeepsAccounted(p, p.conns[id].correlationId);
      ReturnOrRetireKeepsAccounted(p1, id, doEndIfNotPersistent);
    }
    assert forall k :: k in p.conns ==>
        k in p2.conns && p2.conns[k].correlationId == p.conns[k].correlationId && p2.conns[k].window == p.conns[k].window by {
      if p1.conns[id].persistent {
        ReturnPersistent(p1, id, doEndIfNotPersistent);
      } else {
        RetireNonPersistent(p1, id, doEndIfNotPersistent);
      }
    }
    ServeNextKeepsAccounted(p2);
  }

  lemma ServeNextKeepsAccounted(p: PoolState)
    requires Accounted(p)
    ensures Accounted(ServeNext(p))
    ensures forall k :: k in p.conns ==> k in ServeNext(p).conns && ServeNext(p).conns[k] == p.conns[k]
  {
    if p.waiting != [] {
      AcquireKeepsAccounted(p.(waiting := p.waiting[1..]), p.waiting[0]);
    }
  }

  // ---------------------------------------------------------------- handleThrottleDefault

  /**
   * A window message adds exactly its update (as a Java int) to the
   * connection's credit and changes nothing else; without overflow, a
   * non-negative credit only grows.
   */
  lemma WindowAddsCredit(p: PoolState, id: int, update: i32)
    requires id in p.conns
    ensures var q, c := HandleThrottle(p, id, WindowMsg(update)), p.conns[id];
      && q == p.(conns := q.conns)
      && q.conns == p.conns[id := c.(window := AddWrap(c.window, update))]
      && (0 <= c.window && 0 <= update && c.window as int + update as int < 0x8000_0000 ==>
            q.conns[id].window as int == c.window as int + update as int && c.window <= q.conns[id].window)
  {
  }

  /** Any other message on the throttle changes nothing. */
  lemma OtherMessageIgnored(p: PoolState, id: int, typeId: int)
    requires id in p.conns
    ensures HandleThrottle(p, id, OtherMsg(typeId)) == p
  {
  }

  /**
   * A reset retires the connection: it is no longer persistent, neither idle
   * nor lent, no end is sent on it, its correlation is claimed, its slot is
   * freed (or refilled for the waiting head); when a reply throttle was set,
   * the last frame is a reset on the connect-reply stream.
   */
  lemma {:induction false} ResetRetires(p: PoolState, id: int)
    requires Inv(p) && ThrottleEnabled(p, id, ResetMsg)
    ensures var q, c := HandleThrottle(p, id, ResetMsg), p.conns[id];
      && id in q.conns && !q.conns[id].persistent && q.conns[id].endSent == c.endSent
      && id !in q.idle && id !in q.lent
      && q.inUse == (if p.waiting == [] then p.inUse - 1 else p.inUse)
      && q.correlations == p.correlations - {c.correlationId}
      && multiset(q.frames)[End(Target(p.connectName), id)] == multiset(p.frames)[End(Target(p.connectName), id)]
      && p.frames <= q.frames
      && (c.replyThrottle.None? ==> forall i :: |p.frames| <= i < |q.frames| ==> !q.frames[i].Reset?)
      && (c.replyThrottle.Some? ==>
            && q.frames[|q.frames| - 1] == Reset(c.replyThrottle.value, c.replyStreamId)
            && forall i :: |p.frames| <= i < |q.frames| - 1 ==> !q.frames[i].Reset?)
  {
    var c := p.conns[id];
    var p0 := Unpersist(p, id);
    ReleaseWritesNoReset(p0, id, false);
    UnpersistKeepsInv(p, id);
    RetiringRelease(p0, id);
    ReleaseClaims(p0, id, false);
    ResetUnfold(p, id);
    var released := Release(p0, id, false);
    var q := HandleThrottle(p, id, ResetMsg);
    assert q.(frames := released.frames) == released;
    var e := End(Target(p.connectName), id);
    assert multiset(q.frames)[e] == multiset(released.frames)[e] by {
      if c.replyThrottle.Some? {
        assert q.frames == released.frames + [Reset(c.replyThrottle.value, c.replyStreamId)];
        assert multiset(q.frames) == multiset(released.frames) + multiset{Reset(c.replyThrottle.value, c.replyStreamId)};
      }
    }
  }

  /** release writes only after the frames already written, and never a reset. */
  lemma ReleaseWritesNoReset(p: PoolState, id: int, doEndIfNotPersistent: bool)
    requires id in p.conns
    ensures var q := Release(p, id, doEndIfNotPersistent);
      p.frames <= q.frames && forall i :: |p.frames| <= i < |q.frames| ==> !q.frames[i].Reset?
  {
    var p1 := Claim(p, p.conns[id].correlationId);
    var p2 := ReturnOrRetire(p1, id, doEndIfNotPersistent);
    ServeNextFrames(p2);
    assert p1.frames == p.frames || (|p1.frames| == |p.frames| + 2 && p1.frames[..|p.frames|] == p.frames
        && p1.frames[|p.frames|].HttpBegin? && p1.frames[|p.frames| + 1].HttpEnd?);
    assert p2.frames == p1.frames || p2.frames == p1.frames + [End(Target(p.connectName), id)];
  }

  /**
   * Releasing a connection that is not persistent without an end: it leaves
   * the idle deque and the lent set, its slot is freed unless the waiting
   * head takes one, and no end goes out on its stream.
   */
  lemma {:induction false} RetiringRelease(p: PoolState, id: int)
    requires Inv(p) && ReleaseEnabled(p, id) && !p.conns[id].persistent
    ensures var q := Release(p, id, false);
      && id in q.conns && q.conns[id] == p.conns[id]
      && id !in q.idle && id !in q.lent
      && q.inUse == (if p.waiting == [] then p.inUse - 1 else p.inUse)
      && multiset(q.frames)[End(Target(p.connectName), id)] == multiset(p.frames)[End(Target(p.connectName), id)]
  {
    var c := p.conns[id];
    var p1 := Claim(p, c.correlationId);
    var p2 := ReturnOrRetire(p1, id, false);
    var p3 := ServeNext(p2);
    assert p3 == Release(p, id, false);
    assert Accounted(p2) by {
      ClaimKeepsAccounted(p, c.correlationId);
      ReturnOrRetireKeepsAccounted(p1, id, false);
    }
    assert p2.conns == p.conns && id !in p2.idle && id !in p2.lent
        && p2.frames == p1.frames && p2.inUse == p.inUse - 1 && p2.waiting == p.waiting by {
      RetireNonPersistent(p1, id, false);
      RemoveFirstDistinct(p1.idle, id);
    }
    var end := End(Target(p.connectName), id);
    assert multiset(p1.frames)[end] == multiset(p.frames)[end];
    assert p3.conns[id] == p2.conns[id] && id !in p3.idle && id !in p3.lent
        && p3.inUse == (if p.waiting == [] then p.inUse - 1 else p.inUse) by {
      ServeNextKeepsAccounted(p2);
      if p2.waiting != [] {
        assert p.idle == [] && p2.idle == [];
        AcquireOutcome(p2.(waiting := p2.waiting[1..]), p2.waiting[0]);
      }
    }
    assert multiset(p3.frames)[end] == multiset(p2.frames)[end] by {
      ServeNextFrames(p2);
    }
  }

  lemma ThrottleKeepsInv(p: PoolState, id: int, message: ThrottleMessage)
    requires Inv(p) && ThrottleEnabled(p, id, message)
    ensures Inv(HandleThrottle(p, id, message))
  {
    if message.ResetMsg? {
      var c := p.conns[id];
      var p0 := Unpersist(p, id);
      var released := Release(p0, id, false);
      assert Inv(released) by {
        UnpersistKeepsInv(p, id);
        ReleaseKeepsInv(p0, id, false);
      }
      ResetUnfold(p, id);
    }
  }

  lemma UnpersistKeepsInv(p: PoolState, id: int)
    requires Inv(p) && ThrottleEnabled(p, id, ResetMsg)
    ensures Inv(Unpersist(p, id)) && ReleaseEnabled(Unpersist(p, id), id)
  {
  }

  /** A reset is the release of the unpersisted connection, then perhaps a reset on the reply stream. */
  lemma ResetUnfold(p: PoolState, id: int)
    requires id in p.conns
    ensures var c, released := p.conns[id], Release(Unpersist(p, id), id, false);
      HandleThrottle(p, id, ResetMsg) ==
        if c.replyThrottle.Some? then released.(frames := released.frames + [Reset(c.replyThrottle.value, c.replyStreamId)])
        else released
  {
  }

  lemma SetInputKeepsInv(p: PoolState, id: int, throttle: Option<Consumer>, replyStreamId: int)
    requires Inv(p) && id in p.conns
    ensures Inv(SetInput(p, id, throttle, replyStreamId))
  {
  }

  /** A fresh pool, with a per-route limit of at least one, satisfies the invariant. */
  lemma NewPoolInv(connectName: string, connectRef: int, maximum: int,
                   correlations: map<int, Correlation>, nextStreamId: int, nextCorrelationId: int,
                   throttles: map<(string, int), Consumer>, frames: seq<Frame>)
    requires 1 <= maximum
    ensures var p := NewPool(connectName, connectRef, maximum, correlations, nextStreamId, nextCorrelationId, throttles, frames);
      Inv(p) && p.inUse == 0 && p.idle == [] && p.waiting == [] && p.lent == {}
  {
  }
}
