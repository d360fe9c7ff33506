/**
 * The collaborators of the HTTP nukleus that the connection pool and the
 * accept-side state talk to, reduced to the state they change: the router's
 * throttle table, the writer's output, the id suppliers and the correlation
 * table held by the client stream factory.
 */
module Nukleus {

  datatype Option<+T> = None | Some(value: T)

  /** Java's 32-bit `int`. */
  newtype i32 = x: int | -0x8000_0000 <= x < 0x8000_0000

  const TwoTo32: int := 0x1_0000_0000

  /** Java's `a + b` on `int`: the sum taken modulo 2^32 into the signed range. */
  function AddWrap(a: i32, b: i32): (r: i32)
    ensures (r as int - (a as int + b as int)) % TwoTo32 == 0
    ensures -0x8000_0000 <= a as int + b as int < 0x8000_0000 ==> r as int == a as int + b as int
  {
    var s := a as int + b as int;
    if s >= 0x8000_0000 then (s - TwoTo32) as i32
    else if s < -0x8000_0000 then (s + TwoTo32) as i32
    else s as i32
  }

  /**
   * A message consumer: the sink the router supplies for a named target,
   * the default throttle handler of the pool connection on a stream, or any
   * other handler a caller hands in (identified by a token).
   */
  datatype Consumer =
    | Target(name: string)
    | DefaultThrottle(connectStreamId: int)
    | Handler(token: int)

  /** One HTTP header as the header builder writes it. */
  datatype Header = Header(representation: int, name: string, value: string)

  /** The frames the message writer emits, each addressed to a consumer. */
  datatype Frame =
    | Begin(sink: Consumer, streamId: int, ref: int, correlationId: int)
    | HttpBegin(sink: Consumer, streamId: int, ref: int, correlationId: int, headers: seq<Header>)
    | HttpEnd(sink: Consumer, streamId: int)
    | End(sink: Consumer, streamId: int)
    | Reset(sink: Consumer, streamId: int)

  /** A pending response: the accept-reply target name and its correlation id. */
  datatype Correlation = Correlation(source: string, id: int)

  /** A ConnectionRequest, identified by a token; its consumer is modelled by a Grant record. */
  datatype Request = Request(token: int)

  /** The request's consumer was handed the connection on stream connectStreamId. */
  datatype Grant = Grant(request: Request, connectStreamId: int)

  /** A message arriving on a throttle: a window update, a reset, or anything else. */
  datatype ThrottleMessage =
    | WindowMsg(update: i32)
    | ResetMsg
    | OtherMsg(typeId: int)

  /** The router: supplies targets by name and keeps the installed throttle per (name, stream). */
  class Router {
    var throttles: map<(string, int), Consumer>

    constructor ()
      ensures throttles == map[]
    {
      throttles := map[];
    }

    function SupplyTarget(name: string): (target: Consumer)
    {
      Target(name)
    }

    method SetThrottle(name: string, streamId: int, throttle: Consumer)
      modifies this
      ensures throttles == old(throttles)[(name, streamId) := throttle]
    {
      throttles := throttles[(name, streamId) := throttle];
    }
  }

  /** The message writer, reduced to the log of the frames it emitted, in order. */
  class Writer {
    var frames: seq<Frame>

    constructor ()
      ensures frames == []
    {
      frames := [];
    }

    method DoBegin(output: Consumer, streamId: int, ref: int, correlationId: int)
      modifies this
      ensures frames == old(frames) + [Begin(output, streamId, ref, correlationId)]
    {
      frames := frames + [Begin(output, streamId, ref, correlationId)];
    }

    method DoHttpBegin(output: Consumer, streamId: int, ref: int, correlationId: int, headers: seq<Header>)
      modifies this
      ensures frames == old(frames) + [HttpBegin(output, streamId, ref, correlationId, headers)]
    {
      frames := frames + [HttpBegin(output, streamId, ref, correlationId, headers)];
    }

    method DoHttpEnd(output: Consumer, streamId: int)
      modifies this
      ensures frames == old(frames) + [HttpEnd(output, streamId)]
    {
      frames := frames + [HttpEnd(output, streamId)];
    }

    method DoEnd(output: Consumer, streamId: int)
      modifies this
      ensures frames == old(frames) + [End(output, streamId)]
    {
      frames := frames + [End(output, streamId)];
    }

    method DoReset(throttle: Consumer, streamId: int)
      modifies this
      ensures frames == old(frames) + [Reset(throttle, streamId)]
    {
      frames := frames + [Reset(throttle, streamId)];
    }
  }

  /**
   * The part of the client stream factory the pool uses: router, writer,
   * the correlation table, the two id suppliers (counters handing out
   * fresh values) and the per-route connection limit.
   */
  class Factory {
    const router: Router
    const writer: Writer
    const maximumConnectionsPerRoute: int
    var correlations: map<int, Correlation>
    var nextStreamId: int
    var nextCorrelationId: int

    constructor (router: Router, writer: Writer, maximumConnectionsPerRoute: int, firstStreamId: int, firstCorrelationId: int)
      requires 1 <= maximumConnectionsPerRoute
      ensures this.router == router && this.writer == writer
      ensures this.maximumConnectionsPerRoute == maximumConnectionsPerRoute
      ensures correlations == map[]
      ensures nextStreamId == firstStreamId && nextCorrelationId == firstCorrelationId
    {
      this.router := router;
      this.writer := writer;
      this.maximumConnectionsPerRoute := maximumConnectionsPerRoute;
      correlations := map[];
      nextStreamId := firstStreamId;
      nextCorrelationId := firstCorrelationId;
    }

    method SupplyStreamId() returns (id: int)
      modifies this
      ensures id == old(nextStreamId) && nextStreamId == id + 1
      ensures correlations == old(correlations) && nextCorrelationId == old(nextCorrelationId)
    {
      id := nextStreamId;
      nextStreamId := nextStreamId + 1;
    }

    method SupplyCorrelationId() returns (id: int)
      modifies this
      ensures id == old(nextCorrelationId) && nextCorrelationId == id + 1
      ensures correlations == old(correlations) && nextStreamId == old(nextStreamId)
    {
      id := nextCorrelationId;
      nextCorrelationId := nextCorrelationId + 1;
    }

    /** Map.remove: returns the entry that was present, if any, and removes it. */
    method RemoveCorrelation(id: int) returns (c: Option<Correlation>)
      modifies this
      ensures c == if id in old(correlations) then Some(old(correlations)[id]) else None
      ensures correlations == old(correlations) - {id}
      ensures nextStreamId == old(nextStreamId) && nextCorrelationId == old(nextCorrelationId)
    {
      if id in correlations {
        c := Some(correlations[id]);
      } else {
        c := None;
      }
      correlations := correlations - {id};
    }
  }
}
