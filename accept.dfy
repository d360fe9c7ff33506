/**
 * The state shared by a server accept stream and its accept-reply stream:
 * the reply target and stream, the throttle installed at construction, the
 * reply credit, the number of requests still pending, whether an end was
 * asked for while requests were pending, and whether the connection stays
 * open.
 */
module Accept {
  import opened Nukleus

  /** The mutable part of a ServerAcceptState, as a value. */
  datatype Flags = Flags(window: i32, pendingRequests: i32, endRequested: bool, persistent: bool)

  /** A fresh accept state: no credit, nothing pending, no end asked for, persistent. */
  const InitialFlags := Flags(0, 0, false, true)

  /**
   * The router's throttle table after the throttle of the reply stream
   * (name, streamId) is set to throttle: that entry is throttle and every
   * other entry is as it was.
   */
  function InstallThrottle(throttles: map<(string, int), Consumer>, name: string, streamId: int, throttle: Consumer)
    : (r: map<(string, int), Consumer>)
    ensures (name, streamId) in r && r[(name, streamId)] == throttle
    ensures forall k :: k in r && k != (name, streamId) ==> k in throttles && r[k] == throttles[k]
    ensures forall k :: k in throttles ==> k in r
  {
    throttles[(name, streamId) := throttle]
  }

  /** Restoring the initial throttle twice is restoring it once. */
  lemma RestoreIdempotent(throttles: map<(string, int), Consumer>, name: string, streamId: int, initial: Consumer)
    ensures InstallThrottle(InstallThrottle(throttles, name, streamId, initial), name, streamId, initial)
         == InstallThrottle(throttles, name, streamId, initial)
  {
  }

  /** Whatever throttle was installed for the reply stream in between, restoring leaves the same table. */
  lemma RestoreOverrides(throttles: map<(string, int), Consumer>, name: string, streamId: int,
                         initial: Consumer, other: Consumer)
    ensures InstallThrottle(InstallThrottle(throttles, name, streamId, other), name, streamId, initial)
         == InstallThrottle(throttles, name, streamId, initial)
  {
  }

  /**
   * doEnd on flags s with the writer's frames: with nothing pending, one
   * end on (acceptReply, replyStreamId) and no change of state; otherwise
   * nothing is written and the end is recorded as requested. The count of
   * pending requests, the credit and persistence never change.
   */
  function EndOrDefer(s: Flags, frames: seq<Frame>, acceptReply: Consumer, replyStreamId: int)
    : (r: (Flags, seq<Frame>))
    ensures r.0.pendingRequests == s.pendingRequests && r.0.window == s.window && r.0.persistent == s.persistent
    ensures frames <= r.1 && |r.1| <= |frames| + 1
    ensures |r.1| == |frames| + 1 <==> s.pendingRequests == 0
    ensures s.pendingRequests == 0 ==> r.1[|frames|] == End(acceptReply, replyStreamId) && r.0 == s
    ensures s.pendingRequests != 0 ==> r.0.endRequested && r.1 == frames
  {
    if s.pendingRequests == 0 then (s, frames + [End(acceptReply, replyStreamId)])
    else (s.(endRequested := true), frames)
  }

  /** A deferred end repeated has the same effect as once. */
  lemma DeferredEndRepeats(s: Flags, frames: seq<Frame>, acceptReply: Consumer, replyStreamId: int)
    requires s.pendingRequests != 0
    ensures var once := EndOrDefer(s, frames, acceptReply, replyStreamId);
      EndOrDefer(once.0, once.1, acceptReply, replyStreamId) == once
  {
  }

  /** With nothing pending, doEnd does not remember that it wrote: a second call writes a second end. */
  lemma ImmediateEndRepeats(s: Flags, frames: seq<Frame>, acceptReply: Consumer, replyStreamId: int)
    requires s.pendingRequests == 0
    ensures var once := EndOrDefer(s, frames, acceptReply, replyStreamId);
      EndOrDefer(once.0, once.1, acceptReply, replyStreamId).1
        == frames + [End(acceptReply, replyStreamId), End(acceptReply, replyStreamId)]
  {
  }

  class ServerAcceptState {
    const acceptReplyName: string
    const replyStreamId: int
    const acceptReply: Consumer
    const initialThrottle: Consumer
    /** The router the setThrottle callback installs throttles in. */
    const router: Router
    var window: i32
    var pendingRequests: i32
    var endRequested: bool
    var persistent: bool

    function State(): (s: Flags)
      reads this
    {
      Flags(window, pendingRequests, endRequested, persistent)
    }

    /** The state starts as InitialFlags, and initialThrottle becomes the reply stream's throttle. */
    constructor (acceptReplyName: string, replyStreamId: int, acceptReply: Consumer, writer: Writer,
                 initialThrottle: Consumer, router: Router)
      modifies router
      ensures this.acceptReplyName == acceptReplyName && this.replyStreamId == replyStreamId
      ensures this.acceptReply == acceptReply && this.initialThrottle == initialThrottle && this.router == router
      ensures State() == InitialFlags
      ensures router.throttles == InstallThrottle(old(router.throttles), acceptReplyName, replyStreamId, initialThrottle)
    {
      this.replyStreamId := replyStreamId;
      this.acceptReply := acceptReply;
      this.initialThrottle := initialThrottle;
      this.acceptReplyName := acceptReplyName;
      this.router := router;
      window := 0;
      pendingRequests := 0;
      endRequested := false;
      persistent := true;
      new;
      SetThrottle(initialThrottle);
    }

    /** The setThrottle callback: install throttle for (acceptReplyName, replyStreamId). */
    method SetThrottle(throttle: Consumer)
      modifies router
      ensures router.throttles == InstallThrottle(old(router.throttles), acceptReplyName, replyStreamId, throttle)
    {
      router.SetThrottle(acceptReplyName, replyStreamId, throttle);
    }

    /** restoreInitialThrottle: the throttle installed at construction is the reply stream's throttle again. */
    method RestoreInitialThrottle()
      modifies router
      ensures router.throttles == InstallThrottle(old(router.throttles), acceptReplyName, replyStreamId, initialThrottle)
    {
      SetThrottle(initialThrottle);
    }

    /** doEnd: end the reply stream now if no request is pending, else remember that an end was asked for. */
    method DoEnd(writer: Writer)
      modifies this, writer
      ensures (State(), writer.frames) == EndOrDefer(old(State()), old(writer.frames), acceptReply, replyStreamId)
    {
      if pendingRequests == 0 {
        writer.DoEnd(acceptReply, replyStreamId);
      } else {
        endRequested := true;
      }
    }
  }
}
