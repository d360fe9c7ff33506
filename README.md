# HTTP nukleus: upstream connection pool and accept-side end deferral

This project models two parts of the Reaktivity HTTP nukleus in Dafny.

- **`ConnectionPool` and its inner `Connection`.** The pool manages the upstream connections of one route (`connectName`, `connectRef`). It keeps:
  - an idle deque of connections;
  - the count of connections in use, capped by the factory's `maximumConnectionsPerRoute`;
  - a chain of waiting connection requests;
  - the correlation table it shares with the client stream factory.

  `acquire` grants an idle connection or a new one, or queues the request. `release` does three things in order:
  - it claims the connection's pending correlation, answering it with a synthesised `:status 503` response and its end;
  - it returns a persistent connection to the idle deque, or retires any other;
  - it serves the head of the waiting chain.

  A connection's default throttle handler adds window credit, or on a reset retires and releases the connection and resets the connect-reply stream.
- **`ServerAcceptState`.** This is the state shared by an accept stream and its reply. Its constructor installs an initial throttle, which `restoreInitialThrottle` reinstalls. `doEnd` ends the reply stream at once when no request is pending, and otherwise records that an end was requested.

The project has these modules:

- `Nukleus` (nukleus.dfy): the collaborators, reduced to the state they change.
  - the router's throttle table `(name, streamId) -> consumer`;
  - the writer's log of frames;
  - the factory's stream-id and correlation-id counters, its correlation table and its per-route limit.
- `PoolModel` (pool_model.dfy): the pool as a value `PoolState`, with one pure transition function per operation of `ConnectionPool`.
  - Connections are named by their `connectStreamId`, which the stream-id counter hands out fresh.
  - Each request consumer's callback is recorded in a grant log.
  - `lent` is the set of connections currently handed to a request. It is bookkeeping that the source keeps only implicitly.
- `PoolProperties` (pool_properties.dfy): what each operation promises call by call, and that each keeps the invariant `Inv`.
  - `Inv` holds:
    - the cap `0 <= inUse <= maximum`;
    - every counted connection is idle exactly once or lent, never both;
    - ids lie below the counters' next values;
    - a request waits only while nothing is idle and no slot is free.
- `PoolTraces` (pool_traces.dfy): whole runs of acquire, release, throttle, setInput calls and of the client stream clearing a held connection's `persistent` flag.
  - A freshly constructed pool satisfies the invariant, and the invariant holds after every run, so the cap holds from construction on.
  - Requests are granted in arrival order.
  - A connection is never granted while it is lent out.
  - The correlation table only shrinks, since no call of the pool registers a correlation, and the synthesised 503s are exactly the entries it lost.
  - A connection's window changes only through a window message on its throttle, and a request waits in the chain at most once.
  - It also holds the two scenarios that the pool's documented intent describes: connection reuse with a cap of 1, and a reset with a pending correlation.
  - Two more scenarios: a retire that writes an end on the connection's stream, and a reset arriving after retirement that breaks the count.
- `Pool` (pool.dfy): the classes `ConnectionPool` and `Connection`, with the source's fields and methods.
  - `ConnectionPool.Abs()` is the `PoolState` that the objects stand for.
  - `Acquire`, `NewConnection`, `Release`, `ServeNext`, `ReturnOrRetire`, `SetDefaultThrottle` and `Connection.SetInput` are proved to perform exactly the `PoolModel` transition of the same name on `Abs()`. `Enqueue` performs `PoolModel.Enqueue` on the waiting chain.
  - Some methods map to a transition of another name: `Lend` performs `Deliver`, `ClaimCorrelation` performs `Claim`, `ReturnConnection` and `RetireConnection` each perform their branch of `ReturnOrRetire`, and `Connection.HandleThrottleDefault` and `Connection.HandleReset` perform `HandleThrottle`.
  - The steps of those methods, `MakeConnection`, `OpenStream`, `Register`, `RemoveAvailable`, `SendEnd` and `Connection.ResetReply`, state the fields they change and their effect on the frames, throttles and known connections, with no whole transition of their own.
  - The idle deque is a `seq<Connection>`, the chain of waiting requests is a `seq<Request>`, and `enqueue` walks it to the tail with a loop.
- `Accept` (accept.dfy): the class `ServerAcceptState`, with value functions for its throttle install and for `doEnd`.

Where the code and the pool's documented intent disagree, the model follows the code:

- **Repeated release.** The documented intent is that releasing an already idle connection does nothing beyond the correlation check. In the code, `availableConnections.add` does not dedupe, and a second release of a retired connection decrements the in-use count again. `PoolProperties.DoubleReturnDuplicates` and `PoolProperties.DoubleRetireUndercounts` state this. The invariant lemmas are therefore stated over a restricted set of calls (`PoolModel.ReleaseEnabled`, `PoolModel.ThrottleEnabled`, `PoolTraces.Enabled`):
  - release of a lent connection, or of an idle non-persistent one;
  - acquire of a request that is neither waiting nor already granted, so each request is acquired at most once;
  - a reset only for a connection the pool still holds.
- **Reset after retirement.** The documented intent is that a reset may arrive at any point in a connection's life and is handled. The code never uninstalls a connection's default throttle, which it sets at ConnectionPool.java:72 and :120; retiring, at :96-109, leaves it in place. A reset that arrives after retirement therefore runs release again and takes one more off `connectionsInUse` (:98). `PoolProperties.ResetAfterRetireUndercounts` states this for any connection. `PoolTraces.ResetAfterRetireScenario` shows that with a cap of 1 the count drops to -1, after which two new connections are lent while the count says one. The last item of the restriction above excludes this case, so the invariant is not claimed for it.
- **Window credit.** The documented intent is that a connection's window never goes negative and only increases through explicit credit grants. The code adds the update to a Java `int` as is. The model adds with 32-bit wrap-around. When the sum fits, the credit changes by exactly the update. `PoolProperties.WindowAddsCredit` proves that a non-negative window with a non-negative update then only grows. A negative update lowers the window, and an overflowing sum wraps. No other call changes a window (`PoolTraces.StepKeepsWindow`, `PoolTraces.RunKeepsWindow`).

## Model

| member | source | states |
|---|---|---|
| Nukleus.AddWrap | src/main/java/org/reaktivity/nukleus/http/internal/stream/ConnectionPool.java:190 | `window += update` on Java int: the result equals the sum modulo 2^32, and equals the sum exactly when the sum fits in an int |
| Nukleus.Router.SetThrottle | src/main/java/org/reaktivity/nukleus/http/internal/stream/ConnectionPool.java:72 | router.setThrottle replaces the throttle of (name, streamId) and no other entry |
| Nukleus.Writer.DoBegin | src/main/java/org/reaktivity/nukleus/http/internal/stream/ConnectionPool.java:71 | doBegin appends one begin frame with the given sink, stream, ref and correlation |
| Nukleus.Writer.DoHttpBegin | src/main/java/org/reaktivity/nukleus/http/internal/stream/ConnectionPool.java:87-88 | doHttpBegin appends one HTTP begin frame carrying the headers |
| Nukleus.Writer.DoHttpEnd | src/main/java/org/reaktivity/nukleus/http/internal/stream/ConnectionPool.java:89 | doHttpEnd appends one HTTP end frame |
| Nukleus.Writer.DoEnd | src/main/java/org/reaktivity/nukleus/http/internal/stream/ConnectionPool.java:106 | doEnd appends one end frame |
| Nukleus.Writer.DoReset | src/main/java/org/reaktivity/nukleus/http/internal/stream/ConnectionPool.java:185 | doReset appends one reset frame on the given throttle and stream |
| Nukleus.Factory.SupplyStreamId | src/main/java/org/reaktivity/nukleus/http/internal/stream/ConnectionPool.java:68 | the stream id supplier returns its next value and advances by one, touching nothing else |
| Nukleus.Factory.SupplyCorrelationId | src/main/java/org/reaktivity/nukleus/http/internal/stream/ConnectionPool.java:67 | the correlation id supplier returns its next value and advances by one, touching nothing else |
| Nukleus.Factory.RemoveCorrelation | src/main/java/org/reaktivity/nukleus/http/internal/stream/ConnectionPool.java:79 | Map.remove returns the entry present for the id, or none, and the table loses exactly that key |
| PoolModel.RemoveFirst | src/main/java/org/reaktivity/nukleus/http/internal/stream/ConnectionPool.java:101 | removeFirstOccurrence: unchanged when x is absent, one element shorter when present |
| PoolModel.RemoveFirstOrder | src/main/java/org/reaktivity/nukleus/http/internal/stream/ConnectionPool.java:101 | removeFirstOccurrence removes an occurrence of x that has none before it, and keeps the rest of the deque in order |
| PoolModel.RemoveFirstAt | src/main/java/org/reaktivity/nukleus/http/internal/stream/ConnectionPool.java:101 | the result is the deque before the first x followed by the deque after it |
| PoolModel.RemoveFirstCounts | src/main/java/org/reaktivity/nukleus/http/internal/stream/ConnectionPool.java:101 | removeFirstOccurrence takes out exactly one copy of x (if any) as a multiset, keeping all else |
| PoolModel.RemoveFirstWithin | src/main/java/org/reaktivity/nukleus/http/internal/stream/ConnectionPool.java:101 | nothing new appears in the deque after removeFirstOccurrence |
| PoolModel.RemoveFirstDistinct | src/main/java/org/reaktivity/nukleus/http/internal/stream/ConnectionPool.java:101 | on a deque without duplicates, removing x keeps it duplicate-free and its members are exactly the old ones other than x |
| PoolModel.SetDefaultThrottle | src/main/java/org/reaktivity/nukleus/http/internal/stream/ConnectionPool.java:118-121 | setDefaultThrottle as a transition: the connection's default handler becomes the throttle of (connectName, its stream). What it means is stated by `PoolProperties.ReturnPersistent` and `Pool.ConnectionPool.SetDefaultThrottle` |
| PoolModel.NewConnection | src/main/java/org/reaktivity/nukleus/http/internal/stream/ConnectionPool.java:65-75 | newConnection as a transition. `PoolProperties.NewConnectionCreates` states it: fresh correlation and stream ids in that order, a connection in its initial state, one begin on connectName, its default throttle installed, and one more in use |
| PoolModel.Deliver | src/main/java/org/reaktivity/nukleus/http/internal/stream/ConnectionPool.java:57 | the request's consumer accepts the connection, recorded as a grant, and the connection counts as lent. `PoolProperties.PollBookkeeping` and `PoolTraces.StepGrantsUnlent` state its use |
| PoolModel.Enqueue | src/main/java/org/reaktivity/nukleus/http/internal/stream/ConnectionPool.java:123-138 | enqueue on the waiting chain. `PoolProperties.EnqueueAppends` states it: a tail append for a request not in the chain, no change for the head, and the old chain kept as a prefix; `PoolTraces.StepKeepsWaitingDistinct` shows that no request waits twice |
| PoolModel.Acquire | src/main/java/org/reaktivity/nukleus/http/internal/stream/ConnectionPool.java:48-63 | acquire as a transition. `PoolProperties.AcquireOutcome` states its three branches; `PoolProperties.AcquireKeepsInv` and `PoolTraces.AcquireKeepsOrder` state the invariant and arrival order it keeps |
| PoolModel.ReturnOrRetire | src/main/java/org/reaktivity/nukleus/http/internal/stream/ConnectionPool.java:91-109 | return or retire as a transition. `PoolProperties.ReturnPersistent` and `PoolProperties.RetireNonPersistent` state each branch, and `PoolProperties.ReturnOrRetireKeepsAccounted` the bookkeeping it keeps |
| PoolModel.ServeNext | src/main/java/org/reaktivity/nukleus/http/internal/stream/ConnectionPool.java:110-115 | the head of the waiting chain is popped and acquired. `PoolProperties.ServeNextKeepsAccounted` and `PoolProperties.ServeNextFrames` state it |
| PoolModel.Release | src/main/java/org/reaktivity/nukleus/http/internal/stream/ConnectionPool.java:77-116 | release as claim, then return or retire, then serving the head. `PoolProperties.ReleaseClaims`, `PoolProperties.ReleaseServesHead`, `PoolProperties.ReleaseKeepsInv` and `PoolTraces.ReleaseKeepsOrder` state what it means |
| PoolModel.SetInput | src/main/java/org/reaktivity/nukleus/http/internal/stream/ConnectionPool.java:166-170 | setInput on the connection's reply throttle and stream. `PoolProperties.SetInputKeepsInv` and `Pool.Connection.SetInput` state it |
| PoolModel.HandleThrottle | src/main/java/org/reaktivity/nukleus/http/internal/stream/ConnectionPool.java:172-196 | handleThrottleDefault as a transition. `PoolProperties.WindowAddsCredit`, `PoolProperties.ResetRetires` and `PoolProperties.OtherMessageIgnored` state its three branches, and `PoolProperties.ThrottleKeepsInv` the invariant it keeps |
| PoolModel.NewPool | src/main/java/org/reaktivity/nukleus/http/internal/stream/ConnectionPool.java:40-46 | the pool a new ConnectionPool stands for. `PoolProperties.NewPoolInv` states that it satisfies the invariant with nothing idle, in use, lent or waiting |
| PoolModel.Claim | src/main/java/org/reaktivity/nukleus/http/internal/stream/ConnectionPool.java:79-90 | the correlation entry is removed; with no entry nothing else changes; with one, a 503 HTTP begin and an HTTP end go to the entry's source on one fresh stream id with the entry's correlation id, and only the table, the stream counter and the frames change |
| PoolModel.Unpersist | src/main/java/org/reaktivity/nukleus/http/internal/stream/ConnectionPool.java:181 | `persistent = false` keeps the known connections and makes this one non-persistent |
| PoolProperties.Count503Append | src/main/java/org/reaktivity/nukleus/http/internal/stream/ConnectionPool.java:87-89 | the number of synthesised responses in concatenated frame logs is the sum of the counts |
| PoolProperties.Count503Other | src/main/java/org/reaktivity/nukleus/http/internal/stream/ConnectionPool.java:87-89 | appending a frame that is not an HTTP begin adds no synthesised response |
| PoolProperties.Count503Response | src/main/java/org/reaktivity/nukleus/http/internal/stream/ConnectionPool.java:87-89 | appending an HTTP begin and its end adds exactly one synthesised response |
| PoolProperties.NewConnectionCreates | src/main/java/org/reaktivity/nukleus/http/internal/stream/ConnectionPool.java:65-75 | newConnection: fresh stream id and correlation id not used by any known connection; the connection starts persistent, with no end sent and window 0; exactly one begin (streamId, connectRef, correlationId) on connectName; default throttle installed; in-use count up by exactly one; idle deque, waiting chain, grants and correlations unchanged |
| PoolProperties.AcquireOutcome | src/main/java/org/reaktivity/nukleus/http/internal/stream/ConnectionPool.java:48-63 | acquire does exactly one of three things: grants the polled idle head (not lent to anyone), or, with nothing idle and a free slot, grants a new connection (one more in use, one begin), or, at the cap, only enqueues the request |
| PoolProperties.AcquireKeepsAccounted | src/main/java/org/reaktivity/nukleus/http/internal/stream/ConnectionPool.java:48-63 | acquire keeps the bookkeeping (cap, idle-or-lent accounting, fresh ids) and never forgets or changes a known connection |
| PoolProperties.PollBookkeeping | src/main/java/org/reaktivity/nukleus/http/internal/stream/ConnectionPool.java:50 | polling the idle head and lending it keeps idle plus lent equal to the in-use count |
| PoolProperties.AcquireKeepsInv | src/main/java/org/reaktivity/nukleus/http/internal/stream/ConnectionPool.java:51-53 | acquire preserves the pool invariant, so connectionsInUse stays within the limit |
| PoolProperties.EnqueueAppends | src/main/java/org/reaktivity/nukleus/http/internal/stream/ConnectionPool.java:123-138 | enqueue appends a request not yet queued at the tail, leaves the chain unchanged for the current head, and always keeps the existing chain as a prefix |
| PoolProperties.ClaimKeepsAccounted | src/main/java/org/reaktivity/nukleus/http/internal/stream/ConnectionPool.java:79-90 | the correlation claim keeps the bookkeeping |
| PoolProperties.ReleaseClaims | src/main/java/org/reaktivity/nukleus/http/internal/stream/ConnectionPool.java:79-90 | after release the table lacks the connection's correlation id and keeps every other entry; with an entry pending, the frames continue with exactly one 503 begin and its end on a fresh stream to the entry's source with its correlation id; without one, no response at all |
| PoolProperties.AcquireFrames | src/main/java/org/reaktivity/nukleus/http/internal/stream/ConnectionPool.java:48-75 | acquire leaves the correlation table alone and writes nothing but possibly the begin of a new connection |
| PoolProperties.ServeNextFrames | src/main/java/org/reaktivity/nukleus/http/internal/stream/ConnectionPool.java:110-115 | serving the waiting head writes nothing but possibly a new connection's begin |
| PoolProperties.ReturnPersistent | src/main/java/org/reaktivity/nukleus/http/internal/stream/ConnectionPool.java:91-95 | releasing a persistent connection re-installs its default throttle and appends it to the idle deque; the in-use count, frames and connections are unchanged |
| PoolProperties.RetireNonPersistent | src/main/java/org/reaktivity/nukleus/http/internal/stream/ConnectionPool.java:96-109 | retiring a non-persistent connection: one fewer in use, first occurrence removed from the idle deque, and an end on its stream plus endSent if and only if doEndIfNotPersistent |
| PoolProperties.ReturnOrRetireKeepsAccounted | src/main/java/org/reaktivity/nukleus/http/internal/stream/ConnectionPool.java:91-109 | the return-or-retire step keeps the bookkeeping for the calls callers make |
| PoolProperties.ReturnKeepsAccounted | src/main/java/org/reaktivity/nukleus/http/internal/stream/ConnectionPool.java:91-95 | moving a lent persistent connection to the idle deque keeps the accounting |
| PoolProperties.RetireKeepsAccounted | src/main/java/org/reaktivity/nukleus/http/internal/stream/ConnectionPool.java:96-101 | retiring a lent or idle connection keeps the accounting with one fewer counted |
| PoolProperties.RetireBookkeeping | src/main/java/org/reaktivity/nukleus/http/internal/stream/ConnectionPool.java:98-101 | decrementing the count and removing the id from the idle deque and the lent set keeps the count equal to idle plus lent |
| PoolProperties.ReleaseKeepsInv | src/main/java/org/reaktivity/nukleus/http/internal/stream/ConnectionPool.java:77-116 | release preserves the pool invariant, so connectionsInUse stays within [0, maximum] |
| PoolProperties.ReleaseServesHead | src/main/java/org/reaktivity/nukleus/http/internal/stream/ConnectionPool.java:110-115 | release pops the waiting head and, by the invariant, always grants it: the released connection when persistent, otherwise a new one; with nobody waiting it grants nothing |
| PoolProperties.SecondReleaseNo503 | src/main/java/org/reaktivity/nukleus/http/internal/stream/ConnectionPool.java:79-90 | a later release of the same connection emits no second 503 |
| PoolProperties.DoubleReturnDuplicates | src/main/java/org/reaktivity/nukleus/http/internal/stream/ConnectionPool.java:91-95 | releasing a persistent connection twice (nobody waiting) puts it in the idle deque twice: release is not idempotent |
| PoolProperties.DoubleRetireUndercounts | src/main/java/org/reaktivity/nukleus/http/internal/stream/ConnectionPool.java:96-98 | releasing a non-persistent connection twice (nobody waiting) takes two off the in-use count |
| PoolProperties.ResetAfterRetireUndercounts | src/main/java/org/reaktivity/nukleus/http/internal/stream/ConnectionPool.java:180-187 | with nobody waiting, a reset takes one more off the count in use whether or not the pool still holds the connection, and leaves the throttle table as it was |
| PoolProperties.ReleaseKeepsConnections | src/main/java/org/reaktivity/nukleus/http/internal/stream/ConnectionPool.java:77-116 | release never forgets a connection or changes its correlation id |
| PoolProperties.ServeNextKeepsAccounted | src/main/java/org/reaktivity/nukleus/http/internal/stream/ConnectionPool.java:110-115 | serving the waiting head keeps the bookkeeping and every known connection |
| PoolProperties.WindowAddsCredit | src/main/java/org/reaktivity/nukleus/http/internal/stream/ConnectionPool.java:188-191 | a window message adds exactly its update (Java int addition) to the connection's window and changes nothing else; without overflow a non-negative window only grows |
| PoolProperties.OtherMessageIgnored | src/main/java/org/reaktivity/nukleus/http/internal/stream/ConnectionPool.java:192-194 | any other throttle message changes no state |
| PoolProperties.ResetRetires | src/main/java/org/reaktivity/nukleus/http/internal/stream/ConnectionPool.java:180-187 | a reset leaves the connection non-persistent, neither idle nor lent, with no end sent on it, its correlation claimed and its slot freed unless the waiting head takes it; it only appends frames; with a reply throttle set, exactly one of them is a reset, the last, on the connect-reply stream; with none, it writes no reset |
| PoolProperties.RetiringRelease | src/main/java/org/reaktivity/nukleus/http/internal/stream/ConnectionPool.java:96-109 | release(connection, false) of a non-persistent connection removes it from the idle deque and lent set, frees its slot unless the waiting head takes it, and writes no end on it |
| PoolProperties.ThrottleKeepsInv | src/main/java/org/reaktivity/nukleus/http/internal/stream/ConnectionPool.java:178-195 | every throttle message on a known connection preserves the pool invariant, a reset only when the pool still holds the connection |
| PoolProperties.UnpersistKeepsInv | src/main/java/org/reaktivity/nukleus/http/internal/stream/ConnectionPool.java:181 | `persistent = false` keeps the invariant and makes the following release one the callers may make |
| PoolProperties.SetInputKeepsInv | src/main/java/org/reaktivity/nukleus/http/internal/stream/ConnectionPool.java:166-170 | setInput preserves the pool invariant |
| PoolProperties.NewPoolInv | src/main/java/org/reaktivity/nukleus/http/internal/stream/ConnectionPool.java:40-46 | a freshly constructed pool with a limit of at least one satisfies the pool invariant, with nothing idle, in use, lent or waiting |
| PoolTraces.StepKeepsInv | src/main/java/org/reaktivity/nukleus/http/internal/stream/ConnectionPool.java:48-116 | every call that `PoolTraces.Enabled` allows preserves the pool invariant, clearing a held connection's `persistent` flag included |
| PoolTraces.ReleaseKeepsOrder | src/main/java/org/reaktivity/nukleus/http/internal/stream/ConnectionPool.java:110-115 | release moves the waiting head to the end of the granted requests, so granted-then-waiting is unchanged |
| PoolTraces.StepKeepsOrder | src/main/java/org/reaktivity/nukleus/http/internal/stream/ConnectionPool.java:48-138 | each call only extends the grant log, and extends granted-then-waiting by exactly the request it brings |
| PoolTraces.ThrottleKeepsOrder | src/main/java/org/reaktivity/nukleus/http/internal/stream/ConnectionPool.java:178-195 | throttle messages keep granted-then-waiting and only extend the grant log |
| PoolTraces.AcquireKeepsOrder | src/main/java/org/reaktivity/nukleus/http/internal/stream/ConnectionPool.java:48-63 | acquire grants at once only when nobody waits, so the request joins the end of granted-then-waiting |
| PoolTraces.StepClaims | src/main/java/org/reaktivity/nukleus/http/internal/stream/ConnectionPool.java:79-90 | a release or reset claims exactly the released connection's correlation and other calls none; the number of 503s plus table entries is preserved |
| PoolTraces.ThrottleCountsClaim | src/main/java/org/reaktivity/nukleus/http/internal/stream/ConnectionPool.java:178-195 | a reset claims the connection's correlation, other messages none, and each claim is matched by one 503 |
| PoolTraces.AcquireClaimsNothing | src/main/java/org/reaktivity/nukleus/http/internal/stream/ConnectionPool.java:48-75 | acquire leaves the table alone and synthesises no response |
| PoolTraces.ReleaseCountsClaim | src/main/java/org/reaktivity/nukleus/http/internal/stream/ConnectionPool.java:79-90 | release removes the correlation and adds one 503 exactly when it removed an entry |
| PoolTraces.ResetClaims | src/main/java/org/reaktivity/nukleus/http/internal/stream/ConnectionPool.java:180-187 | a reset removes the correlation and adds one 503 exactly when it removed an entry |
| PoolTraces.StepGrantsUnlent | src/main/java/org/reaktivity/nukleus/http/internal/stream/ConnectionPool.java:48-63 | a call grants at most one connection, never one lent to another request |
| PoolProperties.ReleaseWritesNoReset | src/main/java/org/reaktivity/nukleus/http/internal/stream/ConnectionPool.java:77-116 | release only appends frames, and none of them is a reset |
| PoolTraces.StepKeepsWindow | src/main/java/org/reaktivity/nukleus/http/internal/stream/ConnectionPool.java:48-196 | no call other than a window message on connection k's throttle changes k's window, and k stays known |
| PoolTraces.StepKeepsWaitingDistinct | src/main/java/org/reaktivity/nukleus/http/internal/stream/ConnectionPool.java:123-138 | with the waiting chain free of duplicates, every call keeps it so |
| PoolTraces.RunKeepsInv | src/main/java/org/reaktivity/nukleus/http/internal/stream/ConnectionPool.java:48-116 | over every run the invariant holds and 0 <= connectionsInUse <= maximumConnectionsPerRoute |
| PoolTraces.FreshRunKeepsCap | src/main/java/org/reaktivity/nukleus/http/internal/stream/ConnectionPool.java:40-138 | from a freshly constructed pool, after every run the invariant holds and 0 <= connectionsInUse <= maximumConnectionsPerRoute |
| PoolTraces.RunServesInOrder | src/main/java/org/reaktivity/nukleus/http/internal/stream/ConnectionPool.java:110-138 | FIFO: over every run, the grant log only grows, and granted-then-waiting is the initial granted-then-waiting followed by the acquired requests in arrival order |
| PoolTraces.RunClaims | src/main/java/org/reaktivity/nukleus/http/internal/stream/ConnectionPool.java:79-90 | over every run the correlation table only loses entries, and the 503s emitted equal the entries lost (at most one per correlation id); the table only shrinks because no call in a run registers a correlation, which the client stream does outside the pool |
| PoolTraces.RunKeepsWindow | src/main/java/org/reaktivity/nukleus/http/internal/stream/ConnectionPool.java:188-191 | over every run without a window message on its throttle, a known connection's window is what it was: credit comes only from explicit grants |
| PoolTraces.RunKeepsWaitingDistinct | src/main/java/org/reaktivity/nukleus/http/internal/stream/ConnectionPool.java:123-138 | over every run a request waits in the chain at most once |
| PoolTraces.HandOver | src/main/java/org/reaktivity/nukleus/http/internal/stream/ConnectionPool.java:91-115 | releasing a persistent connection with no pending correlation while one request waits grants that same connection to it, leaving nothing idle, creating nothing and writing nothing |
| PoolTraces.ReuseScenario | src/main/java/org/reaktivity/nukleus/http/internal/stream/ConnectionPool.java:48-116 | cap 1: A1 gets new connection C1, A2 waits, release(C1) of persistent C1 grants C1 to A2; one connection, one begin |
| PoolTraces.ResetScenario | src/main/java/org/reaktivity/nukleus/http/internal/stream/ConnectionPool.java:172-187 | cap 1: with correlation 5 pending for (accept-reply, 42), a reset on C1 writes a 503 to accept-reply with correlation 42 and its end, empties the table, retires C1 and frees its slot |
| PoolTraces.EndOnRetireScenario | src/main/java/org/reaktivity/nukleus/http/internal/stream/ConnectionPool.java:96-109 | cap 1: A1 gets C1, its holder clears `persistent`, and release(C1, true) writes an end on C1's stream, sets endSent and frees the slot |
| PoolTraces.ResetAfterRetireScenario | src/main/java/org/reaktivity/nukleus/http/internal/stream/ConnectionPool.java:172-187 | cap 1: after a reset retires C1 its default throttle is still installed; a second reset drops the count in use to -1, breaking the invariant, and A2 and A3 then get two new connections lent while the count is 1 |
| Pool.IdsRemoveFirst | src/main/java/org/reaktivity/nukleus/http/internal/stream/ConnectionPool.java:101 | removing a connection from the deque of objects removes its stream id from the deque of ids |
| Pool.ReleaseKeepsReply | src/main/java/org/reaktivity/nukleus/http/internal/stream/ConnectionPool.java:182-185 | release leaves the connection's reply throttle and reply stream as set, which the reset after it uses |
| Pool.Connection.constructor | src/main/java/org/reaktivity/nukleus/http/internal/stream/ConnectionPool.java:149-164 | a new connection has the given stream and correlation ids, window 0, persistent, no end sent, no reply throttle |
| Pool.Connection.SetInput | src/main/java/org/reaktivity/nukleus/http/internal/stream/ConnectionPool.java:166-170 | setInput sets the reply throttle and reply stream and nothing else |
| Pool.Connection.HandleThrottleDefault | src/main/java/org/reaktivity/nukleus/http/internal/stream/ConnectionPool.java:172-196 | the pool value after handleThrottleDefault is PoolModel.HandleThrottle of the value before |
| Pool.Connection.HandleReset | src/main/java/org/reaktivity/nukleus/http/internal/stream/ConnectionPool.java:180-187 | the reset branch: persistent = false, release(this, false), then the reply reset, as PoolModel.HandleThrottle on a reset |
| Pool.Connection.ResetReply | src/main/java/org/reaktivity/nukleus/http/internal/stream/ConnectionPool.java:183-186 | a reset on the reply stream is written exactly when a reply throttle is set |
| Pool.ConnectionPool.constructor | src/main/java/org/reaktivity/nukleus/http/internal/stream/ConnectionPool.java:40-46 | a new pool has nothing idle, nothing in use and nobody waiting, over the factory's state, and satisfies the pool invariant |
| Pool.ConnectionPool.Acquire | src/main/java/org/reaktivity/nukleus/http/internal/stream/ConnectionPool.java:48-63 | the pool value after acquire is PoolModel.Acquire of the value before; known connections are kept |
| Pool.ConnectionPool.Lend | src/main/java/org/reaktivity/nukleus/http/internal/stream/ConnectionPool.java:57 | the consumer callback is recorded as a grant and the connection counts as lent |
| Pool.ConnectionPool.NewConnection | src/main/java/org/reaktivity/nukleus/http/internal/stream/ConnectionPool.java:65-75 | newConnection returns a fresh connection of this pool and performs PoolModel.NewConnection |
| Pool.ConnectionPool.MakeConnection | src/main/java/org/reaktivity/nukleus/http/internal/stream/ConnectionPool.java:67-69 | a correlation id, then a stream id, from the suppliers, and a connection made from them in its initial state |
| Pool.ConnectionPool.OpenStream | src/main/java/org/reaktivity/nukleus/http/internal/stream/ConnectionPool.java:70-72 | one begin on connectName for the new stream, then its default throttle |
| Pool.ConnectionPool.Register | src/main/java/org/reaktivity/nukleus/http/internal/stream/ConnectionPool.java:69 | a newly made connection joins the pool's known connections under its stream id |
| Pool.ConnectionPool.Release | src/main/java/org/reaktivity/nukleus/http/internal/stream/ConnectionPool.java:77-116 | the pool value after release is PoolModel.Release of the value before; known connections are kept |
| Pool.ConnectionPool.ServeNext | src/main/java/org/reaktivity/nukleus/http/internal/stream/ConnectionPool.java:110-115 | the head of the waiting chain, if any, leaves it and is acquired |
| Pool.ConnectionPool.ClaimCorrelation | src/main/java/org/reaktivity/nukleus/http/internal/stream/ConnectionPool.java:79-90 | the correlation claim of release, as PoolModel.Claim |
| Pool.ConnectionPool.ReturnOrRetire | src/main/java/org/reaktivity/nukleus/http/internal/stream/ConnectionPool.java:91-109 | return or retire, as PoolModel.ReturnOrRetire |
| Pool.ConnectionPool.ReturnConnection | src/main/java/org/reaktivity/nukleus/http/internal/stream/ConnectionPool.java:91-95 | a persistent connection gets its default throttle back and joins the tail of the idle deque |
| Pool.ConnectionPool.RetireConnection | src/main/java/org/reaktivity/nukleus/http/internal/stream/ConnectionPool.java:96-109 | one fewer in use, removed from the idle deque, and an end when asked |
| Pool.ConnectionPool.RemoveAvailable | src/main/java/org/reaktivity/nukleus/http/internal/stream/ConnectionPool.java:101 | removeFirstOccurrence on the deque of connection objects, and on the ids of the pool value |
| Pool.ConnectionPool.SendEnd | src/main/java/org/reaktivity/nukleus/http/internal/stream/ConnectionPool.java:103-108 | an end on the connection's stream to connectName, and endSent set |
| Pool.ConnectionPool.SetDefaultThrottle | src/main/java/org/reaktivity/nukleus/http/internal/stream/ConnectionPool.java:118-121 | the connection's default handler becomes the throttle of its stream, nothing else changes |
| Pool.ConnectionPool.Enqueue | src/main/java/org/reaktivity/nukleus/http/internal/stream/ConnectionPool.java:123-138 | walking the chain to its tail and linking the request gives PoolModel.Enqueue of the chain; nothing else changes |
| Accept.InstallThrottle | src/main/java/org/reaktivity/nukleus/http/internal/stream/ServerAcceptState.java:46-47 | after the install, (acceptReplyName, replyStreamId) maps to the throttle and every other entry is as before |
| Accept.RestoreIdempotent | src/main/java/org/reaktivity/nukleus/http/internal/stream/ServerAcceptState.java:58-61 | restoring the initial throttle twice is the same as once |
| Accept.RestoreOverrides | src/main/java/org/reaktivity/nukleus/http/internal/stream/ServerAcceptState.java:58-61 | whatever throttle was installed in between, restoring gives the same table |
| Accept.EndOrDefer | src/main/java/org/reaktivity/nukleus/http/internal/stream/ServerAcceptState.java:63-74 | doEnd: it writes one frame if and only if nothing is pending; that frame is an end on (acceptReply, replyStreamId) with the state unchanged; otherwise nothing is written and endRequested is set; pendingRequests, window and persistent never change |
| Accept.DeferredEndRepeats | src/main/java/org/reaktivity/nukleus/http/internal/stream/ServerAcceptState.java:70-73 | a deferred doEnd repeated has the same effect as once |
| Accept.ImmediateEndRepeats | src/main/java/org/reaktivity/nukleus/http/internal/stream/ServerAcceptState.java:65-69 | with nothing pending doEnd keeps no memory of ending: a second call writes a second end |
| Accept.ServerAcceptState.constructor | src/main/java/org/reaktivity/nukleus/http/internal/stream/ServerAcceptState.java:39-48 | the fields are set, window 0, pendingRequests 0, endRequested false, persistent true, and initialThrottle is installed for (acceptReplyName, replyStreamId) |
| Accept.ServerAcceptState.SetThrottle | src/main/java/org/reaktivity/nukleus/http/internal/stream/ServerAcceptState.java:46 | the setThrottle callback installs a throttle for (acceptReplyName, replyStreamId) |
| Accept.ServerAcceptState.RestoreInitialThrottle | src/main/java/org/reaktivity/nukleus/http/internal/stream/ServerAcceptState.java:58-61 | the throttle from construction is installed again |
| Accept.ServerAcceptState.DoEnd | src/main/java/org/reaktivity/nukleus/http/internal/stream/ServerAcceptState.java:63-74 | the state and the writer's frames after doEnd are EndOrDefer of those before |

## Left out

- HttpController (route/unroute commands, futures, flyweight builders into a 1024-byte buffer) and the k3po integration tests: no pool or accept-state logic of their own.
- Flyweight decoding: a window message is its update amount, and the 503 header builder is the header list `:status: 503`. The wire layout is not modelled.
- Router, writer and `ClientStreamFactory` internals: supplyTarget returns a target named after its argument, setThrottle is a map update, the `do*` calls append to a frame log, and the id suppliers are counters. The writer's `MessageConsumer` targets and throttles are values (`Consumer`), not callbacks. A throttle installed in the router is not invoked through the router; `Connection.HandleThrottleDefault` is called directly.
- Factory sharing: a factory, and so its correlation table and id counters, is modelled as used by one pool. Other pools or streams changing them in between calls are not modelled.
- Stream and correlation ids are Java `long`. They are modelled as unbounded integers, so 64-bit wrap-around of the counters is not modelled.
- Pool.Connection.constructor: the pool owning the connection is an explicit field, where the source uses the inner-class reference to its outer pool.
- The request chain is a sequence. The intrusive `next` link of a request popped by release is not cleared in the source; that stale link is not modelled. Neither is the cycle the source would build by enqueuing a request that is already in the chain but not at its head. A request served from the chain and acquired again would re-attach its old successor, or with a limit of 1 link to itself so that the walk at ConnectionPool.java:132-135 never ends. `PoolTraces.Enabled` therefore admits each request to at most one acquire.
- PoolTraces.RunKeepsInv, PoolTraces.RunServesInOrder, PoolTraces.RunClaims, PoolTraces.FreshRunKeepsCap, PoolTraces.RunKeepsWindow, PoolTraces.RunKeepsWaitingDistinct: they hold only over the calls `PoolTraces.Enabled` allows, not over arbitrary ones, because release and enqueue are not idempotent in the source and a reset after retirement breaks the count.
- PoolTraces.RunServesInOrder: FIFO is not claimed for runs that acquire a request a second time. The source keeps the stale `next` link of a request served from the chain (ConnectionPool.java:112-114), so a second enqueue of it re-attaches its old successor. The runs admit each request to at most one acquire.
- PoolTraces.RunKeepsWaitingDistinct: "waits at most once" is not claimed for runs that acquire a request a second time. Through the stale `next` link, the second enqueue can put a request in the chain twice or link it to itself. The runs admit each request to at most one acquire.
- PoolProperties.ThrottleKeepsInv: the invariant is not claimed for a reset on a connection the pool no longer holds. The source handles such a reset, and it breaks the count in use (`PoolProperties.ResetAfterRetireUndercounts`, `PoolTraces.ResetAfterRetireScenario`).
- Who clears `persistent` outside a reset is code outside this model. The runs model it as a call by the holder of a lent connection (`UnpersistOp`).
- `lent`, `grants` and `created` are bookkeeping fields, not source state; the grant log stands for the request consumers' callbacks.
- The pending-drain hook that would write a deferred end lives outside these files, so nothing is claimed about an end being written once the pending requests drain.
- The writer argument of the `ServerAcceptState` constructor is unused there, as in the source. The `pendingRequests` and `window` fields are changed only by code outside this model.
- `toString` of ServerAcceptState: formatting only.
