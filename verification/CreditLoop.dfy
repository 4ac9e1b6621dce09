/** The closed reverse-credit loop of one connection: the client automaton, the two
    directions of the WebSocket, and the hub's write buffer with its drain goroutine.

    The session and the backend stay open and the connection stays tracked: a failed
    WebSocket or TCP write, or the end of the drain that follows a close, ends the run.
    Enqueueing a grant on the hub's control lane may fail at any time. */
module CreditLoop {
  import opened LedgerModel
  import opened HubModel
  import C = ClientModel

  /** `wire` holds data frames on their way to the hub, `grants` the EventResumeStream
      messages on their way back, `initGrant` the credits of an EventOutboundResult not
      yet received. */
  datatype World = World(
    c: C.Client,
    wire: seq<Frame>,
    hub: Hub,
    grants: seq<nat>,
    initGrant: nat,
    overflowed: bool)

  /** Either an inbound connection, whose ledger is built holding the 64 credits of
      EventConnect, or an outbound one, whose ledger is built empty and whose 64
      credits travel with EventOutboundResult. */
  function Start(maxCap: nat, outbound: bool): World {
    World(C.Fresh(if outbound then 0 else CREDIT_CAPACITY, maxCap), [], FRESH_HUB, [],
          if outbound then CREDIT_CAPACITY else 0, false)
  }

  datatype Step =
    | Local(act: C.Act)
    | RecvGrant
    | RecvInit
    | Deliver
    | HubTake
    | HubWrite(backoff: bool, ok: bool)
    | HubTick(backoff: bool, ok: bool)

  predicate Enabled(w: World, s: Step) {
    !w.overflowed &&
    match s
    case Local(a) => !a.TakeGrant? && !a.TakeInit? && C.Enabled(w.c, a)
    case RecvGrant => w.c.reader.Resting? && w.grants != []
    case RecvInit => w.c.reader.Resting? && w.initGrant > 0
    case Deliver => w.wire != []
    case HubTake => w.hub.hand == [] && w.hub.buf != []
    case HubWrite(_, _) => w.hub.hand != []
    case HubTick(_, _) => w.hub.armed
  }

  /** bufferedConn.Write: a full buffer ends the connection. */
  function DeliverStep(w: World): World
    requires w.wire != []
  {
    if |w.hub.buf| < WRITE_BUFFER
    then w.(wire := w.wire[1..], hub := w.hub.(buf := w.hub.buf + w.wire[..1]))
    else w.(overflowed := true)
  }

  function HubWriteStep(w: World, backoff: bool, ok: bool): World
    requires w.hub.hand != []
  {
    var h := Written(w.hub);
    if h.consumed >= REPLENISH_BATCH
    then w.(hub := TryReplenish(h, backoff, ok), grants := w.grants + Granted(h, backoff, ok))
    else w.(hub := h)
  }

  /** The client action a step performs. */
  function ActOf(w: World, s: Step): C.Act
    requires s.Local? || (s.RecvGrant? && w.grants != []) || s.RecvInit?
  {
    match s
    case Local(a) => a
    case RecvGrant => C.TakeGrant(w.grants[0])
    case RecvInit => C.TakeInit(w.initGrant)
  }

  /** One step; a step that is not enabled leaves the world as it is. */
  function Apply(w: World, s: Step): World {
    if !Enabled(w, s) then w else
    match s
    case Local(a) => w.(c := C.Apply(w.c, a), wire := w.wire + C.Sent(w.c, a))
    case RecvGrant => w.(c := C.Apply(w.c, ActOf(w, s)), grants := w.grants[1..])
    case RecvInit => w.(c := C.Apply(w.c, ActOf(w, s)), initGrant := 0)
    case Deliver => DeliverStep(w)
    case HubTake => w.(hub := w.hub.(hand := w.hub.buf[..1], buf := w.hub.buf[1..]))
    case HubWrite(backoff, ok) => HubWriteStep(w, backoff, ok)
    case HubTick(backoff, ok) =>
      w.(hub := TryReplenish(w.hub, backoff, ok), grants := w.grants + Granted(w.hub, backoff, ok))
  }

  /** The client's tally together with every frame the producers have queued. */
  datatype Log = Log(t: C.Tally, pushed: seq<Frame>)

  function Note(w: World, l: Log, s: Step): Log {
    if !Enabled(w, s) || !(s.Local? || s.RecvGrant? || s.RecvInit?) then l
    else Log(C.Note(w.c, l.t, ActOf(w, s)),
             if s.Local? && s.act.Push? then l.pushed + [s.act.frame] else l.pushed)
  }

  /** The world after a whole run, and its log. */
  function Run(w: World, run: seq<Step>): World {
    if run == [] then w else Apply(Run(w, run[..|run| - 1]), run[|run| - 1])
  }

  function History(w: World, run: seq<Step>): Log {
    if run == [] then Log(C.NOTHING, [])
    else Note(Run(w, run[..|run| - 1]), History(w, run[..|run| - 1]), run[|run| - 1])
  }

  // ----- Credits and frames in the loop ------------------------------------------

  /** Frames the client has sent that the hub has not yet written to TCP. */
  function InFlight(w: World): nat {
    |w.wire| + |w.hub.buf| + |w.hub.hand|
  }

  /** Every credit in the loop, wherever it is. */
  function Credits(w: World): int {
    C.Held(w.c) + InFlight(w) + w.hub.consumed + Sum(w.grants) + w.initGrant
  }

  /** Every frame between the producers and the client's TCP socket, oldest first. */
  function Stream(w: World): seq<Frame> {
    w.hub.delivered + w.hub.hand + w.hub.buf + w.wire + w.c.queue
  }
}
