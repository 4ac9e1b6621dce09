/** The client side of the reverse-credit loop for one connection, as an automaton.

    Goroutines interleave at the granularity of atomic operations: a channel
    operation, an atomic load, store or compare-and-swap loop, or one critical
    section under `probeMu` is one action. Actors that carry no local data are
    counted by program point, so any number of producers and of pending notify
    callbacks may be in flight. The environment decides which grants arrive. */
module ClientModel {
  import opened LedgerModel

  const DRAIN_TURN: nat := 4
  const QUEUE_SLOTS: nat := 256

  /** Program point of writePump inside drainConnectionQueue; `sent` is the number
      of frames sent in this turn. */
  datatype Drainer =
    | Idle
    | Trying(sent: nat)
    | Holding(sent: nat)
    | Returning(sent: nat)
    | Clearing(sent: nat)
    | Checking(sent: nat)
    | Weighing(sent: nat)
    | Waking
    | ArmGate
    | Arming
    | Leaving
    | LeavingEmpty
    | LeavingPull

  /** Program point of readPump inside Replenish or InitCredits. */
  datatype Reader =
    | Resting
    | ReplenishClear(n: nat)
    | ReplenishAdd(n: nat)
    | InitClear(n: nat)
    | InitAdd(n: nat)
    | ReaderWake

  /** Program point of the goroutine that won the compare-and-swap on `closed`. */
  datatype Closer =
    | Open
    | CloseClear(kick: bool)
    | CloseBonus
    | CloseWake
    | Finished

  /** Producers inside NotifyEnqueue, counted by their next action. */
  datatype Producers = Producers(load: nat, wake: nat, closedCheck: nat, gate: nat, arm: nat)

  /** `active` says that the connection has left its pending state, which starts its only
      producer; `quit` that its quit channel is closed. */
  datatype Phase = Phase(active: bool, quit: bool)

  /** `timers` holds the generations whose timer body may still run, `tokens` the
      wakeups in dataReady, `notifies` the notify callbacks not yet pushed there. */
  datatype Client = Client(
    led: Ledger,
    queue: seq<Frame>,
    phase: Phase,
    timers: set<nat>,
    tokens: nat,
    notifies: nat,
    prod: Producers,
    drainer: Drainer,
    reader: Reader,
    closer: Closer)

  function Fresh(initial: nat, maxCap: nat): Client {
    Client(Ledger(initial, maxCap, false, false, 0, false),
           [], Phase(false, false), {}, 0, 0, Producers(0, 0, 0, 0, 0), Idle, Resting, Open)
  }

  datatype Act =
    | Activate
    | Push(frame: Frame)
    | Quit
    | CloseCas(kick: bool)
    | ProducerLoad
    | ProducerWake
    | ProducerClosed
    | ProducerGate
    | ProducerArm
    | NotifyPush
    | Drain
    | TakeGrant(n: nat)
    | TakeInit(n: nat)
    | Read
    | Close
    | FireProbe(gen: nat)

  predicate InitLocked(c: Client) {
    c.reader.InitClear? || c.reader.InitAdd?
  }

  /** A connection that closes while pending was never given a frame, closes its ledger
      plainly and is never activated; one that has been active closes with the bonus. */
  predicate Enabled(c: Client, a: Act) {
    match a
    case Activate => !c.phase.active && !c.led.closed
    case Push(_) => c.phase.active && |c.queue| < QUEUE_SLOTS
    case Quit => !c.phase.quit
    case CloseCas(kick) => !c.led.closed && !InitLocked(c) && kick == c.phase.active
    case ProducerLoad => c.prod.load > 0
    case ProducerWake => c.prod.wake > 0
    case ProducerClosed => c.prod.closedCheck > 0
    case ProducerGate => c.prod.gate > 0
    case ProducerArm => c.prod.arm > 0
    case NotifyPush => c.notifies > 0
    case Drain => !c.drainer.Idle? || c.tokens > 0
    case TakeGrant(_) => c.reader.Resting?
    case TakeInit(_) => c.reader.Resting?
    case Read => !c.reader.Resting?
    case Close => !c.closer.Open? && !c.closer.Finished?
    case FireProbe(g) => g in c.timers
  }

  /** Notify callbacks owed after the compare-and-swap on `signaled`: the winner
      adds one. */
  function Owed(c: Client): nat {
    if c.led.signaled then c.notifies else c.notifies + 1
  }

  function Signal(l: Ledger): Ledger {
    l.(signaled := true)
  }

  function ArmedTimers(c: Client): set<nat> {
    if Armable(c.led) then c.timers + {c.led.probeGen + 1} else c.timers
  }

  function DrainAct(c: Client): Client {
    match c.drainer
    case Idle => if c.tokens > 0 then c.(tokens := c.tokens - 1, drainer := Trying(0)) else c
    case Trying(sent) =>
      if sent >= DRAIN_TURN || c.led.available <= 0 then c.(drainer := Clearing(sent))
      else c.(led := c.led.(available := c.led.available - 1), drainer := Holding(sent))
    case Holding(sent) =>
      if c.queue == [] then c.(drainer := Returning(sent))
      else c.(queue := c.queue[1..], drainer := Trying(sent + 1))
    case Returning(sent) => c.(led := AddClamped(c.led, 1), drainer := Clearing(sent))
    case Clearing(sent) => c.(led := c.led.(signaled := false), drainer := Checking(sent))
    case Checking(sent) => c.(drainer := if c.queue == [] then Leaving else Weighing(sent))
    case Weighing(sent) => c.(drainer := if c.led.available > 0 then Waking else ArmGate)
    case Waking => c.(led := Signal(c.led), notifies := Owed(c), drainer := Leaving)
    case ArmGate => c.(drainer := if c.led.closed then Leaving else Arming)
    case Arming => c.(led := Arm(c.led), timers := ArmedTimers(c), drainer := Leaving)
    case Leaving => c.(drainer := if c.phase.quit then LeavingEmpty else Idle)
    case LeavingEmpty => c.(drainer := if c.queue == [] then LeavingPull else Idle)
    case LeavingPull => c.(queue := if c.queue == [] then [] else c.queue[1..], drainer := Idle)
  }

  /** The frame an action writes to the WebSocket, if any. */
  function Sent(c: Client, a: Act): seq<Frame> {
    if a.Drain? && (c.drainer.Holding? || c.drainer.LeavingPull?) && c.queue != []
    then c.queue[..1] else []
  }

  function ReadAct(c: Client): Client {
    match c.reader
    case Resting => c
    case ReplenishClear(n) => c.(led := ClearStall(c.led), reader := ReplenishAdd(n))
    case ReplenishAdd(n) => c.(led := AddClamped(c.led, n), reader := ReaderWake)
    case InitClear(n) => c.(led := ClearStall(c.led), reader := InitAdd(n))
    case InitAdd(n) => c.(led := AddClamped(c.led, n), reader := ReaderWake)
    case ReaderWake => c.(led := Signal(c.led), notifies := Owed(c), reader := Resting)
  }

  function CloseAct(c: Client): Client {
    match c.closer
    case Open => c
    case CloseClear(kick) => c.(led := ClearStall(c.led), closer := if kick then CloseBonus else Finished)
    case CloseBonus => c.(led := AddClamped(c.led, REPLENISH_BATCH), closer := CloseWake)
    case CloseWake => c.(led := Signal(c.led), notifies := Owed(c), closer := Finished)
    case Finished => c
  }

  /** clampReverseCredits on a grant of `n` credits. */
  function ClampGrant(c: Client, n: nat): nat {
    if n > c.led.maxCap then c.led.maxCap else n
  }

  function Loaded(c: Client): Producers
    requires c.prod.load > 0
  {
    var p := c.prod.(load := c.prod.load - 1);
    if c.led.available > 0 then p.(wake := p.wake + 1) else p.(closedCheck := p.closedCheck + 1)
  }

  /** One action; an action that is not enabled changes nothing. */
  function Apply(c: Client, a: Act): Client {
    if !Enabled(c, a) then c else
    var p := c.prod;
    match a
    case Activate => c.(phase := c.phase.(active := true))
    case Push(f) => c.(queue := c.queue + [f], prod := p.(load := p.load + 1))
    case Quit => c.(phase := c.phase.(quit := true))
    case CloseCas(kick) => c.(led := c.led.(closed := true), closer := CloseClear(kick))
    case ProducerLoad => c.(prod := Loaded(c))
    case ProducerWake => c.(led := Signal(c.led), notifies := Owed(c), prod := p.(wake := p.wake - 1))
    case ProducerClosed =>
      c.(prod := p.(closedCheck := p.closedCheck - 1, gate := if c.led.closed then p.gate else p.gate + 1))
    case ProducerGate =>
      c.(prod := p.(gate := p.gate - 1, arm := if c.led.closed then p.arm else p.arm + 1))
    case ProducerArm => c.(led := Arm(c.led), timers := ArmedTimers(c), prod := p.(arm := p.arm - 1))
    case NotifyPush => c.(notifies := c.notifies - 1, tokens := c.tokens + 1)
    case Drain => DrainAct(c)
    case TakeGrant(n) =>
      c.(reader := if ClampGrant(c, n) > 0 then ReplenishClear(ClampGrant(c, n)) else Resting)
    case TakeInit(n) => c.(reader := if c.led.closed then Resting else InitClear(n))
    case Read => ReadAct(c)
    case Close => CloseAct(c)
    case FireProbe(g) =>
      c.(led := Fire(c.led, g), timers := c.timers - {g},
         notifies := if Grants(c.led, g) then Owed(c) else c.notifies)
  }

  // ----- History --------------------------------------------------------------------

  /** What has happened to one client so far, as far as the theorems speak of it. */
  datatype Tally = Tally(
    acquired: nat,
    released: nat,
    replenished: nat,
    installed: nat,
    bonus: nat,
    probes: nat,
    cycleProbes: nat,
    clears: nat,
    past: nat,
    lost: nat,
    forfeited: nat)

  const NOTHING := Tally(0, 0, 0, 0, 0, 0, 0, 0, 0, 0, 0)

  /** Credits a saturating add of `n` throws away. */
  function Overflow(l: Ledger, n: nat): nat {
    if l.available + n > l.maxCap then l.available + n - l.maxCap else 0
  }

  function Cleared(t: Tally): Tally {
    t.(clears := t.clears + 1, cycleProbes := 0)
  }

  function NoteDrain(c: Client, t: Tally): Tally {
    match c.drainer
    case Trying(sent) =>
      if sent >= DRAIN_TURN || c.led.available <= 0 then t else t.(acquired := t.acquired + 1)
    case Returning(_) => t.(released := t.released + 1, lost := t.lost + Overflow(c.led, 1))
    case LeavingPull => if c.queue == [] then t else t.(past := t.past + 1)
    case _ => t
  }

  function NoteRead(c: Client, t: Tally): Tally {
    match c.reader
    case ReplenishClear(_) => Cleared(t)
    case InitClear(_) => Cleared(t)
    case ReplenishAdd(n) => t.(replenished := t.replenished + n, lost := t.lost + Overflow(c.led, n))
    case InitAdd(n) => t.(installed := t.installed + n, lost := t.lost + Overflow(c.led, n))
    case _ => t
  }

  function NoteClose(c: Client, t: Tally): Tally {
    match c.closer
    case CloseClear(_) => Cleared(t)
    case CloseBonus =>
      t.(bonus := t.bonus + REPLENISH_BATCH, lost := t.lost + Overflow(c.led, REPLENISH_BATCH))
    case _ => t
  }

  /** The tally after action `a` of client `c`. */
  function Note(c: Client, t: Tally, a: Act): Tally {
    if !Enabled(c, a) then t else
    match a
    case Drain => NoteDrain(c, t)
    case TakeGrant(n) => t.(lost := t.lost + n - ClampGrant(c, n))
    case TakeInit(n) => if c.led.closed then t.(forfeited := t.forfeited + n) else t
    case Read => NoteRead(c, t)
    case Close => NoteClose(c, t)
    case FireProbe(g) =>
      if Grants(c.led, g) then t.(probes := t.probes + 1, cycleProbes := t.cycleProbes + 1) else t
    case _ => t
  }

  function Run(c: Client, acts: seq<Act>): Client {
    if acts == [] then c else Apply(Run(c, acts[..|acts| - 1]), acts[|acts| - 1])
  }

  function History(c: Client, acts: seq<Act>): Tally {
    if acts == [] then NOTHING
    else Note(Run(c, acts[..|acts| - 1]), History(c, acts[..|acts| - 1]), acts[|acts| - 1])
  }

  // ----- Credits ----------------------------------------------------------------------

  function DrainerHolds(d: Drainer): nat {
    if d.Holding? || d.Returning? then 1 else 0
  }

  function ReaderHolds(r: Reader): nat {
    match r
    case ReplenishClear(n) => n
    case ReplenishAdd(n) => n
    case InitClear(n) => n
    case InitAdd(n) => n
    case _ => 0
  }

  /** Every credit on the client's side of the loop. */
  function Held(c: Client): int {
    c.led.available + DrainerHolds(c.drainer) + ReaderHolds(c.reader)
  }

  /** Credits an action receives from the hub. */
  function Received(c: Client, a: Act): nat {
    if Enabled(c, a) && (a.TakeGrant? || a.TakeInit?) then a.n else 0
  }

  /** Credits the client has put into the loop by itself, minus those it swallowed. */
  function Minted(t: Tally): int {
    t.probes + t.bonus + t.past - t.lost - t.forfeited
  }
}
