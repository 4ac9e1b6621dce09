/** The loop neither spins nor strands data: a potential that every step but a push
    or a failed replenish retry lowers, and a schedule that always delivers. */
module CreditLoopProgress {
  import opened LedgerModel
  import opened HubModel
  import opened CreditLoop
  import opened CreditLoopSafety
  import C = ClientModel
  import S = ClientSafety

  // ----- The client's potential ------------------------------------------------------

  /** A turn that has sent a frame, or that will find both frames and credits, may
      still wake the drainer again; any other turn only winds down. */
  function DrainerPotential(c: C.Client): nat {
    var more := c.queue != [] && c.led.available > 0;
    match c.drainer
    case Idle => 0
    case LeavingPull => 1
    case LeavingEmpty => 2
    case Leaving => 3
    case Arming => 4
    case ArmGate => 5
    case Weighing(sent) => if sent > 0 || c.led.available > 0 then 18 else 6
    case Checking(sent) => if sent > 0 || more then 19 else 7
    case Clearing(sent) => if sent > 0 || more then 20 else 8
    case Returning(sent) => if sent > 0 || c.queue != [] then 21 else 9
    case Holding(sent) => if sent > 0 then 22 else 10
    case Trying(sent) => if sent > 0 then 23 else 11
    case Waking => 17
  }

  function ReaderPotential(r: C.Reader): nat {
    match r
    case Resting => 0
    case ReaderWake => 14
    case ReplenishAdd(_) => 27
    case InitAdd(_) => 27
    case ReplenishClear(_) => 56
    case InitClear(_) => 56
  }

  function CloserPotential(k: C.Closer): nat {
    match k
    case Finished => 0
    case CloseWake => 14
    case CloseBonus => 27
    case CloseClear(_) => 56
    case Open => 57
  }

  /** The drainer's own right to arm the probe in this stall cycle. */
  function ArmPotential(c: C.Client): nat {
    if !c.led.probeFired && c.led.available + C.DrainerHolds(c.drainer) <= 0 then 28 else 0
  }

  function ProducerPotential(p: C.Producers): nat {
    31 * p.load + 14 * p.wake + 30 * p.closedCheck + 29 * p.gate + 28 * p.arm
  }

  function ClientPotential(c: C.Client): nat {
    60 * |c.queue| + 12 * c.tokens + 13 * c.notifies + 27 * |c.timers|
    + (if c.phase.active then 0 else 1) + (if c.phase.quit then 0 else 1) + ProducerPotential(c.prod)
    + DrainerPotential(c) + ReaderPotential(c.reader) + CloserPotential(c.closer) + ArmPotential(c)
  }

  const PUSH_COST: nat := 103

  lemma DrainTurns(c: C.Client)
    requires S.Bounded(c) && C.Enabled(c, C.Drain) && (c.drainer.Idle? || c.drainer.Trying? || c.drainer.Holding?)
    ensures ClientPotential(C.DrainAct(c)) + 11 * |C.Sent(c, C.Drain)| < ClientPotential(c)
  {
    match c.drainer
    case Idle =>
    case Trying(_) =>
    case Holding(_) =>
  }

  lemma DrainArms(c: C.Client)
    requires S.Bounded(c) && C.Enabled(c, C.Drain) && c.drainer.Arming?
    ensures ClientPotential(C.DrainAct(c)) + 11 * |C.Sent(c, C.Drain)| < ClientPotential(c)
  {
    var d := C.DrainAct(c);
    assert d.drainer.Leaving? && d.queue == c.queue && C.Sent(c, C.Drain) == [];
    assert 27 * |d.timers| + ArmPotential(d) <= 27 * |c.timers| + ArmPotential(c);
  }

  lemma DrainWakes(c: C.Client)
    requires S.Bounded(c) && C.Enabled(c, C.Drain) && c.drainer.Waking?
    ensures ClientPotential(C.DrainAct(c)) + 11 * |C.Sent(c, C.Drain)| < ClientPotential(c)
  {
    var d := C.DrainAct(c);
    assert d.drainer.Leaving? && d.queue == c.queue && d.timers == c.timers && C.Sent(c, C.Drain) == [];
  }

  lemma DrainDrops(c: C.Client)
    requires S.Bounded(c) && C.Enabled(c, C.Drain)
    ensures ClientPotential(C.DrainAct(c)) + 11 * |C.Sent(c, C.Drain)| < ClientPotential(c)
  {
    if c.drainer.Idle? || c.drainer.Trying? || c.drainer.Holding? {
      DrainTurns(c);
    } else if c.drainer.Arming? {
      DrainArms(c);
    } else if c.drainer.Waking? {
      DrainWakes(c);
    } else {
      DrainLeaves(c);
    }
  }

  lemma DrainLeaves(c: C.Client)
    requires S.Bounded(c) && C.Enabled(c, C.Drain)
    requires !c.drainer.Idle? && !c.drainer.Trying? && !c.drainer.Holding? && !c.drainer.Arming? && !c.drainer.Waking?
    ensures ClientPotential(C.DrainAct(c)) + 11 * |C.Sent(c, C.Drain)| < ClientPotential(c)
  {
    match c.drainer
    case Returning(_) => assert ClientPotential(C.DrainAct(c)) + 11 * |C.Sent(c, C.Drain)| < ClientPotential(c);
    case LeavingPull => assert ClientPotential(C.DrainAct(c)) + 11 * |C.Sent(c, C.Drain)| < ClientPotential(c);
    case _ =>
  }

  /** New frames or credits cost at most one more turn of the drainer. */
  lemma JumpBound(c: C.Client, d: C.Client)
    requires c.drainer == d.drainer
    ensures DrainerPotential(d) <= DrainerPotential(c) + 12
  {}

  lemma PushCosts(c: C.Client, f: Frame)
    requires C.Enabled(c, C.Push(f))
    ensures ClientPotential(C.Apply(c, C.Push(f))) <= ClientPotential(c) + PUSH_COST
  {
    JumpBound(c, C.Apply(c, C.Push(f)));
  }

  lemma FireDrops(c: C.Client, g: nat)
    requires S.Bounded(c) && g in c.timers
    ensures ClientPotential(C.Apply(c, C.FireProbe(g))) < ClientPotential(c)
  {
    JumpBound(c, C.Apply(c, C.FireProbe(g)));
  }

  lemma ReadClears(c: C.Client)
    requires S.Bounded(c) && (c.reader.ReplenishClear? || c.reader.InitClear?)
    ensures ClientPotential(C.ReadAct(c)) < ClientPotential(c)
  {
    JumpBound(c, C.ReadAct(c));
  }

  lemma ReadDrops(c: C.Client)
    requires S.Bounded(c) && !c.reader.Resting?
    ensures ClientPotential(C.ReadAct(c)) < ClientPotential(c)
  {
    JumpBound(c, C.ReadAct(c));
    match c.reader
    case ReplenishClear(_) => ReadClears(c);
    case InitClear(_) => ReadClears(c);
    case ReaderWake => assert ClientPotential(C.ReadAct(c)) < ClientPotential(c);
    case _ =>
  }

  lemma CloseDrops(c: C.Client)
    requires S.Bounded(c) && !c.closer.Open? && !c.closer.Finished?
    ensures ClientPotential(C.CloseAct(c)) < ClientPotential(c)
  {
    JumpBound(c, C.CloseAct(c));
  }

  lemma ProducerArms(c: C.Client)
    requires S.Bounded(c) && C.Enabled(c, C.ProducerArm)
    ensures ClientPotential(C.Apply(c, C.ProducerArm)) < ClientPotential(c)
  {
    var d := C.Apply(c, C.ProducerArm);
    assert d.drainer == c.drainer && d.queue == c.queue && d.led.available == c.led.available;
    assert DrainerPotential(d) == DrainerPotential(c) && ArmPotential(d) <= ArmPotential(c);
  }

  lemma ProducerWakes(c: C.Client)
    requires S.Bounded(c) && C.Enabled(c, C.ProducerWake)
    ensures ClientPotential(C.Apply(c, C.ProducerWake)) < ClientPotential(c)
  {
  }

  lemma ProducerLoads(c: C.Client)
    requires S.Bounded(c) && C.Enabled(c, C.ProducerLoad)
    ensures ClientPotential(C.Apply(c, C.ProducerLoad)) < ClientPotential(c)
  {
  }

  lemma ProducerLooks(c: C.Client, a: C.Act)
    requires S.Bounded(c) && C.Enabled(c, a) && (a.ProducerClosed? || a.ProducerGate?)
    ensures ClientPotential(C.Apply(c, a)) < ClientPotential(c)
  {
  }

  lemma ProducerDrops(c: C.Client, a: C.Act)
    requires S.Bounded(c) && C.Enabled(c, a)
    requires a.ProducerLoad? || a.ProducerWake? || a.ProducerClosed? || a.ProducerGate? || a.ProducerArm?
    ensures ClientPotential(C.Apply(c, a)) < ClientPotential(c)
  {
    match a
    case ProducerLoad => ProducerLoads(c);
    case ProducerWake => ProducerWakes(c);
    case ProducerArm => ProducerArms(c);
    case ProducerClosed => ProducerLooks(c, a);
    case ProducerGate => ProducerLooks(c, a);
  }

  /** Actions a connection takes at most once. */
  lemma OnceDrops(c: C.Client, a: C.Act)
    requires S.Bounded(c) && C.Enabled(c, a) && (a.Activate? || a.Quit? || a.CloseCas?)
    ensures ClientPotential(C.Apply(c, a)) < ClientPotential(c)
  {}

  lemma NotifyDrops(c: C.Client)
    requires S.Bounded(c) && C.Enabled(c, C.NotifyPush)
    ensures ClientPotential(C.Apply(c, C.NotifyPush)) < ClientPotential(c)
  {}

  lemma ClientDrops(c: C.Client, a: C.Act)
    requires S.Bounded(c) && C.Enabled(c, a) && !a.TakeGrant? && !a.TakeInit?
    ensures a.Push? ==> ClientPotential(C.Apply(c, a)) <= ClientPotential(c) + PUSH_COST
    ensures !a.Push? ==> ClientPotential(C.Apply(c, a)) + 11 * |C.Sent(c, a)| < ClientPotential(c)
  {
    match a
    case Push(f) => PushCosts(c, f);
    case Drain => DrainDrops(c);
    case FireProbe(g) => FireDrops(c, g);
    case Read => ReadDrops(c);
    case Close => CloseDrops(c);
    case Activate => OnceDrops(c, a);
    case Quit => OnceDrops(c, a);
    case CloseCas(_) => OnceDrops(c, a);
    case NotifyPush => NotifyDrops(c);
    case _ => ProducerDrops(c, a);
  }

  lemma TakeDrops(c: C.Client, a: C.Act)
    requires C.Enabled(c, a) && (a.TakeGrant? || a.TakeInit?)
    ensures ClientPotential(C.Apply(c, a)) <= ClientPotential(c) + 56
  {}

  // ----- The loop's potential -------------------------------------------------------------

  function Potential(w: World): nat {
    ClientPotential(w.c) + 11 * |w.wire| + 10 * |w.hub.buf| + 9 * |w.hub.hand| + 8 * w.hub.consumed
    + 57 * |w.grants| + (if w.initGrant > 0 then 57 else 0) + (if w.overflowed then 0 else 1)
  }

  /** A retry of the replenish timer that does not get a grant onto the control lane. */
  predicate FailedRetry(w: World, s: Step) {
    s.HubTick? && Granted(w.hub, s.backoff, s.ok) == []
  }

  predicate IsPush(s: Step) {
    s.Local? && s.act.Push?
  }

  lemma LocalMoves(w: World, a: C.Act)
    requires S.Bounded(w.c) && Enabled(w, Local(a))
    ensures a.Push? ==> Potential(Apply(w, Local(a))) <= Potential(w) + PUSH_COST
    ensures !a.Push? ==> Potential(Apply(w, Local(a))) < Potential(w)
  {
    ClientDrops(w.c, a);
  }

  lemma PotentialMoves(w: World, s: Step)
    requires S.Bounded(w.c) && HubShape(w) && Enabled(w, s)
    ensures IsPush(s) ==> Potential(Apply(w, s)) <= Potential(w) + PUSH_COST
    ensures FailedRetry(w, s) ==> Potential(Apply(w, s)) == Potential(w)
    ensures !IsPush(s) && !FailedRetry(w, s) ==> Potential(Apply(w, s)) < Potential(w)
  {
    match s
    case Local(a) => LocalMoves(w, a);
    case RecvGrant => TakeDrops(w.c, ActOf(w, s));
    case RecvInit => TakeDrops(w.c, ActOf(w, s));
    case HubWrite(_, _) => HubDrops(w, s);
    case HubTick(_, _) => HubDrops(w, s);
    case _ =>
  }

  lemma HubDrops(w: World, s: Step)
    requires HubShape(w) && Enabled(w, s) && (s.HubWrite? || s.HubTick?)
    ensures FailedRetry(w, s) ==> Potential(Apply(w, s)) == Potential(w)
    ensures !FailedRetry(w, s) ==> Potential(Apply(w, s)) < Potential(w)
  {}

  // ----- No run can spin -----------------------------------------------------------------

  /** Steps of a run that changed the world and were neither pushes nor failed retries. */
  function Moves(w: World, run: seq<Step>): nat {
    if run == [] then 0 else
    var v, s := Run(w, run[..|run| - 1]), run[|run| - 1];
    Moves(w, run[..|run| - 1]) + if Enabled(v, s) && !IsPush(s) && !FailedRetry(v, s) then 1 else 0
  }

  function Pushes(w: World, run: seq<Step>): nat {
    if run == [] then 0 else
    var v, s := Run(w, run[..|run| - 1]), run[|run| - 1];
    Pushes(w, run[..|run| - 1]) + if Enabled(v, s) && IsPush(s) then 1 else 0
  }

  ghost predicate WorkBounded(w: World, run: seq<Step>) {
    Moves(w, run) + Potential(Run(w, run)) <= Potential(w) + PUSH_COST * Pushes(w, run)
  }

  ghost predicate Shaped(w: World, run: seq<Step>) {
    S.Bounded(Run(w, run).c) && HubShape(Run(w, run))
  }

  lemma {:induction false} WorkBound(w: World, run: seq<Step>)
    requires forall k :: 0 <= k <= |run| ==> Shaped(w, run[..k])
    ensures WorkBounded(w, run)
  {
    if run == [] {
      NoWork(w, run);
    } else {
      var before := run[..|run| - 1];
      forall k | 0 <= k <= |before| ensures Shaped(w, before[..k]) {
        assert before[..k] == run[..k];
      }
      WorkBound(w, before);
      assert Shaped(w, run[..|run| - 1]);
      WorkStep(w, run);
      WorkGoesOn(w, run);
    }
  }

  lemma NoWork(w: World, run: seq<Step>)
    requires run == []
    ensures WorkBounded(w, run)
  {
    assert Moves(w, run) == 0 && Pushes(w, run) == 0 && Run(w, run) == w;
  }

  lemma WorkGoesOn(w: World, run: seq<Step>)
    requires run != [] && WorkBounded(w, run[..|run| - 1]) && WorkSteps(w, run)
    ensures WorkBounded(w, run)
  {
  }

  /** No livelock: the work a run can do is bounded by the frames pushed into it,
      however goroutines interleave and however often replenishing fails. */
  lemma WorkBoundTheorem(maxCap: nat, outbound: bool, run: seq<Step>)
    requires maxCap >= CREDIT_CAPACITY
    ensures var w := Start(maxCap, outbound);
            Moves(w, run) + Potential(Run(w, run)) <= Potential(w) + PUSH_COST * Pushes(w, run)
  {
    var w := Start(maxCap, outbound);
    forall k | 0 <= k <= |run| ensures Shaped(w, run[..k]) {
      InvAlways(maxCap, outbound, run[..k]);
    }
    WorkBound(w, run);
    assert WorkBounded(w, run);
  }

  ghost predicate WorkSteps(w: World, run: seq<Step>)
    requires run != []
  {
    var before := run[..|run| - 1];
    Moves(w, run) + Potential(Run(w, run)) - PUSH_COST * Pushes(w, run)
    <= Moves(w, before) + Potential(Run(w, before)) - PUSH_COST * Pushes(w, before)
  }

  lemma WorkStep(w: World, run: seq<Step>)
    requires run != [] && Shaped(w, run[..|run| - 1])
    ensures WorkSteps(w, run)
  {
    var before, s := run[..|run| - 1], run[|run| - 1];
    var v := Run(w, before);
    if Enabled(v, s) {
      PotentialMoves(v, s);
      assert Run(w, run) == Apply(v, s);
    } else {
      assert Run(w, run) == v;
    }
  }

  // ----- Everything queued can always be delivered ------------------------------------------

  /** A step of the loop itself: not a new frame, not a teardown, not the stall probe. */
  predicate Internal(s: Step) {
    s.Local? ==> !s.act.Activate? && !s.act.Push? && !s.act.Quit? && !s.act.CloseCas? && !s.act.FireProbe?
  }

  /** A schedule that empties the hub's buffer before it delivers to it. */
  function Schedule(w: World): Step {
    if w.hub.hand != [] then HubWrite(false, true)
    else if w.hub.buf != [] then HubTake
    else if w.hub.armed then HubTick(false, true)
    else if w.wire != [] then Deliver
    else if !w.c.reader.Resting? then Local(C.Read)
    else if w.grants != [] then RecvGrant
    else if w.initGrant > 0 then RecvInit
    else if !w.c.closer.Open? && !w.c.closer.Finished? then Local(C.Close)
    else if w.c.prod.load > 0 then Local(C.ProducerLoad)
    else if w.c.prod.wake > 0 then Local(C.ProducerWake)
    else if w.c.prod.closedCheck > 0 then Local(C.ProducerClosed)
    else if w.c.prod.gate > 0 then Local(C.ProducerGate)
    else if w.c.prod.arm > 0 then Local(C.ProducerArm)
    else if w.c.notifies > 0 then Local(C.NotifyPush)
    else Local(C.Drain)
  }

  lemma ScheduleEnabled(w: World)
    requires S.Bounded(w.c) && HubShape(w) && !w.overflowed && !Quiescent(w)
    ensures Enabled(w, Schedule(w)) && Internal(Schedule(w)) && !FailedRetry(w, Schedule(w))
  {
  }

  lemma ScheduleKeepsUp(w: World)
    requires HubShape(w) && !w.overflowed && Enabled(w, Schedule(w))
    ensures !Apply(w, Schedule(w)).overflowed
  {
  }

  lemma ScheduleProgresses(w: World)
    requires S.Bounded(w.c) && HubShape(w) && !w.overflowed && !Quiescent(w)
    ensures var s := Schedule(w);
            && Enabled(w, s) && Internal(s) && !Apply(w, s).overflowed
            && Potential(Apply(w, s)) < Potential(w)
  {
    ScheduleEnabled(w);
    ScheduleKeepsUp(w);
    PotentialMoves(w, Schedule(w));
  }

  predicate AllInternal(more: seq<Step>) {
    forall i :: 0 <= i < |more| ==> Internal(more[i])
  }

  /** `whole` extends `run` by steps of the loop itself that bring it to rest with
      every frame delivered. */
  ghost predicate Finishes(w: World, run: seq<Step>, whole: seq<Step>) {
    && run <= whole && AllInternal(whole[|run|..])
    && Quiescent(Run(w, whole)) && !Run(w, whole).overflowed
    && History(w, whole).pushed == History(w, run).pushed
    && Run(w, whole).hub.delivered == History(w, run).pushed
  }

  lemma OneMore(w: World, run: seq<Step>, s: Step)
    requires Internal(s)
    ensures Run(w, run + [s]) == Apply(Run(w, run), s)
    ensures History(w, run + [s]).pushed == History(w, run).pushed
  {
    RunMore(w, run, s);
  }

  lemma Prepend(w: World, run: seq<Step>, s: Step, whole: seq<Step>)
    requires Internal(s) && Finishes(w, run + [s], whole)
    ensures Finishes(w, run, whole)
  {
    OneMore(w, run, s);
    InternalFrom(run, s, whole);
  }

  lemma InternalFrom(run: seq<Step>, s: Step, whole: seq<Step>)
    requires run + [s] <= whole && Internal(s) && AllInternal(whole[|run| + 1..])
    ensures run <= whole && AllInternal(whole[|run|..])
  {
    assert whole[|run|..] == [s] + whole[|run| + 1..];
  }

  lemma NothingLeft(maxCap: nat, outbound: bool, run: seq<Step>)
    requires maxCap >= CREDIT_CAPACITY
    requires var w := Run(Start(maxCap, outbound), run); Quiescent(w) && !w.overflowed
    ensures Finishes(Start(maxCap, outbound), run, run)
  {
    NoWedgeTheorem(maxCap, outbound, run);
  }

  /** No deadlock: from every reachable state the loop, left to itself, has a finite
      continuation that writes every frame ever queued to the TCP socket, in order,
      without overflowing the hub and without the stall probe. */
  lemma {:induction false} DeliveryTheorem(maxCap: nat, outbound: bool, run: seq<Step>)
    requires maxCap >= CREDIT_CAPACITY
    requires !Run(Start(maxCap, outbound), run).overflowed
    ensures exists whole :: Finishes(Start(maxCap, outbound), run, whole)
    decreases Potential(Run(Start(maxCap, outbound), run))
  {
    var w0 := Start(maxCap, outbound);
    var w := Run(w0, run);
    if Quiescent(w) {
      NothingLeft(maxCap, outbound, run);
    } else {
      InvAlways(maxCap, outbound, run);
      ScheduleProgresses(w);
      OneMore(w0, run, Schedule(w));
      DeliveryTheorem(maxCap, outbound, run + [Schedule(w)]);
      var whole :| Finishes(w0, run + [Schedule(w)], whole);
      Prepend(w0, run, Schedule(w), whole);
    }
  }

  // ----- Every continuation delivers it -----------------------------------------------------

  /** A step of the loop itself that changes the world and is not a failed retry. */
  predicate Works(w: World, s: Step) {
    Enabled(w, s) && Internal(s) && !FailedRetry(w, s)
  }

  /** `whole` extends `run` by working steps, chosen in any way at all. */
  ghost predicate Continues(w: World, run: seq<Step>, whole: seq<Step>) {
    run <= whole && forall i :: |run| <= i < |whole| ==> Works(Run(w, whole[..i]), whole[i])
  }

  /** No step of the loop itself can do any work. */
  ghost predicate Stopped(w: World) {
    forall s :: !Works(w, s)
  }

  lemma StoppedMeansQuiescent(w: World)
    requires S.Bounded(w.c) && HubShape(w) && !w.overflowed
    ensures Stopped(w) <==> Quiescent(w)
  {
    if Stopped(w) && !Quiescent(w) {
      ScheduleEnabled(w);
      assert Works(w, Schedule(w));
    }
    forall s | Quiescent(w) ensures !Works(w, s) {
    }
  }

  ghost predicate ContinuesWithin(w: World, run: seq<Step>, whole: seq<Step>) {
    && |whole| - |run| + Potential(Run(w, whole)) <= Potential(Run(w, run))
    && History(w, whole).pushed == History(w, run).pushed
  }

  lemma ContinuesOne(w: World, run: seq<Step>, whole: seq<Step>)
    requires |run| < |whole| && ContinuesWithin(w, run, whole[..|whole| - 1])
    requires Shaped(w, whole[..|whole| - 1]) && Works(Run(w, whole[..|whole| - 1]), whole[|whole| - 1])
    ensures ContinuesWithin(w, run, whole)
  {
    PotentialMoves(Run(w, whole[..|whole| - 1]), whole[|whole| - 1]);
  }

  lemma ShapedAlways(maxCap: nat, outbound: bool, run: seq<Step>)
    requires maxCap >= CREDIT_CAPACITY
    ensures Shaped(Start(maxCap, outbound), run)
  {
    InvAlways(maxCap, outbound, run);
  }

  lemma ContinuesNone(w: World, run: seq<Step>, whole: seq<Step>)
    requires Continues(w, run, whole) && |whole| == |run|
    ensures ContinuesWithin(w, run, whole)
  {
    assert whole == run;
  }

  lemma ContinuesBefore(w: World, run: seq<Step>, whole: seq<Step>)
    requires Continues(w, run, whole) && |run| < |whole|
    ensures var last := |whole| - 1;
            Continues(w, run, whole[..last]) && Works(Run(w, whole[..last]), whole[last])
  {
    var before := whole[..|whole| - 1];
    forall i | |run| <= i < |before| ensures Works(Run(w, before[..i]), before[i]) {
      assert before[..i] == whole[..i];
    }
  }

  lemma {:induction false} ContinuationBound(maxCap: nat, outbound: bool, run: seq<Step>, whole: seq<Step>)
    requires maxCap >= CREDIT_CAPACITY
    requires Continues(Start(maxCap, outbound), run, whole)
    ensures ContinuesWithin(Start(maxCap, outbound), run, whole)
    decreases |whole|
  {
    var w0 := Start(maxCap, outbound);
    if |whole| == |run| {
      ContinuesNone(w0, run, whole);
    } else {
      ContinuesBefore(w0, run, whole);
      ContinuationBound(maxCap, outbound, run, whole[..|whole| - 1]);
      ShapedAlways(maxCap, outbound, whole[..|whole| - 1]);
      ContinuesOne(w0, run, whole);
    }
  }

  /** No livelock and no deadlock under any schedule: however the steps of the loop are
      chosen after `run`, there are at most as many as its potential, and where no further
      one can be chosen every frame ever queued has been written to the TCP socket. */
  lemma EveryScheduleDelivers(maxCap: nat, outbound: bool, run: seq<Step>, whole: seq<Step>)
    requires maxCap >= CREDIT_CAPACITY
    requires Continues(Start(maxCap, outbound), run, whole)
    ensures var w0 := Start(maxCap, outbound);
            var v := Run(w0, whole);
            && |whole| - |run| <= Potential(Run(w0, run))
            && (Stopped(v) && !v.overflowed ==> v.hub.delivered == History(w0, run).pushed)
  {
    var v := Run(Start(maxCap, outbound), whole);
    ContinuationBound(maxCap, outbound, run, whole);
    InvAlways(maxCap, outbound, whole);
    if !v.overflowed {
      StoppedMeansQuiescent(v);
      NoWedgeTheorem(maxCap, outbound, whole);
    }
  }
}
