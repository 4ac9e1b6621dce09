/** What every action of the client keeps, whatever grants the environment sends. */
module ClientSafety {
  import opened LedgerModel
  import opened ClientModel

  // ----- Ledger bounds ---------------------------------------------------------

  ghost predicate Bounded(c: Client) {
    && Sound(c.led)
    && (c.led.closed <==> !c.closer.Open?)
    && (c.reader.ReplenishClear? || c.reader.ReplenishAdd? ==> c.reader.n >= 1)
  }

  lemma BoundedKept(c: Client, a: Act)
    requires Bounded(c)
    ensures Bounded(Apply(c, a))
  {
    match a
    case Drain => DrainBounded(c);
    case Read =>
    case _ =>
  }

  lemma DrainBounded(c: Client)
    requires Bounded(c)
    ensures Bounded(DrainAct(c))
  {
    match c.drainer
    case Trying(_) =>
    case Returning(_) =>
    case _ =>
  }

  // ----- Credit accounting -------------------------------------------------------

  /** Every action accounts for every credit it touches. */
  lemma HeldKept(c: Client, t: Tally, a: Act)
    requires Bounded(c)
    ensures Held(Apply(c, a)) + |Sent(c, a)| - Minted(Note(c, t, a))
            == Held(c) + Received(c, a) - Minted(t)
  {
    match a
    case Drain => DrainHeld(c, t);
    case Read => ReadHeld(c, t);
    case Close => CloseHeld(c, t);
    case _ =>
  }

  lemma DrainHeld(c: Client, t: Tally)
    requires Bounded(c)
    ensures Held(DrainAct(c)) + |Sent(c, Drain)| - Minted(NoteDrain(c, t)) == Held(c) - Minted(t)
  {
    match c.drainer
    case Trying(_) =>
    case Holding(_) =>
    case Returning(_) =>
    case LeavingPull =>
    case _ =>
  }

  lemma ReadHeld(c: Client, t: Tally)
    requires Bounded(c)
    ensures Held(ReadAct(c)) - Minted(NoteRead(c, t)) == Held(c) - Minted(t)
  {}

  lemma CloseHeld(c: Client, t: Tally)
    requires Bounded(c)
    ensures Held(CloseAct(c)) - Minted(NoteClose(c, t)) == Held(c) - Minted(t)
  {}

  /** Credits are only ever swallowed by a ledger that is then at its cap, by a grant cut
      down to that cap, or with the grant of a connection that closed first. */
  lemma LossMeansFull(c: Client, t: Tally, a: Act)
    requires Bounded(c)
    ensures var u := Note(c, t, a);
            && t.lost <= u.lost && t.forfeited <= u.forfeited
            && t.probes <= u.probes && t.bonus <= u.bonus && t.past <= u.past
            && (t.lost < u.lost && !a.TakeGrant? ==> Apply(c, a).led.available == c.led.maxCap)
            && (t.lost < u.lost && a.TakeGrant? ==> ReaderHolds(Apply(c, a).reader) == c.led.maxCap)
            && (t.lost < u.lost ==> Held(Apply(c, a)) >= c.led.maxCap)
  {
    match a
    case Drain =>
    case Read =>
    case _ =>
  }

  /** Credits spent never outrun credits granted, and the teardown bonus is one batch. */
  ghost predicate Booked(c: Client, t: Tally, initial: nat) {
    && c.led.available + t.acquired
       <= initial + t.replenished + t.installed + t.bonus + t.probes + t.released
    && t.bonus == (if t.bonus == 0 then 0 else REPLENISH_BATCH)
    && (t.bonus != 0 ==> c.closer.CloseWake? || c.closer.Finished?)
  }

  lemma DrainBooked(c: Client, t: Tally, initial: nat)
    requires Bounded(c) && Booked(c, t, initial)
    ensures Booked(Apply(c, Drain), Note(c, t, Drain), initial)
  {}

  lemma ReadBooked(c: Client, t: Tally, initial: nat)
    requires Bounded(c) && Booked(c, t, initial)
    ensures Booked(Apply(c, Read), Note(c, t, Read), initial)
  {}

  lemma BookedKept(c: Client, t: Tally, a: Act, initial: nat)
    requires Bounded(c) && Booked(c, t, initial)
    ensures Booked(Apply(c, a), Note(c, t, a), initial)
  {
    match a
    case Drain => DrainBooked(c, t, initial);
    case Read => ReadBooked(c, t, initial);
    case _ =>
  }

  /** Only closing, activating and the initial grant touch how a connection is closed. */
  lemma CloseUntouched(c: Client, t: Tally, a: Act)
    requires !a.Close? && !a.CloseCas? && !a.TakeInit? && !a.Activate?
    ensures var d, u := Apply(c, a), Note(c, t, a);
            && d.closer == c.closer && d.led.closed == c.led.closed && d.phase.active == c.phase.active
            && u.bonus == t.bonus && u.forfeited == t.forfeited
  {
    match a
    case Drain => assert Apply(c, a).closer == c.closer && Apply(c, a).led.closed == c.led.closed;
    case Read => assert Apply(c, a).closer == c.closer && Apply(c, a).led.closed == c.led.closed;
    case _ =>
  }

  // ----- Wakeups -------------------------------------------------------------------

  /** The drainer has been woken and has not yet cleared the flag. */
  predicate BeforeClear(d: Drainer) {
    d.Trying? || d.Holding? || d.Returning? || d.Clearing?
  }

  /** Exactly one live wakeup when the flag is up, none when it is down. */
  ghost predicate OneWakeup(c: Client) {
    c.tokens + c.notifies + (if BeforeClear(c.drainer) then 1 else 0) == if c.led.signaled then 1 else 0
  }

  /** Some actor has yet to reach its own compare-and-swap on the flag. */
  predicate WakerPending(c: Client) {
    || c.prod.load > 0 || c.prod.wake > 0
    || c.reader.ReaderWake? || c.closer.CloseWake?
    || c.drainer.Checking? || c.drainer.Weighing? || c.drainer.Waking?
  }

  ghost predicate NoLostWakeup(c: Client) {
    c.queue != [] && c.led.available > 0 ==> c.led.signaled || WakerPending(c)
  }

  lemma WakeupKept(c: Client, a: Act)
    requires Bounded(c) && OneWakeup(c) && NoLostWakeup(c)
    ensures OneWakeup(Apply(c, a)) && NoLostWakeup(Apply(c, a))
  {
    match a
    case Drain => DrainWakeup(c);
    case Read => ReadWakeup(c);
    case FireProbe(g) => FireWakeup(c, g);
    case _ =>
  }

  lemma ReadWakeup(c: Client)
    requires Bounded(c) && OneWakeup(c) && NoLostWakeup(c)
    ensures OneWakeup(ReadAct(c)) && NoLostWakeup(ReadAct(c))
  {}

  lemma FireWakeup(c: Client, g: nat)
    requires Bounded(c) && OneWakeup(c) && NoLostWakeup(c)
    ensures OneWakeup(Apply(c, FireProbe(g))) && NoLostWakeup(Apply(c, FireProbe(g)))
  {}

  lemma DrainWakeup(c: Client)
    requires Bounded(c) && OneWakeup(c) && NoLostWakeup(c)
    ensures OneWakeup(DrainAct(c)) && NoLostWakeup(DrainAct(c))
  {
    match c.drainer
    case Idle =>
    case Trying(_) =>
    case Clearing(_) =>
    case Waking =>
    case _ =>
  }

  // ----- The stall probe -------------------------------------------------------------

  ghost predicate ProbeOnce(c: Client, t: Tally) {
    && (forall g :: g in c.timers ==> g <= c.led.probeGen)
    && (!c.led.probeFired ==> c.led.probeGen !in c.timers && t.cycleProbes == 0)
    && t.cycleProbes <= 1
    && (t.cycleProbes == 1 ==> c.led.probeGen !in c.timers)
    && (c.led.probeFired && !c.led.closed ==> c.led.probeGen in c.timers || t.cycleProbes == 1)
    && t.probes <= t.clears + t.cycleProbes
  }

  lemma ProbeKept(c: Client, t: Tally, a: Act)
    requires ProbeOnce(c, t)
    ensures ProbeOnce(Apply(c, a), Note(c, t, a))
  {
    match a
    case Drain => DrainProbe(c, t);
    case FireProbe(g) => FireProbeKept(c, t, g);
    case ProducerArm => ArmProbeKept(c, t);
    case Read => ReadProbeKept(c, t);
    case _ =>
  }

  lemma ReadProbeKept(c: Client, t: Tally)
    requires ProbeOnce(c, t)
    ensures ProbeOnce(ReadAct(c), NoteRead(c, t))
  {}

  lemma FireProbeKept(c: Client, t: Tally, g: nat)
    requires ProbeOnce(c, t)
    ensures ProbeOnce(Apply(c, FireProbe(g)), Note(c, t, FireProbe(g)))
  {}

  lemma ArmProbeKept(c: Client, t: Tally)
    requires ProbeOnce(c, t)
    ensures ProbeOnce(Apply(c, ProducerArm), Note(c, t, ProducerArm))
  {}

  lemma DrainProbe(c: Client, t: Tally)
    requires ProbeOnce(c, t)
    ensures ProbeOnce(DrainAct(c), NoteDrain(c, t))
  {}

  /** Some actor has yet to decide whether to wake the drainer or arm the probe. */
  predicate RecoveryPending(c: Client) {
    || c.prod.load > 0 || c.prod.closedCheck > 0 || c.prod.gate > 0 || c.prod.arm > 0
    || c.reader.ReplenishAdd? || c.reader.InitAdd? || c.reader.ReaderWake?
    || c.drainer.Checking? || c.drainer.Weighing? || c.drainer.ArmGate? || c.drainer.Arming?
  }

  ghost predicate StallCovered(c: Client) {
    c.queue != [] && c.led.available == 0 && !c.led.closed && !c.led.signaled ==>
      c.led.probeFired || RecoveryPending(c)
  }

  lemma StallKept(c: Client, a: Act)
    requires Bounded(c) && OneWakeup(c) && StallCovered(c)
    ensures StallCovered(Apply(c, a))
  {}

  // ----- Whole runs --------------------------------------------------------------------

  ghost predicate Inv(c: Client, t: Tally, initial: nat) {
    && Bounded(c) && Booked(c, t, initial)
    && OneWakeup(c) && NoLostWakeup(c)
    && ProbeOnce(c, t) && StallCovered(c)
  }

  lemma InvKept(c: Client, t: Tally, initial: nat, a: Act)
    requires Inv(c, t, initial)
    ensures Inv(Apply(c, a), Note(c, t, a), initial)
  {
    BoundedKept(c, a);
    BookedKept(c, t, a, initial);
    WakeupKept(c, a);
    ProbeKept(c, t, a);
    StallKept(c, a);
  }

  lemma {:induction false} InvAlways(initial: nat, maxCap: nat, acts: seq<Act>)
    requires initial <= maxCap && 1 <= maxCap
    ensures Inv(Run(Fresh(initial, maxCap), acts), History(Fresh(initial, maxCap), acts), initial)
  {
    if acts == [] {
      InvAtStart(initial, maxCap);
    } else {
      var before := acts[..|acts| - 1];
      InvAlways(initial, maxCap, before);
      InvKept(Run(Fresh(initial, maxCap), before), History(Fresh(initial, maxCap), before), initial, acts[|acts| - 1]);
    }
  }

  lemma InvAtStart(initial: nat, maxCap: nat)
    requires initial <= maxCap && 1 <= maxCap
    ensures Inv(Fresh(initial, maxCap), NOTHING, initial)
  {}

  /** No wakeup is lost or duplicated: `signaled` is up exactly when one wakeup is in
      flight, and queued frames with spendable credits always have one coming. */
  lemma WakeupTheorem(initial: nat, maxCap: nat, acts: seq<Act>)
    requires initial <= maxCap && 1 <= maxCap
    ensures var c := Run(Fresh(initial, maxCap), acts);
            && c.tokens + c.notifies + (if BeforeClear(c.drainer) then 1 else 0) == (if c.led.signaled then 1 else 0)
            && (c.queue != [] && c.led.available > 0 ==> c.led.signaled || WakerPending(c))
  {
    InvAlways(initial, maxCap, acts);
  }

  /** Self-granting is bounded: one probe credit per stall cycle, one teardown batch
      per ledger, and so never more spent than granted plus one credit per cycle. */
  lemma SelfGrantTheorem(initial: nat, maxCap: nat, acts: seq<Act>)
    requires initial <= maxCap && 1 <= maxCap
    ensures var c, t := Run(Fresh(initial, maxCap), acts), History(Fresh(initial, maxCap), acts);
            && 0 <= c.led.available <= maxCap
            && t.cycleProbes <= 1 && t.probes <= t.clears + 1
            && (t.bonus == 0 || t.bonus == REPLENISH_BATCH)
            && t.acquired - t.released <= initial + t.replenished + t.installed + t.bonus + t.clears + 1
  {
    InvAlways(initial, maxCap, acts);
    CapNeverMoves(Fresh(initial, maxCap), acts);
  }

  lemma {:induction false} CapNeverMoves(c: Client, acts: seq<Act>)
    ensures Run(c, acts).led.maxCap == c.led.maxCap
  {
    if acts != [] {
      CapNeverMoves(c, acts[..|acts| - 1]);
      CapKept(Run(c, acts[..|acts| - 1]), acts[|acts| - 1]);
    }
  }

  lemma CapKept(c: Client, a: Act)
    ensures Apply(c, a).led.maxCap == c.led.maxCap
  {
    match a
    case Drain => match c.drainer { case Trying(_) => case Returning(_) => case _ => }
    case Read =>
    case Close =>
    case _ =>
  }

  /** Any stretch of a run in which no stall cycle ends holds at most one self-grant. */
  lemma OneProbePerCycle(initial: nat, maxCap: nat, acts: seq<Act>, more: seq<Act>)
    requires initial <= maxCap && 1 <= maxCap
    requires History(Fresh(initial, maxCap), acts + more).clears == History(Fresh(initial, maxCap), acts).clears
    ensures History(Fresh(initial, maxCap), acts + more).probes <= History(Fresh(initial, maxCap), acts).probes + 1
  {
    CycleAccount(Fresh(initial, maxCap), acts, more);
    InvAlways(initial, maxCap, acts + more);
  }

  /** From one tally to a later one, self-grants outside the current stall cycle only
      change where a cycle ended. */
  predicate CycleLater(t: Tally, u: Tally) {
    t.clears <= u.clears && (t.clears == u.clears ==> u.probes - u.cycleProbes == t.probes - t.cycleProbes)
  }

  lemma CycleNote(c: Client, t: Tally, a: Act)
    ensures CycleLater(t, Note(c, t, a))
  {}

  lemma CycleStep(c: Client, acts: seq<Act>)
    requires acts != []
    ensures CycleLater(History(c, acts[..|acts| - 1]), History(c, acts))
  {
    CycleNote(Run(c, acts[..|acts| - 1]), History(c, acts[..|acts| - 1]), acts[|acts| - 1]);
  }

  lemma CycleChain(t: Tally, u: Tally, v: Tally)
    requires CycleLater(t, u) && CycleLater(u, v)
    ensures CycleLater(t, v)
  {}

  lemma {:induction false} CycleAccount(c: Client, acts: seq<Act>, more: seq<Act>)
    ensures CycleLater(History(c, acts), History(c, acts + more))
  {
    if more == [] {
      assert acts + more == acts;
    } else {
      var all := acts + more;
      assert all[..|all| - 1] == acts + more[..|more| - 1];
      CycleAccount(c, acts, more[..|more| - 1]);
      CycleStep(c, all);
      CycleChain(History(c, acts), History(c, all[..|all| - 1]), History(c, all));
    }
  }

  /** No goroutine is between two of its actions. */
  predicate AtRest(c: Client) {
    && c.prod == Producers(0, 0, 0, 0, 0) && c.drainer.Idle? && c.reader.Resting?
    && (c.closer.Open? || c.closer.Finished?) && c.tokens == 0 && c.notifies == 0
  }

  /** A stalled connection at rest is always covered by the probe: its timer is
      pending, or this cycle's single self-grant has been spent. */
  lemma StallTheorem(initial: nat, maxCap: nat, acts: seq<Act>)
    requires initial <= maxCap && 1 <= maxCap
    ensures var c, t := Run(Fresh(initial, maxCap), acts), History(Fresh(initial, maxCap), acts);
            AtRest(c) && c.queue != [] && c.led.available == 0 && !c.led.closed ==>
              c.led.probeFired && (c.led.probeGen in c.timers || t.cycleProbes == 1)
  {
    InvAlways(initial, maxCap, acts);
  }
}
