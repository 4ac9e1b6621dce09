/** What every step of the closed loop keeps, and what that means for whole runs. */
module CreditLoopSafety {
  import opened Basics
  import opened LedgerModel
  import opened HubModel
  import opened CreditLoop
  import C = ClientModel
  import S = ClientSafety

  // ----- The hub's side ------------------------------------------------------------

  ghost predicate HubShape(w: World) {
    && RetryArmed(w.hub)
    && |w.hub.buf| <= WRITE_BUFFER
    && (forall i :: 0 <= i < |w.grants| ==> w.grants[i] >= 1)
  }

  lemma HubShapeKept(w: World, s: Step)
    requires HubShape(w)
    ensures HubShape(Apply(w, s))
  {}

  // ----- Conservation ----------------------------------------------------------------

  ghost predicate Conserved(w: World, l: Log) {
    Credits(w) == CREDIT_CAPACITY + C.Minted(l.t)
  }

  lemma ConservedKept(w: World, l: Log, s: Step)
    requires S.Bounded(w.c) && HubShape(w) && Conserved(w, l)
    ensures Conserved(Apply(w, s), Note(w, l, s))
  {
    if Enabled(w, s) {
      match s
      case Local(a) => S.HeldKept(w.c, l.t, a);
      case RecvGrant => S.HeldKept(w.c, l.t, ActOf(w, s));
      case RecvInit => S.HeldKept(w.c, l.t, ActOf(w, s));
      case _ => HubConserves(w, s);
    }
  }

  /** The hub moves credits about and makes none. */
  lemma HubConserves(w: World, s: Step)
    requires HubShape(w) && Enabled(w, s) && !s.Local? && !s.RecvGrant? && !s.RecvInit?
    ensures Credits(Apply(w, s)) == Credits(w)
  {
    match s
    case HubWrite(backoff, ok) => WriteConserves(w, backoff, ok);
    case HubTick(backoff, ok) => SumAppend(w.grants, Granted(w.hub, backoff, ok));
    case _ =>
  }

  lemma WriteConserves(w: World, backoff: bool, ok: bool)
    requires w.hub.hand != [] && |w.hub.hand| <= 1
    ensures Credits(HubWriteStep(w, backoff, ok)) == Credits(w)
  {
    SumAppend(w.grants, Granted(Written(w.hub), backoff, ok));
  }

  // ----- The byte stream ---------------------------------------------------------------

  ghost predicate Streamed(w: World, l: Log) {
    Stream(w) == l.pushed
  }

  lemma QueueMoves(c: C.Client, a: C.Act)
    ensures C.Enabled(c, a) ==>
      C.Sent(c, a) + C.Apply(c, a).queue == c.queue + (if a.Push? then [a.frame] else [])
  {
  }

  lemma StreamedKept(w: World, l: Log, s: Step)
    requires Streamed(w, l)
    ensures Streamed(Apply(w, s), Note(w, l, s))
  {
    if s.Local? {
      QueueMoves(w.c, s.act);
      ClientStreams(w, s.act);
    } else if (s.RecvGrant? && w.grants != []) || s.RecvInit? {
      QueueMoves(w.c, ActOf(w, s));
    } else if !s.RecvGrant? {
      HubStreams(w, s);
    }
  }

  lemma ClientStreams(w: World, a: C.Act)
    requires C.Enabled(w.c, a)
      ==> C.Sent(w.c, a) + C.Apply(w.c, a).queue == w.c.queue + (if a.Push? then [a.frame] else [])
    ensures Stream(Apply(w, Local(a)))
            == Stream(w) + if Enabled(w, Local(a)) && a.Push? then [a.frame] else []
  {
    if Enabled(w, Local(a)) {
      var front := w.hub.delivered + w.hub.hand + w.hub.buf + w.wire;
      var v := Apply(w, Local(a));
      assert Stream(v) == front + C.Sent(w.c, a) + v.c.queue by {
        Associative(w.hub.delivered + w.hub.hand + w.hub.buf, w.wire, C.Sent(w.c, a));
      }
      Associative(front, C.Sent(w.c, a), v.c.queue);
      Associative(front, w.c.queue, if a.Push? then [a.frame] else []);
    }
  }

  lemma HubStreams(w: World, s: Step)
    requires !s.Local? && !s.RecvGrant? && !s.RecvInit?
    ensures Stream(Apply(w, s)) == Stream(w)
  {
    if Enabled(w, s) {
      var h, v := w.hub, Apply(w, s);
      match s
      case Deliver => Handed(h.delivered + h.hand, h.buf, w.wire);
      case HubTake => Taken(h.delivered, h.buf);
      case HubWrite(_, _) => assert Stream(v) == Stream(w);
      case HubTick(_, _) => assert Stream(v) == Stream(w);
    }
  }

  lemma Handed(front: seq<Frame>, a: seq<Frame>, b: seq<Frame>)
    requires b != []
    ensures front + (a + b[..1]) + b[1..] == front + a + b
  {
    assert b == b[..1] + b[1..];
  }

  lemma Taken(front: seq<Frame>, b: seq<Frame>)
    requires b != []
    ensures front + b[..1] + b[1..] == front + [] + b
  {
    assert b == b[..1] + b[1..];
  }

  // ----- Whole runs ---------------------------------------------------------------------

  function InitialCredits(outbound: bool): nat {
    if outbound then 0 else CREDIT_CAPACITY
  }

  /** Nothing is queued before the connection is active, one that has been active is closed
      with the bonus, and only a closed one forfeits its initial grant. */
  ghost predicate Settled(w: World, l: Log) {
    && (!w.c.phase.active ==> l.pushed == [])
    && (w.c.phase.active && w.c.led.closed ==>
          w.c.closer == C.CloseClear(true) || w.c.closer.CloseBonus? || l.t.bonus != 0)
    && (l.t.forfeited != 0 ==> w.c.led.closed)
  }

  lemma SettledKept(w: World, l: Log, s: Step)
    requires S.Bounded(w.c) && Settled(w, l)
    ensures Settled(Apply(w, s), Note(w, l, s))
  {
    if Enabled(w, s) && (s.Local? || s.RecvGrant? || s.RecvInit?) {
      var a := ActOf(w, s);
      if !a.Close? && !a.CloseCas? && !a.TakeInit? && !a.Activate? {
        S.CloseUntouched(w.c, l.t, a);
      }
    }
  }

  ghost predicate Inv(w: World, l: Log, outbound: bool) {
    && S.Inv(w.c, l.t, InitialCredits(outbound))
    && w.c.led.maxCap >= CREDIT_CAPACITY
    && HubShape(w) && Conserved(w, l) && Streamed(w, l)
    && (l.t.forfeited == 0 ==> Credits(w) >= CREDIT_CAPACITY)
    && (l.t.bonus != 0 ==> Credits(w) - w.initGrant >= REPLENISH_BATCH)
    && Settled(w, l)
    && (w.overflowed ==> l.t.probes + l.t.past > WRITE_BUFFER - CREDIT_CAPACITY - REPLENISH_BATCH)
  }

  lemma FloorKept(w: World, l: Log, outbound: bool, s: Step)
    requires Inv(w, l, outbound)
    ensures Note(w, l, s).t.forfeited == 0 ==> Credits(Apply(w, s)) >= CREDIT_CAPACITY
  {
    ConservedKept(w, l, s);
    if Enabled(w, s) && (s.Local? || s.RecvGrant? || s.RecvInit?) {
      S.LossMeansFull(w.c, l.t, ActOf(w, s));
    }
  }

  /** The teardown bonus stays in the loop, whatever becomes of the initial grant. */
  lemma BonusKept(w: World, l: Log, outbound: bool, s: Step)
    requires Inv(w, l, outbound)
    ensures Note(w, l, s).t.bonus != 0 ==> Credits(Apply(w, s)) - Apply(w, s).initGrant >= REPLENISH_BATCH
  {
    ConservedKept(w, l, s);
    if Enabled(w, s) && (s.Local? || s.RecvGrant? || s.RecvInit?) {
      var a := ActOf(w, s);
      S.LossMeansFull(w.c, l.t, a);
      S.BoundedKept(w.c, a);
      S.BookedKept(w.c, l.t, a, InitialCredits(outbound));
    }
  }

  lemma InvKept(w: World, l: Log, outbound: bool, s: Step)
    requires Inv(w, l, outbound)
    ensures Inv(Apply(w, s), Note(w, l, s), outbound)
  {
    HubShapeKept(w, s);
    ConservedKept(w, l, s);
    StreamedKept(w, l, s);
    FloorKept(w, l, outbound, s);
    BonusKept(w, l, outbound, s);
    SettledKept(w, l, s);
    if Enabled(w, s) && (s.Local? || s.RecvGrant? || s.RecvInit?) {
      S.InvKept(w.c, l.t, InitialCredits(outbound), ActOf(w, s));
      S.LossMeansFull(w.c, l.t, ActOf(w, s));
      S.CapKept(w.c, ActOf(w, s));
    }
  }

  lemma {:induction false} InvAlways(maxCap: nat, outbound: bool, run: seq<Step>)
    requires maxCap >= CREDIT_CAPACITY
    ensures Inv(Run(Start(maxCap, outbound), run), History(Start(maxCap, outbound), run), outbound)
  {
    if run == [] {
      InvAtStart(maxCap, outbound);
    } else {
      var before := run[..|run| - 1];
      InvAlways(maxCap, outbound, before);
      InvKept(Run(Start(maxCap, outbound), before), History(Start(maxCap, outbound), before), outbound, run[|run| - 1]);
    }
  }

  lemma InvAtStart(maxCap: nat, outbound: bool)
    requires maxCap >= CREDIT_CAPACITY
    ensures Inv(Start(maxCap, outbound), Log(C.NOTHING, []), outbound)
  {
    var w := Start(maxCap, outbound);
    S.InvAtStart(InitialCredits(outbound), maxCap);
    assert HubShape(w);
    assert Credits(w) == CREDIT_CAPACITY;
    assert Stream(w) == [];
  }

  /** Closed-loop conservation: for any interleaving and any pattern of failed
      replenish attempts, every credit is accounted for. */
  lemma ConservationTheorem(maxCap: nat, outbound: bool, run: seq<Step>)
    requires maxCap >= CREDIT_CAPACITY
    ensures var w, t := Run(Start(maxCap, outbound), run), History(Start(maxCap, outbound), run).t;
            w.c.led.available + C.DrainerHolds(w.c.drainer) + C.ReaderHolds(w.c.reader)
            + |w.wire| + |w.hub.buf| + |w.hub.hand| + w.hub.consumed + Sum(w.grants) + w.initGrant
            == CREDIT_CAPACITY + t.probes + t.bonus + t.past - t.lost - t.forfeited
  {
    InvAlways(maxCap, outbound, run);
  }

  /** The hub's 128-slot buffer never overflows while probe self-grants and frames
      sent past credits total at most 56, teardown bonus included. */
  lemma BufferSafetyTheorem(maxCap: nat, outbound: bool, run: seq<Step>)
    requires maxCap >= CREDIT_CAPACITY
    requires var t := History(Start(maxCap, outbound), run).t; t.probes + t.past <= 56
    ensures !Run(Start(maxCap, outbound), run).overflowed
  {
    InvAlways(maxCap, outbound, run);
  }

  /** What reaches the TCP socket is at all times a prefix of what was queued: no frame
      is lost, duplicated or reordered anywhere in the loop. */
  lemma StreamTheorem(maxCap: nat, outbound: bool, run: seq<Step>)
    requires maxCap >= CREDIT_CAPACITY
    ensures var w, l := Run(Start(maxCap, outbound), run), History(Start(maxCap, outbound), run);
            && w.hub.delivered <= l.pushed
            && w.hub.delivered + w.hub.hand + w.hub.buf + w.wire + w.c.queue == l.pushed
  {
    InvAlways(maxCap, outbound, run);
  }

  /** Nothing is moving and nothing will move by itself, stall probe apart. */
  predicate Quiescent(w: World) {
    && S.AtRest(w.c) && w.wire == [] && w.hub.buf == [] && w.hub.hand == []
    && w.grants == [] && w.initGrant == 0 && !w.hub.armed
  }

  /** The loop never wedges: every quiescent state has delivered every frame ever queued. It
      holds at least 57 credits, or at least one when an outbound connection was closed
      before its initial grant arrived and lives on its teardown bonus. */
  lemma NoWedgeTheorem(maxCap: nat, outbound: bool, run: seq<Step>)
    requires maxCap >= CREDIT_CAPACITY
    ensures var w, l := Run(Start(maxCap, outbound), run), History(Start(maxCap, outbound), run);
            Quiescent(w) ==>
              && w.hub.delivered == l.pushed
              && (l.t.forfeited == 0 ==> w.c.led.available >= CREDIT_CAPACITY - REPLENISH_BATCH + 1)
              && (l.t.forfeited != 0 && w.c.phase.active ==> w.c.led.available >= 1)
  {
    InvAlways(maxCap, outbound, run);
    var w, l := Run(Start(maxCap, outbound), run), History(Start(maxCap, outbound), run);
    if Quiescent(w) {
      QuiescentStream(w, l, outbound);
    }
  }

  lemma QuiescentStream(w: World, l: Log, outbound: bool)
    requires Inv(w, l, outbound) && Quiescent(w)
    ensures w.hub.delivered + w.c.queue == l.pushed
    ensures Credits(w) == w.c.led.available + w.hub.consumed && w.hub.consumed < REPLENISH_BATCH
    ensures w.c.queue == [] || w.c.led.available == 0
  {
    assert Stream(w) == w.hub.delivered + w.c.queue;
  }

  lemma RunMore(w: World, run: seq<Step>, s: Step)
    ensures Run(w, run + [s]) == Apply(Run(w, run), s)
    ensures History(w, run + [s]) == Note(Run(w, run), History(w, run), s)
  {
    assert (run + [s])[..|run|] == run;
  }
}
