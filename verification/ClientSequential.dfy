/** The fine-grained client actions, run without interruption, amount to the whole
    calls that `CreditLedgers` states. */
module ClientSequential {
  import opened Basics
  import opened LedgerModel
  import opened ClientModel
  import opened ClientSafety
  import L = CreditLedgers

  /** Actions the drainer can still take in this turn, at most. */
  function Rank(d: Drainer): nat {
    match d
    case Idle => 0
    case LeavingPull => 1
    case LeavingEmpty => 2
    case Leaving => 3
    case Waking => 4
    case Arming => 4
    case ArmGate => 5
    case Weighing(_) => 6
    case Checking(_) => 7
    case Clearing(_) => 8
    case Returning(_) => 9
    case Trying(sent) => if sent < DRAIN_TURN then 10 + 2 * (DRAIN_TURN - sent) else 10
    case Holding(sent) => if sent < DRAIN_TURN then 9 + 2 * (DRAIN_TURN - sent) else 11
  }

  /** The drainer alone, until its turn is over. */
  function Turn(c: Client): Client
    decreases Rank(c.drainer)
  {
    if c.drainer.Idle? then c else Turn(DrainAct(c))
  }

  /** The sending part of a turn: `k` frames gone, `k` credits spent. */
  function AfterSends(c: Client, k: nat): Client
    requires c.drainer.Trying? && k <= |c.queue|
  {
    c.(led := c.led.(available := c.led.available - k), queue := c.queue[k..],
       drainer := Clearing(c.drainer.sent + k))
  }

  function TurnRoom(c: Client): int
    requires c.drainer.Trying?
  {
    L.Room(false, c.led.available, if c.drainer.sent < DRAIN_TURN then DRAIN_TURN - c.drainer.sent else 0, |c.queue|)
  }

  /** Sending one frame and going on is the whole of what was to be sent. */
  lemma SendsAfterOne(c: Client)
    requires Sound(c.led) && c.drainer.Trying? && c.drainer.sent < DRAIN_TURN && c.led.available > 0 && c.queue != []
    ensures var e := DrainAct(DrainAct(c));
            && e.drainer == Trying(c.drainer.sent + 1) && Sound(e.led) && TurnRoom(c) == TurnRoom(e) + 1
            && (0 <= TurnRoom(e) <= |e.queue| ==> AfterSends(c, TurnRoom(c)) == AfterSends(e, TurnRoom(e)))
  {
    var e := DrainAct(DrainAct(c));
    assert e.queue == c.queue[1..];
    if 0 <= TurnRoom(e) <= |e.queue| {
      assert c.queue[1..][TurnRoom(e)..] == c.queue[TurnRoom(e) + 1..];
    }
  }

  lemma TurnTwice(c: Client)
    requires !c.drainer.Idle? && !DrainAct(c).drainer.Idle?
    ensures Turn(c) == Turn(DrainAct(DrainAct(c)))
  {
    assert Turn(c) == Turn(DrainAct(c));
  }

  lemma {:induction false} TurnSends(c: Client)
    requires Sound(c.led) && c.drainer.Trying? && c.drainer.sent <= DRAIN_TURN
    ensures 0 <= TurnRoom(c) <= |c.queue|
    ensures Turn(c) == Turn(AfterSends(c, TurnRoom(c)))
    decreases DRAIN_TURN - c.drainer.sent
  {
    var d := DrainAct(c);
    if d.drainer.Holding? && c.queue != [] {
      SendsAfterOne(c);
      TurnTwice(c);
      TurnSends(DrainAct(d));
    } else if d.drainer.Holding? {
      TurnTwice(c);
      assert DrainAct(DrainAct(d)) == AfterSends(c, 0);
    } else {
      assert d == AfterSends(c, 0);
    }
  }

  lemma TurnYields(c: Client)
    requires Sound(c.led) && c.drainer.Clearing?
    ensures var e := Turn(c);
            && e.drainer.Idle? && e.queue == c.queue
            && e.led.available == c.led.available && e.led.closed == c.led.closed
            && (e.led.signaled <==> c.queue != [] && c.led.available > 0)
            && e.notifies == c.notifies + (if e.led.signaled then 1 else 0)
            && e.led.probeFired == (c.led.probeFired || (c.queue != [] && c.led.available == 0 && !c.led.closed))
  {
    var d := DrainAct(DrainAct(c));
    assert Turn(c) == Turn(DrainAct(c)) == Turn(d);
    if d.drainer.Weighing? {
      var e := DrainAct(d);
      assert Turn(d) == Turn(e);
      if e.drainer.ArmGate? {
        assert Turn(e) == Turn(DrainAct(e));
        if DrainAct(e).drainer.Arming? {
          TurnLeaves(DrainAct(DrainAct(e)));
        } else {
          TurnLeaves(DrainAct(e));
        }
      } else {
        TurnLeaves(DrainAct(e));
      }
    } else {
      TurnLeaves(d);
    }
  }

  lemma TurnLeaves(c: Client)
    requires c.drainer.Leaving?
    ensures Turn(c) == c.(drainer := Idle)
  {
    var d := DrainAct(c);
    assert Turn(c) == Turn(d);
    if d.drainer.LeavingEmpty? {
      var e := DrainAct(d);
      assert Turn(d) == Turn(e);
      if e.drainer.LeavingPull? {
        assert DrainAct(e) == c.(drainer := Idle);
        assert Turn(e) == Turn(DrainAct(e));
      }
    }
  }

  /** An uninterrupted drain turn of the automaton does what one call of
      `Connection.Drain` with working writes promises: the same frames leave, the same
      credits are spent, and the flag and the probe end up the same. */
  lemma TurnIsOneCall(c: Client)
    requires Sound(c.led) && c.drainer == Trying(0)
    ensures var e, k := Turn(c), L.Room(false, c.led.available, DRAIN_TURN, |c.queue|);
            && 0 <= k <= |c.queue|
            && e.drainer.Idle? && e.queue == c.queue[k..]
            && e.led.available == c.led.available - k
            && (e.led.signaled <==> e.queue != [] && e.led.available > 0)
            && (e.queue != [] && e.led.available == 0 && !e.led.closed ==> e.led.probeFired)
  {
    TurnSends(c);
    TurnYields(AfterSends(c, TurnRoom(c)));
  }

  /** Replenish's three actions after the grant has been taken. */
  lemma ReplenishActs(c: Client, n: nat)
    requires Bounded(c) && c.reader == ReplenishClear(n) && n >= 1
    ensures var e := Apply(Apply(Apply(c, Read), Read), Read);
            && e.reader.Resting?
            && e.led == c.led.(available := Min(c.led.available + n, c.led.maxCap), signaled := true,
                               probeFired := false, probeGen := c.led.probeGen + 1)
            && e.notifies == c.notifies + if c.led.signaled then 0 else 1
  {
  }

  lemma RunOfFour(c: Client, a: Act, b: Act)
    ensures Run(c, [a, b, b, b]) == Apply(Apply(Apply(Apply(c, a), b), b), b)
  {
    assert [a, b, b, b][..3] == [a, b, b] && [a, b, b][..2] == [a, b] && [a, b][..1] == [a] && [a][..0] == [];
    assert Run(c, [a]) == Apply(c, a);
    assert Run(c, [a, b]) == Apply(Apply(c, a), b);
    assert Run(c, [a, b, b]) == Apply(Apply(Apply(c, a), b), b);
  }

  /** Receiving a grant and running Replenish's three actions in a row is one call of
      `CreditLedger.Replenish`. */
  lemma ReplenishIsOneCall(c: Client, n: nat)
    requires Bounded(c) && c.reader.Resting? && 1 <= n <= c.led.maxCap
    ensures var e := Run(c, [TakeGrant(n), Read, Read, Read]);
            && e.reader.Resting?
            && e.led == c.led.(available := Min(c.led.available + n, c.led.maxCap), signaled := true,
                               probeFired := false, probeGen := c.led.probeGen + 1)
            && e.notifies == c.notifies + if c.led.signaled then 0 else 1
  {
    RunOfFour(c, TakeGrant(n), Read);
    ReplenishActs(Apply(c, TakeGrant(n)), n);
  }
}
