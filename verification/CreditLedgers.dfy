/** The client's creditLedger as the object it is, one uninterrupted call at a time,
    and the connection whose queue it meters.

    `notifications` counts calls of the notify hook. A timer is represented by the
    generation its body captured. */
module CreditLedgers {
  import opened Basics
  import opened LedgerModel

  const TWO_64: int := 0x1_0000_0000_0000_0000

  datatype Timer = NoTimer | Armed(gen: nat)

  /** Two's-complement wrap-around of a 64-bit sum. */
  function Wrap64(x: int): int {
    if x > MAX_INT64 then x - TWO_64 else x
  }

  class CreditLedger {
    const maxCap: nat
    var available: int
    var signaled: bool
    var probeFired: bool
    var probeGen: nat
    var closed: bool
    var initialized: bool
    var unlimited: bool
    var probeTimer: Timer
    var notifications: nat

    ghost predicate Valid()
      reads this
    {
      && 1 <= maxCap <= MAX_INT64
      && (if unlimited then available == MAX_INT64 || available == maxCap else 0 <= available <= maxCap)
      && (probeFired ==> probeTimer != NoTimer)
      && (probeTimer.Armed? ==> probeTimer.gen <= probeGen)
    }

    ghost function View(): Ledger
      reads this
    {
      Ledger(available, maxCap, signaled, probeFired, probeGen, closed)
    }

    constructor (initial: int, maxCap: nat)
      requires 1 <= maxCap <= MAX_INT64
      ensures Valid() && this.maxCap == maxCap
      ensures unlimited <==> initial == MAX_INT64
      ensures !unlimited ==> available == (if initial < 0 then 0 else Min(initial, maxCap))
      ensures !signaled && !probeFired && !closed && !initialized && notifications == 0
    {
      this.maxCap := maxCap;
      unlimited := initial == MAX_INT64;
      available := if initial == MAX_INT64 then MAX_INT64
                   else if initial < 0 then 0 else if initial > maxCap then maxCap else initial;
      signaled, probeFired, probeGen, closed, initialized := false, false, 0, false, false;
      probeTimer, notifications := NoTimer, 0;
    }

    method TryAcquire() returns (ok: bool)
      requires Valid()
      modifies this`available
      ensures Valid()
      ensures ok <==> unlimited || old(available) > 0
      ensures available == if ok && !unlimited then old(available) - 1 else old(available)
    {
      if unlimited { return true; }
      if available <= 0 { return false; }
      available := available - 1;
      return true;
    }

    method Release()
      requires Valid()
      modifies this`available
      ensures Valid()
      ensures View() == if unlimited then old(View()) else AddClamped(old(View()), 1)
    {
      if unlimited || available >= maxCap { return; }
      available := available + 1;
    }

    /** The 64-bit sum may wrap; the result is the saturating sum all the same. */
    method AddCredits(n: int)
      requires Valid()
      modifies this`available
      ensures Valid() && View() == AddClamped(old(View()), n)
    {
      if n <= 0 { return; }
      var k := if n > maxCap then maxCap else n;
      var next := Wrap64(available + k);
      available := if next > maxCap || next < 0 then maxCap else next;
    }

    method ClearStallCycle()
      requires Valid()
      modifies this`probeFired, this`probeGen, this`probeTimer
      ensures Valid() && View() == ClearStall(old(View())) && probeTimer == NoTimer
    {
      probeFired := false;
      probeGen := probeGen + 1;
      probeTimer := NoTimer;
    }

    method Wake()
      requires Valid()
      modifies this`signaled, this`notifications
      ensures Valid() && View() == old(View()).(signaled := true)
      ensures notifications == old(notifications) + if old(signaled) then 0 else 1
    {
      if !signaled {
        signaled := true;
        notifications := notifications + 1;
      }
    }

    /** Ends the stall cycle, adds `n` credits up to the cap, and wakes the drainer
        exactly once. */
    method Replenish(n: int)
      requires Valid()
      modifies this
      ensures Valid()
      ensures unlimited || n <= 0 ==> unchanged(this)
      ensures !unlimited && n > 0 ==>
                && available == Min(old(available) + n, maxCap)
                && signaled && !probeFired && probeGen > old(probeGen) && probeTimer == NoTimer
                && notifications == old(notifications) + (if old(signaled) then 0 else 1)
                && closed == old(closed) && unlimited == old(unlimited) && initialized == old(initialized)
    {
      if unlimited || n <= 0 { return; }
      ClearStallCycle();
      AddCredits(n);
      Wake();
    }

    /** Installs the first grant of a ledger built with initial credits 0, once;
        `panicked` is a second installation. A ledger closed first stays as it is, and one
        built unlimited stays unlimited. */
    method InitCredits(n: int) returns (panicked: bool)
      requires Valid()
      modifies this
      ensures Valid()
      ensures panicked <==> !old(closed) && old(initialized)
      ensures old(closed) || panicked ==> unchanged(this)
      ensures !old(closed) && !panicked ==>
                && initialized && signaled && !probeFired && !closed
                && notifications == old(notifications) + (if old(signaled) then 0 else 1)
                && (unlimited <==> old(unlimited) || n == MAX_INT64)
                && available == (if n == MAX_INT64 then MAX_INT64 else if n <= 0 then old(available)
                                 else Min(old(available) + n, maxCap))
    {
      if closed { return false; }
      if initialized { return true; }
      initialized := true;
      ClearStallCycle();
      if n == MAX_INT64 {
        unlimited := true;
        available := MAX_INT64;
      } else {
        AddCredits(n);
      }
      Wake();
      return false;
    }

    /** Arms the one-shot probe exactly when the ledger is open, empty and unarmed. */
    method ArmStallProbe()
      requires Valid()
      modifies this`probeFired, this`probeGen, this`probeTimer
      ensures Valid() && View() == Arm(old(View()))
      ensures probeTimer == if Armable(old(View())) then Armed(probeGen) else old(probeTimer)
    {
      if closed || available > 0 || probeFired { return; }
      probeFired := true;
      probeGen := probeGen + 1;
      probeTimer := Armed(probeGen);
    }

    /** The timer body of generation `gen`: a stale one changes nothing, a current one
        grants a single credit exactly when the ledger is still empty. */
    method FireProbe(gen: nat)
      requires Valid()
      modifies this
      ensures Valid() && View() == Fire(old(View()), gen)
      ensures notifications == old(notifications) + if Grants(old(View()), gen) && !old(signaled) then 1 else 0
      ensures closed == old(closed) && unlimited == old(unlimited) && probeTimer == old(probeTimer)
      ensures gen != probeGen || old(available) > 0 ==> available == old(available)
    {
      if closed || probeGen != gen { return; }
      if available > 0 {
        probeFired := false;
      } else {
        available := available + 1;
        Wake();
      }
    }

    method NotifyEnqueue()
      requires Valid()
      modifies this
      ensures Valid() && available == old(available) && closed == old(closed) && unlimited == old(unlimited)
      ensures unlimited || available > 0 ==>
                && signaled && notifications == old(notifications) + (if old(signaled) then 0 else 1)
                && probeFired == old(probeFired)
      ensures !unlimited && available == 0 ==>
                && signaled == old(signaled) && notifications == old(notifications)
                && probeFired == (old(probeFired) || !closed)
    {
      if unlimited || available > 0 {
        Wake();
        return;
      }
      if closed { return; }
      ArmStallProbe();
    }

    /** Every exit of a drain turn leaves the flag up exactly when there is something
        to send and something to send it with, and otherwise covers the stall. */
    method DrainYielded(hasMore: bool)
      requires Valid()
      modifies this
      ensures Valid() && available == old(available) && closed == old(closed) && unlimited == old(unlimited)
      ensures signaled <==> hasMore && available > 0
      ensures notifications == old(notifications) + if signaled then 1 else 0
      ensures probeFired == (old(probeFired) || (hasMore && available == 0 && !closed))
    {
      signaled := false;
      if !hasMore { return; }
      if unlimited || available > 0 {
        Wake();
        return;
      }
      ArmStallProbe();
    }

    method Available() returns (n: int)
      requires Valid()
      ensures n == if unlimited then MAX_INT64 else available
    {
      n := if unlimited then MAX_INT64 else available;
    }

    method Close()
      requires Valid()
      modifies this
      ensures Valid() && closed
      ensures old(closed) ==> unchanged(this)
      ensures available == old(available) && signaled == old(signaled) && notifications == old(notifications)
      ensures !old(closed) ==> !probeFired && probeGen > old(probeGen) && probeTimer == NoTimer
    {
      if closed { return; }
      closed := true;
      ClearStallCycle();
    }

    /** At most one call ever grants the bonus. */
    method KickstartAndClose(n: int)
      requires Valid()
      modifies this
      ensures Valid() && closed && unlimited == old(unlimited)
      ensures old(closed) ==> unchanged(this)
      ensures !old(closed) ==>
                && signaled && !probeFired && probeTimer == NoTimer
                && notifications == old(notifications) + (if old(signaled) then 0 else 1)
                && available == if unlimited || n <= 0 then old(available) else Min(old(available) + n, maxCap)
    {
      if closed { return; }
      closed := true;
      ClearStallCycle();
      if n > 0 && !unlimited {
        AddCredits(n);
      }
      Wake();
    }
  }

  /** What enqueueData meets while it waits: a free slot, its timer with what it then reads
      of the connection and its ledger, or the end of the session. `tracked` says that the
      connection is still among the client's connections. */
  datatype Wait = Slot(tracked: bool) | Timeout(tracked: bool, closing: bool, available: int) | Done

  datatype Enqueued = Queued(announced: bool) | NotFound | TimedOut | Cancelled | StillWaiting

  predicate GoesOn(w: Wait) {
    w.Timeout? && w.tracked && !w.closing && w.available <= 0
  }

  /** The first event that ends the wait decides it. */
  function Waited(waits: seq<Wait>): Enqueued {
    if waits == [] then StillWaiting
    else if GoesOn(waits[0]) then Waited(waits[1..])
    else match waits[0]
         case Slot(tracked) => Queued(tracked)
         case Timeout(_, _, _) => TimedOut
         case Done => Cancelled
  }

  /** One clientConn: its outbound queue, its ledger, and what it has written to the
      WebSocket. `quit` is closed by safeClose, `drained` by closeOnDrained. */
  class Connection {
    const credits: CreditLedger
    var queue: seq<Frame>
    var wire: seq<Frame>
    var quit: bool
    var drained: bool

    constructor (credits: CreditLedger)
      ensures this.credits == credits && queue == [] && wire == [] && !quit && !drained
    {
      this.credits := credits;
      queue, wire, quit, drained := [], [], false, false;
    }

    /** enqueueData on a connection whose queue may be gone: waits for a slot through what
        `waits` says happens, in order. A timeout goes on waiting exactly while the
        connection is tracked, not closing and out of credits. The frame is queued at the
        first free slot, announced if the connection is still tracked then, and lost with an
        error if the wait ends otherwise. */
    method Enqueue(f: Frame, hasQueue: bool, waits: seq<Wait>) returns (r: Enqueued)
      requires credits.Valid()
      modifies this`queue, credits
      ensures credits.Valid() && credits.available == old(credits.available)
      ensures r == if hasQueue then Waited(waits) else NotFound
      ensures queue == if r.Queued? then old(queue) + [f] else old(queue)
      ensures r != Queued(true) ==> unchanged(credits)
      ensures r == Queued(true) ==>
                && (credits.available > 0 ==> credits.signaled)
                && (credits.available == 0 ==> credits.closed || credits.probeFired)
    {
      if !hasQueue { return NotFound; }
      var i := 0;
      while i < |waits| && GoesOn(waits[i])
        invariant i <= |waits| && Waited(waits) == Waited(waits[i..])
        invariant unchanged(this) && unchanged(credits)
      {
        i := i + 1;
      }
      if i == |waits| { return StillWaiting; }
      match waits[i]
      case Slot(tracked) =>
        queue := queue + [f];
        if tracked {
          credits.NotifyEnqueue();
        }
        return Queued(tracked);
      case Timeout(_, _, _) => return TimedOut;
      case Done => return Cancelled;
    }

    /** drainConnectionQueue: sends the oldest frames, as many as the turn, the credits
        and the queue allow, spends exactly that many credits, and leaves the ledger
        ready for whatever remains. The write of frame number `failAt` of this turn
        fails, if it is reached: its credit comes back and the drainer is not woken. */
    method Drain(maxMessages: nat, failAt: nat) returns (failed: bool)
      requires credits.Valid()
      modifies this`queue, this`wire, this`drained, credits
      ensures credits.Valid() && credits.unlimited == old(credits.unlimited)
      ensures var room := Room(old(credits.unlimited), old(credits.available), maxMessages, |old(queue)|);
              var k := Min(failAt, room);
              && failed == (failAt < room)
              && wire == old(wire) + old(queue)[..k]
              && queue == old(queue)[if failed then k + 1 else k..]
              && credits.available == if credits.unlimited then old(credits.available) else old(credits.available) - k
      ensures failed ==> credits.signaled == old(credits.signaled) && credits.probeFired == old(credits.probeFired)
      ensures !failed ==> (credits.signaled <==> queue != [] && credits.available > 0)
      ensures !failed && queue != [] && credits.available == 0 && !credits.closed ==> credits.probeFired
      ensures drained == (old(drained) || (quit && queue == []))
    {
      failed := SendTurn(maxMessages, failAt);
      if !failed {
        credits.DrainYielded(queue != []);
      }
      if quit && queue == [] {
        drained := true;
      }
    }

    method SendTurn(maxMessages: nat, failAt: nat) returns (failed: bool)
      requires credits.Valid()
      modifies this`queue, this`wire, credits`available
      ensures credits.Valid()
      ensures var room := Room(credits.unlimited, old(credits.available), maxMessages, |old(queue)|);
              var k := Min(failAt, room);
              && failed == (failAt < room)
              && wire == old(wire) + old(queue)[..k]
              && queue == old(queue)[if failed then k + 1 else k..]
              && credits.available == if credits.unlimited then old(credits.available) else old(credits.available) - k
    {
      ghost var start, before := queue, credits.available;
      var i := 0;
      while i < maxMessages
        invariant 0 <= i <= maxMessages && i <= |start| && i <= failAt
        invariant credits.Valid()
        invariant queue == start[i..] && wire == old(wire) + start[..i]
        invariant credits.available == if credits.unlimited then before else before - i
      {
        var ok := credits.TryAcquire();
        if !ok {
          return false;
        }
        if queue == [] {
          credits.Release();
          return false;
        }
        var msg := queue[0];
        queue := queue[1..];
        if i == failAt {
          credits.Release();
          return true;
        }
        wire := wire + [msg];
        i := i + 1;
      }
      return false;
    }
  }

  /** How many frames a turn can send if every write succeeds. */
  function Room(unlimited: bool, available: int, maxMessages: nat, queued: nat): int {
    Min(queued, if unlimited then maxMessages else Min(maxMessages, available))
  }
}
