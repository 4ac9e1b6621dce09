/** The hub's bufferedConn: a bounded channel in front of a TCP connection, and the
    drain goroutine that empties it and returns credits. */
module BufferedConns {
  import opened Basics
  import opened LedgerModel
  import opened HubModel

  datatype WriteResult = Accepted | Closed | Full

  /** One outcome of tryReplenish: the retry backoff is still running, and whether the
      grant would fit the control lane. */
  datatype Attempt = Attempt(backoff: bool, ok: bool)

  /** What the drain goroutine meets at its select. A frame may first wait at the
      bandwidth gate, during which the retry timer fires as listed in `waits`. */
  datatype Event =
    | Arrive(frame: Frame)
    | Data(waits: seq<Attempt>, after: Attempt)
    | DataFails(waits: seq<Attempt>)
    | Retry(attempt: Attempt)
    | Stop(flushed: nat)
    | StopInGate(waits: seq<Attempt>, flushed: nat)

  class BufferedConn {
    var writeCh: seq<Frame>
    var hand: seq<Frame>
    var tcp: seq<Frame>
    var consumed: nat
    var armed: bool
    var attempted: bool
    var streak: nat
    var grants: seq<nat>
    var quit: bool

    ghost function View(): Hub
      reads this
    {
      Hub(writeCh, hand, tcp, consumed, armed, attempted, streak)
    }

    /** Every frame drain has written is either counted or has been returned in a grant
        of at least one batch, and a due batch always has its retry timer running. */
    ghost predicate Valid()
      reads this
    {
      && |writeCh| <= WRITE_BUFFER
      && RetryArmed(View())
      && (forall i :: 0 <= i < |grants| ==> grants[i] >= REPLENISH_BATCH)
    }

    constructor ()
      ensures Valid() && View() == FRESH_HUB && grants == [] && !quit
    {
      writeCh, hand, tcp, consumed, armed, attempted, streak := [], [], [], 0, false, false, 0;
      grants, quit := [], false;
    }

    method Write(f: Frame) returns (r: WriteResult)
      requires Valid()
      modifies this`writeCh
      ensures Valid()
      ensures r == if quit then Closed else if |old(writeCh)| < WRITE_BUFFER then Accepted else Full
      ensures writeCh == if r.Accepted? then old(writeCh) + [f] else old(writeCh)
    {
      if quit { return Closed; }
      if |writeCh| >= WRITE_BUFFER { return Full; }
      writeCh := writeCh + [f];
      return Accepted;
    }

    method TryReplenish(a: Attempt)
      modifies this`consumed, this`armed, this`attempted, this`streak, this`grants
      ensures View() == HubModel.TryReplenish(old(View()), a.backoff, a.ok)
      ensures grants == old(grants) + Granted(old(View()), a.backoff, a.ok)
      ensures Sum(grants) + consumed == Sum(old(grants)) + old(consumed)
    {
      if consumed == 0 {
        armed := false;
      } else if attempted && a.backoff {
        armed := true;
      } else if a.ok {
        SumAppend(grants, [consumed]);
        grants := grants + [consumed];
        consumed, attempted, streak, armed := 0, false, 0, false;
      } else {
        attempted, streak, armed := true, streak + 1, true;
      }
    }

    /** The gate-wait loop: replenish retries go on while the frame waits. */
    method GateWait(waits: seq<Attempt>)
      requires Valid()
      modifies this`consumed, this`armed, this`attempted, this`streak, this`grants
      ensures Valid()
      ensures Sum(grants) + consumed == Sum(old(grants)) + old(consumed)
    {
      for i := 0 to |waits|
        invariant Valid() && Sum(grants) + consumed == Sum(old(grants)) + old(consumed)
      {
        if armed {
          TryReplenish(waits[i]);
        }
      }
    }

    /** Best-effort flush at teardown: `n` writes succeed before one fails. */
    method FlushRemaining(n: nat)
      requires |writeCh| <= WRITE_BUFFER
      modifies this`writeCh, this`tcp
      ensures old(tcp) <= tcp <= old(tcp) + old(writeCh)
      ensures |tcp| == |old(tcp)| + Min(n, |old(writeCh)|)
      ensures |writeCh| <= WRITE_BUFFER
    {
      ghost var all := writeCh;
      var i := 0;
      while writeCh != []
        invariant 0 <= i <= |all| && i <= n
        invariant writeCh == all[i..] && tcp == old(tcp) + all[..i]
        decreases |writeCh|
      {
        var f := writeCh[0];
        writeCh := writeCh[1..];
        if i == n {
          return;
        }
        tcp := tcp + [f];
        i := i + 1;
      }
    }

    method Take()
      requires Valid() && hand == [] && writeCh != []
      modifies this`hand, this`writeCh
      ensures Valid() && hand == old(writeCh)[..1] && writeCh == old(writeCh)[1..]
    {
      hand := writeCh[..1];
      writeCh := writeCh[1..];
    }

    /** A successful TCP write and what drain does right after it. */
    method Wrote(a: Attempt)
      requires Valid() && |hand| == 1
      modifies this`hand, this`tcp, this`consumed, this`armed, this`attempted, this`streak, this`grants
      ensures Valid() && hand == [] && tcp == old(tcp) + old(hand)
      ensures Sum(grants) + consumed == Sum(old(grants)) + old(consumed) + 1
    {
      tcp := tcp + hand;
      hand := [];
      consumed := consumed + 1;
      if consumed >= REPLENISH_BATCH {
        TryReplenish(a);
      }
    }

    /** One round of drain's select. An event that is not ready, such as data from an
        empty channel or a disarmed timer, does not happen. */
    method Round(e: Event) returns (stop: bool)
      requires Valid() && hand == [] && !e.Arrive?
      modifies this
      ensures !stop ==> Valid() && hand == [] && quit == old(quit)
      ensures !stop ==> tcp + writeCh == old(tcp) + old(writeCh)
      ensures !stop ==> Sum(grants) + consumed - |tcp| == Sum(old(grants)) + old(consumed) - |old(tcp)|
      ensures old(tcp) <= tcp <= old(tcp) + old(writeCh)
      ensures stop ==> quit
    {
      stop := false;
      if e.Retry? {
        if armed {
          TryReplenish(e.attempt);
        }
      } else if e.Stop? {
        FlushRemaining(e.flushed);
        quit, stop := true, true;
      } else if writeCh != [] {
        Take();
        GateWait(e.waits);
        if e.Data? {
          Wrote(e.after);
        } else {
          if e.StopInGate? {
            tcp := tcp + hand;
            FlushRemaining(e.flushed);
          }
          quit, stop := true, true;
        }
      }
    }

    /** The drain goroutine against any schedule of arrivals, gate waits, failed and
        successful replenish attempts, write errors and teardown. TCP always sees a
        prefix of the accepted frames in order; while drain runs, every written frame
        is either still counted or has been returned in a grant. */
    method Drain(script: seq<Event>) returns (accepted: seq<Frame>, stopped: bool)
      requires Valid() && hand == [] && tcp == [] && writeCh == [] && grants == [] && consumed == 0
      modifies this
      ensures tcp <= accepted
      ensures !stopped ==> Valid() && tcp + writeCh == accepted
      ensures !stopped ==> Sum(grants) + consumed == |tcp|
      ensures !stopped && !armed ==> Sum(grants) > |tcp| - REPLENISH_BATCH
    {
      accepted, stopped := [], false;
      var i := 0;
      while i < |script| && !stopped
        invariant 0 <= i <= |script|
        invariant tcp <= accepted
        invariant !stopped ==> Valid() && hand == [] && tcp + writeCh == accepted
        invariant !stopped ==> Sum(grants) + consumed == |tcp|
        decreases |script| - i
      {
        if script[i].Arrive? {
          var r := Write(script[i].frame);
          accepted := accepted + if r.Accepted? then [script[i].frame] else [];
        } else {
          stopped := Round(script[i]);
        }
        i := i + 1;
      }
    }
  }
}
