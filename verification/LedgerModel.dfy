/** The client's reverse-credit ledger as a value.

    Every function here is one atomic action of client/credit_ledger.go: a
    compare-and-swap loop, or one critical section under `probeMu`. The class
    `CreditLedgers.CreditLedger` strings them together call by call; the step
    system `CreditLoop` interleaves them between goroutines. */
module LedgerModel {
  import opened Basics

  /** A data frame; only its identity matters here. */
  type Frame = int

  const CREDIT_CAPACITY: nat := 64
  const REPLENISH_BATCH: nat := 8

  datatype Ledger = Ledger(
    available: int,
    maxCap: nat,
    signaled: bool,
    probeFired: bool,
    probeGen: nat,
    closed: bool)

  predicate Sound(l: Ledger) {
    0 <= l.available <= l.maxCap && 1 <= l.maxCap
  }

  /** The saturating add shared by Replenish, InitCredits and KickstartAndClose. */
  function AddClamped(l: Ledger, n: int): Ledger {
    if n <= 0 then l else l.(available := Min(l.available + n, l.maxCap))
  }

  /** Ends the stall cycle; every timer armed so far is now stale. */
  function ClearStall(l: Ledger): Ledger {
    l.(probeFired := false, probeGen := l.probeGen + 1)
  }

  predicate Armable(l: Ledger) {
    !l.closed && l.available <= 0 && !l.probeFired
  }

  /** The critical section of armStallProbe; the new generation's timer is installed
      by the caller exactly when `Armable`. */
  function Arm(l: Ledger): Ledger {
    if Armable(l) then l.(probeFired := true, probeGen := l.probeGen + 1) else l
  }

  predicate Grants(l: Ledger, gen: nat) {
    !l.closed && l.probeGen == gen && l.available <= 0
  }

  /** The body of the stall-probe timer armed for generation `gen`. */
  function Fire(l: Ledger, gen: nat): Ledger {
    if l.closed || l.probeGen != gen then l
    else if l.available > 0 then l.(probeFired := false)
    else l.(available := l.available + 1, signaled := true)
  }
}
