/** The hub's per-client write buffer and the local state of its drain goroutine. */
module HubModel {
  import opened LedgerModel

  const WRITE_BUFFER: nat := 2 * CREDIT_CAPACITY

  /** `hand` is the frame drain has taken from the channel and not yet written to
      TCP (zero or one frame); `attempted` says lastReplenishAttempt is set. */
  datatype Hub = Hub(
    buf: seq<Frame>,
    hand: seq<Frame>,
    delivered: seq<Frame>,
    consumed: nat,
    armed: bool,
    attempted: bool,
    streak: nat)

  const FRESH_HUB := Hub([], [], [], 0, false, false, 0)

  /** Whether tryReplenish gets as far as calling onReplenish. */
  predicate Attempts(h: Hub, backoff: bool) {
    h.consumed > 0 && !(h.attempted && backoff)
  }

  /** tryReplenish: `backoff` says less than the minimum retry delay has passed,
      `ok` is the outcome of onReplenish if it is called. */
  function TryReplenish(h: Hub, backoff: bool, ok: bool): Hub {
    if h.consumed == 0 then h.(armed := false)
    else if !Attempts(h, backoff) then h.(armed := true)
    else if ok then h.(consumed := 0, attempted := false, streak := 0, armed := false)
    else h.(attempted := true, streak := h.streak + 1, armed := true)
  }

  /** Credits handed to onReplenish by a successful attempt, as a list of messages. */
  function Granted(h: Hub, backoff: bool, ok: bool): seq<nat> {
    if Attempts(h, backoff) && ok then [h.consumed] else []
  }

  /** A TCP write of the frame in hand. */
  function Written(h: Hub): Hub
    requires h.hand != []
  {
    h.(delivered := h.delivered + h.hand, hand := [], consumed := h.consumed + 1)
  }

  /** What drain guarantees whenever it blocks in a select, the gate wait included. */
  predicate RetryArmed(h: Hub) {
    (h.consumed >= REPLENISH_BATCH <==> h.armed) && |h.hand| <= 1
  }

  function Sum(s: seq<nat>): nat {
    if s == [] then 0 else s[0] + Sum(s[1..])
  }

  lemma {:induction false} SumAppend(s: seq<nat>, t: seq<nat>)
    ensures Sum(s + t) == Sum(s) + Sum(t)
  {
    if s == [] {
      assert s + t == t;
    } else {
      assert (s + t)[1..] == s[1..] + t;
      SumAppend(s[1..], t);
    }
  }
}
