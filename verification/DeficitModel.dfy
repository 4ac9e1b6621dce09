/** One backend's token bucket in the bandwidth scheduler, as a value, and what any
    sequence of calls can take out of it. Times are Unix nanoseconds. */
module DeficitModel {
  import opened Basics

  const IDLE_THRESHOLD: int := SECOND
  const MIN_DEFICIT_CAP: int := 128 * 1024

  datatype Bucket = Bucket(deficit: int, bytesSent: int, lastActive: int, isActive: bool)

  function NewBucket(now: int): Bucket {
    Bucket(0, 0, now, false)
  }

  /** The fair share of one of `active` backends, in bytes per second. */
  function Share(total: nat, active: int): (r: int)
    ensures 1 <= r && (total >= 1 ==> r <= total)
  {
    var n := if active <= 0 then 1 else active;
    ShareBound(total, n);
    if total / n <= 0 then 1 else total / n
  }

  lemma ShareBound(total: nat, n: int)
    requires n >= 1
    ensures 0 <= total / n <= total
  {
    var q := total / n;
    assert total == n * q + total % n;
    Times(n - 1, q);
    assert n * q == q + (n - 1) * q;
  }

  lemma Times(a: nat, b: nat)
    ensures a * b >= 0
  {
  }

  /** Bytes earned in `elapsed` nanoseconds, dividing first. */
  function Earned(rate: int, elapsed: int): int {
    rate * (elapsed / SECOND) + (rate * (elapsed % SECOND)) / SECOND
  }

  /** Dividing first loses nothing. */
  lemma EarnedExact(rate: nat, elapsed: nat)
    ensures Earned(rate, elapsed) == (rate * elapsed) / SECOND
    ensures SECOND * Earned(rate, elapsed) <= rate * elapsed < SECOND * Earned(rate, elapsed) + SECOND
  {
    var q, f := elapsed / SECOND, elapsed % SECOND;
    assert elapsed == SECOND * q + f;
    assert rate * elapsed == SECOND * (rate * q) + rate * f by {
      assert rate * (SECOND * q + f) == rate * (SECOND * q) + rate * f;
      assert rate * (SECOND * q) == SECOND * (rate * q);
    }
  }

  /** And the product it does form fits in 64 bits for rates up to 9 GB/s. */
  lemma EarnedFits(rate: nat, elapsed: nat)
    requires rate <= 9_000_000_000
    ensures rate * (elapsed % SECOND) <= MAX_INT64
  {
    assert rate * (elapsed % SECOND) <= 9_000_000_000 * (elapsed % SECOND);
  }

  /** replenishDeficit at time `now` with fair share `rate`; `cap` is the deficit cap. */
  function Replenish(b: Bucket, now: int, rate: int, cap: int): Bucket {
    if b.lastActive == 0 then b.(lastActive := now)
    else if now - b.lastActive <= 0 then b
    else b.(lastActive := now,
            deficit := Min(b.deficit + Min(Earned(rate, now - b.lastActive), cap), cap))
  }

  /** The bucket a request finds: active, and credited up to `now`. */
  function Topped(b: Bucket, now: int, total: nat, active: int, cap: int): Bucket {
    Replenish(b.(isActive := true), now, Share(total, active), cap)
  }

  function Spend(b: Bucket, bytes: int): Bucket {
    if b.deficit >= bytes then b.(deficit := b.deficit - bytes) else b
  }

  /** The wait advised to a denied request that lacks `lacking` bytes. */
  function Wait(lacking: int, rate: int): int
    requires rate >= 1
  {
    var nanos := (lacking * SECOND) / rate;
    if nanos <= 0 then MILLISECOND else nanos
  }

  function Recorded(b: Bucket, bytes: int, now: int): Bucket {
    b.(bytesSent := b.bytesSent + bytes, lastActive := now)
  }

  predicate Idle(b: Bucket, now: int) {
    b.isActive && b.lastActive < now - IDLE_THRESHOLD
  }

  function Swept(b: Bucket, now: int): Bucket {
    if Idle(b, now) then b.(isActive := false, deficit := 0) else b
  }

  // ----- Any sequence of calls on one backend ----------------------------------------

  /** A call and the time since the previous one. The number of active backends and the
      cap are whatever the rest of the scheduler makes them at that moment. */
  datatype Call =
    | Request(dt: nat, bytes: nat, active: int, cap: nat)
    | Refund(dt: nat, bytes: nat)
    | Record(dt: nat, bytes: nat)
    | Sweep(dt: nat)

  datatype Account = Account(b: Bucket, clock: int, admitted: nat, refunded: nat)

  function Do(a: Account, call: Call, total: nat): Account {
    var now := a.clock + call.dt;
    match call
    case Request(_, bytes, active, cap) =>
      var b := Topped(a.b, now, total, active, cap);
      Account(Spend(b, bytes), now, if b.deficit >= bytes then a.admitted + bytes else a.admitted, a.refunded)
    case Refund(_, bytes) =>
      Account(a.b.(deficit := a.b.deficit + bytes), now, a.admitted, a.refunded + bytes)
    case Record(_, bytes) => Account(Recorded(a.b, bytes, now), now, a.admitted, a.refunded)
    case Sweep(_) => Account(Swept(a.b, now), now, a.admitted, a.refunded)
  }

  function DoAll(registered: int, calls: seq<Call>, total: nat): Account {
    if calls == [] then Account(NewBucket(registered), registered, 0, 0)
    else Do(DoAll(registered, calls[..|calls| - 1], total), calls[|calls| - 1], total)
  }

  ghost predicate Within(a: Account, registered: int, total: nat) {
    && 0 <= a.b.deficit
    && 1 <= registered <= a.b.lastActive <= a.clock
    && SECOND * (a.admitted - a.refunded + a.b.deficit) <= total * (a.b.lastActive - registered)
  }

  lemma WithinKept(a: Account, call: Call, registered: int, total: nat)
    requires total >= 1 && Within(a, registered, total)
    ensures Within(Do(a, call, total), registered, total)
  {
    var now := a.clock + call.dt;
    var gap := now - a.b.lastActive;
    Distribute(total, a.b.lastActive - registered, gap);
    if call.Request? {
      ToppedBound(a.b, now, total, call.active, call.cap);
    }
  }

  /** Topping up earns no more than the configured rate, and only for the time it
      accounts for. */
  lemma ToppedBound(b: Bucket, now: int, total: nat, active: int, cap: nat)
    requires total >= 1 && 0 <= b.deficit && 1 <= b.lastActive <= now
    ensures var d := Topped(b, now, total, active, cap);
            && 0 <= d.deficit && d.lastActive == now
            && SECOND * d.deficit <= SECOND * b.deficit + total * (now - b.lastActive)
  {
    var rate, gap := Share(total, active), now - b.lastActive;
    EarnedExact(rate, gap);
    MulMono(rate, total, gap);
  }

  lemma MulMono(x: int, y: int, k: int)
    requires x <= y && 0 <= k
    ensures x * k <= y * k
  {}

  lemma Distribute(k: int, x: int, y: int)
    requires 0 <= k && 0 <= y
    ensures k * (x + y) == k * x + k * y && 0 <= k * y
  {}

  /** The admission bound: from a backend's registration on, whatever calls arrive and
      however the number of active backends and the cap change, the bytes admitted, less
      those refunded, plus the credit still held never exceed the configured rate times
      the time accounted for. */
  lemma {:induction false} AdmissionBound(registered: int, calls: seq<Call>, total: nat)
    requires total >= 1 && registered >= 1
    ensures var a := DoAll(registered, calls, total);
            && a.b.deficit >= 0 && registered <= a.b.lastActive <= a.clock
            && SECOND * (a.admitted - a.refunded + a.b.deficit) <= total * (a.b.lastActive - registered)
  {
    if calls != [] {
      AdmissionBound(registered, calls[..|calls| - 1], total);
      WithinKept(DoAll(registered, calls[..|calls| - 1], total), calls[|calls| - 1], registered, total);
    }
  }

  // ----- Accounts kept beside the buckets ---------------------------------------------------

  /** A backend's account since its registration. */
  datatype Tracked = Tracked(registered: int, account: Account)

  /** The accounts with one more call on `id`, at time `now`; an account whose clock runs
      backwards is given up. */
  function Tell(m: map<string, Tracked>, id: string, now: int, call: Call, total: nat): map<string, Tracked> {
    if id in m && now >= m[id].account.clock
    then m[id := Tracked(m[id].registered, Do(m[id].account, call.(dt := now - m[id].account.clock), total))]
    else m - {id}
  }

  /** The account stands at the bucket, within the admission bound. */
  ghost predicate Fair(t: Tracked, b: Bucket, total: nat) {
    t.account.b == b && (total >= 1 && t.registered >= 1 ==> Within(t.account, t.registered, total))
  }

  ghost predicate AllFair(m: map<string, Tracked>, bs: map<string, Bucket>, total: nat) {
    forall k :: k in m ==> k in bs && Fair(m[k], bs[k], total)
  }

  /** The call leaves this bucket behind, as far as the account can tell. */
  ghost predicate Leaves(m: map<string, Tracked>, id: string, now: int, call: Call, b: Bucket, total: nat) {
    id in m && now >= m[id].account.clock ==>
      Do(m[id].account, call.(dt := now - m[id].account.clock), total).b == b
  }

  lemma FairTold(m: map<string, Tracked>, bs: map<string, Bucket>, id: string, now: int, call: Call, b: Bucket,
                 total: nat)
    requires AllFair(m, bs, total) && id in bs && Leaves(m, id, now, call, b, total)
    ensures AllFair(Tell(m, id, now, call, total), bs[id := b], total)
  {
    if id in m && now >= m[id].account.clock && total >= 1 && m[id].registered >= 1 {
      assert Fair(m[id], bs[id], total);
      WithinKept(m[id].account, call.(dt := now - m[id].account.clock), m[id].registered, total);
    }
  }

  // ----- Waiting long enough ------------------------------------------------------------

  /** Exactly when a denied request is admitted on retry, nothing else having touched
      the bucket: when the share has earned what was lacking. */
  lemma RetryExact(b: Bucket, now: int, bytes: nat, total: nat, later: int, active: int, cap: int)
    requires 1 <= b.lastActive == now < later && 0 <= b.deficit < bytes <= cap
    ensures Topped(b, later, total, active, cap).deficit >= bytes
            <==> Share(total, active) * (later - now) >= (bytes - b.deficit) * SECOND
  {
    EarnedExact(Share(total, active), later - now);
  }

  /** A denied request of at most 128 KiB is admitted on any retry strictly later than
      the advised wait, if its share has not shrunk. */
  lemma RetryAfterWait(b: Bucket, now: int, bytes: nat, total: nat, active: int, later: int, active': int, cap: int)
    requires 1 <= b.lastActive == now && 0 <= b.deficit < bytes <= MIN_DEFICIT_CAP <= cap
    requires later > now + Wait(bytes - b.deficit, Share(total, active))
    requires Share(total, active') >= Share(total, active)
    ensures Topped(b, later, total, active', cap).deficit >= bytes
  {
    WaitEarns((bytes - b.deficit) * SECOND, Share(total, active), later - now, Share(total, active'));
    RetryExact(b, now, bytes, total, later, active', cap);
  }

  lemma WaitEarns(lacking: nat, rate: int, gap: int, rate': int)
    requires 1 <= rate <= rate' && gap > lacking / rate
    ensures rate' * gap >= lacking
  {
    assert lacking == rate * (lacking / rate) + lacking % rate;
    MulMono(lacking / rate + 1, gap, rate);
    Distribute(rate, lacking / rate, 1);
    assert lacking / rate >= 0;
    MulMono(rate, rate', gap);
  }

  /** Retrying at exactly the advised time can be too early: at 3 Mbit/s, one backend and
      1 byte lacking, the advice is 2666 ns, which earns nothing. */
  lemma WaitCanBeShort()
    ensures var b, total := Bucket(0, 0, 1, true), 375_000;
            var wait := Wait(1, Share(total, 1));
            && wait == 2666
            && Topped(b, 1 + wait, total, 1, MIN_DEFICIT_CAP).deficit == 0
  {
    assert Share(375_000, 1) == 375_000;
    EarnedExact(375_000, 2666);
  }

  /** A retry at exactly the advised time succeeds if and only if the advice was rounded up
      to its minimum, or the share divides what is lacking. */
  lemma WaitIsEnough(b: Bucket, now: int, bytes: nat, total: nat, active: int, cap: int)
    requires 1 <= b.lastActive == now && 0 <= b.deficit < bytes <= MIN_DEFICIT_CAP <= cap
    ensures var lacking, rate := (bytes - b.deficit) * SECOND, Share(total, active);
            Topped(b, now + Wait(bytes - b.deficit, rate), total, active, cap).deficit >= bytes
            <==> lacking < rate || lacking % rate == 0
  {
    var lacking, rate := (bytes - b.deficit) * SECOND, Share(total, active);
    assert lacking == rate * (lacking / rate) + lacking % rate;
    if lacking < rate {
      LessThanOnce(lacking, rate);
      RetryExact(b, now, bytes, total, now + MILLISECOND, active, cap);
      MulMono(1, MILLISECOND, rate);
    } else {
      AtLeastOnce(lacking, rate);
      RetryExact(b, now, bytes, total, now + lacking / rate, active, cap);
    }
  }

  lemma LessThanOnce(a: nat, d: nat)
    requires a < d
    ensures a / d == 0
  {
  }

  lemma AtLeastOnce(a: nat, d: nat)
    requires 1 <= d <= a
    ensures a / d >= 1
  {
    assert a == d * (a / d) + a % d;
  }
}
