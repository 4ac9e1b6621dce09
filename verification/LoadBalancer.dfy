/** The hub's LoadBalancerPool: gcd-driven weighted round robin over a mutable pool. */
module LoadBalancer {
  import opened Basics
  import opened WeightedSchedule

  /** Weights are at least 1: the handshake replaces anything smaller. */
  datatype Backend = Backend(id: int, weight: nat)

  datatype Result = Ok(value: Backend) | NoBackends

  // ----- Divisors --------------------------------------------------------------------

  predicate Divides(d: nat, x: nat) {
    d > 0 && x % d == 0
  }

  lemma DivUnique(x: int, d: int, q: int, r: int)
    requires d > 0 && x == d * q + r && 0 <= r < d
    ensures x / d == q && x % d == r
  {
    assert d * (q - x / d) == x % d - r;
    Steps(d, q - x / d);
  }

  lemma Steps(d: int, k: int)
    requires d > 0
    ensures k >= 1 ==> d * k >= d
    ensures k <= -1 ==> d * k <= -d
  {
    if k >= 1 {
      assert d * k == d + d * (k - 1);
    } else if k <= -1 {
      assert d * k == -d + d * (k + 1);
    }
  }

  lemma Exactly(x: int, d: int)
    requires d > 0 && x % d == 0
    ensures x == d * (x / d)
  {
  }

  lemma EuclidMod(a: nat, b: nat, d: nat)
    requires b > 0 && d > 0 && b % d == 0
    ensures a % d == 0 <==> (a % b) % d == 0
  {
    var q, y := a / b, b / d;
    assert a == b * q + a % b && b == d * y;
    assert b * q == d * (y * q);
    if a % d == 0 {
      assert a % b == d * (a / d - y * q);
      DivUnique(a % b, d, a / d - y * q, 0);
    }
    if (a % b) % d == 0 {
      assert a == d * (y * q + (a % b) / d);
      DivUnique(a, d, y * q + (a % b) / d, 0);
    }
  }

  /** Euclid's step keeps the common divisors. */
  lemma EuclidStep(a: nat, b: nat, d: nat)
    requires b > 0 && Divides(d, b)
    ensures Divides(d, a) <==> Divides(d, a % b)
  {
    EuclidMod(a, b, d);
  }

  /** The divisors of `g` are the common divisors of `a` and `b`. */
  ghost predicate IsGcd2(g: nat, a: nat, b: nat) {
    g > 0 && forall d: nat :: Divides(d, g) <==> Divides(d, a) && Divides(d, b)
  }

  method Gcd(a0: nat, b0: nat) returns (a: nat)
    requires a0 > 0
    ensures IsGcd2(a, a0, b0)
  {
    a := a0;
    var b: nat := b0;
    while b != 0
      invariant a > 0
      invariant forall d: nat :: Divides(d, a) && Divides(d, b) <==> Divides(d, a0) && Divides(d, b0)
      decreases b
    {
      forall d: nat | Divides(d, b) ensures Divides(d, a) <==> Divides(d, a % b) {
        EuclidStep(a, b, d);
      }
      a, b := b, a % b;
    }
    forall d: nat | d > 0 ensures Divides(d, 0) {
      DivUnique(0, d, 0, 0);
    }
  }

  ghost predicate Common(d: nat, ws: seq<nat>) {
    d > 0 && forall i :: 0 <= i < |ws| ==> Divides(d, ws[i])
  }

  lemma CommonSnoc(d: nat, ws: seq<nat>, i: nat)
    requires i < |ws|
    ensures Common(d, ws[..i + 1]) <==> Common(d, ws[..i]) && Divides(d, ws[i])
  {
    if Common(d, ws[..i + 1]) {
      assert Divides(d, ws[..i + 1][i]);
      forall j | 0 <= j < i ensures Divides(d, ws[..i][j]) {
        assert Divides(d, ws[..i + 1][j]);
      }
    }
  }

  /** The divisors of `g` are the common divisors of `ws`. */
  ghost predicate IsGcd(g: nat, ws: seq<nat>) {
    g > 0 && forall d: nat :: Divides(d, g) <==> Common(d, ws)
  }

  lemma GcdIsCommon(g: nat, ws: seq<nat>)
    requires IsGcd(g, ws)
    ensures Common(g, ws)
  {
    DivUnique(g, g, 1, 0);
    assert Divides(g, g);
  }

  /** So `g` is a common divisor, and no common divisor is larger. */
  lemma GcdIsGreatest(g: nat, ws: seq<nat>, d: nat)
    requires IsGcd(g, ws) && Common(d, ws)
    ensures Common(g, ws) && d <= g
  {
    GcdIsCommon(g, ws);
    assert Divides(d, g);
    assert g == d * (g / d) && g / d >= 1;
  }

  function Weights(bs: seq<Backend>): (ws: seq<nat>)
    ensures |ws| == |bs| && forall i :: 0 <= i < |bs| ==> ws[i] == bs[i].weight
  {
    seq(|bs|, i requires 0 <= i < |bs| => bs[i].weight)
  }

  function Shares(bs: seq<Backend>, g: nat): (v: seq<nat>)
    requires g > 0
    ensures |v| == |bs| && forall i :: 0 <= i < |bs| ==> v[i] == bs[i].weight / g
  {
    seq(|bs|, i requires 0 <= i < |bs| => bs[i].weight / g)
  }

  /** With a common divisor, comparing weights is comparing shares. */
  lemma ShareExact(bs: seq<Backend>, g: nat, i: nat)
    requires g > 0 && Common(g, Weights(bs)) && i < |bs|
    ensures bs[i].weight == g * Shares(bs, g)[i]
  {
    assert Divides(g, Weights(bs)[i]);
  }

  lemma ScaledOrder(g: nat, x: nat, y: nat)
    requires g > 0
    ensures g * x >= g * y <==> x >= y
  {
    if x < y {
      assert g * y == g * x + g * (y - x - 1) + g;
    } else {
      assert g * x == g * y + g * (x - y);
    }
  }

  function Following(i: int, n: nat): (r: int)
    requires i >= -1 && n > 0
    ensures 0 <= r < n && (i + 1 < n ==> r == i + 1) && (i + 1 == n ==> r == 0)
  {
    (i + 1) % n
  }

  class LoadBalancerPool {
    var backends: seq<Backend>
    var currentWeight: int
    var currentIndex: int
    var greatestCommonDiv: nat

    ghost predicate Valid()
      reads this
    {
      && (forall i :: 0 <= i < |backends| ==> backends[i].weight >= 1)
      && greatestCommonDiv > 0 && Common(greatestCommonDiv, Weights(backends))
      && (backends == [] || IsGcd(greatestCommonDiv, Weights(backends)))
      && currentIndex >= -1 && currentWeight >= 0
      && (currentIndex == -1 <==> currentWeight == 0)
    }

    ghost function V(): seq<nat>
      reads this
      requires greatestCommonDiv > 0
    {
      Shares(backends, greatestCommonDiv)
    }

    ghost function Level(): int
      reads this
      requires greatestCommonDiv > 0
    {
      currentWeight / greatestCommonDiv
    }

    /** The pool stands where its own cycle can stand: not yet started, or just after
        serving `currentIndex` at one of the cycle's levels. */
    ghost predicate OnCycle()
      reads this
      requires Valid()
    {
      currentIndex == -1 ||
      (&& currentIndex < |backends|
       && currentWeight % greatestCommonDiv == 0
       && 1 <= Level() <= MaxOf(V()) && V()[currentIndex] >= Level())
    }

    /** What is left of the current cycle. */
    ghost function Remaining(): seq<nat>
      reads this
      requires Valid() && OnCycle()
    {
      if currentIndex == -1 then [] else Rest(V(), currentIndex, Level())
    }

    constructor ()
      ensures Valid() && backends == [] && currentIndex == -1 && OnCycle() && Remaining() == []
    {
      backends := [];
      currentIndex := -1;
      currentWeight := 0;
      greatestCommonDiv := 1;
    }

    method RecalculateGCD()
      requires forall i :: 0 <= i < |backends| ==> backends[i].weight >= 1
      modifies this`greatestCommonDiv
      ensures if backends == [] then greatestCommonDiv == 1 else IsGcd(greatestCommonDiv, Weights(backends))
    {
      ghost var ws := Weights(backends);
      if |backends| == 0 {
        greatestCommonDiv := 1;
        return;
      }
      if |backends| == 1 {
        greatestCommonDiv := backends[0].weight;
        return;
      }
      var newGcd := backends[0].weight;
      for i := 1 to |backends|
        invariant newGcd > 0
        invariant IsGcd(newGcd, ws[..i])
      {
        var g := Gcd(newGcd, backends[i].weight);
        forall d: nat ensures Common(d, ws[..i + 1]) <==> Common(d, ws[..i]) && Divides(d, ws[i]) {
          CommonSnoc(d, ws, i);
        }
        newGcd := g;
      }
      assert ws[..|backends|] == ws;
      greatestCommonDiv := newGcd;
    }

    method AddBackend(b: Backend)
      requires Valid() && b.weight >= 1
      modifies this`backends, this`greatestCommonDiv
      ensures Valid() && backends == old(backends) + [b]
      ensures IsGcd(greatestCommonDiv, Weights(backends))
    {
      backends := backends + [b];
      RecalculateGCD();
      GcdIsCommon(greatestCommonDiv, Weights(backends));
    }

    method Find(id: int) returns (i: nat)
      ensures i <= |backends|
      ensures forall j :: 0 <= j < i ==> backends[j].id != id
      ensures i < |backends| ==> backends[i].id == id
    {
      i := 0;
      while i < |backends| && backends[i].id != id
        invariant 0 <= i <= |backends|
        invariant forall j :: 0 <= j < i ==> backends[j].id != id
      {
        i := i + 1;
      }
    }

    /** Drops the first backend with this id, if any; the last one takes its place. */
    method RemoveBackend(id: int) returns (ghost at: nat)
      requires Valid()
      modifies this`backends, this`greatestCommonDiv
      ensures Valid()
      ensures at <= |old(backends)| && forall j :: 0 <= j < at ==> old(backends)[j].id != id
      ensures at == |old(backends)| ==> backends == old(backends)
      ensures at < |old(backends)| ==>
                && old(backends)[at].id == id
                && backends == old(backends)[at := old(backends)[|old(backends)| - 1]][..|old(backends)| - 1]
                && (backends == [] || IsGcd(greatestCommonDiv, Weights(backends)))
    {
      var i := Find(id);
      if i < |backends| {
        var last := |backends| - 1;
        backends := backends[i := backends[last]][..last];
        RecalculateGCD();
        if backends != [] {
          GcdIsCommon(greatestCommonDiv, Weights(backends));
        }
      }
      at := i;
    }

    method HasBackends() returns (r: bool)
      ensures r <==> backends != []
    {
      r := |backends| > 0;
    }

    method MaxWeight() returns (max: nat)
      requires backends != [] && forall i :: 0 <= i < |backends| ==> backends[i].weight >= 1
      ensures IsHeaviest(backends, max)
    {
      max := 0;
      for i := 0 to |backends|
        invariant forall j :: 0 <= j < i ==> backends[j].weight <= max
        invariant if i == 0 then max == 0 else exists j :: 0 <= j < i && backends[j].weight == max
      {
        if backends[i].weight > max {
          max := backends[i].weight;
        }
      }
    }

    /** One turn of Select's loop before its test: the next index, and on reaching
        index 0 the next level down or a fresh start at the heaviest weight. */
    method Advance()
      requires Valid() && |backends| >= 2
      modifies this`currentIndex, this`currentWeight
      ensures Valid()
      ensures currentIndex == Following(old(currentIndex), |backends|)
      ensures Descends(backends, greatestCommonDiv, old(currentWeight), currentIndex, currentWeight)
    {
      currentIndex := Following(currentIndex, |backends|);
      if currentIndex == 0 {
        currentWeight := currentWeight - greatestCommonDiv;
        if currentWeight <= 0 {
          currentWeight := MaxWeight();
        }
      }
    }

    /** What Select's loop knows between two turns; `t.reset` says the level has been
        reset to the heaviest weight, `t.wrapped` that a round has begun since. */
    ghost predicate Tracked(t: Trace)
      reads this
      requires Valid()
    {
      && (t.reset ==> t.wrapped && IsHeaviest(backends, currentWeight))
      && (t.wrapped ==> 0 <= currentIndex < |backends| && NoneUpTo(backends, currentIndex, currentWeight))
      && (t.onCycle ==> CycleTracked(backends, greatestCommonDiv, currentIndex, currentWeight, t))
    }

    /** One turn of Select's loop; it either serves a backend or comes closer to one. */
    method Turn(ghost t: Trace) returns (served: bool, ghost u: Trace)
      requires Valid() && |backends| >= 2 && Tracked(t)
      modifies this`currentIndex, this`currentWeight
      ensures Valid() && 0 <= currentIndex < |backends|
      ensures served <==> backends[currentIndex].weight >= currentWeight
      ensures !served ==> Tracked(u)
      ensures !served ==>
                Closer(|backends|, t.reset, old(currentIndex), old(currentWeight), u.reset, currentIndex, currentWeight)
      ensures u.onCycle == t.onCycle && u.rest == t.rest && u.start == t.start
      ensures served && u.onCycle ==> CycleServed(backends, greatestCommonDiv, currentIndex, currentWeight, u)
    {
      ghost var i0, w0 := currentIndex, currentWeight;
      Advance();
      u := NextTrace(backends, greatestCommonDiv, t, i0, w0, currentIndex);
      if t.onCycle {
        CycleTurn(backends, greatestCommonDiv, t, i0, w0, currentIndex, currentWeight);
      }
      served := backends[currentIndex].weight >= currentWeight;
    }

    ghost function Beginning(): Trace
      reads this
      requires Valid()
    {
      Trace(OnCycle(), if OnCycle() then Remaining() else [], currentIndex, Level(), false, false, 0)
    }

    lemma Begins()
      requires Valid() && |backends| >= 2
      ensures Tracked(Beginning())
    {
      if OnCycle() && currentIndex != -1 {
        Exactly(currentWeight, greatestCommonDiv);
      }
    }

    lemma Concludes(t: Trace)
      requires Valid()
      ensures t.onCycle && CycleServed(backends, greatestCommonDiv, currentIndex, currentWeight, t) ==>
                && OnCycle() && t.examined < 2 * |backends|
                && [currentIndex as nat] + Remaining() == if t.rest != [] then t.rest else Cycle(V())
    {
      if t.onCycle && CycleServed(backends, greatestCommonDiv, currentIndex, currentWeight, t) {
        DivUnique(currentWeight, greatestCommonDiv, t.c, 0);
      }
    }

    /** Weighted round robin. Select always terminates, from every state that adds,
        removes and selections can leave behind, with a backend whose weight reaches
        the current level. On the cycle it serves the next backend of the cycle after
        looking at fewer than twice as many backends as there are. */
    method Select() returns (r: Result, ghost examined: nat)
      requires Valid()
      modifies this`currentIndex, this`currentWeight
      ensures Valid()
      ensures r.NoBackends? <==> backends == []
      ensures |backends| == 1 ==> r == Ok(backends[0])
      ensures |backends| < 2 ==> unchanged(this)
      ensures |backends| >= 2 ==>
                && 0 <= currentIndex < |backends| && r == Ok(backends[currentIndex])
                && 1 <= currentWeight <= backends[currentIndex].weight
      ensures |backends| >= 2 && old(OnCycle()) ==>
                && OnCycle() && examined < 2 * |backends|
                && [currentIndex as nat] + Remaining() ==
                   if old(Remaining()) != [] then old(Remaining()) else Cycle(V())
    {
      if |backends| == 0 { return NoBackends, 0; }
      if |backends| == 1 { return Ok(backends[0]), 0; }
      ghost var t := Beginning();
      Begins();
      var served := false;
      while !served
        invariant Valid()
        invariant served ==> 0 <= currentIndex < |backends| && backends[currentIndex].weight >= currentWeight
        invariant t.onCycle == old(OnCycle()) && (t.onCycle ==> t.rest == old(Remaining()))
        invariant !served ==> Tracked(t)
        invariant served && t.onCycle ==> CycleServed(backends, greatestCommonDiv, currentIndex, currentWeight, t)
        decreases !served, !t.reset, currentWeight, Position(|backends|, currentIndex)
      {
        served, t := Turn(t);
      }
      Concludes(t);
      return Ok(backends[currentIndex]), t.examined;
    }

    /** A pool in use has a cycle, and what remains of it is a suffix of it. */
    lemma RemainingIsSuffix()
      requires Valid() && backends != [] && OnCycle()
      ensures Cycle(V()) != [] && IsSuffix(Remaining(), Cycle(V()))
    {
      CycleNonEmpty(backends, greatestCommonDiv);
      if currentIndex != -1 {
        RestSuffix(V(), currentIndex, Level());
      }
    }

    /** A run of `k` selections on an unchanged pool of two or more, from the start or
        from anywhere on the cycle: the indices served are those the cycle prescribes. */
    method SelectMany(k: nat) returns (picks: seq<nat>)
      requires Valid() && |backends| >= 2 && OnCycle()
      modifies this`currentIndex, this`currentWeight
      ensures Valid() && OnCycle() && Cycle(V()) != []
      ensures |picks| == k && picks == Draw(Cycle(V()), old(Remaining()), k)
      ensures Remaining() == Left(Cycle(V()), old(Remaining()), k)
    {
      ghost var cycle, rest := Cycle(V()), Remaining();
      RemainingIsSuffix();
      picks := [];
      for i := 0 to k
        invariant Valid() && OnCycle()
        invariant |picks| == i && picks == Draw(cycle, rest, i) && Remaining() == Left(cycle, rest, i)
      {
        var pick := SelectNext(cycle, Draw(cycle, rest, i), rest, i);
        picks := picks + [pick];
      }
    }

    /** Exact weighted fairness of the code: on an unchanged pool of two or more, from the
        start or from anywhere on the cycle, (sum of weights) / gcd selections in a row
        serve each backend weight / gcd times and leave the pool where it was. */
    method SelectWindow() returns (picks: seq<nat>)
      requires Valid() && |backends| >= 2 && OnCycle()
      modifies this`currentIndex, this`currentWeight
      ensures Valid() && OnCycle() && Remaining() == old(Remaining())
      ensures |picks| == SumOf(Weights(backends)) / greatestCommonDiv
      ensures forall i :: 0 <= i < |backends| ==> Count(picks, i) == backends[i].weight / greatestCommonDiv
    {
      RemainingIsSuffix();
      RemainingIsShorter();
      FairWindow(backends, greatestCommonDiv, Remaining());
      picks := SelectMany(SumOf(Weights(backends)) / greatestCommonDiv);
    }

    lemma RemainingIsShorter()
      requires Valid() && backends != [] && OnCycle()
      ensures |Remaining()| < |Cycle(V())|
    {
      RemainingIsSuffix();
      if currentIndex != -1 {
        RestShorter(V(), currentIndex, Level());
      }
    }

    method SelectNext(ghost cycle: seq<nat>, ghost drawn: seq<nat>, ghost rest: seq<nat>, ghost i: nat)
      returns (pick: nat)
      requires Valid() && |backends| >= 2 && OnCycle() && cycle == Cycle(V()) && cycle != []
      requires drawn == Draw(cycle, rest, i) && Remaining() == Left(cycle, rest, i)
      modifies this`currentIndex, this`currentWeight
      ensures Valid() && OnCycle()
      ensures drawn + [pick] == Draw(cycle, rest, i + 1) && Remaining() == Left(cycle, rest, i + 1)
    {
      ghost var now := Remaining();
      var _, _ := Select();
      DrawAppend(cycle, rest, i, 1);
      DrawOne(cycle, now, currentIndex, Remaining());
      pick := currentIndex;
    }
  }

  lemma CycleNonEmpty(bs: seq<Backend>, g: nat)
    requires bs != [] && Common(g, Weights(bs)) && bs[0].weight >= 1
    ensures Cycle(Shares(bs, g)) != []
  {
    var v := Shares(bs, g);
    MaxIsMax(v);
    ShareExact(bs, g, 0);
    CycleCount(v, 0);
  }

  /** Exact fairness in terms of the pool itself: any window of (sum of weights) / gcd
      selections serves backend `i` exactly weight_i / gcd times, and leaves the same
      part of the cycle to serve. */
  lemma FairWindow(bs: seq<Backend>, g: nat, rest: seq<nat>)
    requires bs != [] && Common(g, Weights(bs)) && bs[0].weight >= 1
    requires IsSuffix(rest, Cycle(Shares(bs, g)))
    ensures var v := Shares(bs, g);
            && Cycle(v) != [] && SumOf(v) == SumOf(Weights(bs)) / g
            && (forall i :: 0 <= i < |bs| ==> Count(Draw(Cycle(v), rest, SumOf(v)), i) == bs[i].weight / g)
            && Left(Cycle(v), rest, SumOf(v)) == if rest == Cycle(v) then [] else rest
  {
    var v := Shares(bs, g);
    CycleNonEmpty(bs, g);
    WindowIsFair(v, rest);
    forall i | 0 <= i < |v| ensures Weights(bs)[i] == g * v[i] {
      ShareExact(bs, g, i);
    }
    SumScaled(Weights(bs), v, g);
    DivUnique(SumOf(Weights(bs)), g, SumOf(v), 0);
  }

  lemma DrawOne(cycle: seq<nat>, now: seq<nat>, served: nat, left: seq<nat>)
    requires cycle != [] && [served] + left == if now != [] then now else cycle
    ensures Draw(cycle, now, 1) == [served] && Left(cycle, now, 1) == left
  {
    var want := if now != [] then now else cycle;
    assert want[0] == served && want[1..] == left;
    assert Draw(cycle, want[1..], 0) == [];
  }

  lemma {:induction false} SumScaled(ws: seq<nat>, v: seq<nat>, g: nat)
    requires |ws| == |v| && forall i :: 0 <= i < |v| ==> ws[i] == g * v[i]
    ensures SumOf(ws) == g * SumOf(v)
  {
    if v != [] {
      SumScaled(ws[..|ws| - 1], v[..|v| - 1], g);
    }
  }

  /** A record of the loop for its proof: whether Select began on the cycle, what was
      left of it, where it began, the level in units of the common divisor. */
  datatype Trace = Trace(
    onCycle: bool,
    rest: seq<nat>,
    start: int,
    c: int,
    reset: bool,
    wrapped: bool,
    examined: nat)

  ghost predicate NoneUpTo(bs: seq<Backend>, i: int, w: int) {
    forall j :: 0 <= j <= i && j < |bs| ==> bs[j].weight < w
  }

  function Position(n: nat, i: int): int {
    if i < n then n - 1 - i else n
  }

  ghost predicate Closer(n: nat, r0: bool, i0: int, w0: int, r1: bool, i1: int, w1: int) {
    || (!r0 && r1)
    || (r0 == r1 && 0 <= w1 < w0)
    || (r0 == r1 && w1 == w0 && 0 <= Position(n, i1) < Position(n, i0))
  }

  ghost predicate CycleTracked(bs: seq<Backend>, g: nat, i: int, w: int, t: Trace)
    requires g > 0
  {
    var v := Shares(bs, g);
    && Scanning(v, g, MaxOf(v), i, w, t.c, if t.reset then Cycle(v) else t.rest)
    && (t.reset ==> t.rest == [])
    && Counted(|bs|, t.start, i, t.wrapped, t.examined)
  }

  ghost predicate CycleServed(bs: seq<Backend>, g: nat, i: int, w: int, t: Trace)
    requires g > 0
  {
    var v := Shares(bs, g);
    && 0 <= i < |bs| && w == g * t.c && 1 <= t.c <= MaxOf(v) && v[i] >= t.c
    && [i as nat] + Rest(v, i, t.c) == (if t.rest != [] then t.rest else Cycle(v))
    && t.examined < 2 * |bs|
  }

  ghost function NextTrace(bs: seq<Backend>, g: nat, t: Trace, i0: int, w0: int, i1: int): Trace
    requires g > 0
  {
    t.(c := if t.onCycle then NextLevel(MaxOf(Shares(bs, g)), i0, t.c, i1) else t.c,
       reset := t.reset || (i1 == 0 && w0 <= g),
       wrapped := t.wrapped || i1 == 0,
       examined := t.examined + 1)
  }

  /** One turn on the cycle either serves the next backend of the cycle or skips one
      that the cycle skips too. */
  lemma CycleTurn(bs: seq<Backend>, g: nat, t: Trace, i0: int, w0: int, i1: int, w1: int)
    requires |bs| >= 2 && Common(g, Weights(bs)) && bs[0].weight >= 1
    requires t.onCycle && CycleTracked(bs, g, i0, w0, t) && (t.reset ==> t.wrapped)
    requires t.wrapped ==> 0 <= i0 < |bs| && NoneUpTo(bs, i0, w0)
    requires i0 >= -1 && i1 == Following(i0, |bs|) && Descends(bs, g, w0, i1, w1)
    ensures var u := NextTrace(bs, g, t, i0, w0, i1);
            if bs[i1].weight >= w1 then CycleServed(bs, g, i1, w1, u) else CycleTracked(bs, g, i1, w1, u)
  {
    var v := Shares(bs, g);
    var m, want := MaxOf(v), if t.reset then Cycle(v) else t.rest;
    if t.wrapped {
      LevelReached(bs, g, v, m, t.c);
    }
    ScanLevels(bs, g, v, m, i0, w0, t.c, want, i1, w1);
    ScanContents(v, m, i0, t.c, want, i1);
  }

  ghost predicate IsHeaviest(bs: seq<Backend>, w: int) {
    && (forall j :: 0 <= j < |bs| ==> bs[j].weight <= w)
    && (exists j :: 0 <= j < |bs| && bs[j].weight == w)
  }

  /** `w1` is the level after moving to index `i1` from level `w0`. */
  ghost predicate Descends(bs: seq<Backend>, g: nat, w0: int, i1: int, w1: int) {
    if i1 != 0 then w1 == w0 else if w0 <= g then IsHeaviest(bs, w1) else w1 == w0 - g
  }

  /** Between two turns of the loop on the cycle: level `c`, with `want` still to serve. */
  ghost predicate Scanning(v: seq<nat>, g: nat, m: nat, i: int, w: int, c: int, want: seq<nat>) {
    if i == -1 then w == 0 && want == []
    else 0 <= i < |v| && w == g * c && 1 <= c <= m && Rest(v, i, c) == want
  }

  /** Backends looked at so far. */
  ghost predicate Counted(n: nat, start: int, i: int, wrapped: bool, examined: nat) {
    -1 <= start < n &&
    if wrapped then examined <= n + i else examined == i - start && (i == -1 <==> start == -1)
  }

  /** The level after one turn of the loop that moves from index `i0` to `i1`. */
  function NextLevel(m: nat, i0: int, c: int, i1: int): int {
    if i1 != 0 then c else if i0 == -1 || c == 1 then m else c - 1
  }

  /** Every level of the cycle is reached by some backend. */
  lemma LevelReached(bs: seq<Backend>, g: nat, v: seq<nat>, m: nat, c: int)
    requires bs != [] && Common(g, Weights(bs)) && v == Shares(bs, g) && m == MaxOf(v) && c <= m
    ensures exists j :: 0 <= j < |bs| && bs[j].weight >= g * c
  {
    MaxIsMax(v);
    var j :| 0 <= j < |v| && v[j] == m;
    ShareExact(bs, g, j);
    if c >= 0 {
      ScaledOrder(g, v[j], c);
    } else {
      assert g * c <= 0;
    }
  }

  lemma HeaviestShare(bs: seq<Backend>, g: nat, v: seq<nat>, w: int)
    requires Common(g, Weights(bs)) && v == Shares(bs, g) && IsHeaviest(bs, w)
    ensures w == g * MaxOf(v)
  {
    MaxIsMax(v);
    var i :| 0 <= i < |bs| && bs[i].weight == w;
    var j :| 0 <= j < |v| && v[j] == MaxOf(v);
    ShareExact(bs, g, i);
    ShareExact(bs, g, j);
    ScaledOrder(g, v[j], v[i]);
  }

  lemma HeaviestPositive(bs: seq<Backend>, g: nat, v: seq<nat>)
    requires bs != [] && Common(g, Weights(bs)) && v == Shares(bs, g) && bs[0].weight >= 1
    ensures MaxOf(v) >= 1
  {
    MaxIsMax(v);
    ShareExact(bs, g, 0);
    assert v[0] >= 1;
  }

  /** One turn of the loop on the cycle moves between levels as the weights say ... */
  lemma ScanLevels(bs: seq<Backend>, g: nat, v: seq<nat>, m: nat,
                   i0: int, w0: int, c: int, want: seq<nat>, i1: int, w1: int)
    requires |bs| >= 2 && Common(g, Weights(bs)) && v == Shares(bs, g) && m == MaxOf(v) && bs[0].weight >= 1
    requires i0 >= -1 && Scanning(v, g, m, i0, w0, c, want)
    requires i1 == Following(i0, |bs|) && Descends(bs, g, w0, i1, w1)
    ensures var c1 := NextLevel(m, i0, c, i1);
            && (i1 == 0 ==> (w0 <= g <==> i0 == -1 || c == 1))
            && 1 <= c1 <= m && w1 == g * c1
            && (bs[i1].weight >= w1 <==> v[i1] >= c1)
  {
    var c1 := NextLevel(m, i0, c, i1);
    HeaviestPositive(bs, g, v);
    if i0 != -1 {
      ScaledOrder(g, 1, c);
      assert g * (c - 1) == g * c - g;
    }
    if i1 == 0 && w0 <= g {
      HeaviestShare(bs, g, v, w1);
    }
    ShareExact(bs, g, i1);
    ScaledOrder(g, v[i1], c1);
  }

  /** The candidate at `i` on level `c` comes first in `rest`, if it qualifies, and what
      follows is the rest of the cycle from there. */
  ghost predicate LooksAt(v: seq<nat>, rest: seq<nat>, i: nat, c: nat)
    requires i < |v| && c >= 1
  {
    rest == (if v[i] >= c then [i] else []) + Rest(v, i, c)
  }

  /** ... and looks at the next candidate of the cycle. */
  lemma ScanContents(v: seq<nat>, m: nat, i0: int, c: int, want: seq<nat>, i1: int)
    requires |v| >= 2 && m == MaxOf(v) && m >= 1 && -1 <= i0 < |v|
    requires i1 == if i0 + 1 < |v| then i0 + 1 else 0
    requires if i0 == -1 then want == [] else 1 <= c <= m && Rest(v, i0, c) == want
    ensures var again := i1 == 0 && (i0 == -1 || c == 1);
            var c1 := NextLevel(m, i0, c, i1);
            && (again ==> want == []) && c1 >= 1
            && LooksAt(v, if again then Cycle(v) else want, i1, c1)
  {
    if i1 != 0 {
      ScanAlong(v, i1, c);
    } else {
      ScanAnew(v, m);
      if i0 != -1 {
        ScanDown(v, i0, c);
      }
    }
  }

  lemma ScanAlong(v: seq<nat>, i: nat, c: nat)
    requires 0 < i < |v| && c >= 1
    ensures LooksAt(v, Rest(v, i - 1, c), i, c)
  {
    Unroll(v, i, c);
  }

  lemma ScanAnew(v: seq<nat>, m: nat)
    requires v != [] && m == MaxOf(v) && m >= 1
    ensures LooksAt(v, Cycle(v), 0, m)
  {
    Unroll(v, 0, m);
  }

  lemma ScanDown(v: seq<nat>, i: nat, c: nat)
    requires i + 1 == |v| && c >= 1
    ensures c == 1 ==> Rest(v, i, c) == []
    ensures c > 1 ==> LooksAt(v, Rest(v, i, c), 0, c - 1)
  {
    RoundEnds(v, i, c);
    if c > 1 {
      Unroll(v, 0, c - 1);
    }
  }

  lemma RoundEnds(v: seq<nat>, i: nat, c: nat)
    requires i + 1 == |v| && c >= 1
    ensures Rest(v, i, c) == Rounds(v, c - 1)
  {
    assert Tail(v, i + 1, c) == [];
  }

  lemma Unroll(v: seq<nat>, i: nat, c: nat)
    requires i < |v| && c >= 1
    ensures Pending(v, i, c) == (if v[i] >= c then [i] else []) + Rest(v, i, c)
    ensures i == 0 ==> Pending(v, i, c) == Rounds(v, c)
    ensures i > 0 ==> Pending(v, i, c) == Rest(v, i - 1, c)
  {
    Associative(if v[i] >= c then [i] else [], Tail(v, i + 1, c), Rounds(v, c - 1));
  }

  /** What is left of a cycle when index `i` is the next to be looked at on level `c`. */
  function Pending(v: seq<nat>, i: nat, c: nat): seq<nat>
    requires c >= 1
  {
    Tail(v, i, c) + Rounds(v, c - 1)
  }

  /** Filling the hole with the last element loses nothing but the removed one. */
  lemma SwapRemove<T>(s: seq<T>, i: nat)
    requires i < |s|
    ensures multiset(s[i := s[|s| - 1]][..|s| - 1]) == multiset(s) - multiset{s[i]}
  {
    var n := |s| - 1;
    if i < n {
      assert s == s[..i] + [s[i]] + s[i + 1..n] + [s[n]];
      assert s[i := s[n]][..n] == s[..i] + [s[n]] + s[i + 1..n];
    } else {
      assert s == s[..n] + [s[n]];
      assert s[i := s[n]][..n] == s[..n];
    }
  }
}
