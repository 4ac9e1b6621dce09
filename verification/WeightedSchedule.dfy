/** The order in which a weighted round-robin pool serves its backends, described
    without the scanning algorithm.

    Weights are scaled by their common divisor: backend `i` has share `v[i]`. A full
    cycle runs through the levels from the largest share down to 1; the round of level
    `c` serves, in index order, every backend whose share is at least `c`. */
module WeightedSchedule {

  /** Indices from `i` on whose share reaches level `c`. */
  function Tail(v: seq<nat>, i: nat, c: nat): seq<nat>
    decreases |v| - i
  {
    if i >= |v| then [] else (if v[i] >= c then [i] else []) + Tail(v, i + 1, c)
  }

  /** The rounds of levels `c`, `c - 1`, ..., 1. */
  function Rounds(v: seq<nat>, c: nat): seq<nat> {
    if c == 0 then [] else Tail(v, 0, c) + Rounds(v, c - 1)
  }

  function MaxOf(v: seq<nat>): nat {
    if v == [] then 0
    else var m := MaxOf(v[..|v| - 1]); if v[|v| - 1] > m then v[|v| - 1] else m
  }

  function SumOf(v: seq<nat>): nat {
    if v == [] then 0 else SumOf(v[..|v| - 1]) + v[|v| - 1]
  }

  function Cycle(v: seq<nat>): seq<nat> {
    Rounds(v, MaxOf(v))
  }

  /** What is left of the cycle once index `i` has been served at level `c`. */
  function Rest(v: seq<nat>, i: nat, c: nat): seq<nat>
    requires c >= 1
  {
    Tail(v, i + 1, c) + Rounds(v, c - 1)
  }

  lemma {:induction false} MaxIsMax(v: seq<nat>)
    ensures forall i :: 0 <= i < |v| ==> v[i] <= MaxOf(v)
    ensures v != [] ==> exists i :: 0 <= i < |v| && v[i] == MaxOf(v)
  {
    if v != [] {
      MaxIsMax(v[..|v| - 1]);
      if v[|v| - 1] <= MaxOf(v[..|v| - 1]) && |v| > 1 {
        var i :| 0 <= i < |v| - 1 && v[i] == MaxOf(v[..|v| - 1]);
      }
    }
  }

  // ----- How often each backend is served ------------------------------------------

  /** How often `k` is served. */
  function Count(s: seq<nat>, k: nat): nat {
    if s == [] then 0 else (if s[0] == k then 1 else 0) + Count(s[1..], k)
  }

  lemma {:induction false} CountAppend(a: seq<nat>, b: seq<nat>, k: nat)
    ensures Count(a + b, k) == Count(a, k) + Count(b, k)
  {
    if a == [] {
      assert a + b == b;
    } else {
      assert (a + b)[1..] == a[1..] + b;
      CountAppend(a[1..], b, k);
    }
  }

  lemma {:induction false} TailCount(v: seq<nat>, i: nat, c: nat, k: nat)
    ensures Count(Tail(v, i, c), k) == if i <= k < |v| && v[k] >= c then 1 else 0
    decreases |v| - i
  {
    if i < |v| {
      TailCount(v, i + 1, c, k);
      if v[i] >= c {
        assert ([i] + Tail(v, i + 1, c))[1..] == Tail(v, i + 1, c);
      } else {
        assert [] + Tail(v, i + 1, c) == Tail(v, i + 1, c);
      }
    }
  }

  lemma {:induction false} RoundsCount(v: seq<nat>, c: nat, k: nat)
    ensures Count(Rounds(v, c), k) == if k >= |v| then 0 else if v[k] <= c then v[k] else c
  {
    if c > 0 {
      TailCount(v, 0, c, k);
      RoundsCount(v, c - 1, k);
      CountAppend(Tail(v, 0, c), Rounds(v, c - 1), k);
    }
  }

  /** A cycle serves backend `k` exactly as often as its share says. */
  lemma CycleCount(v: seq<nat>, k: nat)
    ensures Count(Cycle(v), k) == if k < |v| then v[k] else 0
  {
    MaxIsMax(v);
    RoundsCount(v, MaxOf(v), k);
  }

  lemma {:induction false} TailSnoc(v: seq<nat>, i: nat, c: nat)
    requires v != [] && i <= |v| - 1
    ensures Tail(v, i, c) == Tail(v[..|v| - 1], i, c) + (if v[|v| - 1] >= c then [|v| - 1] else [])
    decreases |v| - i
  {
    if i < |v| - 1 {
      TailSnoc(v, i + 1, c);
    } else {
      assert Tail(v, i + 1, c) == [];
    }
  }

  lemma {:induction false} RoundsLength(v: seq<nat>, c: nat)
    requires v != []
    ensures |Rounds(v, c)| == |Rounds(v[..|v| - 1], c)| + (if v[|v| - 1] <= c then v[|v| - 1] else c)
  {
    if c > 0 {
      TailSnoc(v, 0, c);
      RoundsLength(v, c - 1);
    }
  }

  lemma {:induction false} RoundsSum(v: seq<nat>, c: nat)
    requires forall i :: 0 <= i < |v| ==> v[i] <= c
    ensures |Rounds(v, c)| == SumOf(v)
  {
    if v == [] {
      RoundsOfNone(c);
    } else {
      RoundsLength(v, c);
      RoundsSum(v[..|v| - 1], c);
    }
  }

  lemma {:induction false} RoundsOfNone(c: nat)
    ensures Rounds([], c) == []
  {
    if c > 0 {
      RoundsOfNone(c - 1);
    }
  }

  /** A cycle is as long as the shares add up to. */
  lemma CycleLength(v: seq<nat>)
    ensures |Cycle(v)| == SumOf(v)
  {
    MaxIsMax(v);
    RoundsSum(v, MaxOf(v));
  }

  // ----- Positions on the cycle -------------------------------------------------------

  predicate IsSuffix(r: seq<nat>, s: seq<nat>) {
    |r| <= |s| && r == s[|s| - |r|..]
  }

  lemma SuffixAppend(r: seq<nat>, s: seq<nat>, t: seq<nat>)
    requires IsSuffix(r, s)
    ensures IsSuffix(r + t, s + t)
  {
    assert s + t == s[..|s| - |r|] + (r + t);
  }

  lemma SuffixTransitive(r: seq<nat>, s: seq<nat>, t: seq<nat>)
    requires IsSuffix(r, s) && IsSuffix(s, t)
    ensures IsSuffix(r, t)
  {}

  lemma {:induction false} TailSuffix(v: seq<nat>, i: nat, j: nat, c: nat)
    requires j <= i <= |v|
    ensures IsSuffix(Tail(v, i, c), Tail(v, j, c))
    decreases i - j
  {
    if j < i {
      TailSuffix(v, i, j + 1, c);
    }
  }

  lemma {:induction false} RoundsSuffix(v: seq<nat>, c: nat, d: nat)
    requires c <= d
    ensures IsSuffix(Rounds(v, c), Rounds(v, d))
    decreases d
  {
    if c < d {
      RoundsSuffix(v, c, d - 1);
    }
  }

  /** Whatever is left of a cycle is a suffix of it. */
  lemma RestSuffix(v: seq<nat>, i: nat, c: nat)
    requires i < |v| && 1 <= c <= MaxOf(v)
    ensures IsSuffix(Rest(v, i, c), Cycle(v))
  {
    TailSuffix(v, i + 1, 0, c);
    SuffixAppend(Tail(v, i + 1, c), Tail(v, 0, c), Rounds(v, c - 1));
    RoundsSuffix(v, c, MaxOf(v));
    SuffixTransitive(Rest(v, i, c), Rounds(v, c), Cycle(v));
  }

  /** And a proper one once somebody has been served. */
  lemma RestShorter(v: seq<nat>, i: nat, c: nat)
    requires i < |v| && 1 <= c <= MaxOf(v) && v[i] >= c
    ensures |Rest(v, i, c)| < |Cycle(v)|
  {
    assert |Tail(v, i, c)| == 1 + |Tail(v, i + 1, c)|;
    TailSuffix(v, i, 0, c);
    RoundsSuffix(v, c, MaxOf(v));
  }

  // ----- Windows --------------------------------------------------------------------------

  /** The next `k` backends served when `rest` is left of the current `cycle`. */
  function Draw(cycle: seq<nat>, rest: seq<nat>, k: nat): seq<nat>
    requires cycle != []
    decreases k
  {
    if k == 0 then []
    else if rest != [] then [rest[0]] + Draw(cycle, rest[1..], k - 1)
    else [cycle[0]] + Draw(cycle, cycle[1..], k - 1)
  }

  /** What is left of the current cycle after `k` further selections. */
  function Left(cycle: seq<nat>, rest: seq<nat>, k: nat): seq<nat>
    requires cycle != []
    decreases k
  {
    if k == 0 then rest
    else Left(cycle, if rest != [] then rest[1..] else cycle[1..], k - 1)
  }

  lemma {:induction false} DrawWithin(cycle: seq<nat>, rest: seq<nat>, k: nat)
    requires cycle != [] && k <= |rest|
    ensures Draw(cycle, rest, k) == rest[..k] && Left(cycle, rest, k) == rest[k..]
    decreases k
  {
    if k > 0 {
      DrawWithin(cycle, rest[1..], k - 1);
    }
  }

  lemma {:induction false} DrawAppend(cycle: seq<nat>, rest: seq<nat>, j: nat, k: nat)
    requires cycle != []
    ensures Draw(cycle, rest, j + k) == Draw(cycle, rest, j) + Draw(cycle, Left(cycle, rest, j), k)
    ensures Left(cycle, rest, j + k) == Left(cycle, Left(cycle, rest, j), k)
    decreases j
  {
    if j > 0 {
      DrawAppend(cycle, if rest != [] then rest[1..] else cycle[1..], j - 1, k);
    }
  }

  lemma DrawFresh(cycle: seq<nat>, k: nat)
    requires cycle != [] && k <= |cycle|
    ensures Draw(cycle, [], k) == cycle[..k]
    ensures Left(cycle, [], k) == if k == 0 then [] else cycle[k..]
  {
    if k > 0 {
      DrawWithin(cycle, cycle[1..], k - 1);
    }
  }

  lemma WindowContents(cycle: seq<nat>, rest: seq<nat>)
    requires cycle != [] && IsSuffix(rest, cycle)
    ensures Draw(cycle, rest, |cycle|) == rest + cycle[..|cycle| - |rest|]
    ensures Left(cycle, rest, |cycle|) == if rest == cycle then [] else rest
  {
    var r, k := |rest|, |cycle| - |rest|;
    DrawAll(cycle, rest);
    DrawAppend(cycle, rest, r, k);
    DrawFresh(cycle, k);
    assert r + k == |cycle|;
    if k == 0 {
      assert rest == cycle[0..];
    }
  }

  lemma DrawAll(cycle: seq<nat>, rest: seq<nat>)
    requires cycle != []
    ensures Draw(cycle, rest, |rest|) == rest && Left(cycle, rest, |rest|) == []
  {
    DrawWithin(cycle, rest, |rest|);
  }

  /** Exact weighted fairness: from the start, or from any point of a cycle, every
      window of one cycle's length serves each backend exactly its share of times and
      ends where it began. */
  lemma WindowIsFair(v: seq<nat>, rest: seq<nat>)
    requires Cycle(v) != [] && IsSuffix(rest, Cycle(v))
    ensures |Cycle(v)| == SumOf(v)
    ensures forall k :: 0 <= k < |v| ==> Count(Draw(Cycle(v), rest, SumOf(v)), k) == v[k]
    ensures Left(Cycle(v), rest, SumOf(v)) == if rest == Cycle(v) then [] else rest
  {
    CycleLength(v);
    WindowContents(Cycle(v), rest);
    var head := Cycle(v)[..|Cycle(v)| - |rest|];
    assert Cycle(v) == head + rest;
    forall k | 0 <= k < |v| ensures Count(Draw(Cycle(v), rest, SumOf(v)), k) == v[k] {
      CycleCount(v, k);
      CountAppend(head, rest, k);
      CountAppend(rest, head, k);
    }
  }
}
