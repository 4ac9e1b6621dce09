/** One route's peers, known by address: a slice with swap-remove and a round-robin
    counter of 64 bits. */
module PeerLists {
  import opened Hostnames
  import opened Sorting
  import LB = LoadBalancer

  const WORD := 0x1_0000_0000_0000_0000

  class PeerList {
    var peers: seq<string>
    var counter: nat

    /** Nobody is listed twice. */
    ghost predicate Valid()
      reads this
    {
      counter < WORD && Distinct(peers)
    }

    constructor ()
      ensures Valid() && peers == [] && counter == 0
    {
      peers, counter := [], 0;
    }

    /** The position of a peer, or the length of the list. */
    method Find(p: string) returns (i: nat)
      ensures i <= |peers| && p !in peers[..i] && (i < |peers| ==> peers[i] == p)
    {
      i := 0;
      while i < |peers| && peers[i] != p
        invariant i <= |peers| && p !in peers[..i]
      {
        i := i + 1;
      }
    }

    method Add(p: string)
      requires Valid()
      modifies this`peers
      ensures Valid()
      ensures peers == if p in old(peers) then old(peers) else old(peers) + [p]
    {
      var i := Find(p);
      if i == |peers| {
        assert peers[..i] == peers;
        peers := peers + [p];
      }
    }

    /** The last peer fills the hole: the others stay, in whatever order. */
    method Remove(p: string)
      requires Valid()
      modifies this`peers
      ensures Valid()
      ensures multiset(peers) == multiset(old(peers)) - multiset{p}
      ensures forall q :: q in peers <==> q in old(peers) && q != p
    {
      var i := Find(p);
      if i < |peers| {
        Filled(peers, i);
        var last := |peers| - 1;
        peers := peers[i := peers[last]][..last];
      } else {
        assert peers[..i] == peers;
        Member(peers, p);
      }
    }

    method IsEmpty() returns (r: bool)
      ensures r <==> forall q :: q !in peers
    {
      r := |peers| == 0;
      assert !r ==> peers[0] in peers;
    }

    method Select() returns (r: Option<string>)
      requires Valid()
      modifies this`counter
      ensures Valid()
      ensures peers == [] ==> r == None && counter == old(counter)
      ensures peers != [] ==> counter == (old(counter) + 1) % WORD && r == Some(Pick(peers, old(counter)))
    {
      if |peers| == 0 { return None; }
      counter := (counter + 1) % WORD;
      r := Some(peers[counter % |peers|]);
    }
  }

  /** The peer chosen when the counter stands at `c`. */
  function Pick(peers: seq<string>, c: nat): (r: string)
    requires peers != []
    ensures r in peers
  {
    peers[SlotAt(WORD, |peers|, c, 0)]
  }

  /** Without its peer at `i`, a list of distinct peers holds the others, still distinct. */
  lemma Filled(s: seq<string>, i: nat)
    requires i < |s| && Distinct(s)
    ensures var r := s[i := s[|s| - 1]][..|s| - 1];
            && multiset(r) == multiset(s) - multiset{s[i]}
            && (forall q :: q in r <==> q in s && q != s[i])
            && Distinct(r)
  {
    LB.SwapRemove(s, i);
    var r := s[i := s[|s| - 1]][..|s| - 1];
    DistinctOnce(s, s[i]);
    forall q ensures q in r <==> q in s && q != s[i] {
      Member(r, q);
      Member(s, q);
    }
  }

  lemma Member(s: seq<string>, q: string)
    ensures q in s <==> multiset(s)[q] > 0
  {
    assert q in s <==> q in multiset(s);
  }

  /** What `n` calls in a row choose. */
  function Picks(peers: seq<string>, c: nat, n: nat): seq<string>
    requires peers != []
  {
    seq(n, i requires 0 <= i < n => Pick(peers, c + i))
  }

  /** Round robin: any `|peers|` calls in a row choose every peer exactly once if and only
      if the counter does not wrap among them, or wraps just before them, or the number of
      peers divides its range. */
  lemma RoundRobin(peers: seq<string>, c: nat)
    requires peers != [] && Distinct(peers) && |peers| <= WORD && c < WORD
    ensures multiset(Picks(peers, c, |peers|)) == multiset(peers)
            <==> c + |peers| < WORD || c + 1 == WORD || WORD % |peers| == 0
  {
    var n := |peers|;
    if c + n < WORD {
      forall i | 0 <= i < n ensures SlotAt(WORD, n, c, i) == (c + 1 + i) % n {
        Within(WORD, c + 1 + i);
      }
      Rotated(peers, c, c + 1);
    } else if c + 1 == WORD {
      forall i | 0 <= i < n ensures SlotAt(WORD, n, c, i) == (0 + i) % n {
        Past(WORD, c + 1 + i, i);
      }
      Rotated(peers, c, 0);
    } else if WORD % n == 0 {
      forall i | 0 <= i < n ensures SlotAt(WORD, n, c, i) == (c + 1 + i) % n {
        ModMod(WORD, n, c + 1 + i);
      }
      Rotated(peers, c, c + 1);
    } else {
      Skipped(peers, c);
    }
  }

  /** The index of the `i`th choice from counter `c` on, with a counter of range `w`. */
  function SlotAt(w: nat, n: nat, c: nat, i: nat): nat
    requires w > 0 && n > 0
  {
    ((c + 1 + i) % w) % n
  }

  lemma PickIs(peers: seq<string>, c: nat, i: nat)
    requires i < |peers|
    ensures SlotAt(WORD, |peers|, c, i) < |peers|
    ensures Picks(peers, c, |peers|)[i] == peers[SlotAt(WORD, |peers|, c, i)]
  {
    var n := |peers|;
    assert Picks(peers, c, n)[i] == Pick(peers, c + i) == peers[SlotAt(WORD, n, c + i, 0)];
    assert (c + i) + 1 + 0 == c + 1 + i;
    assert SlotAt(WORD, n, c + i, 0) == SlotAt(WORD, n, c, i);
  }

  /** Choices that go round the list from `a` on choose everybody once. */
  lemma Rotated(peers: seq<string>, c: nat, a: nat)
    requires peers != []
    requires forall i :: 0 <= i < |peers| ==> SlotAt(WORD, |peers|, c, i) == (a + i) % |peers|
    ensures multiset(Picks(peers, c, |peers|)) == multiset(peers)
  {
    var n := |peers|;
    var s := a % n;
    var rotated := peers[s..] + peers[..s];
    forall i | 0 <= i < n ensures Picks(peers, c, n)[i] == rotated[i] {
      PickIs(peers, c, i);
      assert SlotAt(WORD, n, c, i) == (a + i) % n;
      Shifted(a, i, n);
    }
    assert Picks(peers, c, n) == rotated;
    assert peers == peers[..s] + peers[s..];
  }

  /** A counter that wraps in between comes back to a peer it has just chosen. */
  lemma Skipped(peers: seq<string>, c: nat)
    requires peers != [] && Distinct(peers) && c + 1 < WORD <= c + |peers| && WORD % |peers| != 0
    requires |peers| <= WORD
    ensures multiset(Picks(peers, c, |peers|)) != multiset(peers)
  {
    var n := |peers|;
    var i, j := Collision(WORD, n, c);
    var picks := Picks(peers, c, n);
    PickIs(peers, c, i);
    PickIs(peers, c, j);
    TwiceCounts(picks, i, j);
    DistinctOnce(peers, picks[i]);
  }

  lemma Collision(w: nat, n: nat, c: nat) returns (i: nat, j: nat)
    requires 0 < n <= w && c + 1 < w <= c + n && w % n != 0
    ensures i < j < n && SlotAt(w, n, c, i) == SlotAt(w, n, c, j)
  {
    var k, q, m := w - (c + 1), w / n, w % n;
    if m >= k {
      i, j := 0, m;
      Within(w, c + 1);
      LB.DivUnique(c + 1, n, q, m - k);
      Past(w, c + 1 + m, m - k);
      LB.DivUnique(m - k, n, 0, m - k);
    } else {
      i, j := k - m, k;
      Within(w, c + 1 + i);
      LB.DivUnique(c + 1 + i, n, q, 0);
      Past(w, c + 1 + k, 0);
      LB.DivUnique(0, n, 0, 0);
    }
  }

  lemma Within(w: nat, x: nat)
    requires x < w
    ensures x % w == x
  {
    LB.DivUnique(x, w, 0, x);
  }

  lemma Past(w: nat, x: nat, r: nat)
    requires r < w && x == w + r
    ensures x % w == r
  {
    LB.DivUnique(x, w, 1, r);
  }

  lemma ModMod(w: nat, n: nat, x: nat)
    requires w > 0 && n > 0 && w % n == 0
    ensures (x % w) % n == x % n
  {
    var p, a, r := w / n, x / w, x % w;
    var b, s := r / n, r % n;
    assert x == w * a + r && w == n * p && r == n * b + s;
    Nested(n, p, a, b);
    LB.DivUnique(x, n, p * a + b, s);
  }

  lemma Nested(n: nat, p: nat, a: nat, b: nat)
    ensures (n * p) * a + n * b == n * (p * a + b)
  {
  }

  lemma Shifted(a: nat, i: nat, n: nat)
    requires i < n
    ensures (a + i) % n == if a % n + i < n then a % n + i else a % n + i - n
  {
    var q, s := a / n, a % n;
    if s + i < n {
      LB.DivUnique(a + i, n, q, s + i);
    } else {
      assert n * (q + 1) == n * q + n;
      LB.DivUnique(a + i, n, q + 1, s + i - n);
    }
  }
}
