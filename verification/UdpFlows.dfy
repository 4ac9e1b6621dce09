/** The public UDP listener's flow table: a map from client address to flow, and a list
    in order of last use that both kinds of eviction take from the back of.

    A map entry that points at a list element is represented by the flow the element
    holds; `Valid` keeps the two in step. Times are clock readings, which never go
    backwards; `removed` records the RemoveClient calls that eviction makes. */
module UdpFlows {

  datatype Flow = Flow(key: string, clientID: int, lastSeen: int)

  // ----- Lists of flows ----------------------------------------------------------------

  ghost predicate DistinctKeys(fs: seq<Flow>) {
    forall i, j :: 0 <= i < j < |fs| ==> fs[i].key != fs[j].key
  }

  /** Most recently used first. */
  ghost predicate Ordered(fs: seq<Flow>) {
    forall i, j :: 0 <= i < j < |fs| ==> fs[i].lastSeen >= fs[j].lastSeen
  }

  function Without(fs: seq<Flow>, key: string): (r: seq<Flow>)
    ensures |r| <= |fs|
  {
    if fs == [] then []
    else if fs[0].key == key then Without(fs[1..], key)
    else [fs[0]] + Without(fs[1..], key)
  }

  lemma {:induction false} WithoutFrom(fs: seq<Flow>, key: string, j: nat)
    requires j < |Without(fs, key)|
    ensures Without(fs, key)[j] in fs && Without(fs, key)[j].key != key
  {
    if fs[0].key == key {
      WithoutFrom(fs[1..], key, j);
    } else if j > 0 {
      WithoutFrom(fs[1..], key, j - 1);
    }
  }

  lemma {:induction false} WithoutKeeps(fs: seq<Flow>, key: string)
    requires DistinctKeys(fs) && Ordered(fs)
    ensures DistinctKeys(Without(fs, key)) && Ordered(Without(fs, key))
  {
    if fs != [] {
      WithoutKeeps(fs[1..], key);
      var r := Without(fs[1..], key);
      forall j | 0 <= j < |r| ensures r[j].key != fs[0].key && r[j].lastSeen <= fs[0].lastSeen {
        WithoutFrom(fs[1..], key, j);
      }
    }
  }

  /** The map that goes with a list of flows. */
  function Index(fs: seq<Flow>): map<string, Flow> {
    if fs == [] then map[] else Index(fs[1..])[fs[0].key := fs[0]]
  }

  lemma {:induction false} IndexHolds(fs: seq<Flow>, k: string)
    ensures k in Index(fs) ==> Index(fs)[k] in fs && Index(fs)[k].key == k
    ensures k !in Index(fs) ==> Without(fs, k) == fs
  {
    if fs != [] {
      IndexHolds(fs[1..], k);
    }
  }

  lemma {:induction false} IndexWithout(fs: seq<Flow>, key: string)
    ensures Index(Without(fs, key)) == Index(fs) - {key}
  {
    if fs != [] {
      IndexWithout(fs[1..], key);
      if fs[0].key != key {
        assert Without(fs, key)[1..] == Without(fs[1..], key);
      }
    }
  }

  lemma {:induction false} IndexPop(fs: seq<Flow>)
    requires fs != [] && DistinctKeys(fs)
    ensures Index(fs[..|fs| - 1]) == Index(fs) - {fs[|fs| - 1].key}
  {
    if |fs| > 1 {
      IndexPop(fs[1..]);
      assert fs[1..][..|fs| - 2] == fs[..|fs| - 1][1..];
    }
  }

  /** Whether a flow has been idle for longer than the timeout; with no timeout set, every
      flow counts as expired. */
  predicate Expired(f: Flow, now: int, timeout: int) {
    !(timeout > 0 && now - f.lastSeen <= timeout)
  }

  /** The specification of eviction: drop what has expired ... */
  function Live(fs: seq<Flow>, now: int, timeout: int): (r: seq<Flow>)
    ensures |r| <= |fs|
  {
    if fs == [] then []
    else (if Expired(fs[0], now, timeout) then [] else [fs[0]]) + Live(fs[1..], now, timeout)
  }

  /** ... and keep the `max` most recent of the rest. */
  function Survivors(fs: seq<Flow>, now: int, timeout: int, max: nat): seq<Flow> {
    var live := Live(fs, now, timeout);
    if |live| <= max then live else live[..max]
  }

  /** In an ordered list the live flows are a prefix. */
  lemma {:induction false} LiveIsPrefix(fs: seq<Flow>, now: int, timeout: int, k: nat)
    requires Ordered(fs) && k <= |fs|
    requires forall i :: k <= i < |fs| ==> Expired(fs[i], now, timeout)
    requires k > 0 ==> !Expired(fs[k - 1], now, timeout)
    ensures Live(fs, now, timeout) == fs[..k]
  {
    if fs != [] {
      if k == 0 {
        LiveIsPrefix(fs[1..], now, timeout, 0);
      } else {
        assert !Expired(fs[0], now, timeout);
        LiveIsPrefix(fs[1..], now, timeout, k - 1);
        assert fs[..k] == [fs[0]] + fs[1..][..k - 1];
      }
    }
  }

  lemma LiveEnd(fs: seq<Flow>, now: int, timeout: int) returns (k: nat)
    requires Ordered(fs)
    ensures k <= |fs| && Live(fs, now, timeout) == fs[..k]
    ensures forall i :: 0 <= i < |fs| ==> (Expired(fs[i], now, timeout) <==> k <= i)
  {
    k := |fs|;
    while k > 0 && Expired(fs[k - 1], now, timeout)
      invariant k <= |fs| && forall i :: k <= i < |fs| ==> Expired(fs[i], now, timeout)
    {
      k := k - 1;
    }
    LiveIsPrefix(fs, now, timeout, k);
    if k > 0 {
      assert forall i :: 0 <= i < k ==> fs[i].lastSeen >= fs[k - 1].lastSeen;
    }
  }

  /** Whoever survives is live, and whoever does not has expired or is older than `max`
      flows that survive. */
  lemma SurvivorsMostRecent(fs: seq<Flow>, now: int, timeout: int, max: nat)
    requires Ordered(fs)
    ensures var s := Survivors(fs, now, timeout, max);
            && s <= fs && |s| <= max
            && (forall i :: 0 <= i < |s| ==> !Expired(s[i], now, timeout))
            && (forall j :: |s| <= j < |fs| && !Expired(fs[j], now, timeout) ==>
                  |s| == max && forall i :: 0 <= i < |s| ==> s[i].lastSeen >= fs[j].lastSeen)
  {
    var k := LiveEnd(fs, now, timeout);
    assert Survivors(fs, now, timeout, max) == fs[..if k <= max then k else max];
  }

  /** The client ids of a list of flows, last one first. */
  function IdsFromBack(fs: seq<Flow>): seq<int> {
    if fs == [] then [] else [fs[|fs| - 1].clientID] + IdsFromBack(fs[..|fs| - 1])
  }

  class UdpFlowTable {
    var flows: map<string, Flow>
    var lru: seq<Flow>
    var idleTimeout: int
    const maxFlows: nat
    var removed: seq<int>

    /** The map and the list hold the same flows, one per key, in order of last use. */
    ghost predicate Valid()
      reads this
    {
      && DistinctKeys(lru) && Ordered(lru)
      && flows == Index(lru)
    }

    /** No flow has been seen later than `now`. */
    ghost predicate Past(now: int)
      reads this
    {
      forall i :: 0 <= i < |lru| ==> lru[i].lastSeen <= now
    }

    constructor (idleTimeout: int, maxFlows: int)
      ensures Valid() && lru == [] && removed == [] && this.idleTimeout == idleTimeout
      ensures this.maxFlows == if maxFlows <= 0 then 200_000 else maxFlows
    {
      flows, lru, removed := map[], [], [];
      this.idleTimeout := idleTimeout;
      this.maxFlows := if maxFlows <= 0 then 200_000 else maxFlows;
    }

    method SetIdleTimeout(t: int)
      requires Valid()
      modifies this`idleTimeout
      ensures Valid() && idleTimeout == t
    {
      idleTimeout := t;
    }

    /** A hit moves the flow to the front with a fresh time; nothing else changes. */
    method Get(key: string, now: int) returns (hit: bool, f: Flow)
      requires Valid() && Past(now)
      modifies this`flows, this`lru
      ensures Valid() && Past(now)
      ensures hit <==> key in old(flows)
      ensures !hit ==> flows == old(flows) && lru == old(lru)
      ensures hit ==> f == old(flows)[key].(lastSeen := now) && lru == [f] + Without(old(lru), key)
    {
      if key !in flows {
        return false, Flow("", 0, 0);
      }
      IndexHolds(lru, key);
      f := flows[key].(lastSeen := now);
      PutFront(f, now);
      return true, f;
    }

    /** Puts a flow at the front in place of any flow with its key. */
    method PutFront(f: Flow, now: int)
      requires Valid() && Past(now) && f.lastSeen == now
      modifies this`flows, this`lru
      ensures Valid() && Past(now)
      ensures lru == [f] + Without(old(lru), f.key) && flows == old(flows)[f.key := f]
    {
      WithoutKeeps(lru, f.key);
      IndexWithout(lru, f.key);
      ghost var rest := Without(lru, f.key);
      forall i | 0 <= i < |rest| ensures rest[i].key != f.key && rest[i].lastSeen <= now {
        WithoutFrom(lru, f.key, i);
      }
      lru := [f] + Without(lru, f.key);
      flows := flows[f.key := f];
      assert lru[1..] == rest;
    }

    method Remove(key: string) returns (hit: bool)
      requires Valid()
      modifies this`flows, this`lru
      ensures Valid()
      ensures hit <==> key in old(flows)
      ensures flows == old(flows) - {key} && lru == Without(old(lru), key)
    {
      hit := key in flows;
      IndexHolds(lru, key);
      if !hit {
        return;
      }
      WithoutKeeps(lru, key);
      IndexWithout(lru, key);
      lru := Without(lru, key);
      flows := flows - {key};
    }

    /** Adds a flow, replacing one with the same key, and evicts. */
    method Add(key: string, clientID: int, now: int)
      requires Valid() && Past(now)
      modifies this`flows, this`lru, this`removed
      ensures Valid() && Past(now)
      ensures var all := [Flow(key, clientID, now)] + Without(old(lru), key);
              && lru == Survivors(all, now, idleTimeout, maxFlows)
              && removed == old(removed) + IdsFromBack(all[|lru|..])
    {
      PutFront(Flow(key, clientID, now), now);
      Evict(now);
    }

    /** The list is what is left of `all`, and everything else of it has been reported. */
    ghost predicate Dropped(all: seq<Flow>, base: seq<int>)
      reads this
    {
      |lru| <= |all| && lru == all[..|lru|] && removed == base + IdsFromBack(all[|lru|..])
    }

    /** Removes the flow at the back and tells its backend. */
    method PopBack(ghost all: seq<Flow>, ghost base: seq<int>)
      requires Valid() && lru != [] && Dropped(all, base)
      modifies this`flows, this`lru, this`removed
      ensures Valid() && |lru| == |old(lru)| - 1 && Dropped(all, base)
    {
      BackGrows(all, |lru|);
      IndexPop(lru);
      var f := lru[|lru| - 1];
      lru := lru[..|lru| - 1];
      flows := flows - {f.key};
      removed := removed + [f.clientID];
    }

    /** Eviction works from the back only, and yet leaves exactly the live flows, at most
        `maxFlows` of them and the most recent ones, with one RemoveClient call for each
        flow it drops and none for a flow it keeps. */
    method Evict(now: int)
      requires Valid() && Past(now)
      modifies this`flows, this`lru, this`removed
      ensures Valid() && Past(now)
      ensures lru == Survivors(old(lru), now, idleTimeout, maxFlows)
      ensures lru == old(lru)[..|lru|] && |lru| <= maxFlows
      ensures removed == old(removed) + IdsFromBack(old(lru)[|lru|..])
    {
      ghost var all, base := lru, removed;
      DropExpired(now, all, base);
      ghost var live := |lru|;
      while |lru| > maxFlows
        invariant Valid() && Dropped(all, base) && |lru| <= live
        invariant |lru| == live || |lru| >= maxFlows
        decreases |lru|
      {
        PopBack(all, base);
      }
      assert all[..live][..|lru|] == all[..|lru|];
    }

    method DropExpired(now: int, ghost all: seq<Flow>, ghost base: seq<int>)
      requires Valid() && lru == all && removed == base
      modifies this`flows, this`lru, this`removed
      ensures Valid() && Dropped(all, base) && lru == Live(all, now, idleTimeout)
    {
      assert all[|all|..] == [];
      while lru != [] && Expired(lru[|lru| - 1], now, idleTimeout)
        invariant Valid() && Dropped(all, base)
        invariant forall i :: |lru| <= i < |all| ==> Expired(all[i], now, idleTimeout)
        decreases |lru|
      {
        PopBack(all, base);
      }
      LiveIsPrefix(all, now, idleTimeout, |lru|);
    }
  }

  lemma BackGrows(all: seq<Flow>, n: nat)
    requires 0 < n <= |all|
    ensures IdsFromBack(all[n - 1..]) == IdsFromBack(all[n..]) + [all[n - 1].clientID]
  {
    IdsPrepend(all[n - 1], all[n..]);
    assert all[n - 1..] == [all[n - 1]] + all[n..];
  }

  lemma {:induction false} IdsPrepend(f: Flow, fs: seq<Flow>)
    ensures IdsFromBack([f] + fs) == IdsFromBack(fs) + [f.clientID]
  {
    if fs != [] {
      assert ([f] + fs)[..|fs|] == [f] + fs[..|fs| - 1];
      IdsPrepend(f, fs[..|fs| - 1]);
    } else {
      assert [f] + fs == [f];
      assert [f][..0] == [];
    }
  }
}
