/** The peer manager's outbound UDP flows: a list in order of last use, two maps into it,
    and a reference on the bandwidth scheduler for every live flow. Calls are whole steps;
    sends, peer lookup and fresh ids are given by the environment. */
module UdpOutbound {
  import opened Schedulers
  import D = DeficitModel

  datatype Key = Key(client: string, dstPort: int)

  datatype Flow = Flow(id: int, key: Key, bandwidthID: string, lastSeen: int, idleTimeout: int)

  // ----- Lists of flows ---------------------------------------------------------------

  ghost predicate Distinct(fs: seq<Flow>) {
    forall i, j :: 0 <= i < j < |fs| ==> fs[i].id != fs[j].id && fs[i].key != fs[j].key
  }

  function ByKey(fs: seq<Flow>): map<Key, Flow> {
    if fs == [] then map[] else ByKey(fs[1..])[fs[0].key := fs[0]]
  }

  function ByID(fs: seq<Flow>): map<int, Flow> {
    if fs == [] then map[] else ByID(fs[1..])[fs[0].id := fs[0]]
  }

  /** The list without the flow of this id. */
  function Drop(fs: seq<Flow>, id: int): (r: seq<Flow>)
    ensures |r| <= |fs|
  {
    if fs == [] then [] else if fs[0].id == id then fs[1..] else [fs[0]] + Drop(fs[1..], id)
  }

  /** How many flows draw on a bandwidth id. */
  function Using(fs: seq<Flow>, b: string): nat {
    if fs == [] then 0 else (if fs[0].bandwidthID == b then 1 else 0) + Using(fs[1..], b)
  }

  lemma {:induction false} Looked(fs: seq<Flow>, f: Flow)
    requires Distinct(fs)
    ensures f in fs <==> f.id in ByID(fs) && ByID(fs)[f.id] == f
    ensures f in fs <==> f.key in ByKey(fs) && ByKey(fs)[f.key] == f
  {
    if fs != [] {
      Looked(fs[1..], f);
      if f in fs[1..] {
        var j :| 0 <= j < |fs| - 1 && fs[1..][j] == f;
        assert fs[j + 1] == f;
      }
    }
  }

  lemma {:induction false} Keyed(fs: seq<Flow>, k: Key)
    ensures k in ByKey(fs) ==> ByKey(fs)[k] in fs && ByKey(fs)[k].key == k
  {
    if fs != [] {
      Keyed(fs[1..], k);
    }
  }

  lemma {:induction false} Identified(fs: seq<Flow>, id: int)
    ensures id in ByID(fs) ==> ByID(fs)[id] in fs && ByID(fs)[id].id == id
  {
    if fs != [] {
      Identified(fs[1..], id);
    }
  }

  lemma {:induction false} DropFrom(fs: seq<Flow>, id: int, j: nat)
    requires j < |Drop(fs, id)|
    ensures Drop(fs, id)[j] in fs
  {
    if fs[0].id != id && j > 0 {
      DropFrom(fs[1..], id, j - 1);
    }
  }

  lemma {:induction false} DropDistinct(fs: seq<Flow>, id: int)
    requires Distinct(fs)
    ensures Distinct(Drop(fs, id)) && forall j :: 0 <= j < |Drop(fs, id)| ==> Drop(fs, id)[j].id != id
  {
    if fs != [] && fs[0].id != id {
      DropDistinct(fs[1..], id);
      var r := Drop(fs[1..], id);
      forall j | 0 <= j < |r| ensures r[j].id != fs[0].id && r[j].key != fs[0].key {
        DropFrom(fs[1..], id, j);
      }
    }
  }

  lemma {:induction false} DropByID(fs: seq<Flow>, f: Flow)
    requires Distinct(fs) && f in fs
    ensures ByID(Drop(fs, f.id)) == ByID(fs) - {f.id} && |Drop(fs, f.id)| == |fs| - 1
  {
    var t := fs[1..];
    if fs[0] == f {
      Absent(t, f);
    } else {
      assert f in t && fs[0].id != f.id;
      DropByID(t, f);
      assert Drop(fs, f.id)[1..] == Drop(t, f.id);
    }
  }

  lemma {:induction false} DropByKey(fs: seq<Flow>, f: Flow)
    requires Distinct(fs) && f in fs
    ensures ByKey(Drop(fs, f.id)) == ByKey(fs) - {f.key}
  {
    var t := fs[1..];
    if fs[0] == f {
      Absent(t, f);
    } else {
      assert f in t && fs[0].id != f.id && fs[0].key != f.key;
      DropByKey(t, f);
      assert Drop(fs, f.id)[1..] == Drop(t, f.id);
    }
  }

  lemma {:induction false} Absent(fs: seq<Flow>, f: Flow)
    requires forall i :: 0 <= i < |fs| ==> fs[i].id != f.id && fs[i].key != f.key
    ensures f.id !in ByID(fs) && f.key !in ByKey(fs)
  {
    if fs != [] {
      Absent(fs[1..], f);
    }
  }

  lemma {:induction false} DropUsing(fs: seq<Flow>, f: Flow, b: string)
    requires Distinct(fs) && f in fs
    ensures Using(Drop(fs, f.id), b) == Using(fs, b) - (if f.bandwidthID == b then 1 else 0)
    ensures f.bandwidthID == b ==> Using(fs, b) >= 1
  {
    if fs[0] != f {
      assert f in fs[1..];
      assert fs[0].id != f.id;
      DropUsing(fs[1..], f, b);
      assert Drop(fs, f.id)[1..] == Drop(fs[1..], f.id);
    }
  }

  // ----- Everyone else's flows ----------------------------------------------------------

  /** The flows of other keys, in order. */
  function Others(fs: seq<Flow>, k: Key): seq<Flow> {
    if fs == [] then [] else (if fs[0].key == k then [] else [fs[0]]) + Others(fs[1..], k)
  }

  lemma {:induction false} OthersDrop(fs: seq<Flow>, f: Flow)
    requires Distinct(fs) && f in fs
    ensures Others(Drop(fs, f.id), f.key) == Others(fs, f.key)
  {
    if fs[0] != f {
      assert f in fs[1..] && fs[0].id != f.id;
      OthersDrop(fs[1..], f);
      assert Drop(fs, f.id)[1..] == Drop(fs[1..], f.id);
    }
  }

  lemma {:induction false} OthersAll(fs: seq<Flow>, k: Key)
    requires k !in ByKey(fs)
    ensures Others(fs, k) == fs
  {
    if fs != [] {
      OthersAll(fs[1..], k);
    }
  }

  lemma OthersFront(g: Flow, fs: seq<Flow>)
    ensures Others([g] + fs, g.key) == Others(fs, g.key)
  {
    assert ([g] + fs)[1..] == fs;
  }

  lemma {:induction false} DropLast(fs: seq<Flow>)
    requires Distinct(fs) && fs != []
    ensures Drop(fs, fs[|fs| - 1].id) == fs[..|fs| - 1]
  {
    var last := fs[|fs| - 1];
    if |fs| > 1 {
      assert fs[1..][|fs| - 2] == last && fs[0].id != last.id;
      DropLast(fs[1..]);
      assert fs[..|fs| - 1] == [fs[0]] + fs[1..][..|fs| - 2];
    }
  }

  // ----- Reaping ------------------------------------------------------------------------

  predicate Expired(f: Flow, now: int) {
    f.idleTimeout > 0 && f.lastSeen > 0 && now - f.lastSeen > f.idleTimeout
  }

  /** What the reaper leaves: it takes expired flows off the back until one is not. */
  function Reaped(fs: seq<Flow>, now: int): seq<Flow> {
    if fs == [] || !Expired(fs[|fs| - 1], now) then fs else Reaped(fs[..|fs| - 1], now)
  }

  ghost predicate AllReaped(fs: seq<Flow>, now: int) {
    forall i :: 0 <= i < |Reaped(fs, now)| ==> !Expired(Reaped(fs, now)[i], now)
  }

  /** No expired flow has a flow behind it that is not expired. */
  ghost predicate ExpiredAtBack(fs: seq<Flow>, now: int) {
    forall i, j :: 0 <= i < j < |fs| && Expired(fs[i], now) ==> Expired(fs[j], now)
  }

  /** Only expired flows go; every expired flow goes if and only if no expired flow is
      shielded by an unexpired one behind it. */
  lemma {:induction false} ReapExact(fs: seq<Flow>, now: int)
    ensures Reaped(fs, now) <= fs
    ensures forall i :: |Reaped(fs, now)| <= i < |fs| ==> Expired(fs[i], now)
    ensures AllReaped(fs, now) <==> ExpiredAtBack(fs, now)
  {
    if fs != [] && Expired(fs[|fs| - 1], now) {
      ReapExact(fs[..|fs| - 1], now);
    } else if fs != [] && !AllReaped(fs, now) {
      var i :| 0 <= i < |fs| && Expired(fs[i], now);
      assert !Expired(fs[|fs| - 1], now);
    }
  }

  /** Most recently seen first. */
  ghost predicate Ordered(fs: seq<Flow>) {
    forall i, j :: 0 <= i < j < |fs| ==> fs[i].lastSeen >= fs[j].lastSeen
  }

  /** Every flow has the same timeout. */
  ghost predicate Uniform(fs: seq<Flow>) {
    forall i, j :: 0 <= i < |fs| && 0 <= j < |fs| ==> fs[i].idleTimeout == fs[j].idleTimeout
  }

  /** With one timeout and a running clock, the reaper misses nothing. */
  lemma UniformReap(fs: seq<Flow>, now: int)
    requires Ordered(fs) && Uniform(fs) && forall i :: 0 <= i < |fs| ==> fs[i].lastSeen > 0
    ensures AllReaped(fs, now)
  {
    assert ExpiredAtBack(fs, now) by {
      forall i, j | 0 <= i < j < |fs| && Expired(fs[i], now) ensures Expired(fs[j], now) {
        assert fs[i].lastSeen >= fs[j].lastSeen && fs[i].idleTimeout == fs[j].idleTimeout;
      }
    }
    ReapExact(fs, now);
  }

  /** A port's own timeout can shield: a flow expired at its ten units stays, because the
      older one behind it has a hundred. */
  lemma MixedReap()
    ensures var fs := [Flow(2, Key("b", 53), "t", 20, 10), Flow(1, Key("a", 123), "u", 10, 100)];
            && Ordered(fs) && Reaped(fs, 50) == fs && Expired(fs[0], 50)
  {
  }

  /** Using a flow, or adding one, keeps the list in order of last use. */
  lemma {:induction false} DropOrdered(fs: seq<Flow>, id: int)
    requires Ordered(fs)
    ensures Ordered(Drop(fs, id))
  {
    if fs != [] && fs[0].id != id {
      DropOrdered(fs[1..], id);
      var r := Drop(fs[1..], id);
      forall j | 0 <= j < |r| ensures fs[0].lastSeen >= r[j].lastSeen {
        DropFrom(fs[1..], id, j);
      }
    }
  }

  /** In order of last use, by a clock that has got to `now`. */
  ghost predicate InOrder(fs: seq<Flow>, now: int) {
    Ordered(fs) && forall i :: 0 <= i < |fs| ==> 0 < fs[i].lastSeen <= now
  }

  lemma DropInOrder(fs: seq<Flow>, id: int, now: int)
    ensures InOrder(fs, now) ==> InOrder(Drop(fs, id), now)
  {
    if InOrder(fs, now) {
      DropOrdered(fs, id);
      forall j | 0 <= j < |Drop(fs, id)| ensures 0 < Drop(fs, id)[j].lastSeen <= now {
        DropFrom(fs, id, j);
      }
    }
  }

  lemma FrontInOrder(g: Flow, fs: seq<Flow>, now: int)
    requires g.lastSeen == now
    ensures now > 0 && InOrder(fs, now) ==> InOrder([g] + fs, now)
  {
  }

  lemma KeptInOrder(fs: seq<Flow>, kept: seq<Flow>, now: int)
    requires kept <= fs
    ensures InOrder(fs, now) ==> InOrder(kept, now)
  {
  }

  lemma TouchOrdered(fs: seq<Flow>, id: int, g: Flow)
    requires InOrder(fs, g.lastSeen) && g.lastSeen > 0
    ensures InOrder([g] + Drop(fs, id), g.lastSeen)
  {
    DropInOrder(fs, id, g.lastSeen);
  }

  // ----- Changes to a list, one at a time -------------------------------------------------

  lemma Took(fs: seq<Flow>, f: Flow)
    requires Distinct(fs) && f in fs
    ensures var r := Drop(fs, f.id);
            && Distinct(r) && |r| == |fs| - 1
            && ByID(r) == ByID(fs) - {f.id} && ByKey(r) == ByKey(fs) - {f.key}
            && forall b :: Using(r, b) == Using(fs, b) - (if f.bandwidthID == b then 1 else 0)
  {
    DropDistinct(fs, f.id);
    DropByID(fs, f);
    DropByKey(fs, f);
    forall b ensures Using(Drop(fs, f.id), b) == Using(fs, b) - (if f.bandwidthID == b then 1 else 0) {
      DropUsing(fs, f, b);
    }
  }

  lemma Put(g: Flow, fs: seq<Flow>)
    requires Distinct(fs) && g.id !in ByID(fs) && g.key !in ByKey(fs)
    ensures var r := [g] + fs;
            && Distinct(r)
            && ByID(r) == ByID(fs)[g.id := g] && ByKey(r) == ByKey(fs)[g.key := g]
            && forall b :: Using(r, b) == Using(fs, b) + (if g.bandwidthID == b then 1 else 0)
  {
    assert ([g] + fs)[1..] == fs;
    forall j | 0 <= j < |fs| ensures fs[j].id != g.id && fs[j].key != g.key {
      Looked(fs, fs[j]);
    }
  }

  // ----- Buckets --------------------------------------------------------------------------

  /** The id has the same bucket in both, or none. */
  ghost predicate Same(before: map<string, D.Bucket>, after: map<string, D.Bucket>, k: string) {
    (k in before <==> k in after) && (k in before && k in after ==> before[k] == after[k])
  }

  /** Nothing changed, except that the bucket of one id may be gone. */
  ghost predicate Fewer(before: map<string, D.Bucket>, after: map<string, D.Bucket>, id: string) {
    after == before || after == before - {id}
  }

  // ----- The manager -----------------------------------------------------------------------

  datatype Outcome = Sent | Throttled | TooLarge | NoPeer | OpenFailed | SendFailed

  /** What a forwarding call meets: the clock, the bandwidth cap, a fresh flow id and the
      answers of the peer. */
  datatype Env = Env(now: int, cap: nat, id: int, idleTimeout: int, hasPeer: bool,
                     fastOk: bool, openOk: bool, firstOk: bool)

  class Manager {
    /** The hub's scheduler; a hub without a bandwidth limit has none, and is not metered. */
    const sched: Scheduler
    const metered: bool
    const maxFlows: nat
    var byKey: map<Key, Flow>
    var byID: map<int, Flow>
    var lru: seq<Flow>
    /** Bandwidth ids of the TCP tunnels that are open. */
    ghost var tunnels: multiset<string>

    /** Both maps index the list, which is within capacity. */
    ghost predicate Table()
      reads this
    {
      Distinct(lru) && |lru| <= maxFlows && maxFlows >= 1 && byKey == ByKey(lru) && byID == ByID(lru)
    }

    /** On a metered hub, every bandwidth id is referenced exactly once for each live flow and tunnel that
        draws on it, and for each removed flow still to be cleaned up. */
    ghost predicate Owed(pending: seq<Flow>)
      reads this, sched
    {
      sched.Valid() && (metered ==> forall b :: sched.Refs(b) == Using(lru, b) + Using(pending, b) + tunnels[b])
    }

    ghost predicate Valid()
      reads this, sched
    {
      Table() && Owed([])
    }

    constructor (sched: Scheduler, metered: bool, maxFlows: int)
      requires sched.Valid() && (metered ==> sched.refCounts == map[])
      ensures Valid() && lru == [] && this.sched == sched && this.metered == metered
      ensures this.maxFlows == if maxFlows <= 0 then 200_000 else maxFlows
    {
      this.sched, this.metered := sched, metered;
      this.maxFlows := if maxFlows <= 0 then 200_000 else maxFlows;
      byKey, byID, lru, tunnels := map[], map[], [], multiset{};
    }

    /** Moves a live flow to the front with a fresh time. */
    method Touch(f: Flow, now: int) returns (g: Flow)
      requires Table() && f in lru
      modifies this`byKey, this`byID, this`lru
      ensures Table() && g == f.(lastSeen := now) && lru == [g] + Drop(old(lru), f.id)
      ensures forall b :: Using(lru, b) == Using(old(lru), b)
    {
      g := f.(lastSeen := now);
      Took(lru, f);
      Put(g, Drop(lru, f.id));
      Looked(lru, f);
      lru := [g] + Drop(lru, f.id);
      byKey := byKey[g.key := g];
      byID := byID[g.id := g];
    }

    method GetByKey(key: Key, now: int) returns (f: Flow, ok: bool)
      requires Table()
      modifies this`byKey, this`byID, this`lru
      ensures Table() && ok == (key in old(byKey))
      ensures !ok ==> unchanged(this)
      ensures ok ==> f.key == key && lru == [f] + Drop(old(lru), f.id) && f == old(byKey)[key].(lastSeen := now)
      ensures forall b :: Using(lru, b) == Using(old(lru), b)
    {
      ok := key in byKey;
      if ok {
        Keyed(lru, key);
        f := Touch(byKey[key], now);
      } else {
        f := Flow(0, key, "", 0, 0);
      }
    }

    method GetByID(id: int, now: int) returns (f: Flow, ok: bool)
      requires Table()
      modifies this`byKey, this`byID, this`lru
      ensures Table() && ok == (id in old(byID))
      ensures !ok ==> unchanged(this)
      ensures ok ==> f.id == id && lru == [f] + Drop(old(lru), id) && f == old(byID)[id].(lastSeen := now)
      ensures forall b :: Using(lru, b) == Using(old(lru), b)
    {
      ok := id in byID;
      if ok {
        Identified(lru, id);
        f := Touch(byID[id], now);
      } else {
        f := Flow(id, Key("", 0), "", 0, 0);
      }
    }

    /** Adds the flow in front unless its key is taken, when the holder is used instead. */
    method AddIfAbsent(flow: Flow, now: int) returns (existing: Flow, added: bool)
      requires Table() && flow.id !in byID
      requires flow.key !in byKey ==> |lru| < maxFlows
      modifies this`byKey, this`byID, this`lru
      ensures Table() && added == (flow.key !in old(byKey))
      ensures added ==> existing == flow.(lastSeen := now) && lru == [existing] + old(lru)
      ensures !added ==> existing == old(byKey)[flow.key].(lastSeen := now)
                         && lru == [existing] + Drop(old(lru), existing.id)
      ensures forall b :: Using(lru, b) == Using(old(lru), b) + (if added && flow.bandwidthID == b then 1 else 0)
    {
      if flow.key in byKey {
        Keyed(lru, flow.key);
        existing := Touch(byKey[flow.key], now);
        return existing, false;
      }
      existing := flow.(lastSeen := now);
      Put(existing, lru);
      lru := [existing] + lru;
      byKey := byKey[existing.key := existing];
      byID := byID[existing.id := existing];
      added := true;
    }

    /** Removal goes by id. A flow that has already left the table is not found, so the
        later holder of its key stays untouched. */
    method Remove(f: Flow) returns (ok: bool)
      requires Table()
      requires f.id in byID ==> byID[f.id].key == f.key && byID[f.id].bandwidthID == f.bandwidthID
      modifies this`byKey, this`byID, this`lru
      ensures Table() && ok == (f.id in old(byID))
      ensures !ok ==> unchanged(this)
      ensures ok ==> lru == Drop(old(lru), f.id)
      ensures ok ==> forall b :: Using(lru, b) == Using(old(lru), b) - (if f.bandwidthID == b then 1 else 0)
    {
      if f.id !in byID { return false; }
      Identified(lru, f.id);
      Took(lru, byID[f.id]);
      lru := Drop(lru, f.id);
      byKey := byKey - {f.key};
      byID := byID - {f.id};
      ok := true;
    }

    /** Releases the reference of a flow that has left the table. */
    method Cleanup(f: Flow, ghost pending: seq<Flow>)
      requires Owed([f] + pending)
      modifies sched
      ensures Owed(pending)
      ensures Fewer(old(sched.backends), sched.backends, f.bandwidthID)
    {
      if metered {
        assert ([f] + pending)[1..] == pending;
        assert sched.Refs(f.bandwidthID) >= 1;
        sched.UnregisterShared(f.bandwidthID);
      }
    }

    /** Removes a flow that may already be gone, releasing its reference if it was not. */
    method Discard(f: Flow)
      requires Valid()
      requires f.id in byID ==> byID[f.id].key == f.key && byID[f.id].bandwidthID == f.bandwidthID
      modifies this`byKey, this`byID, this`lru, sched
      ensures Valid() && lru == if f.id in old(byID) then Drop(old(lru), f.id) else old(lru)
      ensures Fewer(old(sched.backends), sched.backends, f.bandwidthID)
    {
      var ok := Remove(f);
      if ok {
        assert Owed([f]) by { assert [f][1..] == []; }
        assert [f] == [f] + [];
        Cleanup(f, []);
      }
    }

    /** At capacity, the least recently used flow goes. */
    method MakeRoom()
      requires Valid()
      modifies this`byKey, this`byID, this`lru, sched
      ensures Valid() && |lru| < maxFlows
      ensures lru == if |old(lru)| == maxFlows then old(lru)[..maxFlows - 1] else old(lru)
    {
      if |lru| >= maxFlows {
        var back := lru[|lru| - 1];
        Looked(lru, back);
        DropLast(lru);
        ghost var kept := lru[..maxFlows - 1];
        assert Drop(lru, back.id) == kept && |kept| < maxFlows;
        Discard(back);
        assert lru == kept;
      }
    }

    /** Takes the last flow off the table, to be cleaned up later. */
    method RemoveBack(ghost pending: seq<Flow>) returns (back: Flow)
      requires Table() && Owed(pending) && lru != []
      modifies this`byKey, this`byID, this`lru
      ensures Table() && Owed([back] + pending)
      ensures back == old(lru)[|old(lru)| - 1] && lru == old(lru)[..|old(lru)| - 1]
    {
      back := lru[|lru| - 1];
      Looked(lru, back);
      DropLast(lru);
      var ok := Remove(back);
      assert ([back] + pending)[1..] == pending;
    }

    /** Takes the expired flows off the back of the table. */
    method ReapExpired(now: int) returns (evicted: seq<Flow>)
      requires Valid()
      modifies this`byKey, this`byID, this`lru
      ensures Table() && Owed(evicted) && lru == Reaped(old(lru), now)
    {
      evicted := [];
      while lru != [] && Expired(lru[|lru| - 1], now)
        invariant Table() && Owed(evicted) && Reaped(lru, now) == Reaped(old(lru), now)
        decreases |lru|
      {
        var back := RemoveBack(evicted);
        evicted := [back] + evicted;
      }
    }

    /** The reaper removes the expired flows at the back, then releases their references.
        While all timeouts are equal and the clock runs on, it leaves no expired flow. */
    method Reap(now: int)
      requires Valid()
      modifies this`byKey, this`byID, this`lru, sched
      ensures Valid() && lru == Reaped(old(lru), now)
      ensures InOrder(old(lru), now) ==> InOrder(lru, now)
      ensures InOrder(old(lru), now) && Uniform(old(lru)) ==>
                forall i :: 0 <= i < |lru| ==> !Expired(lru[i], now)
    {
      ReapExact(lru, now);
      if InOrder(lru, now) && Uniform(lru) {
        UniformReap(lru, now);
      }
      var evicted := ReapExpired(now);
      while evicted != []
        invariant Table() && Owed(evicted) && lru == Reaped(old(lru), now)
        decreases |evicted|
      {
        assert evicted == [evicted[0]] + evicted[1..];
        Cleanup(evicted[0], evicted[1..]);
        evicted := evicted[1..];
      }
    }

    /** A TCP tunnel holds one reference from open to close. */
    method OpenTunnel(bandwidthID: string, now: int)
      requires Valid()
      modifies this`tunnels, sched
      ensures Valid() && tunnels == old(tunnels) + multiset{bandwidthID}
    {
      if metered {
        sched.RegisterShared(bandwidthID, now);
      }
      tunnels := tunnels + multiset{bandwidthID};
    }

    method CloseTunnel(bandwidthID: string)
      requires Valid() && bandwidthID in tunnels
      modifies this`tunnels, sched
      ensures Valid() && tunnels == old(tunnels) - multiset{bandwidthID}
    {
      if metered {
        sched.UnregisterShared(bandwidthID);
      }
      tunnels := tunnels - multiset{bandwidthID};
    }

    /** Data from the peer: the flow is used, and dropped if its client cannot be written. */
    method HandleData(id: int, now: int, oversize: bool, written: bool) returns (known: bool)
      requires Valid()
      modifies this`byKey, this`byID, this`lru, sched
      ensures Valid() && known == (id in old(byID))
      ensures !known ==> lru == old(lru)
      ensures known && !oversize && !written ==> lru == Drop(old(lru), id)
      ensures known && (oversize || written) ==>
                lru == [old(byID)[id].(lastSeen := now)] + Drop(old(lru), id)
      ensures now > 0 && InOrder(old(lru), now) ==> InOrder(lru, now)
    {
      DropInOrder(lru, id, now);
      var f;
      f, known := GetByID(id, now);
      if known && !oversize && !written {
        Looked(lru, f);
        Discard(f);
      }
    }

    method HandleClose(id: int) returns (known: bool)
      requires Valid()
      modifies this`byKey, this`byID, this`lru, sched
      ensures Valid() && known == (id in old(byID))
      ensures lru == if known then Drop(old(lru), id) else old(lru)
      ensures forall t :: InOrder(old(lru), t) ==> InOrder(lru, t)
    {
      forall t ensures InOrder(lru, t) ==> InOrder(Drop(lru, id), t) {
        DropInOrder(lru, id, t);
      }
      known := id in byID;
      if known {
        Identified(lru, id);
        Discard(byID[id]);
      }
    }

    /** The bucket a send by this flow draws on, credited up to now. */
    ghost function Credited(id: string, now: int, cap: nat): D.Bucket
      requires id in sched.backends
      reads this, sched
    {
      D.Topped(sched.backends[id], now, sched.total, |ActiveIds(sched.backends) + {id}|, cap)
    }

    lemma HasBucket(f: Flow)
      requires Valid() && metered && f in lru
      ensures f.bandwidthID in sched.backends
    {
      DropUsing(lru, f, f.bandwidthID);
      assert sched.Refs(f.bandwidthID) >= 1;
    }

    /** Reserves, sends, and settles: a datagram is dropped if and only if the credit does
        not cover it, a sent one is paid for, and a send that fails is refunded in full. */
    method Meter(id: string, size: nat, now: int, cap: nat, sent: bool) returns (r: Outcome)
      requires sched.Valid() && id in sched.backends && cap >= D.MIN_DEFICIT_CAP
      modifies sched
      ensures sched.Valid() && sched.refCounts == old(sched.refCounts) && id in sched.backends
      ensures r == if sched.total > 0 && old(Credited(id, now, cap)).deficit < size then Throttled
                   else if sent then Sent else SendFailed
      ensures forall k :: k != id ==> Same(old(sched.backends), sched.backends, k)
      ensures sched.total > 0 ==>
                sched.backends[id].deficit == old(Credited(id, now, cap)).deficit - if r == Sent then size else 0
    {
      var allowed, _ := sched.RequestSend(id, size, now, cap);
      if !allowed { return Throttled; }
      if sent {
        sched.RecordSent(id, size, now);
        return Sent;
      }
      sched.RefundSend(id, size);
      return SendFailed;
    }

    /** Sends on a live flow within its bandwidth; a failed send costs nothing but the flow.
        Nobody else's bucket changes. */
    method SendOn(f: Flow, size: nat, now: int, cap: nat, sent: bool) returns (r: Outcome)
      requires Valid() && f in lru && cap >= D.MIN_DEFICIT_CAP
      modifies this`byKey, this`byID, this`lru, sched
      ensures Valid() && (metered ==> old(f.bandwidthID in sched.backends))
      ensures r == if metered && sched.total > 0 && old(Credited(f.bandwidthID, now, cap)).deficit < size then Throttled
                   else if sent then Sent else SendFailed
      ensures lru == if r == SendFailed then Drop(old(lru), f.id) else old(lru)
      ensures forall k :: k != f.bandwidthID ==> Same(old(sched.backends), sched.backends, k)
      ensures metered && sched.total > 0 && f.bandwidthID in sched.backends ==>
                sched.backends[f.bandwidthID].deficit ==
                old(Credited(f.bandwidthID, now, cap)).deficit - if r == Sent then size else 0
    {
      if metered {
        HasBucket(f);
        r := Meter(f.bandwidthID, size, now, cap, sent);
      } else {
        r := if sent then Sent else SendFailed;
      }
      if r == SendFailed {
        ghost var settled := sched.backends;
        Looked(lru, f);
        Discard(f);
        forall k | k != f.bandwidthID ensures Same(old(sched.backends), sched.backends, k) {
          assert Same(old(sched.backends), settled, k);
        }
      }
    }

    /** A new flow in front, with its reference. */
    method Admit(flow: Flow, now: int) returns (f: Flow)
      requires Valid() && flow.key !in byKey && flow.id !in byID && |lru| < maxFlows
      modifies this`byKey, this`byID, this`lru, sched
      ensures Valid() && f == flow.(lastSeen := now) && lru == [f] + old(lru)
    {
      var added;
      f, added := AddIfAbsent(flow, now);
      if metered {
        sched.RegisterShared(f.bandwidthID, now);
      }
    }

    /** At capacity the oldest flow makes way for it. */
    method NewFlow(flow: Flow, now: int) returns (f: Flow)
      requires Valid() && flow.key !in byKey && flow.id !in byID
      modifies this`byKey, this`byID, this`lru, sched
      ensures Valid() && f == flow.(lastSeen := now)
      ensures lru == [f] + if |old(lru)| == maxFlows then old(lru)[..maxFlows - 1] else old(lru)
    {
      MakeRoom();
      Subset(old(lru), lru, flow.key, flow.id);
      f := Admit(flow, now);
    }

    /** No live flow for the key: add one, open it at the peer, and send the first datagram. */
    method OpenFlow(key: Key, routeKey: string, size: nat, env: Env) returns (r: Outcome)
      requires Valid() && key !in byKey && env.id !in byID && env.cap >= D.MIN_DEFICIT_CAP
      modifies this`byKey, this`byID, this`lru, sched
      ensures Valid() && r in {Sent, Throttled, OpenFailed, SendFailed}
      ensures r == OpenFailed <==> !env.openOk
      ensures (r == Sent ==> env.firstOk) && (r == SendFailed ==> !env.firstOk)
      ensures var kept := if |old(lru)| == maxFlows then old(lru)[..maxFlows - 1] else old(lru);
              lru == if r in {Sent, Throttled}
                     then [Flow(env.id, key, "tunnel:" + routeKey, env.now, env.idleTimeout)] + kept else kept
      ensures env.now > 0 && InOrder(old(lru), env.now) ==> InOrder(lru, env.now)
    {
      ghost var kept := if |lru| == maxFlows then lru[..maxFlows - 1] else lru;
      KeptInOrder(lru, kept, env.now);
      FrontInOrder(Flow(env.id, key, "tunnel:" + routeKey, env.now, env.idleTimeout), kept, env.now);
      var f := NewFlow(Flow(env.id, key, "tunnel:" + routeKey, 0, env.idleTimeout), env.now);
      Looked(lru, f);
      if !env.openOk {
        Discard(f);
        return OpenFailed;
      }
      r := SendOn(f, size, env.now, env.cap, env.firstOk);
    }

    /** The live flow of the key, if there is one, takes the datagram or goes. */
    method UseFlow(key: Key, size: nat, env: Env) returns (done: bool, r: Outcome)
      requires Valid() && env.cap >= D.MIN_DEFICIT_CAP
      modifies this`byKey, this`byID, this`lru, sched
      ensures Valid() && Others(lru, key) == Others(old(lru), key)
      ensures done ==> r in {Sent, Throttled} && lru != [] && lru[0].key == key && lru[0].lastSeen == env.now
      ensures !done ==> key !in byKey && byID.Keys <= old(byID).Keys
      ensures key in old(byKey) ==> done || |lru| < maxFlows
      ensures key !in old(byKey) ==> !done && lru == old(lru)
      ensures env.now > 0 && InOrder(old(lru), env.now) ==> InOrder(lru, env.now)
    {
      var f, ok := GetByKey(key, env.now);
      if !ok { return false, NoPeer; }
      ghost var was := old(byKey)[key];
      Keyed(old(lru), key);
      Took(old(lru), was);
      OthersDrop(old(lru), was);
      OthersFront(f, Drop(old(lru), f.id));
      DropInOrder(old(lru), f.id, env.now);
      FrontInOrder(f, Drop(old(lru), f.id), env.now);
      r := SendOn(f, size, env.now, env.cap, env.fastOk);
      done := r != SendFailed;
    }

    /** The forwarding call. Afterwards the key has a flow, freshly used and in front, if
        and only if the datagram was sent or dropped for bandwidth; everyone else's flows
        are as they were, except that a new flow at capacity costs the oldest one. */
    method ForwardUDP(key: Key, routeKey: string, size: nat, oversize: bool, env: Env) returns (r: Outcome)
      requires Valid() && env.id !in byID && env.cap >= D.MIN_DEFICIT_CAP
      modifies this`byKey, this`byID, this`lru, sched
      ensures Valid()
      ensures r == TooLarge <==> oversize
      ensures oversize ==> lru == old(lru)
      ensures r in {Sent, Throttled} ==> lru != [] && lru[0].key == key && lru[0].lastSeen == env.now
      ensures r in {Sent, Throttled} && key !in old(byKey) ==>
                lru[0] == Flow(env.id, key, "tunnel:" + routeKey, env.now, env.idleTimeout)
      ensures !oversize && r !in {Sent, Throttled} ==> key !in byKey
      ensures (r == NoPeer ==> !env.hasPeer) && (r == OpenFailed ==> env.hasPeer && !env.openOk)
      ensures r == SendFailed ==> env.hasPeer && env.openOk && !env.firstOk
      ensures !oversize ==>
                Others(lru, key) ==
                if key !in old(byKey) && env.hasPeer && |old(lru)| == maxFlows then old(lru)[..maxFlows - 1]
                else Others(old(lru), key)
      ensures env.now > 0 && InOrder(old(lru), env.now) ==> InOrder(lru, env.now)
    {
      if oversize { return TooLarge; }
      var done;
      done, r := UseFlow(key, size, env);
      if done { return; }
      if !env.hasPeer { return NoPeer; }
      ghost var kept := if |lru| == maxFlows then lru[..maxFlows - 1] else lru;
      Subset(lru, kept, key, env.id);
      OthersAll(lru, key);
      OthersAll(kept, key);
      r := OpenFlow(key, routeKey, size, env);
      if r in {Sent, Throttled} {
        OthersFront(lru[0], kept);
      }
    }
  }

  lemma Subset(fs: seq<Flow>, kept: seq<Flow>, k: Key, id: int)
    requires kept <= fs && Distinct(fs) && k !in ByKey(fs) && id !in ByID(fs)
    ensures k !in ByKey(kept) && id !in ByID(kept)
  {
    Keyed(kept, k);
    Identified(kept, id);
    if k in ByKey(kept) {
      Looked(fs, ByKey(kept)[k]);
    }
    if id in ByID(kept) {
      Looked(fs, ByID(kept)[id]);
    }
  }
}
