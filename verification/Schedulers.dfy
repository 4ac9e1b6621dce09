/** The bandwidth Scheduler: every backend's bucket, the count of active backends, and
    the reference counts of shared backend ids. Every call takes the clock reading it
    makes; calls are whole steps. The deficit cap is computed in floating point, so a
    request takes it as given, at least the minimum cap. */
module Schedulers {
  import opened Basics
  import opened DeficitModel

  function ActiveIds(bs: map<string, Bucket>): set<string> {
    set k | k in bs && bs[k].isActive
  }

  class Scheduler {
    const total: nat
    var backends: map<string, Bucket>
    var activeCount: int
    var refCounts: map<string, int>
    /** What each backend has been granted, while its clock does not run backwards. */
    ghost var accounts: map<string, Tracked>

    /** The active count is exact. */
    ghost predicate Counted()
      reads this
    {
      activeCount == |ActiveIds(backends)|
    }

    /** Shared ids are referenced at least once and have a bucket. */
    ghost predicate Valid()
      reads this
    {
      && Counted()
      && (forall k :: k in refCounts ==> refCounts[k] >= 1 && k in backends)
      && (forall k :: k in backends ==> backends[k].deficit >= 0)
      && AllFair(accounts, backends, total)
    }

    /** The admission bound of the code: whatever has been called on a backend since its
        registration, the bytes admitted, less those refunded, plus its credit stay within
        the configured rate. */
    lemma Admitted(id: string)
      requires Valid() && total >= 1 && id in accounts && accounts[id].registered >= 1
      ensures var a, registered := accounts[id].account, accounts[id].registered;
              && id in backends && a.b == backends[id] && registered <= a.b.lastActive <= a.clock
              && SECOND * (a.admitted - a.refunded + backends[id].deficit) <= total * (a.b.lastActive - registered)
    {
      assert Fair(accounts[id], backends[id], total);
    }

    /** References held on a shared id. */
    function Refs(id: string): int
      reads this
    {
      if id in refCounts then refCounts[id] else 0
    }

    constructor (totalMbps: int)
      ensures Valid() && backends == map[] && refCounts == map[] && accounts == map[]
      ensures totalMbps <= 0 ==> total == 0
      ensures totalMbps > 0 ==> total == totalMbps * 125_000
    {
      total := if totalMbps > 0 then totalMbps * 1_000_000 / 8 else 0;
      backends, activeCount, refCounts, accounts := map[], 0, map[], map[];
    }

    /** Registration replaces whatever bucket the id had. The active count stays exact if
        and only if the id was not active: a caller registers each id once. */
    method Register(id: string, now: int)
      requires Valid()
      modifies this`backends, this`accounts
      ensures backends == old(backends)[id := NewBucket(now)] && accounts == old(accounts)[id := Opened(now)]
      ensures Counted() <==> !(id in old(backends) && old(backends)[id].isActive)
      ensures Counted() ==> Valid()
    {
      backends, accounts := backends[id := NewBucket(now)], accounts[id := Opened(now)];
      assert ActiveIds(backends) == ActiveIds(old(backends)) - {id};
    }

    method Drop(id: string)
      requires Counted() && id in backends
      modifies this`backends, this`activeCount, this`accounts
      ensures Counted() && backends == old(backends) - {id} && accounts == old(accounts) - {id}
    {
      if backends[id].isActive {
        activeCount := activeCount - 1;
      }
      backends, accounts := backends - {id}, accounts - {id};
      assert ActiveIds(backends) == ActiveIds(old(backends)) - {id};
    }

    /** Drops the bucket. The scheduler stays consistent if and only if the id was not
        shared: the references of a shared one would outlive its bucket. */
    method Unregister(id: string)
      requires Valid()
      modifies this`backends, this`activeCount, this`accounts
      ensures Counted() && backends == old(backends) - {id}
      ensures Valid() <==> id !in refCounts
    {
      if id in backends {
        Drop(id);
      }
    }

    /** One more reference; the bucket is created by the first one and kept by the rest. */
    method RegisterShared(id: string, now: int)
      requires Valid()
      modifies this`backends, this`refCounts, this`accounts
      ensures Valid()
      ensures refCounts == old(refCounts)[id := old(Refs(id)) + 1]
      ensures backends == if id in old(backends) then old(backends) else old(backends)[id := NewBucket(now)]
      ensures accounts == if id in old(backends) then old(accounts) else old(accounts)[id := Opened(now)]
    {
      refCounts := refCounts[id := Refs(id) + 1];
      if id !in backends {
        backends, accounts := backends[id := NewBucket(now)], accounts[id := Opened(now)];
        assert ActiveIds(backends) == ActiveIds(old(backends));
      }
    }

    /** One reference fewer; the last one takes the bucket with it, and releasing an id
        nobody holds does nothing. */
    method UnregisterShared(id: string)
      requires Valid()
      modifies this
      ensures Valid()
      ensures id !in old(refCounts) ==> unchanged(this)
      ensures id in old(refCounts) && old(refCounts)[id] > 1 ==>
                && refCounts == old(refCounts)[id := old(refCounts)[id] - 1]
                && backends == old(backends) && accounts == old(accounts)
      ensures id in old(refCounts) && old(refCounts)[id] == 1 ==>
                && refCounts == old(refCounts) - {id}
                && backends == old(backends) - {id} && accounts == old(accounts) - {id}
    {
      if id !in refCounts { return; }
      var count := refCounts[id] - 1;
      if count <= 0 {
        refCounts := refCounts - {id};
        if id in backends {
          Drop(id);
        }
      } else {
        refCounts := refCounts[id := count];
      }
    }

    /** Marks the backend active, credits it up to `now`, and admits the request if the
        credit covers it; nothing else changes. An unlimited scheduler and an unknown
        backend admit everything. */
    method RequestSend(id: string, bytes: nat, now: int, cap: nat) returns (allowed: bool, wait: int)
      requires Valid() && cap >= MIN_DEFICIT_CAP
      modifies this`backends, this`activeCount, this`accounts
      ensures Valid()
      ensures total == 0 || id !in old(backends) ==> allowed && wait == 0 && unchanged(this)
      ensures total > 0 && id in old(backends) ==>
                && activeCount == |ActiveIds(old(backends)) + {id}|
                && accounts == Tell(old(accounts), id, now, Request(0, bytes, activeCount, cap), total)
                && (var b := Topped(old(backends)[id], now, total, activeCount, cap);
                    && allowed == (b.deficit >= bytes)
                    && backends == old(backends)[id := Spend(b, bytes)]
                    && wait == if allowed then 0 else Wait(bytes - b.deficit, Share(total, activeCount)))
    {
      if total == 0 { return true, 0; }
      if id !in backends { return true, 0; }
      var active := if backends[id].isActive then activeCount else activeCount + 1;
      ActiveSize(backends, id, backends[id].(isActive := true));
      allowed, wait := Charge(id, bytes, now, active, cap);
    }

    /** Credits a backend, active from now on, and takes the request out if it is covered. */
    method Charge(id: string, bytes: nat, now: int, active: int, cap: nat) returns (allowed: bool, wait: int)
      requires Valid() && total > 0 && id in backends && cap >= MIN_DEFICIT_CAP
      requires active == |ActiveIds(backends) + {id}|
      modifies this`backends, this`activeCount, this`accounts
      ensures Valid() && activeCount == active
      ensures accounts == Tell(old(accounts), id, now, Request(0, bytes, active, cap), total)
      ensures var b := Topped(old(backends)[id], now, total, active, cap);
              && allowed == (b.deficit >= bytes)
              && backends == old(backends)[id := Spend(b, bytes)]
              && wait == if allowed then 0 else Wait(bytes - b.deficit, Share(total, active))
    {
      var b := Topped(backends[id], now, total, active, cap);
      ToppedShape(backends[id], now, total, active, cap);
      RequestLeaves(accounts, backends, id, now, Request(0, bytes, active, cap), Spend(b, bytes), total);
      allowed := b.deficit >= bytes;
      wait := if allowed then 0 else Wait(bytes - b.deficit, Share(total, active));
      Put(id, Spend(b, bytes), Tell(accounts, id, now, Request(0, bytes, active, cap), total));
      ActiveAfter(old(backends), id, Spend(b, bytes));
    }

    /** Replaces a bucket as a call leaves it, with the active count and the account. */
    method Put(id: string, b: Bucket, ghost m: map<string, Tracked>)
      requires Valid() && id in backends && b.deficit >= 0 && AllFair(m, backends[id := b], total)
      modifies this`backends, this`activeCount, this`accounts
      ensures Valid() && backends == old(backends)[id := b] && accounts == m
    {
      if b.isActive && !backends[id].isActive {
        activeCount := activeCount + 1;
      } else if !b.isActive && backends[id].isActive {
        activeCount := activeCount - 1;
      }
      ActiveSize(backends, id, b);
      backends, accounts := backends[id := b], m;
    }

    /** Hands back exactly what was reserved, to this backend only. */
    method RefundSend(id: string, bytes: nat)
      requires Valid()
      modifies this`backends, this`activeCount, this`accounts
      ensures Valid()
      ensures backends == if total == 0 || id !in old(backends) then old(backends)
                          else old(backends)[id := old(backends)[id].(deficit := old(backends)[id].deficit + bytes)]
      ensures total > 0 && id in old(accounts) ==>
                accounts == Tell(old(accounts), id, old(accounts)[id].account.clock, Refund(0, bytes), total)
    {
      if total != 0 && id in backends {
        ghost var now := if id in accounts then accounts[id].account.clock else 0;
        var b := backends[id].(deficit := backends[id].deficit + bytes);
        FairTold(accounts, backends, id, now, Refund(0, bytes), b, total);
        Put(id, b, Tell(accounts, id, now, Refund(0, bytes), total));
      }
    }

    method RecordSent(id: string, bytes: nat, now: int)
      requires Valid()
      modifies this`backends, this`activeCount, this`accounts
      ensures Valid()
      ensures backends == if total == 0 || id !in old(backends) then old(backends)
                          else old(backends)[id := Recorded(old(backends)[id], bytes, now)]
      ensures total > 0 && id in old(backends) ==>
                accounts == Tell(old(accounts), id, now, Record(0, bytes), total)
    {
      if total != 0 && id in backends {
        var b := Recorded(backends[id], bytes, now);
        FairTold(accounts, backends, id, now, Record(0, bytes), b, total);
        Put(id, b, Tell(accounts, id, now, Record(0, bytes), total));
      }
    }

    /** The sweep's visit to one backend. */
    method Visit(id: string, now: int)
      requires Valid() && id in backends
      modifies this`backends, this`activeCount, this`accounts
      ensures Valid() && backends == old(backends)[id := Swept(old(backends)[id], now)]
      ensures accounts == Tell(old(accounts), id, now, Sweep(0), total)
    {
      var b := Swept(backends[id], now);
      FairTold(accounts, backends, id, now, Sweep(0), b, total);
      Put(id, b, Tell(accounts, id, now, Sweep(0), total));
    }

    /** The idle sweep resets every backend idle for over a second, and only those; every
        account has seen it. */
    method CheckIdleBackends(now: int)
      requires Valid()
      modifies this`backends, this`activeCount, this`accounts
      ensures Valid() && backends.Keys == old(backends).Keys
      ensures forall k :: k in backends ==> backends[k] == Swept(old(backends)[k], now)
      ensures Sweeping(old(accounts), accounts, {}, now, total)
    {
      var todo := backends.Keys;
      while todo != {}
        invariant Valid() && todo <= backends.Keys == old(backends).Keys
        invariant forall k :: k in backends ==>
                    backends[k] == if k in todo then old(backends)[k] else Swept(old(backends)[k], now)
        invariant Sweeping(old(accounts), accounts, todo, now, total)
        decreases todo
      {
        var k :| k in todo;
        SweepingMore(old(accounts), accounts, todo, now, total, k);
        Visit(k, now);
        todo := todo - {k};
      }
    }
  }

  /** The account has seen one sweep, or was given up because its clock ran backwards. */
  ghost predicate Retold(before: map<string, Tracked>, after: map<string, Tracked>, k: string, now: int, total: nat) {
    var m := Tell(before, k, now, Sweep(0), total);
    (k in after <==> k in m) && (k in after && k in m ==> after[k] == m[k])
  }

  /** The sweep has reached the accounts outside `todo`. */
  ghost predicate Sweeping(before: map<string, Tracked>, after: map<string, Tracked>, todo: set<string>, now: int,
                           total: nat)
  {
    && (forall k :: k in todo ==>
          (k in before <==> k in after) && (k in before && k in after ==> before[k] == after[k]))
    && (forall k :: k in before && k !in todo ==> Retold(before, after, k, now, total))
    && (forall k :: k in after ==> k in before)
  }

  lemma SweepingMore(before: map<string, Tracked>, after: map<string, Tracked>, todo: set<string>, now: int,
                     total: nat, k: string)
    requires Sweeping(before, after, todo, now, total) && k in todo
    ensures Sweeping(before, Tell(after, k, now, Sweep(0), total), todo - {k}, now, total)
  {
    var next := Tell(after, k, now, Sweep(0), total);
    forall j | j in before && j !in todo - {k} ensures Retold(before, next, j, now, total) {
      if j != k {
        assert Retold(before, after, j, now, total);
      }
    }
  }

  lemma ActiveAfter(bs: map<string, Bucket>, id: string, b: Bucket)
    requires id in bs
    ensures ActiveIds(bs[id := b]) == if b.isActive then ActiveIds(bs) + {id} else ActiveIds(bs) - {id}
  {
  }

  lemma ActiveSize(bs: map<string, Bucket>, id: string, b: Bucket)
    requires id in bs
    ensures |ActiveIds(bs[id := b])| ==
            |ActiveIds(bs)| + (if b.isActive then 1 else 0) - (if bs[id].isActive then 1 else 0)
    ensures b.isActive ==> ActiveIds(bs[id := b]) == ActiveIds(bs) + {id}
  {
    ActiveAfter(bs, id, b);
    if bs[id].isActive {
      assert ActiveIds(bs) + {id} == ActiveIds(bs);
    } else {
      assert ActiveIds(bs) - {id} == ActiveIds(bs);
    }
  }

  lemma RequestLeaves(m: map<string, Tracked>, bs: map<string, Bucket>, id: string, now: int, call: Call, b: Bucket,
                      total: nat)
    requires AllFair(m, bs, total) && id in bs && call.Request?
    requires b == Spend(Topped(bs[id], now, total, call.active, call.cap), call.bytes)
    ensures AllFair(Tell(m, id, now, call, total), bs[id := b], total)
  {
    if id in m {
      assert Fair(m[id], bs[id], total);
    }
    FairTold(m, bs, id, now, call, b, total);
  }

  function Opened(now: int): Tracked {
    Tracked(now, Account(NewBucket(now), now, 0, 0))
  }

  lemma ToppedShape(b: Bucket, now: int, total: nat, active: int, cap: nat)
    requires b.deficit >= 0
    ensures Topped(b, now, total, active, cap).deficit >= 0 && Topped(b, now, total, active, cap).isActive
  {
    if now > b.lastActive {
      EarnedExact(Share(total, active), now - b.lastActive);
    }
  }
}
