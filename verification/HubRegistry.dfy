/** The hub's own routes: a weighted pool of backends for every hostname, wildcard suffix
    and port key. Pools stay in place when they run empty. */
module HubRegistry {
  import opened Hostnames
  import opened RoutingTable
  import opened LoadBalancer
  import opened Sorting
  import opened Decimals
  import F = ClaimFilters
  import S = Sessions

  ghost predicate DistinctIds(bs: seq<Backend>) {
    forall i, j :: 0 <= i < j < |bs| ==> bs[i].id != bs[j].id
  }

  function Held(routes: seq<Route>): (rs: set<Route>)
    ensures forall r :: r in rs <==> r in routes
  {
    set r | r in routes
  }

  /** The name under which a route is announced to the mesh. */
  function NameOf(r: Route): string {
    match r
    case Exact(name) => name
    case Wild(suffix) => "*" + suffix
  }

  /** A canonical name comes back from an announcement as the route it was filed under. */
  lemma AnnounceRoundTrip(text: Text, name: string)
    requires NormalizeOrWildcard(text, name) == name
    ensures NameOf(RouteOf(text, name)) == name
    ensures RouteOf(text, NameOf(RouteOf(text, name))) == RouteOf(text, name)
  {
    if WildcardSuffix(text, name).Some? {
      assert name == "*" + name[1..];
    }
  }

  // ----- The routes of a session ----------------------------------------------------------

  function TcpKey(port: nat): Route {
    Exact("tcp:" + Itoa(port))
  }

  function UdpKey(port: nat): Route {
    Exact("udp:" + Itoa(port))
  }

  /** Names in canonical form that collide with no port key, and proper ports. */
  predicate Fileable(text: Text, g: S.Granted) {
    && (forall i :: 0 <= i < |g.hosts| ==>
          !F.Reserved(g.hosts[i]) && NormalizeOrWildcard(text, g.hosts[i]) == g.hosts[i])
    && (forall i :: 0 <= i < |g.tcp| ==> g.tcp[i] > 0)
    && (forall i :: 0 <= i < |g.udp| ==> g.udp[i].port > 0)
  }

  function HostRoutes(text: Text, g: S.Granted): seq<Route> {
    seq(|g.hosts|, i requires 0 <= i < |g.hosts| => RouteOf(text, g.hosts[i]))
  }

  function TcpRoutes(text: Text, g: S.Granted): seq<Route>
    requires Fileable(text, g)
  {
    seq(|g.tcp|, i requires 0 <= i < |g.tcp| => TcpKey(g.tcp[i]))
  }

  function UdpRoutes(text: Text, g: S.Granted): seq<Route>
    requires Fileable(text, g)
  {
    seq(|g.udp|, i requires 0 <= i < |g.udp| => UdpKey(g.udp[i].port))
  }

  function RoutesOf(text: Text, g: S.Granted): seq<Route>
    requires Fileable(text, g)
  {
    HostRoutes(text, g) + (TcpRoutes(text, g) + UdpRoutes(text, g))
  }

  /** Names and ports of an admitted session are filed under different routes. */
  lemma RoutesDiffer(text: Text, g: S.Granted)
    requires S.Canonical(g) && Fileable(text, g)
    ensures Distinct(RoutesOf(text, g))
  {
    var hosts, tcp, udp := HostRoutes(text, g), TcpRoutes(text, g), UdpRoutes(text, g);
    forall i, j | 0 <= i < j < |hosts| ensures hosts[i] != hosts[j] {
      AnnounceRoundTrip(text, g.hosts[i]);
      AnnounceRoundTrip(text, g.hosts[j]);
    }
    forall i, j | 0 <= i < j < |tcp| ensures tcp[i] != tcp[j] {
      KeysDiffer("tcp:", g.tcp[i], g.tcp[j]);
    }
    forall i, j | 0 <= i < j < |udp| ensures udp[i] != udp[j] {
      KeysDiffer("udp:", g.udp[i].port, g.udp[j].port);
    }
    forall x | x in tcp ensures x !in udp && x.Exact? && F.Reserved(x.name) {
      var i :| 0 <= i < |tcp| && tcp[i] == x;
      assert x.name[0] == 't';
      forall j | 0 <= j < |udp| ensures udp[j] != x {
        assert udp[j].name[0] == 'u';
      }
    }
    DistinctConcat(tcp, udp);
    forall x | x in hosts ensures x !in tcp + udp {
      var i :| 0 <= i < |hosts| && hosts[i] == x;
      HostIsNoKey(text, g.hosts[i]);
      forall j | 0 <= j < |tcp| ensures tcp[j] != x {
        assert "tcp:" <= tcp[j].name;
      }
      forall j | 0 <= j < |udp| ensures udp[j] != x {
        assert "udp:" <= udp[j].name;
      }
    }
    DistinctConcat(hosts, tcp + udp);
  }

  lemma HostIsNoKey(text: Text, name: string)
    requires !F.Reserved(name)
    ensures var r := RouteOf(text, name); r.Exact? ==> !("tcp:" <= r.name) && !("udp:" <= r.name)
  {
  }

  lemma KeysDiffer(prefix: string, p: nat, q: nat)
    requires p != q
    ensures prefix + Itoa(p) != prefix + Itoa(q)
  {
    if Itoa(p) != Itoa(q) {
      assert (prefix + Itoa(p))[|prefix|..] == Itoa(p) && (prefix + Itoa(q))[|prefix|..] == Itoa(q);
    } else {
      ItoaInjective(p, q);
      assert false;
    }
  }

  /** What a handshake grants can be filed, for a normaliser whose results stay as they are. */
  lemma GrantFileable(cfg: F.Config, text: Text, c: S.Claims, g: S.Granted)
    requires S.WellFormed(cfg, text, c) && S.Matches(cfg, text, c, g)
    requires forall h :: NormalizeOrWildcard(text, NormalizeOrWildcard(text, h)) == NormalizeOrWildcard(text, h)
    ensures Fileable(text, g)
  {
    forall i | 0 <= i < |g.hosts|
      ensures !F.Reserved(g.hosts[i]) && NormalizeOrWildcard(text, g.hosts[i]) == g.hosts[i]
    {
      assert g.hosts[i] in g.hosts;
      assert F.HostClaimed(text, c.hosts, g.hosts[i]);
    }
    forall i | 0 <= i < |g.tcp| ensures g.tcp[i] > 0 {
      var p := g.tcp[i];
      assert p in g.tcp;
      assert p in c.tcp && F.Allowed(false, cfg.tcp, p);
      var j :| 0 <= j < |c.tcp| && c.tcp[j] == p;
      assert !F.BadPort(c.tcp[j]);
    }
    forall i | 0 <= i < |g.udp| ensures g.udp[i].port > 0 {
      assert g.udp[i] in g.udp;
      assert F.UdpClaimed(cfg, c.udp, g.udp[i]);
      var j :| 0 <= j < |c.udp| && c.udp[j].port == g.udp[i].port;
      assert !F.BadPort(c.udp[j].port);
    }
  }

  class Registry {
    const text: Text
    var pools: map<Route, LoadBalancerPool>
    /** The registered backends and the routes each serves. */
    ghost var live: map<Backend, set<Route>>

    /** Each route has a pool of its own, with nobody in it twice. */
    ghost predicate Valid()
      reads this`pools, pools.Values
    {
      && (forall r :: r in pools ==> pools[r].Valid() && DistinctIds(pools[r].backends))
      && (forall r, s :: r in pools && s in pools && r != s ==> pools[r] != pools[s])
    }

    ghost predicate Has(r: Route, b: Backend)
      reads this`pools, pools.Values
    {
      r in pools && b in pools[r].backends
    }

    /** The pools hold exactly the registered backends, under the routes they serve. */
    ghost predicate Agrees()
      reads this, pools.Values
    {
      && (forall r, b :: Has(r, b) <==> b in live && r in live[b])
      && (forall b, c :: b in live && c in live && b.id == c.id ==> b == c)
    }

    constructor (text: Text)
      ensures Valid() && Agrees() && live == map[] && pools == map[]
    {
      this.text := text;
      pools, live := map[], map[];
    }

    /** The pool of a route, created empty when there is none. */
    method PoolOf(r: Route) returns (pool: LoadBalancerPool)
      requires Valid()
      modifies this`pools
      ensures Valid() && r in pools && pool == pools[r]
      ensures forall s :: s in pools <==> s in old(pools) || s == r
      ensures fresh(pools.Values - old(pools.Values))
      ensures forall s, c :: Has(s, c) <==> old(Has(s, c))
    {
      if r in pools { return pools[r]; }
      pool := new LoadBalancerPool();
      pools := pools[r := pool];
      forall s ensures s in pools ==> pools[s].Valid() && DistinctIds(pools[s].backends) {
        assert s in pools && s != r ==> pools[s] == old(pools[s]) && old(pools[s].Valid());
      }
    }

    method AddTo(r: Route, b: Backend)
      requires Valid() && b.weight >= 1 && forall c :: Has(r, c) ==> c.id != b.id
      modifies this`pools, pools.Values
      ensures Valid() && fresh(pools.Values - old(pools.Values))
      ensures forall s :: s in pools <==> s in old(pools) || s == r
      ensures forall s, c :: Has(s, c) <==> old(Has(s, c)) || (s == r && c == b)
    {
      var pool := PoolOf(r);
      assert forall i :: 0 <= i < |pool.backends| ==> Has(r, pool.backends[i]);
      Append(r, b);
    }

    method Append(r: Route, b: Backend)
      requires Valid() && r in pools && b.weight >= 1
      requires forall i :: 0 <= i < |pools[r].backends| ==> pools[r].backends[i].id != b.id
      modifies pools[r]
      ensures Valid()
      ensures forall s, c :: Has(s, c) <==> old(Has(s, c)) || (s == r && c == b)
    {
      pools[r].AddBackend(b);
      forall s ensures s in pools ==> pools[s].Valid() && DistinctIds(pools[s].backends) {
        assert s in pools && s != r ==> pools[s] != pools[r] && old(pools[s].Valid());
      }
    }

    method RemoveFrom(r: Route, b: Backend)
      requires Valid() && forall c :: Has(r, c) && c.id == b.id ==> c == b
      modifies pools.Values
      ensures Valid()
      ensures forall s, c :: Has(s, c) <==> old(Has(s, c)) && !(s == r && c == b)
    {
      if r in pools {
        assert forall i :: 0 <= i < |pools[r].backends| ==> Has(r, pools[r].backends[i]);
        TakeOut(pools[r], b);
        forall s ensures s in pools ==> pools[s].Valid() && DistinctIds(pools[s].backends) {
          assert s in pools && s != r ==> pools[s] != pools[r] && old(pools[s].Valid());
        }
      }
    }

    /** One pool without the backend. */
    method TakeOut(pool: LoadBalancerPool, b: Backend)
      requires pool.Valid() && DistinctIds(pool.backends)
      requires forall i :: 0 <= i < |pool.backends| && pool.backends[i].id == b.id ==> pool.backends[i] == b
      modifies pool
      ensures pool.Valid() && DistinctIds(pool.backends)
      ensures forall c :: c in pool.backends <==> c in old(pool.backends) && c != b
    {
      ghost var before := pool.backends;
      var at := pool.RemoveBackend(b.id);
      Gone(before, at, b);
    }

    /** Adds a backend, with an id nobody has, to the pool of each route it serves. */
    method Register(b: Backend, routes: seq<Route>)
      requires Valid() && Agrees() && b.weight >= 1 && forall c :: c in live ==> c.id != b.id
      requires Distinct(routes)
      modifies this`pools, this`live, pools.Values
      ensures Valid() && Agrees() && fresh(pools.Values - old(pools.Values))
      ensures live == old(live)[b := Held(routes)]
      ensures forall s :: s in pools <==> s in old(pools) || s in routes
    {
      AddAll(b, routes);
      live := live[b := Held(routes)];
    }

    method AddAll(b: Backend, routes: seq<Route>)
      requires Valid() && b.weight >= 1 && Distinct(routes) && forall r, c :: Has(r, c) ==> c.id != b.id
      modifies this`pools, pools.Values
      ensures Valid() && fresh(pools.Values - old(pools.Values))
      ensures forall s :: s in pools <==> s in old(pools) || s in routes
      ensures forall s, c :: Has(s, c) <==> old(Has(s, c)) || (s in routes && c == b)
    {
      for i := 0 to |routes|
        invariant Valid() && fresh(pools.Values - old(pools.Values))
        invariant forall s :: s in pools <==> s in old(pools) || s in routes[..i]
        invariant forall s, c :: Has(s, c) <==> old(Has(s, c)) || (s in routes[..i] && c == b)
      {
        assert routes[i] !in routes[..i] && routes[..i + 1] == routes[..i] + [routes[i]];
        AddTo(routes[i], b);
      }
      assert routes[..|routes|] == routes;
    }

    /** The registration of an admitted session: its routes are all different, so it is in
        exactly their pools, once. */
    method RegisterSession(b: Backend, g: S.Granted)
      requires Valid() && Agrees() && b.weight >= 1 && forall c :: c in live ==> c.id != b.id
      requires S.Canonical(g) && Fileable(text, g)
      modifies this`pools, this`live, pools.Values
      ensures Valid() && Agrees() && live == old(live)[b := Held(RoutesOf(text, g))]
    {
      RoutesDiffer(text, g);
      Register(b, RoutesOf(text, g));
    }

    /** Takes a backend out of every pool it is in; the pools stay. */
    method Unregister(b: Backend, routes: seq<Route>)
      requires Valid() && Agrees() && b in live && live[b] == Held(routes)
      modifies this`live, pools.Values
      ensures Valid() && Agrees() && live == old(live) - {b} && pools == old(pools)
    {
      RemoveAll(b, routes);
      live := live - {b};
      forall r, c ensures Has(r, c) <==> c in live && r in live[c] {
        assert old(Has(r, c)) <==> c in old(live) && r in old(live[c]);
      }
    }

    method RemoveAll(b: Backend, routes: seq<Route>)
      requires Valid() && forall r, c :: Has(r, c) && c.id == b.id ==> c == b
      modifies pools.Values
      ensures Valid()
      ensures forall s, c :: Has(s, c) <==> old(Has(s, c)) && !(s in routes && c == b)
    {
      for i := 0 to |routes|
        invariant Valid()
        invariant forall s, c :: Has(s, c) <==> old(Has(s, c)) && !(s in routes[..i] && c == b)
      {
        assert routes[..i + 1] == routes[..i] + [routes[i]];
        RemoveFrom(routes[i], b);
      }
      assert routes[..|routes|] == routes;
    }

    /** Some registered backend serves the route. */
    ghost predicate Served(r: Route)
      reads this`live
    {
      exists b :: b in live && r in live[b]
    }

    /** A backend serves the name itself, or the wildcard of its first dot. */
    ghost predicate Covered(name: string)
      reads this`live
    {
      Served(Exact(name)) || (var w := FirstDotSuffix(text, name); w.Some? && Served(Wild(w.value)))
    }

    /** The name had a pool of its own once, and nobody is left in it. */
    ghost predicate Shadowed(name: string)
      reads this`pools, this`live
    {
      Exact(name) in pools && !Served(Exact(name))
    }

    method SelectFrom(r: Route) returns (b: Result)
      requires Valid() && Agrees() && r in pools
      modifies pools.Values
      ensures Valid() && Agrees()
      ensures b.Ok? <==> Served(r)
      ensures b.Ok? ==> b.value in live && r in live[b.value]
    {
      var pool := pools[r];
      ghost var all := pool.backends;
      assert all != [] ==> Has(r, all[0]);
      assert forall c :: c in live && r in live[c] ==> Has(r, c);
      ghost var examined;
      b, examined := pool.Select();
      assert b.Ok? ==> Has(r, b.value);
      assert forall s, c :: Has(s, c) <==> old(Has(s, c));
    }

    /** The choice of a backend for a name: it succeeds if and only if somebody covers the
        name and no emptied pool of its own shadows the wildcard. */
    method SelectBackend(name: string) returns (b: Result)
      requires Valid() && Agrees()
      modifies pools.Values
      ensures Valid() && Agrees()
      ensures b.Ok? <==> Covered(name) && !Shadowed(name)
      ensures b.Ok? ==> b.value in live && (|| Exact(name) in live[b.value]
                                            || (!Served(Exact(name)) && var w := FirstDotSuffix(text, name);
                                                w.Some? && Wild(w.value) in live[b.value]))
    {
      ServedHasPool(Exact(name));
      if Exact(name) in pools {
        b := SelectFrom(Exact(name));
        return;
      }
      var w := FirstDotSuffix(text, name);
      if w.Some? {
        ServedHasPool(Wild(w.value));
        if Wild(w.value) in pools {
          b := SelectFrom(Wild(w.value));
          return;
        }
      }
      b := NoBackends;
    }

    lemma ServedHasPool(r: Route)
      requires Agrees()
      ensures Served(r) ==> r in pools
    {
      if Served(r) {
        var b :| b in live && r in live[b];
        assert Has(r, b);
      }
    }

    /** The names are those of the routes, of these, that somebody serves. */
    ghost predicate Names(names: seq<string>, routes: set<Route>)
      reads this`live
    {
      forall n :: n in names <==> exists r :: r in routes && Served(r) && NameOf(r) == n
    }

    lemma NamesMore(names: seq<string>, routes: set<Route>, r: Route)
      requires Names(names, routes)
      ensures Names(if Served(r) then names + [NameOf(r)] else names, routes + {r})
    {
      var more := if Served(r) then names + [NameOf(r)] else names;
      forall n ensures n in more <==> exists s :: s in routes + {r} && Served(s) && NameOf(s) == n {
        if n in names {
          var s :| s in routes && Served(s) && NameOf(s) == n;
          assert s in routes + {r};
        }
        if n in more && n !in names {
          assert r in routes + {r};
        }
      }
    }

    lemma NamesAll(names: seq<string>)
      requires Agrees() && Names(names, pools.Keys)
      ensures forall n :: n in names <==> exists r :: Served(r) && NameOf(r) == n
    {
      forall r ensures Served(r) ==> r in pools {
        ServedHasPool(r);
      }
    }

    /** Exactly the routes that somebody serves are announced. */
    method GetLocalRoutes() returns (names: seq<string>)
      requires Valid() && Agrees()
      ensures forall n :: n in names <==> exists r :: Served(r) && NameOf(r) == n
    {
      names := [];
      var todo := pools.Keys;
      ghost var done: set<Route> := {};
      while todo != {}
        invariant todo + done == pools.Keys && Names(names, done)
        decreases todo
      {
        var r :| r in todo;
        var has := pools[r].HasBackends();
        PoolServes(r);
        NamesMore(names, done, r);
        if has {
          names := names + [NameOf(r)];
        }
        todo, done := todo - {r}, done + {r};
      }
      NamesAll(names);
    }

    lemma PoolServes(r: Route)
      requires Agrees() && r in pools
      ensures pools[r].backends != [] <==> Served(r)
    {
      if pools[r].backends != [] {
        assert Has(r, pools[r].backends[0]);
      }
      if Served(r) {
        var b :| b in live && r in live[b];
        assert Has(r, b);
      }
    }
  }

  /** So a name can be covered and still not be served: when the only backend of the name
      itself leaves, the wildcard's backends are not asked. */
  method LastOneLeaves(hub: Registry, own: Backend, name: string) returns (b: Result)
    requires hub.Valid() && hub.Agrees() && own in hub.live && hub.live[own] == {Exact(name)}
    requires forall c :: c in hub.live && Exact(name) in hub.live[c] ==> c == own
    requires var w := FirstDotSuffix(hub.text, name); w.Some? && hub.Served(Wild(w.value))
    modifies hub, hub.pools.Values
    ensures hub.Covered(name) && b == NoBackends
  {
    ghost var w := Wild(FirstDotSuffix(hub.text, name).value);
    ghost var other :| other in hub.live && w in hub.live[other];
    assert hub.Has(Exact(name), own);
    assert Held([Exact(name)]) == {Exact(name)};
    hub.Unregister(own, [Exact(name)]);
    assert other in hub.live && w in hub.live[other];
    assert hub.Shadowed(name);
    b := hub.SelectBackend(name);
  }

  /** Taking the backend at `at` out leaves the others, still distinct. */
  lemma Gone(before: seq<Backend>, at: nat, b: Backend)
    requires at <= |before| && DistinctIds(before)
    requires forall j :: 0 <= j < at ==> before[j].id != b.id
    requires at < |before| ==> before[at] == b
    ensures at == |before| ==> b !in before
    ensures at < |before| ==>
              var after := before[at := before[|before| - 1]][..|before| - 1];
              DistinctIds(after) && forall c :: c in after <==> c in before && c != b
  {
    if at < |before| {
      var last := |before| - 1;
      var after := before[at := before[last]][..last];
      forall c | c in before && c != b ensures c in after {
        var k :| 0 <= k < |before| && before[k] == c;
        assert if k == last then after[at] == c else after[k] == c;
      }
    }
  }
}
