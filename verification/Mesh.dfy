/** Two hubs of the mesh: sessions admitted by one, announced to the other, and found there. */
module Mesh {
  import opened Hostnames
  import opened RoutingTable
  import opened LoadBalancer
  import opened HubRegistry
  import F = ClaimFilters
  import S = Sessions

  /** A normaliser whose results stay as they are and that takes no port key for a wildcard. */
  ghost predicate Settling(text: Text) {
    && (forall h :: NormalizeOrWildcard(text, NormalizeOrWildcard(text, h)) == NormalizeOrWildcard(text, h))
    && (forall h :: F.Reserved(h) ==> WildcardSuffix(text, h).None?)
  }

  /** A name that is filed as a wildcard only if it is spelt canonically. */
  predicate Spelt(text: Text, name: string) {
    WildcardSuffix(text, name).Some? ==> NormalizeOrWildcard(text, name) == name
  }

  /** The route survives the announcement of its name. */
  predicate Announceable(text: Text, r: Route) {
    Spelt(text, NameOf(r)) && RouteOf(text, NameOf(r)) == r
  }

  /** Every route that somebody serves is announceable. */
  ghost predicate Clean(hub: Registry)
    reads hub
  {
    forall b, r :: b in hub.live && r in hub.live[b] ==> Announceable(hub.text, r)
  }

  lemma SessionAnnounceable(text: Text, g: S.Granted)
    requires Settling(text) && Fileable(text, g)
    ensures forall r :: r in RoutesOf(text, g) ==> Announceable(text, r)
  {
    forall i | 0 <= i < |g.hosts| ensures Announceable(text, HostRoutes(text, g)[i]) {
      AnnounceRoundTrip(text, g.hosts[i]);
    }
    forall i | 0 <= i < |g.tcp| ensures Announceable(text, TcpRoutes(text, g)[i]) {
      assert "tcp:" <= TcpKey(g.tcp[i]).name;
    }
    forall i | 0 <= i < |g.udp| ensures Announceable(text, UdpRoutes(text, g)[i]) {
      assert "udp:" <= UdpKey(g.udp[i].port).name;
    }
  }

  /** A session that passes the handshake is registered under the routes of its grant, and
      the hub stays clean; one that does not changes nothing. */
  method Join(hub: Registry, id: int, cfg: F.Config, c0: S.Claims, c1: S.Claims, nonce: string, now: int, uriOk: bool,
              defaultCap: int)
    returns (b: S.Backend?)
    requires hub.Valid() && hub.Agrees() && Clean(hub) && Settling(hub.text)
    requires forall c :: c in hub.live ==> c.id != id
    modifies hub, hub.pools.Values
    ensures hub.Valid() && hub.Agrees() && Clean(hub)
    ensures b == null ==> hub.live == old(hub.live)
    ensures b != null ==>
              && S.Matches(cfg, hub.text, c0, b.granted) && Fileable(hub.text, b.granted)
              && b.granted.weight >= 1
              && hub.live == old(hub.live)[Backend(id, b.granted.weight) := Held(RoutesOf(hub.text, b.granted))]
    ensures b != null <==>
            && S.WellFormed(cfg, hub.text, c0) && S.Serves(cfg, hub.text, c0) && S.Recent(c0, now)
            && S.WellFormed(cfg, hub.text, c1) && c1.nonce == nonce && S.SameFilter(cfg, hub.text, c0, c1)
            && (c1.weight > 0 ==> c1.weight == if c0.weight <= 0 then 1 else c0.weight) && S.TermsValid(c1, uriOk)
  {
    b := S.Handshake(cfg, hub.text, c0, c1, nonce, now, uriOk, defaultCap);
    if b != null {
      GrantFileable(cfg, hub.text, c0, b.granted);
      SessionAnnounceable(hub.text, b.granted);
      hub.RegisterSession(Backend(id, b.granted.weight), b.granted);
    }
  }

  /** A session that ends takes its routes with it. */
  method Leave(hub: Registry, b: Backend, g: S.Granted)
    requires hub.Valid() && hub.Agrees() && Clean(hub) && Fileable(hub.text, g)
    requires b in hub.live && hub.live[b] == Held(RoutesOf(hub.text, g))
    modifies hub, hub.pools.Values
    ensures hub.Valid() && hub.Agrees() && Clean(hub) && hub.live == old(hub.live) - {b}
  {
    hub.Unregister(b, RoutesOf(hub.text, g));
  }

  /** The table knows the hub as `p`, under exactly the routes the hub serves. */
  ghost predicate InStep(hub: Registry, table: Table, p: string)
    reads hub, table, table.routes.Values
  {
    table.text == hub.text && forall r :: table.Has(r, p) <==> hub.Served(r)
  }

  ghost predicate AllSpelt(text: Text, names: set<string>) {
    forall h :: h in names ==> Spelt(text, h)
  }

  /** What a clean hub announces is filed by a peer under exactly the routes it serves. */
  lemma AnnouncedExactly(hub: Registry, names: seq<string>)
    requires Clean(hub)
    requires forall n :: n in names <==> exists r :: hub.Served(r) && NameOf(r) == n
    ensures AllSpelt(hub.text, set h | h in names)
    ensures forall r :: Filed(hub.text, (set h | h in names), r) <==> hub.Served(r)
  {
    var all := set h | h in names;
    forall r | hub.Served(r) ensures Announceable(hub.text, r) && NameOf(r) in all {
      var b :| b in hub.live && r in hub.live[b];
      assert NameOf(r) in names;
    }
    forall n | n in all ensures Spelt(hub.text, n) && hub.Served(RouteOf(hub.text, n)) {
      var r :| hub.Served(r) && NameOf(r) == n;
    }
  }

  method LocalNames(hub: Registry) returns (names: seq<string>)
    requires hub.Valid() && hub.Agrees() && Clean(hub)
    ensures AllSpelt(hub.text, set h | h in names)
    ensures forall r :: Filed(hub.text, (set h | h in names), r) <==> hub.Served(r)
  {
    names := hub.GetLocalRoutes();
    AnnouncedExactly(hub, names);
  }

  /** Names spelt canonically land at a peer that keeps to such names. */
  method Receive(table: Table, p: string, version: nat, names: seq<string>)
    requires table.Valid() && table.Agrees()
    requires AllSpelt(table.text, table.Names(p)) && AllSpelt(table.text, set h | h in names)
    modifies table, table.routes.Values
    ensures table.Valid() && table.Agrees() && AllSpelt(table.text, table.Names(p))
    ensures version > old(table.Version(p)) ==> table.Lists(p, set h | h in names) && table.Version(p) == version
    ensures version <= old(table.Version(p)) ==> forall r :: table.Has(r, p) <==> old(table.Has(r, p))
    ensures forall r, q :: q != p ==> (table.Has(r, q) <==> old(table.Has(r, q)))
  {
    CanonicalLands(table.text, table.Names(p), set h | h in names);
    table.UpdateRoutesForPeer(p, version, names);
    assert table.Lists(p, table.Names(p));
  }

  /** An announcement lands: a peer that accepts it lists the hub under exactly the routes
      it serves, and its table goes on agreeing with what was announced to it. */
  method Announce(hub: Registry, table: Table, p: string, version: nat)
    requires hub.Valid() && hub.Agrees() && Clean(hub)
    requires table.Valid() && table.Agrees() && table.text == hub.text && AllSpelt(hub.text, table.Names(p))
    modifies table, table.routes.Values
    ensures table.Valid() && table.Agrees() && AllSpelt(hub.text, table.Names(p))
    ensures version > old(table.Version(p)) ==> InStep(hub, table, p) && table.Version(p) == version
    ensures version <= old(table.Version(p)) ==> forall r :: table.Has(r, p) <==> old(table.Has(r, p))
    ensures forall r, q :: q != p ==> (table.Has(r, q) <==> old(table.Has(r, q)))
  {
    var names := LocalNames(hub);
    Receive(table, p, version, names);
  }

  /** A request for a name reaches a peer whenever the hub covers it. If that peer is the
      hub, it has a backend for it unless an emptied pool of the name shadows a wildcard. */
  method Route(hub: Registry, table: Table, p: string, name: string) returns (peer: Option<string>, b: Result)
    requires hub.Valid() && hub.Agrees() && table.Valid() && InStep(hub, table, p)
    modifies hub.pools.Values, table.routes.Values
    ensures hub.Covered(name) ==> peer.Some?
    ensures !hub.Covered(name) ==> peer != Some(p)
    ensures peer == Some(p) ==> (b.Ok? <==> !hub.Shadowed(name))
    ensures b.Ok? ==> b.value in hub.live
  {
    b := NoBackends;
    peer := table.GetPeerForHostname(name);
    if peer == Some(p) {
      b := hub.SelectBackend(name);
    }
  }
}
