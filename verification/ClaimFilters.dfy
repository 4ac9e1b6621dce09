/** Filtering a token's claims against the relay's allowlists, and comparing what two
    tokens were granted. */
module ClaimFilters {
  import opened Basics
  import opened Hostnames
  import opened Sorting

  const REJECTED_BOUND := 32

  /** What one kind of claim filters to. Malformed claims end the session. */
  datatype Filtered<T, R> = Filtered(accepted: seq<T>, rejected: seq<R>, truncated: bool) | Malformed

  datatype UdpClaim = UdpClaim(port: int, timeoutSeconds: Option<int>)

  datatype UdpRoute = UdpRoute(port: int, timeout: int)

  /** The relay's settings, fixed for the life of the process. Timeouts are in nanoseconds. */
  datatype Config = Config(tcp: seq<int>, udp: seq<int>, allowOutbound: bool, outbound: seq<int>,
                           minTimeout: int, maxTimeout: int, defaultTimeout: int)

  predicate BadPort(p: int) {
    p <= 0 || p > 65535
  }

  // ----- Rejections -----------------------------------------------------------------------

  /** The list holds the first rejections in order, and says whether there were more. */
  ghost predicate Lists<R>(rejected: seq<R>, truncated: bool, all: seq<R>) {
    && rejected <= all
    && |rejected| == (if |all| < REJECTED_BOUND then |all| else REJECTED_BOUND)
    && (truncated <==> |all| > REJECTED_BOUND)
  }

  method AppendRejected<R>(rejected: seq<R>, truncated: bool, entry: R, ghost all: seq<R>)
    returns (r: seq<R>, t: bool)
    requires Lists(rejected, truncated, all)
    ensures Lists(r, t, all + [entry])
  {
    if |rejected| >= REJECTED_BOUND {
      return rejected, true;
    }
    r, t := rejected + [entry], truncated;
  }

  // ----- Ports ----------------------------------------------------------------------------

  predicate StrictlyIncreasing(s: seq<int>) {
    forall i, j :: 0 <= i < j < |s| ==> s[i] < s[j]
  }

  predicate Allowed(any: bool, allowed: seq<int>, p: int) {
    any || p in allowed
  }

  /** The claims off the allowlist, in order, repeats and all. */
  function Misses(any: bool, allowed: seq<int>, ports: seq<int>): seq<int> {
    if ports == [] then []
    else
      var p := ports[|ports| - 1];
      Misses(any, allowed, ports[..|ports| - 1]) + if Allowed(any, allowed, p) then [] else [p]
  }

  /** The sorted, duplicate-free allowlist filter of the claims. */
  ghost predicate PortFilter(any: bool, allowed: seq<int>, ports: seq<int>, out: seq<int>) {
    StrictlyIncreasing(out) && forall p :: p in out <==> p in ports && Allowed(any, allowed, p)
  }

  lemma SortStrict(s: seq<int>)
    requires Distinct(s)
    ensures var r := SortBy((x: int) => x, s); StrictlyIncreasing(r) && forall x :: x in r <==> x in s
  {
    var key := (x: int) => x;
    var r := SortBy(key, s);
    SortSorts(key, s);
    DistinctKept(s, r);
    SameMembers(r, s);
    forall i, j | 0 <= i < j < |r| ensures r[i] < r[j] {
      assert key(r[i]) <= key(r[j]) && r[i] != r[j];
    }
  }

  /** One pass over port claims, against an allowlist or against none. */
  method ScanPorts(any: bool, allowed: seq<int>, ports: seq<int>) returns (r: Filtered<int, int>)
    ensures r.Malformed? <==> exists i :: 0 <= i < |ports| && BadPort(ports[i])
    ensures r.Filtered? ==> PortFilter(any, allowed, ports, r.accepted)
    ensures r.Filtered? ==> Lists(r.rejected, r.truncated, Misses(any, allowed, ports))
  {
    var uniq: set<int>, out: seq<int>, rejected: seq<int>, truncated := {}, [], [], false;
    for i := 0 to |ports|
      invariant forall j :: 0 <= j < i ==> !BadPort(ports[j])
      invariant Distinct(out) && forall p :: p in out <==> p in uniq
      invariant forall p :: p in uniq <==> p in ports[..i] && Allowed(any, allowed, p)
      invariant Lists(rejected, truncated, Misses(any, allowed, ports[..i]))
    {
      var port := ports[i];
      assert ports[..i + 1][..i] == ports[..i] && ports[..i + 1] == ports[..i] + [port];
      if BadPort(port) { return Malformed; }
      if !Allowed(any, allowed, port) {
        rejected, truncated := AppendRejected(rejected, truncated, port, Misses(any, allowed, ports[..i]));
      } else if port !in uniq {
        uniq, out := uniq + {port}, out + [port];
      }
    }
    assert ports[..|ports|] == ports;
    SortStrict(out);
    r := Filtered(SortBy((x: int) => x, out), rejected, truncated);
  }

  ghost predicate TcpMalformed(cfg: Config, ports: seq<int>) {
    ports != [] && (cfg.tcp == [] || exists i :: 0 <= i < |ports| && BadPort(ports[i]))
  }

  method NormalizeTcpPorts(cfg: Config, ports: seq<int>) returns (r: Filtered<int, int>)
    ensures r.Malformed? <==> TcpMalformed(cfg, ports)
    ensures r.Filtered? ==> PortFilter(false, cfg.tcp, ports, r.accepted)
    ensures r.Filtered? ==> Lists(r.rejected, r.truncated, Misses(false, cfg.tcp, ports))
  {
    if ports == [] { return Filtered([], [], false); }
    if cfg.tcp == [] { return Malformed; }
    r := ScanPorts(false, cfg.tcp, ports);
  }

  ghost predicate OutboundMalformed(cfg: Config, wanted: bool, ports: seq<int>) {
    if wanted then !cfg.allowOutbound || exists i :: 0 <= i < |ports| && BadPort(ports[i]) else ports != []
  }

  /** An empty outbound allowlist allows every port. */
  method NormalizeOutboundPorts(cfg: Config, wanted: bool, ports: seq<int>) returns (r: Filtered<int, int>)
    ensures r.Malformed? <==> OutboundMalformed(cfg, wanted, ports)
    ensures r.Filtered? ==> PortFilter(cfg.outbound == [], cfg.outbound, ports, r.accepted)
    ensures r.Filtered? ==> Lists(r.rejected, r.truncated, Misses(cfg.outbound == [], cfg.outbound, ports))
  {
    if !wanted {
      return if ports != [] then Malformed else Filtered([], [], false);
    }
    if !cfg.allowOutbound { return Malformed; }
    if ports == [] { return Filtered([], [], false); }
    r := ScanPorts(cfg.outbound == [], cfg.outbound, ports);
  }

  /** There is one such list. */
  lemma PortFilterUnique(any: bool, allowed: seq<int>, ports: seq<int>, a: seq<int>, b: seq<int>)
    requires PortFilter(any, allowed, ports, a) && PortFilter(any, allowed, ports, b)
    ensures a == b
  {
    StrictSame(a, b);
  }

  lemma StrictSame(a: seq<int>, b: seq<int>)
    requires StrictlyIncreasing(a) && StrictlyIncreasing(b)
    ensures a == b <==> multiset(a) == multiset(b)
    ensures a == b <==> forall p :: p in a <==> p in b
  {
    assert Distinct(a) && Distinct(b);
    DistinctSame(a, b);
    if multiset(a) == multiset(b) {
      SortedUnique((x: int) => x, a, b);
    }
  }

  // ----- UDP routes -----------------------------------------------------------------------

  /** A claimed timeout, or the default, brought within the relay's bounds. */
  function Timeout(cfg: Config, c: UdpClaim): (t: int)
    ensures cfg.minTimeout <= cfg.maxTimeout ==> cfg.minTimeout <= t <= cfg.maxTimeout
  {
    var t := if c.timeoutSeconds.Some? && c.timeoutSeconds.value > 0 then c.timeoutSeconds.value * SECOND
             else cfg.defaultTimeout;
    var t := if t < cfg.minTimeout then cfg.minTimeout else t;
    if t > cfg.maxTimeout then cfg.maxTimeout else t
  }

  ghost predicate Conflict(cfg: Config, a: UdpClaim, b: UdpClaim) {
    a.port == b.port && a.port in cfg.udp && Timeout(cfg, a) != Timeout(cfg, b)
  }

  ghost predicate UdpMalformed(cfg: Config, claims: seq<UdpClaim>) {
    claims != [] &&
    (|| cfg.udp == [] || cfg.maxTimeout < cfg.minTimeout
     || (exists i :: 0 <= i < |claims| && BadPort(claims[i].port))
     || (exists i, j :: 0 <= i < j < |claims| && Conflict(cfg, claims[i], claims[j])))
  }

  ghost predicate UdpClaimed(cfg: Config, claims: seq<UdpClaim>, u: UdpRoute) {
    && u.port in cfg.udp
    && exists i :: 0 <= i < |claims| && claims[i].port == u.port && Timeout(cfg, claims[i]) == u.timeout
  }

  ghost predicate ByPort(s: seq<UdpRoute>) {
    forall i, j :: 0 <= i < j < |s| ==> s[i].port < s[j].port
  }

  ghost predicate UdpFilter(cfg: Config, claims: seq<UdpClaim>, out: seq<UdpRoute>) {
    ByPort(out) && forall u :: u in out <==> UdpClaimed(cfg, claims, u)
  }

  function UdpMisses(cfg: Config, claims: seq<UdpClaim>): seq<int> {
    if claims == [] then []
    else
      var p := claims[|claims| - 1].port;
      UdpMisses(cfg, claims[..|claims| - 1]) + if p in cfg.udp then [] else [p]
  }

  predicate RouteIn(seen: map<int, int>, u: UdpRoute) {
    u.port in seen && seen[u.port] == u.timeout
  }

  /** The list holds the routes of the map outside `todo`, each port once. */
  ghost predicate Collected(seen: map<int, int>, todo: set<UdpRoute>, out: seq<UdpRoute>) {
    && (forall i, j :: 0 <= i < j < |out| ==> out[i].port != out[j].port)
    && (forall u :: u in out <==> RouteIn(seen, u) && u !in todo)
    && (forall u :: u in todo ==> RouteIn(seen, u))
  }

  lemma CollectedMore(seen: map<int, int>, todo: set<UdpRoute>, out: seq<UdpRoute>, u: UdpRoute)
    requires Collected(seen, todo, out) && u in todo
    ensures Collected(seen, todo - {u}, out + [u])
  {
    forall i | 0 <= i < |out| ensures out[i].port != u.port {
      assert out[i] in out && RouteIn(seen, u);
    }
  }

  /** The routes of a map, in whatever order, then by port. */
  method CollectRoutes(seen: map<int, int>) returns (out: seq<UdpRoute>)
    ensures ByPort(out) && forall u :: u in out <==> RouteIn(seen, u)
  {
    out := [];
    var todo := set p | p in seen :: UdpRoute(p, seen[p]);
    while todo != {}
      invariant Collected(seen, todo, out)
      decreases todo
    {
      var u :| u in todo;
      CollectedMore(seen, todo, out, u);
      out, todo := out + [u], todo - {u};
    }
    SortRoutes(out);
    out := SortBy((u: UdpRoute) => u.port, out);
  }

  lemma SortRoutes(s: seq<UdpRoute>)
    requires forall i, j :: 0 <= i < j < |s| ==> s[i].port != s[j].port
    ensures var r := SortBy((u: UdpRoute) => u.port, s); ByPort(r) && forall u :: u in r <==> u in s
  {
    var key := (u: UdpRoute) => u.port;
    var r := SortBy(key, s);
    SortSorts(key, s);
    assert Distinct(s);
    DistinctKept(s, r);
    SameMembers(r, s);
    forall i, j | 0 <= i < j < |r| ensures r[i].port < r[j].port {
      assert r[i] in s && r[j] in s;
      var a :| 0 <= a < |s| && s[a] == r[i];
      var b :| 0 <= b < |s| && s[b] == r[j];
      assert a != b && key(r[i]) <= key(r[j]);
    }
  }

  /** The timeouts of the claims seen so far, by allowed port. */
  ghost predicate Seen(cfg: Config, claims: seq<UdpClaim>, seen: map<int, int>) {
    && (forall i :: 0 <= i < |claims| && claims[i].port in cfg.udp ==>
          claims[i].port in seen && seen[claims[i].port] == Timeout(cfg, claims[i]))
    && (forall p :: p in seen ==> UdpClaimed(cfg, claims, UdpRoute(p, seen[p])))
  }

  lemma SeenMore(cfg: Config, claims: seq<UdpClaim>, seen: map<int, int>, c: UdpClaim)
    requires Seen(cfg, claims, seen)
    ensures c.port !in cfg.udp ==> Seen(cfg, claims + [c], seen)
    ensures c.port in cfg.udp && c.port !in seen ==> Seen(cfg, claims + [c], seen[c.port := Timeout(cfg, c)])
    ensures c.port in seen && seen[c.port] == Timeout(cfg, c) ==> Seen(cfg, claims + [c], seen)
  {
    var more := claims + [c];
    forall u | UdpClaimed(cfg, claims, u) ensures UdpClaimed(cfg, more, u) {
      var i :| 0 <= i < |claims| && claims[i].port == u.port && Timeout(cfg, claims[i]) == u.timeout;
      assert more[i] == claims[i];
    }
    assert more[|claims|] == c;
    assert c.port in cfg.udp ==> UdpClaimed(cfg, more, UdpRoute(c.port, Timeout(cfg, c)));
  }

  method NormalizeUdpRoutes(cfg: Config, claims: seq<UdpClaim>) returns (r: Filtered<UdpRoute, int>)
    ensures r.Malformed? <==> UdpMalformed(cfg, claims)
    ensures r.Filtered? ==> UdpFilter(cfg, claims, r.accepted)
    ensures r.Filtered? ==> Lists(r.rejected, r.truncated, UdpMisses(cfg, claims))
  {
    if claims == [] { return Filtered([], [], false); }
    if cfg.udp == [] { return Malformed; }
    if cfg.maxTimeout < cfg.minTimeout { return Malformed; }
    var seen: map<int, int>, rejected: seq<int>, truncated := map[], [], false;
    for i := 0 to |claims|
      invariant forall j :: 0 <= j < i ==> !BadPort(claims[j].port)
      invariant Seen(cfg, claims[..i], seen)
      invariant Lists(rejected, truncated, UdpMisses(cfg, claims[..i]))
    {
      var c := claims[i];
      assert claims[..i + 1] == claims[..i] + [c] && claims[..i + 1][..i] == claims[..i];
      SeenMore(cfg, claims[..i], seen, c);
      if BadPort(c.port) { return Malformed; }
      if c.port !in cfg.udp {
        rejected, truncated := AppendRejected(rejected, truncated, c.port, UdpMisses(cfg, claims[..i]));
        continue;
      }
      var timeout := Timeout(cfg, c);
      if c.port in seen {
        if seen[c.port] != timeout {
          SeenConflicts(cfg, claims, seen, i);
          return Malformed;
        }
        continue;
      }
      seen := seen[c.port := timeout];
    }
    assert claims[..|claims|] == claims;
    SeenAgrees(cfg, claims, seen);
    var out := CollectRoutes(seen);
    r := Filtered(out, rejected, truncated);
  }

  lemma SeenConflicts(cfg: Config, claims: seq<UdpClaim>, seen: map<int, int>, i: nat)
    requires i < |claims| && Seen(cfg, claims[..i], seen)
    requires claims[i].port in seen && seen[claims[i].port] != Timeout(cfg, claims[i])
    ensures UdpMalformed(cfg, claims)
  {
    var p := claims[i].port;
    var j :| 0 <= j < i && claims[..i][j].port == p && Timeout(cfg, claims[..i][j]) == seen[p];
    assert Conflict(cfg, claims[j], claims[i]);
  }

  lemma SeenAgrees(cfg: Config, claims: seq<UdpClaim>, seen: map<int, int>)
    requires Seen(cfg, claims, seen)
    ensures forall i, j :: 0 <= i < j < |claims| ==> !Conflict(cfg, claims[i], claims[j])
    ensures forall u :: UdpClaimed(cfg, claims, u) <==> RouteIn(seen, u)
  {
  }

  // ----- Hostnames --------------------------------------------------------------------------

  /** Names that would collide with the port pools. */
  predicate Reserved(n: string) {
    "tcp:" <= n || "udp:" <= n
  }

  ghost predicate HostClaimed(text: Text, hosts: seq<string>, n: string) {
    n != "" && !Reserved(n) && exists i :: 0 <= i < |hosts| && NormalizeOrWildcard(text, hosts[i]) == n
  }

  /** The canonical names claimed, each once, in order of first mention. */
  function HostFilter(text: Text, hosts: seq<string>): seq<string> {
    if hosts == [] then []
    else
      var n, r := NormalizeOrWildcard(text, hosts[|hosts| - 1]), HostFilter(text, hosts[..|hosts| - 1]);
      if n == "" || Reserved(n) || n in r then r else r + [n]
  }

  function HostMisses(text: Text, hosts: seq<string>): seq<string> {
    if hosts == [] then []
    else
      var n := NormalizeOrWildcard(text, hosts[|hosts| - 1]);
      HostMisses(text, hosts[..|hosts| - 1]) + if Reserved(n) then [n] else []
  }

  lemma {:induction false} HostFilterMeans(text: Text, hosts: seq<string>)
    ensures Distinct(HostFilter(text, hosts))
    ensures forall n :: n in HostFilter(text, hosts) <==> HostClaimed(text, hosts, n)
  {
    if hosts != [] {
      var m := |hosts| - 1;
      HostFilterMeans(text, hosts[..m]);
      forall n ensures HostClaimed(text, hosts, n) <==>
                       HostClaimed(text, hosts[..m], n)
                       || (n != "" && !Reserved(n) && n == NormalizeOrWildcard(text, hosts[m])) {
        if HostClaimed(text, hosts[..m], n) {
          var i :| 0 <= i < m && NormalizeOrWildcard(text, hosts[..m][i]) == n;
          assert NormalizeOrWildcard(text, hosts[i]) == n;
        }
        if HostClaimed(text, hosts, n) {
          var i :| 0 <= i < |hosts| && NormalizeOrWildcard(text, hosts[i]) == n;
          assert i < m ==> NormalizeOrWildcard(text, hosts[..m][i]) == n;
        }
      }
    }
  }

  /** Every name is empty once normalised. */
  ghost predicate AllBlank(text: Text, hosts: seq<string>) {
    forall i :: 0 <= i < |hosts| ==> NormalizeOrWildcard(text, hosts[i]) == ""
  }

  ghost predicate HostsMalformed(text: Text, hosts: seq<string>) {
    hosts != [] && AllBlank(text, hosts)
  }

  lemma BlankSnoc(text: Text, hosts: seq<string>)
    requires hosts != []
    ensures AllBlank(text, hosts) <==>
            AllBlank(text, hosts[..|hosts| - 1]) && NormalizeOrWildcard(text, hosts[|hosts| - 1]) == ""
  {
    var before := hosts[..|hosts| - 1];
    forall i | 0 <= i < |before| ensures before[i] == hosts[i] {
    }
  }

  lemma {:induction false} NothingLeft(text: Text, hosts: seq<string>)
    ensures HostFilter(text, hosts) == [] && HostMisses(text, hosts) == [] <==> AllBlank(text, hosts)
  {
    if hosts != [] {
      var m := |hosts| - 1;
      NothingLeft(text, hosts[..m]);
      BlankSnoc(text, hosts);
    }
  }

  method NormalizeHostnames(text: Text, hosts: seq<string>) returns (r: Filtered<string, string>)
    ensures r.Malformed? <==> HostsMalformed(text, hosts)
    ensures r.Filtered? ==> r.accepted == HostFilter(text, hosts)
    ensures r.Filtered? ==> Lists(r.rejected, r.truncated, HostMisses(text, hosts))
  {
    var uniq: set<string>, out: seq<string>, rejected: seq<string>, truncated := {}, [], [], false;
    for i := 0 to |hosts|
      invariant forall n :: n in out <==> n in uniq
      invariant out == HostFilter(text, hosts[..i])
      invariant Lists(rejected, truncated, HostMisses(text, hosts[..i]))
    {
      var n := NormalizeOrWildcard(text, hosts[i]);
      assert hosts[..i + 1][..i] == hosts[..i];
      if n == "" { continue; }
      if Reserved(n) {
        rejected, truncated := AppendRejected(rejected, truncated, n, HostMisses(text, hosts[..i]));
        continue;
      }
      if n in uniq { continue; }
      uniq, out := uniq + {n}, out + [n];
    }
    assert hosts[..|hosts|] == hosts;
    NothingLeft(text, hosts);
    if |out| == 0 && |hosts| > 0 && |rejected| == 0 { return Malformed; }
    r := Filtered(out, rejected, truncated);
  }

  // ----- Comparing what was granted -----------------------------------------------------------

  function CountIn(counts: map<string, int>, v: string): int {
    if v in counts then counts[v] else 0
  }

  /** The map counts a multiset, without zero entries. */
  ghost predicate Counts(counts: map<string, int>, m: multiset<string>) {
    (forall v :: CountIn(counts, v) == m[v]) && forall v :: v in counts ==> counts[v] > 0
  }

  method CountAll(a: seq<string>) returns (counts: map<string, int>)
    ensures Counts(counts, multiset(a))
  {
    counts := map[];
    for i := 0 to |a|
      invariant Counts(counts, multiset(a[..i]))
    {
      assert a[..i + 1] == a[..i] + [a[i]];
      counts := counts[a[i] := CountIn(counts, a[i]) + 1];
    }
    assert a[..|a|] == a;
  }

  /** Equal as multisets, whatever the order. */
  method SameStringSets(a: seq<string>, b: seq<string>) returns (r: bool)
    ensures r <==> multiset(a) == multiset(b)
  {
    if |a| != |b| {
      assert |multiset(a)| == |a| && |multiset(b)| == |b|;
      return false;
    }
    var counts := CountAll(a);
    ghost var rest := multiset(a);
    for i := 0 to |b|
      invariant Counts(counts, rest) && rest + multiset(b[..i]) == multiset(a)
    {
      var v := b[i];
      assert b[..i + 1] == b[..i] + [v] && b == b[..i] + [v] + b[i + 1..];
      if CountIn(counts, v) == 0 {
        assert multiset(b)[v] > multiset(a)[v];
        return false;
      }
      counts := counts[v := counts[v] - 1];
      if counts[v] == 0 {
        counts := counts - {v};
      }
      rest := rest - multiset{v};
    }
    assert b[..|b|] == b;
    assert |rest| + |multiset(b)| == |multiset(a)|;
    assert rest == multiset{};
    forall v ensures v !in counts {
      assert CountIn(counts, v) == rest[v];
    }
    assert counts == map[];
    r := |counts| == 0;
  }

  method Equal<T(==)>(x: seq<T>, y: seq<T>) returns (r: bool)
    requires |x| == |y|
    ensures r <==> x == y
  {
    for i := 0 to |x|
      invariant x[..i] == y[..i]
    {
      if x[i] != y[i] { return false; }
    }
    assert x[..|x|] == x && y[..|x|] == y;
    r := true;
  }

  method SameIntSets(a: seq<int>, b: seq<int>) returns (r: bool)
    ensures r <==> multiset(a) == multiset(b)
  {
    if |a| != |b| {
      assert |multiset(a)| == |a| && |multiset(b)| == |b|;
      return false;
    }
    var key := (x: int) => x;
    SortLength(key, a);
    SortLength(key, b);
    SortAlike(key, a, b);
    assert KeyTells(key, a);
    r := Equal(SortBy(key, a), SortBy(key, b));
  }

  /** No port has two timeouts. */
  ghost predicate OneTimeout(a: seq<UdpRoute>) {
    forall u, v :: u in a && v in a && u.port == v.port ==> u == v
  }

  /** Lists that agree are rearrangements of each other; the converse holds as long as no
      port has two timeouts, as in any list of accepted routes. */
  method SameUdpRoutes(a: seq<UdpRoute>, b: seq<UdpRoute>) returns (r: bool)
    ensures r ==> multiset(a) == multiset(b)
    ensures OneTimeout(a) && multiset(a) == multiset(b) ==> r
  {
    if |a| != |b| {
      assert |multiset(a)| == |a| && |multiset(b)| == |b|;
      return false;
    }
    var key := (u: UdpRoute) => u.port;
    SortLength(key, a);
    SortLength(key, b);
    SortAlike(key, a, b);
    r := Equal(SortBy(key, a), SortBy(key, b));
    assert OneTimeout(a) ==> KeyTells(key, a);
  }
}
