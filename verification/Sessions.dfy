/** A backend's session: the two-stage handshake that admits it, and the
    re-authentications that must find it unchanged. Nonces, clocks and the check of the
    status URI come from outside. */
module Sessions {
  import opened Basics
  import opened Hostnames
  import opened Sorting
  import opened ClaimFilters

  const DEFAULT_REAUTH_GRACE := 10 * SECOND

  datatype Claims = Claims(hosts: seq<string>, tcp: seq<int>, udp: seq<UdpClaim>,
                           outboundAllowed: bool, outbound: seq<int>, weight: int, nonce: string,
                           maxAge: Option<int>, issuedAt: Option<int>,
                           reauthInterval: Option<int>, reauthGrace: Option<int>,
                           maintenanceCap: Option<int>, statusURI: string, policyVersion: string)

  /** What a session is granted. */
  datatype Granted = Granted(hosts: seq<string>, tcp: seq<int>, udp: seq<UdpRoute>,
                             outboundAllowed: bool, outbound: seq<int>, explicitPorts: bool, weight: int)

  datatype Rejected = Host(name: string) | Tcp(port: int) | Udp(port: int) | Outbound(port: int)

  // ----- What a token asks for ------------------------------------------------------------

  ghost predicate InboundMalformed(cfg: Config, text: Text, c: Claims) {
    HostsMalformed(text, c.hosts) || TcpMalformed(cfg, c.tcp) || UdpMalformed(cfg, c.udp)
  }

  ghost predicate WellFormed(cfg: Config, text: Text, c: Claims) {
    !InboundMalformed(cfg, text, c) && !OutboundMalformed(cfg, c.outboundAllowed, c.outbound)
  }

  /** Something to serve is left after filtering. */
  ghost predicate Serves(cfg: Config, text: Text, c: Claims) {
    || (exists n :: HostClaimed(text, c.hosts, n))
    || (exists p :: p in c.tcp && Allowed(false, cfg.tcp, p))
    || (exists u :: UdpClaimed(cfg, c.udp, u))
  }

  ghost predicate InboundMatches(cfg: Config, text: Text, c: Claims, g: Granted) {
    && (forall n :: n in g.hosts <==> HostClaimed(text, c.hosts, n))
    && (forall p :: p in g.tcp <==> p in c.tcp && Allowed(false, cfg.tcp, p))
    && (forall u :: u in g.udp <==> UdpClaimed(cfg, c.udp, u))
  }

  /** The token filters to exactly these sets. */
  ghost predicate Matches(cfg: Config, text: Text, c: Claims, g: Granted) {
    && InboundMatches(cfg, text, c, g)
    && c.outboundAllowed == g.outboundAllowed
    && (forall p :: p in g.outbound <==> p in c.outbound && Allowed(cfg.outbound == [], cfg.outbound, p))
    && g.explicitPorts == (c.outbound != [])
  }

  /** Sorted and free of repeats, with something to serve. */
  ghost predicate Canonical(g: Granted) {
    && Distinct(g.hosts) && StrictlyIncreasing(g.tcp) && ByPort(g.udp) && StrictlyIncreasing(g.outbound)
    && g.weight >= 1 && (g.hosts != [] || g.tcp != [] || g.udp != [])
  }

  function First<R>(all: seq<R>): seq<R> {
    if |all| <= REJECTED_BOUND then all else all[..REJECTED_BOUND]
  }

  function Tagged<R>(tag: R -> Rejected, s: seq<R>): seq<Rejected> {
    seq(|s|, i requires 0 <= i < |s| => tag(s[i]))
  }

  /** The first misses of each kind, in order. */
  ghost function InboundRejections(cfg: Config, text: Text, c: Claims): seq<Rejected> {
    Tagged((n: string) => Host(n), First(HostMisses(text, c.hosts)))
    + Tagged((p: int) => Tcp(p), First(Misses(false, cfg.tcp, c.tcp)))
    + Tagged((p: int) => Udp(p), First(UdpMisses(cfg, c.udp)))
  }

  ghost function Rejections(cfg: Config, text: Text, c: Claims): seq<Rejected> {
    InboundRejections(cfg, text, c)
    + Tagged((p: int) => Outbound(p), First(Misses(cfg.outbound == [], cfg.outbound, c.outbound)))
  }

  /** Some kind had more misses than its list holds. */
  ghost predicate InboundTruncated(cfg: Config, text: Text, c: Claims) {
    || |HostMisses(text, c.hosts)| > REJECTED_BOUND || |Misses(false, cfg.tcp, c.tcp)| > REJECTED_BOUND
    || |UdpMisses(cfg, c.udp)| > REJECTED_BOUND
  }

  ghost predicate Truncated(cfg: Config, text: Text, c: Claims) {
    || InboundTruncated(cfg, text, c)
    || |Misses(cfg.outbound == [], cfg.outbound, c.outbound)| > REJECTED_BOUND
  }

  // ----- Filtering a token ----------------------------------------------------------------

  datatype Inbound =
    | Inbound(hosts: seq<string>, tcp: seq<int>, udp: seq<UdpRoute>, rejected: seq<Rejected>, truncated: bool)
    | BadInbound

  ghost predicate InboundFilter(cfg: Config, text: Text, c: Claims, r: Inbound)
    requires r.Inbound?
  {
    && r.hosts == HostFilter(text, c.hosts) && PortFilter(false, cfg.tcp, c.tcp, r.tcp) && UdpFilter(cfg, c.udp, r.udp)
    && r.rejected == InboundRejections(cfg, text, c) && r.truncated == InboundTruncated(cfg, text, c)
  }

  lemma ListsFirst<R>(rejected: seq<R>, truncated: bool, all: seq<R>)
    requires Lists(rejected, truncated, all)
    ensures rejected == First(all)
  {
  }

  method FilterInbound(cfg: Config, text: Text, c: Claims) returns (r: Inbound)
    ensures r.BadInbound? <==> InboundMalformed(cfg, text, c)
    ensures r.Inbound? ==> InboundFilter(cfg, text, c, r)
  {
    var hosts: Filtered<string, string> := Filtered([], [], false);
    if |c.hosts| > 0 {
      hosts := NormalizeHostnames(text, c.hosts);
      if hosts.Malformed? { return BadInbound; }
    }
    var tcp := NormalizeTcpPorts(cfg, c.tcp);
    if tcp.Malformed? { return BadInbound; }
    var udp := NormalizeUdpRoutes(cfg, c.udp);
    if udp.Malformed? { return BadInbound; }
    ListsFirst(hosts.rejected, hosts.truncated, HostMisses(text, c.hosts));
    ListsFirst(tcp.rejected, tcp.truncated, Misses(false, cfg.tcp, c.tcp));
    ListsFirst(udp.rejected, udp.truncated, UdpMisses(cfg, c.udp));
    r := Inbound(hosts.accepted, tcp.accepted, udp.accepted,
                 Tagged((n: string) => Host(n), hosts.rejected) + Tagged((p: int) => Tcp(p), tcp.rejected)
                 + Tagged((p: int) => Udp(p), udp.rejected),
                 hosts.truncated || tcp.truncated || udp.truncated);
  }

  lemma ServesSome(cfg: Config, text: Text, c: Claims, r: Inbound)
    requires r.Inbound? && InboundFilter(cfg, text, c, r)
    ensures Serves(cfg, text, c) <==> r.hosts != [] || r.tcp != [] || r.udp != []
  {
    HostFilterMeans(text, c.hosts);
    if r.hosts != [] { assert r.hosts[0] in r.hosts; }
    if r.tcp != [] { assert r.tcp[0] in r.tcp; }
    if r.udp != [] { assert r.udp[0] in r.udp; }
  }

  // ----- Stage zero -----------------------------------------------------------------------

  datatype Kind = PolicyShaped | InputMalformed | Other

  datatype Stage0 = Info(granted: Granted) | Refused(kind: Kind, rejected: seq<Rejected>, truncated: bool)

  /** Within the token's own age limit, if it sets one. */
  predicate Recent(c: Claims, now: int) {
    c.maxAge.Some? && c.maxAge.value > 0 ==> c.issuedAt.Some? && now - c.issuedAt.value <= c.maxAge.value * SECOND
  }

  /** Admits a token if and only if it is well formed, recent, and leaves something to
      serve; what is granted is its filter, in canonical form. */
  method ValidateStage0Claims(cfg: Config, text: Text, c: Claims, now: int) returns (r: Stage0)
    ensures r.Info? <==> WellFormed(cfg, text, c) && Serves(cfg, text, c) && Recent(c, now)
    ensures r.Info? ==> Canonical(r.granted) && Matches(cfg, text, c, r.granted)
    ensures r.Info? ==> r.granted.hosts == HostFilter(text, c.hosts)
    ensures r.Info? ==> r.granted.weight == if c.weight <= 0 then 1 else c.weight
    ensures r.Refused? && r.kind == PolicyShaped <==> !InboundMalformed(cfg, text, c) && !Serves(cfg, text, c)
    ensures r.Refused? && r.kind == PolicyShaped ==>
              r.rejected == InboundRejections(cfg, text, c) && r.truncated == InboundTruncated(cfg, text, c)
  {
    var inbound := FilterInbound(cfg, text, c);
    if inbound.BadInbound? { return Refused(InputMalformed, [], false); }
    ServesSome(cfg, text, c, inbound);
    HostFilterMeans(text, c.hosts);
    if |inbound.hosts| == 0 && |inbound.tcp| == 0 && |inbound.udp| == 0 {
      return Refused(PolicyShaped, inbound.rejected, inbound.truncated);
    }
    var outbound := NormalizeOutboundPorts(cfg, c.outboundAllowed, c.outbound);
    if outbound.Malformed? { return Refused(InputMalformed, [], false); }
    var weight := if c.weight <= 0 then 1 else c.weight;
    if c.maxAge.Some? && c.maxAge.value > 0 {
      if c.issuedAt.None? { return Refused(Other, [], false); }
      if now - c.issuedAt.value > c.maxAge.value * SECOND { return Refused(Other, [], false); }
    }
    r := Info(Granted(inbound.hosts, inbound.tcp, inbound.udp, c.outboundAllowed, outbound.accepted,
                      |c.outbound| > 0, weight));
  }

  // ----- Comparing with what was granted --------------------------------------------------

  lemma RoutesSame(a: seq<UdpRoute>, b: seq<UdpRoute>)
    requires ByPort(a) && ByPort(b)
    ensures OneTimeout(a)
    ensures multiset(a) == multiset(b) <==> forall u :: u in a <==> u in b
  {
    assert Distinct(a) && Distinct(b);
    DistinctSame(a, b);
    forall u, v | u in a && v in a && u.port == v.port ensures u == v {
      var i :| 0 <= i < |a| && a[i] == u;
      var j :| 0 <= j < |a| && a[j] == v;
      assert i == j;
    }
  }

  lemma InboundSame(cfg: Config, text: Text, c: Claims, r: Inbound, g: Granted)
    requires r.Inbound? && InboundFilter(cfg, text, c, r) && Canonical(g)
    ensures InboundMatches(cfg, text, c, g) <==>
            && multiset(r.hosts) == multiset(g.hosts) && multiset(r.tcp) == multiset(g.tcp)
            && multiset(r.udp) == multiset(g.udp)
  {
    HostFilterMeans(text, c.hosts);
    DistinctSame(r.hosts, g.hosts);
    StrictSame(r.tcp, g.tcp);
    RoutesSame(r.udp, g.udp);
  }

  datatype Recheck = Same(rejected: seq<Rejected>, truncated: bool)
                   | Differs(rejected: seq<Rejected>, truncated: bool)
                   | Empty(rejected: seq<Rejected>, truncated: bool)
                   | BadInput

  /** The three inbound comparisons, in turn. */
  method SameInbound(cfg: Config, text: Text, c: Claims, r: Inbound, g: Granted) returns (same: bool)
    requires r.Inbound? && InboundFilter(cfg, text, c, r) && Canonical(g)
    ensures same <==> InboundMatches(cfg, text, c, g)
  {
    InboundSame(cfg, text, c, r, g);
    RoutesSame(r.udp, g.udp);
    same := SameStringSets(r.hosts, g.hosts);
    if same {
      same := SameIntSets(r.tcp, g.tcp);
      if same {
        same := SameUdpRoutes(r.udp, g.udp);
      }
    }
  }

  /** What a later token is told was rejected: its outbound claims are looked at only once
      everything before them agrees. */
  ghost function RecheckRejections(cfg: Config, text: Text, c: Claims, g: Granted): seq<Rejected> {
    if InboundMatches(cfg, text, c, g) && c.outboundAllowed == g.outboundAllowed
    then Rejections(cfg, text, c) else InboundRejections(cfg, text, c)
  }

  /** A later token agrees if and only if it is well formed and filters to the very sets
      that were granted. */
  method CheckAgain(cfg: Config, text: Text, c: Claims, g: Granted) returns (r: Recheck)
    requires Canonical(g)
    ensures r.Same? <==> WellFormed(cfg, text, c) && Matches(cfg, text, c, g)
    ensures r.Same? ==> r.rejected == Rejections(cfg, text, c) && r.truncated == Truncated(cfg, text, c)
    ensures r.BadInput? ==> !WellFormed(cfg, text, c)
    ensures r.Differs? ==> !Matches(cfg, text, c, g)
    ensures !r.BadInput? ==> r.rejected == RecheckRejections(cfg, text, c, g)
    ensures r.Empty? <==> !InboundMalformed(cfg, text, c) && !Serves(cfg, text, c)
    ensures r.Empty? ==> r.rejected == InboundRejections(cfg, text, c) && r.truncated == InboundTruncated(cfg, text, c)
  {
    var inbound := FilterInbound(cfg, text, c);
    if inbound.BadInbound? { return BadInput; }
    ServesSome(cfg, text, c, inbound);
    GrantedServes(cfg, text, c, g);
    if |inbound.hosts| == 0 && |inbound.tcp| == 0 && |inbound.udp| == 0 {
      return Empty(inbound.rejected, inbound.truncated);
    }
    var same := SameInbound(cfg, text, c, inbound, g);
    if !same { return Differs(inbound.rejected, inbound.truncated); }
    if c.outboundAllowed != g.outboundAllowed { return Differs(inbound.rejected, inbound.truncated); }
    r := CheckOutbound(cfg, text, c, inbound, g);
  }

  /** The outbound half, once everything inbound agrees. */
  method CheckOutbound(cfg: Config, text: Text, c: Claims, inbound: Inbound, g: Granted) returns (r: Recheck)
    requires inbound.Inbound? && InboundFilter(cfg, text, c, inbound) && Canonical(g)
    ensures !r.Empty?
    ensures r.BadInput? <==> OutboundMalformed(cfg, c.outboundAllowed, c.outbound)
    ensures r.Same? <==>
            && !OutboundMalformed(cfg, c.outboundAllowed, c.outbound) && g.explicitPorts == (c.outbound != [])
            && (forall p :: p in g.outbound <==> p in c.outbound && Allowed(cfg.outbound == [], cfg.outbound, p))
    ensures !r.BadInput? ==> r.rejected == Rejections(cfg, text, c) && r.truncated == Truncated(cfg, text, c)
  {
    var outbound := NormalizeOutboundPorts(cfg, c.outboundAllowed, c.outbound);
    if outbound.Malformed? { return BadInput; }
    ListsFirst(outbound.rejected, outbound.truncated, Misses(cfg.outbound == [], cfg.outbound, c.outbound));
    var rejected := inbound.rejected + Tagged((p: int) => Outbound(p), outbound.rejected);
    var truncated := inbound.truncated || outbound.truncated;
    StrictSame(outbound.accepted, g.outbound);
    var same := SameIntSets(outbound.accepted, g.outbound);
    if !same { return Differs(rejected, truncated); }
    if (|c.outbound| > 0) != g.explicitPorts { return Differs(rejected, truncated); }
    r := Same(rejected, truncated);
  }

  lemma GrantedServes(cfg: Config, text: Text, c: Claims, g: Granted)
    requires Canonical(g)
    ensures InboundMatches(cfg, text, c, g) ==> Serves(cfg, text, c)
  {
    if g.hosts != [] { assert g.hosts[0] in g.hosts; }
    if g.tcp != [] { assert g.tcp[0] in g.tcp; }
    if g.udp != [] { assert g.udp[0] in g.udp; }
  }

  // ----- Stage one ------------------------------------------------------------------------

  datatype Metadata = Metadata(granted: Granted, policyVersion: string, statusURI: string,
                               reauthInterval: int, reauthGrace: int, maintenanceCap: Option<int>,
                               rejected: seq<Rejected>, truncated: bool)

  datatype Stage1 = Attested(meta: Metadata) | Denied(kind: Kind, rejected: seq<Rejected>, truncated: bool)

  function Interval(c: Claims): (r: int)
    ensures r >= 0
  {
    if c.reauthInterval.Some? && c.reauthInterval.value > 0 then c.reauthInterval.value * SECOND else 0
  }

  function Grace(c: Claims): (r: int)
    ensures r > 0
  {
    if c.reauthGrace.Some? && c.reauthGrace.value > 0 then c.reauthGrace.value * SECOND else DEFAULT_REAUTH_GRACE
  }

  /** The parts of a token that are not about what it serves. */
  predicate TermsValid(c: Claims, uriOk: bool) {
    (c.maintenanceCap.Some? ==> c.maintenanceCap.value >= 0) && (c.statusURI != "" ==> uriOk)
  }

  /** The attested token must answer the nonce and filter to what the first token was
      granted; the metadata then carries exactly that. */
  method BuildMetadata(cfg: Config, text: Text, c: Claims, g: Granted, nonce: string, uriOk: bool) returns (r: Stage1)
    requires Canonical(g)
    ensures r.Attested? <==>
            && c.nonce == nonce && WellFormed(cfg, text, c) && Matches(cfg, text, c, g)
            && (c.weight > 0 ==> c.weight == g.weight) && TermsValid(c, uriOk)
    ensures r.Attested? ==>
              r.meta == Metadata(g, c.policyVersion, c.statusURI, Interval(c), if Interval(c) > 0 then Grace(c) else 0,
                                 if c.maintenanceCap.Some? then Some(c.maintenanceCap.value * SECOND) else None,
                                 Rejections(cfg, text, c), Truncated(cfg, text, c))
    ensures r.Denied? && r.kind == PolicyShaped ==>
              !Serves(cfg, text, c) && r.rejected == InboundRejections(cfg, text, c)
              && r.truncated == InboundTruncated(cfg, text, c)
  {
    if c.nonce != nonce { return Denied(Other, [], false); }
    var check := CheckAgain(cfg, text, c, g);
    match check
    case BadInput => r := Denied(InputMalformed, [], false);
    case Empty(rejected, truncated) => r := Denied(PolicyShaped, rejected, truncated);
    case Differs(_, _) => r := Denied(Other, [], false);
    case Same(rejected, truncated) =>
      if c.weight > 0 && c.weight != g.weight { return Denied(Other, [], false); }
      var interval, grace := 0, 0;
      if c.reauthInterval.Some? && c.reauthInterval.value > 0 {
        interval, grace := c.reauthInterval.value * SECOND, Grace(c);
      }
      var cap := None;
      if c.maintenanceCap.Some? {
        if c.maintenanceCap.value < 0 { return Denied(Other, [], false); }
        cap := Some(c.maintenanceCap.value * SECOND);
      }
      if c.statusURI != "" && !uriOk { return Denied(Other, [], false); }
      r := Attested(Metadata(g, c.policyVersion, c.statusURI, interval, grace, cap, rejected, truncated));
  }

  // ----- The session ----------------------------------------------------------------------

  datatype Reauth = Applied(rejected: seq<Rejected>, truncated: bool)
                  | Failed(kind: Kind, rejected: seq<Rejected>, truncated: bool)

  class Backend {
    const cfg: Config
    const text: Text
    var granted: Granted
    var reauthInterval: int
    var reauthGrace: int
    var maintenanceCap: int
    var maintenanceUsed: int
    var statusURI: string
    var policyVersion: string

    constructor (cfg: Config, text: Text, meta: Metadata, defaultCap: int)
      ensures this.cfg == cfg && this.text == text && granted == meta.granted && maintenanceUsed == 0
      ensures maintenanceCap == if meta.maintenanceCap.Some? then meta.maintenanceCap.value else defaultCap
      ensures reauthInterval == meta.reauthInterval && (meta.reauthInterval > 0 ==> reauthGrace > 0)
      ensures meta.reauthGrace > 0 || meta.reauthInterval <= 0 ==> reauthGrace == meta.reauthGrace
      ensures statusURI == meta.statusURI && policyVersion == meta.policyVersion
    {
      this.cfg, this.text, granted := cfg, text, meta.granted;
      reauthInterval := meta.reauthInterval;
      reauthGrace := if meta.reauthInterval > 0 && meta.reauthGrace <= 0 then DEFAULT_REAUTH_GRACE
                     else meta.reauthGrace;
      maintenanceCap := if meta.maintenanceCap.Some? then meta.maintenanceCap.value else defaultCap;
      maintenanceUsed, statusURI, policyVersion := 0, meta.statusURI, meta.policyVersion;
    }

    /** The token is one this session can go on with. */
    ghost predicate Stable(c: Claims, uriOk: bool)
      reads this`granted
    {
      WellFormed(cfg, text, c) && Keeps(c) && TermsValid(c, uriOk)
    }

    /** The token filters to the sets of the session and asks for no other weight. */
    ghost predicate Keeps(c: Claims)
      reads this`granted
    {
      Matches(cfg, text, c, granted) && (c.weight != 0 ==> c.weight == granted.weight)
    }

    /** Re-authentication succeeds if and only if the token filters to the sets of the
        session and asks for no other weight. What is granted never changes, and a token
        that fails changes nothing at all. */
    method ApplyClaims(c: Claims, uriOk: bool) returns (r: Reauth)
      requires Canonical(granted)
      modifies this`reauthInterval, this`reauthGrace, this`maintenanceCap, this`maintenanceUsed,
               this`statusURI, this`policyVersion
      ensures r.Applied? <==> Stable(c, uriOk)
      ensures r.Failed? ==> unchanged(this)
      ensures r.Applied? ==>
                && reauthInterval == Interval(c)
                && reauthGrace == (if Interval(c) > 0 then Grace(c) else old(reauthGrace))
                && maintenanceCap == (if c.maintenanceCap.Some? then c.maintenanceCap.value * SECOND
                                      else old(maintenanceCap))
                && statusURI == c.statusURI && policyVersion == c.policyVersion && maintenanceUsed == 0
                && r.rejected == Rejections(cfg, text, c) && r.truncated == Truncated(cfg, text, c)
      ensures r.Failed? && r.kind == PolicyShaped ==> r.rejected == RecheckRejections(cfg, text, c, granted)
      ensures WellFormed(cfg, text, c) && !Keeps(c) ==> r.Failed? && r.kind == PolicyShaped
    {
      var check := CheckAgain(cfg, text, c, granted);
      match check
      case BadInput => return Failed(InputMalformed, [], false);
      case Empty(rejected, truncated) => return Failed(PolicyShaped, rejected, truncated);
      case Differs(rejected, truncated) => return Failed(PolicyShaped, rejected, truncated);
      case Same(rejected, truncated) =>
        if c.weight != 0 && c.weight != granted.weight { return Failed(PolicyShaped, rejected, truncated); }
        if c.maintenanceCap.Some? && c.maintenanceCap.value < 0 {
          return Failed(InputMalformed, rejected, truncated);
        }
        if c.statusURI != "" && !uriOk { return Failed(InputMalformed, rejected, truncated); }
        reauthInterval := Interval(c);
        if reauthInterval > 0 {
          reauthGrace := Grace(c);
        }
        if c.maintenanceCap.Some? {
          maintenanceCap := c.maintenanceCap.value * SECOND;
        }
        statusURI, policyVersion, maintenanceUsed := c.statusURI, c.policyVersion, 0;
        r := Applied(rejected, truncated);
    }
  }

  /** Two tokens ask for the same things, as far as the relay allows them. */
  ghost predicate SameFilter(cfg: Config, text: Text, c: Claims, d: Claims) {
    && (forall n :: HostClaimed(text, c.hosts, n) <==> HostClaimed(text, d.hosts, n))
    && (forall p :: p in c.tcp && Allowed(false, cfg.tcp, p) <==> p in d.tcp && Allowed(false, cfg.tcp, p))
    && (forall u :: UdpClaimed(cfg, c.udp, u) <==> UdpClaimed(cfg, d.udp, u))
    && c.outboundAllowed == d.outboundAllowed && (c.outbound != [] <==> d.outbound != [])
    && (forall p :: p in c.outbound && Allowed(cfg.outbound == [], cfg.outbound, p) <==>
                    p in d.outbound && Allowed(cfg.outbound == [], cfg.outbound, p))
  }

  lemma MatchesSame(cfg: Config, text: Text, c: Claims, d: Claims, g: Granted)
    requires Matches(cfg, text, c, g)
    ensures Matches(cfg, text, d, g) <==> SameFilter(cfg, text, c, d)
  {
    assert (forall n :: n in g.hosts <==> HostClaimed(text, d.hosts, n)) <==>
           forall n :: HostClaimed(text, c.hosts, n) <==> HostClaimed(text, d.hosts, n);
    assert (forall u :: u in g.udp <==> UdpClaimed(cfg, d.udp, u)) <==>
           forall u :: UdpClaimed(cfg, c.udp, u) <==> UdpClaimed(cfg, d.udp, u);
  }

  /** The handshake: a backend exists if and only if the first token passes, the second
      answers the nonce, and both filter alike; it is granted that filter. */
  method Handshake(cfg: Config, text: Text, c0: Claims, c1: Claims, nonce: string, now: int, uriOk: bool,
                   defaultCap: int)
    returns (b: Backend?)
    ensures b != null <==>
            && WellFormed(cfg, text, c0) && Serves(cfg, text, c0) && Recent(c0, now)
            && WellFormed(cfg, text, c1) && c1.nonce == nonce && SameFilter(cfg, text, c0, c1)
            && (c1.weight > 0 ==> c1.weight == if c0.weight <= 0 then 1 else c0.weight) && TermsValid(c1, uriOk)
    ensures b != null ==>
              && fresh(b) && b.cfg == cfg && b.text == text && Canonical(b.granted)
              && Matches(cfg, text, c0, b.granted) && Matches(cfg, text, c1, b.granted)
              && b.granted.weight == if c0.weight <= 0 then 1 else c0.weight
  {
    var first := ValidateStage0Claims(cfg, text, c0, now);
    if first.Refused? { return null; }
    MatchesSame(cfg, text, c0, c1, first.granted);
    var second := BuildMetadata(cfg, text, c1, first.granted, nonce, uriOk);
    if second.Denied? { return null; }
    b := new Backend(cfg, text, second.meta, defaultCap);
  }

  /** A session over any tokens: it goes on exactly as long as they are stable, with the
      grant it began with. */
  method Session(b: Backend, tokens: seq<(Claims, bool)>) returns (n: nat)
    requires Canonical(b.granted)
    modifies b
    ensures b.granted == old(b.granted)
    ensures n <= |tokens| && forall i :: 0 <= i < n ==> b.Stable(tokens[i].0, tokens[i].1)
    ensures n < |tokens| ==> !b.Stable(tokens[n].0, tokens[n].1)
  {
    n := 0;
    while n < |tokens|
      invariant n <= |tokens| && b.granted == old(b.granted)
      invariant forall i :: 0 <= i < n ==> b.Stable(tokens[i].0, tokens[i].1)
    {
      var r := b.ApplyClaims(tokens[n].0, tokens[n].1);
      if r.Failed? { return; }
      n := n + 1;
    }
  }
}
