/** What a refused client learns: the hub's rejections, through the close frame, as the
    client reads them. */
module Refusals {
  import opened Hostnames
  import opened ClaimFilters
  import opened CloseReasons
  import opened Decimals
  import S = Sessions

  function PortText(p: int): string {
    if p < 0 then "-" + Itoa(-p) else Itoa(p)
  }

  /** A rejection as it goes into the close reason. */
  function ClaimOf(r: S.Rejected): Claim {
    match r
    case Host(name) => Claim(HOST_CODE, name)
    case Tcp(port) => Claim(TCP_CODE, PortText(port))
    case Udp(port) => Claim(UDP_CODE, PortText(port))
    case Outbound(port) => Claim(OUTBOUND_CODE, PortText(port))
  }

  function ClaimsOf(rs: seq<S.Rejected>): (cs: seq<Claim>)
    ensures |cs| == |rs| && forall i :: 0 <= i < |rs| ==> cs[i] == ClaimOf(rs[i])
  {
    seq(|rs|, i requires 0 <= i < |rs| => ClaimOf(rs[i]))
  }

  lemma CodesAreGood(rs: seq<S.Rejected>)
    ensures GoodCodes(ClaimsOf(rs))
  {
    HostCodeIsGood();
    TcpCodeIsGood();
    UdpCodeIsGood();
    OutboundCodeIsGood();
  }

  /** A rejected port is shown as it is, so its number can be read back ... */
  lemma PortIsShown(p: nat)
    ensures Sanitise(PortText(p)) == PortText(p) && Value(PortText(p)) == p
  {
    ItoaReads(p);
    assert forall i :: 0 <= i < |Itoa(p)| ==> IsDigit(Itoa(p)[i]) && PlainChar(Itoa(p)[i]);
  }

  /** ... while a reserved name never is: its colon would break the format. */
  lemma ReservedIsElided(n: string)
    requires Reserved(n)
    ensures Sanitise(n) == ELIDED
  {
    assert n[3] == ':' && !PlainChar(n[3]);
  }

  /** What the client reads is a prefix of what was rejected, marked truncated exactly if
      something is missing, and it ends only where the frame is full. */
  ghost predicate Reported(rejected: seq<S.Rejected>, p: Parsed) {
    var claims, kept := ClaimsOf(rejected), |p.rejected|;
    && kept <= |claims| && p == Parsed(ShownAll(claims[..kept]), kept < |claims|, "")
    && (kept < |claims| ==> !Fits(claims, kept))
  }

  /** The close frame of a session ended for `kind`, and what the client makes of it. An end
      for its policy reports the rejections; any other carries the error text. */
  method CloseAndRead(kind: S.Kind, rejected: seq<S.Rejected>, error: string) returns (p: Parsed)
    ensures kind == S.PolicyShaped && rejected != [] ==> Reported(rejected, p)
    ensures kind != S.PolicyShaped || rejected == [] ==> p == Reading(TruncateBytes(error, BYTE_BUDGET))
  {
    CodesAreGood(rejected);
    if kind == S.PolicyShaped && rejected != [] {
      p := SendAndRead(ClaimsOf(rejected), error);
      return;
    }
    var text := TruncateBytes(error, BYTE_BUDGET);
    if kind != S.Other {
      ghost var kept;
      text, kept := Encode(if kind == S.PolicyShaped then PolicyShaped else InputMalformed, ClaimsOf(rejected), error);
    }
    p := Parse(text);
  }

  /** End to end: a token that is well formed but leaves nothing to serve is refused, and
      its sender reads back a prefix of the relay's rejections of it. */
  method RefuseAndRead(cfg: Config, text: Text, c: S.Claims, now: int, error: string) returns (p: Option<Parsed>)
    ensures p.None? <==> S.WellFormed(cfg, text, c) && S.Serves(cfg, text, c) && S.Recent(c, now)
    ensures !S.InboundMalformed(cfg, text, c) && !S.Serves(cfg, text, c) && S.InboundRejections(cfg, text, c) != [] ==>
              p.Some? && Reported(S.InboundRejections(cfg, text, c), p.value)
  {
    var r := S.ValidateStage0Claims(cfg, text, c, now);
    if r.Info? { return None; }
    var read := CloseAndRead(r.kind, r.rejected, error);
    p := Some(read);
  }

  /** The same for a re-authentication: a well-formed token that no longer filters to the
      grant, or asks for another weight, ends the session with a report of its rejections. */
  method ReauthAndRead(b: S.Backend, c: S.Claims, uriOk: bool, error: string) returns (p: Option<Parsed>)
    requires S.Canonical(b.granted)
    modifies b`reauthInterval, b`reauthGrace, b`maintenanceCap, b`maintenanceUsed, b`statusURI, b`policyVersion
    ensures p.None? <==> b.Stable(c, uriOk)
    ensures S.WellFormed(b.cfg, b.text, c) && !b.Keeps(c) ==>
              var rejected := S.RecheckRejections(b.cfg, b.text, c, b.granted);
              && p.Some?
              && (rejected != [] ==> Reported(rejected, p.value))
              && (rejected == [] ==> p.value == Reading(TruncateBytes(error, BYTE_BUDGET)))
  {
    var r := b.ApplyClaims(c, uriOk);
    if r.Applied? { return None; }
    var read := CloseAndRead(r.kind, r.rejected, error);
    p := Some(read);
  }
}
