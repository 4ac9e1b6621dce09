/** The reason text of a policy close frame: the hub's encoder, the client's parser, and
    their round trip.

    A Go string is a byte string, so here a string holds one char per byte. A control
    frame carries at most 125 bytes (section 5.5 of RFC 6455), two of them the close
    code, which leaves 123 for the reason. */
module CloseReasons {

  const PREFIX: string := "policy:"
  const TRUNC_TAIL: string := ",..."
  const ELIDED: string := "<elided>"
  const BYTE_BUDGET: nat := 123

  datatype Claim = Claim(code: string, value: string)

  datatype TerminalKind = PolicyShaped | InputMalformed

  predicate PlainChar(c: char) {
    'a' <= c <= 'z' || '0' <= c <= '9' || c == '.' || c == '_' || c == '-'
  }

  /** The charset a value must keep to be shown. */
  predicate Plain(v: string) {
    v != [] && forall i :: 0 <= i < |v| ==> PlainChar(v[i])
  }

  function Sanitise(v: string): (r: string)
    ensures r != [] && ',' !in r && ':' !in r
  {
    if Plain(v) then v else ELIDED
  }

  function Shown(r: Claim): Claim {
    Claim(r.code, Sanitise(r.value))
  }

  function Entry(r: Claim): string {
    r.code + [':'] + Sanitise(r.value)
  }

  function Entries(rs: seq<Claim>): (es: seq<string>)
    ensures |es| == |rs| && forall i :: 0 <= i < |rs| ==> es[i] == Entry(rs[i])
  {
    seq(|rs|, i requires 0 <= i < |rs| => Entry(rs[i]))
  }

  function ShownAll(rs: seq<Claim>): (cs: seq<Claim>)
    ensures |cs| == |rs| && forall i :: 0 <= i < |rs| ==> cs[i] == Shown(rs[i])
  {
    seq(|rs|, i requires 0 <= i < |rs| => Shown(rs[i]))
  }

  function Joined(es: seq<string>): string {
    if es == [] then "" else if |es| == 1 then es[0] else es[0] + [','] + Joined(es[1..])
  }

  lemma {:induction false} JoinedSnoc(es: seq<string>, e: string)
    ensures Joined(es + [e]) == Joined(es) + (if es == [] then "" else [',']) + e
  {
    if |es| == 1 {
      assert (es + [e])[1..] == [e];
      assert Joined([e]) == e;
    } else if |es| > 1 {
      assert (es + [e])[1..] == es[1..] + [e];
      JoinedSnoc(es[1..], e);
    }
  }

  function TruncateBytes(s: string, n: nat): string {
    if |s| <= n then s else s[..n]
  }

  // ----- The encoder ------------------------------------------------------------------

  /** Whether entry number `k` still fits after the ones before it, leaving room for the
      truncation tail unless it is the last. */
  predicate Fits(rs: seq<Claim>, k: nat)
    requires k < |rs|
  {
    FitsIn(rs, k, |PREFIX|, |TRUNC_TAIL|)
  }

  predicate FitsIn(rs: seq<Claim>, k: nat, used: nat, tail: nat)
    requires k < |rs|
  {
    used + |Joined(Entries(rs[..k + 1]))| + (if k + 1 < |rs| then tail else 0) <= BYTE_BUDGET
  }

  /** The text with the first `kept` entries. */
  function Rendered(rs: seq<Claim>, kept: nat): string
    requires kept <= |rs|
  {
    PREFIX + Joined(Entries(rs[..kept])) + if kept < |rs| then TRUNC_TAIL else ""
  }

  /** The encoder keeps entries from the front for as long as they fit, marks any that it
      drops, and never exceeds the frame. */
  method Encode(kind: TerminalKind, rejected: seq<Claim>, fallback: string) returns (text: string, ghost kept: nat)
    ensures |text| <= BYTE_BUDGET
    ensures kind == InputMalformed || rejected == [] ==> text == TruncateBytes(fallback, BYTE_BUDGET)
    ensures kind == PolicyShaped && rejected != [] ==>
              && kept <= |rejected| && text == Rendered(rejected, kept)
              && (forall j :: 0 <= j < kept ==> Fits(rejected, j))
              && (kept < |rejected| ==> !Fits(rejected, kept))
  {
    kept := 0;
    if kind == InputMalformed || |rejected| == 0 {
      return TruncateBytes(fallback, BYTE_BUDGET), 0;
    }
    var list, n := FillEntries(rejected, |PREFIX|, |TRUNC_TAIL|);
    kept := n;
    text := PREFIX + list;
    if n < |rejected| {
      text := text + TRUNC_TAIL;
    }
  }

  /** The encoder's loop, after a prefix of `used` bytes and before a tail of `tail`. */
  method FillEntries(rejected: seq<Claim>, used: nat, tail: nat) returns (buf: string, kept: nat)
    requires used + tail <= BYTE_BUDGET
    ensures kept <= |rejected| && buf == Joined(Entries(rejected[..kept]))
    ensures used + |buf| + (if kept < |rejected| then tail else 0) <= BYTE_BUDGET
    ensures forall j :: 0 <= j < kept ==> FitsIn(rejected, j, used, tail)
    ensures kept < |rejected| ==> !FitsIn(rejected, kept, used, tail)
  {
    buf, kept := "", 0;
    assert Entries(rejected[..0]) == [];
    while kept < |rejected|
      invariant 0 <= kept <= |rejected|
      invariant buf == Joined(Entries(rejected[..kept]))
      invariant used + |buf| + (if kept < |rejected| then tail else 0) <= BYTE_BUDGET
      invariant forall j :: 0 <= j < kept ==> FitsIn(rejected, j, used, tail)
    {
      var entry := rejected[kept].code + [':'] + Sanitise(rejected[kept].value);
      var sep := if kept > 0 then [','] else "";
      var reserve := if kept + 1 < |rejected| then tail else 0;
      FitsMeans(rejected, kept, used, tail, buf, sep, entry);
      if used + |buf| + |sep| + |entry| + reserve > BYTE_BUDGET {
        return;
      }
      buf := buf + sep + entry;
      kept := kept + 1;
    }
  }

  lemma FitsMeans(rs: seq<Claim>, k: nat, used: nat, tail: nat, buf: string, sep: string, entry: string)
    requires k < |rs| && buf == Joined(Entries(rs[..k]))
    requires sep == (if k > 0 then [','] else "") && entry == Entry(rs[k])
    ensures Joined(Entries(rs[..k + 1])) == buf + sep + entry
    ensures FitsIn(rs, k, used, tail) <==>
            used + |buf| + |sep| + |entry| + (if k + 1 < |rs| then tail else 0) <= BYTE_BUDGET
  {
    EntriesSnoc(rs, k);
  }

  lemma EntriesSnoc(rs: seq<Claim>, i: nat)
    requires i < |rs|
    ensures Joined(Entries(rs[..i + 1])) == Joined(Entries(rs[..i])) + (if i == 0 then "" else [',']) + Entry(rs[i])
  {
    assert Entries(rs[..i + 1]) == Entries(rs[..i]) + [Entry(rs[i])];
    JoinedSnoc(Entries(rs[..i]), Entry(rs[i]));
  }

  // ----- The parser --------------------------------------------------------------------

  /** strings.Index for one character; the length stands for "absent". */
  function IndexOf(s: string, c: char): (i: nat)
    ensures i <= |s| && (i < |s| ==> s[i] == c) && forall j :: 0 <= j < i ==> s[j] != c
  {
    if s == [] then 0 else if s[0] == c then 0 else 1 + IndexOf(s[1..], c)
  }

  /** strings.Split on a comma. */
  function Split(s: string): seq<string>
    decreases |s|
  {
    var i := IndexOf(s, ',');
    if i == |s| then [s] else [s[..i]] + Split(s[i + 1..])
  }

  predicate HasSuffix(s: string, t: string) {
    |t| <= |s| && s[|s| - |t|..] == t
  }

  predicate WellFormed(entry: string) {
    0 < IndexOf(entry, ':') < |entry| - 1
  }

  function Field(entry: string): Claim
    requires WellFormed(entry)
  {
    var i := IndexOf(entry, ':');
    Claim(entry[..i], entry[i + 1..])
  }

  datatype Parsed = Parsed(rejected: seq<Claim>, truncated: bool, raw: string)

  function Fields(es: seq<string>): seq<Claim>
    requires forall i :: 0 <= i < |es| ==> WellFormed(es[i])
  {
    seq(|es|, i requires 0 <= i < |es| => Field(es[i]))
  }

  /** What the client reads out of the comma-separated entries of `text`. */
  function ReadBody(body: string, truncated: bool, text: string): Parsed {
    if body == "" then Parsed([], truncated, "")
    else if forall i :: 0 <= i < |Split(body)| ==> WellFormed(Split(body)[i])
      then Parsed(Fields(Split(body)), truncated, "")
    else Parsed([], false, text)
  }

  /** What the client reads out of a reason text. */
  function Reading(text: string): Parsed {
    if !(PREFIX <= text) then Parsed([], false, text)
    else ReadRest(text[|PREFIX|..], text)
  }

  function ReadRest(rest: string, text: string): Parsed {
    if HasSuffix(rest, TRUNC_TAIL) then ReadBody(rest[..|rest| - |TRUNC_TAIL|], true, text)
    else ReadBody(rest, false, text)
  }

  method Parse(text: string) returns (p: Parsed)
    ensures p == Reading(text)
  {
    if !(PREFIX <= text) {
      return Parsed([], false, text);
    }
    var body := text[|PREFIX|..];
    var truncated := false;
    if HasSuffix(body, TRUNC_TAIL) {
      truncated := true;
      body := body[..|body| - |TRUNC_TAIL|];
    }
    if body == "" {
      return Parsed([], truncated, "");
    }
    var ok, rejected := ReadEntries(Split(body));
    if !ok {
      return Parsed([], false, text);
    }
    return Parsed(rejected, truncated, "");
  }

  /** All of the entries, or nothing if one is not well formed. */
  method ReadEntries(es: seq<string>) returns (ok: bool, rejected: seq<Claim>)
    ensures ok <==> forall i :: 0 <= i < |es| ==> WellFormed(es[i])
    ensures ok ==> rejected == Fields(es)
  {
    rejected := [];
    for i := 0 to |es|
      invariant forall j :: 0 <= j < i ==> WellFormed(es[j])
      invariant |rejected| == i && forall j :: 0 <= j < i ==> rejected[j] == Field(es[j])
    {
      var idx := IndexOf(es[i], ':');
      if idx == 0 || idx >= |es[i]| - 1 {
        return false, [];
      }
      rejected := rejected + [Claim(es[i][..idx], es[i][idx + 1..])];
    }
    ok := true;
  }

  // ----- The round trip -------------------------------------------------------------------

  /** What the closed set of rejection codes satisfies. */
  predicate GoodCode(code: string) {
    code != "" && ',' !in code && ':' !in code
  }

  predicate GoodCodes(rs: seq<Claim>) {
    forall i :: 0 <= i < |rs| ==> GoodCode(rs[i].code)
  }

  lemma IndexOfIs(s: string, c: char, i: nat)
    requires i <= |s| && (i < |s| ==> s[i] == c) && forall j :: 0 <= j < i ==> s[j] != c
    ensures IndexOf(s, c) == i
  {}

  /** Reading one entry back gives its code and its sanitised value. */
  lemma EntryReads(r: Claim)
    requires GoodCode(r.code)
    ensures ',' !in Entry(r) && |Entry(r)| >= 3 && Entry(r)[|r.code|] == ':'
    ensures WellFormed(Entry(r)) && Field(Entry(r)) == Shown(r)
  {
    IndexOfIs(Entry(r), ':', |r.code|);
  }

  lemma {:induction false} SplitJoined(es: seq<string>)
    requires es != [] && forall i :: 0 <= i < |es| ==> ',' !in es[i]
    ensures Split(Joined(es)) == es
  {
    if |es| == 1 {
      IndexOfIs(es[0], ',', |es[0]|);
    } else {
      var s := Joined(es);
      IndexOfIs(s, ',', |es[0]|);
      assert s[..|es[0]|] == es[0] && s[|es[0]| + 1..] == Joined(es[1..]);
      SplitJoined(es[1..]);
    }
  }

  /** A list of entries never looks truncated, whatever its values, "..." included. */
  lemma JoinedHasNoTail(rs: seq<Claim>)
    requires rs != [] && GoodCodes(rs)
    ensures Joined(Entries(rs)) != "" && !HasSuffix(Joined(Entries(rs)), TRUNC_TAIL)
  {
    var r := rs[|rs| - 1];
    EntryReads(r);
    JoinedEnds(rs);
    EndsOtherwise(Joined(Entries(rs)), Entry(r), |r.code|);
  }

  lemma JoinedEnds(rs: seq<Claim>)
    requires rs != []
    ensures HasSuffix(Joined(Entries(rs)), Entry(rs[|rs| - 1]))
  {
    var n := |rs| - 1;
    EntriesSnoc(rs, n);
    assert rs[..n + 1] == rs;
    var front := Joined(Entries(rs[..n])) + if n == 0 then "" else [','];
    assert Joined(Entries(rs)) == front + Entry(rs[n]);
  }

  /** A text that ends in an entry, with its colon and without a comma, does not end in the
      truncation tail. */
  lemma EndsOtherwise(s: string, last: string, colon: nat)
    requires HasSuffix(s, last) && |last| >= 3 && ',' !in last && colon < |last| && last[colon] == ':'
    ensures !HasSuffix(s, TRUNC_TAIL)
  {
    if |last| >= 4 {
      SuffixAt(s, last, |last| - 4);
      SuffixAt(s, TRUNC_TAIL, 0);
      assert last[|last| - 4] in last;
    } else {
      SuffixAt(s, last, colon);
      SuffixAt(s, TRUNC_TAIL, colon + 1);
    }
  }

  lemma SuffixAt(s: string, t: string, j: nat)
    requires j < |t|
    ensures HasSuffix(s, t) ==> |s| - |t| + j >= 0 && s[|s| - |t| + j] == t[j]
  {
    if HasSuffix(s, t) {
      assert s[|s| - |t|..][j] == t[j];
    }
  }

  lemma {:induction false} SplitHasNoComma(s: string)
    ensures forall i :: 0 <= i < |Split(s)| ==> ',' !in Split(s)[i]
    decreases |s|
  {
    var k := IndexOf(s, ',');
    if k < |s| {
      SplitHasNoComma(s[k + 1..]);
    }
  }

  /** Whatever the client reads, the codes it reports are good. */
  lemma ReadCodesAreGood(text: string)
    ensures GoodCodes(Reading(text).rejected)
  {
    if PREFIX <= text {
      var rest := text[|PREFIX|..];
      BodyCodesAreGood(rest, false, text);
      if HasSuffix(rest, TRUNC_TAIL) {
        BodyCodesAreGood(rest[..|rest| - |TRUNC_TAIL|], true, text);
      }
    }
  }

  lemma BodyCodesAreGood(body: string, truncated: bool, text: string)
    ensures GoodCodes(ReadBody(body, truncated, text).rejected)
  {
    SplitHasNoComma(body);
    var es := Split(body);
    if body != "" && forall i :: 0 <= i < |es| ==> WellFormed(es[i]) {
      forall i | 0 <= i < |es| ensures GoodCode(Field(es[i]).code) {
        FieldIsGood(es[i]);
      }
    }
  }

  lemma FieldIsGood(e: string)
    requires WellFormed(e) && ',' !in e
    ensures GoodCode(Field(e).code)
  {
    var i := IndexOf(e, ':');
    assert forall c :: c in e[..i] ==> c in e;
  }

  /** Reading what the encoder wrote gives exactly the entries it kept, in order and with
      sanitised values, and says that entries were dropped exactly when some were. This
      holds if and only if the codes that were kept are good, as the hub's own are. */
  lemma RoundTrip(rs: seq<Claim>, kept: nat)
    requires kept <= |rs| && rs != []
    ensures Reading(Rendered(rs, kept)) == Parsed(ShownAll(rs[..kept]), kept < |rs|, "")
            <==> GoodCodes(rs[..kept])
  {
    if GoodCodes(rs[..kept]) {
      GoodRoundTrip(rs, kept);
    } else {
      ReadCodesAreGood(Rendered(rs, kept));
      var i :| 0 <= i < kept && !GoodCode(rs[..kept][i].code);
      assert ShownAll(rs[..kept])[i].code == rs[i].code;
    }
  }

  lemma GoodRoundTrip(rs: seq<Claim>, kept: nat)
    requires kept <= |rs| && rs != [] && GoodCodes(rs[..kept])
    ensures Reading(Rendered(rs, kept)) == Parsed(ShownAll(rs[..kept]), kept < |rs|, "")
  {
    var body := Joined(Entries(rs[..kept]));
    var text := Rendered(rs, kept);
    if kept == 0 {
      assert Entries(rs[..0]) == [];
    } else {
      JoinedHasNoTail(rs[..kept]);
      BodyReads(rs[..kept]);
    }
    if kept < |rs| {
      assert text == PREFIX + (body + TRUNC_TAIL);
      PrefixStrips(body + TRUNC_TAIL);
      TailStrips(body, text);
    } else {
      assert text == PREFIX + body;
      PrefixStrips(body);
    }
  }

  lemma PrefixStrips(rest: string)
    ensures Reading(PREFIX + rest) == ReadRest(rest, PREFIX + rest)
  {
    assert (PREFIX + rest)[|PREFIX|..] == rest;
  }

  lemma TailStrips(body: string, text: string)
    ensures ReadRest(body + TRUNC_TAIL, text) == ReadBody(body, true, text)
  {
    assert (body + TRUNC_TAIL)[..|body|] == body && (body + TRUNC_TAIL)[|body|..] == TRUNC_TAIL;
  }

  lemma BodyReads(rs: seq<Claim>)
    requires rs != [] && GoodCodes(rs)
    ensures var es := Split(Joined(Entries(rs)));
            && (forall i :: 0 <= i < |es| ==> WellFormed(es[i]))
            && Fields(es) == ShownAll(rs)
  {
    forall i | 0 <= i < |rs|
      ensures ',' !in Entries(rs)[i] && WellFormed(Entries(rs)[i]) && Field(Entries(rs)[i]) == Shown(rs[i])
    {
      EntryReads(rs[i]);
    }
    SplitJoined(Entries(rs));
  }

  /** The two methods end to end. */
  method SendAndRead(rejected: seq<Claim>, fallback: string) returns (p: Parsed)
    requires rejected != [] && GoodCodes(rejected)
    ensures var kept := |p.rejected|;
            && kept <= |rejected| && p == Parsed(ShownAll(rejected[..kept]), kept < |rejected|, "")
            && (kept < |rejected| ==> !Fits(rejected, kept))
  {
    var text;
    ghost var kept;
    text, kept := Encode(PolicyShaped, rejected, fallback);
    p := Parse(text);
    GoodRoundTrip(rejected, kept);
  }

  const HOST_CODE := "hostname_reserved_route_key"
  const TCP_CODE := "tcp_port_not_allowed"
  const UDP_CODE := "udp_route_not_allowed"
  const OUTBOUND_CODE := "outbound_port_not_allowed"

  lemma HostCodeIsGood()
    ensures GoodCode(HOST_CODE)
  {
  }

  lemma TcpCodeIsGood()
    ensures GoodCode(TCP_CODE)
  {
  }

  lemma UdpCodeIsGood()
    ensures GoodCode(UDP_CODE)
  {
  }

  lemma OutboundCodeIsGood()
    ensures GoodCode(OUTBOUND_CODE)
  {
  }
}
