/** A client port mapping: targets by hostname or wildcard, with a default. The
    configuration is a map, so its entries are visited in any order. */
module PortMappings {
  import opened Hostnames
  import opened Sorting

  datatype WildcardRoute = WildcardRoute(pattern: string, suffix: string, target: string)

  /** The targets configured for a canonical name that is not a wildcard. */
  ghost function ExactTargets(text: Text, hosts: map<string, string>, name: string): set<string> {
    set raw | raw in hosts && NormalizeOrWildcard(text, raw) == name && !IsWildcard(name) :: text.trim(hosts[raw])
  }

  /** The targets configured for the wildcard of a suffix. */
  ghost function WildTargets(text: Text, hosts: map<string, string>, suffix: string): set<string> {
    set raw | raw in hosts && NormalizeOrWildcard(text, raw) == "*" + suffix && IsWildcard("*" + suffix) ::
      text.trim(hosts[raw])
  }

  predicate WellFormed(text: Text, raw: string, target: string) {
    text.trim(target) != "" && NormalizeOrWildcard(text, raw) != ""
  }

  /** What a lookup may answer: a target of the name itself if it has one, else one of the
      wildcard at its first dot, else the default. */
  ghost predicate Answer(text: Text, hosts: map<string, string>, default: string, hostname: string, r: Option<string>) {
    var host := text.norm(hostname);
    var suffix := SuffixFrom(host, 0);
    if hostname != "" && host != "" && ExactTargets(text, hosts, host) != {} then
      r.Some? && r.value in ExactTargets(text, hosts, host)
    else if hostname != "" && host != "" && suffix.Some? && WildTargets(text, hosts, suffix.value) != {} then
      r.Some? && r.value in WildTargets(text, hosts, suffix.value)
    else
      r == if default != "" then Some(default) else None
  }

  /** Patterns that normalise alike have the same target. */
  ghost predicate Consistent(text: Text, hosts: map<string, string>) {
    forall a, b :: a in hosts && b in hosts && NormalizeOrWildcard(text, a) == NormalizeOrWildcard(text, b) ==>
      text.trim(hosts[a]) == text.trim(hosts[b])
  }

  /** Then a lookup has one answer, whatever order the entries were visited in. */
  lemma AnswerUnique(text: Text, hosts: map<string, string>, default: string, hostname: string,
                     r: Option<string>, s: Option<string>)
    requires Consistent(text, hosts)
    requires Answer(text, hosts, default, hostname, r) && Answer(text, hosts, default, hostname, s)
    ensures r == s
  {
  }

  // ----- The order of the visit ------------------------------------------------------------

  /** An order in which the entries may be visited. */
  ghost predicate IsOrder(order: seq<string>, entries: map<string, string>) {
    Distinct(order) && forall raw :: raw in order <==> raw in entries
  }

  predicate Known(order: seq<string>, entries: map<string, string>) {
    forall i :: 0 <= i < |order| ==> order[i] in entries
  }

  /** Exact entries overwrite each other ... */
  function FiledExacts(text: Text, entries: map<string, string>, order: seq<string>): map<string, string>
    requires Known(order, entries)
  {
    if order == [] then map[]
    else
      var n := |order| - 1;
      var m, p := FiledExacts(text, entries, order[..n]), NormalizeOrWildcard(text, order[n]);
      if IsWildcard(p) then m else m[p := text.trim(entries[order[n]])]
  }

  /** ... and wildcards line up. */
  function FiledWilds(text: Text, entries: map<string, string>, order: seq<string>): seq<WildcardRoute>
    requires Known(order, entries)
  {
    if order == [] then []
    else
      var n := |order| - 1;
      var ws, p := FiledWilds(text, entries, order[..n]), NormalizeOrWildcard(text, order[n]);
      if IsWildcard(p) then ws + [WildcardRoute(p, p[1..], text.trim(entries[order[n]]))] else ws
  }

  /** The last entry visited whose pattern normalises to `p`. */
  function LastOf(text: Text, order: seq<string>, p: string): Option<string> {
    if order == [] then None
    else if NormalizeOrWildcard(text, order[|order| - 1]) == p then Some(order[|order| - 1])
    else LastOf(text, order[..|order| - 1], p)
  }

  /** The first one. */
  function FirstOf(text: Text, order: seq<string>, p: string): Option<string> {
    if order == [] then None
    else
      var before := FirstOf(text, order[..|order| - 1], p);
      if before.Some? then before
      else if NormalizeOrWildcard(text, order[|order| - 1]) == p then Some(order[|order| - 1])
      else None
  }

  lemma {:induction false} LastMeans(text: Text, order: seq<string>, p: string)
    ensures LastOf(text, order, p).Some? ==>
              LastOf(text, order, p).value in order && NormalizeOrWildcard(text, LastOf(text, order, p).value) == p
    ensures LastOf(text, order, p).None? ==> forall raw :: raw in order ==> NormalizeOrWildcard(text, raw) != p
  {
    if order != [] {
      var n := |order| - 1;
      LastMeans(text, order[..n], p);
      assert order == order[..n] + [order[n]];
    }
  }

  lemma {:induction false} FirstMeans(text: Text, order: seq<string>, p: string)
    ensures FirstOf(text, order, p).Some? ==>
              FirstOf(text, order, p).value in order && NormalizeOrWildcard(text, FirstOf(text, order, p).value) == p
    ensures FirstOf(text, order, p).None? ==> forall raw :: raw in order ==> NormalizeOrWildcard(text, raw) != p
  {
    if order != [] {
      var n := |order| - 1;
      FirstMeans(text, order[..n], p);
      assert order == order[..n] + [order[n]];
    }
  }

  /** The first of the entries for the wildcard at a name's first dot. */
  function WildChoice(text: Text, entries: map<string, string>, order: seq<string>, host: string): Option<string> {
    var suffix := SuffixFrom(host, 0);
    if suffix.None? then None
    else
      var first := FirstOf(text, order, "*" + suffix.value);
      if first.Some? && first.value in entries then Some(text.trim(entries[first.value])) else None
  }

  /** The answer after a visit in this order: the last of the entries for the name itself,
      else the first of those for the wildcard at its first dot, else the default. */
  function Chosen(text: Text, entries: map<string, string>, order: seq<string>, default: string, hostname: string)
    : Option<string>
  {
    var host := text.norm(hostname);
    var exact := if IsWildcard(host) then None else LastOf(text, order, host);
    var wild := WildChoice(text, entries, order, host);
    if hostname != "" && host != "" && exact.Some? && exact.value in entries then Some(text.trim(entries[exact.value]))
    else if hostname != "" && host != "" && wild.Some? then wild
    else if default != "" then Some(default) else None
  }

  /** Whatever the order, the choice is one the configuration allows. */
  lemma ChosenAnswers(text: Text, entries: map<string, string>, order: seq<string>, default: string, hostname: string)
    requires IsOrder(order, entries)
    ensures Answer(text, entries, default, hostname, Chosen(text, entries, order, default, hostname))
  {
    var host := text.norm(hostname);
    ExactAnswers(text, entries, order, host);
    SuffixDotted(host, 0);
    if SuffixFrom(host, 0).Some? {
      WildAnswers(text, entries, order, SuffixFrom(host, 0).value);
    }
  }

  lemma ExactAnswers(text: Text, entries: map<string, string>, order: seq<string>, name: string)
    requires IsOrder(order, entries)
    ensures var exact := LastOf(text, order, name);
            && (exact.Some? && !IsWildcard(name) ==>
                  exact.value in entries && text.trim(entries[exact.value]) in ExactTargets(text, entries, name))
            && (exact.None? || IsWildcard(name) ==> ExactTargets(text, entries, name) == {})
  {
    LastMeans(text, order, name);
  }

  lemma WildAnswers(text: Text, entries: map<string, string>, order: seq<string>, suffix: string)
    requires IsOrder(order, entries)
    ensures var wild := FirstOf(text, order, "*" + suffix);
            && (wild.Some? && IsWildcard("*" + suffix) ==>
                  wild.value in entries && text.trim(entries[wild.value]) in WildTargets(text, entries, suffix))
            && (wild.None? ==> WildTargets(text, entries, suffix) == {})
  {
    FirstMeans(text, order, "*" + suffix);
  }

  // ----- Two spellings ----------------------------------------------------------------------

  /** An entry that may answer for `hostname`: one for the name itself if there is any, else
      one for the wildcard at its first dot. */
  ghost predicate Consulted(text: Text, entries: map<string, string>, hostname: string, raw: string) {
    var host := text.norm(hostname);
    && raw in entries && hostname != "" && host != ""
    && if ExactTargets(text, entries, host) != {} then NormalizeOrWildcard(text, raw) == host
       else SuffixFrom(host, 0).Some? && NormalizeOrWildcard(text, raw) == "*" + SuffixFrom(host, 0).value
  }

  /** The entries that may answer for `hostname` have one target. */
  ghost predicate Agreed(text: Text, entries: map<string, string>, hostname: string) {
    forall a, b :: Consulted(text, entries, hostname, a) && Consulted(text, entries, hostname, b) ==>
      text.trim(entries[a]) == text.trim(entries[b])
  }

  ghost predicate OrderFree(text: Text, entries: map<string, string>, default: string, hostname: string) {
    forall o, p :: IsOrder(o, entries) && IsOrder(p, entries) ==>
      Chosen(text, entries, o, default, hostname) == Chosen(text, entries, p, default, hostname)
  }

  /** A lookup does not depend on the order of the visit if and only if the entries that may
      answer it agree. */
  lemma OrderFreeExactly(text: Text, entries: map<string, string>, default: string, hostname: string)
    ensures OrderFree(text, entries, default, hostname) <==> Agreed(text, entries, hostname)
  {
    if Agreed(text, entries, hostname) {
      forall o, p | IsOrder(o, entries) && IsOrder(p, entries)
        ensures Chosen(text, entries, o, default, hostname) == Chosen(text, entries, p, default, hostname)
      {
        ChosenConsulted(text, entries, o, default, hostname);
        ChosenConsulted(text, entries, p, default, hostname);
      }
    } else {
      var a, b :| && Consulted(text, entries, hostname, a) && Consulted(text, entries, hostname, b)
                  && text.trim(entries[a]) != text.trim(entries[b]);
      OrdersDiffer(text, entries, default, hostname, a, b);
    }
  }

  /** Some lookup turns to the entry. */
  ghost predicate Reached(text: Text, entries: map<string, string>, raw: string) {
    exists hostname :: Consulted(text, entries, hostname, raw)
  }

  /** `Consistent`, as far as a lookup can tell. */
  ghost predicate ConsistentWhereReached(text: Text, entries: map<string, string>) {
    forall a, b :: a in entries && b in entries && Reached(text, entries, a)
                   && NormalizeOrWildcard(text, a) == NormalizeOrWildcard(text, b) ==>
      text.trim(entries[a]) == text.trim(entries[b])
  }

  /** No lookup depends on the order if and only if the patterns that a lookup can turn to and
      that normalise alike have the same target. */
  lemma AlwaysOrderFree(text: Text, entries: map<string, string>, default: string)
    ensures (forall hostname :: OrderFree(text, entries, default, hostname)) <==> ConsistentWhereReached(text, entries)
  {
    if forall hostname :: OrderFree(text, entries, default, hostname) {
      forall a, b | a in entries && b in entries && Reached(text, entries, a)
                    && NormalizeOrWildcard(text, a) == NormalizeOrWildcard(text, b)
        ensures text.trim(entries[a]) == text.trim(entries[b])
      {
        var hostname :| Consulted(text, entries, hostname, a);
        OrderFreeExactly(text, entries, default, hostname);
        assert Consulted(text, entries, hostname, b);
      }
    }
    if ConsistentWhereReached(text, entries) {
      forall hostname ensures OrderFree(text, entries, default, hostname) {
        assert forall a :: Consulted(text, entries, hostname, a) ==> Reached(text, entries, a);
        OrderFreeExactly(text, entries, default, hostname);
      }
    }
  }

  /** The answer is the target of an entry that may give it, and the default only if none may. */
  lemma ChosenConsulted(text: Text, entries: map<string, string>, order: seq<string>, default: string,
                        hostname: string)
    requires IsOrder(order, entries)
    ensures var r := Chosen(text, entries, order, default, hostname);
            || (exists a :: Consulted(text, entries, hostname, a) && r == Some(text.trim(entries[a])))
            || ((forall a :: !Consulted(text, entries, hostname, a))
                && r == if default != "" then Some(default) else None)
  {
    var host := text.norm(hostname);
    ExactAnswers(text, entries, order, host);
    LastMeans(text, order, host);
    var exact := if IsWildcard(host) then None else LastOf(text, order, host);
    if hostname != "" && host != "" {
      if exact.Some? {
        assert Consulted(text, entries, hostname, exact.value);
      } else {
        WildConsulted(text, entries, order, hostname);
      }
    }
  }

  lemma WildConsulted(text: Text, entries: map<string, string>, order: seq<string>, hostname: string)
    requires IsOrder(order, entries) && hostname != "" && text.norm(hostname) != ""
    requires ExactTargets(text, entries, text.norm(hostname)) == {}
    ensures var r := WildChoice(text, entries, order, text.norm(hostname));
            && (r.Some? ==> exists a :: Consulted(text, entries, hostname, a) && r.value == text.trim(entries[a]))
            && (r.None? ==> forall a :: !Consulted(text, entries, hostname, a))
  {
    var suffix := SuffixFrom(text.norm(hostname), 0);
    if suffix.Some? {
      var first := FirstOf(text, order, "*" + suffix.value);
      FirstMeans(text, order, "*" + suffix.value);
      if first.Some? {
        assert Consulted(text, entries, hostname, first.value);
      }
    }
  }

  lemma OrdersDiffer(text: Text, entries: map<string, string>, default: string, hostname: string, a: string, b: string)
    requires Consulted(text, entries, hostname, a) && Consulted(text, entries, hostname, b)
    requires text.trim(entries[a]) != text.trim(entries[b])
    ensures !OrderFree(text, entries, default, hostname)
  {
    var rest := Listed(entries.Keys - {a, b});
    if ExactTargets(text, entries, text.norm(hostname)) != {} {
      OrderEnding(entries, rest, a, b);
      OrderEnding(entries, rest, b, a);
      LastAnswers(text, entries, rest + [a, b], default, hostname);
      LastAnswers(text, entries, rest + [b, a], default, hostname);
    } else {
      OrderStarting(entries, rest, a, b);
      OrderStarting(entries, rest, b, a);
      FirstAnswers(text, entries, [a, b] + rest, default, hostname);
      FirstAnswers(text, entries, [b, a] + rest, default, hostname);
    }
  }

  /** Every finite set can be listed. */
  lemma Listed(keys: set<string>) returns (order: seq<string>)
    ensures Distinct(order) && forall k :: k in order <==> k in keys
  {
    order := [];
    if keys != {} {
      var k :| k in keys;
      var rest := Listed(keys - {k});
      order := [k] + rest;
    }
  }

  lemma OrderEnding(entries: map<string, string>, rest: seq<string>, a: string, b: string)
    requires a in entries && b in entries && a != b
    requires Distinct(rest) && forall k :: k in rest <==> k in entries && k != a && k != b
    ensures IsOrder(rest + [a, b], entries)
  {
    var all := rest + [a, b];
    assert all[|rest|] == a && all[|rest| + 1] == b && forall i :: 0 <= i < |rest| ==> rest[i] in rest;
  }

  lemma OrderStarting(entries: map<string, string>, rest: seq<string>, a: string, b: string)
    requires a in entries && b in entries && a != b
    requires Distinct(rest) && forall k :: k in rest <==> k in entries && k != a && k != b
    ensures IsOrder([a, b] + rest, entries)
  {
    var all := [a, b] + rest;
    assert all[0] == a && all[1] == b && forall i :: 0 <= i < |rest| ==> rest[i] in rest;
  }

  /** Of the entries for one name, the one visited last answers ... */
  lemma LastAnswers(text: Text, entries: map<string, string>, order: seq<string>, default: string, hostname: string)
    requires IsOrder(order, entries) && order != [] && ExactTargets(text, entries, text.norm(hostname)) != {}
    requires Consulted(text, entries, hostname, order[|order| - 1])
    ensures Chosen(text, entries, order, default, hostname) == Some(text.trim(entries[order[|order| - 1]]))
  {
  }

  /** ... and of those for one wildcard, the one visited first, for a name that only the
      wildcard covers. */
  lemma FirstAnswers(text: Text, entries: map<string, string>, order: seq<string>, default: string, hostname: string)
    requires IsOrder(order, entries) && order != [] && ExactTargets(text, entries, text.norm(hostname)) == {}
    requires Consulted(text, entries, hostname, order[0])
    ensures Chosen(text, entries, order, default, hostname) == Some(text.trim(entries[order[0]]))
  {
    FirstIsFirst(text, order[0], order[1..], NormalizeOrWildcard(text, order[0]));
    assert order == [order[0]] + order[1..];
    ExactAnswers(text, entries, order, text.norm(hostname));
  }

  lemma {:induction false} FirstIsFirst(text: Text, a: string, rest: seq<string>, p: string)
    requires NormalizeOrWildcard(text, a) == p
    ensures FirstOf(text, [a] + rest, p) == Some(a)
  {
    var all := [a] + rest;
    if rest == [] {
      assert all == [a];
    } else {
      FirstIsFirst(text, a, rest[..|rest| - 1], p);
      assert all[..|all| - 1] == [a] + rest[..|rest| - 1];
    }
  }

  // ----- What filing and sorting keep -------------------------------------------------------

  lemma {:induction false} ExactsLast(text: Text, entries: map<string, string>, order: seq<string>, name: string)
    requires Known(order, entries)
    ensures var m, last := FiledExacts(text, entries, order), LastOf(text, order, name);
            && (name in m <==> !IsWildcard(name) && last.Some?)
            && (name in m ==> last.value in entries && m[name] == text.trim(entries[last.value]))
  {
    if order != [] {
      ExactsLast(text, entries, order[..|order| - 1], name);
    }
  }

  /** The first route for a suffix. */
  function FirstWith(ws: seq<WildcardRoute>, suffix: string): Option<string> {
    if ws == [] then None else if ws[0].suffix == suffix then Some(ws[0].target) else FirstWith(ws[1..], suffix)
  }

  lemma {:induction false} FirstWithSnoc(ws: seq<WildcardRoute>, w: WildcardRoute, suffix: string)
    ensures FirstWith(ws + [w], suffix) ==
            if FirstWith(ws, suffix).Some? then FirstWith(ws, suffix)
            else if w.suffix == suffix then Some(w.target) else None
  {
    if ws == [] {
      assert ws + [w] == [w];
    } else {
      assert (ws + [w])[1..] == ws[1..] + [w];
      FirstWithSnoc(ws[1..], w, suffix);
    }
  }

  lemma {:induction false} FirstWithAt(ws: seq<WildcardRoute>, i: nat, suffix: string)
    requires i <= |ws| && forall j :: 0 <= j < i ==> ws[j].suffix != suffix
    ensures i == |ws| ==> FirstWith(ws, suffix) == None
    ensures i < |ws| && ws[i].suffix == suffix ==> FirstWith(ws, suffix) == Some(ws[i].target)
  {
    if i > 0 {
      FirstWithAt(ws[1..], i - 1, suffix);
    }
  }

  lemma {:induction false} WildsFirst(text: Text, entries: map<string, string>, order: seq<string>, suffix: string)
    requires Known(order, entries)
    ensures var first := FirstOf(text, order, "*" + suffix);
            FirstWith(FiledWilds(text, entries, order), suffix) ==
            if IsWildcard("*" + suffix) && first.Some? && first.value in entries
            then Some(text.trim(entries[first.value])) else None
  {
    if order != [] {
      var n := |order| - 1;
      var p := NormalizeOrWildcard(text, order[n]);
      WildsFirst(text, entries, order[..n], suffix);
      FirstMeans(text, order[..n], "*" + suffix);
      if IsWildcard(p) {
        FirstWithSnoc(FiledWilds(text, entries, order[..n]),
                      WildcardRoute(p, p[1..], text.trim(entries[order[n]])), suffix);
        assert p == "*" + p[1..] && ("*" + suffix)[1..] == suffix;
      }
    }
  }

  lemma {:induction false} WildsAreWild(text: Text, entries: map<string, string>, order: seq<string>)
    requires Known(order, entries)
    ensures forall w :: w in FiledWilds(text, entries, order) ==> w.suffix != "" && w.suffix[0] == '.'
  {
    if order != [] {
      WildsAreWild(text, entries, order[..|order| - 1]);
    }
  }

  ghost predicate LongestFirst(ws: seq<WildcardRoute>) {
    forall i, j :: 0 <= i < j < |ws| ==> |ws[i].suffix| >= |ws[j].suffix|
  }

  function ByLength(): WildcardRoute -> int {
    (w: WildcardRoute) => -|w.suffix|
  }

  function SortLongest(ws: seq<WildcardRoute>): seq<WildcardRoute> {
    SortBy(ByLength(), ws)
  }

  lemma SortedLongest(ws: seq<WildcardRoute>)
    ensures LongestFirst(SortLongest(ws)) && forall w :: w in SortLongest(ws) <==> w in ws
  {
    var sorted := SortLongest(ws);
    SortSorts(ByLength(), ws);
    SameMembers(sorted, ws);
    forall i, j | 0 <= i < j < |sorted| ensures |sorted[i].suffix| >= |sorted[j].suffix| {
      assert ByLength()(sorted[i]) <= ByLength()(sorted[j]);
    }
  }

  lemma {:induction false} InsertFirst(w: WildcardRoute, ws: seq<WildcardRoute>, suffix: string)
    requires SortedBy(ByLength(), ws)
    ensures FirstWith(Insert(ByLength(), w, ws), suffix) ==
            if FirstWith(ws, suffix).Some? then FirstWith(ws, suffix)
            else if w.suffix == suffix then Some(w.target) else None
  {
    if ws == [] {
    } else if ByLength()(w) < ByLength()(ws[0]) {
      assert ([w] + ws)[1..] == ws;
      if w.suffix == suffix {
        forall j | 0 <= j < |ws| ensures ws[j].suffix != suffix {
          assert ByLength()(ws[0]) <= ByLength()(ws[j]);
        }
        FirstWithAt(ws, |ws|, suffix);
      }
    } else {
      InsertFirst(w, ws[1..], suffix);
      assert ([ws[0]] + Insert(ByLength(), w, ws[1..]))[1..] == Insert(ByLength(), w, ws[1..]);
    }
  }

  /** The sort is stable, so the first route for a suffix stays the first. */
  lemma {:induction false} SortFirst(ws: seq<WildcardRoute>, suffix: string)
    ensures FirstWith(SortLongest(ws), suffix) == FirstWith(ws, suffix)
  {
    if ws != [] {
      var n := |ws| - 1;
      SortFirst(ws[..n], suffix);
      SortSorts(ByLength(), ws[..n]);
      InsertFirst(ws[n], SortLongest(ws[..n]), suffix);
      FirstWithSnoc(ws[..n], ws[n], suffix);
      assert ws == ws[..n] + [ws[n]];
    }
  }

  /** One pass over the entries, in the order given. */
  method File(text: Text, entries: map<string, string>, order: seq<string>)
    returns (ok: bool, exacts: map<string, string>, wildcards: seq<WildcardRoute>)
    requires Known(order, entries)
    ensures ok <==> forall i :: 0 <= i < |order| ==> WellFormed(text, order[i], entries[order[i]])
    ensures ok ==> exacts == FiledExacts(text, entries, order) && wildcards == FiledWilds(text, entries, order)
  {
    exacts, wildcards := map[], [];
    for i := 0 to |order|
      invariant forall j :: 0 <= j < i ==> WellFormed(text, order[j], entries[order[j]])
      invariant exacts == FiledExacts(text, entries, order[..i]) && wildcards == FiledWilds(text, entries, order[..i])
    {
      var raw := order[i];
      assert order[..i + 1][..i] == order[..i];
      var target, pattern := text.trim(entries[raw]), NormalizeOrWildcard(text, raw);
      if target == "" || pattern == "" { return false, exacts, wildcards; }
      if IsWildcard(pattern) {
        wildcards := wildcards + [WildcardRoute(pattern, pattern[1..], target)];
      } else {
        exacts := exacts[pattern := target];
      }
    }
    assert order[..|order|] == order;
    ok := true;
  }

  class PortMapping {
    const text: Text
    var default: string
    var hosts: map<string, string>
    var wild: seq<WildcardRoute>
    /** The entries as configured, and the order in which they were visited. */
    ghost var given: map<string, string>
    ghost var visit: seq<string>

    ghost predicate Final()
      reads this
    {
      && IsOrder(visit, given) && Known(visit, given)
      && hosts == FiledExacts(text, given, visit) && wild == SortLongest(FiledWilds(text, given, visit))
    }

    constructor (text: Text, default: string, hosts: map<string, string>)
      ensures this.text == text && this.default == default && this.hosts == hosts && wild == [] && given == hosts
    {
      this.text, this.default, this.hosts, wild, given, visit := text, default, hosts, [], hosts, [];
    }

    /** Visits the entries in whatever order the map gives them. Succeeds if and only if
        every entry has a target and a pattern; then the entries are filed under their
        canonical patterns, the wildcards longest first. */
    method Finalize(order: seq<string>) returns (ok: bool)
      requires IsOrder(order, hosts)
      modifies this
      ensures ok <==> forall raw :: raw in old(hosts) ==> WellFormed(text, raw, old(hosts)[raw])
      ensures default == text.trim(old(default)) && given == old(hosts) && visit == order
      ensures ok ==> Final() && LongestFirst(wild)
      ensures !ok ==> hosts == old(hosts) && wild == old(wild)
    {
      default, given, visit := text.trim(default), hosts, order;
      assert forall i :: 0 <= i < |order| ==> order[i] in order;
      var exacts, wildcards;
      ok, exacts, wildcards := File(text, hosts, order);
      if ok {
        SortedLongest(wildcards);
        hosts, wild := exacts, SortLongest(wildcards);
      }
    }

    /** The name itself, then the wildcards, then the default. */
    method Resolve(hostname: string) returns (r: Option<string>)
      requires Final()
      ensures r == Chosen(text, given, visit, default, hostname)
      ensures Answer(text, given, default, hostname, r)
    {
      ChosenAnswers(text, given, visit, default, hostname);
      var host := text.norm(hostname);
      ExactsLast(text, given, visit, host);
      if hostname != "" && host != "" {
        if host in hosts {
          return Some(hosts[host]);
        }
        r := Scan(host);
        if r.Some? { return; }
      }
      r := if default != "" then Some(default) else None;
    }

    /** The wildcards are scanned in list order; the first match answers. */
    method Scan(host: string) returns (r: Option<string>)
      requires Final()
      ensures r == WildChoice(text, given, visit, host)
    {
      for i := 0 to |wild|
        invariant forall j :: 0 <= j < i ==> !MatchesWildcard(host, wild[j].suffix)
      {
        if MatchesWildcard(host, wild[i].suffix) {
          Scanned(host, i);
          return Some(wild[i].target);
        }
      }
      Scanned(host, |wild|);
      r := None;
    }

    /** The scan answers with its first match. */
    lemma Scanned(host: string, i: nat)
      requires Final() && i <= |wild|
      requires forall j :: 0 <= j < i ==> !MatchesWildcard(host, wild[j].suffix)
      requires i < |wild| ==> MatchesWildcard(host, wild[i].suffix)
      ensures WildChoice(text, given, visit, host) == if i < |wild| then Some(wild[i].target) else None
    {
      Wildcards(host);
      if SuffixFrom(host, 0).Some? {
        FirstWithAt(wild, i, SuffixFrom(host, 0).value);
      }
    }

    /** The list answers for a suffix as the visit decided. */
    lemma Wildcards(host: string)
      requires Final()
      ensures forall i :: 0 <= i < |wild| ==>
                (MatchesWildcard(host, wild[i].suffix) <==> SuffixFrom(host, 0) == Some(wild[i].suffix))
      ensures SuffixFrom(host, 0).Some? ==>
                FirstWith(wild, SuffixFrom(host, 0).value) == WildChoice(text, given, visit, host)
    {
      var ws := FiledWilds(text, given, visit);
      SortedLongest(ws);
      WildsAreWild(text, given, visit);
      forall i | 0 <= i < |wild|
        ensures MatchesWildcard(host, wild[i].suffix) <==> SuffixFrom(host, 0) == Some(wild[i].suffix)
      {
        assert wild[i] in ws;
        MatchersAgree(host, wild[i].suffix);
      }
      if SuffixFrom(host, 0).Some? {
        SuffixDotted(host, 0);
        WildsFirst(text, given, visit, SuffixFrom(host, 0).value);
        SortFirst(ws, SuffixFrom(host, 0).value);
      }
    }
  }
}
