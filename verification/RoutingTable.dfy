/** The mesh routing table: which peers announce which hostnames and wildcards. */
module RoutingTable {
  import opened Hostnames
  import opened PeerLists

  /** Where a name is filed: under itself, or under the suffix of a valid wildcard. */
  datatype Route = Exact(name: string) | Wild(suffix: string)

  function RouteOf(text: Text, name: string): Route {
    match WildcardSuffix(text, name)
    case Some(suffix) => Wild(suffix)
    case None => Exact(name)
  }

  /** Some name of the set is filed under the route. */
  ghost predicate Filed(text: Text, names: set<string>, r: Route) {
    exists h :: h in names && RouteOf(text, h) == r
  }

  datatype PeerState = PeerState(version: nat, names: set<string>)

  class Table {
    const text: Text
    var routes: map<Route, PeerList>
    var states: map<string, PeerState>

    /** Each route has a list of its own. */
    ghost predicate Valid()
      reads this`routes, routes.Values
    {
      && (forall r :: r in routes ==> routes[r].Valid())
      && (forall r, s :: r in routes && s in routes && r != s ==> routes[r] != routes[s])
    }

    ghost predicate Has(r: Route, p: string)
      reads this`routes, routes.Values
    {
      r in routes && p in routes[r].peers
    }

    /** The names of the latest announcement accepted from a peer. */
    function Names(p: string): set<string>
      reads this`states
    {
      if p in states then states[p].names else {}
    }

    function Version(p: string): nat
      reads this`states
    {
      if p in states then states[p].version else 0
    }

    /** The peer is listed under exactly the routes of these names. */
    ghost predicate Lists(p: string, names: set<string>)
      reads this`routes, routes.Values
    {
      forall r :: Has(r, p) <==> Filed(text, names, r)
    }

    /** Every peer is listed by its latest announcement. */
    ghost predicate Agrees()
      reads this, routes.Values
    {
      forall p :: Lists(p, Names(p))
    }

    constructor (text: Text)
      ensures Valid() && Agrees() && states == map[]
    {
      this.text := text;
      routes, states := map[], map[];
    }

    method AddTo(r: Route, p: string)
      requires Valid()
      modifies this`routes, routes.Values
      ensures Valid() && fresh(routes.Values - old(routes.Values))
      ensures forall s, q :: Has(s, q) <==> old(Has(s, q)) || (s == r && q == p)
    {
      if r !in routes {
        var list := new PeerList();
        routes := routes[r := list];
      }
      routes[r].Add(p);
    }

    method RemoveFrom(r: Route, p: string)
      requires Valid()
      modifies routes.Values
      ensures Valid()
      ensures forall s, q :: Has(s, q) <==> old(Has(s, q)) && !(s == r && q == p)
    {
      if r in routes {
        routes[r].Remove(p);
      }
    }

    method AddAll(names: set<string>, p: string)
      requires Valid()
      modifies this`routes, routes.Values
      ensures Valid() && fresh(routes.Values - old(routes.Values))
      ensures forall s, q :: Has(s, q) <==> old(Has(s, q)) || (q == p && Filed(text, names, s))
    {
      var todo := names;
      while todo != {}
        invariant Valid() && fresh(routes.Values - old(routes.Values)) && todo <= names
        invariant forall s, q :: Has(s, q) <==> old(Has(s, q)) || (q == p && Filed(text, names - todo, s))
        decreases todo
      {
        var h :| h in todo;
        FiledMore(text, names - todo, h);
        assert names - todo + {h} == names - (todo - {h});
        AddTo(RouteOf(text, h), p);
        todo := todo - {h};
      }
      assert names - todo == names;
    }

    method RemoveAll(names: set<string>, p: string)
      requires Valid()
      modifies routes.Values
      ensures Valid()
      ensures forall s, q :: Has(s, q) <==> old(Has(s, q)) && !(q == p && Filed(text, names, s))
    {
      var todo := names;
      while todo != {}
        invariant Valid() && todo <= names
        invariant forall s, q :: Has(s, q) <==> old(Has(s, q)) && !(q == p && Filed(text, names - todo, s))
        decreases todo
      {
        var h :| h in todo;
        FiledMore(text, names - todo, h);
        assert names - todo + {h} == names - (todo - {h});
        RemoveFrom(RouteOf(text, h), p);
        todo := todo - {h};
      }
      assert names - todo == names;
    }

    /** New names are listed before withdrawn ones are taken off. */
    method Replace(p: string, before: set<string>, after: set<string>)
      requires Valid()
      modifies this`routes, routes.Values
      ensures Valid() && fresh(routes.Values - old(routes.Values))
      ensures forall s, q :: q != p ==> (Has(s, q) <==> old(Has(s, q)))
      ensures old(Lists(p, before)) ==> (Lists(p, after) <==> NoAlias(text, before, after))
    {
      AddAll(after - before, p);
      RemoveAll(before - after, p);
      if old(Lists(p, before)) {
        Reconciled(text, before, after);
        assert forall s :: Has(s, p) <==> After(text, before, after, s);
      }
    }

    /** Works a new set of names in: the table agrees with it if and only if no withdrawn
        name shares a route with one announced. */
    method Accept(p: string, version: nat, announced: set<string>)
      requires Valid()
      modifies this`routes, this`states, routes.Values
      ensures Valid() && states == old(states)[p := PeerState(version, announced)]
      ensures forall s, q :: q != p ==> (Has(s, q) <==> old(Has(s, q)))
      ensures old(Agrees()) ==> (Agrees() <==> NoAlias(text, old(Names(p)), announced))
    {
      assert Agrees() ==> Lists(p, Names(p));
      Replace(p, Names(p), announced);
      states := states[p := PeerState(version, announced)];
      if old(Agrees()) {
        forall q | q != p ensures Lists(q, Names(q)) {
          assert old(Lists(q, Names(q)));
        }
        assert Agrees() <==> Lists(p, Names(p));
      }
    }

    /** A stale announcement changes nothing. A newer one replaces the peer's names, and
        no other peer's. */
    method UpdateRoutesForPeer(p: string, version: nat, names: seq<string>)
      requires Valid()
      modifies this`routes, this`states, routes.Values
      ensures Valid()
      ensures forall s, q :: q != p ==> (Has(s, q) <==> old(Has(s, q)))
      ensures forall q :: q != p ==> Names(q) == old(Names(q)) && Version(q) == old(Version(q))
      ensures version <= old(Version(p)) ==>
                Names(p) == old(Names(p)) && Version(p) == old(Version(p)) && forall s :: Has(s, p) <==> old(Has(s, p))
      ensures version > old(Version(p)) ==> Names(p) == (set h | h in names) && Version(p) == version
      ensures old(Agrees()) ==>
                (Agrees() <==> version <= old(Version(p)) || NoAlias(text, old(Names(p)), set h | h in names))
    {
      LoadOrStore(p);
      if version > states[p].version {
        Accept(p, version, set h | h in names);
      }
    }

    /** A peer never heard of is taken to have announced nothing, at version 0. */
    method LoadOrStore(p: string)
      requires Valid()
      modifies this`states
      ensures p in states && forall q :: Names(q) == old(Names(q)) && Version(q) == old(Version(q))
      ensures old(Agrees()) ==> Agrees()
    {
      if p !in states {
        states := states[p := PeerState(0, {})];
      }
      if old(Agrees()) {
        forall q ensures Lists(q, Names(q)) {
          assert old(Lists(q, Names(q))) && Names(q) == old(Names(q));
        }
      }
    }

    /** A peer that leaves is listed nowhere; nobody else moves. */
    method ClearRoutesForPeer(p: string)
      requires Valid()
      modifies this`states, routes.Values
      ensures Valid() && states == old(states) - {p}
      ensures forall s, q :: q != p ==> (Has(s, q) <==> old(Has(s, q)))
      ensures forall s :: Has(s, p) <==> old(Has(s, p)) && !Filed(text, old(Names(p)), s)
      ensures old(Agrees()) ==> Agrees() && forall s :: !Has(s, p)
    {
      if p in states {
        var names := states[p].names;
        states := states - {p};
        RemoveAll(names, p);
      }
      if old(Agrees()) {
        forall q ensures Lists(q, Names(q)) && (q == p ==> forall s :: !Has(s, q)) {
          assert old(Lists(q, Names(q)));
        }
      }
    }

    method SelectFrom(r: Route) returns (peer: Option<string>)
      requires Valid()
      modifies routes.Values
      ensures Valid() && forall s, q :: Has(s, q) <==> old(Has(s, q))
      ensures peer.Some? ==> Has(r, peer.value)
      ensures peer.None? ==> forall q :: !Has(r, q)
    {
      if r !in routes { return None; }
      peer := routes[r].Select();
    }

    /** Lookup: a peer that announces the name, else one that announces the wildcard of
        its first dot, else none. */
    method GetPeerForHostname(name: string) returns (peer: Option<string>)
      requires Valid()
      modifies routes.Values
      ensures Valid() && (old(Agrees()) ==> Agrees())
      ensures forall s, q :: Has(s, q) <==> old(Has(s, q))
      ensures var wild := FirstDotSuffix(text, name);
              match peer
              case Some(q) =>
                || Has(Exact(name), q)
                || (wild.Some? && Has(Wild(wild.value), q) && forall q' :: !Has(Exact(name), q'))
              case None =>
                && (forall q :: !Has(Exact(name), q))
                && (wild.Some? ==> forall q :: !Has(Wild(wild.value), q))
    {
      peer := SelectFrom(Exact(name));
      if peer.Some? { return; }
      match FirstDotSuffix(text, name)
      case Some(suffix) => peer := SelectFrom(Wild(suffix));
      case None =>
    }
  }

  // ----- When an announcement lands -----------------------------------------------------

  /** No withdrawn name is filed where an announced one is. */
  ghost predicate NoAlias(text: Text, before: set<string>, after: set<string>) {
    forall r :: !(Filed(text, before - after, r) && Filed(text, after, r))
  }

  /** Where a peer is listed once an announcement has been worked in. */
  ghost predicate After(text: Text, before: set<string>, after: set<string>, r: Route) {
    (Filed(text, before, r) || Filed(text, after - before, r)) && !Filed(text, before - after, r)
  }

  lemma Reconciled(text: Text, before: set<string>, after: set<string>)
    ensures (forall r :: After(text, before, after, r) <==> Filed(text, after, r)) <==> NoAlias(text, before, after)
  {
    forall r ensures After(text, before, after, r) <==> Filed(text, after, r) && !Filed(text, before - after, r) {
      if Filed(text, before, r) && !Filed(text, before - after, r) {
        var h :| h in before && RouteOf(text, h) == r;
        assert h !in before - after;
      }
      if Filed(text, after, r) && !Filed(text, after - before, r) {
        var h :| h in after && RouteOf(text, h) == r;
        assert h !in after - before;
      }
      if Filed(text, after - before, r) {
        var h :| h in after - before && RouteOf(text, h) == r;
        assert h in after;
      }
    }
  }

  /** Names in canonical form never alias, so announcements of canonical names always land. */
  lemma CanonicalLands(text: Text, before: set<string>, after: set<string>)
    requires forall h :: h in before + after && WildcardSuffix(text, h).Some? ==> NormalizeOrWildcard(text, h) == h
    ensures NoAlias(text, before, after)
  {
    forall g, h | g in before + after && h in before + after && RouteOf(text, g) == RouteOf(text, h)
      ensures g == h
    {
      if WildcardSuffix(text, g).Some? {
        assert g[1..] == h[1..] && g[0] == '*' && h[0] == '*';
        assert g == [g[0]] + g[1..] && h == [h[0]] + h[1..];
      }
    }
  }

  /** A normaliser that knows one other spelling. */
  function LowerOnce(): Text {
    Text(s => s, s => if s == "A.b" then "a.b" else s)
  }

  lemma Spellings()
    ensures RouteOf(LowerOnce(), "*.A.b") == Wild(".a.b") && RouteOf(LowerOnce(), "*.a.b") == Wild(".a.b")
  {
    var text := LowerOnce();
    assert "*.a.b"[2..] == "a.b" && "*.A.b"[2..] == "A.b" && "*.a.b"[1..] == ".a.b";
    assert "a.b"[1] == '.' && !HasEmptyLabel("a.b");
    assert IsValidWildcard("*.a.b");
    assert NormalizeOrWildcard(text, "*.A.b") == "*.a.b" && NormalizeOrWildcard(text, "*.a.b") == "*.a.b";
  }

  /** Two spellings of one wildcard do alias: withdrawing one unlists the other. */
  lemma SpellingsAlias()
    ensures var text, both, one := LowerOnce(), {"*.a.b", "*.A.b"}, {"*.a.b"};
            && !NoAlias(text, both, one)
            && Filed(text, one, Wild(".a.b")) && !After(text, both, one, Wild(".a.b"))
  {
    var text, both, one := LowerOnce(), {"*.a.b", "*.A.b"}, {"*.a.b"};
    Spellings();
    assert "*.A.b"[2] != "*.a.b"[2];
    assert "*.A.b" in both - one && "*.a.b" in one;
    assert Filed(text, both - one, Wild(".a.b"));
  }

  lemma FiledMore(text: Text, names: set<string>, h: string)
    ensures forall r :: Filed(text, names + {h}, r) <==> Filed(text, names, r) || r == RouteOf(text, h)
  {
    forall r ensures Filed(text, names + {h}, r) <==> Filed(text, names, r) || r == RouteOf(text, h) {
      if Filed(text, names, r) {
        var g :| g in names && RouteOf(text, g) == r;
        assert g in names + {h};
      }
      if r == RouteOf(text, h) {
        assert h in names + {h};
      }
    }
  }
}
