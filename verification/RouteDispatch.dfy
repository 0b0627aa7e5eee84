/** Sorting the discovered routes and dispatching a request over the sorted tables. */
module RouteDispatch {
  import opened Basics
  import opened RouteOrder

  // ---------- Sorting ----------

  ghost predicate OneMode(routes: seq<Route>) {
    forall r, s :: r in routes && s in routes ==> SameMode(r, s)
  }

  /** Nothing later precedes anything earlier. */
  ghost predicate Sorted(routes: seq<Route>) {
    forall i, j :: 0 <= i < j < |routes| ==> !Precedes(routes[j], routes[i])
  }

  /** Puts a route in front of the first one that does not precede it. */
  function Insert(r: Route, routes: seq<Route>): seq<Route> {
    if routes == [] || !Precedes(routes[0], r) then [r] + routes
    else [routes[0]] + Insert(r, routes[1..])
  }

  /** A stable sort by precedence. */
  function SortRoutes(routes: seq<Route>): seq<Route> {
    if routes == [] then [] else Insert(routes[0], SortRoutes(routes[1..]))
  }

  lemma {:induction false} InsertMembers(r: Route, routes: seq<Route>)
    ensures multiset(Insert(r, routes)) == multiset{r} + multiset(routes)
  {
    if routes != [] {
      assert routes == [routes[0]] + routes[1..];
      InsertMembers(r, routes[1..]);
    }
  }

  lemma {:induction false} InsertSorted(r: Route, routes: seq<Route>)
    requires Sorted(routes) && OneMode([r] + routes)
    ensures Sorted(Insert(r, routes))
  {
    if routes == [] {
    } else if !Precedes(routes[0], r) {
      forall j | 0 <= j < |routes|
        ensures !Precedes(routes[j], r)
      {
        NotBefore(r, routes, j);
      }
    } else {
      var rest := routes[1..];
      assert forall x :: x in [r] + rest ==> x in [r] + routes;
      InsertSorted(r, rest);
      InsertMembers(r, rest);
      forall x | x in Insert(r, rest)
        ensures !Precedes(x, routes[0])
      {
        assert x in multiset(Insert(r, rest));
        assert x == r || x in rest;
        assert r in [r] + routes && routes[0] in [r] + routes;
        PrecedesAsymmetric(routes[0], r);
      }
    }
  }

  /** In a sorted list, what the head does not yield to nobody behind it yields to. */
  lemma NotBefore(r: Route, routes: seq<Route>, j: nat)
    requires Sorted(routes) && OneMode([r] + routes) && j < |routes| && !Precedes(routes[0], r)
    ensures !Precedes(routes[j], r)
  {
    var h, x := routes[0], routes[j];
    assert h in [r] + routes && x in [r] + routes && r in [r] + routes;
    if Precedes(x, r) && j > 0 {
      PrecedesAsymmetric(h, x);
      PrecedesAsymmetric(h, r);
      if Precedes(h, x) {
        PrecedesTransitive(h, x, r);
      } else if Precedes(r, h) {
        PrecedesTransitive(x, r, h);
      } else {
        TiedTransitive(x, h, r);
        PrecedesAsymmetric(x, r);
      }
    }
  }

  lemma {:induction false} SortMembers(routes: seq<Route>)
    ensures multiset(SortRoutes(routes)) == multiset(routes)
  {
    if routes != [] {
      SortMembers(routes[1..]);
      InsertMembers(routes[0], SortRoutes(routes[1..]));
      assert routes == [routes[0]] + routes[1..];
    }
  }

  lemma {:induction false} SortSorted(routes: seq<Route>)
    requires OneMode(routes)
    ensures Sorted(SortRoutes(routes))
  {
    if routes != [] {
      var rest := routes[1..];
      SortSorted(rest);
      SortMembers(rest);
      forall x | x in [routes[0]] + SortRoutes(rest)
        ensures x in routes
      {
        assert x == routes[0] || x in multiset(SortRoutes(rest));
      }
      InsertSorted(routes[0], SortRoutes(rest));
    }
  }

  /** Only a route and its own copies are tied. */
  ghost predicate TiesAreEqual(routes: seq<Route>) {
    forall r, s :: r in routes && s in routes && Tied(r, s) ==> r == s
  }

  lemma HeadLeads(s: seq<Route>, x: Route)
    requires Sorted(s) && OneMode(s) && x in s
    ensures !Precedes(x, s[0])
  {
    var j :| 0 <= j < |s| && s[j] == x;
    PrecedesAsymmetric(s[0], s[0]);
  }

  lemma SameMembers(s: seq<Route>, t: seq<Route>)
    requires multiset(s) == multiset(t)
    ensures |s| == |t| && forall x :: x in s <==> x in t
  {
    assert |s| == |multiset(s)| == |multiset(t)| == |t|;
    assert forall x :: x in s <==> x in multiset(s);
    assert forall x :: x in t <==> x in multiset(t);
  }

  // ---------- Ties ----------

  /** The routes tied with `r`, in their order. */
  ghost function Class(routes: seq<Route>, r: Route): seq<Route> {
    if routes == [] then [] else Own(routes[0], r) + Class(routes[1..], r)
  }

  ghost function Own(h: Route, r: Route): seq<Route> { if Tied(h, r) then [h] else [] }

  lemma {:induction false} ClassConcat(a: seq<Route>, b: seq<Route>, r: Route)
    ensures Class(a + b, r) == Class(a, r) + Class(b, r)
  {
    if a == [] {
      assert a + b == b;
    } else {
      ClassConcat(a[1..], b, r);
      assert (a + b)[1..] == a[1..] + b;
      Regroup(Own(a[0], r), Class(a[1..], r), Class(b, r));
    }
  }

  lemma Regroup(a: seq<Route>, b: seq<Route>, c: seq<Route>)
    ensures a + (b + c) == (a + b) + c
  {
  }

  lemma {:induction false} ClassMember(routes: seq<Route>, r: Route) returns (y: Route)
    requires Class(routes, r) != []
    ensures y in routes && Tied(y, r)
  {
    if Tied(routes[0], r) {
      y := routes[0];
    } else {
      y := ClassMember(routes[1..], r);
    }
  }

  lemma {:induction false} OwnClass(routes: seq<Route>, r: Route)
    requires r in routes
    ensures Class(routes, r) != []
  {
    PrecedesAsymmetric(r, r);
    if routes[0] != r {
      OwnClass(routes[1..], r);
    }
  }

  lemma {:induction false} InsertStable(r: Route, routes: seq<Route>, x: Route)
    requires OneMode([r] + routes) && SameMode(r, x)
    ensures Class(Insert(r, routes), x) == Class([r] + routes, x)
  {
    assert ([r] + routes)[1..] == routes;
    if routes != [] && Precedes(routes[0], r) {
      var h, rest := routes[0], routes[1..];
      assert h in [r] + routes && r in [r] + routes && forall y :: y in [r] + rest ==> y in [r] + routes;
      InsertStable(r, rest, x);
      assert ([r] + rest)[1..] == rest;
      assert ([h] + Insert(r, rest))[1..] == Insert(r, rest);
      NotBothTied(h, r, x);
      Regroup(Own(h, x), Own(r, x), Class(rest, x));
      Regroup(Own(r, x), Own(h, x), Class(rest, x));
    }
  }

  lemma NotBothTied(h: Route, r: Route, x: Route)
    requires SameMode(h, r) && SameMode(r, x) && Precedes(h, r)
    ensures Own(h, x) + Own(r, x) == Own(r, x) + Own(h, x)
  {
    if Tied(h, x) && Tied(r, x) {
      PrecedesAsymmetric(r, x);
      PrecedesAsymmetric(x, r);
      TiedTransitive(h, x, r);
      PrecedesAsymmetric(h, r);
    }
  }

  /** The sort is stable: tied routes keep the order they were found in. */
  lemma {:induction false} SortStable(routes: seq<Route>, x: Route)
    requires OneMode(routes) && forall r :: r in routes ==> SameMode(r, x)
    ensures Class(SortRoutes(routes), x) == Class(routes, x)
  {
    if routes != [] {
      var rest := routes[1..];
      SortStable(rest, x);
      SortMembers(rest);
      SameMembers(rest, SortRoutes(rest));
      InsertStable(routes[0], SortRoutes(rest), x);
      assert ([routes[0]] + SortRoutes(rest))[1..] == SortRoutes(rest);
    }
  }

  lemma Removed(a: seq<Route>, b: seq<Route>, k: nat)
    requires multiset(a) == multiset(b) && a != [] && k < |b| && b[k] == a[0]
    ensures multiset(a[1..]) == multiset(b[..k] + b[k + 1..])
  {
    assert a == [a[0]] + a[1..] && b == b[..k] + [b[k]] + b[k + 1..];
    assert multiset(a[1..]) == multiset(a) - multiset{a[0]};
    assert multiset(b[..k] + b[k + 1..]) == multiset(b) - multiset{a[0]};
  }

  /** How many routes are tied with `x` does not depend on their order. */
  lemma {:induction false} ClassSize(a: seq<Route>, b: seq<Route>, x: Route)
    requires multiset(a) == multiset(b)
    ensures |Class(a, x)| == |Class(b, x)|
  {
    SameMembers(a, b);
    if a != [] {
      assert a[0] in b;
      var k :| 0 <= k < |b| && b[k] == a[0];
      var rest := b[..k] + b[k + 1..];
      assert b == b[..k] + ([b[k]] + b[k + 1..]);
      Removed(a, b, k);
      ClassSize(a[1..], rest, x);
      ClassConcat(b[..k], b[k + 1..], x);
      ClassConcat(b[..k], [b[k]] + b[k + 1..], x);
      assert ([b[k]] + b[k + 1..])[1..] == b[k + 1..];
    }
  }

  /** Nothing precedes what leads, up to ties. */
  lemma TiedLeads(t: seq<Route>, x: Route)
    requires Sorted(t) && OneMode([x] + t) && Class(t, x) != []
    ensures t != [] && !Precedes(x, t[0])
  {
    var y := ClassMember(t, x);
    var h := t[0];
    assert x in [x] + t && y in [x] + t && h in [x] + t && forall r :: r in t ==> r in [x] + t;
    HeadLeads(t, y);
    if Precedes(x, h) {
      PrecedesAsymmetric(y, h);
      PrecedesAsymmetric(x, y);
      PrecedesAsymmetric(x, h);
      if Tied(y, h) {
        TiedTransitive(x, y, h);
      } else {
        PrecedesTransitive(x, h, y);
      }
    }
  }

  ghost predicate SameSizes(s: seq<Route>, t: seq<Route>) {
    forall x :: x in s || x in t ==> |Class(s, x)| == |Class(t, x)|
  }

  lemma HeadsTied(s: seq<Route>, t: seq<Route>)
    requires Sorted(s) && Sorted(t) && OneMode(s + t) && SameSizes(s, t) && s != []
    ensures t != [] && Tied(s[0], t[0])
  {
    OwnClass(s, s[0]);
    assert forall x :: x in [s[0]] + t ==> x in s + t;
    TiedLeads(t, s[0]);
    OwnClass(t, t[0]);
    assert forall x :: x in [t[0]] + s ==> x in s + t;
    TiedLeads(s, t[0]);
    assert s[0] in s + t && t[0] in s + t;
    PrecedesAsymmetric(s[0], t[0]);
  }

  lemma TailSizes(s: seq<Route>, t: seq<Route>)
    requires s != [] && t != [] && OneMode(s + t) && SameSizes(s, t) && Tied(s[0], t[0])
    ensures SameSizes(s[1..], t[1..])
  {
    forall x | x in s[1..] || x in t[1..]
      ensures |Class(s[1..], x)| == |Class(t[1..], x)|
    {
      assert x in s || x in t;
      assert s[0] in s + t && t[0] in s + t && x in s + t;
      PrecedesAsymmetric(s[0], t[0]);
      PrecedesAsymmetric(t[0], s[0]);
      if Tied(s[0], x) {
        TiedTransitive(t[0], s[0], x);
      } else if Tied(t[0], x) {
        TiedTransitive(s[0], t[0], x);
      }
    }
  }

  lemma {:induction false} SortedAlike(s: seq<Route>, t: seq<Route>)
    requires Sorted(s) && Sorted(t) && OneMode(s + t) && SameSizes(s, t)
    ensures |s| == |t| && forall i :: 0 <= i < |s| ==> Tied(s[i], t[i])
  {
    if s == [] {
      if t != [] {
        HeadsTied(t, s);
      }
    } else {
      HeadsTied(s, t);
      TailSizes(s, t);
      assert forall x :: x in s[1..] + t[1..] ==> x in s + t;
      SortedAlike(s[1..], t[1..]);
      forall i | 0 <= i < |s|
        ensures Tied(s[i], t[i])
      {
        assert i > 0 ==> s[i] == s[1..][i - 1] && t[i] == t[1..][i - 1];
      }
    }
  }

  /** In whatever order the routes come in, the tables agree place by place up to ties, and
      are equal if only copies tie. */
  lemma SortDeterministic(a: seq<Route>, b: seq<Route>)
    requires multiset(a) == multiset(b) && OneMode(a)
    ensures |SortRoutes(a)| == |SortRoutes(b)|
    ensures forall i :: 0 <= i < |SortRoutes(a)| ==> Tied(SortRoutes(a)[i], SortRoutes(b)[i])
    ensures TiesAreEqual(a) ==> SortRoutes(a) == SortRoutes(b)
  {
    var s, t := SortRoutes(a), SortRoutes(b);
    SortSizes(a, b);
    SortSorted(a);
    SortSorted(b);
    SortedAlike(s, t);
    if TiesAreEqual(a) {
      assert forall i :: 0 <= i < |s| ==> s[i] in a && t[i] in a && Tied(s[i], t[i]);
    }
  }

  lemma SortSizes(a: seq<Route>, b: seq<Route>)
    requires multiset(a) == multiset(b)
    ensures SameSizes(SortRoutes(a), SortRoutes(b))
    ensures forall x :: (x in b ==> x in a) && (x in SortRoutes(a) + SortRoutes(b) ==> x in a)
  {
    var s, t := SortRoutes(a), SortRoutes(b);
    SortMembers(a);
    SortMembers(b);
    SameMembers(a, b);
    SameMembers(a, s);
    SameMembers(a, t);
    forall x | x in s || x in t
      ensures |Class(s, x)| == |Class(t, x)|
    {
      ClassSize(s, t, x);
    }
  }

  lemma Swapped(a: seq<Route>, i: nat, j: nat) returns (b: seq<Route>)
    requires i < j < |a|
    ensures b == a[i := a[j]][j := a[i]] && multiset(b) == multiset(a)
  {
    b := a[i := a[j]][j := a[i]];
  }

  lemma {:induction false} ClassAt(a: seq<Route>, i: nat, x: Route)
    requires i < |a| && Tied(a[i], x)
    ensures |Class(a[..i], x)| < |Class(a, x)| && Class(a, x)[|Class(a[..i], x)|] == a[i]
  {
    ClassConcat(a[..i], a[i..], x);
    assert a == a[..i] + a[i..] && a[i..][0] == a[i];
  }

  /** Two tied routes that differ come out in the order they went in, so swapping them
      changes the table. */
  lemma TiesShow(a: seq<Route>, i: nat, j: nat)
    requires OneMode(a) && i < j < |a| && Tied(a[i], a[j]) && a[i] != a[j]
    ensures multiset(a[i := a[j]][j := a[i]]) == multiset(a) && SortRoutes(a[i := a[j]][j := a[i]]) != SortRoutes(a)
  {
    var b := Swapped(a, i, j);
    SameMembers(a, b);
    assert a[i] in a && a[j] in a;
    PrecedesAsymmetric(a[j], a[j]);
    assert a[..i] == b[..i];
    ClassAt(a, i, a[j]);
    ClassAt(b, i, a[j]);
    SortStable(a, a[j]);
    SortStable(b, a[j]);
  }

  /** So this sort alone would make the table independent of the order the routes come in
      exactly when no two different routes tie. */
  lemma DeterministicIffNoTies(a: seq<Route>)
    requires OneMode(a)
    ensures TiesAreEqual(a) <==> forall b :: multiset(b) == multiset(a) ==> SortRoutes(b) == SortRoutes(a)
  {
    if TiesAreEqual(a) {
      forall b | multiset(b) == multiset(a)
        ensures SortRoutes(b) == SortRoutes(a)
      {
        SortDeterministic(a, b);
      }
    } else {
      var i, j := TiedPlaces(a);
      TiesShow(a, i, j);
    }
  }

  lemma TiedPlaces(a: seq<Route>) returns (i: nat, j: nat)
    requires OneMode(a) && !TiesAreEqual(a)
    ensures i < j < |a| && Tied(a[i], a[j]) && a[i] != a[j]
  {
    var r, s :| r in a && s in a && Tied(r, s) && r != s;
    PrecedesAsymmetric(r, s);
    PrecedesAsymmetric(s, r);
    i :| 0 <= i < |a| && a[i] == r;
    j :| 0 <= j < |a| && a[j] == s;
    if j < i {
      i, j := j, i;
    }
  }

  /** Two routers of one service with one pattern and different listeners are such a pair. */
  lemma TiedPair() returns (r: Route, s: Route)
    ensures Tied(r, s) && r != s && SortRoutes([r, s]) == [r, s] && SortRoutes([s, r]) == [s, r]
  {
    r := Route(Matcher("h", HostExact, "/", PathSegment, false, 0, 1), "web", 1, []);
    s := Route(Matcher("h", HostExact, "/", PathSegment, false, 0, 2), "web", 2, []);
    TiedAsFound(r, s);
    TiedAsFound(s, r);
  }

  lemma TiedAsFound(r: Route, s: Route)
    requires SameMode(r, s) && Tied(r, s)
    ensures SortRoutes([r, s]) == [r, s]
  {
    PrecedesAsymmetric(r, s);
    assert [r, s][1..] == [s] && [s][1..] == [];
    assert SortRoutes([]) == [];
    assert SortRoutes([s]) == Insert(s, []) == [s];
  }

  // ---------- Enumeration ----------

  /** A container as listed; `labels` stands for all that its routes are derived from. */
  datatype Container = Container(name: string, labels: nat)

  ghost predicate NamesIdentify(cs: seq<Container>) {
    forall c, d :: c in cs && d in cs && c.name == d.name ==> c == d
  }

  ghost predicate ByName(cs: seq<Container>) {
    forall i, j :: 0 <= i < j < |cs| ==> !Less(cs[j].name, cs[i].name)
  }

  lemma FirstByName(s: seq<Container>, t: seq<Container>)
    requires multiset(s) == multiset(t) && NamesIdentify(s) && ByName(s) && ByName(t) && s != []
    ensures t != [] && s[0] == t[0]
  {
    assert |s| == |multiset(s)| == |multiset(t)| == |t|;
    assert t[0] in multiset(s) && s[0] in multiset(t);
    LessConnected(s[0].name, t[0].name);
  }

  lemma RestByName(s: seq<Container>)
    requires ByName(s) && s != []
    ensures ByName(s[1..]) && multiset(s[1..]) == multiset(s) - multiset{s[0]} && s == [s[0]] + s[1..]
    ensures NamesIdentify(s) ==> NamesIdentify(s[1..])
  {
    assert s == [s[0]] + s[1..];
  }

  /** There is only one way to put containers in the order of their names. */
  lemma {:induction false} NameOrderUnique(s: seq<Container>, t: seq<Container>)
    requires multiset(s) == multiset(t) && NamesIdentify(s) && ByName(s) && ByName(t)
    ensures s == t
  {
    if s == [] {
      assert |multiset(t)| == 0;
    } else {
      FirstByName(s, t);
      RestByName(s);
      RestByName(t);
      NameOrderUnique(s[1..], t[1..]);
    }
  }

  /** The table does not depend on how the containers are enumerated, ties or not: they are
      put in the order of their names before anything is derived from them. Any sort will do
      for that, stable or not. */
  lemma EnumerationIrrelevant(a: seq<Container>, b: seq<Container>, s: seq<Container>, t: seq<Container>,
                              derive: seq<Container> -> seq<Route>)
    requires multiset(a) == multiset(b) && NamesIdentify(a)
    requires multiset(s) == multiset(a) && ByName(s) && multiset(t) == multiset(b) && ByName(t)
    ensures SortRoutes(derive(s)) == SortRoutes(derive(t))
  {
    forall c | c in s
      ensures c in a
    {
      assert c in multiset(s);
    }
    NameOrderUnique(s, t);
  }

  // ---------- Matching ----------

  /** A request, as the opaque answers of the matchers and of address parsing. */
  datatype Request = Request(listener: Route -> bool, hostPath: Route -> bool, peer: Route -> bool,
                             client: Option<nat>, allowed: (Route, nat) -> bool)

  predicate Matches(req: Request, r: Route) {
    && req.listener(r) && req.hostPath(r) && req.peer(r)
    && (r.clients != [] ==> req.client.Some? && req.allowed(r, req.client.value))
  }

  function FirstMatch(req: Request, routes: seq<Route>): Option<Route> {
    if routes == [] then None
    else if Matches(req, routes[0]) then Some(routes[0])
    else FirstMatch(req, routes[1..])
  }

  /** The scan; the client address is worked out at most once, and only if needed. */
  method FindCompiledRoute(routes: seq<Route>, req: Request) returns (r: Option<Route>, resolutions: nat)
    ensures r == FirstMatch(req, routes) && resolutions <= 1
    ensures r.Some? ==>
              && r.value in routes && req.listener(r.value) && req.hostPath(r.value) && req.peer(r.value)
              && (r.value.clients == [] || (req.client.Some? && req.allowed(r.value, req.client.value)))
    ensures r.None? ==> forall i :: 0 <= i < |routes| && req.listener(routes[i]) && req.hostPath(routes[i]) && req.peer(routes[i]) ==>
              routes[i].clients != [] && (req.client.None? || !req.allowed(routes[i], req.client.value))
    ensures (forall i :: 0 <= i < |routes| ==> routes[i].clients == []) ==> resolutions == 0
  {
    NoMatch(req, routes);
    var client: Option<nat> := None;
    var resolved := false;
    resolutions := 0;
    var i := 0;
    while i < |routes|
      invariant 0 <= i <= |routes| && FirstMatch(req, routes[i..]) == FirstMatch(req, routes)
      invariant resolutions == (if resolved then 1 else 0) && (resolved ==> client == req.client)
      invariant resolved ==> exists j :: 0 <= j < i && routes[j].clients != []
    {
      var c := routes[i];
      assert routes[i..][1..] == routes[i + 1..];
      i := i + 1;
      if !req.listener(c) || !req.hostPath(c) {
        continue;
      }
      if !req.peer(c) {
        continue;
      }
      if |c.clients| > 0 {
        if !resolved {
          client, resolved, resolutions := req.client, true, resolutions + 1;
        }
        if client.None? || !req.allowed(c, client.value) {
          continue;
        }
      }
      return Some(c), resolutions;
    }
    r := None;
    assert forall i :: 0 <= i < |routes| ==> routes[i] in routes && !Matches(req, routes[i]);
  }

  /** The first match of a sorted table is a best match. */
  lemma {:induction false} FirstIsBest(req: Request, routes: seq<Route>, x: Route)
    requires Sorted(routes) && OneMode(routes) && x in routes && Matches(req, x)
    ensures FirstMatch(req, routes).Some?
    ensures var r := FirstMatch(req, routes).value; r in routes && Matches(req, r) && !Precedes(x, r)
  {
    if Matches(req, routes[0]) {
      HeadLeads(routes, x);
    } else {
      FirstIsBest(req, routes[1..], x);
    }
  }

  /** Without priorities, best means most specific. */
  lemma FirstIsMostSpecific(req: Request, routes: seq<Route>, x: Route)
    requires Sorted(routes) && Unprioritized(routes) && x in routes && Matches(req, x)
    ensures FirstMatch(req, routes).Some?
    ensures CompareSpecificity(FirstMatch(req, routes).value.matcher, x.matcher) >= 0
  {
    FirstIsBest(req, routes, x);
    var r := FirstMatch(req, routes).value;
    SpecificityOrder(x.matcher, r.matcher, x.matcher);
  }

  /** So a route never shadows a narrower one for the same host. */
  lemma NarrowerWins(req: Request, routes: seq<Route>, a: Route, b: Route)
    requires Sorted(routes) && Unprioritized(routes) && a in routes && Matches(req, a)
    requires WellFormed(a.matcher) && WellFormed(b.matcher)
    requires a.matcher.host == b.matcher.host && Narrower(a.matcher, b.matcher)
    ensures FirstMatch(req, routes) != Some(b)
  {
    FirstIsMostSpecific(req, routes, a);
    NarrowerIsMoreSpecific(a.matcher, b.matcher);
    SpecificityOrder(a.matcher, b.matcher, a.matcher);
  }

  /** A route for a host is never shadowed by one for every host. */
  lemma HostedWins(req: Request, routes: seq<Route>, a: Route, b: Route)
    requires Sorted(routes) && Unprioritized(routes) && a in routes && Matches(req, a)
    requires a.matcher.host != "" && b.matcher.host == ""
    ensures FirstMatch(req, routes) != Some(b)
  {
    FirstIsMostSpecific(req, routes, a);
    HostIsMoreSpecific(a.matcher, b.matcher);
    SpecificityOrder(a.matcher, b.matcher, a.matcher);
  }

  ghost predicate Prioritized(routes: seq<Route>) { forall r :: r in routes ==> r.matcher.priorityOrder }

  /** With priorities, no matching route has a higher one than the route served, and of those
      with the same priority none is more specific. */
  lemma HighestPriorityWins(req: Request, routes: seq<Route>, x: Route)
    requires Sorted(routes) && Prioritized(routes) && x in routes && Matches(req, x)
    ensures FirstMatch(req, routes).Some?
    ensures var r := FirstMatch(req, routes).value;
            && r.matcher.priority >= x.matcher.priority
            && (r.matcher.priority == x.matcher.priority ==> CompareSpecificity(r.matcher, x.matcher) >= 0)
  {
    FirstIsBest(req, routes, x);
    var r := FirstMatch(req, routes).value;
    SpecificityOrder(x.matcher, r.matcher, x.matcher);
  }

  /** Among equally specific matches the one served is spelt first: by host, then path, then
      service. */
  lemma FirstSpellingWins(req: Request, routes: seq<Route>, x: Route)
    requires Sorted(routes) && Unprioritized(routes) && x in routes && Matches(req, x)
    ensures FirstMatch(req, routes).Some?
    ensures var r := FirstMatch(req, routes).value;
            CompareSpecificity(r.matcher, x.matcher) == 0 ==>
              if r.matcher.host != x.matcher.host then Less(r.matcher.host, x.matcher.host)
              else if r.matcher.path != x.matcher.path then Less(r.matcher.path, x.matcher.path)
              else r.service == x.service || Less(r.service, x.service)
  {
    FirstIsBest(req, routes, x);
    var r := FirstMatch(req, routes).value;
    SpecificityOrder(x.matcher, r.matcher, x.matcher);
    SpecificityOrder(r.matcher, x.matcher, r.matcher);
    LessConnected(r.matcher.host, x.matcher.host);
    LessConnected(r.matcher.path, x.matcher.path);
    LessConnected(r.service, x.service);
  }

  lemma {:induction false} NoMatch(req: Request, routes: seq<Route>)
    ensures FirstMatch(req, routes).None? <==> forall x :: x in routes ==> !Matches(req, x)
    ensures FirstMatch(req, routes).Some? ==> FirstMatch(req, routes).value in routes && Matches(req, FirstMatch(req, routes).value)
  {
    if routes != [] {
      NoMatch(req, routes[1..]);
      assert routes == [routes[0]] + routes[1..];
    }
  }

  // ---------- Dispatch ----------

  datatype Table = Table(routes: seq<Route>, rejections: seq<Route>, quarantines: seq<Route>, tombstones: seq<Route>)

  ghost predicate Unprioritized(routes: seq<Route>) { forall r :: r in routes ==> !r.matcher.priorityOrder }

  ghost predicate Built(t: Table) {
    && Sorted(t.routes) && Sorted(t.rejections) && Sorted(t.quarantines) && Sorted(t.tombstones)
    && Unprioritized(t.routes) && Unprioritized(t.rejections)
  }

  /** Sorting the four lists makes such a table. */
  lemma SortBuilds(t: Table)
    requires Unprioritized(t.routes) && Unprioritized(t.rejections) && Unprioritized(t.quarantines) && Unprioritized(t.tombstones)
    ensures Built(Table(SortRoutes(t.routes), SortRoutes(t.rejections), SortRoutes(t.quarantines), SortRoutes(t.tombstones)))
  {
    SortSorted(t.routes);
    SortSorted(t.rejections);
    SortSorted(t.quarantines);
    SortSorted(t.tombstones);
    SortMembers(t.routes);
    SortMembers(t.rejections);
    SameMembers(t.routes, SortRoutes(t.routes));
    SameMembers(t.rejections, SortRoutes(t.rejections));
  }

  ghost predicate Unquarantined(t: Table, req: Request) { forall q :: q in t.quarantines ==> !Matches(req, q) }

  predicate SameTraffic(a: Matcher, b: Matcher) {
    a.host == b.host && a.hostKind == b.hostKind && a.path == b.path && a.pathKind == b.pathKind && a.limits == b.limits
  }

  method FindSameService(routes: seq<Route>, req: Request, quarantine: Route) returns (r: Option<Route>)
    ensures r.Some? ==> r.value in routes && Matches(req, r.value) && r.value.service == quarantine.service
    ensures r.Some? ==> SameTraffic(r.value.matcher, quarantine.matcher)
    ensures r.None? ==> forall x :: x in routes && Matches(req, x) && x.service == quarantine.service ==> !SameTraffic(x.matcher, quarantine.matcher)
  {
    var i := 0;
    while i < |routes|
      invariant 0 <= i <= |routes|
      invariant forall j :: 0 <= j < i && Matches(req, routes[j]) && routes[j].service == quarantine.service ==>
                  !SameTraffic(routes[j].matcher, quarantine.matcher)
    {
      var x := routes[i];
      if x.service == quarantine.service && SameTraffic(x.matcher, quarantine.matcher) {
        var found, _ := FindCompiledRoute([x], req);
        if found.Some? {
          return Some(x);
        }
      }
      i := i + 1;
    }
    r := None;
  }

  /** The serving route or the quarantine that stands in its way. */
  method FindDynamicCandidate(t: Table, req: Request) returns (route: Option<Route>, quarantined: bool)
    ensures quarantined ==> route.Some? && route.value in t.quarantines && Matches(req, route.value)
    ensures !quarantined && route.Some? ==> route.value in t.routes && Matches(req, route.value)
    ensures route.None? ==> FirstMatch(req, t.routes).None? && Unquarantined(t, req)
    ensures Unquarantined(t, req) ==> route == FirstMatch(req, t.routes) && !quarantined
  {
    var first, _ := FindCompiledRoute(t.routes, req);
    NoMatch(req, t.routes);
    NoMatch(req, t.quarantines);
    if first.None? {
      var q, _ := FindCompiledRoute(t.quarantines, req);
      return q, q.Some?;
    }
    var current := first.value;
    var i := 0;
    while i < |t.quarantines|
      invariant 0 <= i <= |t.quarantines| && current in t.routes && Matches(req, current)
      invariant Unquarantined(t, req) ==> current == first.value
    {
      var q := t.quarantines[i];
      i := i + 1;
      var hit, _ := FindCompiledRoute([q], req);
      if hit.None? {
        continue;
      }
      assert Matches(req, q);
      if SameTraffic(current.matcher, q.matcher) {
        var same := FindSameService(t.routes, req, q);
        if same.None? {
          return Some(q), true;
        }
        current := same.value;
        continue;
      }
      if Precedes(q, current) {
        return Some(q), true;
      }
      break;
    }
    return Some(current), false;
  }

  method FindDynamicHandler(t: Table, req: Request) returns (r: Option<Route>)
    ensures Unquarantined(t, req) ==> r == Dispatched(t, req)
  {
    var route, quarantined := FindDynamicCandidate(t, req);
    if route.None? {
      var rejected, _ := FindCompiledRoute(t.rejections, req);
      if rejected.Some? {
        return rejected;
      }
      var refused, _ := FindCompiledRoute(t.tombstones, req);
      return refused;
    }
    if quarantined {
      return route;
    }
    var rejected, _ := FindCompiledRoute(t.rejections, req);
    if rejected.Some? && CompareSpecificity(rejected.value.matcher, route.value.matcher) >= 0 {
      return rejected;
    }
    return route;
  }

  /** The outcome when no quarantine matches. */
  function Dispatched(t: Table, req: Request): Option<Route> {
    var route, rejected := FirstMatch(req, t.routes), FirstMatch(req, t.rejections);
    if route.None? then (if rejected.Some? then rejected else FirstMatch(req, t.tombstones))
    else if rejected.Some? && CompareSpecificity(rejected.value.matcher, route.value.matcher) >= 0 then rejected
    else route
  }

  /** Strictly more specific than every rejection that matches. */
  ghost predicate BeatsRejections(t: Table, req: Request, r: Route) {
    forall x :: x in t.rejections && Matches(req, x) ==> CompareSpecificity(r.matcher, x.matcher) > 0
  }

  /** A route serves exactly when it is the first matching route and beats every
      matching rejection; otherwise the most specific rejection answers, and a
      tombstone only when neither a route nor a rejection matches. */
  lemma DispatchIsBestMatch(t: Table, req: Request)
    requires Built(t)
    ensures var r, j := FirstMatch(req, t.routes), FirstMatch(req, t.rejections);
            && (r.Some? && BeatsRejections(t, req, r.value) ==> Dispatched(t, req) == r)
            && (r.Some? && !BeatsRejections(t, req, r.value) ==> j.Some? && Dispatched(t, req) == j)
            && (r.None? && j.Some? ==> Dispatched(t, req) == j)
            && (r.None? && j.None? ==> Dispatched(t, req) == FirstMatch(req, t.tombstones))
  {
    var r, j := FirstMatch(req, t.routes), FirstMatch(req, t.rejections);
    NoMatch(req, t.rejections);
    if r.Some? && j.Some? {
      SpecificityOrder(r.value.matcher, j.value.matcher, r.value.matcher);
      if !BeatsRejections(t, req, r.value) {
        var x :| x in t.rejections && Matches(req, x) && CompareSpecificity(r.value.matcher, x.matcher) <= 0;
        FirstIsMostSpecific(req, t.rejections, x);
        SpecificityOrder(x.matcher, r.value.matcher, x.matcher);
        SpecificityOrder(j.value.matcher, x.matcher, r.value.matcher);
        SpecificityOrder(r.value.matcher, x.matcher, r.value.matcher);
      }
    }
  }
}
