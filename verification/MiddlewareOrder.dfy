/** Nested middleware groups, some of them bound to named listeners, and the check that
    every listener's flattened chain is well ordered. */
module MiddlewareOrder {

  /** What the order of a chain depends on. Header names are folded; `from` is the request
      header a request ID is taken from. */
  datatype Kind =
    | InOrder
    | OnListeners
    | Compress(algorithms: nat)
    | EncodeResponse
    | ResponseHeader(name: string)
    | RequestHeader(name: string)
    | RequestId(output: string, from: string)
    | Cache(ttl: int)
    | AddressPolicy
    | BasicAuth
    | Other(kind: nat)

  datatype Middleware = Middleware(kind: Kind, group: seq<Middleware>, listeners: seq<string>)

  type Chain = seq<Middleware>

  /** What one middleware contributes to the chain of listener `name`. */
  function Flattened(m: Middleware, name: string): Chain {
    if m.kind == OnListeners && name !in m.listeners then []
    else if m.kind == InOrder || m.kind == OnListeners then ForListener(m.group, name)
    else [m]
  }

  /** The chain that requests of listener `name` pass. */
  function ForListener(mws: seq<Middleware>, name: string): Chain {
    if mws == [] then [] else Flattened(mws[0], name) + ForListener(mws[1..], name)
  }

  method MiddlewareForListener(mws: seq<Middleware>, name: string) returns (out: Chain)
    ensures out == ForListener(mws, name)
    decreases mws
  {
    out := [];
    var i := 0;
    while i < |mws|
      invariant 0 <= i <= |mws| && out + ForListener(mws[i..], name) == ForListener(mws, name)
    {
      var m := mws[i];
      assert mws[i..][1..] == mws[i + 1..];
      if m.kind == OnListeners && name !in m.listeners {
      } else if m.kind == InOrder || m.kind == OnListeners {
        var inner := MiddlewareForListener(m.group, name);
        out := out + inner;
      } else {
        out := out + [m];
      }
      i := i + 1;
    }
  }

  /** Every listener name mentioned anywhere in the tree. */
  function Mentioned(mws: seq<Middleware>): set<string> {
    if mws == [] then {}
    else (set n | n in mws[0].listeners) + Mentioned(mws[0].group) + Mentioned(mws[1..])
  }

  method CollectNames(mws: seq<Middleware>) returns (names: set<string>)
    ensures names == Mentioned(mws)
    decreases mws
  {
    names := {};
    var i := 0;
    while i < |mws|
      invariant 0 <= i <= |mws| && names + Mentioned(mws[i..]) == Mentioned(mws)
    {
      assert mws[i..][1..] == mws[i + 1..];
      var inner := CollectNames(mws[i].group);
      names := names + (set n | n in mws[i].listeners) + inner;
      i := i + 1;
    }
  }

  // ---------- What a chain holds ----------

  /** A leaf of the tree with the listener groups it lies in, outermost first. */
  datatype Placed = Placed(leaf: Middleware, groups: seq<seq<string>>)

  /** All leaves in tree order, whatever the listener. */
  ghost function Leaves(mws: seq<Middleware>, groups: seq<seq<string>>): seq<Placed> {
    if mws == [] then [] else LeavesOf(mws[0], groups) + Leaves(mws[1..], groups)
  }

  ghost function LeavesOf(m: Middleware, groups: seq<seq<string>>): seq<Placed> {
    match m.kind
    case OnListeners => Leaves(m.group, groups + [m.listeners])
    case InOrder => Leaves(m.group, groups)
    case _ => [Placed(m, groups)]
  }

  /** Every listener group around the leaf names `name`. */
  ghost predicate Serves(groups: seq<seq<string>>, name: string) { forall i :: 0 <= i < |groups| ==> name in groups[i] }

  ghost function Kept(ps: seq<Placed>, name: string): Chain {
    if ps == [] then [] else KeptOne(ps[0], name) + Kept(ps[1..], name)
  }

  ghost function KeptOne(p: Placed, name: string): Chain { if Serves(p.groups, name) then [p.leaf] else [] }

  lemma {:induction false} KeptConcat(a: seq<Placed>, b: seq<Placed>, name: string)
    ensures Kept(a + b, name) == Kept(a, name) + Kept(b, name)
  {
    if a == [] {
      assert a + b == b;
    } else {
      assert (a + b)[1..] == a[1..] + b;
      KeptConcat(a[1..], b, name);
      Regroup(KeptOne(a[0], name), Kept(a[1..], name), Kept(b, name));
    }
  }

  lemma Regroup(a: Chain, b: Chain, c: Chain)
    ensures a + (b + c) == (a + b) + c
  {
  }

  lemma {:induction false} ChainOfLeaves(mws: seq<Middleware>, groups: seq<seq<string>>, name: string)
    ensures Kept(Leaves(mws, groups), name) == if Serves(groups, name) then ForListener(mws, name) else []
    decreases mws
  {
    if mws != [] {
      ChainOfLeaves(mws[1..], groups, name);
      ChainOfLeaf(mws[0], groups, name);
      KeptConcat(LeavesOf(mws[0], groups), Leaves(mws[1..], groups), name);
    }
  }

  lemma {:induction false} ChainOfLeaf(m: Middleware, groups: seq<seq<string>>, name: string)
    ensures Kept(LeavesOf(m, groups), name) == if Serves(groups, name) then Flattened(m, name) else []
    decreases m
  {
    match m.kind
    case OnListeners =>
      ChainOfLeaves(m.group, groups + [m.listeners], name);
      OneGroupMore(groups, m.listeners, name);
    case InOrder => ChainOfLeaves(m.group, groups, name);
    case _ => assert [Placed(m, groups)][1..] == [];
  }

  lemma OneGroupMore(groups: seq<seq<string>>, listeners: seq<string>, name: string)
    ensures Serves(groups + [listeners], name) <==> Serves(groups, name) && name in listeners
  {
    assert Serves(groups + [listeners], name) ==> name in (groups + [listeners])[|groups|];
    assert Serves(groups + [listeners], name) ==> forall i :: 0 <= i < |groups| ==> (groups + [listeners])[i] == groups[i];
  }

  /** A listener's chain is the leaves of the tree, in tree order, that lie in no listener
      group without its name. */
  lemma ChainIsItsLeaves(mws: seq<Middleware>, name: string)
    ensures ForListener(mws, name) == Kept(Leaves(mws, []), name)
  {
    ChainOfLeaves(mws, [], name);
  }

  // ---------- The four rules ----------

  const CONTENT_ENCODING := "content-encoding"
  const AUTHORIZATION := "authorization"

  predicate Compresses(m: Middleware) {
    (m.kind.Compress? && m.kind.algorithms != 0) || m.kind.EncodeResponse?
  }

  predicate WritesEncoding(m: Middleware) {
    || (m.kind.ResponseHeader? && m.kind.name == CONTENT_ENCODING)
    || (m.kind.RequestId? && m.kind.output == CONTENT_ENCODING)
  }

  /** Who compresses owns the content coding. */
  ghost predicate RepresentationOk(c: Chain) {
    forall i, j :: 0 <= i < |c| && 0 <= j < |c| ==> !(Compresses(c[i]) && WritesEncoding(c[j]))
  }

  predicate Caches(m: Middleware) { m.kind.Cache? && m.kind.ttl > 0 }

  predicate PrecedesCache(m: Middleware) { m.kind.AddressPolicy? || m.kind.RequestId? }

  /** Address policies and request IDs come before every enabled cache. */
  ghost predicate CacheOrderOk(c: Chain) {
    forall i, j :: 0 <= i < j < |c| ==> !(Caches(c[i]) && PrecedesCache(c[j]))
  }

  /** One request ID, in a header it may use. */
  ghost predicate OwnershipOk(c: Chain, permitted: string -> bool) {
    && (forall i :: 0 <= i < |c| && c[i].kind.RequestId? ==> permitted(c[i].kind.output))
    && (forall i, j :: 0 <= i < j < |c| ==> !(c[i].kind.RequestId? && c[j].kind.RequestId?))
  }

  /** The request header a middleware turns into credentials, if any. */
  function MappedInput(m: Middleware): string {
    if m.kind.RequestId? && m.kind.output == AUTHORIZATION then m.kind.from else ""
  }

  predicate Supplies(m: Middleware, h: Middleware) {
    h.kind.RequestHeader? && MappedInput(m) != "" && h.kind.name == MappedInput(m)
  }

  predicate WritesCredentials(m: Middleware) { m.kind.RequestHeader? && m.kind.name == AUTHORIZATION }

  /** No header operation supplies what basic authentication verifies, directly or
      through a request ID mapped in front of it. */
  ghost predicate CredentialsOk(c: Chain) {
    && (forall a, h :: 0 <= a < |c| && 0 <= h < |c| ==> !(c[a].kind.BasicAuth? && WritesCredentials(c[h])))
    && (forall k, a, h :: 0 <= k < a < |c| && 0 <= h < |c| ==> !(c[a].kind.BasicAuth? && Supplies(c[k], c[h])))
  }

  ghost predicate Passes(c: Chain, permitted: string -> bool) {
    RepresentationOk(c) && CacheOrderOk(c) && OwnershipOk(c, permitted) && CredentialsOk(c)
  }

  /** The rules spelt out over the kinds. */
  lemma RulesOverKinds(c: Chain)
    ensures RepresentationOk(c) <==>
            ((exists i :: 0 <= i < |c| && (c[i].kind.EncodeResponse? || (c[i].kind.Compress? && c[i].kind.algorithms > 0))) ==>
               forall j :: 0 <= j < |c| ==>
                 && (c[j].kind.ResponseHeader? ==> c[j].kind.name != "content-encoding")
                 && (c[j].kind.RequestId? ==> c[j].kind.output != "content-encoding"))
    ensures CacheOrderOk(c) <==>
            forall i, j :: 0 <= i < j < |c| && c[i].kind.Cache? && c[i].kind.ttl > 0 ==>
              !c[j].kind.AddressPolicy? && !c[j].kind.RequestId?
    ensures CredentialsOk(c) <==>
            forall a, h :: 0 <= a < |c| && 0 <= h < |c| && c[a].kind.BasicAuth? && c[h].kind.RequestHeader? ==>
              && c[h].kind.name != "authorization"
              && forall k :: 0 <= k < a && c[k].kind.RequestId? && c[k].kind.output == "authorization" && c[k].kind.from != "" ==>
                   c[k].kind.from != c[h].kind.name
  {
    RepresentationOverKinds(c);
    CredentialsOverKinds(c);
  }

  lemma RepresentationOverKinds(c: Chain)
    ensures RepresentationOk(c) <==>
            ((exists i :: 0 <= i < |c| && (c[i].kind.EncodeResponse? || (c[i].kind.Compress? && c[i].kind.algorithms > 0))) ==>
               forall j :: 0 <= j < |c| ==>
                 && (c[j].kind.ResponseHeader? ==> c[j].kind.name != "content-encoding")
                 && (c[j].kind.RequestId? ==> c[j].kind.output != "content-encoding"))
  {
    assert forall i :: 0 <= i < |c| ==>
        (Compresses(c[i]) <==> c[i].kind.EncodeResponse? || (c[i].kind.Compress? && c[i].kind.algorithms > 0));
  }

  lemma CredentialsOverKinds(c: Chain)
    ensures CredentialsOk(c) <==>
            forall a, h :: 0 <= a < |c| && 0 <= h < |c| && c[a].kind.BasicAuth? && c[h].kind.RequestHeader? ==>
              && c[h].kind.name != "authorization"
              && forall k :: 0 <= k < a && c[k].kind.RequestId? && c[k].kind.output == "authorization" && c[k].kind.from != "" ==>
                   c[k].kind.from != c[h].kind.name
  {
    assert forall h :: 0 <= h < |c| ==> (WritesCredentials(c[h]) <==> c[h].kind.RequestHeader? && c[h].kind.name == "authorization");
    assert forall k, h :: 0 <= k < |c| && 0 <= h < |c| ==>
        (Supplies(c[k], c[h]) <==> c[h].kind.RequestHeader? && c[k].kind.RequestId? && c[k].kind.output == "authorization" &&
                                   c[k].kind.from != "" && c[k].kind.from == c[h].kind.name);
  }

  method ValidateRepresentation(c: Chain) returns (ok: bool)
    ensures ok <==> RepresentationOk(c)
  {
    var compresses := exists i :: 0 <= i < |c| && Compresses(c[i]);
    if !compresses {
      return true;
    }
    ghost var k :| 0 <= k < |c| && Compresses(c[k]);
    var i := 0;
    while i < |c|
      invariant 0 <= i <= |c| && forall j :: 0 <= j < i ==> !WritesEncoding(c[j])
    {
      if WritesEncoding(c[i]) {
        return false;
      }
      i := i + 1;
    }
    ok := true;
  }

  method ValidateCacheOrder(c: Chain) returns (ok: bool)
    ensures ok <==> CacheOrderOk(c)
  {
    var cacheIndex := -1;
    var i := 0;
    while i < |c|
      invariant 0 <= i <= |c| && -1 <= cacheIndex < i
      invariant cacheIndex < 0 ==> forall j :: 0 <= j < i ==> !Caches(c[j])
      invariant cacheIndex >= 0 ==> Caches(c[cacheIndex]) && forall j :: 0 <= j < cacheIndex ==> !Caches(c[j])
      invariant cacheIndex >= 0 ==> forall j :: cacheIndex <= j < i ==> !PrecedesCache(c[j])
    {
      if Caches(c[i]) && cacheIndex < 0 {
        cacheIndex := i;
      }
      if cacheIndex >= 0 && PrecedesCache(c[i]) {
        return false;
      }
      i := i + 1;
    }
    ok := true;
  }

  method ValidateOwnership(c: Chain, permitted: string -> bool) returns (ok: bool)
    ensures ok <==> OwnershipOk(c, permitted)
  {
    var owner := -1;
    var i := 0;
    while i < |c|
      invariant 0 <= i <= |c| && -1 <= owner < i && (owner >= 0 ==> c[owner].kind.RequestId?)
      invariant forall j :: 0 <= j < i && c[j].kind.RequestId? ==> j == owner && permitted(c[j].kind.output)
    {
      if c[i].kind.RequestId? {
        if !permitted(c[i].kind.output) || owner >= 0 {
          return false;
        }
        owner := i;
      }
      i := i + 1;
    }
    ok := true;
  }

  method ValidateCredentials(c: Chain) returns (ok: bool)
    ensures ok <==> CredentialsOk(c)
  {
    var lastAuth := -1;
    var i := 0;
    while i < |c|
      invariant 0 <= i <= |c| && -1 <= lastAuth < i && (lastAuth >= 0 ==> c[lastAuth].kind.BasicAuth?)
      invariant forall j :: lastAuth < j < i ==> !c[j].kind.BasicAuth?
    {
      if c[i].kind.BasicAuth? {
        lastAuth := i;
      }
      i := i + 1;
    }
    if lastAuth < 0 {
      return true;
    }
    var inputs := CollectInputs(c, lastAuth);
    i := 0;
    while i < |c|
      invariant 0 <= i <= |c| && forall j :: 0 <= j < i && c[j].kind.RequestHeader? ==> c[j].kind.name !in inputs
    {
      if c[i].kind.RequestHeader? && c[i].kind.name in inputs {
        return false;
      }
      i := i + 1;
    }
    ok := true;
  }

  /** The request headers whose value may end up as credentials. */
  method CollectInputs(c: Chain, n: nat) returns (inputs: set<string>)
    requires n <= |c|
    ensures forall x :: x in inputs <==> x == AUTHORIZATION || exists k :: 0 <= k < n && MappedInput(c[k]) != "" && MappedInput(c[k]) == x
  {
    inputs := {AUTHORIZATION};
    var k := 0;
    while k < n
      invariant 0 <= k <= n
      invariant forall x :: x in inputs <==> x == AUTHORIZATION || exists j :: 0 <= j < k && MappedInput(c[j]) != "" && MappedInput(c[j]) == x
    {
      var input := MappedInput(c[k]);
      if input != "" {
        inputs := inputs + {input};
      }
      k := k + 1;
    }
  }

  // ---------- The check ----------

  /** The names whose chains are checked. */
  ghost function Checked(mws: seq<Middleware>): set<string> { Mentioned(mws) + {""} }

  ghost predicate Accepted(mws: seq<Middleware>, permitted: string -> bool) {
    forall n :: n in Checked(mws) ==> Passes(ForListener(mws, n), permitted)
  }

  method ValidateChain(c: Chain, permitted: string -> bool) returns (ok: bool)
    ensures ok <==> Passes(c, permitted)
  {
    ok := ValidateRepresentation(c);
    if ok {
      ok := ValidateCacheOrder(c);
    }
    if ok {
      ok := ValidateOwnership(c, permitted);
    }
    if ok {
      ok := ValidateCredentials(c);
    }
  }

  method ValidateResolvedMiddlewares(mws: seq<Middleware>, permitted: string -> bool) returns (ok: bool)
    ensures ok <==> Accepted(mws, permitted)
  {
    var names := CollectNames(mws);
    var left := names + {""};
    while left != {}
      invariant left <= Checked(mws)
      invariant forall n :: n in Checked(mws) && n !in left ==> Passes(ForListener(mws, n), permitted)
      decreases |left|
    {
      var name :| name in left;
      var chain := MiddlewareForListener(mws, name);
      ok := ValidateChain(chain, permitted);
      if !ok {
        return;
      }
      left := left - {name};
    }
    ok := true;
  }

  // ---------- Leaving elements out ----------

  /** `a` is `b` with some elements left out. */
  ghost predicate Within(a: Chain, b: Chain) {
    a == [] || (b != [] && ((a[0] == b[0] && Within(a[1..], b[1..])) || Within(a, b[1..])))
  }

  lemma {:induction false} WithinSelf(a: Chain)
    ensures Within(a, a)
  {
    if a != [] {
      WithinSelf(a[1..]);
    }
  }

  lemma {:induction false} WithinAfter(a: Chain, b: Chain, c: Chain)
    requires Within(a, c)
    ensures Within(a, b + c)
  {
    if b == [] {
      assert b + c == c;
    } else {
      WithinAfter(a, b[1..], c);
      assert (b + c)[1..] == b[1..] + c;
    }
  }

  lemma {:induction false} WithinBoth(a: Chain, b: Chain, c: Chain, d: Chain)
    requires Within(a, b) && Within(c, d)
    ensures Within(a + c, b + d)
  {
    if a == [] {
      assert a + c == c;
      WithinAfter(c, b, d);
    } else {
      assert (b + d)[1..] == b[1..] + d;
      assert (a + c)[1..] == a[1..] + c;
      if a[0] == b[0] && Within(a[1..], b[1..]) {
        WithinBoth(a[1..], b[1..], c, d);
      } else {
        WithinBoth(a, b[1..], c, d);
      }
    }
  }

  /** Positions of `b` that hold two given elements of `a`, in the same order. */
  lemma {:induction false} WithinAt(a: Chain, b: Chain, i: nat, j: nat) returns (x: nat, y: nat)
    requires Within(a, b) && i <= j < |a|
    ensures x <= y < |b| && a[i] == b[x] && a[j] == b[y] && (i < j ==> x < y)
    decreases |b|
  {
    if a[0] == b[0] && Within(a[1..], b[1..]) {
      if j == 0 {
        x, y := 0, 0;
      } else {
        x, y := WithinAt(a[1..], b[1..], if i == 0 then 0 else i - 1, j - 1);
        x, y := if i == 0 then 0 else x + 1, y + 1;
      }
    } else {
      x, y := WithinAt(a, b[1..], i, j);
      x, y := x + 1, y + 1;
    }
  }

  /** Every rule forbids elements or pairs of them, so it holds of every part of a chain
      it holds of. */
  lemma PassesWithin(a: Chain, b: Chain, permitted: string -> bool)
    requires Within(a, b) && Passes(b, permitted)
    ensures Passes(a, permitted)
  {
    forall i, j | 0 <= i < |a| && 0 <= j < |a|
      ensures !(Compresses(a[i]) && WritesEncoding(a[j])) && !(a[i].kind.BasicAuth? && WritesCredentials(a[j]))
      ensures i < j ==> !(Caches(a[i]) && PrecedesCache(a[j])) && !(a[i].kind.RequestId? && a[j].kind.RequestId?)
      ensures a[i].kind.RequestId? ==> permitted(a[i].kind.output)
    {
      var x, y := WithinAt(a, b, if i < j then i else j, if i < j then j else i);
    }
    forall k, n, h | 0 <= k < n < |a| && 0 <= h < |a|
      ensures !(a[n].kind.BasicAuth? && Supplies(a[k], a[h]))
    {
      var x, y := WithinAt(a, b, k, n);
      var z, _ := WithinAt(a, b, h, h);
    }
  }

  // ---------- Is it enough? ----------

  /** Listeners nobody mentions all get the same chain. */
  lemma {:induction false} UnmentionedAlike(mws: seq<Middleware>, a: string, b: string)
    requires a !in Mentioned(mws) && b !in Mentioned(mws)
    ensures ForListener(mws, a) == ForListener(mws, b)
    decreases mws
  {
    if mws != [] {
      UnmentionedAlike(mws[0].group, a, b);
      UnmentionedAlike(mws[1..], a, b);
    }
  }

  /** A listener nobody mentions gets a part of every other listener's chain. */
  lemma {:induction false} UnmentionedWithin(mws: seq<Middleware>, a: string, b: string)
    requires a !in Mentioned(mws)
    ensures Within(ForListener(mws, a), ForListener(mws, b))
    decreases mws
  {
    if mws != [] {
      UnmentionedWithin(mws[0].group, a, b);
      UnmentionedWithin(mws[1..], a, b);
      var m := mws[0];
      if !(m.kind == InOrder || m.kind == OnListeners) {
        WithinSelf([m]);
      }
      WithinBoth(Flattened(m, a), Flattened(m, b), ForListener(mws[1..], a), ForListener(mws[1..], b));
    }
  }

  /** Checking the mentioned names and the empty one is enough: an accepted tree is well
      ordered for every listener name there is. */
  lemma AcceptedIsComplete(mws: seq<Middleware>, permitted: string -> bool, name: string)
    requires Accepted(mws, permitted)
    ensures Passes(ForListener(mws, name), permitted)
  {
    if name !in Mentioned(mws) {
      assert "" in Checked(mws);
      UnmentionedWithin(mws, name, "");
      PassesWithin(ForListener(mws, name), ForListener(mws, ""), permitted);
    }
  }
}
