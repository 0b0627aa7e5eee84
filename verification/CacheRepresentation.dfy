/** How a stored response is told apart from other variants of the same key
    (section 4.1 of RFC 9111). */
module CacheRepresentation {
  import opened Basics

  /** Header fields by case-folded name. */
  type Header = map<string, seq<string>>

  datatype CacheKey = CacheKey(verb: string, host: string, target: string, originalURI: string,
                               scheme: string, propagationFields: string, listener: string, tls: bool)

  datatype VaryField = VaryField(name: string, values: seq<string>, present: bool)

  /** One stored representation, as the index sees it. */
  datatype Variant = Variant(key: CacheKey, vary: seq<VaryField>)

  /** The propagation policy of a native request; `fields` are its injected names. */
  datatype Policy = Policy(unsafe: bool, fields: set<string>)

  const FORWARDED_FIELDS: set<string> :=
    {"forwarded", "x-forwarded-for", "x-forwarded-host", "x-forwarded-proto"}

  function HeaderField(h: Header, name: string): VaryField {
    if name in h then VaryField(name, h[name], true) else VaryField(name, [], false)
  }

  function Snapshot(h: Header, names: seq<string>): seq<VaryField> {
    seq(|names|, i requires 0 <= i < |names| => HeaderField(h, names[i]))
  }

  function Names(vary: seq<VaryField>): seq<string> {
    seq(|vary|, i requires 0 <= i < |vary| => vary[i].name)
  }

  predicate Matches(vary: seq<VaryField>, h: Header) {
    forall i :: 0 <= i < |vary| ==> vary[i] == HeaderField(h, vary[i].name)
  }

  predicate ForbidsField(p: Policy, name: string) {
    name in FORWARDED_FIELDS || name in p.fields
  }

  predicate AllowsNames(p: Option<Policy>, names: seq<string>) {
    p.None? || (!p.value.unsafe && forall i :: 0 <= i < |names| ==> !ForbidsField(p.value, names[i]))
  }

  /** A native request may be answered from a response only if nothing it varies by is a
      forwarding header or one the proxy itself injects. */
  lemma AllowsMeans(p: Option<Policy>, names: seq<string>)
    ensures AllowsNames(p, names) <==>
            p.Some? ==>
              && !p.value.unsafe
              && forall n :: n in names ==>
                   && n !in p.value.fields && n != "forwarded"
                   && n != "x-forwarded-for" && n != "x-forwarded-host" && n != "x-forwarded-proto"
  {
    assert forall i :: 0 <= i < |names| ==> names[i] in names;
  }

  /** A stored selection matches a request exactly when it is the selection the
      request itself would store under the same names. */
  lemma MatchesIsSnapshot(vary: seq<VaryField>, h: Header)
    ensures Matches(vary, h) <==> vary == Snapshot(h, Names(vary))
  {
    var s := Snapshot(h, Names(vary));
    if vary == s {
      forall i | 0 <= i < |vary|
        ensures vary[i] == HeaderField(h, vary[i].name)
      {
        assert vary[i] == s[i];
      }
    }
  }

  lemma SnapshotNames(h: Header, names: seq<string>)
    ensures Names(Snapshot(h, names)) == names
    ensures Matches(Snapshot(h, names), h)
  {
  }

  /** Two requests carry the same values, or both none, under every one of the names. */
  predicate Agree(g: Header, h: Header, names: seq<string>) {
    forall i :: 0 <= i < |names| ==>
      (names[i] in g <==> names[i] in h) && (names[i] in g ==> g[names[i]] == h[names[i]])
  }

  /** What one request stores matches another exactly when the two agree on the names. */
  lemma MatchesIffAgree(g: Header, h: Header, names: seq<string>)
    ensures Matches(Snapshot(g, names), h) <==> Agree(g, h, names)
  {
    var vary := Snapshot(g, names);
    if Matches(vary, h) {
      forall i | 0 <= i < |names|
        ensures (names[i] in g <==> names[i] in h) && (names[i] in g ==> g[names[i]] == h[names[i]])
      {
        assert vary[i] == HeaderField(h, vary[i].name);
      }
    }
  }

  /** Variants of one key share their Vary names and differ in some value. */
  ghost predicate Distinguished(vs: seq<Variant>) {
    forall i, j :: 0 <= i < j < |vs| && vs[i].key == vs[j].key ==>
      Names(vs[i].vary) == Names(vs[j].vary) && vs[i].vary != vs[j].vary
  }

  predicate Selects(v: Variant, key: CacheKey, h: Header, p: Option<Policy>) {
    v.key == key && AllowsNames(p, Names(v.vary)) && Matches(v.vary, h)
  }

  /** The linear scan: the first stored variant the request selects. */
  ghost function FirstMatch(vs: seq<Variant>, key: CacheKey, h: Header, p: Option<Policy>): (r: Option<nat>)
    ensures r.Some? ==> r.value < |vs| && Selects(vs[r.value], key, h, p)
    ensures r.None? ==> forall i :: 0 <= i < |vs| ==> !Selects(vs[i], key, h, p)
  {
    if vs == [] then None
    else if Selects(vs[0], key, h, p) then Some(0)
    else
      var rest := FirstMatch(vs[1..], key, h, p);
      assert forall i :: 1 <= i < |vs| ==> vs[i] == vs[1..][i - 1];
      if rest.None? then None else Some(rest.value + 1)
  }

  lemma {:induction false} FirstMatchIs(vs: seq<Variant>, i: nat, key: CacheKey, h: Header, p: Option<Policy>)
    requires i < |vs| && Selects(vs[i], key, h, p)
    requires forall k :: 0 <= k < i ==> !Selects(vs[k], key, h, p)
    ensures FirstMatch(vs, key, h, p) == Some(i)
  {
    if i > 0 {
      assert vs[1..][i - 1] == vs[i];
      FirstMatchIs(vs[1..], i - 1, key, h, p);
    }
  }

  /** The same store as a map from (key, variant values) to list position. */
  ghost function Table(vs: seq<Variant>): (t: map<Variant, nat>)
    requires Distinguished(vs)
    ensures forall i :: 0 <= i < |vs| ==> vs[i] in t && t[vs[i]] == i
    ensures forall v :: v in t ==> t[v] < |vs| && vs[t[v]] == v
  {
    map v | v in vs :: Position(vs, v)
  }

  ghost function Position(vs: seq<Variant>, v: Variant): (i: nat)
    requires v in vs
    ensures i < |vs| && vs[i] == v
  {
    var i :| 0 <= i < |vs| && vs[i] == v;
    i
  }

  /** The Vary names under which `key` is currently stored. */
  ghost function NamesFor(vs: seq<Variant>, key: CacheKey): seq<string> {
    if exists i :: 0 <= i < |vs| && vs[i].key == key then
      var i :| 0 <= i < |vs| && vs[i].key == key;
      Names(vs[i].vary)
    else []
  }

  /** Map lookup: compute the request's own variant, then look it up. */
  ghost function Lookup(vs: seq<Variant>, key: CacheKey, h: Header, p: Option<Policy>): Option<nat>
    requires Distinguished(vs)
  {
    var names := NamesFor(vs, key);
    var v := Variant(key, Snapshot(h, names));
    if AllowsNames(p, names) && v in Table(vs) then Some(Table(vs)[v]) else None
  }

  lemma NamesForAt(vs: seq<Variant>, i: nat)
    requires Distinguished(vs) && i < |vs|
    ensures NamesFor(vs, vs[i].key) == Names(vs[i].vary)
  {
  }

  /** What a request selects is exactly its own variant under the stored names. */
  lemma SelectsIsVariant(vs: seq<Variant>, i: nat, key: CacheKey, h: Header, p: Option<Policy>)
    requires Distinguished(vs) && i < |vs|
    ensures var names := NamesFor(vs, key);
            Selects(vs[i], key, h, p) <==>
            AllowsNames(p, names) && vs[i] == Variant(key, Snapshot(h, names))
  {
    if vs[i].key == key {
      NamesForAt(vs, i);
      MatchesIsSnapshot(vs[i].vary, h);
    }
  }

  /** At most one stored variant is selected by any request. */
  lemma AtMostOneSelected(vs: seq<Variant>, key: CacheKey, h: Header, p: Option<Policy>, i: nat, j: nat)
    requires Distinguished(vs) && i < |vs| && j < |vs|
    requires Selects(vs[i], key, h, p) && Selects(vs[j], key, h, p)
    ensures i == j
  {
    SelectsIsVariant(vs, i, key, h, p);
    SelectsIsVariant(vs, j, key, h, p);
  }

  /** The list scan refines the map lookup. */
  lemma ScanIsLookup(vs: seq<Variant>, key: CacheKey, h: Header, p: Option<Policy>)
    requires Distinguished(vs)
    ensures FirstMatch(vs, key, h, p) == Lookup(vs, key, h, p)
  {
    var r := FirstMatch(vs, key, h, p);
    var l := Lookup(vs, key, h, p);
    if r.Some? {
      SelectsIsVariant(vs, r.value, key, h, p);
    }
    if l.Some? {
      SelectsIsVariant(vs, l.value, key, h, p);
    }
  }

  /** Variants that publishing (key, vary) for request `h` removes. */
  predicate Displaced(v: Variant, key: CacheKey, vary: seq<VaryField>, h: Header) {
    v.key == key && (Names(v.vary) != Names(vary) || Matches(v.vary, h))
  }

  /** What survives a publication may sit beside the new variant. */
  lemma SurvivorDiffers(v: Variant, key: CacheKey, names: seq<string>, h: Header)
    requires v.key == key && !Displaced(v, key, Snapshot(h, names), h)
    ensures Names(v.vary) == names && v.vary != Snapshot(h, names)
  {
    SnapshotNames(h, names);
  }
}
