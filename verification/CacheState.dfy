/** The bounded cache as a value: which entries are retained, leased and charged.
    The imperative cache is proved to take exactly these steps. */
module CacheState {
  import opened Basics
  import opened Ledger
  import opened ResponseBuffers
  import opened CacheRepresentation

  const SCRATCH_BYTES: int := 0x8_0000
  const ENTRY_CONTROL_BYTES: int := 512
  const EMPTY_VARIANT := Variant(CacheKey("", "", "", "", "", "", "", false), [])

  /** The bytes a buffer holds. */
  datatype Payload = Payload(bytes: seq<Byte>)

  const EMPTY := Payload([])

  /** What the cache knows of one live entry; `buf` is the identity of its buffer. */
  datatype Item = Item(leases: nat, retained: bool, charge: nat, buf: object?, capacity: nat, body: Payload,
                       variant: Variant, expires: int)

  /** `list` holds the retained entries, oldest first; `live` holds every entry with
      a reference; `open` counts requests holding scratch space. */
  datatype Store<E> = Store(list: seq<E>, live: map<E, Item>, open: nat)

  /** Someone still holds the entry: a lease, or the list. */
  ghost predicate Held(it: Item) { 0 < it.leases || it.retained }

  ghost function Cost(it: Item): int { it.charge + it.capacity }

  ghost function Costs<E>(live: map<E, Item>): map<E, int> {
    map e | e in live :: Cost(live[e])
  }

  /** Bytes the store accounts for: scratch, metadata and body capacity. */
  ghost function Charged<E>(s: Store<E>): int {
    s.open * 0x8_0000 + Total(Costs(s.live))
  }

  ghost predicate Compatible(a: Variant, b: Variant) {
    a.key == b.key ==> Names(a.vary) == Names(b.vary) && a.vary != b.vary
  }

  /** The list is exactly the retained entries, every live entry is held by someone,
      and retained variants of one key are told apart by their values. */
  ghost predicate Inv<E>(s: Store<E>) {
    && Distinct(s.list)
    && (forall e :: e in s.list ==> e in s.live && s.live[e].retained)
    && (forall e {:trigger s.live[e]} :: e in s.live && s.live[e].retained ==> e in s.list)
    && (forall e {:trigger s.live[e]} :: e in s.live ==> Held(s.live[e]))
    && (forall a, b {:trigger Compatible(s.live[a].variant, s.live[b].variant)} ::
          a in s.live && b in s.live && a != b && s.live[a].retained && s.live[b].retained ==>
            Compatible(s.live[a].variant, s.live[b].variant))
  }

  // ---------- Steps ----------

  /** Replace what is known of `e`; an entry nobody holds any more is dropped. */
  ghost function Put<E>(s: Store<E>, e: E, it: Item): Store<E> {
    if Held(it) then s.(live := s.live[e := it]) else s.(live := s.live - {e})
  }

  ghost function Without<E>(s: seq<E>, k: nat): (r: seq<E>)
    requires k < |s|
  {
    s[..k] + s[k + 1..]
  }

  ghost function ReleaseLease<E>(s: Store<E>, e: E): Store<E>
    requires e in s.live && 0 < s.live[e].leases
  {
    Put(s, e, s.live[e].(leases := s.live[e].leases - 1))
  }

  ghost function AcquireLease<E>(s: Store<E>, e: E): Store<E>
    requires e in s.live
  {
    Put(s, e, s.live[e].(leases := s.live[e].leases + 1))
  }

  /** Eviction takes an entry off the list; leases keep it live. */
  ghost function Retire<E>(s: Store<E>, k: nat): Store<E>
    requires k < |s.list| && s.list[k] in s.live
  {
    var e := s.list[k];
    Put(s, e, s.live[e].(retained := false)).(list := Without(s.list, k))
  }

  /** Retires, in list order from position `i`, every entry satisfying `p`. */
  ghost function Purge<E>(s: Store<E>, i: nat, p: Item -> bool): Store<E>
    decreases |s.list| - i
  {
    if i >= |s.list| || s.list[i] !in s.live then s
    else if p(s.live[s.list[i]]) then Purge(Retire(s, i), i, p)
    else Purge(s, i + 1, p)
  }

  /** Retires oldest entries until `n` more bytes fit, or none are left. */
  ghost function EvictBytes<E>(s: Store<E>, n: int, limit: int): Store<E>
    decreases |s.list|
  {
    if Charged(s) + n <= limit || s.list == [] || s.list[0] !in s.live then s
    else EvictBytes(Retire(s, 0), n, limit)
  }

  /** Retires oldest entries until a slot is free, or none are left. */
  ghost function EvictSlots<E>(s: Store<E>, limit: int): Store<E>
    decreases |s.list|
  {
    if |s.live| < limit || s.list == [] || s.list[0] !in s.live then s
    else EvictSlots(Retire(s, 0), limit)
  }

  ghost function Expired(now: int): Item -> bool { (it: Item) => now >= it.expires }

  ghost function Clashes(v: Variant, h: Header): Item -> bool {
    (it: Item) => Displaced(it.variant, v.key, v.vary, h)
  }

  ghost function CandidateItem(): Item {
    Item(1, false, ENTRY_CONTROL_BYTES, null, 0, EMPTY, EMPTY_VARIANT, 0)
  }

  ghost function AddCandidate<E>(s: Store<E>, e: E): Store<E> {
    Put(s, e, CandidateItem())
  }

  /** The entry's buffer is attached, grown, emptied or replaced. */
  ghost function Rebuffer<E>(s: Store<E>, e: E, buf: object?, capacity: nat, body: Payload): Store<E>
    requires e in s.live
  {
    Put(s, e, s.live[e].(buf := buf, capacity := capacity, body := body))
  }

  /** A candidate takes its metadata charge and identity before it is listed. */
  ghost function Stage<E>(s: Store<E>, e: E, charge: nat, v: Variant): Store<E>
    requires e in s.live
  {
    Put(s, e, s.live[e].(charge := s.live[e].charge + charge, variant := v))
  }

  ghost function Link<E>(s: Store<E>, e: E, expires: int): Store<E>
    requires e in s.live
  {
    Put(s, e, s.live[e].(expires := expires, retained := true)).(list := s.list + [e])
  }

  /** Publication: charge and name the candidate, move its body into an owned copy,
      retire what the new variant displaces, and list it as the newest entry. */
  ghost function Publish<E>(s: Store<E>, e: E, charge: nat, buf: object?, v: Variant, h: Header, expires: int): Store<E>
    requires e in s.live
  {
    var a := Stage(s, e, charge, v);
    var b := if e in a.live then Rebuffer(a, e, buf, a.live[e].capacity, a.live[e].body) else a;
    var c := Purge(b, 0, Clashes(v, h));
    if e in c.live then Link(c, e, expires) else c
  }

  // ---------- Conservation ----------

  lemma CostsRemove<E>(live: map<E, Item>, e: E)
    ensures Total(Costs(live - {e})) == Total(Costs(live)) - (if e in live then Cost(live[e]) else 0)
  {
    assert Costs(live - {e}) == Costs(live) - {e};
    if e in live {
      TotalRemove(Costs(live), e);
    } else {
      assert live - {e} == live;
    }
  }

  lemma CostsUpdate<E>(live: map<E, Item>, e: E, it: Item)
    ensures Total(Costs(live[e := it])) == Total(Costs(live)) - (if e in live then Cost(live[e]) else 0) + Cost(it)
  {
    assert Costs(live[e := it]) == Costs(live)[e := Cost(it)];
    TotalUpdate(Costs(live), e, Cost(it));
  }

  /** Every change to one entry moves the charged bytes by that entry's cost. */
  lemma ChargedPut<E>(s: Store<E>, e: E, it: Item)
    ensures Charged(Put(s, e, it)) ==
            Charged(s) - (if e in s.live then Cost(s.live[e]) else 0) + (if Held(it) then Cost(it) else 0)
  {
    if Held(it) {
      CostsUpdate(s.live, e, it);
    } else {
      CostsRemove(s.live, e);
    }
  }

  lemma CountPut<E>(s: Store<E>, e: E, it: Item)
    ensures |Put(s, e, it).live| ==
            |s.live| - (if e in s.live then 1 else 0) + (if Held(it) then 1 else 0)
  {
    var rest := s.live - {e};
    assert rest.Keys == s.live.Keys - {e};
    assert s.live[e := it].Keys == rest.Keys + {e};
  }

  lemma RetireBalance<E>(s: Store<E>, k: nat)
    requires k < |s.list| && s.list[k] in s.live
    ensures var it := s.live[s.list[k]]; var r := Retire(s, k);
            && Charged(r) == Charged(s) - (if it.leases == 0 then Cost(it) else 0)
            && |r.live| == |s.live| - (if it.leases == 0 then 1 else 0)
  {
    var e := s.list[k];
    var it := s.live[e].(retained := false);
    ChargedPut(s, e, it);
    CountPut(s, e, it);
    assert Retire(s, k).live == Put(s, e, it).live;
  }

  lemma LinkBalance<E>(s: Store<E>, e: E, expires: int)
    requires e in s.live && Held(s.live[e])
    ensures Charged(Link(s, e, expires)) == Charged(s) && |Link(s, e, expires).live| == |s.live|
  {
    var it := s.live[e].(expires := expires, retained := true);
    ChargedPut(s, e, it);
    CountPut(s, e, it);
    assert Link(s, e, expires).live == Put(s, e, it).live;
  }

  // ---------- Invariants ----------

  /** A change that keeps the list flag and variant of one entry keeps the store. */
  lemma PutInv<E>(s: Store<E>, e: E, it: Item)
    requires Inv(s)
    requires if e in s.live then it.retained == s.live[e].retained && it.variant == s.live[e].variant
             else !it.retained
    ensures Inv(Put(s, e, it))
  {
  }

  lemma PutBalance<E>(s: Store<E>, e: E, it: Item)
    requires Inv(s) && e in s.live
    requires it.retained == s.live[e].retained && it.variant == s.live[e].variant
    ensures var r := Put(s, e, it);
            && Inv(r)
            && Charged(r) == Charged(s) - Cost(s.live[e]) + (if Held(it) then Cost(it) else 0)
            && |r.live| == |s.live| - (if Held(it) then 0 else 1)
  {
    PutInv(s, e, it);
    ChargedPut(s, e, it);
    CountPut(s, e, it);
  }

  lemma AddCandidateInv<E>(s: Store<E>, e: E)
    requires Inv(s) && e !in s.live
    ensures var r := AddCandidate(s, e);
            && Inv(r) && Charged(r) == Charged(s) + ENTRY_CONTROL_BYTES && |r.live| == |s.live| + 1
  {
    PutInv(s, e, CandidateItem());
    ChargedPut(s, e, CandidateItem());
    CountPut(s, e, CandidateItem());
  }

  lemma ReleaseLeaseInv<E>(s: Store<E>, e: E)
    requires Inv(s) && e in s.live && 0 < s.live[e].leases
    ensures var it := s.live[e].(leases := s.live[e].leases - 1); var r := ReleaseLease(s, e);
            && Inv(r) && Charged(r) == Charged(s) - (if Held(it) then 0 else Cost(it))
            && |r.live| == |s.live| - (if Held(it) then 0 else 1)
  {
    PutBalance(s, e, s.live[e].(leases := s.live[e].leases - 1));
  }

  lemma AcquireLeaseInv<E>(s: Store<E>, e: E)
    requires Inv(s) && e in s.live
    ensures var r := AcquireLease(s, e); Inv(r) && Charged(r) == Charged(s) && |r.live| == |s.live|
  {
    PutBalance(s, e, s.live[e].(leases := s.live[e].leases + 1));
  }

  lemma RebufferInv<E>(s: Store<E>, e: E, buf: object?, capacity: nat, body: Payload)
    requires Inv(s) && e in s.live
    ensures var r := Rebuffer(s, e, buf, capacity, body);
            && Inv(r) && Charged(r) == Charged(s) + capacity - s.live[e].capacity && |r.live| == |s.live|
  {
    PutBalance(s, e, s.live[e].(buf := buf, capacity := capacity, body := body));
  }

  lemma StageInv<E>(s: Store<E>, e: E, charge: nat, v: Variant)
    requires Inv(s) && e in s.live && !s.live[e].retained
    ensures var r := Stage(s, e, charge, v);
            && Inv(r) && Charged(r) == Charged(s) + charge && |r.live| == |s.live|
  {
    var it := s.live[e].(charge := s.live[e].charge + charge, variant := v);
    assert Inv(Put(s, e, it));
    ChargedPut(s, e, it);
    CountPut(s, e, it);
  }

  lemma OpenInv<E>(s: Store<E>, d: int)
    requires 0 <= s.open + d
    ensures Charged(s.(open := s.open + d)) == Charged(s) + d * 0x8_0000
    ensures Inv(s) ==> Inv(s.(open := s.open + d))
  {
  }

  lemma WithoutMembers<E>(s: seq<E>, k: nat)
    requires k < |s| && Distinct(s)
    ensures Distinct(Without(s, k))
    ensures forall e :: e in Without(s, k) ==> e in s && e != s[k]
    ensures forall e :: e in s && e != s[k] ==> e in Without(s, k)
  {
    var r := Without(s, k);
    forall i, j
      ensures Differ(r, i, j)
    {
      assert Differ(s, if i < k then i else i + 1, if j < k then j else j + 1);
    }
    forall i | 0 <= i < |r|
      ensures r[i] in s && r[i] != s[k]
    {
      assert Differ(s, i, k) && Differ(s, k, i + 1);
    }
    forall e | e in s && e != s[k]
      ensures e in r
    {
      var i :| 0 <= i < |s| && s[i] == e;
      assert r[if i < k then i else i - 1] == e;
    }
  }

  lemma RetireInv<E>(s: Store<E>, k: nat)
    requires Inv(s) && k < |s.list|
    ensures s.list[k] in s.live && s.live[s.list[k]].retained
    ensures Inv(Retire(s, k))
  {
    assert s.list[k] in s.list;
    WithoutMembers(s.list, k);
  }

  /** A new variant may join when it is told apart from every retained one. */
  lemma LinkInv<E>(s: Store<E>, e: E, expires: int)
    requires Inv(s) && e in s.live && !s.live[e].retained
    requires forall x :: x in s.list && x in s.live ==>
               Compatible(s.live[x].variant, s.live[e].variant) && Compatible(s.live[e].variant, s.live[x].variant)
    ensures Inv(Link(s, e, expires))
  {
    assert e !in s.list;
    forall i, j
      ensures Differ(s.list + [e], i, j)
    {
      assert Differ(s.list, i, j);
    }
  }

  /** After clashing variants are retired, the new one may be listed. */
  lemma ReplacedInv<E>(s: Store<E>, e: E, key: CacheKey, names: seq<string>, h: Header, expires: int)
    requires Inv(s) && e in s.live && 0 < s.live[e].leases && !s.live[e].retained
    requires s.live[e].variant == Variant(key, Snapshot(h, names))
    ensures var t := Purge(s, 0, Clashes(s.live[e].variant, h));
            e in t.live && t.live[e] == s.live[e] && Inv(Link(t, e, expires))
  {
    var v := s.live[e].variant;
    var t := Purge(s, 0, Clashes(v, h));
    PurgeEvicts(s, 0, Clashes(v, h));
    forall x | x in t.list && x in t.live
      ensures Compatible(t.live[x].variant, v) && Compatible(v, t.live[x].variant)
    {
      if t.live[x].variant.key == key {
        SurvivorDiffers(t.live[x].variant, key, names, h);
        SnapshotNames(h, names);
      }
    }
    LinkInv(t, e, expires);
  }

  /** The retained variants in list order, as the scan sees them. */
  ghost function Views<E>(s: Store<E>): (vs: seq<Variant>)
    requires Inv(s)
    ensures |vs| == |s.list|
  {
    seq(|s.list|, i requires 0 <= i < |s.list| => s.live[s.list[i]].variant)
  }

  /** In every consistent store the variants of a key are told apart. */
  lemma ViewsDistinguished<E>(s: Store<E>)
    requires Inv(s)
    ensures Distinguished(Views(s))
  {
    var vs := Views(s);
    forall i, j | 0 <= i < j < |vs| && vs[i].key == vs[j].key
      ensures Names(vs[i].vary) == Names(vs[j].vary) && vs[i].vary != vs[j].vary
    {
      assert s.list[i] in s.list && s.list[j] in s.list && Differ(s.list, i, j);
      assert Compatible(s.live[s.list[i]].variant, s.live[s.list[j]].variant);
    }
  }

  // ---------- What eviction leaves alone ----------

  /** `t` comes from `s` by evictions alone: leased entries survive with everything
      but their place in the list, and no entry is invented. */
  ghost predicate EvictedFrom<E>(s: Store<E>, t: Store<E>) {
    && t.open == s.open
    && (forall e :: e in t.live ==>
          e in s.live && (t.live[e] == s.live[e] || t.live[e] == s.live[e].(retained := false)))
    && (forall e :: e in s.live && 0 < s.live[e].leases ==> e in t.live)
  }

  lemma RetireEvicts<E>(s: Store<E>, k: nat)
    requires k < |s.list| && s.list[k] in s.live
    ensures EvictedFrom(s, Retire(s, k))
  {
  }

  lemma EvictedTransitive<E>(s: Store<E>, t: Store<E>, u: Store<E>)
    requires EvictedFrom(s, t) && EvictedFrom(t, u)
    ensures EvictedFrom(s, u)
  {
  }

  /** A purge only evicts, and exactly the entries asked for leave the list. */
  lemma {:induction false} PurgeEvicts<E>(s: Store<E>, i: nat, p: Item -> bool)
    requires Inv(s) && i <= |s.list|
    requires forall k :: 0 <= k < i ==> s.list[k] in s.live && !p(s.live[s.list[k]])
    ensures Inv(Purge(s, i, p)) && EvictedFrom(s, Purge(s, i, p))
    ensures forall e :: e in Purge(s, i, p).list ==> e in s.list && e in s.live && !p(s.live[e])
    ensures forall e :: e in s.list && e in s.live && !p(s.live[e]) ==> e in Purge(s, i, p).list
    decreases |s.list| - i
  {
    if i < |s.list| {
      RetireInv(s, i);
      var t := Retire(s, i);
      if p(s.live[s.list[i]]) {
        WithoutMembers(s.list, i);
        PurgeEvicts(t, i, p);
        RetireEvicts(s, i);
        EvictedTransitive(s, t, Purge(t, i, p));
      } else {
        PurgeEvicts(s, i + 1, p);
      }
    }
  }

  /** A leased candidate is none of a purge's business. */
  lemma PurgeKeeps<E>(s: Store<E>, p: Item -> bool, e: E)
    requires Inv(s) && e in s.live && 0 < s.live[e].leases && !s.live[e].retained
    ensures e in Purge(s, 0, p).live && Purge(s, 0, p).live[e] == s.live[e]
  {
    PurgeEvicts(s, 0, p);
  }

  /** Making room only evicts, and stops short of fitting only on an empty list. */
  lemma {:induction false} EvictBytesEvicts<E>(s: Store<E>, n: int, limit: int)
    requires Inv(s)
    ensures var r := EvictBytes(s, n, limit);
            && Inv(r) && EvictedFrom(s, r) && (Charged(r) + n <= limit || r.list == [])
            && |r.live| <= |s.live|
    decreases |s.list|
  {
    if Charged(s) + n > limit && s.list != [] {
      RetireInv(s, 0);
      RetireBalance(s, 0);
      var t := Retire(s, 0);
      RetireEvicts(s, 0);
      EvictBytesEvicts(t, n, limit);
      EvictedTransitive(s, t, EvictBytes(t, n, limit));
    }
  }

  lemma {:induction false} EvictSlotsEvicts<E>(s: Store<E>, limit: int)
    requires Inv(s)
    ensures var r := EvictSlots(s, limit);
            Inv(r) && EvictedFrom(s, r) && (|r.live| < limit || r.list == [])
    decreases |s.list|
  {
    if |s.live| >= limit && s.list != [] {
      RetireInv(s, 0);
      var t := Retire(s, 0);
      RetireEvicts(s, 0);
      EvictSlotsEvicts(t, limit);
      EvictedTransitive(s, t, EvictSlots(t, limit));
    }
  }

  // ---------- Who is evicted ----------

  /** The `k` oldest entries retired, oldest first. */
  ghost function DropOldest<E>(s: Store<E>, k: nat): Store<E>
    decreases k
  {
    if k == 0 || s.list == [] || s.list[0] !in s.live then s else DropOldest(Retire(s, 0), k - 1)
  }

  /** The list holds live entries, each once. */
  ghost predicate Listing<E>(s: Store<E>) {
    Distinct(s.list) && forall e :: e in s.list ==> e in s.live
  }

  lemma DropFirst<E>(s: Store<E>) returns (t: Store<E>)
    requires Listing(s) && s.list != []
    ensures s.list[0] in s.live && t == Retire(s, 0) && Listing(t) && t.list == s.list[1..]
    ensures forall j :: 0 < j ==> DropOldest(s, j) == DropOldest(t, j - 1)
    ensures Inv(s) ==> Inv(t)
  {
    assert s.list[0] in s.list;
    t := Retire(s, 0);
    assert Without(s.list, 0) == s.list[1..];
    WithoutMembers(s.list, 0);
    if Inv(s) {
      RetireInv(s, 0);
    }
  }

  /** The list loses its first `k` entries. */
  lemma {:induction false} DropOldestList<E>(s: Store<E>, k: nat)
    requires Listing(s) && k <= |s.list|
    ensures DropOldest(s, k).list == s.list[k..]
    decreases k
  {
    if k > 0 {
      var t := DropFirst(s);
      DropOldestList(t, k - 1);
      assert s.list[1..][k - 1..] == s.list[k..];
    }
  }

  /** A dropped entry stays live and unlisted while leased and is gone otherwise; any other
      is as before. */
  ghost predicate Fate<E>(s: Store<E>, r: Store<E>, dropped: bool, e: E) {
    if e !in s.live || (dropped && s.live[e].leases == 0) then e !in r.live
    else e in r.live && r.live[e] == if dropped then s.live[e].(retained := false) else s.live[e]
  }

  lemma RetireFate<E>(s: Store<E>, e: E)
    requires s.list != [] && s.list[0] in s.live
    ensures Fate(s, Retire(s, 0), e == s.list[0], e)
  {
  }

  lemma {:induction false} DropOldestFate<E>(s: Store<E>, k: nat, e: E)
    requires Listing(s) && k <= |s.list|
    ensures Fate(s, DropOldest(s, k), e in s.list[..k], e)
    decreases k
  {
    if k > 0 {
      var t := DropFirst(s);
      RetireFate(s, e);
      DropOldestFate(t, k - 1, e);
      FateComposes(s, t, DropOldest(s, k), k, e);
    }
  }

  lemma FateComposes<E>(s: Store<E>, t: Store<E>, r: Store<E>, k: nat, e: E)
    requires Distinct(s.list) && 0 < k <= |s.list| && t.list == s.list[1..]
    requires Fate(s, t, e == s.list[0], e) && Fate(t, r, e in t.list[..k - 1], e)
    ensures Fate(s, r, e in s.list[..k], e)
  {
    assert s.list[..k] == [s.list[0]] + t.list[..k - 1];
    HeadOnce(s.list, k);
  }

  lemma HeadOnce<E>(s: seq<E>, k: nat)
    requires Distinct(s) && 0 < k <= |s|
    ensures s[0] !in s[1..][..k - 1]
  {
    DistinctIndices(s);
  }

  /** What is left after dropping one entry fewer did not pass `fits`, and so on back. */
  ghost predicate NoneFits<E>(s: Store<E>, k: nat, fits: Store<E> -> bool) {
    forall j :: 0 <= j < k ==> !fits(DropOldest(s, j))
  }

  /** Retires oldest entries until what is left passes, or none are left. */
  ghost function EvictUntil<E>(s: Store<E>, fits: Store<E> -> bool): Store<E>
    decreases |s.list|
  {
    if fits(s) || s.list == [] || s.list[0] !in s.live then s else EvictUntil(Retire(s, 0), fits)
  }

  lemma OneMore<E>(s: Store<E>, t: Store<E>, k: nat, fits: Store<E> -> bool)
    requires forall j :: 0 < j ==> DropOldest(s, j) == DropOldest(t, j - 1)
    requires !fits(s) && NoneFits(t, k, fits)
    ensures NoneFits(s, k + 1, fits)
  {
  }

  /** Such an eviction drops the oldest entries, and not one more than needed. */
  lemma {:induction false} EvictsOldest<E>(s: Store<E>, fits: Store<E> -> bool) returns (k: nat)
    requires Listing(s)
    ensures k <= |s.list| && EvictUntil(s, fits) == DropOldest(s, k)
    ensures (fits(DropOldest(s, k)) || k == |s.list|) && NoneFits(s, k, fits)
    decreases |s.list|
  {
    if !fits(s) && s.list != [] {
      var t := DropFirst(s);
      var m := EvictsOldest(t, fits);
      OneMore(s, t, m, fits);
      k := m + 1;
    } else {
      k := 0;
    }
  }

  ghost function BytesFit<E>(n: int, limit: int): Store<E> -> bool { (s: Store<E>) => Charged(s) + n <= limit }

  ghost function SlotFree<E>(limit: int): Store<E> -> bool { (s: Store<E>) => |s.live| < limit }

  lemma {:induction false} EvictBytesIs<E>(s: Store<E>, n: int, limit: int)
    ensures EvictBytes(s, n, limit) == EvictUntil(s, BytesFit(n, limit))
    decreases |s.list|
  {
    if Charged(s) + n > limit && s.list != [] && s.list[0] in s.live {
      EvictBytesIs(Retire(s, 0), n, limit);
    }
  }

  lemma {:induction false} EvictSlotsIs<E>(s: Store<E>, limit: int)
    ensures EvictSlots(s, limit) == EvictUntil(s, SlotFree(limit))
    decreases |s.list|
  {
    if |s.live| >= limit && s.list != [] && s.list[0] in s.live {
      EvictSlotsIs(Retire(s, 0), limit);
    }
  }

  /** Making room drops the oldest entries, and not one more than needed. */
  lemma EvictBytesOldest<E>(s: Store<E>, n: int, limit: int) returns (k: nat)
    requires Inv(s)
    ensures k <= |s.list| && EvictBytes(s, n, limit) == DropOldest(s, k)
    ensures Charged(DropOldest(s, k)) + n <= limit || k == |s.list|
    ensures forall j :: 0 <= j < k ==> Charged(DropOldest(s, j)) + n > limit
  {
    EvictBytesIs(s, n, limit);
    k := EvictsOldest(s, BytesFit(n, limit));
  }

  /** And so does freeing a slot. */
  lemma EvictSlotsOldest<E>(s: Store<E>, limit: int) returns (k: nat)
    requires Inv(s)
    ensures k <= |s.list| && EvictSlots(s, limit) == DropOldest(s, k)
    ensures |DropOldest(s, k).live| < limit || k == |s.list|
    ensures forall j :: 0 <= j < k ==> |DropOldest(s, j).live| >= limit
  {
    EvictSlotsIs(s, limit);
    k := EvictsOldest(s, SlotFree(limit));
  }

  // ---------- Who is found ----------

  /** The entry a request finds in a swept store. */
  ghost function Found<E>(s: Store<E>, key: CacheKey, h: Header, p: Option<Policy>): Option<E>
    requires Inv(s) && Distinguished(Views(s))
  {
    match Lookup(Views(s), key, h, p)
    case None => None
    case Some(i) => Some(s.list[i])
  }

  /** The entry found is listed and selected, and a selected entry is the one found. */
  lemma FoundIsSelected<E>(s: Store<E>, key: CacheKey, h: Header, p: Option<Policy>, e: E)
    requires Inv(s) && Distinguished(Views(s))
    ensures Found(s, key, h, p) == Some(e) <==> e in s.list && Selects(s.live[e].variant, key, h, p)
  {
    var vs := Views(s);
    ScanIsLookup(vs, key, h, p);
    if e in s.list && Selects(s.live[e].variant, key, h, p) {
      var j :| 0 <= j < |s.list| && s.list[j] == e;
      assert Selects(vs[j], key, h, p);
      AtMostOneSelected(vs, key, h, p, j, FirstMatch(vs, key, h, p).value);
    }
  }

  /** After a sweep at `now`, a listed entry is found by exactly the requests that select
      it, and by nobody from its expiry on. */
  lemma FoundWhenSwept<E>(s: Store<E>, now: int, key: CacheKey, h: Header, p: Option<Policy>, e: E)
    requires Inv(s)
    ensures var t := Purge(s, 0, Expired(now));
            && Inv(t) && Distinguished(Views(t))
            && (Found(t, key, h, p) == Some(e) <==>
                e in s.list && now < s.live[e].expires && Selects(s.live[e].variant, key, h, p))
  {
    var t := Purge(s, 0, Expired(now));
    PurgeEvicts(s, 0, Expired(now));
    ViewsDistinguished(t);
    FoundIsSelected(t, key, h, p, e);
  }

  /** The entry has one lease more than before. */
  ghost predicate LeasedOnce<E>(s: Store<E>, t: Store<E>, e: E) {
    e in s.live && e in t.live && t.live[e].leases == s.live[e].leases + 1
  }

  /** Nothing expired is found, and an unexpired entry the request selects is. */
  lemma SelectedIsFound<E>(s: Store<E>, now: int, key: CacheKey, h: Header, p: Option<Policy>)
    requires Inv(s)
    ensures var t := Purge(s, 0, Expired(now));
            && Inv(t) && Distinguished(Views(t))
            && (Found(t, key, h, p).Some? ==>
                  var e := Found(t, key, h, p).value;
                  e in s.list && e in s.live && now < s.live[e].expires && e in t.live && LeasedOnce(s, AcquireLease(t, e), e))
            && (forall e :: e in s.list && e in s.live && now < s.live[e].expires && Selects(s.live[e].variant, key, h, p) ==>
                  Found(t, key, h, p) == Some(e))
  {
    var t := Purge(s, 0, Expired(now));
    PurgeEvicts(s, 0, Expired(now));
    ViewsDistinguished(t);
    if Found(t, key, h, p).Some? {
      FoundWhenSwept(s, now, key, h, p, Found(t, key, h, p).value);
    }
    forall e | e in s.list && e in s.live && now < s.live[e].expires && Selects(s.live[e].variant, key, h, p)
      ensures Found(t, key, h, p) == Some(e)
    {
      FoundWhenSwept(s, now, key, h, p, e);
    }
  }

  /** So an entry stored for headers `g` is found by a request with headers `h` exactly when
      it has not expired and the two agree on every name it varies by. */
  lemma FoundIffAgree<E>(s: Store<E>, now: int, e: E, key: CacheKey, names: seq<string>, g: Header,
                         want: CacheKey, h: Header, p: Option<Policy>)
    requires Inv(s) && e in s.list && s.live[e].variant == Variant(key, Snapshot(g, names))
    ensures var t := Purge(s, 0, Expired(now));
            && Inv(t) && Distinguished(Views(t))
            && (Found(t, want, h, p) == Some(e) <==>
                now < s.live[e].expires && key == want && AllowsNames(p, names) && Agree(g, h, names))
  {
    FoundWhenSwept(s, now, want, h, p, e);
    SnapshotNames(g, names);
    MatchesIffAgree(g, h, names);
  }
}
