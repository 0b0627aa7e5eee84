/** Whole runs of the bounded cache. Every public operation of the imperative cache
    is a short sequence of the steps below, so what holds of all runs here holds of
    the cache. */
module CacheRuns {
  import opened Basics
  import opened CacheRepresentation
  import opened CacheState

  datatype Step<E> =
    | Sweep(now: int)
    | MakeRoom(bytes: nat, limit: int)
    | FreeSlots(slots: int)
    | OpenRequest
    | CloseRequest
    | Admit(e: E)
    | Lease(e: E)
    | Unlease(e: E)
    | Write(e: E, buf: object?, capacity: nat, body: Payload)
    | List(e: E, charge: nat, buf: object?, key: CacheKey, names: seq<string>, h: Header, expires: int)

  /** What callers of the cache must hold: leases are dropped by their holders, and
      only a leased candidate that is not yet listed is written or published. */
  ghost predicate Enabled<E>(s: Store<E>, step: Step<E>) {
    match step
    case CloseRequest => 0 < s.open
    case Admit(e) => e !in s.live
    case Lease(e) => e in s.live
    case Unlease(e) => e in s.live && 0 < s.live[e].leases
    case Write(e, _, _, _) => e in s.live && !s.live[e].retained
    case List(e, _, _, _, _, _, _) => e in s.live && 0 < s.live[e].leases && !s.live[e].retained
    case _ => true
  }

  ghost function Apply<E>(s: Store<E>, step: Step<E>): Store<E>
    requires Enabled(s, step)
  {
    match step
    case Sweep(now) => Purge(s, 0, Expired(now))
    case MakeRoom(n, limit) => EvictBytes(s, n, limit)
    case FreeSlots(slots) => EvictSlots(s, slots)
    case OpenRequest => s.(open := s.open + 1)
    case CloseRequest => s.(open := s.open - 1)
    case Admit(e) => AddCandidate(s, e)
    case Lease(e) => AcquireLease(s, e)
    case Unlease(e) => ReleaseLease(s, e)
    case Write(e, buf, capacity, body) => Rebuffer(s, e, buf, capacity, body)
    case List(e, charge, buf, key, names, h, expires) =>
      Publish(s, e, charge, buf, Variant(key, Snapshot(h, names)), h, expires)
  }

  /** States reachable from the empty cache, with the steps taken. */
  ghost predicate Run<E>(states: seq<Store<E>>, steps: seq<Step<E>>) {
    && |states| == |steps| + 1
    && states[0] == Store([], map[], 0)
    && forall i :: 0 <= i < |steps| ==> Enabled(states[i], steps[i]) && states[i + 1] == Apply(states[i], steps[i])
  }

  lemma PublishInv<E>(s: Store<E>, e: E, charge: nat, buf: object?, key: CacheKey, names: seq<string>, h: Header, expires: int)
    requires Inv(s) && e in s.live && 0 < s.live[e].leases && !s.live[e].retained
    ensures var v := Variant(key, Snapshot(h, names));
            var t := Publish(s, e, charge, buf, v, h, expires);
            && Inv(t) && e in t.live && t.list != [] && t.list[|t.list| - 1] == e
            && t.live[e].variant == v && t.live[e].body == s.live[e].body && t.live[e].expires == expires
            && t.live[e].leases == s.live[e].leases
  {
    var v := Variant(key, Snapshot(h, names));
    var a := Stage(s, e, charge, v);
    StageInv(s, e, charge, v);
    RebufferInv(a, e, buf, a.live[e].capacity, a.live[e].body);
    ReplacedInv(Rebuffer(a, e, buf, a.live[e].capacity, a.live[e].body), e, key, names, h, expires);
  }

  /** Every step keeps the cache consistent. */
  lemma StepInv<E>(s: Store<E>, step: Step<E>)
    requires Inv(s) && Enabled(s, step)
    ensures Inv(Apply(s, step))
  {
    match step
    case Sweep(now) => PurgeEvicts(s, 0, Expired(now));
    case MakeRoom(n, limit) => EvictBytesEvicts(s, n, limit);
    case FreeSlots(slots) => EvictSlotsEvicts(s, slots);
    case OpenRequest =>
    case CloseRequest =>
    case Admit(e) => AddCandidateInv(s, e);
    case Lease(e) => AcquireLeaseInv(s, e);
    case Unlease(e) => ReleaseLeaseInv(s, e);
    case Write(e, buf, capacity, body) => RebufferInv(s, e, buf, capacity, body);
    case List(e, charge, buf, key, names, h, expires) => PublishInv(s, e, charge, buf, key, names, h, expires);
  }

  /** In every reachable state the list is exactly the retained entries and at most
      one retained variant answers any request. */
  lemma {:induction false} RunInv<E>(states: seq<Store<E>>, steps: seq<Step<E>>, i: nat)
    requires Run(states, steps) && i < |states|
    ensures Inv(states[i]) && Distinguished(Views(states[i]))
  {
    if i > 0 {
      RunInv(states, steps, i - 1);
      StepInv(states[i - 1], steps[i - 1]);
    }
    ViewsDistinguished(states[i]);
  }

  ghost predicate Touches<E>(step: Step<E>, e: E) {
    match step
    case Admit(x) => x == e
    case Write(x, _, _, _) => x == e
    case _ => false
  }

  /** The entry is leased and holds `it`'s body. */
  ghost predicate Holds<E>(s: Store<E>, e: E, body: Payload) {
    e in s.live && 0 < s.live[e].leases && s.live[e].body == body
  }

  /** No step but its own writer's changes the body of an entry someone leases. */
  lemma StepKeepsLeased<E>(s: Store<E>, step: Step<E>, e: E)
    requires Inv(s) && Enabled(s, step) && e in s.live && 0 < s.live[e].leases && !Touches(step, e)
    ensures (step == Unlease(e) && s.live[e].leases == 1) || Holds(Apply(s, step), e, s.live[e].body)
  {
    match step
    case Sweep(now) => PurgeEvicts(s, 0, Expired(now));
    case MakeRoom(n, limit) => EvictBytesEvicts(s, n, limit);
    case FreeSlots(slots) => EvictSlotsEvicts(s, slots);
    case OpenRequest =>
    case CloseRequest =>
    case Admit(x) =>
    case Lease(x) =>
    case Unlease(x) =>
    case Write(x, _, _, _) =>
    case List(x, charge, buf, key, names, h, expires) => PublishKeepsLeased(s, x, charge, buf, key, names, h, expires, e);
  }

  lemma PublishKeepsLeased<E>(s: Store<E>, x: E, charge: nat, buf: object?, key: CacheKey, names: seq<string>,
                              h: Header, expires: int, e: E)
    requires Inv(s) && x in s.live && 0 < s.live[x].leases && !s.live[x].retained
    requires e in s.live && 0 < s.live[e].leases
    ensures Holds(Publish(s, x, charge, buf, Variant(key, Snapshot(h, names)), h, expires), e, s.live[e].body)
  {
    var v := Variant(key, Snapshot(h, names));
    PublishInv(s, x, charge, buf, key, names, h, expires);
    var a := Stage(s, x, charge, v);
    StageInv(s, x, charge, v);
    var b := Rebuffer(a, x, buf, a.live[x].capacity, a.live[x].body);
    RebufferInv(a, x, buf, a.live[x].capacity, a.live[x].body);
    PurgeEvicts(b, 0, Clashes(v, h));
  }

  /** Over any stretch of a run in which an entry stays leased and is not written, its
      body is untouched, whatever is evicted, expired or replaced meanwhile. */
  lemma {:induction false} LeaseProtectsBody<E>(states: seq<Store<E>>, steps: seq<Step<E>>, e: E, i: nat, j: nat)
    requires Run(states, steps) && i <= j < |states|
    requires forall k :: i <= k <= j ==> e in states[k].live && 0 < states[k].live[e].leases
    requires forall k :: i <= k < j ==> !Touches(steps[k], e)
    ensures states[j].live[e].body == states[i].live[e].body
    decreases j
  {
    if i < j {
      LeaseProtectsBody(states, steps, e, i, j - 1);
      RunInv(states, steps, j - 1);
      StepKeepsLeased(states[j - 1], steps[j - 1], e);
    }
  }

  /** Round trip: once published, the response is what its own request finds. */
  lemma PublishedIsFound<E>(s: Store<E>, e: E, charge: nat, buf: object?, key: CacheKey, names: seq<string>, h: Header, expires: int)
    requires Inv(s) && e in s.live && 0 < s.live[e].leases && !s.live[e].retained
    ensures var t := Publish(s, e, charge, buf, Variant(key, Snapshot(h, names)), h, expires);
            && Inv(t) && Distinguished(Views(t))
            && Lookup(Views(t), key, h, None) == Some(|t.list| - 1) && t.list[|t.list| - 1] == e
  {
    PublishInv(s, e, charge, buf, key, names, h, expires);
    var t := Publish(s, e, charge, buf, Variant(key, Snapshot(h, names)), h, expires);
    ViewsDistinguished(t);
    SnapshotNames(h, names);
    var vs := Views(t);
    var n := |t.list| - 1;
    assert vs[n] == Variant(key, Snapshot(h, names));
    NamesForAt(vs, n);
    assert vs[n] in Table(vs);
  }

  // ---------- What a publication answers ----------

  ghost predicate Relists<E>(step: Step<E>, e: E) { step.List? && step.e == e }

  lemma PurgeListed<E>(s: Store<E>, p: Item -> bool, e: E)
    requires Inv(s) && e in Purge(s, 0, p).list
    ensures e in s.list && e in Purge(s, 0, p).live && Purge(s, 0, p).live[e] == s.live[e]
  {
    PurgeEvicts(s, 0, p);
  }

  lemma PublishListed<E>(s: Store<E>, x: E, charge: nat, buf: object?, key: CacheKey, names: seq<string>,
                         h: Header, expires: int, e: E)
    requires Inv(s) && x in s.live && 0 < s.live[x].leases && !s.live[x].retained && e != x
    requires e in Publish(s, x, charge, buf, Variant(key, Snapshot(h, names)), h, expires).list
    ensures var t := Publish(s, x, charge, buf, Variant(key, Snapshot(h, names)), h, expires);
            e in s.list && e in t.live && t.live[e] == s.live[e]
  {
    var v := Variant(key, Snapshot(h, names));
    var a := Stage(s, x, charge, v);
    StageInv(s, x, charge, v);
    var b := Rebuffer(a, x, buf, a.live[x].capacity, a.live[x].body);
    RebufferInv(a, x, buf, a.live[x].capacity, a.live[x].body);
    PurgeEvicts(b, 0, Clashes(v, h));
    PurgeListed(b, Clashes(v, h), e);
  }

  lemma RestListed<E>(list: seq<E>, k: nat, e: E)
    requires Distinct(list) && k <= |list| && e in list[k..]
    ensures e in list && e !in list[..k]
  {
    DistinctIndices(list);
  }

  /** A step other than its own publication neither lists an entry nor renames it. */
  lemma StepListed<E>(s: Store<E>, step: Step<E>, e: E)
    requires Inv(s) && Enabled(s, step) && e in Apply(s, step).list && !Relists(step, e)
    ensures var t := Apply(s, step);
            e in s.list && e in t.live && t.live[e].variant == s.live[e].variant && t.live[e].expires == s.live[e].expires
  {
    StepInv(s, step);
    match step
    case Sweep(now) => PurgeListed(s, Expired(now), e);
    case MakeRoom(n, limit) =>
      var k := EvictBytesOldest(s, n, limit);
      DropOldestList(s, k);
      DropOldestFate(s, k, e);
      RestListed(s.list, k, e);
    case FreeSlots(slots) =>
      var k := EvictSlotsOldest(s, slots);
      DropOldestList(s, k);
      DropOldestFate(s, k, e);
      RestListed(s.list, k, e);
    case OpenRequest =>
    case CloseRequest =>
    case Admit(x) =>
    case Lease(x) =>
    case Unlease(x) =>
    case Write(x, _, _, _) =>
    case List(x, charge, buf, key, names, h, expires) => PublishListed(s, x, charge, buf, key, names, h, expires, e);
  }

  lemma ListNames<E>(s: Store<E>, step: Step<E>)
    requires Inv(s) && Enabled(s, step) && step.List?
    ensures var t := Apply(s, step);
            step.e in t.live && t.live[step.e].expires == step.expires
            && t.live[step.e].variant == Variant(step.key, Snapshot(step.h, step.names))
  {
    PublishInv(s, step.e, step.charge, step.buf, step.key, step.names, step.h, step.expires);
  }

  /** An entry still listed carries the name and expiry of its latest publication. */
  lemma {:induction false} StaysAsPublished<E>(states: seq<Store<E>>, steps: seq<Step<E>>, k: nat, n: nat, e: E)
    requires Run(states, steps) && k < n <= |steps| && Relists(steps[k], e) && e in states[n].list
    requires forall m :: k < m < n ==> !Relists(steps[m], e)
    ensures e in states[n].live && states[n].live[e].expires == steps[k].expires
    ensures states[n].live[e].variant == Variant(steps[k].key, Snapshot(steps[k].h, steps[k].names))
    decreases n
  {
    RunInv(states, steps, n - 1);
    if n == k + 1 {
      ListNames(states[k], steps[k]);
    } else {
      StepListed(states[n - 1], steps[n - 1], e);
      StaysAsPublished(states, steps, k, n - 1, e);
    }
  }

  /** Over every run: an entry last published for a request with headers `g` answers a later
      request exactly when it is for the same key, comes before the expiry, is allowed the
      names, and agrees with `g` on the value of every one of them. */
  lemma AnswersIffAgree<E>(states: seq<Store<E>>, steps: seq<Step<E>>, k: nat, n: nat, e: E,
                           now: int, want: CacheKey, h: Header, p: Option<Policy>)
    requires Run(states, steps) && k < n <= |steps| && Relists(steps[k], e) && e in states[n].list
    requires forall m :: k < m < n ==> !Relists(steps[m], e)
    ensures var t := Purge(states[n], 0, Expired(now));
            && Inv(t) && Distinguished(Views(t))
            && (Found(t, want, h, p) == Some(e) <==>
                && now < steps[k].expires && steps[k].key == want
                && AllowsNames(p, steps[k].names) && Agree(steps[k].h, h, steps[k].names))
  {
    StaysAsPublished(states, steps, k, n, e);
    RunInv(states, steps, n);
    FoundIffAgree(states[n], now, e, steps[k].key, steps[k].names, steps[k].h, want, h, p);
  }

  lemma PublishDisplaces<E>(s: Store<E>, x: E, charge: nat, buf: object?, key: CacheKey, names: seq<string>,
                            h: Header, expires: int, e: E)
    requires Inv(s) && x in s.live && 0 < s.live[x].leases && !s.live[x].retained && e != x && e in s.list
    ensures var v := Variant(key, Snapshot(h, names));
            e in Publish(s, x, charge, buf, v, h, expires).list <==> !Displaced(s.live[e].variant, key, v.vary, h)
  {
    var v := Variant(key, Snapshot(h, names));
    var a := Stage(s, x, charge, v);
    StageInv(s, x, charge, v);
    var b := Rebuffer(a, x, buf, a.live[x].capacity, a.live[x].body);
    RebufferInv(a, x, buf, a.live[x].capacity, a.live[x].body);
    PurgeEvicts(b, 0, Clashes(v, h));
    PublishInv(s, x, charge, buf, key, names, h, expires);
    assert b.live[e] == s.live[e];
  }

  /** A publication takes another entry off the list exactly when that one is for the same
      key and varies by other names, or agrees with the new request on its names. */
  lemma DisplacesIff<E>(states: seq<Store<E>>, steps: seq<Step<E>>, k: nat, n: nat, e: E)
    requires Run(states, steps) && k < n < |steps| && Relists(steps[k], e) && e in states[n].list
    requires forall m :: k < m < n ==> !Relists(steps[m], e)
    requires steps[n].List? && steps[n].e != e
    ensures e !in states[n + 1].list <==>
            steps[k].key == steps[n].key && (steps[k].names != steps[n].names || Agree(steps[k].h, steps[n].h, steps[k].names))
  {
    StaysAsPublished(states, steps, k, n, e);
    RunInv(states, steps, n);
    var a, b := steps[k], steps[n];
    PublishDisplaces(states[n], b.e, b.charge, b.buf, b.key, b.names, b.h, b.expires, e);
    SnapshotNames(a.h, a.names);
    SnapshotNames(b.h, b.names);
    MatchesIffAgree(a.h, b.h, a.names);
  }

  // ---------- Leases, counted from the steps ----------

  ghost function Leases<E>(s: Store<E>, e: E): int { if e in s.live then s.live[e].leases else 0 }

  /** Leases taken on `e` minus leases given back during the first `n` steps. */
  ghost function Outstanding<E>(steps: seq<Step<E>>, n: nat, e: E): int
    requires n <= |steps|
  {
    if n == 0 then 0
    else Outstanding(steps, n - 1, e) +
         (match steps[n - 1]
          case Admit(x) => if x == e then 1 else 0
          case Lease(x) => if x == e then 1 else 0
          case Unlease(x) => if x == e then -1 else 0
          case _ => 0)
  }

  lemma EvictedLeases<E>(s: Store<E>, t: Store<E>, e: E)
    requires EvictedFrom(s, t)
    ensures Leases(t, e) == Leases(s, e)
  {
  }

  lemma PublishLeases<E>(s: Store<E>, x: E, charge: nat, buf: object?, key: CacheKey, names: seq<string>, h: Header, expires: int, e: E)
    requires Inv(s) && x in s.live && 0 < s.live[x].leases && !s.live[x].retained
    ensures Leases(Publish(s, x, charge, buf, Variant(key, Snapshot(h, names)), h, expires), e) == Leases(s, e)
  {
    var v := Variant(key, Snapshot(h, names));
    var a := Stage(s, x, charge, v);
    StageInv(s, x, charge, v);
    var b := Rebuffer(a, x, buf, a.live[x].capacity, a.live[x].body);
    RebufferInv(a, x, buf, a.live[x].capacity, a.live[x].body);
    PurgeEvicts(b, 0, Clashes(v, h));
    EvictedLeases(b, Purge(b, 0, Clashes(v, h)), e);
  }

  lemma StepLeases<E>(s: Store<E>, step: Step<E>, e: E)
    requires Inv(s) && Enabled(s, step)
    ensures Leases(Apply(s, step), e) == Outstanding([step], 1, e) + Leases(s, e)
  {
    match step
    case Sweep(now) => PurgeEvicts(s, 0, Expired(now));
    case MakeRoom(n, limit) => EvictBytesEvicts(s, n, limit);
    case FreeSlots(slots) => EvictSlotsEvicts(s, slots);
    case OpenRequest =>
    case CloseRequest =>
    case Admit(x) =>
    case Lease(x) =>
    case Unlease(x) =>
    case Write(x, _, _, _) =>
    case List(x, charge, buf, key, names, h, expires) => PublishLeases(s, x, charge, buf, key, names, h, expires, e);
  }

  /** In every reachable state an entry has exactly the leases taken and not given back; in
      particular it is live as long as there is one. */
  lemma {:induction false} LeasesCounted<E>(states: seq<Store<E>>, steps: seq<Step<E>>, n: nat, e: E)
    requires Run(states, steps) && n <= |steps|
    ensures Leases(states[n], e) == Outstanding(steps, n, e)
  {
    if n > 0 {
      LeasesCounted(states, steps, n - 1, e);
      RunInv(states, steps, n - 1);
      StepLeases(states[n - 1], steps[n - 1], e);
    }
  }
}
