/** The bounded response cache: an intrusive list of retained entries, leases
    that outlive eviction, and one byte budget for scratch space, metadata and
    body capacity. */
module CacheStore {
  import opened Basics
  import opened ResponseBuffers
  import opened CacheRepresentation
  import opened CacheState

  const DEFAULT_MAX_ENTRIES: int := 1024

  class CacheEntry {
    var buf: ResponseBuffer?
    var variant: Variant
    var expires: int
    var prev: CacheEntry?
    var next: CacheEntry?
    var refs: int
    var retained: bool
    var charge: int

    constructor ()
      ensures buf == null && prev == null && next == null && variant == EMPTY_VARIANT
      ensures refs == 1 && !retained && charge == ENTRY_CONTROL_BYTES && expires == 0
    {
      buf, prev, next, variant := null, null, null, EMPTY_VARIANT;
      refs, retained, charge := 1, false, ENTRY_CONTROL_BYTES;
      expires := 0;
    }
  }

  ghost function At(s: seq<CacheEntry>, i: nat): CacheEntry? {
    if i < |s| then s[i] else null
  }

  class TtlCache {
    const limit: int
    const maxBody: int
    const budget: Budget
    var count: int
    var head: CacheEntry?
    var tail: CacheEntry?
    ghost var abs: Store<CacheEntry>
    /** Every entry and body buffer the cache has ever held. */
    ghost var entries: set<CacheEntry>
    ghost var buffers: set<ResponseBuffer>

    /** The heap entry agrees with what the store knows of it, and counts one
        reference per lease, one for the list, and `extra` about to be dropped. The
        body belongs to this entry alone. */
    ghost predicate EntryRep(e: CacheEntry, it: Item, extra: int)
      reads e`refs, e`retained, e`charge, e`variant, e`expires, e`buf, e.buf
    {
      && e.refs == it.leases + (if it.retained then 1 else 0) + extra
      && e.retained == it.retained
      && e.charge == it.charge
      && e.variant == it.variant
      && e.expires == it.expires
      && e.buf == it.buf
      && it.capacity == (if e.buf == null then 0 else e.buf.capacity)
      && it.body == (if e.buf == null then EMPTY else Payload(e.buf.body))
      && (e.buf != null ==> e.buf.Valid() && e.buf.owner == e && e.buf.budget == budget)
    }

    ghost predicate Owned(e: CacheEntry)
      reads this`entries, this`buffers, e`buf
    {
      e in entries && (e.buf == null || e.buf in buffers)
    }

    /** A well-formed doubly linked list of exactly the entries `s`, in order; no other
        entry has a link. */
    ghost predicate Linked(s: seq<CacheEntry>)
      reads this`head, this`tail, this`entries, entries`prev, entries`next
    {
      && (forall e :: e in s ==> e in entries)
      && (forall e :: e in entries && e !in s ==> e.prev == null && e.next == null)
      && (s == [] ==> head == null && tail == null)
      && (s != [] ==>
            head == s[0] && s[0].prev == null && tail == s[|s| - 1] && s[|s| - 1].next == null)
      && (forall i {:trigger s[i].prev} :: 1 <= i < |s| ==> s[i].prev == s[i - 1])
      && (forall i {:trigger s[i].next} :: 0 <= i < |s| - 1 ==> s[i].next == s[i + 1])
    }

    /** Every live entry but `except` is represented on the heap. */
    ghost predicate Rep(live: map<CacheEntry, Item>, except: CacheEntry?)
      reads this`entries, this`buffers, buffers
      reads entries`refs, entries`retained, entries`charge, entries`variant, entries`expires, entries`buf
    {
      forall e {:trigger live[e]} :: e in live && e != except ==>
        e in entries && Owned(e) && EntryRep(e, live[e], 0)
    }

    /** The budget holds exactly what the store accounts for, plus `pending` bytes
        reserved by the running operation. */
    ghost predicate Balanced(pending: int)
      reads this`abs, this`count, budget
    {
      && 0 <= pending
      && budget.used == Charged(abs) + pending <= budget.limit
      && count == |abs.live| <= limit
    }

    /** The heap represents store `s`: links, entries and bodies. */
    ghost predicate Heap(s: Store<CacheEntry>)
      reads this`head, this`tail, this`entries, this`buffers, entries, buffers
    {
      && Linked(s.list)
      && Rep(s.live, null)
    }

    ghost predicate Core(pending: int)
      reads this, budget, entries, buffers
    {
      Heap(abs) && Balanced(pending) && Inv(abs)
    }

    ghost predicate Valid()
      reads this, budget, entries, buffers
    {
      Core(0)
    }

    constructor (entries: int, body: int, budget: int)
      ensures Valid() && fresh(this.budget) && abs == Store([], map[], 0)
      ensures this.limit == (if entries <= 0 then DEFAULT_MAX_ENTRIES else entries) > 0
      ensures this.maxBody == (if body <= 0 then DEFAULT_MAX_RESPONSE_BODY else body) > 0
      ensures this.budget.limit == (if budget <= 0 then DEFAULT_BUDGET else budget) > 0
    {
      limit := if entries <= 0 then DEFAULT_MAX_ENTRIES else entries;
      maxBody := if body <= 0 then DEFAULT_MAX_RESPONSE_BODY else body;
      this.budget := new Budget(budget);
      count, head, tail := 0, null, null;
      abs, this.entries, buffers := Store([], map[], 0), {}, {};
    }

    /** Takes an entry out of the doubly linked list. */
    method Unlink(e: CacheEntry, ghost s: seq<CacheEntry>, ghost k: nat)
      requires Linked(s) && k < |s| && s[k] == e && Apart(s, k - 1) && Apart(s, k) && Apart(s, k + 1)
      modifies this`head, this`tail, entries`prev, entries`next, e`retained
      ensures Linked(Without(s, k))
      ensures e.prev == null && e.next == null && !e.retained
    {
      assert s[k].prev == if k == 0 then null else s[k - 1];
      assert s[k].next == if k == |s| - 1 then null else s[k + 1];
      if e.prev == null {
        head := e.next;
      } else {
        e.prev.next := e.next;
      }
      if e.next == null {
        tail := e.prev;
      } else {
        e.next.prev := e.prev;
      }
      e.prev, e.next, e.retained := null, null, false;
    }

    /** Returns everything a dead entry holds to the budget. */
    method Free(e: CacheEntry)
      requires e.buf != null ==> e.buf.Valid() && e.buf.budget == budget
      modifies budget`used, e`buf, e`variant, e.buf
      ensures e.buf == null && e.variant == EMPTY_VARIANT
      ensures budget.used == old(budget.used - e.charge - (if e.buf == null then 0 else e.buf.capacity))
    {
      if e.buf != null {
        e.buf.Release();
        e.buf := null;
      }
      budget.Release(e.charge);
      e.variant := EMPTY_VARIANT;
    }

    /** Drops one reference of `e`, leaving it with item `it`. The last reference
        gives back the body, the metadata charge and the entry slot; any earlier one
        gives back nothing. */
    method ReleaseLocked(e: CacheEntry, ghost it: Item, ghost s: Store<CacheEntry>, ghost t: Store<CacheEntry>)
      requires e in s.live && Owned(e) && EntryRep(e, it, 1) && Rep(s.live, e)
      requires t.live == Put(s, e, it).live
      modifies this`abs, this`count, budget`used, e`refs, e`buf, e`variant, e.buf
      ensures abs == t && Rep(t.live, null)
      ensures budget.used == old(budget.used) - (if Held(it) then 0 else Cost(it))
      ensures count == old(count) - (if Held(it) then 0 else 1)
    {
      abs := t;
      e.refs := e.refs - 1;
      if e.refs != 0 {
        return;
      }
      Free(e);
      count := count - 1;
    }

    /** Unlinking disturbs no live entry; the list's reference is now surplus. */
    method UnlinkLive(e: CacheEntry, ghost s: Store<CacheEntry>, ghost k: nat, ghost it: Item)
      requires Linked(s.list) && Distinct(s.list) && Rep(s.live, null)
      requires k < |s.list| && s.list[k] == e && e in s.live
      requires s.live[e].retained && it == s.live[e].(retained := false)
      modifies this`head, this`tail, entries`prev, entries`next, e`retained
      ensures Linked(Without(s.list, k))
      ensures Owned(e) && EntryRep(e, it, 1) && Rep(s.live, e)
    {
      assert EntryRep(e, s.live[e], 0);
      UnlinkAt(e, s.list, k);
    }

    method UnlinkAt(e: CacheEntry, ghost s: seq<CacheEntry>, ghost k: nat)
      requires Linked(s) && Distinct(s) && k < |s| && s[k] == e
      modifies this`head, this`tail, entries`prev, entries`next, e`retained
      ensures Linked(Without(s, k)) && e.prev == null && e.next == null && !e.retained
    {
      DistinctApart(s, k - 1);
      DistinctApart(s, k);
      DistinctApart(s, k + 1);
      Unlink(e, s, k);
    }

    /** The heap side of eviction. */
    method Unlist(e: CacheEntry, ghost s: Store<CacheEntry>, ghost k: nat, ghost it: Item)
      requires Heap(s) && Distinct(s.list) && k < |s.list| && s.list[k] == e && e in s.live
      requires s.live[e].retained && it == s.live[e].(retained := false)
      modifies this`head, this`tail, this`abs, this`count, budget`used
      modifies entries`prev, entries`next, e`retained, e`refs, e`buf, e`variant, e.buf
      ensures abs == Retire(s, k) && Heap(abs)
      ensures budget.used == old(budget.used) - (if Held(it) then 0 else Cost(it))
      ensures count == old(count) - (if Held(it) then 0 else 1)
    {
      UnlinkLive(e, s, k, it);
      ReleaseLocked(e, it, s, Retire(s, k));
      assert Linked(abs.list);
    }

    /** Eviction: the entry leaves the list; leased, it keeps body and charge. */
    method RetireLocked(e: CacheEntry, ghost k: nat, ghost pending: int)
      requires Core(pending) && k < |abs.list| && abs.list[k] == e
      modifies this`head, this`tail, this`count, this`abs, budget`used, entries, buffers
      ensures Core(pending) && e in old(abs.live) && abs == Retire(old(abs), k)
    {
      RetireInv(abs, k);
      RetireBalance(abs, k);
      Unlist(e, abs, k, abs.live[e].(retained := false));
    }

    /** One step of a list walk that may retire the entry it stands on. The successor
        is read first, and it is where the walk continues. */
    method VisitLocked(e: CacheEntry, ghost i: nat, drop: bool, ghost pending: int) returns (next: CacheEntry?)
      requires Core(pending) && i < |abs.list| && abs.list[i] == e
      modifies this`head, this`tail, this`count, this`abs, budget`used, entries, buffers
      ensures Core(pending) && e in old(abs.live)
      ensures abs == if drop then Retire(old(abs), i) else old(abs)
      ensures next == At(abs.list, if drop then i else i + 1)
    {
      next := e.next;
      assert next == At(abs.list, i + 1);
      if drop {
        RetireLocked(e, i, pending);
      }
    }

    /** Retires every expired entry, in list order. */
    method SweepLocked(now: int, ghost pending: int)
      requires Core(pending)
      modifies this`head, this`tail, this`count, this`abs, budget`used, entries, buffers
      ensures Core(pending) && abs == Purge(old(abs), 0, Expired(now))
    {
      ghost var p := Expired(now);
      var e := head;
      ghost var i := 0;
      while e != null
        invariant Core(pending) && 0 <= i <= |abs.list| && e == At(abs.list, i)
        invariant Purge(abs, i, p) == Purge(old(abs), 0, p)
        invariant entries == old(entries) && buffers == old(buffers)
        decreases |abs.list| - i
      {
        assert abs.list[i] in abs.list;
        var drop := now >= e.expires;
        e := VisitLocked(e, i, drop, pending);
        i := if drop then i else i + 1;
      }
    }

    method TryReserve(n: nat) returns (ok: bool)
      requires Valid()
      modifies budget`used
      ensures Core(if ok then n else 0) && (ok <==> Charged(abs) + n <= budget.limit)
    {
      ok := budget.Reserve(n);
    }

    /** One round of reservation: admit, give up on an empty list, or evict the oldest. */
    method ReserveOrEvict(n: nat) returns (ok: bool, again: bool)
      requires Valid()
      modifies this`head, this`tail, this`count, this`abs, budget`used, entries, buffers
      ensures Core(if ok then n else 0) && (ok ==> !again)
      ensures EvictBytes(abs, n, budget.limit) == old(EvictBytes(abs, n, budget.limit))
      ensures again ==> |abs.list| < |old(abs.list)|
      ensures !again ==> abs == EvictBytes(abs, n, budget.limit) && (ok <==> Charged(abs) + n <= budget.limit)
    {
      ok := TryReserve(n);
      again := !ok && head != null;
      if again {
        RetireLocked(head, 0, 0);
      }
    }

    /** Reserves `n` bytes, evicting oldest entries while they do not fit. It fails
        only when nothing is left to evict and they still do not fit. */
    method ReserveLocked(n: nat) returns (ok: bool)
      requires Valid()
      modifies this`head, this`tail, this`count, this`abs, budget`used, entries, buffers
      ensures Core(if ok then n else 0) && abs == EvictBytes(old(abs), n, budget.limit)
      ensures ok <==> Charged(abs) + n <= budget.limit
    {
      ghost var goal := EvictBytes(abs, n, budget.limit);
      var again := true;
      ok := false;
      while again
        invariant entries == old(entries) && buffers == old(buffers)
        invariant Core(if ok then n else 0) && (ok ==> !again)
        invariant EvictBytes(abs, n, budget.limit) == goal
        invariant !again ==> abs == goal && (ok <==> Charged(abs) + n <= budget.limit)
        decreases again, |abs.list|
      {
        ok, again := ReserveOrEvict(n);
      }
    }

    /** Scratch bytes just reserved now belong to an open request. */
    ghost method AddOpen()
      requires Core(SCRATCH_BYTES)
      modifies this`abs
      ensures Valid() && abs == old(abs).(open := old(abs.open) + 1)
    {
      OpenInv(abs, 1);
      abs := abs.(open := abs.open + 1);
    }

    /** Admits a request by reserving its scratch space. */
    method Begin(now: int) returns (ok: bool)
      requires Valid()
      modifies this`head, this`tail, this`count, this`abs, budget`used, entries, buffers
      ensures Valid()
      ensures var s := EvictBytes(Purge(old(abs), 0, Expired(now)), SCRATCH_BYTES, budget.limit);
              && ok == (Charged(s) + SCRATCH_BYTES <= budget.limit)
              && abs == if ok then s.(open := s.open + 1) else s
    {
      SweepLocked(now, 0);
      ok := ReserveLocked(SCRATCH_BYTES);
      if ok {
        AddOpen();
      }
    }

    method End(now: int)
      requires Valid() && 0 < abs.open
      modifies this`head, this`tail, this`count, this`abs, budget`used, entries, buffers
      ensures Valid()
      ensures Inv(old(abs).(open := old(abs.open) - 1))
      ensures abs == Purge(old(abs).(open := old(abs.open) - 1), 0, Expired(now))
    {
      OpenInv(abs, -1);
      budget.Release(SCRATCH_BYTES);
      abs := abs.(open := abs.open - 1);
      SweepLocked(now, 0);
    }

    /** One round of slot eviction. */
    method RetireForSlot()
      requires Valid() && count >= limit && head != null
      modifies this`head, this`tail, this`count, this`abs, budget`used, entries, buffers
      ensures Valid() && EvictSlots(abs, limit) == old(EvictSlots(abs, limit)) && |abs.list| < |old(abs.list)|
    {
      RetireLocked(head, 0, 0);
    }

    method EvictForSlots()
      requires Valid()
      modifies this`head, this`tail, this`count, this`abs, budget`used, entries, buffers
      ensures Valid() && abs == EvictSlots(old(abs), limit)
    {
      while count >= limit && head != null
        invariant entries == old(entries) && buffers == old(buffers)
        invariant Valid()
        invariant EvictSlots(abs, limit) == EvictSlots(old(abs), limit)
        decreases |abs.list|
      {
        RetireForSlot();
      }
    }

    /** The heap side of a fresh entry. */
    method NewEntry() returns (e: CacheEntry)
      requires Heap(abs)
      modifies this`abs, this`entries
      ensures Heap(abs) && fresh(e) && abs == AddCandidate(old(abs), e) && e !in old(abs).live
      ensures e in abs.live && e.buf == null && entries == old(entries) + {e}
    {
      e := new CacheEntry();
      assert forall x :: x in abs.live ==> EntryRep(x, abs.live[x], 0);
      entries := entries + {e};
      abs := AddCandidate(abs, e);
    }

    /** A fresh entry joins with one lease and its control charge. */
    method AddEntry() returns (e: CacheEntry)
      requires Core(ENTRY_CONTROL_BYTES) && count < limit
      modifies this`count, this`abs, this`entries
      ensures Valid() && fresh(e) && abs == AddCandidate(old(abs), e)
      ensures e in abs.live && e.buf == null && entries == old(entries) + {e}
    {
      ghost var s := abs;
      e := NewEntry();
      count := count + 1;
      AddCandidateInv(s, e);
    }

    method FreeSlot(now: int)
      requires Valid()
      modifies this`head, this`tail, this`count, this`abs, budget`used, entries, buffers
      ensures Valid() && abs == EvictSlots(Purge(old(abs), 0, Expired(now)), limit)
    {
      SweepLocked(now, 0);
      EvictForSlots();
    }

    /** A slot and control bytes for a new response, evicting if need be; null when
        leased entries alone exhaust the slots or the budget. */
    method Candidate(now: int) returns (e: CacheEntry?)
      requires Valid()
      modifies this`head, this`tail, this`count, this`abs, this`entries, budget`used, entries, buffers
      ensures Valid()
      ensures var s := EvictSlots(Purge(old(abs), 0, Expired(now)), limit);
              var t := EvictBytes(s, ENTRY_CONTROL_BYTES, budget.limit);
              && (e == null <==> |s.live| >= limit || Charged(t) + ENTRY_CONTROL_BYTES > budget.limit)
              && (e == null ==> abs == if |s.live| >= limit then s else t)
              && (e != null ==> fresh(e) && abs == AddCandidate(t, e) && e in abs.live && e.buf == null)
    {
      FreeSlot(now);
      if count >= limit {
        return null;
      }
      EvictBytesEvicts(abs, ENTRY_CONTROL_BYTES, budget.limit);
      var ok := ReserveLocked(ENTRY_CONTROL_BYTES);
      if !ok {
        return null;
      }
      e := AddEntry();
    }

    /** The heap side of dropping a lease. */
    method DropLease(e: CacheEntry, ghost s: Store<CacheEntry>, ghost it: Item)
      requires Heap(s) && e in s.live && 0 < s.live[e].leases
      requires it == s.live[e].(leases := s.live[e].leases - 1)
      modifies this`abs, this`count, budget`used, e`refs, e`buf, e`variant, e.buf
      ensures Heap(abs) && abs == ReleaseLease(s, e)
      ensures budget.used == old(budget.used) - (if Held(it) then 0 else Cost(it))
      ensures count == old(count) - (if Held(it) then 0 else 1)
    {
      assert EntryRep(e, s.live[e], 0);
      ReleaseLocked(e, it, s, ReleaseLease(s, e));
    }

    /** A lease ends; if it was the last hold on the entry, everything is given back. */
    method DropLeaseLocked(e: CacheEntry)
      requires Valid() && e in abs.live && 0 < abs.live[e].leases
      modifies this`abs, this`count, budget`used, entries, buffers
      ensures Valid() && abs == ReleaseLease(old(abs), e)
    {
      ghost var s := abs;
      DropLease(e, abs, abs.live[e].(leases := abs.live[e].leases - 1));
      ReleaseLeaseInv(s, e);
    }

    method Release(e: CacheEntry, now: int)
      requires Valid() && e in abs.live && 0 < abs.live[e].leases
      modifies this`head, this`tail, this`count, this`abs, budget`used, entries, buffers
      ensures Valid() && abs == Purge(ReleaseLease(old(abs), e), 0, Expired(now))
    {
      DropLeaseLocked(e);
      SweepLocked(now, 0);
    }

    /** The heap side of taking a lease. */
    method AddLease(e: CacheEntry)
      requires Heap(abs) && e in abs.live
      modifies this`abs, e`refs
      ensures Heap(abs) && abs == AcquireLease(old(abs), e)
    {
      assert EntryRep(e, abs.live[e], 0);
      abs := AcquireLease(abs, e);
      e.refs := e.refs + 1;
      assert Linked(abs.list);
    }

    method AddLeaseLocked(e: CacheEntry)
      requires Valid() && e in abs.live
      modifies this`abs, entries`refs
      ensures Valid() && abs == AcquireLease(old(abs), e)
    {
      AcquireLeaseInv(abs, e);
      assert EntryRep(e, abs.live[e], 0);
      AddLease(e);
    }

    /** Walks the list for the first entry the request selects. */
    method FindLocked(key: CacheKey, h: Header, p: Option<Policy>) returns (r: CacheEntry?)
      requires Valid()
      ensures r == null <==> FirstMatch(Views(abs), key, h, p).None?
      ensures r != null ==> r in abs.live && r == abs.list[FirstMatch(Views(abs), key, h, p).value]
    {
      ghost var vs := Views(abs);
      var e := head;
      ghost var i := 0;
      while e != null
        invariant 0 <= i <= |abs.list| && e == At(abs.list, i)
        invariant forall k :: 0 <= k < i ==> !Selects(vs[k], key, h, p)
        decreases |abs.list| - i
      {
        assert e in abs.list && EntryRep(e, abs.live[e], 0);
        if Selects(e.variant, key, h, p) {
          FirstMatchIs(vs, i, key, h, p);
          return e;
        }
        e := e.next;
        i := i + 1;
      }
      return null;
    }

    /** The hit for a request, leased; the scan answers what the map would. */
    method LookupLocked(key: CacheKey, h: Header, p: Option<Policy>) returns (r: CacheEntry?)
      requires Valid() && Distinguished(Views(abs))
      modifies this`abs, entries`refs
      ensures Valid()
      ensures match Lookup(Views(old(abs)), key, h, p)
              case None => r == null && abs == old(abs)
              case Some(i) =>
                && i < |old(abs.list)| && r == old(abs.list)[i] && r in old(abs.live)
                && abs == AcquireLease(old(abs), r)
    {
      ScanIsLookup(Views(abs), key, h, p);
      if p.Some? && p.value.unsafe {
        return null;
      }
      r := FindLocked(key, h, p);
      if r != null {
        AddLeaseLocked(r);
      }
    }

    /** Answers exactly what a map keyed by (key, variant values) holds among the
        entries that have not expired. */
    method Get(key: CacheKey, h: Header, p: Option<Policy>, now: int) returns (r: CacheEntry?)
      requires Valid()
      modifies this`head, this`tail, this`count, this`abs, budget`used, entries, buffers
      ensures Valid()
      ensures var s := Purge(old(abs), 0, Expired(now));
              Inv(s) && Distinguished(Views(s)) &&
              match Lookup(Views(s), key, h, p)
              case None => r == null && abs == s
              case Some(i) => i < |s.list| && r == s.list[i] && r in s.live && abs == AcquireLease(s, r)
      ensures r != null ==> r in old(abs).list && r in old(abs).live && now < old(abs).live[r].expires
      ensures r != null ==> LeasedOnce(old(abs), abs, r)
      ensures forall e :: e in old(abs).list && e in old(abs).live ==>
                now < old(abs).live[e].expires && Selects(old(abs).live[e].variant, key, h, p) ==> r == e
    {
      ghost var before := abs;
      SweepLocked(now, 0);
      ViewsDistinguished(abs);
      r := LookupLocked(key, h, p);
      SelectedIsFound(before, now, key, h, p);
    }

    /** Points the entry at a buffer it alone owns. */
    method SetBuffer(e: CacheEntry, buf: ResponseBuffer)
      requires Heap(abs) && e in abs.live && e in entries && Held(abs.live[e])
      requires buf.Valid() && buf.owner == e && buf.budget == budget
      modifies this`abs, this`buffers, e`buf
      ensures Heap(abs) && abs == Rebuffer(old(abs), e, buf, buf.capacity, Payload(buf.body))
      ensures buffers == old(buffers) + {buf} && e.buf == buf
    {
      PointAt(e, buf);
      abs := Rebuffer(abs, e, buf, buf.capacity, Payload(buf.body));
    }

    /** The entry's own field, on being given a buffer. */
    method PointAt(e: CacheEntry, buf: ResponseBuffer)
      requires Rep(abs.live, null) && e in abs.live && e in entries && buf.Valid() && buf.owner == e && buf.budget == budget
      modifies this`buffers, e`buf
      ensures buffers == old(buffers) + {buf} && e.buf == buf && Rep(abs.live, e) && Owned(e)
      ensures EntryRep(e, abs.live[e].(buf := buf, capacity := buf.capacity, body := Payload(buf.body)), 0)
    {
      assert EntryRep(e, abs.live[e], 0);
      buffers := buffers + {buf};
      e.buf := buf;
    }

    /** A buffer of the same capacity changes hands without touching the budget. */
    method SetBufferLocked(e: CacheEntry, buf: ResponseBuffer)
      requires Valid() && e in abs.live && buf.capacity == abs.live[e].capacity
      requires buf.Valid() && buf.owner == e && buf.budget == budget
      modifies this`abs, this`buffers, entries`buf
      ensures Valid() && abs == Rebuffer(old(abs), e, buf, buf.capacity, Payload(buf.body))
      ensures buffers == old(buffers) + {buf} && e.buf == buf
    {
      ghost var s := abs;
      SetBuffer(e, buf);
      RebufferInv(s, e, buf, buf.capacity, Payload(buf.body));
    }

    /** Gives a candidate the (still empty) buffer its response will be captured in. */
    method Attach(e: CacheEntry, buf: ResponseBuffer, now: int)
      requires Valid() && e in abs.live && 0 < abs.live[e].leases && abs.live[e].capacity == 0
      requires buf.Valid() && buf.capacity == 0 && buf.owner == e && buf.budget == budget && buf !in buffers
      modifies this`head, this`tail, this`count, this`abs, this`buffers, budget`used, entries, buffers
      ensures Valid() && e.buf == buf && e in Purge(old(abs), 0, Expired(now)).live
      ensures abs == Rebuffer(Purge(old(abs), 0, Expired(now)), e, buf, 0, EMPTY)
    {
      PurgeEvicts(abs, 0, Expired(now));
      SweepLocked(now, 0);
      SetBufferLocked(e, buf);
    }

    method Fill(buf: ResponseBuffer, p: seq<Byte>) returns (ok: bool)
      requires buf.Valid()
      modifies buf`body, buf`capacity, buf`wroteHeader, buf`overLimit, buf`failureStatus, buf.budget`used
      ensures buf.Valid() && buf.budget.used - old(buf.budget.used) == buf.capacity - old(buf.capacity)
      ensures buf.budget.used <= Max(old(buf.budget.used), buf.budget.limit)
      ensures buf.body == if ok then old(buf.body) + p else old(buf.body)
    {
      ok := buf.Write(p);
    }

    /** The heap side of a body write. */
    method Capture(e: CacheEntry, p: seq<Byte>) returns (ok: bool)
      requires Heap(abs) && e in abs.live && e.buf != null && e.buf.budget == budget && Held(abs.live[e])
      modifies this`abs, e.buf, budget`used
      ensures Heap(abs) && e.buf == old(e.buf) && 0 <= e.buf.capacity
      ensures abs == Rebuffer(old(abs), e, e.buf, e.buf.capacity, Payload(e.buf.body))
      ensures budget.used - old(budget.used) == e.buf.capacity - old(abs.live[e].capacity)
      ensures budget.used <= Max(old(budget.used), budget.limit)
      ensures e.buf.body == if ok then old(e.buf.body) + p else old(e.buf.body)
    {
      assert EntryRep(e, abs.live[e], 0);
      ghost var live := abs.live;
      ok := Fill(e.buf, p);
      abs := Rebuffer(abs, e, e.buf, e.buf.capacity, Payload(e.buf.body));
      assert Linked(abs.list);
      assert Rep(live, e);
    }

    /** Captures a piece of the response, charging any growth of its buffer. */
    method CaptureBody(e: CacheEntry, p: seq<Byte>) returns (ok: bool)
      requires Valid() && e in abs.live && e.buf != null && !abs.live[e].retained
      modifies this`abs, buffers, budget`used
      ensures Valid() && e.buf == old(e.buf) && 0 <= e.buf.capacity
      ensures abs == Rebuffer(old(abs), e, e.buf, e.buf.capacity, Payload(e.buf.body))
      ensures e.buf.body == if ok then old(e.buf.body) + p else old(e.buf.body)
    {
      ghost var s := abs;
      assert Owned(e) && EntryRep(e, abs.live[e], 0);
      ok := Capture(e, p);
      RebufferInv(s, e, e.buf, e.buf.capacity, Payload(e.buf.body));
    }

    /** The heap side of dropping a captured body. */
    method DropBuffer(e: CacheEntry)
      requires Heap(abs) && e in abs.live && e.buf != null && e.buf.budget == budget && Held(abs.live[e])
      modifies this`abs, e.buf, budget`used
      ensures Heap(abs) && e.buf == old(e.buf)
      ensures abs == Rebuffer(old(abs), e, e.buf, 0, EMPTY)
      ensures budget.used == old(budget.used) - old(abs.live[e].capacity)
    {
      assert EntryRep(e, abs.live[e], 0);
      ghost var live := abs.live;
      e.buf.Release();
      abs := Rebuffer(abs, e, e.buf, 0, EMPTY);
      assert Linked(abs.list);
      assert Rep(live, e);
    }

    /** A response that turns to streaming gives its captured body back at once; the
        candidate and its lease stay. */
    method ReleaseBody(e: CacheEntry)
      requires Valid() && e in abs.live && e.buf != null && !abs.live[e].retained
      modifies this`abs, buffers, budget`used
      ensures Valid() && e.buf == old(e.buf) && abs == Rebuffer(old(abs), e, e.buf, 0, EMPTY)
    {
      ghost var s := abs;
      assert Owned(e) && EntryRep(e, abs.live[e], 0);
      DropBuffer(e);
      RebufferInv(s, e, e.buf, 0, EMPTY);
    }

    /** The heap side of giving a candidate its charge and identity. */
    method StageEntry(e: CacheEntry, charge: nat, v: Variant)
      requires Heap(abs) && e in abs.live && e in entries && Held(abs.live[e])
      modifies this`abs, e`charge, e`variant
      ensures Heap(abs) && abs == Stage(old(abs), e, charge, v)
    {
      assert EntryRep(e, abs.live[e], 0);
      ghost var live := abs.live;
      abs := Stage(abs, e, charge, v);
      e.charge := e.charge + charge;
      e.variant := v;
      assert Linked(abs.list);
      assert Rep(live, e);
      assert EntryRep(e, abs.live[e], 0);
    }

    method StageLocked(e: CacheEntry, charge: nat, v: Variant)
      requires Core(charge) && e in abs.live && !abs.live[e].retained
      modifies this`abs, entries`charge, entries`variant
      ensures Valid() && abs == Stage(old(abs), e, charge, v)
    {
      StageInv(abs, e, charge, v);
      StageEntry(e, charge, v);
    }

    /** Retires every entry the new variant displaces. */
    method ReplaceVariantsLocked(v: Variant, h: Header)
      requires Valid()
      modifies this`head, this`tail, this`count, this`abs, budget`used, entries, buffers
      ensures Valid() && abs == Purge(old(abs), 0, Clashes(v, h))
    {
      ghost var p := Clashes(v, h);
      var e := head;
      ghost var i := 0;
      while e != null
        invariant Valid() && 0 <= i <= |abs.list| && e == At(abs.list, i)
        invariant Purge(abs, i, p) == Purge(old(abs), 0, p)
        invariant entries == old(entries) && buffers == old(buffers)
        decreases |abs.list| - i
      {
        assert abs.list[i] in abs.list;
        var drop := Displaced(e.variant, v.key, v.vary, h);
        e := VisitLocked(e, i, drop, 0);
        i := if drop then i else i + 1;
      }
    }

    /** Appends to the doubly linked list. */
    method Append(e: CacheEntry, ghost s: seq<CacheEntry>)
      requires Linked(s) && e in entries && e !in s
      modifies this`head, this`tail, entries`prev, entries`next
      ensures Linked(s + [e])
    {
      e.prev := tail;
      if tail == null {
        head := e;
      } else {
        tail.next := e;
      }
      tail := e;
    }

    /** The heap side of listing an entry: the list takes a reference of its own. */
    method LinkEntry(e: CacheEntry, expires: int)
      requires Heap(abs) && e in abs.live && !abs.live[e].retained && e in entries && e !in abs.list
      modifies this`abs, this`head, this`tail, entries`prev, entries`next, e`expires, e`retained, e`refs
      ensures Heap(abs) && abs == Link(old(abs), e, expires)
    {
      Append(e, abs.list);
      MarkListed(e, expires);
    }

    method MarkListed(e: CacheEntry, expires: int)
      requires Linked(abs.list + [e]) && Rep(abs.live, null) && e in abs.live && !abs.live[e].retained && e in entries
      modifies this`abs, e`expires, e`retained, e`refs
      ensures Heap(abs) && abs == Link(old(abs), e, expires)
    {
      Mark(e, expires);
      abs := Link(abs, e, expires);
    }

    /** The entry's own fields, on being listed. */
    method Mark(e: CacheEntry, expires: int)
      requires Rep(abs.live, null) && e in abs.live && !abs.live[e].retained && e in entries
      modifies e`expires, e`retained, e`refs
      ensures Rep(abs.live, e) && Owned(e) && EntryRep(e, abs.live[e].(expires := expires, retained := true), 0)
    {
      assert EntryRep(e, abs.live[e], 0);
      e.expires, e.retained, e.refs := expires, true, e.refs + 1;
    }

    method LinkLocked(e: CacheEntry, expires: int)
      requires Valid() && e in abs.live && Held(abs.live[e]) && !abs.live[e].retained
      requires Inv(Link(abs, e, expires))
      modifies this`abs, this`head, this`tail, entries
      ensures Valid() && abs == Link(old(abs), e, expires)
    {
      LinkBalance(abs, e, expires);
      LinkEntry(e, expires);
    }

    /** The body moves, uncopied, into a buffer owned by the entry. */
    method OwnBody(e: CacheEntry)
      requires Valid() && e in abs.live && e.buf != null
      modifies this`abs, this`buffers, entries`buf
      ensures Valid() && fresh(e.buf) && buffers == old(buffers) + {e.buf}
      ensures abs == Rebuffer(old(abs), e, e.buf, old(abs.live[e].capacity), old(abs.live[e].body))
    {
      assert Owned(e) && EntryRep(e, abs.live[e], 0);
      var owned := new ResponseBuffer.Copy(e.buf, e);
      SetBufferLocked(e, owned);
    }

    /** Charges and names a candidate, and moves its body into a buffer of its own. */
    method Adopt(e: CacheEntry, charge: nat, v: Variant)
      requires Core(charge) && e in abs.live && e.buf != null && !abs.live[e].retained && 0 < abs.live[e].leases
      modifies this`abs, this`buffers, entries`charge, entries`variant, entries`buf
      ensures Valid() && e.buf != null && buffers == old(buffers) + {e.buf} && fresh(e.buf)
      ensures var a := Stage(old(abs), e, charge, v);
              e in a.live && abs == Rebuffer(a, e, e.buf, a.live[e].capacity, a.live[e].body)
    {
      StageLocked(e, charge, v);
      OwnBody(e);
    }

    /** Installs a candidate whose metadata bytes have just been reserved. */
    method Install(e: CacheEntry, charge: nat, key: CacheKey, h: Header, names: seq<string>, expires: int)
      requires Core(charge) && e in abs.live && e.buf != null
      requires 0 < abs.live[e].leases && !abs.live[e].retained
      modifies this`head, this`tail, this`count, this`abs, this`buffers, budget`used, entries, buffers
      ensures Valid() && e in abs.live
      ensures abs == CacheState.Publish(old(abs), e, charge, abs.live[e].buf, Variant(key, Snapshot(h, names)), h, expires)
    {
      var v := Variant(key, Snapshot(h, names));
      Adopt(e, charge, v);
      ReplaceAndLink(e, key, h, names, expires);
    }

    /** The named candidate displaces what it clashes with and is listed. */
    method ReplaceAndLink(e: CacheEntry, key: CacheKey, h: Header, names: seq<string>, expires: int)
      requires Valid() && e in abs.live && 0 < abs.live[e].leases && !abs.live[e].retained
      requires abs.live[e].variant == Variant(key, Snapshot(h, names))
      modifies this`head, this`tail, this`count, this`abs, budget`used, entries, buffers
      ensures Valid() && e in abs.live && abs.live[e].buf == old(abs).live[e].buf
      ensures var c := Purge(old(abs), 0, Clashes(Variant(key, Snapshot(h, names)), h));
              e in c.live && abs == Link(c, e, expires)
    {
      ReplacedInv(abs, e, key, names, h, expires);
      ReplaceVariantsLocked(Variant(key, Snapshot(h, names)), h);
      LinkLocked(e, expires);
    }

    /** The candidate takes over the finished response buffer. */
    method TakeBuffer(e: CacheEntry, buf: ResponseBuffer, now: int)
      requires Valid() && e in abs.live && 0 < abs.live[e].leases && !abs.live[e].retained
      requires buf.Valid() && buf.owner == e && buf.budget == budget && buf.capacity == abs.live[e].capacity
      requires buf !in buffers
      modifies this`head, this`tail, this`count, this`abs, this`buffers, budget`used, entries, buffers
      ensures Valid() && e.buf == buf
      ensures buf.capacity == old(buf.capacity) && buf.body == old(buf.body)
      ensures buffers == old(buffers) + {buf} && entries == old(entries)
      ensures var s := Purge(old(abs), 0, Expired(now));
              && e in s.live && s.live[e] == old(abs.live[e])
              && abs == Rebuffer(s, e, buf, buf.capacity, Payload(buf.body))
    {
      PurgeKeeps(abs, Expired(now), e);
      SweepLocked(now, 0);
      SetBufferLocked(e, buf);
    }

    /** Reserves the metadata bytes, evicting if need be, and installs the candidate. */
    method ReserveAndInstall(e: CacheEntry, cost: nat, key: CacheKey, h: Header, names: seq<string>, expires: int)
      returns (ok: bool)
      requires Valid() && e in abs.live && 0 < abs.live[e].leases && !abs.live[e].retained && e.buf != null
      modifies this`head, this`tail, this`count, this`abs, this`buffers, budget`used, entries, buffers
      ensures Valid()
      ensures var b := EvictBytes(old(abs), cost, budget.limit);
              && e in b.live && e in abs.live
              && (ok <==> Charged(b) + cost <= budget.limit)
              && abs == if ok then CacheState.Publish(b, e, cost, abs.live[e].buf,
                                                      Variant(key, Snapshot(h, names)), h, expires)
                        else b
    {
      ok := ReserveFor(e, cost);
      if ok {
        Install(e, cost, key, h, names, expires);
      }
    }

    /** Reserving never costs a leased candidate its body. */
    method ReserveFor(e: CacheEntry, cost: nat) returns (ok: bool)
      requires Valid() && e in abs.live && 0 < abs.live[e].leases && e.buf != null
      modifies this`head, this`tail, this`count, this`abs, budget`used, entries, buffers
      ensures Core(if ok then cost else 0) && abs == EvictBytes(old(abs), cost, budget.limit)
      ensures ok <==> Charged(abs) + cost <= budget.limit
      ensures e in abs.live && abs.live[e] == old(abs.live[e]).(retained := abs.live[e].retained)
      ensures e.buf != null && (!old(abs.live[e].retained) ==> !abs.live[e].retained)
    {
      EvictBytesEvicts(abs, cost, budget.limit);
      assert EntryRep(e, abs.live[e], 0);
      ok := ReserveLocked(cost);
      assert EntryRep(e, abs.live[e], 0);
    }

    /** Publishes a finished response: refused when stale, unaccountable, forbidden by
        policy or too big for the budget; otherwise listed in place of the variants
        it displaces. Refusal leaves the candidate with its own body and lease. */
    method Publish(e: CacheEntry, key: CacheKey, h: Header, names: seq<string>, buf: ResponseBuffer,
                   p: Option<Policy>, now: int, later: int, current: bool, expires: int, cost: Option<nat>)
      returns (ok: bool)
      requires Valid() && e in abs.live && 0 < abs.live[e].leases && !abs.live[e].retained
      requires buf.Valid() && buf.owner == e && buf.budget == budget && buf.capacity == abs.live[e].capacity
      requires buf !in buffers
      modifies this`head, this`tail, this`count, this`abs, this`buffers, budget`used, entries, buffers, buf
      ensures Valid()
      ensures var s := Purge(old(abs), 0, Expired(now));
              e in s.live &&
              var a := Rebuffer(s, e, buf, old(buf.capacity), Payload(old(buf.body)));
              if !current || later >= expires || cost.None? || !AllowsNames(p, names) then
                !ok && abs == a
              else
                var b := EvictBytes(a, cost.value, budget.limit);
                && e in b.live && e in abs.live
                && (ok <==> Charged(b) + cost.value <= budget.limit)
                && abs == if ok then CacheState.Publish(b, e, cost.value, abs.live[e].buf,
                                                        Variant(key, Snapshot(h, names)), h, expires)
                          else b
    {
      TakeBuffer(e, buf, now);
      if !current || later >= expires || cost.None? || !AllowsNames(p, names) {
        return false;
      }
      ok := ReserveAndInstall(e, cost.value, key, h, names, expires);
    }
  }
}
