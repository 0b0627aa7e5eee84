/** The rate limiter's bounded store: a table of buckets and a heap of the same
    buckets by retirement time, each bucket knowing its heap position. */
module BucketStore {
  import opened Basics
  import opened TokenBuckets
  import opened BucketHistory
  import opened BucketHeap

  /** The digest of a client key; digests are taken to be collision-free. */
  datatype Key = Digest(bits: int)

  class Bucket {
    const key: Key
    var cell: Cell
    var index: int

    constructor (key: Key, cell: Cell)
      ensures this.key == key && this.cell == cell
    {
      this.key, this.cell, index := key, cell, 0;
    }
  }

  class Store {
    const p: Params
    var buckets: map<Key, Bucket>
    var expiry: seq<Bucket>

    ghost var members: set<Bucket>
    ghost var times: seq<int>
    ghost var held: Held<Key>

    /** The heap holds exactly the members, each at its index. */
    ghost predicate Shape()
      reads this`expiry, this`members, this`times, members`index, members`cell
    {
      && |times| == |expiry|
      && (forall i :: 0 <= i < |expiry| ==>
            expiry[i] in members && expiry[i].index == i && expiry[i].cell.fullAt == times[i])
      && (forall b :: b in members ==> 0 <= b.index < |expiry| && expiry[b.index] == b)
    }

    /** The table holds exactly the members, each under its key. */
    ghost predicate Keyed()
      reads this`buckets, this`members, this`held
    {
      && (forall b :: b in members ==> b.key in buckets && buckets[b.key] == b)
      && (forall k :: k in buckets ==> buckets[k] in members && buckets[k].key == k)
      && (forall k {:trigger k in buckets} {:trigger buckets[k]} :: k in held <==> k in buckets)
    }

    /** Every member's fields are what `held` says. */
    ghost predicate Cells()
      reads this`members, this`held, members`cell
    {
      forall b :: b in members ==> b.key in held && held[b.key] == b.cell
    }

    ghost predicate Valid()
      reads this, members
    {
      Sane(p) && Shape() && Ordered(times, |times|) && Keyed() && Cells() && |held| <= p.limit
    }

    constructor (rate: real, burst: nat, limit: int)
      requires rate > 0.0
      ensures Valid() && held == map[] && fresh(members) && p.rate == rate
      ensures p.capacity == if burst > 0 then burst as real else if rate * 2.0 < 1.0 then 1.0 else rate * 2.0
    {
      var capacity := if burst > 0 then burst as real else if rate * 2.0 < 1.0 then 1.0 else rate * 2.0;
      p := Params(rate, capacity, if limit <= 0 then DEFAULT_MAX_BUCKETS else limit);
      buckets, expiry := map[], [];
      members, times, held := {}, [], map[];
    }

    // ---------- The heap ----------

    method Swap(i: int, j: int)
      requires Shape() && 0 <= i < |expiry| && 0 <= j < |expiry|
      modifies this`expiry, this`times, members`index
      ensures Shape() && times == Swapped(old(times), i, j) && expiry == Swapped(old(expiry), i, j)
    {
      var a, b := expiry[i], expiry[j];
      expiry := expiry[i := b][j := a];
      times := Swapped(times, i, j);
      b.index := i;
      a.index := j;
    }

    /** Sifting up leaves the positions behind alone. */
    method Up(start: int, n: int)
      requires Shape() && 0 <= start < n <= |expiry| && OrderedBelow(times, n, start)
      modifies this`expiry, this`times, members`index
      ensures Shape() && |times| == old(|times|) && Ordered(times, n)
      ensures forall k :: start < k < |expiry| ==> expiry[k] == old(expiry[k])
    {
      var j := start;
      while true
        invariant Shape() && |times| == old(|times|) && 0 <= j <= start && OrderedBelow(times, n, j)
        invariant forall k :: start < k < |expiry| ==> expiry[k] == old(expiry[k])
        decreases j
      {
        var i := if j == 0 then 0 else Parent(j);
        if i == j || !(expiry[j].cell.fullAt < expiry[i].cell.fullAt) {
          UpDone(times, n, j);
          break;
        }
        UpStep(times, n, j);
        Swap(i, j);
        j := i;
      }
    }

    /** The least child of `i` among the first `n` if it belongs above `i`, else `i`. */
    method Riser(i: int, n: int) returns (j: int)
      requires Shape() && 0 <= i < n <= |expiry|
      ensures j == i ==> forall c :: 0 < c < n && Parent(c) == i ==> times[i] <= times[c]
      ensures j != i ==> i < j < n && Parent(j) == i && times[j] < times[i]
      ensures j != i ==> forall c :: 0 < c < n && Parent(c) == i ==> times[j] <= times[c]
    {
      j := 2 * i + 1;
      if j >= n {
        return i;
      }
      if j + 1 < n && expiry[j + 1].cell.fullAt < expiry[j].cell.fullAt {
        j := j + 1;
      }
      LeastChild(times, n, i, j);
      if !(expiry[j].cell.fullAt < expiry[i].cell.fullAt) {
        j := i;
      }
    }

    method Sink(i: int, j: int, n: int)
      requires Shape() && 0 <= i < j < n <= |expiry| && Parent(j) == i && OrderedAround(times, n, i)
      requires times[j] < times[i] && forall c :: 0 < c < n && Parent(c) == i ==> times[j] <= times[c]
      modifies this`expiry, this`times, members`index
      ensures Shape() && |times| == old(|times|) && OrderedAround(times, n, j) && Edge(times, j)
      ensures forall k :: n <= k < |expiry| ==> expiry[k] == old(expiry[k])
    {
      DownStep(times, n, i, j);
      Swap(i, j);
    }

    method Down(start: int, n: int) returns (moved: bool)
      requires Shape() && 0 <= start < n <= |expiry| && OrderedAround(times, n, start)
      modifies this`expiry, this`times, members`index
      ensures Shape() && |times| == old(|times|)
      ensures moved || start == 0 ==> Ordered(times, n)
      ensures !moved ==> OrderedBelow(times, n, start)
      ensures forall k :: n <= k < |expiry| ==> expiry[k] == old(expiry[k])
    {
      var i := start;
      while true
        invariant Shape() && |times| == old(|times|) && start <= i < n && OrderedAround(times, n, i)
        invariant i > start ==> Edge(times, i)
        invariant forall k :: n <= k < |expiry| ==> expiry[k] == old(expiry[k])
        decreases n - i
      {
        var j := Riser(i, n);
        if j == i {
          break;
        }
        Sink(i, j, n);
        i := j;
      }
      DownDone(times, n, i);
      moved := i > start;
    }

    method Fix(i: int)
      requires Shape() && 0 <= i < |expiry| && OrderedAround(times, |times|, i)
      modifies this`expiry, this`times, members`index
      ensures Shape() && |times| == old(|times|) && Ordered(times, |times|)
    {
      var moved := Down(i, |expiry|);
      if !moved {
        Up(i, |expiry|);
      }
    }

    method PushHeap(b: Bucket)
      requires Shape() && Ordered(times, |times|) && b !in members
      modifies this`expiry, this`times, this`members, members`index, b`index
      ensures members == old(members) + {b} && Shape() && Ordered(times, |times|)
    {
      AppendBelow(times, b.cell.fullAt);
      b.index := |expiry|;
      expiry := expiry + [b];
      times := times + [b.cell.fullAt];
      members := members + {b};
      Up(|expiry| - 1, |expiry|);
    }

    /** Cuts off the last heap position. */
    method CutLast() returns (b: Bucket)
      requires Shape() && 0 < |expiry| && Ordered(times, |times| - 1)
      modifies this`expiry, this`times, this`members
      ensures b == old(expiry[|expiry| - 1]) && b in old(members) && members == old(members) - {b}
      ensures Shape() && Ordered(times, |times|)
    {
      PrefixOrdered(times, |times| - 1);
      b := expiry[|expiry| - 1];
      expiry := expiry[..|expiry| - 1];
      times := times[..|times| - 1];
      members := members - {b};
    }

    method PopHeap() returns (b: Bucket)
      requires Shape() && 0 < |expiry| && Ordered(times, |times|)
      modifies this`expiry, this`times, this`members, members`index
      ensures b == old(expiry[0]) && members == old(members) - {b}
      ensures Shape() && Ordered(times, |times|)
    {
      var n := |expiry| - 1;
      SwapOut(times, 0);
      Swap(0, n);
      if 0 < n {
        var _ := Down(0, n);
      }
      b := CutLast();
    }

    method RemoveHeap(i: int) returns (b: Bucket)
      requires Shape() && 0 <= i < |expiry| && Ordered(times, |times|)
      modifies this`expiry, this`times, this`members, members`index
      ensures b == old(expiry[i]) && members == old(members) - {b}
      ensures Shape() && Ordered(times, |times|)
    {
      var n := |expiry| - 1;
      if n != i {
        SwapOut(times, i);
        Swap(i, n);
        var moved := Down(i, n);
        if !moved {
          Up(i, n);
        }
      }
      b := CutLast();
    }

    // ---------- The store ----------

    lemma OldestAtRoot()
      requires Valid() && 0 < |expiry|
      ensures Oldest(held, expiry[0].key)
    {
      forall k | k in held
        ensures held[expiry[0].key].fullAt <= held[k].fullAt
      {
        RootLeast(times, |times|, buckets[k].index);
      }
    }

    /** Takes a bucket out of the table once it is out of the heap. */
    method Delete(b: Bucket)
      requires Sane(p) && Shape() && Ordered(times, |times|) && |held| <= p.limit
      requires b !in members && b.key in held
      requires forall m :: m in members ==> m.key != b.key && m.key in buckets && buckets[m.key] == m
      requires forall k :: k in buckets && k != b.key ==> buckets[k] in members && buckets[k].key == k
      requires (forall k {:trigger k in buckets} {:trigger buckets[k]} :: k in held <==> k in buckets) && Cells()
      modifies this`buckets, this`held
      ensures Valid() && held == Drop(old(held), b.key) && |held| == old(|held|) - 1
    {
      DropSize(held, b.key);
      buckets := buckets - {b.key};
      held := Drop(held, b.key);
    }

    method DropOldest() returns (b: Bucket)
      requires Valid() && 0 < |expiry|
      modifies this`expiry, this`times, this`members, this`buckets, this`held, members`index
      ensures Valid() && Oldest(old(held), b.key) && held == Drop(old(held), b.key) && |held| == old(|held|) - 1
      ensures b == old(expiry[0]) && members == old(members) - {b}
    {
      OldestAtRoot();
      b := PopHeap();
      Delete(b);
    }

    method DropIdle(b: Bucket)
      requires Valid() && b in members
      modifies this`expiry, this`times, this`members, this`buckets, this`held, members`index
      ensures Valid() && held == Drop(old(held), b.key) && |held| == old(|held|) - 1
      ensures members == old(members) - {b}
    {
      var gone := RemoveHeap(b.index);
      Delete(gone);
    }

    /** Overwrites a member's fields; its heap position may now be wrong. */
    method Assign(b: Bucket, c: Cell)
      requires Valid() && b in members
      modifies this`times, this`held, b`cell
      ensures Shape() && Keyed() && Cells() && |held| <= p.limit && b in members
      ensures held == old(held)[b.key := c] && times == old(times)[b.index := c.fullAt]
    {
      b.cell := c;
      times, held := times[b.index := c.fullAt], held[b.key := c];
      assert held.Keys == old(held).Keys;
    }

    /** Overwrites a member's accounting; its retirement time stays. */
    method Account(b: Bucket, c: Cell)
      requires Valid() && b in members && c.fullAt == b.cell.fullAt
      modifies this`times, this`held, b`cell
      ensures Valid() && b in members && held == old(held)[b.key := c]
    {
      assert times[b.index := c.fullAt] == times;
      Assign(b, c);
    }

    /** Overwrites a member's fields and restores its place in the heap. */
    method Place(b: Bucket, c: Cell)
      requires Valid() && b in members
      modifies this`expiry, this`times, this`held, members`index, b`cell
      ensures Valid() && b in members && held == old(held)[b.key := c]
    {
      ChangeAround(times, |times|, b.index, c.fullAt);
      Assign(b, c);
      Fix(b.index);
    }

    method Refresh(b: Bucket, now: int)
      requires Valid() && b in members
      modifies this`times, this`held, b`cell
      ensures Valid() && b in members && held == old(held)[b.key := Refill(p, old(b.cell), now)]
    {
      if now > b.cell.last {
        Account(b, b.cell.(tokens := TokensAt(p, b.cell, now), last := now));
      } else {
        assert held[b.key := held[b.key]] == held;
      }
    }

    method IndexBucket(b: Bucket, now: int, policy: Policy, fullAt: int)
      requires Valid() && b in members
      modifies this`expiry, this`times, this`held, members`index, b`cell
      ensures Valid() && held == old(held)[b.key := Indexed(old(b.cell), now, policy, fullAt)]
    {
      var idleAt := if policy.idleTTL > 0 then Some(now + policy.idleTTL) else None;
      var at := fullAt;
      if policy.evictIdle || (idleAt.Some? && idleAt.value < at) {
        at := if idleAt.Some? then idleAt.value else ZERO_TIME;
      }
      Place(b, b.cell.(fullAt := at, idleAt := idleAt));
    }

    /** The oldest bucket is past its deadline: drop it if it is full or idle, or
        give it a new deadline. */
    method Recheck(now: int) returns (ok: bool, ghost victim: Key)
      requires Valid() && 0 < |expiry| && expiry[0].cell.fullAt <= now
      modifies this`expiry, this`times, this`members, this`buckets, this`held, members
      ensures Valid() && Sought(p, old(held), now, victim, ok, held) && members <= old(members)
      ensures |held| == old(|held|) - (if ok then 1 else 0)
    {
      OldestAtRoot();
      var b := expiry[0];
      victim := b.key;
      ghost var was := b.cell;
      Refresh(b, now);
      assert b.cell == held[b.key] == Refill(p, was, now);
      if !IdleExpired(b.cell, now) && b.cell.tokens < p.capacity {
        Rewritten(old(held), victim, b.cell, Rechecked(p, was, now));
        Place(b, b.cell.(fullAt := Deadline(p, b.cell)));
        ok := false;
      } else {
        assert Drop(held, victim) == Drop(old(held), victim);
        var _ := DropOldest();
        ok := true;
      }
    }

    method Retire(now: int) returns (ok: bool, ghost victim: Key)
      requires Valid() && 0 < |expiry|
      modifies this`expiry, this`times, this`members, this`buckets, this`held, members
      ensures Valid() && Sought(p, old(held), now, victim, ok, held) && members <= old(members)
      ensures |held| == old(|held|) - (if ok then 1 else 0)
    {
      if now < expiry[0].cell.fullAt {
        OldestAtRoot();
        victim := expiry[0].key;
        assert held[victim := held[victim]] == held;
        ok := false;
      } else {
        ok, victim := Recheck(now);
      }
    }

    method Enter(b: Bucket)
      requires Valid() && b !in members && b.key !in held && |held| < p.limit
      modifies this`expiry, this`times, this`members, this`buckets, this`held, members`index, b`index
      ensures Valid() && members == old(members) + {b} && held == old(held)[b.key := b.cell]
    {
      assert (held[b.key := b.cell]).Keys == held.Keys + {b.key};
      PushHeap(b);
      buckets, held := buckets[b.key := b], held[b.key := b.cell];
    }

    method AddBucket(key: Key, now: int) returns (b: Bucket)
      requires Valid() && key !in held && |held| < p.limit
      modifies this`expiry, this`times, this`members, this`buckets, this`held, members`index
      ensures Valid() && b in members && b.key == key && b.cell == NewCell(p, now)
      ensures fresh(b) && members == old(members) + {b} && held == old(held)[key := NewCell(p, now)]
    {
      b := new Bucket(key, NewCell(p, now));
      Enter(b);
    }

    /** Refill, and take a token if there is one. */
    method Charge(b: Bucket, now: int) returns (status: int)
      requires Valid() && b in members
      modifies this`times, this`held, b`cell
      ensures Valid() && b in members && held == old(held)[b.key := Spend(Refill(p, old(b.cell), now))]
      ensures b.cell == Spend(Refill(p, old(b.cell), now)) && status == Answer(Refill(p, old(b.cell), now))
    {
      Refresh(b, now);
      assert b.cell == held[b.key] == Refill(p, old(b.cell), now);
      status := LIMITED;
      if b.cell.tokens >= 1.0 {
        Rewritten(old(held), b.key, b.cell, Spend(b.cell));
        Account(b, b.cell.(tokens := b.cell.tokens - 1.0));
        status := ADMITTED;
      }
    }

    method Serve(b: Bucket, now: int, policy: Policy) returns (status: int)
      requires Valid() && b in members
      modifies this`expiry, this`times, this`held, members`index, b`cell
      ensures Valid() && held == old(held)[b.key := Touch(p, old(b.cell), now, policy)]
      ensures status == Answer(Refill(p, old(b.cell), now))
    {
      status := Charge(b, now);
      Rewritten(old(held), b.key, b.cell, Indexed(b.cell, now, policy, Deadline(p, b.cell)));
      IndexBucket(b, now, policy, Deadline(p, b.cell));
    }

    /** A held key has a bucket in the heap. */
    lemma NotEmpty(k: Key)
      requires Valid() && k in held
      ensures 0 < |expiry|
    {
      assert k in buckets;
    }

    lemma SameSize()
      requires Valid()
      ensures |held| == |buckets|
    {
      assert forall k :: k in held.Keys ==> k in buckets;
      assert forall k :: k in buckets.Keys ==> k in buckets;
      assert held.Keys == buckets.Keys;
    }

    /** Makes room for a new key, or fails. */
    method MakeRoom(now: int, policy: Policy) returns (ok: bool, ghost victim: Key, ghost found: bool, ghost mid: Held<Key>, ghost second: Key)
      requires Valid() && |held| == p.limit
      modifies this`expiry, this`times, this`members, this`buckets, this`held, members
      ensures Valid() && members <= old(members) && Sought(p, old(held), now, victim, found, mid)
      ensures ok == (found || policy.evictIdle) && held.Keys <= old(held).Keys
      ensures ok ==> |held| < p.limit
      ensures found || !ok ==> held == mid
      ensures !found && ok ==> Oldest(mid, second) && held == Drop(mid, second)
    {
      assert |held.Keys| == |held|;
      ghost var k :| k in held.Keys;
      NotEmpty(k);
      ok, victim := Retire(now);
      found, mid, second := ok, held, victim;
      if !ok && policy.evictIdle {
        NotEmpty(victim);
        var oldest := DropOldest();
        second := oldest.key;
        ok := true;
      }
    }

    /** Serves a key that has no bucket, when a slot is free. */
    method Admit(key: Key, now: int, policy: Policy) returns (status: int)
      requires Valid() && key !in held && |held| < p.limit
      modifies this`expiry, this`times, this`members, this`buckets, this`held, members
      ensures Valid() && Admits(p, old(held), key, now, policy, held, status)
      ensures fresh(members - old(members))
    {
      var b := AddBucket(key, now);
      Rewritten(old(held), key, b.cell, Touch(p, b.cell, now, policy));
      status := Serve(b, now, policy);
    }

    /** Serves a key that has no bucket. */
    method AllowNew(key: Key, now: int, policy: Policy) returns (status: int)
      requires Valid() && key !in held
      modifies this`expiry, this`times, this`members, this`buckets, this`held, members
      ensures Valid() && fresh(members - old(members))
      ensures if old(|held|) < p.limit then Admits(p, old(held), key, now, policy, held, status)
              else Seeks(p, old(held), key, now, policy, held, status)
    {
      SameSize();
      if |buckets| >= p.limit {
        var ok, v, found, mid, w := MakeRoom(now, policy);
        if !ok {
          return EXHAUSTED;
        }
      }
      status := Admit(key, now, policy);
    }

    /** One request: the table and the heap move as `Allow` says. */
    method AllowWithPolicy(key: Key, now: int, policy: Policy) returns (status: int)
      requires Valid()
      modifies this`expiry, this`times, this`members, this`buckets, this`held, members
      ensures Valid() && fresh(members - old(members))
      ensures Allow(p, old(held), key, now, policy, held, status)
      ensures Pays(p, old(held), key, now, held, status)
      ensures status != EXHAUSTED ==> Stamped(p, now, policy, key, held)
    {
      status := AllowLocked(key, now, policy);
      AllowPays(p, old(held), key, now, policy, held, status);
      AllowStamps(p, old(held), key, now, policy, held, status);
    }

    method AllowLocked(key: Key, now: int, policy: Policy) returns (status: int)
      requires Valid()
      modifies this`expiry, this`times, this`members, this`buckets, this`held, members
      ensures Valid() && fresh(members - old(members))
      ensures Allow(p, old(held), key, now, policy, held, status)
    {
      if key in buckets {
        var b := buckets[key];
        if !IdleExpired(b.cell, now) {
          status := Serve(b, now, policy);
          return;
        }
        DropIdle(b);
      }
      status := AllowNew(key, now, policy);
    }
  }

  const DEFAULT_MAX_BUCKETS: nat := 65536

  lemma LeastChild(t: seq<int>, n: int, i: int, j: int)
    requires 0 <= i < j < n <= |t| && (j == 2 * i + 1 || j == 2 * i + 2)
    requires j == 2 * i + 1 && j + 1 < n ==> t[j] <= t[j + 1]
    requires j == 2 * i + 2 ==> t[j] <= t[j - 1]
    ensures Parent(j) == i && forall c :: 0 < c < n && Parent(c) == i ==> t[j] <= t[c]
  {
  }

  /** Moving the last value into position `i` leaves the rest in order. */
  lemma SwapOut(t: seq<int>, i: int)
    requires 0 <= i < |t| && Ordered(t, |t|)
    ensures OrderedAround(Swapped(t, i, |t| - 1), |t| - 1, i)
  {
    var n := |t| - 1;
    ChangeAround(t, n, i, t[n]);
    var u := Swapped(t, i, n);
    forall c | 0 < c < n
      ensures u[c] == t[i := t[n]][c] && u[Parent(c)] == t[i := t[n]][Parent(c)]
    {
    }
    forall c | 0 < c < n && c != i && Parent(c) != i
      ensures Edge(u, c)
    {
      assert Edge(t[i := t[n]], c);
    }
  }

  lemma Rewritten(s: Held<Key>, k: Key, c: Cell, d: Cell)
    ensures s[k := c][k := d] == s[k := d]
  {
  }
}
