/** Token buckets as values, and one admission step of the bounded store that holds
    them. Tokens are exact reals; times are nanoseconds. */
module TokenBuckets {
  import opened Basics

  const MAX_DELAY: int := 0x7FFF_FFFF_FFFF_FFFF
  const NANOS: real := 1_000_000_000.0

  const ADMITTED := 0
  const LIMITED := 429
  const EXHAUSTED := 503

  /** A bucket's accounting and its place in the retirement order. */
  datatype Cell = Cell(tokens: real, last: int, fullAt: int, idleAt: Option<int>)

  /** Rate per second, burst capacity, and how many keys may be tracked. */
  datatype Params = Params(rate: real, capacity: real, limit: nat)

  /** The idle policy of a request. */
  datatype Policy = Policy(idleTTL: int, evictIdle: bool)

  const PLAIN := Policy(0, false)

  /** The zero time, before every clock reading. */
  const ZERO_TIME: int := -62_135_596_800_000_000_000

  ghost predicate Sane(p: Params) { p.rate > 0.0 && p.capacity > 0.0 && 0 < p.limit }

  function MinReal(a: real, b: real): real { if b < a then b else a }

  /** Tokens earned over a span of nanoseconds. */
  function Earned(p: Params, span: int): real { span as real / NANOS * p.rate }

  /** The tokens of a bucket as seen at time `t`. */
  function TokensAt(p: Params, c: Cell, t: int): real {
    if t > c.last then MinReal(p.capacity, c.tokens + Earned(p, t - c.last)) else c.tokens
  }

  function Refill(p: Params, c: Cell, now: int): Cell {
    if now > c.last then c.(tokens := TokensAt(p, c, now), last := now) else c
  }

  /** Rounded up to whole nanoseconds. */
  function Ceil(x: real): int { -(-x).Floor }

  function Delay(p: Params, missing: real): int
    requires p.rate > 0.0
  {
    var nanos := Ceil(missing / p.rate * NANOS);
    if nanos < MAX_DELAY then nanos else MAX_DELAY
  }

  function Deadline(p: Params, c: Cell): int
    requires p.rate > 0.0
  {
    c.last + Delay(p, p.capacity - c.tokens)
  }

  predicate IdleExpired(c: Cell, now: int) { c.idleAt.Some? && now >= c.idleAt.value }

  function NewCell(p: Params, now: int): Cell { Cell(p.capacity, now, ZERO_TIME, None) }

  /** Places a bucket in the retirement order under the request's idle policy. */
  function Indexed(c: Cell, now: int, policy: Policy, fullAt: int): Cell {
    var idleAt := if policy.idleTTL > 0 then Some(now + policy.idleTTL) else None;
    var at := if policy.evictIdle then (if idleAt.None? then ZERO_TIME else idleAt.value)
              else if idleAt.Some? && idleAt.value < fullAt then idleAt.value
              else fullAt;
    c.(idleAt := idleAt, fullAt := at)
  }

  function Spend(c: Cell): Cell { if c.tokens >= 1.0 then c.(tokens := c.tokens - 1.0) else c }

  function Answer(c: Cell): int { if c.tokens >= 1.0 then ADMITTED else LIMITED }

  /** Refill, take a token if there is one, and re-index. */
  function Touch(p: Params, c: Cell, now: int, policy: Policy): Cell
    requires p.rate > 0.0
  {
    var spent := Spend(Refill(p, c, now));
    Indexed(spent, now, policy, Deadline(p, spent))
  }

  // ---------- The bounded store ----------

  type Held<K> = map<K, Cell>

  ghost predicate Oldest<K(!new)>(s: Held<K>, v: K) {
    v in s && forall k :: k in s ==> s[v].fullAt <= s[k].fullAt
  }

  ghost function Drop<K>(s: Held<K>, k: K): Held<K> { s - {k} }

  lemma DropSize<K>(s: Held<K>, k: K)
    requires k in s
    ensures |Drop(s, k)| == |s| - 1
  {
    assert Drop(s, k).Keys == s.Keys - {k};
  }

  /** The bucket is worth a full one, or has idled out: nobody can tell it is gone. */
  predicate Retirable(p: Params, c: Cell, now: int) {
    now >= c.fullAt && (IdleExpired(c, now) || TokensAt(p, c, now) >= p.capacity)
  }

  /** A bucket whose deadline passed but which is not yet full gets a new deadline. */
  function Rechecked(p: Params, c: Cell, now: int): Cell
    requires p.rate > 0.0
  {
    if now < c.fullAt then c else var r := Refill(p, c, now); r.(fullAt := Deadline(p, r))
  }

  /** What the store looks like once a slot has been sought for a new key: `v` is the
      oldest bucket, and on failure it may have been rechecked. */
  ghost predicate Sought<K(!new)>(p: Params, s: Held<K>, now: int, v: K, found: bool, t: Held<K>)
    requires p.rate > 0.0
  {
    && Oldest(s, v)
    && found == Retirable(p, s[v], now)
    && t == if found then Drop(s, v) else s[v := Rechecked(p, s[v], now)]
  }

  ghost predicate Admits<K>(p: Params, s: Held<K>, key: K, now: int, policy: Policy, t: Held<K>, status: int)
    requires p.rate > 0.0
  {
    var c := if key in s then s[key] else NewCell(p, now);
    t == s[key := Touch(p, c, now, policy)] && status == Answer(Refill(p, c, now))
  }

  /** A slot is found, or the request is turned away, or the oldest bucket is evicted. */
  ghost predicate Seeks<K(!new)>(p: Params, s: Held<K>, key: K, now: int, policy: Policy, t: Held<K>, status: int)
    requires p.rate > 0.0
  {
    exists v, found, a ::
      Sought(p, s, now, v, found, a) &&
      if found then Admits(p, a, key, now, policy, t, status)
      else if !policy.evictIdle then t == a && status == EXHAUSTED
      else exists w :: Oldest(a, w) && Admits(p, Drop(a, w), key, now, policy, t, status)
  }

  /** One request against the bounded store. */
  ghost predicate Allow<K(!new)>(p: Params, s: Held<K>, key: K, now: int, policy: Policy, t: Held<K>, status: int)
    requires p.rate > 0.0
  {
    var a := if key in s && IdleExpired(s[key], now) then Drop(s, key) else s;
    if key in a || |a| < p.limit then Admits(p, a, key, now, policy, t, status)
    else Seeks(p, a, key, now, policy, t, status)
  }

  // ---------- Refill arithmetic ----------

  lemma EarnedSplits(p: Params, a: int, b: int)
    ensures Earned(p, a + b) == Earned(p, a) + Earned(p, b)
  {
    var x, y := a as real / NANOS, b as real / NANOS;
    assert (a + b) as real / NANOS == x + y;
    assert (x + y) * p.rate == x * p.rate + y * p.rate;
  }

  lemma EarnedNonNegative(p: Params, span: int)
    requires p.rate > 0.0 && 0 <= span
    ensures 0.0 <= Earned(p, span)
  {
    var x := span as real / NANOS;
    assert 0.0 <= x * p.rate;
  }

  /** Refilling on the way changes nothing later. */
  lemma RefillComposes(p: Params, c: Cell, now: int, t: int)
    requires p.rate > 0.0 && c.tokens <= p.capacity && now <= t
    ensures TokensAt(p, Refill(p, c, now), t) == TokensAt(p, c, t)
    ensures Refill(p, c, now).tokens <= p.capacity
  {
    if c.last < now < t {
      EarnedSplits(p, now - c.last, t - now);
      EarnedNonNegative(p, t - now);
    }
  }

  lemma FullStaysFull(p: Params, c: Cell, now: int, t: int)
    requires p.rate > 0.0 && c.tokens <= p.capacity && now <= t && TokensAt(p, c, now) >= p.capacity
    ensures TokensAt(p, c, t) == p.capacity
  {
    if c.last < t {
      if c.last < now {
        EarnedSplits(p, now - c.last, t - now);
      }
      EarnedNonNegative(p, t - now);
      EarnedNonNegative(p, t - c.last);
    }
  }

  /** The deadline is the first whole nanosecond at which the bucket is full. */
  lemma DeadlineExact(p: Params, c: Cell, now: int)
    requires p.rate > 0.0 && c.tokens <= p.capacity && c.last <= now
    requires Ceil((p.capacity - c.tokens) / p.rate * NANOS) < MAX_DELAY
    ensures now >= Deadline(p, c) <==> TokensAt(p, c, now) >= p.capacity
  {
    var missing := p.capacity - c.tokens;
    var span := now - c.last;
    var x := missing / p.rate * NANOS;
    CeilBound(x, span);
    assert x <= span as real <==> missing <= Earned(p, span) by {
      ScaleCompare(missing, p.rate, span as real);
    }
  }

  lemma CeilBound(x: real, n: int)
    ensures Ceil(x) <= n <==> x <= n as real
  {
  }

  lemma ScaleCompare(missing: real, rate: real, span: real)
    requires rate > 0.0
    ensures missing / rate * NANOS <= span <==> missing <= span / NANOS * rate
  {
    var q := missing / rate;
    assert q * rate == missing;
    var s := span / NANOS;
    assert q <= s <==> q * rate <= s * rate;
  }
}
