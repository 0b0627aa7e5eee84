/** What each answer of the rate limiter was, told from the requests and answers before it
    alone: an account per key that opens full, earns at the rate up to the capacity, and pays
    exactly one token for each admission. */
module BucketHistory {
  import opened TokenBuckets
  import opened UnboundedBuckets

  /** The account of a key nobody asked for yet, or its balance at its last request. */
  datatype Account = Unopened | Balance(tokens: real, at: int)

  /** What an account is worth at time `t`. */
  ghost function Worth(p: Params, a: Account, t: int): real {
    if a.Unopened? then p.capacity
    else
      var grown := a.tokens + (t - a.at) as real / 1_000_000_000.0 * p.rate;
      if grown < p.capacity then grown else p.capacity
  }

  /** The account of `key` after the first `n` requests. Requests of other keys, and those
      turned away untracked, leave it alone. */
  ghost function AccountAfter<K>(p: Params, reqs: seq<Request<K>>, answers: seq<int>, key: K, n: nat): Account
    requires n <= |reqs| == |answers|
  {
    if n == 0 then Unopened
    else
      var a := AccountAfter(p, reqs, answers, key, n - 1);
      if reqs[n - 1].key != key || answers[n - 1] == EXHAUSTED then a
      else Balance(Worth(p, a, reqs[n - 1].now) - (if answers[n - 1] == ADMITTED then 1.0 else 0.0), reqs[n - 1].now)
  }

  /** The unbounded store's bucket is the account. */
  ghost predicate Mirrors<K>(p: Params, d: Ideal<K>, key: K, a: Account, clock: int) {
    if a.Unopened? then key !in d
    else key in d && d[key].tokens == a.tokens <= p.capacity && d[key].last == a.at <= clock
  }

  lemma MirrorWorth<K>(p: Params, d: Ideal<K>, key: K, a: Account, clock: int, now: int)
    requires Mirrors(p, d, key, a, clock) && clock <= now
    ensures var c := Refill(p, IdealCell(p, d, key, now), now);
            c.tokens == Worth(p, a, now) <= p.capacity && c.last == now
  {
    if a.Balance? && now == a.at {
      assert (now - a.at) as real / 1_000_000_000.0 * p.rate == 0.0;
    }
  }

  lemma MirrorStep<K>(p: Params, d: Ideal<K>, key: K, a: Account, clock: int, now: int, status: int)
    requires Mirrors(p, d, key, a, clock) && clock <= now && (status == EXHAUSTED || status == IdealAnswer(p, d, key, now))
    ensures status != EXHAUSTED ==>
              Mirrors(p, Charged(p, d, key, now, status), key,
                      Balance(Worth(p, a, now) - (if status == ADMITTED then 1.0 else 0.0), now), now)
  {
    MirrorWorth(p, d, key, a, clock, now);
  }

  lemma {:induction false} AccountMirrors<K(!new)>(p: Params, states: seq<Held<K>>, reqs: seq<Request<K>>, answers: seq<int>,
                                                   key: K, n: nat)
    requires Run(p, PLAIN, states, reqs, answers) && n <= |reqs|
    ensures Mirrors(p, IdealAfter(p, reqs, answers, n), key, AccountAfter(p, reqs, answers, key, n), Clock(reqs, n))
  {
    if n > 0 {
      AccountMirrors(p, states, reqs, answers, key, n - 1);
      if answers[n - 1] != EXHAUSTED {
        RetirementUnobservable(p, states, reqs, answers, n - 1);
      }
      if reqs[n - 1].key == key {
        MirrorStep(p, IdealAfter(p, reqs, answers, n - 1), key, AccountAfter(p, reqs, answers, key, n - 1),
                   Clock(reqs, n - 1), reqs[n - 1].now, answers[n - 1]);
      }
    }
  }

  /** Unless it is turned away untracked, a request is admitted exactly when its key's
      account holds a whole token, and is answered 429 otherwise. */
  lemma AnswerFromHistory<K(!new)>(p: Params, states: seq<Held<K>>, reqs: seq<Request<K>>, answers: seq<int>, i: nat)
    requires Run(p, PLAIN, states, reqs, answers) && i < |reqs| && answers[i] != EXHAUSTED
    ensures var worth := Worth(p, AccountAfter(p, reqs, answers, reqs[i].key, i), reqs[i].now);
            answers[i] == if worth >= 1.0 then ADMITTED else LIMITED
  {
    var d := IdealAfter(p, reqs, answers, i);
    AccountMirrors(p, states, reqs, answers, reqs[i].key, i);
    RetirementUnobservable(p, states, reqs, answers, i);
    MirrorWorth(p, d, reqs[i].key, AccountAfter(p, reqs, answers, reqs[i].key, i), Clock(reqs, i), reqs[i].now);
  }

  /** An admission costs its key exactly one token; nothing else costs anyone anything. */
  lemma CreditExact<K(!new)>(p: Params, states: seq<Held<K>>, reqs: seq<Request<K>>, answers: seq<int>, key: K, i: nat)
    requires Run(p, PLAIN, states, reqs, answers) && i < |reqs|
    ensures var now := reqs[i].now;
            Worth(p, AccountAfter(p, reqs, answers, key, i + 1), now) ==
            Worth(p, AccountAfter(p, reqs, answers, key, i), now)
              - (if reqs[i].key == key && answers[i] == ADMITTED then 1.0 else 0.0)
    ensures Credit(p, IdealAfter(p, reqs, answers, i + 1), key, reqs[i].now) ==
            Credit(p, IdealAfter(p, reqs, answers, i), key, reqs[i].now)
              - (if reqs[i].key == key && answers[i] == ADMITTED then 1.0 else 0.0)
  {
    AccountMirrors(p, states, reqs, answers, key, i);
    AccountMirrors(p, states, reqs, answers, key, i + 1);
    MirrorWorth(p, IdealAfter(p, reqs, answers, i), key, AccountAfter(p, reqs, answers, key, i), Clock(reqs, i), reqs[i].now);
    MirrorWorth(p, IdealAfter(p, reqs, answers, i + 1), key, AccountAfter(p, reqs, answers, key, i + 1), reqs[i].now, reqs[i].now);
  }

  /** Requests of one key among the first `n` that were tracked. */
  ghost function Asked<K>(reqs: seq<Request<K>>, answers: seq<int>, key: K, n: nat): nat
    requires n <= |reqs| == |answers|
  {
    if n == 0 then 0
    else Asked(reqs, answers, key, n - 1) + if reqs[n - 1].key == key && answers[n - 1] != EXHAUSTED then 1 else 0
  }

  lemma WorthGrows(p: Params, a: Account, t: int, u: int)
    requires Sane(p) && t <= u && (a.Balance? ==> a.tokens <= p.capacity && a.at <= t)
    ensures Worth(p, a, t) <= Worth(p, a, u) && (a.Balance? ==> a.tokens <= Worth(p, a, t))
  {
    if a.Balance? {
      EarnedSplits(p, t - a.at, u - t);
      EarnedNonNegative(p, u - t);
      EarnedNonNegative(p, t - a.at);
    }
  }

  /** An account has never lost more than a token per request. */
  lemma {:induction false} WorthAtLeast<K(!new)>(p: Params, states: seq<Held<K>>, reqs: seq<Request<K>>, answers: seq<int>,
                                                 key: K, n: nat, t: int)
    requires Run(p, PLAIN, states, reqs, answers) && n <= |reqs| && Clock(reqs, n) <= t
    ensures Worth(p, AccountAfter(p, reqs, answers, key, n), t) >= p.capacity - Asked(reqs, answers, key, n) as real
    decreases n
  {
    if n > 0 {
      AccountMirrors(p, states, reqs, answers, key, n);
      WorthAtLeast(p, states, reqs, answers, key, n - 1, reqs[n - 1].now);
      if reqs[n - 1].key == key && answers[n - 1] != EXHAUSTED {
        WorthGrows(p, AccountAfter(p, reqs, answers, key, n), t, t);
      } else {
        AccountMirrors(p, states, reqs, answers, key, n - 1);
        WorthAtLeast(p, states, reqs, answers, key, n - 1, t);
      }
    }
  }

  /** The first requests of a key are all admitted, as many as fit in the capacity, unless
      there is no slot to track them. */
  lemma BurstAdmitted<K(!new)>(p: Params, states: seq<Held<K>>, reqs: seq<Request<K>>, answers: seq<int>, i: nat)
    requires Run(p, PLAIN, states, reqs, answers) && i < |reqs| && answers[i] != EXHAUSTED
    requires (Asked(reqs, answers, reqs[i].key, i) + 1) as real <= p.capacity
    ensures answers[i] == ADMITTED
  {
    WorthAtLeast(p, states, reqs, answers, reqs[i].key, i, reqs[i].now);
    AnswerFromHistory(p, states, reqs, answers, i);
  }

  // ---------- One request, under any policy ----------

  /** What the key's bucket holds when the request is served: a bucket that is missing or
      has idled out is a full one. */
  ghost function Before<K>(p: Params, s: Held<K>, key: K, now: int): real {
    if key !in s || (s[key].idleAt.Some? && now >= s[key].idleAt.value) then p.capacity else TokensAt(p, s[key], now)
  }

  /** A served request is admitted iff a whole token is there, and pays exactly one. */
  ghost predicate Pays<K>(p: Params, s: Held<K>, key: K, now: int, t: Held<K>, status: int) {
    status == EXHAUSTED ||
    (&& key in t && status == (if Before(p, s, key, now) >= 1.0 then ADMITTED else LIMITED)
     && t[key].tokens == Before(p, s, key, now) - (if status == ADMITTED then 1.0 else 0.0))
  }

  lemma AdmitPays<K>(p: Params, s: Held<K>, key: K, now: int, policy: Policy, t: Held<K>, status: int)
    requires p.rate > 0.0 && Admits(p, s, key, now, policy, t, status)
    requires key in s ==> !IdleExpired(s[key], now)
    ensures Pays(p, s, key, now, t, status)
  {
  }

  lemma AllowPays<K(!new)>(p: Params, s: Held<K>, key: K, now: int, policy: Policy, t: Held<K>, status: int)
    requires p.rate > 0.0 && Allow(p, s, key, now, policy, t, status)
    ensures Pays(p, s, key, now, t, status)
  {
    var a := if key in s && IdleExpired(s[key], now) then Drop(s, key) else s;
    if key in a || |a| < p.limit {
      AdmitPays(p, a, key, now, policy, t, status);
    } else {
      SeekPays(p, a, key, now, policy, t, status);
    }
  }

  lemma SeekPays<K(!new)>(p: Params, s: Held<K>, key: K, now: int, policy: Policy, t: Held<K>, status: int)
    requires p.rate > 0.0 && key !in s && Seeks(p, s, key, now, policy, t, status)
    ensures Pays(p, s, key, now, t, status)
  {
    var v, found, a :| Sought(p, s, now, v, found, a) &&
      if found then Admits(p, a, key, now, policy, t, status)
      else if !policy.evictIdle then t == a && status == EXHAUSTED
      else exists w :: Oldest(a, w) && Admits(p, Drop(a, w), key, now, policy, t, status);
    if found {
      AdmitPays(p, a, key, now, policy, t, status);
    } else if policy.evictIdle {
      var w :| Oldest(a, w) && Admits(p, Drop(a, w), key, now, policy, t, status);
      AdmitPays(p, Drop(a, w), key, now, policy, t, status);
    }
  }

  // ---------- Idle buckets ----------

  /** A served bucket idles out the policy's time after this request, and is next in line when
      it does or is full again, whichever is first; under forced eviction, when it does. */
  ghost predicate Stamped<K>(p: Params, now: int, policy: Policy, key: K, t: Held<K>)
    requires p.rate > 0.0
  {
    key in t &&
    var c := t[key];
    if policy.idleTTL <= 0 then c.idleAt.None? && c.fullAt == if policy.evictIdle then ZERO_TIME else Deadline(p, c)
    else
      var idle := now + policy.idleTTL;
      c.idleAt.Some? && c.idleAt.value == idle &&
      c.fullAt == if policy.evictIdle || idle < Deadline(p, c) then idle else Deadline(p, c)
  }

  lemma AllowStamps<K(!new)>(p: Params, s: Held<K>, key: K, now: int, policy: Policy, t: Held<K>, status: int)
    requires p.rate > 0.0 && Allow(p, s, key, now, policy, t, status)
    ensures status != EXHAUSTED ==> Stamped(p, now, policy, key, t)
  {
    var a := if key in s && IdleExpired(s[key], now) then Drop(s, key) else s;
    if !(key in a || |a| < p.limit) {
      var v, found, b :| Sought(p, a, now, v, found, b) &&
        if found then Admits(p, b, key, now, policy, t, status)
        else if !policy.evictIdle then t == b && status == EXHAUSTED
        else exists w :: Oldest(b, w) && Admits(p, Drop(b, w), key, now, policy, t, status);
      if !found && policy.evictIdle {
        var w :| Oldest(b, w) && Admits(p, Drop(b, w), key, now, policy, t, status);
      }
    }
  }

  /** When `key` was last asked for among the first `n` requests. */
  ghost function LastAsked<K>(reqs: seq<Request<K>>, key: K, n: nat): (at: int)
    requires n <= |reqs|
  {
    if n == 0 then 0 else if reqs[n - 1].key == key then reqs[n - 1].now else LastAsked(reqs, key, n - 1)
  }

  /** Each bucket is to go when it has idled long enough since it was last asked for. */
  ghost predicate DueWhenIdle<K(!new)>(s: Held<K>, reqs: seq<Request<K>>, n: nat, ttl: int)
    requires n <= |reqs|
  {
    forall k {:trigger s[k]} :: k in s ==> s[k].fullAt == LastAsked(reqs, k, n) + ttl && s[k].idleAt.Some? && s[k].idleAt.value == s[k].fullAt
  }

  /** What goes for a new key is the bucket longest not asked for; nothing else changes. */
  ghost predicate Evicts<K(!new)>(s: Held<K>, key: K, t: Held<K>) {
    forall k :: k in s && k != key ==>
      if k in t then t[k] == s[k] else forall j :: j in s && j != key ==> s[k].fullAt <= s[j].fullAt
  }

  lemma AllowEvicts<K(!new)>(p: Params, s: Held<K>, key: K, now: int, policy: Policy, t: Held<K>, status: int)
    requires p.rate > 0.0 && policy.evictIdle && Allow(p, s, key, now, policy, t, status)
    requires forall k {:trigger s[k]} :: k in s ==> s[k].idleAt.Some? && s[k].idleAt.value == s[k].fullAt
    ensures status != EXHAUSTED && Evicts(s, key, t) && forall k :: k in t ==> k in s || k == key
  {
    var a := if key in s && IdleExpired(s[key], now) then Drop(s, key) else s;
    if !(key in a || |a| < p.limit) {
      var w := SeekDrops(p, a, key, now, policy, t, status);
      forall j | j in s && j != key
        ensures a[w].fullAt <= s[j].fullAt
      {
        assert j in a && a[j] == s[j];
      }
    }
  }

  lemma SeekDrops<K(!new)>(p: Params, s: Held<K>, key: K, now: int, policy: Policy, t: Held<K>, status: int) returns (w: K)
    requires p.rate > 0.0 && policy.evictIdle && Seeks(p, s, key, now, policy, t, status)
    requires forall k {:trigger s[k]} :: k in s ==> s[k].idleAt.Some? && s[k].idleAt.value == s[k].fullAt
    ensures Oldest(s, w) && Admits(p, Drop(s, w), key, now, policy, t, status)
  {
    var v, found, b :| Sought(p, s, now, v, found, b) &&
      if found then Admits(p, b, key, now, policy, t, status)
      else exists w :: Oldest(b, w) && Admits(p, Drop(b, w), key, now, policy, t, status);
    w := v;
    if !found {
      assert s[v].idleAt.Some?;
      assert b == s;
      w :| Oldest(b, w) && Admits(p, Drop(b, w), key, now, policy, t, status);
    }
  }

  lemma {:induction false} RunIdles<K(!new)>(p: Params, ttl: int, states: seq<Held<K>>, reqs: seq<Request<K>>, answers: seq<int>, n: nat)
    requires Run(p, Policy(ttl, true), states, reqs, answers) && 0 < ttl && n <= |reqs|
    ensures DueWhenIdle(states[n], reqs, n, ttl)
  {
    if n > 0 {
      RunIdles(p, ttl, states, reqs, answers, n - 1);
      var r := reqs[n - 1];
      AllowEvicts(p, states[n - 1], r.key, r.now, Policy(ttl, true), states[n], answers[n - 1]);
      AllowStamps(p, states[n - 1], r.key, r.now, Policy(ttl, true), states[n], answers[n - 1]);
    }
  }

  /** With forced eviction nobody is turned away, and the bucket given up for a new key is the
      one least recently asked for. */
  lemma EvictsLeastRecent<K(!new)>(p: Params, ttl: int, states: seq<Held<K>>, reqs: seq<Request<K>>, answers: seq<int>, i: nat, k: K, j: K)
    requires Run(p, Policy(ttl, true), states, reqs, answers) && 0 < ttl && i < |reqs|
    requires k in states[i] && k !in states[i + 1] && j in states[i] && j != reqs[i].key
    ensures answers[i] != EXHAUSTED && LastAsked(reqs, k, i) <= LastAsked(reqs, j, i)
  {
    RunIdles(p, ttl, states, reqs, answers, i);
    AllowEvicts(p, states[i], reqs[i].key, reqs[i].now, Policy(ttl, true), states[i + 1], answers[i]);
    AllowStamps(p, states[i], reqs[i].key, reqs[i].now, Policy(ttl, true), states[i + 1], answers[i]);
    assert states[i][k].fullAt <= states[i][j].fullAt;
  }
}
