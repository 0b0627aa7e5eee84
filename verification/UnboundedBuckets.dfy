/** Retiring buckets is unobservable: without idle expiry or eviction, the bounded
    store answers as a store with one bucket per key ever seen would, and the token
    bucket's burst bound follows. */
module UnboundedBuckets {
  import opened TokenBuckets

  /** One bucket per key; a key not yet seen is worth a full bucket. */
  type Ideal<K> = map<K, Cell>

  function IdealCell<K>(p: Params, d: Ideal<K>, key: K, now: int): Cell {
    if key in d then d[key] else NewCell(p, now)
  }

  function IdealAnswer<K>(p: Params, d: Ideal<K>, key: K, now: int): int {
    Answer(Refill(p, IdealCell(p, d, key, now), now))
  }

  function IdealNext<K>(p: Params, d: Ideal<K>, key: K, now: int): Ideal<K> {
    d[key := Spend(Refill(p, IdealCell(p, d, key, now), now))]
  }

  ghost predicate CellOk(p: Params, c: Cell, clock: int) {
    c.tokens <= p.capacity && c.last <= clock
  }

  /** From time `clock` on, the two stores cannot be told apart key by key: a bucket
      held by both has the same future, and one held only by the ideal store is full. */
  ghost predicate Alike<K(!new)>(p: Params, s: Held<K>, d: Ideal<K>, clock: int) {
    && (forall k :: k in s ==> k in d && CellOk(p, s[k], clock) && s[k].idleAt.None?)
    && (forall k :: k in d ==> CellOk(p, d[k], clock))
    && (forall k, t :: k in s && clock <= t ==> TokensAt(p, s[k], t) == TokensAt(p, d[k], t))
    && (forall k, t :: k in d && k !in s && clock <= t ==> TokensAt(p, d[k], t) == p.capacity)
  }

  lemma AlikeLater<K(!new)>(p: Params, s: Held<K>, d: Ideal<K>, clock: int, now: int)
    requires Alike(p, s, d, clock) && clock <= now
    ensures Alike(p, s, d, now)
  {
  }

  /** A bucket that may be retired can go without anyone telling. */
  lemma DropAlike<K(!new)>(p: Params, s: Held<K>, d: Ideal<K>, now: int, v: K)
    requires Sane(p) && Alike(p, s, d, now) && v in s && TokensAt(p, s[v], now) >= p.capacity
    ensures Alike(p, Drop(s, v), d, now)
  {
    forall t | now <= t
      ensures TokensAt(p, d[v], t) == p.capacity
    {
      FullStaysFull(p, s[v], now, t);
    }
  }

  /** Rechecking a bucket changes its deadline, not its future. */
  lemma RecheckAlike<K(!new)>(p: Params, s: Held<K>, d: Ideal<K>, now: int, v: K)
    requires Sane(p) && Alike(p, s, d, now) && v in s
    ensures Alike(p, s[v := Rechecked(p, s[v], now)], d, now)
  {
    forall t | now <= t
      ensures TokensAt(p, Rechecked(p, s[v], now), t) == TokensAt(p, s[v], t)
    {
      RefillComposes(p, s[v], now, t);
    }
    RefillComposes(p, s[v], now, now);
  }

  /** A served request gets the same answer from both stores, and leaves them alike. */
  lemma AdmitAlike<K(!new)>(p: Params, s: Held<K>, d: Ideal<K>, key: K, now: int, t: Held<K>, status: int)
    requires Sane(p) && Alike(p, s, d, now) && Admits(p, s, key, now, PLAIN, t, status)
    ensures status == IdealAnswer(p, d, key, now) && status != EXHAUSTED
    ensures Alike(p, t, IdealNext(p, d, key, now), now)
  {
    var c := if key in s then s[key] else NewCell(p, now);
    var e := IdealCell(p, d, key, now);
    assert TokensAt(p, c, now) == TokensAt(p, e, now);
    var spent := Spend(Refill(p, c, now));
    assert spent.tokens == Spend(Refill(p, e, now)).tokens && spent.last == Spend(Refill(p, e, now)).last;
    RefillComposes(p, c, now, now);
  }

  /** The ideal store after a request the bounded store answered with `status`. */
  ghost function Charged<K>(p: Params, d: Ideal<K>, key: K, now: int, status: int): Ideal<K> {
    if status == EXHAUSTED then d else IdealNext(p, d, key, now)
  }

  /** One request: every answer but 503 is the ideal store's answer. */
  lemma AllowAlike<K(!new)>(p: Params, s: Held<K>, d: Ideal<K>, clock: int, key: K, now: int, t: Held<K>, status: int)
    requires Sane(p) && Alike(p, s, d, clock) && clock <= now && Allow(p, s, key, now, PLAIN, t, status)
    ensures status != EXHAUSTED ==> status == IdealAnswer(p, d, key, now)
    ensures Alike(p, t, Charged(p, d, key, now, status), now)
  {
    AlikeLater(p, s, d, clock, now);
    if key in s || |s| < p.limit {
      AdmitAlike(p, s, d, key, now, t, status);
    } else {
      SeekAlike(p, s, d, key, now, t, status);
    }
  }

  lemma SeekAlike<K(!new)>(p: Params, s: Held<K>, d: Ideal<K>, key: K, now: int, t: Held<K>, status: int)
    requires Sane(p) && Alike(p, s, d, now) && Seeks(p, s, key, now, PLAIN, t, status)
    ensures status != EXHAUSTED ==> status == IdealAnswer(p, d, key, now)
    ensures Alike(p, t, Charged(p, d, key, now, status), now)
  {
    var v, found, a :| Sought(p, s, now, v, found, a) &&
      if found then Admits(p, a, key, now, PLAIN, t, status) else t == a && status == EXHAUSTED;
    if found {
      DropAlike(p, s, d, now, v);
      AdmitAlike(p, a, d, key, now, t, status);
    } else {
      RecheckAlike(p, s, d, now, v);
    }
  }

  // ---------- Whole runs ----------

  datatype Request<K> = Request(key: K, now: int)

  /** A run of the bounded store from empty, under a clock that does not go back. */
  ghost predicate Run<K(!new)>(p: Params, policy: Policy, states: seq<Held<K>>, reqs: seq<Request<K>>, answers: seq<int>) {
    && Sane(p)
    && |states| == |reqs| + 1 && |answers| == |reqs| && states[0] == map[]
    && (forall i :: 0 <= i < |reqs| ==>
          Allow(p, states[i], reqs[i].key, reqs[i].now, policy, states[i + 1], answers[i]))
    && (forall i :: 0 < i < |reqs| ==> reqs[i - 1].now <= reqs[i].now)
  }

  lemma {:induction false} ClockForward<K(!new)>(p: Params, policy: Policy, states: seq<Held<K>>, reqs: seq<Request<K>>,
                                                 answers: seq<int>, i: nat, j: nat)
    requires Run(p, policy, states, reqs, answers) && i <= j < |reqs|
    ensures reqs[i].now <= reqs[j].now
    decreases j
  {
    if i < j {
      ClockForward(p, policy, states, reqs, answers, i, j - 1);
    }
  }

  /** The ideal store after the first `n` requests; a request the bounded store could
      not track is not charged. */
  ghost function IdealAfter<K>(p: Params, reqs: seq<Request<K>>, answers: seq<int>, n: nat): Ideal<K>
    requires n <= |reqs| == |answers|
  {
    if n == 0 then map[]
    else
      Charged(p, IdealAfter(p, reqs, answers, n - 1), reqs[n - 1].key, reqs[n - 1].now, answers[n - 1])
  }

  ghost function Clock<K>(reqs: seq<Request<K>>, n: nat): int
    requires n <= |reqs|
  {
    if n == 0 then (if |reqs| == 0 then 0 else reqs[0].now) else reqs[n - 1].now
  }

  ghost predicate AlikeAfter<K(!new)>(p: Params, states: seq<Held<K>>, reqs: seq<Request<K>>, answers: seq<int>, n: nat)
    requires n <= |reqs| == |answers| && n < |states|
  {
    Alike(p, states[n], IdealAfter(p, reqs, answers, n), Clock(reqs, n))
  }

  lemma StepAlike<K(!new)>(p: Params, states: seq<Held<K>>, reqs: seq<Request<K>>, answers: seq<int>, n: nat)
    requires Run(p, PLAIN, states, reqs, answers) && 0 < n <= |reqs| && AlikeAfter(p, states, reqs, answers, n - 1)
    ensures AlikeAfter(p, states, reqs, answers, n)
  {
    var r, d := reqs[n - 1], IdealAfter(p, reqs, answers, n - 1);
    assert IdealAfter(p, reqs, answers, n) == Charged(p, d, r.key, r.now, answers[n - 1]);
    assert Clock(reqs, n) == r.now;
    AllowAlike(p, states[n - 1], d, Clock(reqs, n - 1), r.key, r.now, states[n], answers[n - 1]);
  }

  lemma {:induction false} RunAlike<K(!new)>(p: Params, states: seq<Held<K>>, reqs: seq<Request<K>>, answers: seq<int>, n: nat)
    requires Run(p, PLAIN, states, reqs, answers) && n <= |reqs|
    ensures AlikeAfter(p, states, reqs, answers, n)
  {
    if n > 0 {
      RunAlike(p, states, reqs, answers, n - 1);
      StepAlike(p, states, reqs, answers, n);
    }
  }

  /** Every answer of a bounded run, other than 503, is the unbounded store's answer. */
  lemma RetirementUnobservable<K(!new)>(p: Params, states: seq<Held<K>>, reqs: seq<Request<K>>, answers: seq<int>, i: nat)
    requires Run(p, PLAIN, states, reqs, answers) && i < |reqs| && answers[i] != EXHAUSTED
    ensures answers[i] == IdealAnswer(p, IdealAfter(p, reqs, answers, i), reqs[i].key, reqs[i].now)
  {
    RunAlike(p, states, reqs, answers, i);
    AllowAlike(p, states[i], IdealAfter(p, reqs, answers, i), Clock(reqs, i),
               reqs[i].key, reqs[i].now, states[i + 1], answers[i]);
  }

  /** An ideal bucket never exceeds the capacity and never runs ahead of the clock. */
  lemma IdealCellOk<K(!new)>(p: Params, states: seq<Held<K>>, reqs: seq<Request<K>>, answers: seq<int>, key: K, n: nat)
    requires Run(p, PLAIN, states, reqs, answers) && n <= |reqs| && key in IdealAfter(p, reqs, answers, n)
    ensures CellOk(p, IdealAfter(p, reqs, answers, n)[key], Clock(reqs, n))
  {
    RunAlike(p, states, reqs, answers, n);
  }

  /** Requests of one key admitted among positions `from` up to `until`. */
  ghost function Admissions<K>(reqs: seq<Request<K>>, answers: seq<int>, key: K, from: nat, until: nat): nat
    requires from <= until <= |reqs| == |answers|
  {
    if from == until then 0
    else Admissions(reqs, answers, key, from, until - 1) +
         (if reqs[until - 1].key == key && answers[until - 1] == ADMITTED then 1 else 0)
  }

  /** What the ideal store would still grant `key` at time `t`. */
  ghost function Credit<K>(p: Params, d: Ideal<K>, key: K, t: int): real {
    if key in d then TokensAt(p, d[key], t) else p.capacity
  }

  /** Credit grows no faster than the rate. */
  lemma CreditGrowth(p: Params, c: Cell, t: int, u: int)
    requires Sane(p) && c.tokens <= p.capacity && c.last <= t <= u
    ensures TokensAt(p, c, u) <= TokensAt(p, c, t) + Earned(p, u - t)
    ensures TokensAt(p, c, t) <= p.capacity
  {
    EarnedNonNegative(p, u - t);
    if c.last < t {
      EarnedSplits(p, t - c.last, u - t);
    }
  }

  /** Tokens spent plus credit left never exceed a full bucket plus what was earned. */
  lemma {:induction false} CreditBound<K(!new)>(p: Params, states: seq<Held<K>>, reqs: seq<Request<K>>, answers: seq<int>,
                                                key: K, from: nat, until: nat)
    requires Run(p, PLAIN, states, reqs, answers) && from < until <= |reqs|
    ensures Admissions(reqs, answers, key, from, until) as real
              + Credit(p, IdealAfter(p, reqs, answers, until), key, reqs[until - 1].now)
            <= p.capacity + Earned(p, reqs[until - 1].now - reqs[from].now)
    decreases until
  {
    var i := until - 1;
    var now := reqs[i].now;
    var d := IdealAfter(p, reqs, answers, i);
    if key in d {
      IdealCellOk(p, states, reqs, answers, key, i);
    }
    var start := if from == i then now else reqs[i - 1].now;
    ClockForward(p, PLAIN, states, reqs, answers, from, i);
    if from < i {
      ClockForward(p, PLAIN, states, reqs, answers, from, i - 1);
      CreditBound(p, states, reqs, answers, key, from, i);
      EarnedSplits(p, start - reqs[from].now, now - start);
    }
    CreditStep(p, states, reqs, answers, key, i);
    if key in d {
      CreditGrowth(p, d[key], if from == i then Clock(reqs, i) else start, now);
      CreditGrowth(p, d[key], now, now);
    }
    EarnedNonNegative(p, now - start);
    assert Admissions(reqs, answers, key, from, until) == Admissions(reqs, answers, key, from, i) +
           (if reqs[i].key == key && answers[i] == ADMITTED then 1 else 0);
  }

  /** An admission costs the key one token of credit; nothing else touches it. */
  lemma CreditStep<K(!new)>(p: Params, states: seq<Held<K>>, reqs: seq<Request<K>>, answers: seq<int>, key: K, i: nat)
    requires Run(p, PLAIN, states, reqs, answers) && i < |reqs|
    ensures var now := reqs[i].now;
            Credit(p, IdealAfter(p, reqs, answers, i + 1), key, now) <=
            Credit(p, IdealAfter(p, reqs, answers, i), key, now)
              - (if reqs[i].key == key && answers[i] == ADMITTED then 1.0 else 0.0)
  {
    var d := IdealAfter(p, reqs, answers, i);
    if answers[i] != EXHAUSTED {
      RetirementUnobservable(p, states, reqs, answers, i);
      if reqs[i].key == key {
        if key in d {
          IdealCellOk(p, states, reqs, answers, key, i);
        }
        var c := IdealCell(p, d, key, reqs[i].now);
        RefillComposes(p, c, reqs[i].now, reqs[i].now);
      }
    }
  }

  /** Credit is never negative: a token is taken only when there is one. */
  lemma {:induction false} CreditNonNegative<K(!new)>(p: Params, states: seq<Held<K>>, reqs: seq<Request<K>>, answers: seq<int>,
                                                      key: K, n: nat)
    requires Run(p, PLAIN, states, reqs, answers) && n <= |reqs|
    ensures key in IdealAfter(p, reqs, answers, n) ==> 0.0 <= IdealAfter(p, reqs, answers, n)[key].tokens
  {
    if n > 0 {
      CreditNonNegative(p, states, reqs, answers, key, n - 1);
      var d := IdealAfter(p, reqs, answers, n - 1);
      var now := reqs[n - 1].now;
      if key in d && now >= d[key].last {
        EarnedNonNegative(p, now - d[key].last);
      }
    }
  }

  /** Over any stretch of requests the bounded store admits at most a full burst plus
      the rate times the elapsed time, for every key. */
  lemma BurstBound<K(!new)>(p: Params, states: seq<Held<K>>, reqs: seq<Request<K>>, answers: seq<int>, key: K, from: nat, until: nat)
    requires Run(p, PLAIN, states, reqs, answers) && from < until <= |reqs|
    ensures Admissions(reqs, answers, key, from, until) as real
            <= p.capacity + Earned(p, reqs[until - 1].now - reqs[from].now)
  {
    CreditBound(p, states, reqs, answers, key, from, until);
    CreditNonNegative(p, states, reqs, answers, key, until);
    var d := IdealAfter(p, reqs, answers, until);
    if key in d && reqs[until - 1].now >= d[key].last {
      EarnedNonNegative(p, reqs[until - 1].now - d[key].last);
    }
  }

  // ---------- When 503 is honest ----------

  /** Even an empty bucket refills before its deadline saturates. */
  ghost predicate Unsaturated(p: Params)
    requires p.rate > 0.0
  {
    Ceil(p.capacity / p.rate * NANOS) < MAX_DELAY
  }

  /** The bucket's place in the retirement order is when it refills or idles out. */
  ghost predicate Tracked(p: Params, c: Cell, now: int)
    requires p.rate > 0.0
  {
    && 0.0 <= c.tokens <= p.capacity && c.last <= now
    && c.fullAt == if c.idleAt.Some? && c.idleAt.value < Deadline(p, c) then c.idleAt.value else Deadline(p, c)
  }

  lemma DelayBelowSaturation(p: Params, tokens: real)
    requires p.rate > 0.0 && 0.0 <= tokens && Unsaturated(p)
    ensures Ceil((p.capacity - tokens) / p.rate * NANOS) < MAX_DELAY
  {
    var q := tokens / p.rate;
    assert (p.capacity - tokens) / p.rate == p.capacity / p.rate - q;
    assert 0.0 <= q;
  }

  lemma DueIffReplenished(p: Params, c: Cell, now: int)
    requires p.rate > 0.0 && Unsaturated(p) && Tracked(p, c, now)
    ensures now >= c.fullAt <==> TokensAt(p, c, now) >= p.capacity || IdleExpired(c, now)
  {
    DelayBelowSaturation(p, c.tokens);
    DeadlineExact(p, c, now);
  }

  ghost predicate AllTracked<K(!new)>(p: Params, s: Held<K>, now: int)
    requires p.rate > 0.0
  {
    forall k :: k in s ==> Tracked(p, s[k], now)
  }

  lemma TouchTracked(p: Params, c: Cell, now: int, policy: Policy)
    requires Sane(p) && !policy.evictIdle && 0.0 <= c.tokens <= p.capacity && c.last <= now
    ensures Tracked(p, Touch(p, c, now, policy), now)
  {
    EarnedNonNegative(p, now - c.last);
    var spent := Spend(Refill(p, c, now));
    assert Deadline(p, Touch(p, c, now, policy)) == Deadline(p, spent);
  }

  lemma AdmitTracked<K(!new)>(p: Params, s: Held<K>, key: K, now: int, policy: Policy, t: Held<K>, status: int)
    requires Sane(p) && !policy.evictIdle && AllTracked(p, s, now) && Admits(p, s, key, now, policy, t, status)
    requires key in s || |s| < p.limit
    requires |s| <= p.limit
    ensures AllTracked(p, t, now) && |t| <= p.limit && status != EXHAUSTED
  {
    TouchTracked(p, if key in s then s[key] else NewCell(p, now), now, policy);
    assert t.Keys == s.Keys + {key};
  }

  /** The oldest bucket answers for all of them. */
  lemma OldestAnswers<K(!new)>(p: Params, s: Held<K>, now: int, v: K, k: K)
    requires Sane(p) && Unsaturated(p) && AllTracked(p, s, now) && Oldest(s, v) && k in s
    requires !Retirable(p, s[v], now)
    ensures now < s[v].fullAt
    ensures TokensAt(p, s[k], now) < p.capacity && !IdleExpired(s[k], now)
  {
    DueIffReplenished(p, s[v], now);
    DueIffReplenished(p, s[k], now);
  }

  /** No slot was found: then none of the buckets was replenished or idle. */
  lemma TurnedAway<K(!new)>(p: Params, s: Held<K>, now: int, v: K, t: Held<K>)
    requires Sane(p) && Unsaturated(p) && AllTracked(p, s, now) && Sought(p, s, now, v, false, t)
    ensures t == s
    ensures forall k :: k in s ==> TokensAt(p, s[k], now) < p.capacity && !IdleExpired(s[k], now)
  {
    forall k | k in s
      ensures TokensAt(p, s[k], now) < p.capacity && !IdleExpired(s[k], now)
    {
      OldestAnswers(p, s, now, v, k);
    }
    OldestAnswers(p, s, now, v, v);
    assert s[v := s[v]] == s;
  }

  lemma AllowTracked<K(!new)>(p: Params, s: Held<K>, clock: int, key: K, now: int, policy: Policy, t: Held<K>, status: int)
    requires Sane(p) && Unsaturated(p) && !policy.evictIdle && |s| <= p.limit
    requires AllTracked(p, s, clock) && clock <= now && Allow(p, s, key, now, policy, t, status)
    ensures AllTracked(p, t, now) && |t| <= p.limit
    ensures status == EXHAUSTED ==> key !in s && |s| == p.limit && t == s
    ensures status == EXHAUSTED ==> forall k :: k in s ==> TokensAt(p, s[k], now) < p.capacity && !IdleExpired(s[k], now)
  {
    if key in s && IdleExpired(s[key], now) {
      DropSize(s, key);
      AdmitTracked(p, Drop(s, key), key, now, policy, t, status);
    } else if key in s || |s| < p.limit {
      AdmitTracked(p, s, key, now, policy, t, status);
    } else {
      var v, found, a :| Sought(p, s, now, v, found, a) &&
        if found then Admits(p, a, key, now, policy, t, status) else t == a && status == EXHAUSTED;
      if found {
        DropSize(s, v);
        AdmitTracked(p, a, key, now, policy, t, status);
      } else {
        TurnedAway(p, s, now, v, a);
      }
    }
  }

  lemma {:induction false} RunTracked<K(!new)>(p: Params, policy: Policy, states: seq<Held<K>>, reqs: seq<Request<K>>,
                                               answers: seq<int>, n: nat)
    requires Run(p, policy, states, reqs, answers) && Unsaturated(p) && !policy.evictIdle && n <= |reqs|
    ensures AllTracked(p, states[n], Clock(reqs, n)) && |states[n]| <= p.limit
  {
    if n > 0 {
      RunTracked(p, policy, states, reqs, answers, n - 1);
      AllowTracked(p, states[n - 1], Clock(reqs, n - 1), reqs[n - 1].key, reqs[n - 1].now, policy, states[n], answers[n - 1]);
    }
  }

  /** In a run under one policy without forced eviction, a request is turned away with
      503 only for a key not held, when the store is full and no bucket in it is
      replenished or idle; and then the store is left as it was. */
  lemma ExhaustedMeansNoneFull<K(!new)>(p: Params, policy: Policy, states: seq<Held<K>>, reqs: seq<Request<K>>,
                                        answers: seq<int>, i: nat, k: K)
    requires Run(p, policy, states, reqs, answers) && Unsaturated(p) && !policy.evictIdle
    requires i < |reqs| && answers[i] == EXHAUSTED
    ensures states[i + 1] == states[i] && |states[i]| == p.limit && reqs[i].key !in states[i]
    ensures k in states[i] ==>
              TokensAt(p, states[i][k], reqs[i].now) < p.capacity && !IdleExpired(states[i][k], reqs[i].now)
  {
    RunTracked(p, policy, states, reqs, answers, i);
    AllowTracked(p, states[i], Clock(reqs, i), reqs[i].key, reqs[i].now, policy, states[i + 1], answers[i]);
  }
}
