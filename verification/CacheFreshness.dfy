/** Age and freshness arithmetic of stored responses (sections 4.2 and 4.2.3 of
    RFC 9111), in signed 64-bit nanoseconds that saturate. */
module CacheFreshness {
  import opened Basics

  const MAX_DURATION: int := 0x7FFF_FFFF_FFFF_FFFF
  const SECOND: int := 1_000_000_000
  const CEILING_SECONDS: int := 9_223_372_036

  /** A header that may be missing, unusable, or carry one value. */
  datatype Field<+T> = Absent | Invalid | Present(value: T)

  /** The freshness-relevant part of one header set: dates in nanoseconds, and the
      arguments of every s-maxage and max-age directive in order. */
  datatype Headers = Headers(controlAllows: bool, freshnessTrailers: bool, date: Field<int>, age: Field<string>,
                             shared: seq<string>, ordinary: seq<string>, expires: Field<int>)

  datatype Freshness = Freshness(received: int, date: int, initialAge: int, expires: int, valid: bool)

  datatype Lifetime = Lifetime(duration: int, explicit: bool, ok: bool)

  // ---------- Delta-seconds ----------

  predicate Digit(c: char) { '0' <= c <= '9' }

  predicate Digits(s: string) { s != "" && forall i :: 0 <= i < |s| ==> Digit(s[i]) }

  /** The number a string of digits denotes, without bound. */
  ghost function Decimal(s: string): nat
    requires forall i :: 0 <= i < |s| ==> Digit(s[i])
  {
    if s == "" then 0
    else
      assert Digit(s[|s| - 1]);
      Decimal(s[..|s| - 1]) * 10 + (s[|s| - 1] as int - '0' as int)
  }

  /** Delta-seconds as a duration that saturates instead of wrapping. */
  ghost function DeltaSeconds(s: string): Option<int> {
    if !Digits(s) then None
    else if Decimal(s) > CEILING_SECONDS then Some(MAX_DURATION)
    else Some(Decimal(s) * SECOND)
  }

  /** The digit loop never overflows, and saturates exactly when the number does not
      fit. */
  method ParseSeconds(value: string) returns (r: Option<int>)
    ensures r == DeltaSeconds(value)
  {
    if value == "" {
      return None;
    }
    var seconds := 0;
    for i := 0 to |value|
      invariant forall k :: 0 <= k < i ==> Digit(value[k])
      invariant 0 <= seconds == Min(Decimal(value[..i]), CEILING_SECONDS + 1)
    {
      if !Digit(value[i]) {
        return None;
      }
      var n := value[i] as int - '0' as int;
      assert value[..i + 1][..i] == value[..i];
      if seconds > (CEILING_SECONDS - n) / 10 {
        seconds := CEILING_SECONDS + 1;
      } else {
        seconds := seconds * 10 + n;
      }
    }
    assert value[..|value|] == value;
    if seconds > CEILING_SECONDS {
      return Some(MAX_DURATION);
    }
    return Some(seconds * SECOND);
  }

  // ---------- The stored freshness ----------

  /** Time differences saturate at the duration range. */
  function Sub(a: int, b: int): int {
    Min(MAX_DURATION, Max(-MAX_DURATION - 1, a - b))
  }

  function SaturatingAdd(a: int, b: int): int {
    if a > MAX_DURATION - b then MAX_DURATION else a + b
  }

  ghost function AgeValue(h: Headers): Option<int> {
    match h.age
    case Absent => Some(0)
    case Invalid => None
    case Present(text) => DeltaSeconds(text)
  }

  ghost function DateValue(f: Field<int>, fallback: int): Option<int> {
    match f
    case Absent => Some(fallback)
    case Invalid => None
    case Present(t) => Some(t)
  }

  function Unquote(s: string): string {
    if |s| >= 2 && s[0] == '"' && s[|s| - 1] == '"' then s[1..|s| - 1] else s
  }

  function Selected(h: Headers): seq<string> { if h.shared != [] then h.shared else h.ordinary }

  /** s-maxage before max-age before Expires; a repeated directive is unusable. */
  ghost function LifetimeOf(h: Headers, date: int): Lifetime {
    var selected := Selected(h);
    if selected != [] then
      var d := DeltaSeconds(Unquote(selected[|selected| - 1]));
      Lifetime(if d.None? then 0 else d.value, true, d.Some? && |selected| == 1)
    else
      var expires := DateValue(h.expires, date);
      Lifetime(if expires.None? then 0 else Max(0, Sub(expires.value, date)), !h.expires.Absent?, expires.Some?)
  }

  ghost function ResponseFreshness(h: Headers, requested: int, received: int, ttl: int): (f: Freshness)
    ensures f.received == received && f.expires <= received + ttl
  {
    var none := Freshness(received, 0, 0, received + ttl, false);
    var date := DateValue(h.date, received);
    var age := AgeValue(h);
    if !h.controlAllows || h.freshnessTrailers || date.None? || age.None? then none
    else
      var lifetime := LifetimeOf(h, date.value);
      if !lifetime.ok then none
      else
        var initial := Max(Max(0, Sub(received, date.value)),
                           SaturatingAdd(age.value, Max(0, Sub(received, requested))));
        var expires := if lifetime.explicit then Min(received + ttl, received + (lifetime.duration - initial))
                       else received + ttl;
        Freshness(received, date.value, initial, expires, true)
  }

  function Constrain(f: Freshness, g: Freshness): Freshness {
    f.(valid := f.valid && g.valid, initialAge := Max(f.initialAge, g.initialAge), expires := Min(f.expires, g.expires))
  }

  // ---------- What the standard asks, in unbounded arithmetic ----------

  /** A directive given once, with a number. */
  ghost predicate OneNumber(values: seq<string>) { |values| == 1 && Digits(Unquote(values[0])) }

  ghost predicate Usable(h: Headers) {
    && h.controlAllows && !h.freshnessTrailers && !h.date.Invalid?
    && (h.age.Absent? || (h.age.Present? && Digits(h.age.value)))
    && (if h.shared != [] then OneNumber(h.shared)
        else if h.ordinary != [] then OneNumber(h.ordinary)
        else !h.expires.Invalid?)
  }

  ghost predicate Explicit(h: Headers) { h.shared != [] || h.ordinary != [] || !h.expires.Absent? }

  ghost function Date(h: Headers, received: int): int { if h.date.Present? then h.date.value else received }

  /** corrected_initial_age of section 4.2.3. */
  ghost function CorrectedInitialAge(h: Headers, requested: int, received: int): int
    requires Usable(h)
  {
    var apparent := Max(0, received - Date(h, received));
    var ageValue := if h.age.Present? then Decimal(h.age.value) * SECOND else 0;
    Max(apparent, ageValue + Max(0, received - requested))
  }

  /** freshness_lifetime of section 4.2.1. */
  ghost function FreshnessLifetime(h: Headers, received: int): int
    requires Usable(h) && Explicit(h)
  {
    if h.shared != [] then Decimal(Unquote(h.shared[0])) * SECOND
    else if h.ordinary != [] then Decimal(Unquote(h.ordinary[0])) * SECOND
    else Max(0, h.expires.value - Date(h, received))
  }

  /** A header set contributes a valid freshness exactly when it is usable. */
  lemma ValidIffUsable(h: Headers, requested: int, received: int, ttl: int)
    ensures ResponseFreshness(h, requested, received, ttl).valid <==> Usable(h)
  {
    var s := Selected(h);
    if s != [] && |s| == 1 {
      assert s[|s| - 1] == s[0];
    }
  }

  lemma InitialAgeSaturates(h: Headers, requested: int, received: int, ttl: int)
    requires Usable(h)
    ensures ResponseFreshness(h, requested, received, ttl).initialAge ==
            Min(MAX_DURATION, CorrectedInitialAge(h, requested, received))
  {
    ValidIffUsable(h, requested, received, ttl);
    if h.age.Present? {
      SaturatedProduct(Decimal(h.age.value));
    }
  }

  lemma SaturatedProduct(n: nat)
    ensures n > CEILING_SECONDS ==> n * SECOND > MAX_DURATION
    ensures n <= CEILING_SECONDS ==> n * SECOND <= MAX_DURATION
  {
  }

  lemma LifetimeSaturates(h: Headers, received: int)
    requires Usable(h) && Explicit(h)
    ensures var l := LifetimeOf(h, Date(h, received));
            l.ok && l.explicit && 0 <= l.duration == Min(MAX_DURATION, FreshnessLifetime(h, received))
  {
    var s := Selected(h);
    if s != [] {
      SaturatedProduct(Decimal(Unquote(s[0])));
    }
  }

  /** Saturation is safe: a response served before the computed expiry is within its
      TTL and strictly fresh by the standard's unbounded arithmetic. */
  lemma ServedIsFresh(h: Headers, requested: int, received: int, ttl: int, now: int)
    requires Usable(h) && received <= now
    requires now < ResponseFreshness(h, requested, received, ttl).expires
    ensures now - received < ttl
    ensures Explicit(h) ==>
              CorrectedInitialAge(h, requested, received) + (now - received) < FreshnessLifetime(h, received)
  {
    InitialAgeSaturates(h, requested, received, ttl);
    ValidIffUsable(h, requested, received, ttl);
    if Explicit(h) {
      LifetimeSaturates(h, received);
    }
  }

  /** And, short of saturation, the expiry withholds nothing that is still fresh. */
  lemma FreshIsServed(h: Headers, requested: int, received: int, ttl: int, now: int)
    requires Usable(h) && received <= now && now - received < ttl
    requires Explicit(h) ==> CorrectedInitialAge(h, requested, received) <= MAX_DURATION
    requires Explicit(h) ==> FreshnessLifetime(h, received) <= MAX_DURATION
    requires Explicit(h) ==>
               CorrectedInitialAge(h, requested, received) + (now - received) < FreshnessLifetime(h, received)
    ensures now < ResponseFreshness(h, requested, received, ttl).expires
  {
    InitialAgeSaturates(h, requested, received, ttl);
    ValidIffUsable(h, requested, received, ttl);
    if Explicit(h) {
      LifetimeSaturates(h, received);
    }
  }

  /** What an entry stores: raw and projected headers at capture, constrained by raw
      and projected headers again at finish. */
  ghost function StoredFreshness(raw0: Headers, projected0: Headers, raw1: Headers, projected1: Headers,
                                 requested: int, received: int, ttl: int): Freshness
  {
    Constrain(
      Constrain(ResponseFreshness(raw0, requested, received, ttl), ResponseFreshness(projected0, requested, received, ttl)),
      Constrain(ResponseFreshness(raw1, requested, received, ttl), ResponseFreshness(projected1, requested, received, ttl)))
  }

  /** Every replay is fresh under all four header sets that could limit it. */
  lemma ReplayIsFresh(raw0: Headers, projected0: Headers, raw1: Headers, projected1: Headers,
                      requested: int, received: int, ttl: int, now: int)
    requires received <= now
    requires var f := StoredFreshness(raw0, projected0, raw1, projected1, requested, received, ttl);
             f.valid && now < f.expires
    ensures now - received < ttl
    ensures forall h :: h in {raw0, projected0, raw1, projected1} ==>
              Usable(h) &&
              (Explicit(h) ==>
                 CorrectedInitialAge(h, requested, received) + (now - received) < FreshnessLifetime(h, received))
  {
    forall h | h in {raw0, projected0, raw1, projected1}
      ensures Usable(h)
      ensures now - received < ttl
      ensures Explicit(h) ==>
                CorrectedInitialAge(h, requested, received) + (now - received) < FreshnessLifetime(h, received)
    {
      ValidIffUsable(h, requested, received, ttl);
      ServedIsFresh(h, requested, received, ttl, now);
    }
    assert raw0 in {raw0, projected0, raw1, projected1};
  }

  /** Exactly when one header set lets a response be served: within the TTL, and with the age
      below the lifetime once both are capped at the largest duration. */
  ghost predicate Serves(h: Headers, requested: int, received: int, ttl: int, now: int)
    requires Usable(h)
  {
    now - received < ttl &&
    (Explicit(h) ==>
       Min(MAX_DURATION, CorrectedInitialAge(h, requested, received)) + (now - received)
         < Min(MAX_DURATION, FreshnessLifetime(h, received)))
  }

  lemma ServedIff(h: Headers, requested: int, received: int, ttl: int, now: int)
    requires Usable(h)
    ensures now < ResponseFreshness(h, requested, received, ttl).expires <==> Serves(h, requested, received, ttl, now)
  {
    InitialAgeSaturates(h, requested, received, ttl);
    ValidIffUsable(h, requested, received, ttl);
    if Explicit(h) {
      LifetimeSaturates(h, received);
    }
  }

  /** A response is replayed exactly when all four header sets are usable and let it: no one
      set makes the stored expiry any earlier than it must be. */
  lemma ReplayedIff(raw0: Headers, projected0: Headers, raw1: Headers, projected1: Headers,
                    requested: int, received: int, ttl: int, now: int)
    ensures var f := StoredFreshness(raw0, projected0, raw1, projected1, requested, received, ttl);
            f.valid && now < f.expires <==>
            && (forall h :: h in {raw0, projected0, raw1, projected1} ==> Usable(h))
            && Serves(raw0, requested, received, ttl, now) && Serves(projected0, requested, received, ttl, now)
            && Serves(raw1, requested, received, ttl, now) && Serves(projected1, requested, received, ttl, now)
  {
    forall h | h in {raw0, projected0, raw1, projected1}
      ensures ResponseFreshness(h, requested, received, ttl).valid <==> Usable(h)
      ensures Usable(h) ==>
                (now < ResponseFreshness(h, requested, received, ttl).expires <==> Serves(h, requested, received, ttl, now))
    {
      ValidIffUsable(h, requested, received, ttl);
      if Usable(h) {
        ServedIff(h, requested, received, ttl, now);
      }
    }
    assert raw0 in {raw0, projected0, raw1, projected1} && projected0 in {raw0, projected0, raw1, projected1};
    assert raw1 in {raw0, projected0, raw1, projected1} && projected1 in {raw0, projected0, raw1, projected1};
  }

  /** And it is told the age of the oldest of the four. */
  lemma StoredAge(raw0: Headers, projected0: Headers, raw1: Headers, projected1: Headers,
                  requested: int, received: int, ttl: int)
    requires forall h :: h in {raw0, projected0, raw1, projected1} ==> Usable(h)
    ensures var f := StoredFreshness(raw0, projected0, raw1, projected1, requested, received, ttl);
            f.received == received && f.date == Date(raw0, received) && f.initialAge ==
            Min(MAX_DURATION, Max(Max(CorrectedInitialAge(raw0, requested, received),
                                      CorrectedInitialAge(projected0, requested, received)),
                                  Max(CorrectedInitialAge(raw1, requested, received),
                                      CorrectedInitialAge(projected1, requested, received))))
  {
    ValidIffUsable(raw0, requested, received, ttl);
    InitialAgeSaturates(raw0, requested, received, ttl);
    InitialAgeSaturates(projected0, requested, received, ttl);
    InitialAgeSaturates(raw1, requested, received, ttl);
    InitialAgeSaturates(projected1, requested, received, ttl);
  }
}
