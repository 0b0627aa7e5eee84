/** Passive health: backends are demoted by failures inside a sliding window, of which
    only a truncated, lazily pruned part is kept. */
module PassiveHealth {
  import opened Basics

  datatype Config = Config(window: nat, maxFailures: nat, holdDown: int, recoverByProbe: bool, resetOnSuccess: bool)

  /** The first position from `i` on whose timestamp lies after the cutoff. */
  function Cut(ts: seq<int>, i: nat, cutoff: int): nat
    requires i <= |ts|
    decreases |ts| - i
  {
    if i < |ts| && ts[i] <= cutoff then Cut(ts, i + 1, cutoff) else i
  }

  lemma {:induction false} CutBounds(ts: seq<int>, i: nat, cutoff: int)
    requires i <= |ts|
    ensures i <= Cut(ts, i, cutoff) <= |ts|
    ensures i < Cut(ts, i, cutoff) ==> ts[Cut(ts, i, cutoff) - 1] <= cutoff
    ensures Cut(ts, i, cutoff) < |ts| ==> ts[Cut(ts, i, cutoff)] > cutoff
    decreases |ts| - i
  {
    if i < |ts| && ts[i] <= cutoff {
      CutBounds(ts, i + 1, cutoff);
    }
  }

  /** Drops the timestamps at or before the cutoff from the front. */
  function Pruned(ts: seq<int>, cutoff: int): seq<int> {
    CutBounds(ts, 0, cutoff);
    ts[Cut(ts, 0, cutoff)..]
  }

  function Truncated(ts: seq<int>, n: nat): seq<int> { if |ts| > n then ts[|ts| - n..] else ts }

  /** The kept timestamps once a failure at `now` has been recorded. */
  function Recorded(cfg: Config, ts: seq<int>, now: int): seq<int> {
    Truncated(Pruned(ts, now - cfg.window) + [now], cfg.maxFailures)
  }

  method PruneWindow(ts: seq<int>, cutoff: int) returns (r: seq<int>)
    ensures r == Pruned(ts, cutoff)
  {
    var i := 0;
    while i < |ts| && ts[i] <= cutoff
      invariant 0 <= i <= |ts| && Cut(ts, i, cutoff) == Cut(ts, 0, cutoff)
    {
      i := i + 1;
    }
    r := ts[i..];
  }

  class PassiveRun {
    const cfg: Config
    var active: bool
    var failures: map<nat, seq<int>>
    var holds: map<nat, int>
    /** Backends marked unhealthy, to be recovered by a probe. */
    var probed: set<nat>

    constructor (cfg: Config)
      ensures this.cfg == cfg && active && failures == map[] && holds == map[] && probed == {}
    {
      this.cfg, active, failures, holds, probed := cfg, true, map[], map[], {};
    }

    function Kept(b: nat): seq<int>
      reads this`failures
    {
      if b in failures then failures[b] else []
    }

    /** Holding `b` down from `now` on would be a new hold. */
    predicate StartsHold(b: nat, now: int)
      reads this`holds
    {
      !cfg.recoverByProbe && cfg.holdDown > 0 && !(b in holds && now < holds[b])
    }

    /** Records one failure at clock reading `now`; a stopped run records nothing. */
    method Record(b: nat, now: int)
      modifies this`failures, this`holds, this`probed
      ensures !active ==> unchanged(this)
      ensures active ==> failures == old(failures)[b := Recorded(cfg, old(Kept(b)), now)]
      ensures active && cfg.recoverByProbe && |Kept(b)| >= cfg.maxFailures ==> probed == old(probed) + {b}
      ensures !(cfg.recoverByProbe && |Kept(b)| >= cfg.maxFailures) ==> probed == old(probed)
      ensures active && old(StartsHold(b, now)) && |Kept(b)| >= cfg.maxFailures ==> holds == old(holds)[b := now + cfg.holdDown]
      ensures !(old(StartsHold(b, now)) && |Kept(b)| >= cfg.maxFailures) ==> holds == old(holds)
    {
      if !active {
        return;
      }
      var kept := PruneWindow(Kept(b), now - cfg.window);
      kept := kept + [now];
      if |kept| > cfg.maxFailures {
        kept := kept[|kept| - cfg.maxFailures..];
      }
      failures := failures[b := kept];
      if |kept| >= cfg.maxFailures {
        if cfg.recoverByProbe {
          probed := probed + {b};
        } else if StartsHold(b, now) {
          holds := holds[b := now + cfg.holdDown];
        }
      }
    }

    /** A success wipes the backend's failures, if so configured and the run is live. */
    method Success(b: nat)
      modifies this`failures
      ensures failures == if cfg.resetOnSuccess && active then old(failures) - {b} else old(failures)
    {
      if cfg.resetOnSuccess && active {
        failures := failures - {b};
      }
    }

    /** Whether the backend is demoted at clock reading `now`. */
    method Demoted(b: nat, now: int) returns (r: bool)
      modifies this`failures, this`holds
      ensures cfg.recoverByProbe ==> !r && unchanged(this)
      ensures !cfg.recoverByProbe && cfg.holdDown > 0 ==>
                && r == (b in old(holds) && now < old(holds)[b])
                && failures == old(failures) && holds == if r then old(holds) else old(holds) - {b}
      ensures !cfg.recoverByProbe && cfg.holdDown <= 0 ==>
                && failures == old(failures)[b := Pruned(old(Kept(b)), now - cfg.window)]
                && holds == old(holds) && r == (|Kept(b)| >= cfg.maxFailures)
    {
      if cfg.recoverByProbe {
        return false;
      }
      if cfg.holdDown > 0 {
        if b in holds && now < holds[b] {
          return true;
        }
        holds := holds - {b};
        return false;
      }
      var kept := PruneWindow(Kept(b), now - cfg.window);
      failures := failures[b := kept];
      r := |kept| >= cfg.maxFailures;
    }
  }

  // ---------- The window answers for the whole history ----------

  /** What happens to one backend: it fails, it is looked at, or a success wipes the slate. */
  datatype Event = Failure(now: int) | Look(now: int) | Reset

  /** What the run has kept after the first `n` events. */
  ghost function Window(cfg: Config, events: seq<Event>, n: nat): seq<int>
    requires n <= |events|
  {
    if n == 0 then [] else NextWindow(cfg, Window(cfg, events, n - 1), events[n - 1])
  }

  ghost function NextWindow(cfg: Config, kept: seq<int>, e: Event): seq<int> {
    match e
    case Failure(now) => Recorded(cfg, kept, now)
    case Look(now) => Pruned(kept, now - cfg.window)
    case Reset => []
  }

  /** Every failure since the last reset, as recorded. */
  ghost function History(events: seq<Event>, n: nat): seq<int>
    requires n <= |events|
  {
    if n == 0 then [] else NextHistory(History(events, n - 1), events[n - 1])
  }

  ghost function NextHistory(history: seq<int>, e: Event): seq<int> {
    match e
    case Failure(now) => history + [now]
    case Look(_) => history
    case Reset => []
  }

  /** How many of the first `n` timestamps lie after the cutoff. */
  ghost function Recent(ts: seq<int>, cutoff: int, n: nat): nat
    requires n <= |ts|
  {
    if n == 0 then 0 else Recent(ts, cutoff, n - 1) + if ts[n - 1] > cutoff then 1 else 0
  }

  /** Nothing recorded so far carries a reading after `now`. */
  ghost predicate AllBefore(events: seq<Event>, n: nat, now: int)
    requires n <= |events|
  {
    forall i :: 0 <= i < n && !events[i].Reset? ==> events[i].now <= now
  }

  ghost predicate Sorted(ts: seq<int>) { forall i :: 0 < i < |ts| ==> ts[i - 1] <= ts[i] }

  lemma {:induction false} SortedAt(ts: seq<int>, i: nat, j: nat)
    requires Sorted(ts) && i <= j < |ts|
    ensures ts[i] <= ts[j]
    decreases j
  {
    if i < j {
      SortedAt(ts, i, j - 1);
    }
  }

  /** The window is the history from `d` on; what is missing from it is too old to
      matter, or the window is full. */
  ghost predicate Represents(cfg: Config, history: seq<int>, d: nat, now: int) {
    && Sorted(history) && (history != [] ==> history[|history| - 1] <= now)
    && d <= |history|
    && (0 < d && |history| - d < cfg.maxFailures ==> history[d - 1] <= now - cfg.window)
  }

  lemma {:induction false} CutShift(ts: seq<int>, d: nat, i: nat, cutoff: int)
    requires d <= |ts| && i <= |ts[d..]|
    ensures d + Cut(ts[d..], i, cutoff) == Cut(ts, d + i, cutoff)
    decreases |ts| - i
  {
    if i < |ts[d..]| && ts[d + i] <= cutoff {
      CutShift(ts, d, i + 1, cutoff);
    }
  }

  lemma PrunedAt(h: seq<int>, d: nat, cutoff: int) returns (e: nat)
    requires d <= |h|
    ensures d <= e <= |h| && Pruned(h[d..], cutoff) == h[e..]
    ensures (d < e ==> h[e - 1] <= cutoff) && (e < |h| ==> h[e] > cutoff)
  {
    e := Cut(h, d, cutoff);
    CutBounds(h, d, cutoff);
    CutShift(h, d, 0, cutoff);
    CutBounds(h[d..], 0, cutoff);
    assert h[d..][e - d..] == h[e..];
  }

  lemma PruneAt(cfg: Config, history: seq<int>, d: nat, clock: int, now: int) returns (e: nat)
    requires Represents(cfg, history, d, clock) && now <= clock
    ensures e <= |history| && Pruned(history[d..], now - cfg.window) == history[e..]
    ensures Represents(cfg, history, e, clock)
    ensures e < |history| ==> history[e] > now - cfg.window
  {
    e := PrunedAt(history, d, now - cfg.window);
  }

  lemma TruncateAt(h: seq<int>, p: nat, n: nat) returns (e: nat)
    requires p <= |h|
    ensures p <= e <= |h| && Truncated(h[p..], n) == h[e..]
    ensures e == p || |h| - e == n
  {
    e := if |h| - p > n then |h| - n else p;
    assert h[p..][e - p..] == h[e..];
  }

  lemma RecordAt(cfg: Config, history: seq<int>, d: nat, clock: int, now: int) returns (e: nat)
    requires Represents(cfg, history, d, clock) && now <= clock && Sorted(history + [now])
    ensures e <= |history| + 1 && Recorded(cfg, history[d..], now) == (history + [now])[e..]
    ensures Represents(cfg, history + [now], e, clock)
  {
    var p := PruneAt(cfg, history, d, clock, now);
    e := AppendAt(cfg, history, p, now);
    AppendRepresents(cfg, history, p, e, clock, now);
  }

  lemma AppendAt(cfg: Config, history: seq<int>, p: nat, now: int) returns (e: nat)
    requires p <= |history|
    ensures p <= e <= |history| + 1 && Truncated(history[p..] + [now], cfg.maxFailures) == (history + [now])[e..]
    ensures e == p || |history| + 1 - e == cfg.maxFailures
  {
    assert history[p..] + [now] == (history + [now])[p..];
    e := TruncateAt(history + [now], p, cfg.maxFailures);
  }

  lemma AppendRepresents(cfg: Config, history: seq<int>, p: nat, e: nat, clock: int, now: int)
    requires Represents(cfg, history, p, clock) && now <= clock && Sorted(history + [now]) && p <= e <= |history| + 1
    requires e == p || |history| + 1 - e == cfg.maxFailures
    ensures Represents(cfg, history + [now], e, clock)
  {
  }

  lemma EventAt(cfg: Config, history: seq<int>, c: nat, clock: int, e: Event) returns (d: nat)
    requires Represents(cfg, history, c, clock) && Sorted(NextHistory(history, e)) && !e.Reset? && e.now <= clock
    ensures d <= |NextHistory(history, e)| && NextWindow(cfg, history[c..], e) == NextHistory(history, e)[d..]
    ensures Represents(cfg, NextHistory(history, e), d, clock)
  {
    if e.Failure? {
      d := RecordAt(cfg, history, c, clock, e.now);
    } else {
      d := PruneAt(cfg, history, c, clock, e.now);
    }
  }

  lemma {:induction false} WindowAt(cfg: Config, events: seq<Event>, n: nat, clock: int) returns (d: nat)
    requires n <= |events| && Sorted(History(events, n)) && AllBefore(events, n, clock)
    ensures d <= |History(events, n)| && Window(cfg, events, n) == History(events, n)[d..]
    ensures Represents(cfg, History(events, n), d, clock)
  {
    if n == 0 || events[n - 1].Reset? {
      d := 0;
    } else {
      PrefixSorted(History(events, n - 1), events[n - 1]);
      var c := WindowAt(cfg, events, n - 1, clock);
      d := EventAt(cfg, History(events, n - 1), c, clock, events[n - 1]);
    }
  }

  lemma PrefixSorted(history: seq<int>, e: Event)
    requires Sorted(NextHistory(history, e)) && !e.Reset?
    ensures Sorted(history)
  {
    if e.Failure? {
      assert forall i :: 0 <= i < |history| ==> (history + [e.now])[i] == history[i];
    }
  }

  /** In a sorted history the recent failures are the last ones. */
  lemma {:induction false} RecentFrom(ts: seq<int>, cutoff: int, k: nat, n: nat)
    requires Sorted(ts) && k <= n <= |ts|
    requires k < |ts| ==> ts[k] > cutoff
    ensures Recent(ts, cutoff, n) >= n - k
    ensures 0 < k && ts[k - 1] <= cutoff ==> Recent(ts, cutoff, n) == n - k
    ensures k == 0 ==> Recent(ts, cutoff, n) == n
    decreases n
  {
    if k < n {
      RecentFrom(ts, cutoff, k, n - 1);
      SortedAt(ts, k, n - 1);
    } else if 0 < k && ts[k - 1] <= cutoff {
      RecentNone(ts, cutoff, k);
    }
  }

  lemma {:induction false} RecentNone(ts: seq<int>, cutoff: int, n: nat)
    requires Sorted(ts) && n <= |ts| && (0 < n ==> ts[n - 1] <= cutoff)
    ensures Recent(ts, cutoff, n) == 0
  {
    if n > 0 {
      RecentNone(ts, cutoff, n - 1);
    }
  }

  /** Looking at `now`, after `events`, the kept window answers as the whole history would. */
  ghost predicate Agrees(cfg: Config, events: seq<Event>, now: int) {
    var history := History(events, |events|);
    |Pruned(Window(cfg, events, |events|), now - cfg.window)| >= cfg.maxFailures <==>
    Recent(history, now - cfg.window, |history|) >= cfg.maxFailures
  }

  /** With failures recorded in the order of their readings, a backend looked at is demoted
      exactly when at least `maxFailures` of all failures since the last reset lie inside the
      window. */
  lemma DemotedIffHistory(cfg: Config, events: seq<Event>, now: int)
    requires Sorted(History(events, |events|)) && AllBefore(events, |events|, now)
    ensures Agrees(cfg, events, now)
  {
    var history := History(events, |events|);
    var d := WindowAt(cfg, events, |events|, now);
    var e := PruneAt(cfg, history, d, now, now);
    KeptCounts(cfg, history, e, now);
  }

  lemma KeptCounts(cfg: Config, history: seq<int>, e: nat, now: int)
    requires Represents(cfg, history, e, now) && (e < |history| ==> history[e] > now - cfg.window)
    ensures |history| - e >= cfg.maxFailures <==> Recent(history, now - cfg.window, |history|) >= cfg.maxFailures
  {
    if history != [] {
      RecentFrom(history, now - cfg.window, e, |history|);
    }
  }

  // ---------- What overtaking does ----------

  /** A configuration the loader accepts, in the mode that recovers by the window alone. */
  ghost predicate Default(cfg: Config) {
    cfg.window > 0 && cfg.maxFailures > 0 && cfg.holdDown == 0 && !cfg.recoverByProbe
  }

  /** With a window wide enough for every reading nothing is pruned before the last look,
      and the latest failures are what is kept. */
  lemma {:induction false} WideWindow(cfg: Config, events: seq<Event>, n: nat, lo: int)
    requires n <= |events|
    requires forall i :: 0 <= i < n && !events[i].Reset? ==> lo <= events[i].now && events[i].now - cfg.window < lo
    ensures Window(cfg, events, n) == Truncated(History(events, n), cfg.maxFailures)
    ensures forall i :: 0 <= i < |History(events, n)| ==> lo <= History(events, n)[i]
  {
    if n > 0 && !events[n - 1].Reset? {
      WideWindow(cfg, events, n - 1, lo);
      var h := History(events, n - 1);
      var kept, e := Truncated(h, cfg.maxFailures), events[n - 1];
      assert Cut(kept, 0, e.now - cfg.window) == 0;
      assert Pruned(kept, e.now - cfg.window) == kept;
      if e.Failure? {
        TruncatedTwice(h, e.now, cfg.maxFailures);
      }
    }
  }

  lemma TruncatedTwice(h: seq<int>, x: int, n: nat)
    ensures Truncated(Truncated(h, n) + [x], n) == Truncated(h + [x], n)
  {
  }

  lemma Bounds(events: seq<Event>) returns (lo: int, hi: int)
    ensures lo <= hi && forall i :: 0 <= i < |events| && !events[i].Reset? ==> lo <= events[i].now <= hi
  {
    lo, hi := 0, 0;
    var i := 0;
    while i < |events|
      invariant 0 <= i <= |events| && lo <= hi && forall j :: 0 <= j < i && !events[j].Reset? ==> lo <= events[j].now <= hi
    {
      if !events[i].Reset? {
        lo, hi := Min(lo, events[i].now), Max(hi, events[i].now);
      }
      i := i + 1;
    }
  }

  /** Some later failure carries an earlier reading. */
  ghost predicate Overtaken(h: seq<int>, i: int) { exists j :: 0 <= i < j < |h| && h[j] < h[i] }

  /** Some earlier failure carries a later reading. */
  ghost predicate Overtakes(h: seq<int>, j: int) { exists i :: 0 <= i < j < |h| && h[j] < h[i] }

  /** The first overtaken failure, and the least reading behind it. */
  lemma FirstOvertaken(h: seq<int>) returns (i: nat, c: int, j: nat)
    requires !Sorted(h)
    ensures i < j < |h| && h[j] == c < h[i]
    ensures (forall k :: i < k < |h| ==> c <= h[k]) && (forall k :: 0 <= k < i ==> h[k] <= c)
  {
    var b :| 0 < b < |h| && h[b] < h[b - 1];
    assert Overtaken(h, b - 1);
    i := 0;
    while !Overtaken(h, i)
      invariant i <= b - 1 && forall k :: 0 <= k < i ==> !Overtaken(h, k)
      decreases b - i
    {
      i := i + 1;
    }
    var x :| i < x < |h| && h[x] < h[i];
    j := Least(h, i + 1);
    c := h[j];
    forall k | 0 <= k < i
      ensures h[k] <= c
    {
      assert !Overtaken(h, k);
    }
  }

  lemma Least(h: seq<int>, from: nat) returns (j: nat)
    requires from < |h|
    ensures from <= j < |h| && forall k :: from <= k < |h| ==> h[j] <= h[k]
  {
    j := from;
    var k := from;
    while k < |h|
      invariant from <= k <= |h| && from <= j < |h| && forall x :: from <= x < k ==> h[j] <= h[x]
    {
      if h[k] < h[j] {
        j := k;
      }
      k := k + 1;
    }
  }

  /** The last failure that overtakes another. */
  lemma LastOvertaking(h: seq<int>) returns (j: nat, i: nat)
    requires !Sorted(h)
    ensures i < j < |h| && h[j] < h[i] && forall k :: j < k < |h| ==> h[j] < h[k]
  {
    var b :| 0 < b < |h| && h[b] < h[b - 1];
    assert Overtakes(h, b);
    j := |h| - 1;
    while !Overtakes(h, j)
      invariant b <= j < |h| && forall k :: j < k < |h| ==> !Overtakes(h, k)
      decreases j
    {
      j := j - 1;
    }
    i :| i < j < |h| && h[j] < h[i];
    forall k | j < k < |h|
      ensures h[j] < h[k]
    {
      assert !Overtakes(h, k);
    }
  }

  lemma {:induction false} RecentAtMost(ts: seq<int>, cutoff: int, i: nat, j: nat, n: nat)
    requires i < j < |ts| && i <= n <= |ts| && ts[j] <= cutoff && forall k :: 0 <= k < i ==> ts[k] <= cutoff
    ensures Recent(ts, cutoff, n) <= n - i - if j < n then 1 else 0
    decreases n
  {
    if n > i {
      RecentAtMost(ts, cutoff, i, j, n - 1);
    } else {
      RecentZero(ts, cutoff, n);
    }
  }

  lemma {:induction false} RecentZero(ts: seq<int>, cutoff: int, n: nat)
    requires n <= |ts| && forall k :: 0 <= k < n ==> ts[k] <= cutoff
    ensures Recent(ts, cutoff, n) == 0
  {
    if n > 0 {
      RecentZero(ts, cutoff, n - 1);
    }
  }

  lemma {:induction false} RecentAtLeast(ts: seq<int>, cutoff: int, i: nat, j: nat, n: nat)
    requires i < j < |ts| && n <= |ts| && ts[i] > cutoff && forall k :: j < k < |ts| ==> ts[k] > cutoff
    ensures Recent(ts, cutoff, n) >= (if i < n then 1 else 0) + if j < n then n - j - 1 else 0
    decreases n
  {
    if n > 0 {
      RecentAtLeast(ts, cutoff, i, j, n - 1);
    }
  }

  /** Whenever a failure has been overtaken there are a window, a threshold and a later
      look that find the backend demoted although too few of its failures are recent: an
      expired reading hides behind a fresh one. */
  lemma WronglyDemoted(events: seq<Event>) returns (cfg: Config, now: int)
    requires !Sorted(History(events, |events|))
    ensures Default(cfg) && AllBefore(events, |events|, now) && !Agrees(cfg, events, now)
    ensures |Pruned(Window(cfg, events, |events|), now - cfg.window)| >= cfg.maxFailures
  {
    var h := History(events, |events|);
    var lo, hi := Bounds(events);
    var i, c, j := FirstOvertaken(h);
    cfg := Config(hi - lo + 1, |h| - i, 0, false, false);
    now := c + cfg.window;
    WideWindow(cfg, events, |events|, lo);
    assert Truncated(h, cfg.maxFailures) == h[i..];
    RecentAtMost(h, c, i, j, |h|);
  }

  /** And there are a window, a threshold and a later look that miss a demotion: a fresh
      reading was dropped to make room for one that expires before it. */
  lemma WronglySpared(events: seq<Event>) returns (cfg: Config, now: int)
    requires !Sorted(History(events, |events|))
    ensures Default(cfg) && AllBefore(events, |events|, now) && !Agrees(cfg, events, now)
    ensures |Pruned(Window(cfg, events, |events|), now - cfg.window)| < cfg.maxFailures
  {
    var h := History(events, |events|);
    var lo, hi := Bounds(events);
    var j, i := LastOvertaking(h);
    cfg := Config(hi - lo + 1, |h| - j, 0, false, false);
    now := h[j] + cfg.window;
    WideWindow(cfg, events, |events|, lo);
    assert Truncated(h, cfg.maxFailures) == h[j..];
    CutBounds(h[j..], 0, h[j]);
    assert Cut(h[j..], 0, h[j]) == Cut(h[j..], 1, h[j]);
    CutBounds(h[j..], 1, h[j]);
    RecentAtLeast(h, h[j], i, j, |h|);
  }

  /** One failure overtaken by another, either way: with readings 9 and 3 a look at 14 finds
      two failures in a window of 10 that holds one, and with 8, 7 and 9 a look at 17 finds
      one failure in a window that holds two. */
  lemma OvertakenFailure()
    ensures var cfg := Config(10, 2, 0, false, false); var events := [Failure(9), Failure(3)];
            |Pruned(Window(cfg, events, 2), 4)| == 2 && Recent(History(events, 2), 4, 2) == 1
    ensures var cfg := Config(10, 2, 0, false, false); var events := [Failure(8), Failure(7), Failure(9)];
            |Pruned(Window(cfg, events, 3), 7)| == 1 && Recent(History(events, 3), 7, 3) == 2
  {
    var cfg := Config(10, 2, 0, false, false);
    var fooled, spared := [Failure(9), Failure(3)], [Failure(8), Failure(7), Failure(9)];
    WideWindow(cfg, fooled, 2, 3);
    assert History(fooled, 0) == [] && History(fooled, 1) == [9] && History(fooled, 2) == [9, 3];
    assert Truncated([9, 3], 2) == [9, 3];
    WideWindow(cfg, spared, 3, 7);
    assert History(spared, 0) == [] && History(spared, 1) == [8] && History(spared, 2) == [8, 7];
    assert History(spared, 3) == [8, 7, 9] && Truncated([8, 7, 9], 2) == [7, 9];
    assert Cut([7, 9], 1, 7) == 1;
  }

  /** The window is exact, for every window length and threshold and at every later look, if
      and only if the failures since the last reset were recorded in the order of their
      readings. */
  lemma ExactIffInOrder(events: seq<Event>)
    ensures Sorted(History(events, |events|)) <==>
            forall cfg, now :: Default(cfg) && AllBefore(events, |events|, now) ==> Agrees(cfg, events, now)
  {
    if Sorted(History(events, |events|)) {
      forall cfg, now | Default(cfg) && AllBefore(events, |events|, now)
        ensures Agrees(cfg, events, now)
      {
        DemotedIffHistory(cfg, events, now);
      }
    } else {
      var cfg, now := WronglyDemoted(events);
    }
  }
}
