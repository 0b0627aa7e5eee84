/** Smooth weighted round-robin: every backend gets exactly its share over every
    full cycle, and never runs ahead of it by a whole turn in between. */
module WeightedRoundRobin {
  import opened Basics

  // ---------- Levels as a vector ----------

  function Sum(s: seq<int>): int { if s == [] then 0 else Sum(s[..|s| - 1]) + s[|s| - 1] }

  /** Everybody gains their weight. */
  function Raised(level: seq<int>, w: seq<int>): seq<int>
    requires |level| == |w|
  {
    seq(|w|, i requires 0 <= i < |w| => level[i] + w[i])
  }

  /** The first of the largest. */
  function Leader(s: seq<int>): (k: nat)
    requires s != []
    ensures k < |s|
    ensures forall i :: 0 <= i < |s| ==> s[i] <= s[k]
    ensures forall i :: 0 <= i < k ==> s[i] < s[k]
  {
    var n := |s| - 1;
    if n == 0 then 0
    else
      var k := Leader(s[..n]);
      if s[n] > s[k] then n else k
  }

  /** The leader pays for the round. */
  function Next(level: seq<int>, w: seq<int>): seq<int>
    requires |level| == |w| && w != []
  {
    var r := Raised(level, w);
    r[Leader(r) := r[Leader(r)] - Sum(w)]
  }

  function Chosen(level: seq<int>, w: seq<int>): nat
    requires |level| == |w| && w != []
  {
    Leader(Raised(level, w))
  }

  ghost predicate Weights(w: seq<int>) { w != [] && forall i :: 0 <= i < |w| ==> 0 < w[i] }

  /** The levels after `n` picks from a fresh start. */
  ghost function After(w: seq<int>, n: nat): (r: seq<int>)
    requires w != []
    ensures |r| == |w|
  {
    if n == 0 then seq(|w|, _ => 0) else Next(After(w, n - 1), w)
  }

  /** How often backend `i` has been chosen in the first `n` picks. */
  ghost function Picks(w: seq<int>, n: nat, i: nat): nat
    requires w != []
  {
    if n == 0 then 0 else Picks(w, n - 1, i) + if Chosen(After(w, n - 1), w) == i then 1 else 0
  }

  ghost function AllPicks(w: seq<int>, n: nat): seq<int>
    requires w != []
  {
    seq(|w|, i requires 0 <= i < |w| => Picks(w, n, i))
  }

  // ---------- Sums ----------

  lemma {:induction false} SumRaised(a: seq<int>, b: seq<int>)
    requires |a| == |b|
    ensures Sum(Raised(a, b)) == Sum(a) + Sum(b)
  {
    if a != [] {
      var n := |a| - 1;
      SumRaised(a[..n], b[..n]);
      assert Raised(a, b)[..n] == Raised(a[..n], b[..n]);
    }
  }

  lemma {:induction false} SumUpdate(s: seq<int>, k: nat, x: int)
    requires k < |s|
    ensures Sum(s[k := x]) == Sum(s) - s[k] + x
  {
    var n := |s| - 1;
    if k < n {
      SumUpdate(s[..n], k, x);
      assert s[k := x][..n] == s[..n][k := x];
    } else {
      assert s[k := x][..n] == s[..n];
    }
  }

  lemma {:induction false} SumAtMost(s: seq<int>, x: int)
    requires forall i :: 0 <= i < |s| ==> s[i] <= x
    ensures Sum(s) <= |s| * x
  {
    if s != [] {
      SumAtMost(s[..|s| - 1], x);
    }
  }

  lemma {:induction false} SumPositive(w: seq<int>)
    requires forall i :: 0 <= i < |w| ==> 0 < w[i]
    ensures |w| <= Sum(w)
  {
    if w != [] {
      SumPositive(w[..|w| - 1]);
    }
  }

  lemma {:induction false} SumBelow(a: seq<int>, b: seq<int>)
    requires |a| == |b| && Sum(a) == Sum(b) && forall i :: 0 <= i < |a| ==> a[i] <= b[i]
    ensures a == b
  {
    if a != [] {
      var n := |a| - 1;
      SumOrder(a[..n], b[..n]);
      SumBelow(a[..n], b[..n]);
      assert a == a[..n] + [a[n]] && b == b[..n] + [b[n]];
    }
  }

  lemma {:induction false} SumOrder(a: seq<int>, b: seq<int>)
    requires |a| == |b| && forall i :: 0 <= i < |a| ==> a[i] <= b[i]
    ensures Sum(a) <= Sum(b)
  {
    if a != [] {
      SumOrder(a[..|a| - 1], b[..|b| - 1]);
    }
  }

  lemma {:induction false} SumZeros(n: nat)
    ensures Sum(seq(n, _ => 0)) == 0
  {
    if n > 0 {
      SumZeros(n - 1);
      assert seq(n, _ => 0)[..n - 1] == seq(n - 1, _ => 0);
    }
  }

  // ---------- The levels stay balanced ----------

  ghost predicate Balanced(w: seq<int>, level: seq<int>) {
    |level| == |w| && Sum(level) == 0 && forall i :: 0 <= i < |w| ==> -Sum(w) < level[i]
  }

  lemma LeaderPositive(s: seq<int>)
    requires s != [] && 0 < Sum(s)
    ensures 0 < s[Leader(s)]
  {
    var top := s[Leader(s)];
    SumAtMost(s, top);
    assert top <= 0 ==> |s| * top <= 0;
  }

  lemma NextBalanced(w: seq<int>, level: seq<int>)
    requires Weights(w) && Balanced(w, level)
    ensures Balanced(w, Next(level, w))
  {
    var r := Raised(level, w);
    SumRaised(level, w);
    SumPositive(w);
    LeaderPositive(r);
    SumUpdate(r, Leader(r), r[Leader(r)] - Sum(w));
  }

  /** After every pick the counters sum to zero and each exceeds minus the total. */
  lemma {:induction false} AlwaysBalanced(w: seq<int>, n: nat)
    requires Weights(w)
    ensures Balanced(w, After(w, n))
  {
    if n == 0 {
      SumZeros(|w|);
      SumPositive(w);
    } else {
      AlwaysBalanced(w, n - 1);
      NextBalanced(w, After(w, n - 1));
    }
  }

  lemma NextAt(level: seq<int>, w: seq<int>, i: nat)
    requires |level| == |w| && i < |w|
    ensures Next(level, w)[i] == level[i] + w[i] - if Chosen(level, w) == i then Sum(w) else 0
  {
  }

  /** What backend `i` is owed, round by round. */
  ghost function Owed(w: seq<int>, n: nat, i: nat): int
    requires w != [] && i < |w|
  {
    if n == 0 then 0 else Owed(w, n - 1, i) + w[i] - if Chosen(After(w, n - 1), w) == i then Sum(w) else 0
  }

  lemma {:induction false} LevelIsOwed(w: seq<int>, n: nat, i: nat)
    requires w != [] && i < |w|
    ensures After(w, n)[i] == Owed(w, n, i)
  {
    if n > 0 {
      LevelIsOwed(w, n - 1, i);
      NextAt(After(w, n - 1), w, i);
    }
  }

  lemma OneRound(n: int, x: int, total: int, k: int, j: int, owed: int)
    requires owed == (n - 1) * x - total * k && (j == k || j == k + 1)
    ensures owed + x - (if j == k then 0 else total) == n * x - total * j
  {
    assert (n - 1) * x == n * x - x;
    assert total * (k + 1) == total * k + total;
  }

  lemma {:induction false} OwedIsDebt(w: seq<int>, n: nat, i: nat)
    requires w != [] && i < |w|
    ensures Owed(w, n, i) == n * w[i] - Sum(w) * Picks(w, n, i)
  {
    if n > 0 {
      OwedIsDebt(w, n - 1, i);
      OneRound(n, w[i], Sum(w), Picks(w, n - 1, i), Picks(w, n, i), Owed(w, n - 1, i));
    }
  }

  /** A counter is what its backend was due minus what it has had. */
  lemma LevelIsDebt(w: seq<int>, n: nat, i: nat)
    requires Weights(w) && i < |w|
    ensures After(w, n)[i] == n * w[i] - Sum(w) * Picks(w, n, i)
  {
    LevelIsOwed(w, n, i);
    OwedIsDebt(w, n, i);
  }

  lemma {:induction false} PicksAddUp(w: seq<int>, n: nat)
    requires Weights(w)
    ensures Sum(AllPicks(w, n)) == n
  {
    if n == 0 {
      SumZeros(|w|);
      assert AllPicks(w, 0) == seq(|w|, _ => 0);
    } else {
      PicksAddUp(w, n - 1);
      var k := Chosen(After(w, n - 1), w);
      SumUpdate(AllPicks(w, n - 1), k, Picks(w, n, k));
      assert AllPicks(w, n) == AllPicks(w, n - 1)[k := Picks(w, n, k) as int];
    }
  }

  /** No backend runs a whole turn ahead of its share. */
  lemma NeverAhead(w: seq<int>, n: nat, i: nat)
    requires Weights(w) && i < |w|
    ensures Sum(w) * Picks(w, n, i) < n * w[i] + Sum(w)
  {
    AlwaysBalanced(w, n);
    LevelIsDebt(w, n, i);
  }

  /** After exactly one pick per unit of weight every backend has had its weight, and
      all counters are back at zero. */
  lemma FullCycle(w: seq<int>, total: nat, i: nat)
    requires Weights(w) && i < |w| && total == Sum(w)
    ensures Picks(w, total, i) == w[i] && After(w, total)[i] == 0
  {
    SumPositive(w);
    forall j | 0 <= j < |w|
      ensures AllPicks(w, total)[j] <= w[j]
    {
      NeverAhead(w, total, j);
      Quotient(total, Picks(w, total, j), w[j]);
    }
    PicksAddUp(w, total);
    SumBelow(AllPicks(w, total), w);
    assert AllPicks(w, total)[i] == w[i];
    LevelIsDebt(w, total, i);
  }

  lemma Quotient(total: int, k: int, x: int)
    requires 0 < total && total * k < total * x + total
    ensures k <= x
  {
    assert k > x ==> total * k >= total * (x + 1);
  }

  // ---------- The picker ----------

  datatype Backend = Backend(id: nat, weight: int)

  function Weight(b: Backend): int { if b.weight <= 0 then 1 else b.weight }

  function WeightsOf(c: seq<Backend>): seq<int> { seq(|c|, i requires 0 <= i < |c| => Weight(c[i])) }

  ghost predicate Differ(c: seq<Backend>, i: int, j: int) { 0 <= i < j < |c| ==> c[i].id != c[j].id }

  ghost predicate DistinctIds(c: seq<Backend>) { forall i, j {:trigger Differ(c, i, j)} :: Differ(c, i, j) }

  lemma OthersDiffer(c: seq<Backend>, n: nat)
    requires DistinctIds(c) && n < |c|
    ensures forall j :: 0 <= j < |c| && j != n ==> c[j].id != c[n].id
  {
    forall j | 0 <= j < |c| && j != n
      ensures c[j].id != c[n].id
    {
      assert Differ(c, j, n) && Differ(c, n, j);
    }
  }

  function Level(current: map<nat, int>, id: nat): int { if id in current then current[id] else 0 }

  function Levels(current: map<nat, int>, c: seq<Backend>): seq<int> {
    seq(|c|, i requires 0 <= i < |c| => Level(current, c[i].id))
  }

  class WeightedPicker {
    var current: map<nat, int>

    constructor ()
      ensures current == map[]
    {
      current := map[];
    }

    /** One pick moves the candidates' levels by `Next` and nobody else's. */
    method Pick(c: seq<Backend>) returns (best: Option<Backend>)
      requires DistinctIds(c)
      modifies this
      ensures c == [] ==> best == None && current == old(current)
      ensures c != [] ==> best == Some(c[Chosen(Levels(old(current), c), WeightsOf(c))])
      ensures c != [] ==> Levels(current, c) == Next(Levels(old(current), c), WeightsOf(c))
      ensures forall id :: Absent(c, id) ==> Level(current, id) == Level(old(current), id)
    {
      if c == [] {
        return None;
      }
      var k, total := Scan(c);
      best := Some(c[k]);
      Settled(old(current), c);
      current := current[c[k].id := Level(current, c[k].id) - total];
    }

    /** Raises every candidate by its weight and remembers the first best. */
    method Scan(c: seq<Backend>) returns (k: nat, total: int)
      requires c != []
      modifies this
      ensures current == Bumped(old(current), c, |c|)
      ensures k == BestTo(old(current), c, |c|) && total == SumTo(WeightsOf(c), |c|)
    {
      var i := 0;
      k, total := 0, 0;
      while i < |c|
        invariant 0 <= i <= |c| && total == SumTo(WeightsOf(c), i)
        invariant current == Bumped(old(current), c, i)
        invariant 0 < i ==> k == BestTo(old(current), c, i)
      {
        var b := c[i];
        current := current[b.id := Level(current, b.id) + Weight(b)];
        total := total + Weight(b);
        if i == 0 || Level(current, b.id) > Level(current, c[k].id) {
          k := i;
        }
        i := i + 1;
      }
    }
  }

  /** The levels once the first `n` candidates have gained their weight, in order. */
  ghost function Bumped(before: map<nat, int>, c: seq<Backend>, n: nat): map<nat, int>
    requires n <= |c|
  {
    if n == 0 then before
    else
      var m := Bumped(before, c, n - 1);
      m[c[n - 1].id := Level(m, c[n - 1].id) + Weight(c[n - 1])]
  }

  /** The running best of the scan. */
  ghost function BestTo(before: map<nat, int>, c: seq<Backend>, n: nat): (k: nat)
    requires 0 < n <= |c|
    ensures k < n
  {
    if n == 1 then 0
    else
      var m := Bumped(before, c, n);
      var k := BestTo(before, c, n - 1);
      if Level(m, c[n - 1].id) > Level(m, c[k].id) then n - 1 else k
  }

  lemma {:induction false} BumpedLifted(before: map<nat, int>, c: seq<Backend>, n: nat)
    requires n <= |c| && DistinctIds(c)
    ensures Lifted(before, Bumped(before, c, n), c, n)
  {
    if n > 0 {
      BumpedLifted(before, c, n - 1);
      Lift(before, Bumped(before, c, n - 1), c, n - 1);
    }
  }

  lemma {:induction false} BestLeads(before: map<nat, int>, c: seq<Backend>, n: nat)
    requires 0 < n <= |c| && DistinctIds(c)
    ensures BestTo(before, c, n) == LeaderTo(Raised(Levels(before, c), WeightsOf(c)), n)
  {
    if n > 1 {
      BestLeads(before, c, n - 1);
      BumpedLifted(before, c, n);
    }
  }

  /** After the scan: the best is the leader, and paying for the round is `Next`. */
  lemma Settled(before: map<nat, int>, c: seq<Backend>)
    requires c != [] && DistinctIds(c)
    ensures var w, level, now := WeightsOf(c), Levels(before, c), Bumped(before, c, |c|);
            var k := BestTo(before, c, |c|);
            var after := now[c[k].id := Level(now, c[k].id) - SumTo(w, |c|)];
            && k == Chosen(level, w) && Levels(after, c) == Next(level, w)
            && (forall id :: Absent(c, id) ==> Level(after, id) == Level(before, id))
  {
    BumpedLifted(before, c, |c|);
    ScanAgrees(before, c);
    Pay(before, Bumped(before, c, |c|), c, BestTo(before, c, |c|), Sum(WeightsOf(c)));
  }

  lemma ScanAgrees(before: map<nat, int>, c: seq<Backend>)
    requires c != [] && DistinctIds(c)
    ensures BestTo(before, c, |c|) == Chosen(Levels(before, c), WeightsOf(c))
    ensures SumTo(WeightsOf(c), |c|) == Sum(WeightsOf(c))
  {
    var w := WeightsOf(c);
    var r := Raised(Levels(before, c), w);
    BestLeads(before, c, |c|);
    SumToAll(w, |c|);
    LeaderToAll(r, |c|);
    assert w[..|c|] == w && r[..|c|] == r;
  }

  ghost predicate Absent(c: seq<Backend>, id: nat) { forall i :: 0 <= i < |c| ==> c[i].id != id }

  /** The first `n` candidates have gained their weight; nobody else has changed. */
  ghost predicate Lifted(before: map<nat, int>, now: map<nat, int>, c: seq<Backend>, n: int) {
    && (forall j :: 0 <= j < |c| ==> Level(now, c[j].id) == Level(before, c[j].id) + if j < n then Weight(c[j]) else 0)
    && (forall id :: Absent(c, id) ==> Level(now, id) == Level(before, id))
  }

  lemma Lift(before: map<nat, int>, now: map<nat, int>, c: seq<Backend>, n: nat)
    requires n < |c| && DistinctIds(c) && Lifted(before, now, c, n)
    ensures Lifted(before, now[c[n].id := Level(now, c[n].id) + Weight(c[n])], c, n + 1)
  {
    OthersDiffer(c, n);
  }

  lemma Pay(before: map<nat, int>, now: map<nat, int>, c: seq<Backend>, k: nat, total: int)
    requires c != [] && DistinctIds(c) && Lifted(before, now, c, |c|)
    requires k == Chosen(Levels(before, c), WeightsOf(c)) && total == Sum(WeightsOf(c))
    ensures var after := now[c[k].id := Level(now, c[k].id) - total];
            && Levels(after, c) == Next(Levels(before, c), WeightsOf(c))
            && (forall id :: Absent(c, id) ==> Level(after, id) == Level(before, id))
  {
    OthersDiffer(c, k);
  }

  ghost function SumTo(w: seq<int>, i: nat): int
    requires i <= |w|
  {
    if i == 0 then 0 else SumTo(w, i - 1) + w[i - 1]
  }

  ghost function LeaderTo(r: seq<int>, i: nat): (k: nat)
    requires 0 < i <= |r|
    ensures k < i
  {
    if i == 1 then 0
    else
      var k := LeaderTo(r, i - 1);
      if r[i - 1] > r[k] then i - 1 else k
  }

  lemma {:induction false} SumToAll(w: seq<int>, i: nat)
    requires i <= |w|
    ensures SumTo(w, i) == Sum(w[..i])
  {
    if i > 0 {
      SumToAll(w, i - 1);
      assert w[..i][..i - 1] == w[..i - 1];
    }
  }

  lemma {:induction false} LeaderToAll(r: seq<int>, i: nat)
    requires 0 < i <= |r|
    ensures LeaderTo(r, i) == Leader(r[..i])
  {
    if i > 1 {
      LeaderToAll(r, i - 1);
      assert r[..i][..i - 1] == r[..i - 1];
    }
  }

  lemma WeightsPositive(c: seq<Backend>)
    requires c != []
    ensures Weights(WeightsOf(c))
  {
  }

  /** What each backend is due per cycle: its weight if positive, and one turn otherwise. */
  ghost function Shares(c: seq<Backend>): seq<int> {
    seq(|c|, i requires 0 <= i < |c| => if c[i].weight > 0 then c[i].weight else 1)
  }

  lemma WeightsAreShares(c: seq<Backend>)
    ensures WeightsOf(c) == Shares(c)
  {
  }

  lemma PickCounted(c: seq<Backend>, served: seq<Backend>, k: nat, i: nat)
    requires DistinctIds(c) && k < |c| && i < |c|
    ensures multiset(served + [c[k]])[c[i]] == multiset(served)[c[i]] + if k == i then 1 else 0
  {
    OthersDiffer(c, k);
  }

  lemma FreshLevels(c: seq<Backend>)
    requires c != []
    ensures Levels(map[], c) == After(WeightsOf(c), 0)
  {
  }

  /** Each candidate has been served as often as counted on the vector. */
  ghost predicate Tallied(c: seq<Backend>, served: seq<Backend>, n: nat)
    requires c != []
  {
    forall i :: 0 <= i < |c| ==> multiset(served)[c[i]] == Picks(WeightsOf(c), n, i)
  }

  lemma TalliedNext(c: seq<Backend>, served: seq<Backend>, n: nat)
    requires c != [] && DistinctIds(c) && Tallied(c, served, n)
    ensures Tallied(c, served + [c[Chosen(After(WeightsOf(c), n), WeightsOf(c))]], n + 1)
  {
    var k := Chosen(After(WeightsOf(c), n), WeightsOf(c));
    forall i | 0 <= i < |c|
      ensures multiset(served + [c[k]])[c[i]] == Picks(WeightsOf(c), n + 1, i)
    {
      PickCounted(c, served, k, i);
    }
  }

  lemma TalliedFull(c: seq<Backend>, served: seq<Backend>, n: nat)
    requires c != [] && n == Sum(Shares(c)) && Tallied(c, served, n)
    ensures forall i :: 0 <= i < |c| ==> multiset(served)[c[i]] == if c[i].weight > 0 then c[i].weight else 1
  {
    WeightsPositive(c);
    WeightsAreShares(c);
    forall i | 0 <= i < |c|
      ensures multiset(served)[c[i]] == if c[i].weight > 0 then c[i].weight else 1
    {
      FullCycle(WeightsOf(c), n, i);
    }
  }

  /** Any number of picks in a row on a fresh picker: the levels are those of the vector and
      each backend is served as often as counted there, so a full cycle gives everyone
      exactly their weight. */
  method PickTimes(c: seq<Backend>, n: nat) returns (p: WeightedPicker, served: seq<Backend>)
    requires c != [] && DistinctIds(c)
    ensures fresh(p) && |served| == n && Levels(p.current, c) == After(WeightsOf(c), n) && Tallied(c, served, n)
    ensures n == Sum(Shares(c)) ==>
              forall i :: 0 <= i < |c| ==> multiset(served)[c[i]] == if c[i].weight > 0 then c[i].weight else 1
  {
    p := new WeightedPicker();
    served := [];
    FreshLevels(c);
    for k := 0 to n
      invariant fresh(p) && |served| == k && Levels(p.current, c) == After(WeightsOf(c), k) && Tallied(c, served, k)
    {
      TalliedNext(c, served, k);
      var b := p.Pick(c);
      served := served + [b.value];
    }
    if n == Sum(Shares(c)) {
      TalliedFull(c, served, n);
    }
  }
}
