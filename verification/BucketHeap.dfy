/** The order of a binary min-heap kept in a sequence, and what sifting does to it. */
module BucketHeap {

  function Parent(i: int): int { (i - 1) / 2 }

  function Swapped<T>(s: seq<T>, i: int, j: int): seq<T>
    requires 0 <= i < |s| && 0 <= j < |s|
  {
    s[i := s[j]][j := s[i]]
  }

  /** Position `c` is not smaller than its parent. */
  ghost predicate Edge(t: seq<int>, c: int) {
    0 < c < |t| ==> 0 <= Parent(c) < |t| && t[Parent(c)] <= t[c]
  }

  ghost predicate Ordered(t: seq<int>, n: int) {
    forall c :: 0 < c < n ==> Edge(t, c)
  }

  /** The children of `i` are not smaller than the parent of `i`. */
  ghost predicate Bridged(t: seq<int>, n: int, i: int) {
    forall c :: 0 < c < n && c < |t| && Parent(c) == i && 0 < i < |t| ==> t[Parent(i)] <= t[c]
  }

  /** In order, except that position `i` may be out of place with its children. */
  ghost predicate OrderedAbove(t: seq<int>, n: int, i: int) {
    (forall c :: 0 < c < n && Parent(c) != i ==> Edge(t, c)) && Bridged(t, n, i)
  }

  /** In order, except that position `i` may be smaller than its parent. */
  ghost predicate OrderedBelow(t: seq<int>, n: int, i: int) {
    (forall c :: 0 < c < n && c != i ==> Edge(t, c)) && Bridged(t, n, i)
  }

  /** In order, except that position `i` may be out of place either way. */
  ghost predicate OrderedAround(t: seq<int>, n: int, i: int) {
    (forall c :: 0 < c < n && c != i && Parent(c) != i ==> Edge(t, c)) && Bridged(t, n, i)
  }

  /** Any value may be put at one position. */
  lemma ChangeAround(t: seq<int>, n: int, i: int, x: int)
    requires 0 <= i < |t| && n <= |t| && Ordered(t, n)
    ensures OrderedAround(t[i := x], n, i)
  {
    forall c | 0 < c < n && Parent(c) == i && 0 < i
      ensures t[Parent(i)] <= t[c]
    {
      assert Edge(t, c) && Edge(t, i);
    }
    forall c | 0 < c < n && c != i && Parent(c) != i
      ensures Edge(t[i := x], c)
    {
      assert Edge(t, c);
    }
  }

  /** A new last position is out of place only with its parent. */
  lemma AppendBelow(t: seq<int>, x: int)
    requires Ordered(t, |t|)
    ensures OrderedBelow(t + [x], |t| + 1, |t|)
  {
    forall c | 0 < c < |t|
      ensures Edge(t + [x], c)
    {
      assert Edge(t, c);
    }
  }

  /** One round of sifting up. */
  lemma UpStep(t: seq<int>, n: int, j: int)
    requires 0 < j < n <= |t| && OrderedBelow(t, n, j) && t[j] < t[Parent(j)]
    ensures OrderedBelow(Swapped(t, Parent(j), j), n, Parent(j))
  {
    var i := Parent(j);
    var u := Swapped(t, i, j);
    forall c | 0 < c < n && c != i
      ensures Edge(u, c)
    {
      assert Edge(t, c) || c == j;
    }
    forall c | 0 < c < n && Parent(c) == i && 0 < i
      ensures u[Parent(i)] <= u[c]
    {
      assert Edge(t, i);
      assert c != j ==> Edge(t, c);
    }
  }

  lemma UpDone(t: seq<int>, n: int, j: int)
    requires 0 <= j < n <= |t| && OrderedBelow(t, n, j) && (j == 0 || t[Parent(j)] <= t[j])
    ensures Ordered(t, n)
  {
    assert Edge(t, j);
  }

  /** One round of sifting down: `j` is the least child of `i`. */
  lemma DownStep(t: seq<int>, n: int, i: int, j: int)
    requires 0 <= i < j < n <= |t| && Parent(j) == i && OrderedAround(t, n, i)
    requires t[j] < t[i] && forall c :: 0 < c < n && Parent(c) == i ==> t[j] <= t[c]
    ensures OrderedAround(Swapped(t, i, j), n, j) && Edge(Swapped(t, i, j), j)
    ensures OrderedAbove(Swapped(t, i, j), n, j)
  {
    var u := Swapped(t, i, j);
    forall c | 0 < c < n && Parent(c) != j
      ensures Edge(u, c)
    {
      assert c == i || Parent(c) == i || Edge(t, c);
    }
    forall c | 0 < c < n && Parent(c) == j
      ensures u[Parent(j)] <= u[c]
    {
      assert Edge(t, c);
    }
  }

  lemma DownDone(t: seq<int>, n: int, i: int)
    requires 0 <= i < n <= |t| && OrderedAround(t, n, i)
    requires forall c :: 0 < c < n && Parent(c) == i ==> t[i] <= t[c]
    ensures OrderedBelow(t, n, i)
    ensures Edge(t, i) ==> Ordered(t, n)
  {
    forall c | 0 < c < n && c != i
      ensures Edge(t, c)
    {
    }
  }

  /** The root is least. */
  lemma {:induction false} RootLeast(t: seq<int>, n: int, i: int)
    requires 0 <= i < n <= |t| && Ordered(t, n)
    ensures t[0] <= t[i]
    decreases i
  {
    if i > 0 {
      assert Edge(t, i);
      RootLeast(t, n, Parent(i));
    }
  }

  /** Order over a prefix is order over the prefix taken alone. */
  lemma PrefixOrdered(t: seq<int>, n: int)
    requires 0 <= n <= |t| && Ordered(t, n)
    ensures Ordered(t[..n], n)
  {
    forall c | 0 < c < n
      ensures Edge(t[..n], c)
    {
      assert Edge(t, c);
    }
  }
}
