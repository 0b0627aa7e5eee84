/** The order of routes discovered from containers: a strict weak order that refines
    specificity, so the first match in a sorted table is a best match. */
module RouteOrder {
  import opened Basics

  datatype HostKind = HostAny | HostExact | HostTraefik
  datatype PathKind = PathByte | PathSegment | PathAny | PathExact

  /** The compiled predicate of a route. `limits` stands for its peer and listener
      constraints. */
  datatype Matcher = Matcher(host: string, hostKind: HostKind, path: string, pathKind: PathKind,
                             priorityOrder: bool, priority: int, limits: nat)

  datatype Route = Route(matcher: Matcher, service: string, handler: nat, clients: seq<nat>)

  // ---------- Specificity ----------

  /** The path without a trailing slash-star. */
  function CutWildcard(path: string): string {
    if |path| >= 2 && path[|path| - 2..] == "/*" then path[..|path| - 2] else path
  }

  function PatternExact(m: Matcher): bool { m.pathKind == PathExact }

  function PatternLength(m: Matcher): int {
    match m.pathKind
    case PathByte => |m.path|
    case PathExact => |m.path|
    case _ => |CutWildcard(m.path)|
  }

  function PatternKind(m: Matcher): int {
    match m.pathKind
    case PathByte => 0
    case PathExact => 2
    case _ => 1
  }

  function HostSpecificity(m: Matcher): int { if m.hostKind == HostExact then 1 else 0 }

  /** Positive when `a` is more specific than `b`, negative when less. */
  function CompareSpecificity(a: Matcher, b: Matcher): int {
    if (a.host != "") != (b.host != "") then (if a.host != "" then 1 else -1)
    else if PatternExact(a) != PatternExact(b) then (if PatternExact(a) then 1 else -1)
    else if PatternLength(a) != PatternLength(b) then PatternLength(a) - PatternLength(b)
    else if PatternKind(a) != PatternKind(b) then PatternKind(a) - PatternKind(b)
    else HostSpecificity(a) - HostSpecificity(b)
  }

  /** Comparing specificity is comparing one number per matcher, digit by digit: a
      strict weak order. */
  lemma SpecificityOrder(a: Matcher, b: Matcher, c: Matcher)
    ensures CompareSpecificity(a, a) == 0
    ensures CompareSpecificity(a, b) > 0 <==> CompareSpecificity(b, a) < 0
    ensures CompareSpecificity(a, b) >= 0 && CompareSpecificity(b, c) >= 0 ==> CompareSpecificity(a, c) >= 0
    ensures CompareSpecificity(a, b) >= 0 && CompareSpecificity(b, c) > 0 ==> CompareSpecificity(a, c) > 0
    ensures CompareSpecificity(a, b) > 0 && CompareSpecificity(b, c) >= 0 ==> CompareSpecificity(a, c) > 0
  {
  }

  // ---------- What specificity means ----------

  predicate HasPrefix(s: string, prefix: string) { |prefix| <= |s| && s[..|prefix|] == prefix }

  /** Whether a pattern takes a path: everything, one path, a path and all below it, or
      every path with those first bytes. */
  predicate MatchesPath(m: Matcher, path: string) {
    match m.pathKind
    case PathAny => true
    case PathExact => path == m.path
    case PathSegment => path == CutWildcard(m.path) || HasPrefix(path, CutWildcard(m.path) + "/")
    case PathByte => HasPrefix(path, m.path)
  }

  /** Patterns as they are compiled: a segment pattern is a base followed by slash-star. */
  ghost predicate WellFormed(m: Matcher) {
    && (m.pathKind == PathAny ==> m.path == "" || m.path == "/*")
    && (m.pathKind == PathSegment ==> |m.path| > 2 && m.path[|m.path| - 2..] == "/*")
  }

  /** `a` takes some of the paths `b` takes, and no others. */
  ghost predicate Narrower(a: Matcher, b: Matcher) {
    && (forall p :: MatchesPath(a, p) ==> MatchesPath(b, p))
    && (exists p :: MatchesPath(b, p) && !MatchesPath(a, p))
  }

  /** Paths of `a` that `b` has to take too for `a` to be narrower. */
  ghost predicate TakesSamples(a: Matcher, b: Matcher) {
    match a.pathKind
    case PathAny => false
    case PathExact => MatchesPath(b, a.path)
    case PathByte => MatchesPath(b, a.path) && MatchesPath(b, a.path + "x") && (b.pathKind == PathAny ==> a.path != "")
    case PathSegment => MatchesPath(b, CutWildcard(a.path)) && MatchesPath(b, CutWildcard(a.path) + "/")
  }

  lemma NarrowerSamples(a: Matcher, b: Matcher)
    requires Narrower(a, b)
    ensures TakesSamples(a, b) && (a.pathKind == b.pathKind ==> a.path != b.path)
  {
    assert MatchesPath(a, a.path) || a.pathKind == PathSegment;
    assert MatchesPath(a, a.path + "x") || a.pathKind != PathByte;
    assert MatchesPath(a, CutWildcard(a.path)) || a.pathKind != PathSegment;
    assert MatchesPath(a, CutWildcard(a.path) + "/") || a.pathKind != PathSegment;
  }

  /** All paths below a byte prefix are taken only by a shorter prefix, or by a segment
      pattern whose base ends at a slash within it. */
  lemma ByteSamples(a: Matcher, b: Matcher)
    requires a.pathKind == PathByte && WellFormed(b) && TakesSamples(a, b) && (b.pathKind == PathByte ==> a.path != b.path)
    ensures b.pathKind != PathExact && PatternLength(b) < |a.path|
  {
    var q := CutWildcard(b.path);
    if b.pathKind == PathSegment {
      assert a.path == q ==> (a.path + "x")[|q|] != (q + "/")[|q|];
    } else if b.pathKind == PathByte {
      assert HasPrefix(a.path, b.path);
    }
  }

  lemma Base(m: Matcher)
    requires WellFormed(m) && m.pathKind == PathSegment
    ensures m.path == CutWildcard(m.path) + "/*" && 0 < |CutWildcard(m.path)|
  {
  }

  lemma SegmentSamples(a: Matcher, b: Matcher)
    requires a.pathKind == PathSegment && WellFormed(a) && WellFormed(b) && TakesSamples(a, b)
    requires b.pathKind == PathSegment ==> a.path != b.path
    ensures b.pathKind != PathExact && PatternLength(b) <= PatternLength(a)
    ensures b.pathKind != PathByte ==> PatternLength(b) < PatternLength(a)
  {
    Base(a);
    var p := CutWildcard(a.path);
    assert p != p + "/";
    match b.pathKind
    case PathAny => assert PatternLength(b) == 0;
    case PathExact =>
    case PathByte => assert HasPrefix(p, b.path);
    case PathSegment =>
      Base(b);
      assert p != CutWildcard(b.path);
      assert HasPrefix(p, CutWildcard(b.path) + "/");
  }

  /** For one host, the pattern that takes strictly fewer paths is the more specific. */
  lemma NarrowerIsMoreSpecific(a: Matcher, b: Matcher)
    requires WellFormed(a) && WellFormed(b) && a.host == b.host && Narrower(a, b)
    ensures CompareSpecificity(a, b) > 0
  {
    NarrowerSamples(a, b);
    match a.pathKind
    case PathByte => ByteSamples(a, b);
    case PathSegment => SegmentSamples(a, b);
    case _ =>
  }

  /** A route bound to a host is more specific than any that is not, whatever their paths;
      and of two hosted routes with one pattern, the one whose host is taken literally. */
  lemma HostIsMoreSpecific(a: Matcher, b: Matcher)
    ensures a.host != "" && b.host == "" ==> CompareSpecificity(a, b) > 0
    ensures a.host != "" && b.host != "" && a.path == b.path && a.pathKind == b.pathKind ==>
              a.hostKind == HostExact && b.hostKind != HostExact ==> CompareSpecificity(a, b) > 0
  {
  }

  // ---------- Spelling ----------

  /** Byte-wise lexicographic order of strings. */
  predicate Less(a: string, b: string) {
    if b == "" then false
    else if a == "" then true
    else a[0] < b[0] || (a[0] == b[0] && Less(a[1..], b[1..]))
  }

  lemma {:induction false} LessTransitive(a: string, b: string, c: string)
    requires Less(a, b) && Less(b, c)
    ensures Less(a, c)
  {
    if a != "" && a[0] == b[0] && b[0] == c[0] {
      LessTransitive(a[1..], b[1..], c[1..]);
    }
  }

  lemma {:induction false} LessConnected(a: string, b: string)
    ensures !Less(a, a)
    ensures a != b ==> Less(a, b) || Less(b, a)
    ensures Less(a, b) ==> !Less(b, a)
  {
    if a != "" {
      if b != "" {
        LessConnected(a[1..], b[1..]);
        assert a == [a[0]] + a[1..] && b == [b[0]] + b[1..];
      } else {
        LessConnected(a[1..], "");
      }
    }
  }

  /** Before another string in this order means: a proper prefix of it, or less at the first
      place where the two differ. */
  lemma {:induction false} LessMeans(a: string, b: string)
    ensures Less(a, b) <==> exists i :: FirstDifference(a, b, i)
  {
    if b != "" {
      if a == "" {
        assert FirstDifference(a, b, 0);
      } else if a[0] == b[0] {
        LessMeans(a[1..], b[1..]);
        if Less(a[1..], b[1..]) {
          var i :| FirstDifference(a[1..], b[1..], i);
          assert a[..i + 1] == [a[0]] + a[1..][..i] && b[..i + 1] == [b[0]] + b[1..][..i];
          assert FirstDifference(a, b, i + 1);
        }
        if i :| FirstDifference(a, b, i) {
          assert a[..i][..Min(1, i)] == b[..i][..Min(1, i)];
          assert i > 0 ==> a[1..][..i - 1] == a[..i][1..] && b[1..][..i - 1] == b[..i][1..];
          assert FirstDifference(a[1..], b[1..], i - 1);
        }
      } else {
        assert a[0] < b[0] ==> FirstDifference(a, b, 0);
        forall i | FirstDifference(a, b, i)
          ensures i == 0
        {
          SameHead(a, b, i);
        }
      }
    }
  }

  lemma SameHead(a: string, b: string, i: int)
    requires 0 <= i <= |a| && i <= |b| && a[..i] == b[..i]
    ensures i == 0 || a[0] == b[0]
  {
    if i > 0 {
      assert a[..i][0] == a[0] && b[..i][0] == b[0];
    }
  }

  /** The two agree before `i`, and there `a` ends or is less. */
  ghost predicate FirstDifference(a: string, b: string, i: int) {
    0 <= i <= |a| && i < |b| && a[..i] == b[..i] && (i == |a| || a[i] < b[i])
  }

  // ---------- Precedence ----------

  predicate Precedes(a: Route, b: Route) {
    var m, n := a.matcher, b.matcher;
    if m.priorityOrder && n.priorityOrder && m.priority != n.priority then m.priority > n.priority
    else if CompareSpecificity(m, n) != 0 then CompareSpecificity(m, n) > 0
    else if m.host != n.host then Less(m.host, n.host)
    else if m.path != n.path then Less(m.path, n.path)
    else Less(a.service, b.service)
  }

  /** Routes of one table are all compiled with the same priority mode. */
  ghost predicate SameMode(a: Route, b: Route) { a.matcher.priorityOrder == b.matcher.priorityOrder }

  /** Nothing in the order tells the two apart. */
  ghost predicate Tied(a: Route, b: Route) {
    var m, n := a.matcher, b.matcher;
    && (m.priorityOrder && n.priorityOrder ==> m.priority == n.priority)
    && CompareSpecificity(m, n) == 0 && m.host == n.host && m.path == n.path && a.service == b.service
  }

  lemma PrecedesAsymmetric(a: Route, b: Route)
    requires SameMode(a, b)
    ensures !(Precedes(a, b) && Precedes(b, a))
    ensures !Precedes(a, b) && !Precedes(b, a) <==> Tied(a, b)
  {
    SpecificityOrder(a.matcher, b.matcher, a.matcher);
    SpecificityOrder(b.matcher, a.matcher, b.matcher);
    LessConnected(a.matcher.host, b.matcher.host);
    LessConnected(a.matcher.path, b.matcher.path);
    LessConnected(a.service, b.service);
  }

  lemma PrecedesTransitive(a: Route, b: Route, c: Route)
    requires SameMode(a, b) && SameMode(b, c) && Precedes(a, b) && Precedes(b, c)
    ensures Precedes(a, c)
  {
    SpecificityOrder(a.matcher, b.matcher, c.matcher);
    SpecificityOrder(a.matcher, c.matcher, a.matcher);
    SpecificityOrder(c.matcher, b.matcher, a.matcher);
    SpecificityOrder(b.matcher, c.matcher, a.matcher);
    if Less(a.matcher.host, b.matcher.host) && Less(b.matcher.host, c.matcher.host) {
      LessTransitive(a.matcher.host, b.matcher.host, c.matcher.host);
    }
    if Less(a.matcher.path, b.matcher.path) && Less(b.matcher.path, c.matcher.path) {
      LessTransitive(a.matcher.path, b.matcher.path, c.matcher.path);
    }
    if Less(a.service, b.service) && Less(b.service, c.service) {
      LessTransitive(a.service, b.service, c.service);
    }
    LessConnected(a.matcher.host, c.matcher.host);
    LessConnected(a.matcher.path, c.matcher.path);
    LessConnected(a.service, c.service);
  }

  lemma TiedTransitive(a: Route, b: Route, c: Route)
    requires SameMode(a, b) && SameMode(b, c) && Tied(a, b) && Tied(b, c)
    ensures Tied(a, c)
  {
    SpecificityOrder(a.matcher, b.matcher, c.matcher);
    SpecificityOrder(c.matcher, b.matcher, a.matcher);
    SpecificityOrder(a.matcher, c.matcher, a.matcher);
  }

  /** Were routes of both modes put in one table, the order could go round in circles. */
  lemma MixedModesCycle() returns (a: Route, b: Route, c: Route)
    ensures Precedes(a, b) && Precedes(b, c) && Precedes(c, a)
  {
    a := Route(Matcher("h", HostExact, "/", PathByte, true, 2, 0), "a", 0, []);
    b := Route(Matcher("h", HostExact, "/abc", PathByte, true, 1, 0), "b", 0, []);
    c := Route(Matcher("h", HostExact, "/ab", PathByte, false, 0, 0), "c", 0, []);
  }
}
