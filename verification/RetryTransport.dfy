/** Request bodies handed to the transport: reads, closes and panic cleanup in any
    order, over the shared lease books. Every critical section or atomic operation
    of the source is one action. */
module RetryTransport {
  import opened Basics
  import opened LeaseLedger

  datatype Stage = Open | Closing | Unlinked | Closed

  /** `reader` is true until the body has retired its lease. */
  datatype Body = Body(trip: nat, active: nat, stage: Stage, reader: bool, published: bool, linked: bool)

  /** `lists` are the registries of open bodies, one per RoundTrip; `popped` is the
      body a panic cleanup has taken out and not yet begun to close. */
  datatype State = State(books: Books, bodies: map<nat, Body>, lists: map<nat, seq<nat>>, popped: map<nat, nat>)

  const START := State(LeaseLedger.EMPTY, map[], map[], map[])

  datatype Action =
    | Lease(step: Step)
    | Wrap(body: nat, trip: nat, guards: seq<HoldId>)
    | Publish(body: nat)
    | ReadBegin(body: nat)
    | ReadEnd(body: nat)
    | CloseBegin(body: nat)
    | CloseUnlink(body: nat)
    | CloseEnd(body: nat)
    | Pop(trip: nat)
    | CleanupClose(trip: nat)

  // ---------- One body ----------

  predicate Retires(b: Body) { b.stage == Closed && b.active == 0 && b.reader }

  function Retired(b: Body): Body { if Retires(b) then b.(reader := false) else b }

  function ReadStarted(b: Body): Body { if b.stage == Open then b.(active := b.active + 1) else b }

  function ReadFinished(b: Body): Body
    requires 0 < b.active
  {
    Retired(b.(active := b.active - 1))
  }

  function CloseStarted(b: Body): Body { if b.stage == Open then b.(stage := Closing) else b }

  function CloseFinished(b: Body): Body { Retired(b.(stage := Closed)) }

  // ---------- Actions ----------

  function Without<T(==)>(list: seq<T>, x: T): seq<T> {
    if list == [] then []
    else if list[0] == x then Without(list[1..], x)
    else [list[0]] + Without(list[1..], x)
  }

  lemma {:induction false} WithoutMembers<T>(list: seq<T>, x: T)
    ensures forall y :: y in Without(list, x) ==> y in list && y != x
    ensures forall y :: y in list && y != x ==> y in Without(list, x)
  {
    if list != [] {
      WithoutMembers(list[1..], x);
      assert list == [list[0]] + list[1..];
    }
  }

  lemma {:induction false} WithoutDistinct<T>(list: seq<T>, x: T)
    requires Distinct(list)
    ensures Distinct(Without(list, x))
  {
    if list != [] {
      DistinctIndices(list);
      IndicesDistinct(list[1..]);
      WithoutDistinct(list[1..], x);
      WithoutMembers(list[1..], x);
      DistinctIndices(Without(list[1..], x));
      assert list[0] !in list[1..];
      IndicesDistinct(Without(list, x));
    }
  }

  ghost function ListOf(lists: map<nat, seq<nat>>, trip: nat): seq<nat> { if trip in lists then lists[trip] else [] }

  ghost predicate Enabled(s: State, a: Action) {
    match a
    case Lease(step) =>
      && LeaseLedger.Enabled(s.books, step)
      && (step.Begin? ==> (step.id.Trip? || step.id.Producer?) && forall g :: g in step.guards ==> !g.Reader?)
      && (step.Release? ==> !step.id.Reader?)
    case Wrap(x, t, guards) =>
      && x !in s.bodies && Reader(x) !in s.books.holds
      && Trip(t) in s.books.holds && Guarded(s.books.holds, s.books.holds[Trip(t)].chain, guards)
      && forall g :: g in guards ==> !g.Reader?
    case Publish(x) =>
      && x in s.bodies && !s.bodies[x].published
      && Reader(x) in s.books.holds && s.books.holds[Reader(x)].phase == Held
    case ReadBegin(x) => x in s.bodies && s.bodies[x].published
    case ReadEnd(x) => x in s.bodies && 0 < s.bodies[x].active
    case CloseBegin(x) => x in s.bodies && s.bodies[x].published
    case CloseUnlink(x) => x in s.bodies && s.bodies[x].stage == Closing
    case CloseEnd(x) => x in s.bodies && s.bodies[x].stage == Unlinked
    case Pop(t) => ListOf(s.lists, t) != [] && t !in s.popped
    case CleanupClose(t) => t in s.popped
  }

  ghost function Put(s: State, x: nat, b: Body): State { s.(bodies := s.bodies[x := b]) }

  /** A body that retires starts to release its hold. */
  ghost function Settle(s: State, x: nat, b: Body): State {
    if b.reader then Put(s, x, b)
    else Put(s, x, b).(books := LeaseLedger.Apply(s.books, Release(Reader(x))))
  }

  ghost function WrapHold(s: State, x: nat, t: nat, guards: seq<HoldId>): Books
    requires Trip(t) in s.books.holds
  {
    LeaseLedger.Apply(s.books, Begin(Reader(x), s.books.holds[Trip(t)].chain, guards))
  }

  ghost function Unlink(s: State, x: nat, stage: Stage): State
    requires x in s.bodies
  {
    var b := s.bodies[x];
    Put(s, x, b.(stage := stage, linked := false)).(lists := s.lists[b.trip := Without(ListOf(s.lists, b.trip), x)])
  }

  ghost function Apply(s: State, a: Action): State
    requires Enabled(s, a)
  {
    match a
    case Lease(step) => s.(books := LeaseLedger.Apply(s.books, step))
    case Wrap(x, t, guards) => Put(s, x, Body(t, 0, Open, true, false, false)).(books := WrapHold(s, x, t, guards))
    case Publish(x) =>
      var b := s.bodies[x];
      Put(s, x, b.(published := true, linked := true)).(lists := s.lists[b.trip := [x] + ListOf(s.lists, b.trip)])
    case ReadBegin(x) => Put(s, x, ReadStarted(s.bodies[x]))
    case ReadEnd(x) => Settle(s, x, ReadFinished(s.bodies[x]))
    case CloseBegin(x) => Put(s, x, CloseStarted(s.bodies[x]))
    case CloseUnlink(x) => Unlink(s, x, Unlinked)
    case CloseEnd(x) => Settle(s, x, CloseFinished(s.bodies[x]))
    case Pop(t) =>
      var x := ListOf(s.lists, t)[0];
      if x in s.bodies then Unlink(s, x, s.bodies[x].stage).(popped := s.popped[t := x]) else s
    case CleanupClose(t) =>
      var x := s.popped[t];
      if x in s.bodies then Put(s, x, CloseStarted(s.bodies[x])).(popped := s.popped - {t}) else s
  }

  // ---------- Invariant ----------

  /** What a body and its hold know of each other. */
  ghost predicate BodyOk(holds: map<HoldId, Hold>, x: nat, b: Body) {
    && Reader(x) in holds
    && (b.reader <==> holds[Reader(x)].phase != Giving)
    && (!b.reader ==> b.stage == Closed && b.active == 0)
    && !Retires(b)
    && (b.published ==> holds[Reader(x)].phase != Taking)
    && (!b.published ==> b.stage == Open && b.active == 0 && !b.linked)
    && (b.linked ==> b.stage == Open || b.stage == Closing)
  }

  ghost predicate BodiesOk(holds: map<HoldId, Hold>, bodies: map<nat, Body>) {
    && (forall x :: x in bodies ==> BodyOk(holds, x, bodies[x]))
    && (forall x :: Reader(x) in holds ==> x in bodies)
  }

  /** Readers never protect anyone. */
  ghost predicate NoReaderGuards(holds: map<HoldId, Hold>) {
    forall id, g :: id in holds && holds[id].phase == Taking && g in holds[id].guards ==> !g.Reader?
  }

  /** The registries hold exactly the linked bodies, once each. */
  ghost predicate ListsOk(lists: map<nat, seq<nat>>, bodies: map<nat, Body>) {
    && (forall t :: t in lists ==> Distinct(lists[t]))
    && (forall t, x {:trigger x in lists[t]} :: t in lists && x in lists[t] ==> x in bodies && bodies[x].trip == t && bodies[x].linked)
    && (forall x :: x in bodies && bodies[x].linked ==> x in ListOf(lists, bodies[x].trip))
  }

  /** Out of its registry, and nobody has begun to close it. */
  predicate Loose(b: Body) { b.published && !b.linked && b.stage == Open }

  /** A body out of its registry is being closed, or about to be by a cleanup. */
  ghost predicate CleanupOk(bodies: map<nat, Body>, popped: map<nat, nat>) {
    && (forall x {:trigger Loose(bodies[x])} :: x in bodies && Loose(bodies[x]) ==>
          bodies[x].trip in popped && popped[bodies[x].trip] == x)
    && (forall t {:trigger popped[t]} :: t in popped ==> popped[t] in bodies && bodies[popped[t]].published)
  }

  ghost predicate Inv(s: State) {
    && LeaseLedger.Inv(s.books) && NoReaderGuards(s.books.holds) && BodiesOk(s.books.holds, s.bodies)
    && ListsOk(s.lists, s.bodies) && CleanupOk(s.bodies, s.popped)
  }

  // ---------- Every action keeps it ----------

  /** One hold changes: a reader's only from taking to held, or by a count. */
  lemma HoldChange(holds: map<HoldId, Hold>, bodies: map<nat, Body>, id: HoldId, h: Hold)
    requires BodiesOk(holds, bodies) && NoReaderGuards(holds)
    requires id.Reader? ==> id in holds
    requires id.Reader? ==> (h.phase == Giving <==> holds[id].phase == Giving)
    requires id.Reader? && h.phase == Taking ==> holds[id].phase == Taking
    requires h.phase == Taking ==> forall g :: g in h.guards ==> !g.Reader?
    ensures BodiesOk(holds[id := h], bodies) && NoReaderGuards(holds[id := h])
  {
  }

  /** Outside Begin and Allocate a lease step keeps who holds what and never restarts a hold. */
  lemma StepHold(s: Books, step: Step)
    requires LeaseLedger.Inv(s) && LeaseLedger.Enabled(s, step)
    ensures var id := if step.Allocate? then Origin(step.buffer) else step.id;
            var t := LeaseLedger.Apply(s, step);
            && id in t.holds && t.holds == s.holds[id := t.holds[id]]
            && (step.Take? ==> t.holds[id].phase != Giving && t.holds[id].guards == s.holds[id].guards)
            && (step.Give? || step.Release? ==> t.holds[id].phase == Giving)
            && (step.Allocate? ==> t.holds[id].phase == Held)
  {
    if step.Take? || step.Give? {
      assert Known(s.refs, s.holds[step.id]);
    }
  }

  lemma LeaseInv(s: State, step: Step)
    requires Inv(s) && Enabled(s, Lease(step))
    ensures Inv(Apply(s, Lease(step)))
  {
    StepInv(s.books, step);
    StepHold(s.books, step);
    var id := if step.Allocate? then Origin(step.buffer) else step.id;
    HoldChange(s.books.holds, s.bodies, id, LeaseLedger.Apply(s.books, step).holds[id]);
  }

  /** A body's fields change, but not its registration. */
  lemma PutInv(s: State, x: nat, b: Body)
    requires x in s.bodies && b.trip == s.bodies[x].trip && b.linked == s.bodies[x].linked
    requires b.published == s.bodies[x].published && (b.stage == Open ==> s.bodies[x].stage == Open)
    ensures ListsOk(s.lists, s.bodies) ==> ListsOk(s.lists, s.bodies[x := b])
    ensures CleanupOk(s.bodies, s.popped) ==> CleanupOk(s.bodies[x := b], s.popped)
  {
    assert Loose(b) ==> Loose(s.bodies[x]);
  }

  lemma WrapInv(s: State, x: nat, t: nat, guards: seq<HoldId>)
    requires Inv(s) && Enabled(s, Wrap(x, t, guards))
    ensures Inv(Apply(s, Wrap(x, t, guards)))
  {
    var holds := s.books.holds;
    var chain := holds[Trip(t)].chain;
    assert Known(s.books.refs, holds[Trip(t)]);
    BeginInv(s.books, Reader(x), chain, guards);
    WrapBodies(holds, s.bodies, x, t, Hold(Taking, chain, 0, 0, guards));
    WrapLists(s, x, Body(t, 0, Open, true, false, false));
  }

  /** While its RoundTrip runs, that alone is protection enough to wrap a body. */
  lemma WrapDuringTrip(s: State, x: nat, t: nat)
    requires Inv(s) && x !in s.bodies && Trip(t) in s.books.holds && s.books.holds[Trip(t)].phase == Held
    ensures Enabled(s, Wrap(x, t, seq(|s.books.holds[Trip(t)].chain|, _ => Trip(t))))
  {
    var chain := s.books.holds[Trip(t)].chain;
    var guards := seq(|chain|, _ => Trip(t));
    assert forall i :: 0 <= i < |chain| ==> guards[i] == Trip(t) && chain[i] in chain;
  }

  lemma WrapBodies(holds: map<HoldId, Hold>, bodies: map<nat, Body>, x: nat, t: nat, h: Hold)
    requires BodiesOk(holds, bodies) && NoReaderGuards(holds) && x !in bodies
    requires h.phase == Taking && forall g :: g in h.guards ==> !g.Reader?
    ensures BodiesOk(holds[Reader(x) := h], bodies[x := Body(t, 0, Open, true, false, false)])
    ensures NoReaderGuards(holds[Reader(x) := h])
  {
  }

  lemma WrapLists(s: State, x: nat, b: Body)
    requires x !in s.bodies && !b.linked && !b.published && ListsOk(s.lists, s.bodies) && CleanupOk(s.bodies, s.popped)
    ensures ListsOk(s.lists, s.bodies[x := b]) && CleanupOk(s.bodies[x := b], s.popped)
  {
  }

  lemma PublishLists(lists: map<nat, seq<nat>>, bodies: map<nat, Body>, x: nat, b: Body)
    requires ListsOk(lists, bodies) && x in bodies && !bodies[x].linked && b.trip == bodies[x].trip && b.linked
    ensures ListsOk(lists[b.trip := [x] + ListOf(lists, b.trip)], bodies[x := b])
  {
    var list := ListOf(lists, b.trip);
    assert x !in list;
    DistinctIndices(list);
    IndicesDistinct([x] + list);
  }

  lemma PublishInv(s: State, x: nat)
    requires Inv(s) && Enabled(s, Publish(x))
    ensures Inv(Apply(s, Publish(x)))
  {
    assert BodyOk(s.books.holds, x, s.bodies[x]);
    PublishLists(s.lists, s.bodies, x, s.bodies[x].(published := true, linked := true));
  }

  lemma UnlinkLists(lists: map<nat, seq<nat>>, bodies: map<nat, Body>, x: nat, b: Body)
    requires ListsOk(lists, bodies) && x in bodies && b.trip == bodies[x].trip && !b.linked
    ensures ListsOk(lists[b.trip := Without(ListOf(lists, b.trip), x)], bodies[x := b])
  {
    WithoutMembers(ListOf(lists, b.trip), x);
    WithoutDistinct(ListOf(lists, b.trip), x);
  }

  lemma ReaderUnneeded(holds: map<HoldId, Hold>, x: nat)
    requires NoReaderGuards(holds)
    ensures Unneeded(holds, Reader(x))
  {
    assert Reader(x).Reader?;
    forall id | id in holds && holds[id].phase == Taking
      ensures Reader(x) !in holds[id].guards
    {
    }
  }

  /** A reader that retires is held, guards nobody, and starts to release. */
  lemma RetireInv(s: State, x: nat, b: Body)
    requires Inv(s) && x in s.bodies && s.bodies[x].reader && s.bodies[x].published
    requires b == s.bodies[x].(active := 0, stage := Closed, reader := false, linked := false)
    requires !s.bodies[x].linked
    ensures Inv(Settle(s, x, b))
  {
    var holds := s.books.holds;
    assert BodyOk(holds, x, s.bodies[x]);
    ReaderUnneeded(holds, x);
    ReleaseInv(s.books, Reader(x));
    PutInv(s, x, b);
    RetireBodies(holds, s.bodies, x, b);
  }

  lemma RetireBodies(holds: map<HoldId, Hold>, bodies: map<nat, Body>, x: nat, b: Body)
    requires BodiesOk(holds, bodies) && NoReaderGuards(holds) && x in bodies
    requires b.published && !b.reader && b.stage == Closed && b.active == 0 && !b.linked
    ensures BodiesOk(holds[Reader(x) := holds[Reader(x)].(phase := Giving)], bodies[x := b])
    ensures NoReaderGuards(holds[Reader(x) := holds[Reader(x)].(phase := Giving)])
  {
    assert BodyOk(holds, x, bodies[x]);
  }

  lemma ReadInv(s: State, x: nat)
    requires Inv(s) && x in s.bodies
    ensures Enabled(s, ReadBegin(x)) ==> Inv(Apply(s, ReadBegin(x)))
    ensures Enabled(s, ReadEnd(x)) ==> Inv(Apply(s, ReadEnd(x)))
  {
    var b := s.bodies[x];
    assert BodyOk(s.books.holds, x, b);
    PutInv(s, x, ReadStarted(b));
    if 0 < b.active {
      PutInv(s, x, ReadFinished(b));
      if !ReadFinished(b).reader {
        RetireInv(s, x, ReadFinished(b));
      }
    }
  }

  lemma CloseStartedOk(holds: map<HoldId, Hold>, bodies: map<nat, Body>, x: nat)
    requires BodiesOk(holds, bodies) && x in bodies && bodies[x].published
    ensures BodiesOk(holds, bodies[x := CloseStarted(bodies[x])])
  {
    assert BodyOk(holds, x, bodies[x]);
  }

  lemma CloseBeginInv(s: State, x: nat)
    requires Inv(s) && Enabled(s, CloseBegin(x))
    ensures Inv(Apply(s, CloseBegin(x)))
  {
    CloseStartedOk(s.books.holds, s.bodies, x);
    PutInv(s, x, CloseStarted(s.bodies[x]));
  }

  /** Taking a body out of its registry changes nothing for its hold. */
  lemma UnlinkBodies(holds: map<HoldId, Hold>, bodies: map<nat, Body>, x: nat, b: Body)
    requires BodiesOk(holds, bodies) && x in bodies && bodies[x].published
    requires b == bodies[x].(linked := false) || (bodies[x].stage == Closing && b == bodies[x].(linked := false, stage := Unlinked))
    ensures BodiesOk(holds, bodies[x := b])
  {
    assert BodyOk(holds, x, bodies[x]);
  }

  lemma CloseUnlinkInv(s: State, x: nat)
    requires Inv(s) && Enabled(s, CloseUnlink(x))
    ensures Inv(Apply(s, CloseUnlink(x)))
  {
    var b := s.bodies[x].(stage := Unlinked, linked := false);
    assert BodyOk(s.books.holds, x, s.bodies[x]);
    UnlinkBodies(s.books.holds, s.bodies, x, b);
    UnlinkLists(s.lists, s.bodies, x, b);
  }

  lemma CloseEndInv(s: State, x: nat)
    requires Inv(s) && Enabled(s, CloseEnd(x))
    ensures Inv(Apply(s, CloseEnd(x)))
  {
    var b := CloseFinished(s.bodies[x]);
    assert BodyOk(s.books.holds, x, s.bodies[x]);
    PutInv(s, x, b);
    if !b.reader {
      RetireInv(s, x, b);
    }
  }

  lemma PopCleanup(bodies: map<nat, Body>, popped: map<nat, nat>, t: nat, x: nat)
    requires CleanupOk(bodies, popped) && t !in popped && x in bodies && bodies[x].trip == t && bodies[x].published
    ensures CleanupOk(bodies[x := bodies[x].(linked := false)], popped[t := x])
  {
  }

  lemma PopInv(s: State, t: nat)
    requires Inv(s) && Enabled(s, Pop(t))
    ensures Inv(Apply(s, Pop(t)))
  {
    var x := s.lists[t][0];
    assert x in s.lists[t];
    assert BodyOk(s.books.holds, x, s.bodies[x]);
    var b := s.bodies[x].(linked := false);
    UnlinkBodies(s.books.holds, s.bodies, x, b);
    UnlinkLists(s.lists, s.bodies, x, b);
    PopCleanup(s.bodies, s.popped, t, x);
    var u := Apply(s, Pop(t));
    assert u.bodies == s.bodies[x := b] && u.lists == s.lists[t := Without(ListOf(s.lists, t), x)];
  }

  lemma CloseCleanup(bodies: map<nat, Body>, popped: map<nat, nat>, t: nat)
    requires CleanupOk(bodies, popped) && t in popped
    ensures CleanupOk(bodies[popped[t] := CloseStarted(bodies[popped[t]])], popped - {t})
  {
  }

  lemma CleanupCloseInv(s: State, t: nat)
    requires Inv(s) && Enabled(s, CleanupClose(t))
    ensures Inv(Apply(s, CleanupClose(t)))
  {
    var x := s.popped[t];
    CloseStartedOk(s.books.holds, s.bodies, x);
    PutInv(s, x, CloseStarted(s.bodies[x]));
    CloseCleanup(s.bodies, s.popped, t);
  }

  lemma ActionInv(s: State, a: Action)
    requires Inv(s) && Enabled(s, a)
    ensures Inv(Apply(s, a))
  {
    match a
    case Lease(step) => LeaseInv(s, step);
    case Wrap(x, t, guards) => WrapInv(s, x, t, guards);
    case Publish(x) => PublishInv(s, x);
    case ReadBegin(x) => ReadInv(s, x);
    case ReadEnd(x) => ReadInv(s, x);
    case CloseBegin(x) => CloseBeginInv(s, x);
    case CloseUnlink(x) => CloseUnlinkInv(s, x);
    case CloseEnd(x) => CloseEndInv(s, x);
    case Pop(t) => PopInv(s, t);
    case CleanupClose(t) => CleanupCloseInv(s, t);
  }
}
