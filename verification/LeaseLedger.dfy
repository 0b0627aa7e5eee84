/** Reference-counted request buffers shared by everyone who may still read them. A
    hold takes the buffers of a chain one atomic increment at a time and gives them
    back one atomic decrement at a time; all holds interleave. */
module LeaseLedger {
  import opened Ledger

  type Buffer = nat

  datatype HoldId =
    | Origin(buffer: Buffer)  // the Retry handler that filled the buffer
    | Trip(trip: nat)         // a RoundTrip in progress
    | Producer(producer: nat) // a Timeout producer
    | Reader(body: nat)       // a body handed to the transport

  datatype Phase = Taking | Held | Giving

  /** Buffers `chain[from..upto]` are retained on behalf of this hold. While it is
      taking, position `i` is protected by the hold `guards[i]`. */
  datatype Hold = Hold(phase: Phase, chain: seq<Buffer>, from: nat, upto: nat, guards: seq<HoldId>)

  /** Counters, freed buffers, the charge for the others, and who holds what. */
  datatype Books = Books(refs: map<Buffer, int>, size: map<Buffer, nat>, freed: set<Buffer>, used: int,
                         holds: map<HoldId, Hold>)

  const EMPTY := Books(map[], map[], {}, 0, map[])

  datatype Step =
    | Allocate(buffer: Buffer, size: nat)
    | Begin(id: HoldId, chain: seq<Buffer>, guards: seq<HoldId>)
    | Take(id: HoldId)
    | Release(id: HoldId)
    | Give(id: HoldId)

  /** `g` holds buffer `b` for good, until it starts to release. */
  ghost predicate Protects(holds: map<HoldId, Hold>, g: HoldId, b: Buffer) {
    g in holds && holds[g].phase == Held && b in holds[g].chain
  }

  ghost predicate Guarded(holds: map<HoldId, Hold>, chain: seq<Buffer>, guards: seq<HoldId>) {
    |guards| == |chain| && forall i :: 0 <= i < |chain| ==> Protects(holds, guards[i], chain[i])
  }

  /** Nobody is taking a hold under the protection of `id`. */
  ghost predicate Unneeded(holds: map<HoldId, Hold>, id: HoldId) {
    forall x :: x in holds && holds[x].phase == Taking ==> id !in holds[x].guards
  }

  /** A hold is taken under the protection of holds that wait for it, and given back
      by its owner only. */
  ghost predicate Enabled(s: Books, step: Step) {
    match step
    case Allocate(b, _) => b !in s.refs
    case Begin(id, chain, guards) => id !in s.holds && chain != [] && Guarded(s.holds, chain, guards)
    case Take(id) => id in s.holds && s.holds[id].phase == Taking
    case Release(id) => id in s.holds && s.holds[id].phase == Held && Unneeded(s.holds, id)
    case Give(id) => id in s.holds && s.holds[id].phase == Giving && s.holds[id].from < |s.holds[id].chain|
  }

  ghost function Apply(s: Books, step: Step): Books {
    match step
    case Allocate(b, size) =>
      s.(refs := s.refs[b := 1], size := s.size[b := size], used := s.used + size,
         holds := s.holds[Origin(b) := Hold(Held, [b], 0, 1, [])])
    case Begin(id, chain, guards) => s.(holds := s.holds[id := Hold(Taking, chain, 0, 0, guards)])
    case Take(id) => if id in s.holds then Taken(s, id) else s
    case Release(id) => if id in s.holds then s.(holds := s.holds[id := s.holds[id].(phase := Giving)]) else s
    case Give(id) => if id in s.holds then Given(s, id) else s
  }

  /** One retain: the counter goes up whatever it was. */
  ghost function Taken(s: Books, id: HoldId): Books
    requires id in s.holds
  {
    var h := s.holds[id];
    if h.upto < |h.chain| && h.chain[h.upto] in s.refs then
      var b := h.chain[h.upto];
      var k := h.(upto := h.upto + 1, phase := if h.upto + 1 == |h.chain| then Held else Taking);
      s.(refs := s.refs[b := s.refs[b] + 1], holds := s.holds[id := k])
    else s
  }

  /** One release: at zero the bytes go and their charge is returned. */
  ghost function Given(s: Books, id: HoldId): Books
    requires id in s.holds
  {
    var h := s.holds[id];
    if h.from < |h.chain| && h.chain[h.from] in s.refs && h.chain[h.from] in s.size then
      var b := h.chain[h.from];
      var last := s.refs[b] - 1 == 0;
      s.(refs := s.refs[b := s.refs[b] - 1], holds := s.holds[id := h.(from := h.from + 1)],
         freed := if last then s.freed + {b} else s.freed,
         used := if last then s.used - s.size[b] else s.used)
    else s
  }

  // ---------- Counting ----------

  /** How often a hold has retained `b` and not given it back. */
  ghost function Covers(h: Hold, b: Buffer): nat {
    if h.from <= h.upto <= |h.chain| then multiset(h.chain[h.from..h.upto])[b] else 0
  }

  ghost function Coverage(holds: map<HoldId, Hold>, b: Buffer): map<HoldId, int> {
    map id | id in holds :: Covers(holds[id], b) as int
  }

  ghost predicate WellFormed(h: Hold) {
    && h.from <= h.upto <= |h.chain| && h.chain != []
    && (h.phase == Taking ==> h.from == 0 && h.upto < |h.chain|)
    && (h.phase == Held ==> h.from == 0 && h.upto == |h.chain|)
    && (h.phase == Giving ==> h.upto == |h.chain|)
  }

  ghost function Charges(size: map<Buffer, nat>, freed: set<Buffer>): map<Buffer, int> {
    map b | b in size && b !in freed :: size[b] as int
  }

  /** Every counter is the number of retains not yet given back. */
  ghost predicate Counted(refs: map<Buffer, int>, holds: map<HoldId, Hold>) {
    forall b {:trigger Coverage(holds, b)} :: b in refs ==> refs[b] == Total(Coverage(holds, b))
  }

  ghost predicate Known(refs: map<Buffer, int>, h: Hold) {
    WellFormed(h) && forall b :: b in h.chain ==> b in refs
  }

  ghost predicate HoldsOk(refs: map<Buffer, int>, holds: map<HoldId, Hold>) {
    forall id :: id in holds ==> Known(refs, holds[id])
  }

  ghost predicate GuardsOk(holds: map<HoldId, Hold>) {
    forall id :: id in holds && holds[id].phase == Taking ==> Guarded(holds, holds[id].chain, holds[id].guards)
  }

  /** A buffer's bytes are gone exactly when its counter is zero. */
  ghost predicate FreedOk(refs: map<Buffer, int>, freed: set<Buffer>) {
    forall b :: b in refs ==> (b in freed <==> refs[b] == 0)
  }

  ghost predicate Inv(s: Books) {
    && HoldsOk(s.refs, s.holds) && GuardsOk(s.holds) && Counted(s.refs, s.holds) && FreedOk(s.refs, s.freed)
    && (forall b :: b in s.refs <==> b in s.size) && (forall b :: b in s.freed ==> b in s.refs)
    && (forall b :: b !in s.refs ==> Origin(b) !in s.holds)
    && s.used == Total(Charges(s.size, s.freed))
  }

  lemma CoverageUpdate(holds: map<HoldId, Hold>, id: HoldId, h: Hold, b: Buffer)
    ensures Total(Coverage(holds[id := h], b))
         == Total(Coverage(holds, b)) - (if id in holds then Covers(holds[id], b) else 0) + Covers(h, b)
  {
    TotalUpdate(Coverage(holds, b), id, Covers(h, b));
    assert Coverage(holds[id := h], b) == Coverage(holds, b)[id := Covers(h, b) as int];
  }

  /** A buffer someone holds is not freed. */
  lemma CoveredNotFreed(s: Books, id: HoldId, b: Buffer)
    requires Inv(s) && id in s.holds && b in s.refs && 0 < Covers(s.holds[id], b)
    ensures 0 < s.refs[b] && b !in s.freed
  {
    TotalAtLeast(Coverage(s.holds, b));
    assert Coverage(s.holds, b)[id] <= Total(Coverage(s.holds, b));
  }

  lemma HeldCovers(h: Hold, b: Buffer)
    requires WellFormed(h) && h.phase == Held && b in h.chain
    ensures 0 < Covers(h, b)
  {
    assert h.chain[0..|h.chain|] == h.chain;
  }

  lemma TakeCovers(h: Hold, b: Buffer)
    requires WellFormed(h) && h.upto < |h.chain|
    ensures Covers(h.(upto := h.upto + 1), b) == Covers(h, b) + if h.chain[h.upto] == b then 1 else 0
  {
    assert h.chain[h.from..h.upto + 1] == h.chain[h.from..h.upto] + [h.chain[h.upto]];
  }

  lemma GiveCovers(h: Hold, b: Buffer)
    requires WellFormed(h) && h.from < h.upto
    ensures Covers(h, b) == Covers(h.(from := h.from + 1), b) + if h.chain[h.from] == b then 1 else 0
  {
    assert h.chain[h.from..h.upto] == [h.chain[h.from]] + h.chain[h.from + 1..h.upto];
  }

  // ---------- Every step keeps the books ----------

  /** The counters follow when one hold changes by `delta(b)` and so does the counter. */
  lemma CountedUpdate(refs: map<Buffer, int>, holds: map<HoldId, Hold>, id: HoldId, h: Hold, after: map<Buffer, int>)
    requires Counted(refs, holds)
    requires forall b :: b in after ==> b in refs
    requires forall b :: b in after ==>
      after[b] == refs[b] - (if id in holds then Covers(holds[id], b) else 0) + Covers(h, b)
    ensures Counted(after, holds[id := h])
  {
    forall b | b in after
      ensures after[b] == Total(Coverage(holds[id := h], b))
    {
      CoverageUpdate(holds, id, h, b);
    }
  }

  /** Guards stay put when only `id` changes, and `id` guards nobody. */
  lemma GuardsKept(holds: map<HoldId, Hold>, id: HoldId, h: Hold)
    requires GuardsOk(holds)
    requires id in holds && holds[id].phase == Held ==> Unneeded(holds, id)
    requires h.phase == Taking ==> Guarded(holds, h.chain, h.guards)
    requires h.phase == Taking ==> id !in h.guards
    ensures GuardsOk(holds[id := h])
  {
    var after := holds[id := h];
    forall x | x in after && after[x].phase == Taking
      ensures Guarded(after, after[x].chain, after[x].guards)
    {
      StillGuarded(holds, id, h, after[x].chain, after[x].guards);
    }
  }

  lemma StillGuarded(holds: map<HoldId, Hold>, id: HoldId, h: Hold, chain: seq<Buffer>, guards: seq<HoldId>)
    requires Guarded(holds, chain, guards)
    requires id in holds && holds[id].phase == Held ==> id !in guards
    ensures Guarded(holds[id := h], chain, guards)
  {
    forall i | 0 <= i < |chain|
      ensures Protects(holds[id := h], guards[i], chain[i])
    {
      assert Protects(holds, guards[i], chain[i]);
    }
  }

  lemma AllocateCounted(s: Books, b: Buffer)
    requires Inv(s) && b !in s.refs
    ensures Counted(s.refs[b := 1], s.holds[Origin(b) := Hold(Held, [b], 0, 1, [])])
  {
    var h := Hold(Held, [b], 0, 1, []);
    assert [b][0..1] == [b];
    var after := s.refs[b := 1];
    forall x | x in after
      ensures after[x] == Total(Coverage(s.holds[Origin(b) := h], x))
    {
      CoverageUpdate(s.holds, Origin(b), h, x);
      if x == b {
        UnknownUncovered(s, b);
      }
    }
  }

  lemma UnknownUncovered(s: Books, b: Buffer)
    requires Inv(s) && b !in s.refs
    ensures Total(Coverage(s.holds, b)) == 0
  {
    forall id | id in s.holds
      ensures Covers(s.holds[id], b) == 0
    {
      assert Known(s.refs, s.holds[id]);
    }
    AllZero(Coverage(s.holds, b));
  }

  lemma AllocateInv(s: Books, b: Buffer, size: nat)
    requires Inv(s) && Enabled(s, Allocate(b, size))
    ensures Inv(Apply(s, Allocate(b, size)))
  {
    AllocateCounted(s, b);
    GuardsKept(s.holds, Origin(b), Hold(Held, [b], 0, 1, []));
    NewCharge(s.size, s.freed, b, size);
  }

  lemma BeginCounted(s: Books, id: HoldId, h: Hold)
    requires Inv(s) && id !in s.holds && h.from == h.upto == 0
    ensures Counted(s.refs, s.holds[id := h])
  {
    assert h.chain[0..0] == [];
    CountedUpdate(s.refs, s.holds, id, h, s.refs);
  }

  lemma BeginInv(s: Books, id: HoldId, chain: seq<Buffer>, guards: seq<HoldId>)
    requires Inv(s) && Enabled(s, Begin(id, chain, guards)) && !id.Origin?
    ensures Inv(Apply(s, Begin(id, chain, guards)))
  {
    var h := Hold(Taking, chain, 0, 0, guards);
    BeginCounted(s, id, h);
    forall i | 0 <= i < |chain|
      ensures chain[i] in s.refs && guards[i] != id
    {
      assert Protects(s.holds, guards[i], chain[i]);
    }
    GuardsKept(s.holds, id, h);
  }

  /** A buffer is only retained while somebody else keeps it. */
  lemma TakeAlive(s: Books, id: HoldId)
    requires Inv(s) && Enabled(s, Take(id))
    ensures var h := s.holds[id]; var b := h.chain[h.upto];
            b in s.refs && 0 < s.refs[b] && b !in s.freed
  {
    var h := s.holds[id];
    assert Known(s.refs, h);
    var b := h.chain[h.upto];
    assert Protects(s.holds, h.guards[h.upto], b);
    HeldCovers(s.holds[h.guards[h.upto]], b);
    CoveredNotFreed(s, h.guards[h.upto], b);
  }

  /** A retain nobody protects goes unnoticed exactly when the bytes are still there. */
  lemma LateRetain(s: Books, b: Buffer)
    requires Inv(s) && b in s.refs
    ensures FreedOk(s.refs[b := s.refs[b] + 1], s.freed) <==> b !in s.freed
  {
    TotalAtLeast(Coverage(s.holds, b));
    assert s.refs[b := s.refs[b] + 1][b] == s.refs[b] + 1;
  }

  lemma TakeCounted(s: Books, id: HoldId)
    requires Inv(s) && Enabled(s, Take(id))
    ensures Counted(Taken(s, id).refs, Taken(s, id).holds)
  {
    var h := s.holds[id];
    assert Known(s.refs, h);
    var k := Taken(s, id).holds[id];
    forall x | x in s.refs
      ensures Taken(s, id).refs[x] == s.refs[x] - Covers(h, x) + Covers(k, x)
    {
      TakeCovers(h, x);
      assert Covers(k, x) == Covers(h.(upto := h.upto + 1), x);
    }
    CountedUpdate(s.refs, s.holds, id, k, Taken(s, id).refs);
  }

  lemma TakeInv(s: Books, id: HoldId)
    requires Inv(s) && Enabled(s, Take(id))
    ensures Inv(Taken(s, id))
  {
    assert Known(s.refs, s.holds[id]);
    TakeAlive(s, id);
    TakeCounted(s, id);
    NotOwnGuard(s.holds, id);
    GuardsKept(s.holds, id, Taken(s, id).holds[id]);
  }

  lemma NotOwnGuard(holds: map<HoldId, Hold>, id: HoldId)
    requires id in holds && holds[id].phase == Taking && Guarded(holds, holds[id].chain, holds[id].guards)
    ensures id !in holds[id].guards
  {
    var guards := holds[id].guards;
    forall i | 0 <= i < |guards|
      ensures guards[i] != id
    {
      assert Protects(holds, guards[i], holds[id].chain[i]);
    }
  }

  lemma ReleaseCounted(s: Books, id: HoldId)
    requires Inv(s) && Enabled(s, Release(id))
    ensures Counted(s.refs, s.holds[id := s.holds[id].(phase := Giving)])
  {
    CountedUpdate(s.refs, s.holds, id, s.holds[id].(phase := Giving), s.refs);
  }

  lemma ReleaseInv(s: Books, id: HoldId)
    requires Inv(s) && Enabled(s, Release(id))
    ensures Inv(Apply(s, Release(id)))
  {
    assert Known(s.refs, s.holds[id]);
    ReleaseCounted(s, id);
    GuardsKept(s.holds, id, s.holds[id].(phase := Giving));
  }

  /** A buffer is only released by a hold that still keeps it. */
  lemma GiveAlive(s: Books, id: HoldId)
    requires Inv(s) && Enabled(s, Give(id))
    ensures var h := s.holds[id]; var b := h.chain[h.from];
            b in s.refs && 0 < s.refs[b] && b !in s.freed
  {
    var h := s.holds[id];
    assert Known(s.refs, h);
    GiveCovers(h, h.chain[h.from]);
    CoveredNotFreed(s, id, h.chain[h.from]);
  }

  lemma GiveCounted(s: Books, id: HoldId)
    requires Inv(s) && Enabled(s, Give(id))
    ensures Counted(Given(s, id).refs, Given(s, id).holds)
  {
    var h := s.holds[id];
    assert Known(s.refs, h);
    var k := h.(from := h.from + 1);
    forall x | x in s.refs
      ensures Given(s, id).refs[x] == s.refs[x] - Covers(h, x) + Covers(k, x)
    {
      GiveCovers(h, x);
    }
    CountedUpdate(s.refs, s.holds, id, k, Given(s, id).refs);
  }

  lemma GiveInv(s: Books, id: HoldId)
    requires Inv(s) && Enabled(s, Give(id))
    ensures Inv(Given(s, id))
  {
    var h := s.holds[id];
    assert Known(s.refs, h);
    GiveAlive(s, id);
    GiveCounted(s, id);
    GuardsKept(s.holds, id, h.(from := h.from + 1));
    FreeCharge(s.size, s.freed, h.chain[h.from]);
  }

  lemma FreeCharge(size: map<Buffer, nat>, freed: set<Buffer>, b: Buffer)
    requires b in size && b !in freed
    ensures Total(Charges(size, freed + {b})) == Total(Charges(size, freed)) - size[b]
  {
    TotalRemove(Charges(size, freed), b);
    assert Charges(size, freed + {b}) == Charges(size, freed) - {b};
  }

  lemma NewCharge(size: map<Buffer, nat>, freed: set<Buffer>, b: Buffer, n: nat)
    requires b !in size && b !in freed
    ensures Total(Charges(size[b := n], freed)) == Total(Charges(size, freed)) + n
  {
    TotalUpdate(Charges(size, freed), b, n);
    assert Charges(size[b := n], freed) == Charges(size, freed)[b := n as int];
  }

  lemma StepInv(s: Books, step: Step)
    requires Inv(s) && Enabled(s, step) && (step.Begin? ==> !step.id.Origin?)
    ensures Inv(Apply(s, step))
  {
    match step
    case Allocate(b, size) => AllocateInv(s, b, size);
    case Begin(id, chain, guards) => BeginInv(s, id, chain, guards);
    case Take(id) => TakeInv(s, id);
    case Release(id) => ReleaseInv(s, id);
    case Give(id) => GiveInv(s, id);
  }
}
