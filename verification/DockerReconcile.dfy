/** The Docker provider's reconcile loop, its wakeups and its publications. Each
    critical section and each channel operation is one step; requesters, container
    events and mutations interleave freely with the loop. */
module DockerReconcile {
  import opened Basics

  /** The counters a route table must have been built against. */
  datatype Versions = Versions(mutations: map<string, nat>, observations: nat)

  /** One pass of sync: counters are captured, then containers are listed. */
  datatype Sync = Fresh | Listing(captured: Versions)

  /** Where the loop of the latest provider run stands. */
  datatype Phase =
    | Off
    | Starting(sync: Sync)     // the synchronous first sync, before the loop runs
    | Idle
    | Debouncing
    | Beginning
    | Reconciling(sync: Sync)
    | Published                // published, not yet past finishReconcile
    | Retriggering             // finishReconcile reported demand
    | Exited

  /** The section of the provider guarded by its generation mutex. Publication edges
      are numbered: edge `g` is closed exactly when `g < generation`. */
  datatype Generation = Generation(reconciling: bool, demanded: bool, generation: nat,
                                   versions: Versions, table: Option<Versions>)

  /** A requestReconcile call and the wait that follows it: it has read the current run,
      then the edge, and may still owe its run a trigger. Every caller is a goroutine the
      run it read keeps track of. */
  datatype Requester = Entered(run: nat) | Asked(run: nat, edge: nat, owes: bool)

  datatype State = State(gen: Generation, run: nat, current: bool, cancelled: bool, kick: bool, phase: Phase,
                         requesters: map<nat, Requester>)

  const START := State(Generation(false, false, 0, Versions(map[], 0), None), 0, false, false, false, Off, map[])

  // ---------- Critical sections ----------

  function Begun(g: Generation): Generation { g.(reconciling := true, demanded := false) }

  function Finished(g: Generation): Generation { g.(reconciling := false, demanded := false) }

  function Demanded(g: Generation): Generation { if g.reconciling then g.(demanded := true) else g }

  /** The table goes out only if nothing moved since its counters were captured. */
  function Publication(g: Generation, captured: Versions): Generation {
    if g.versions != captured then g
    else g.(demanded := false, generation := g.generation + 1, table := Some(captured))
  }

  function Mutated(v: Versions, service: string): Versions {
    v.(mutations := v.mutations[service := (if service in v.mutations then v.mutations[service] else 0) + 1])
  }

  function Observed(v: Versions): Versions { v.(observations := v.observations + 1) }

  // ---------- Steps ----------

  datatype Step =
    | StartRun
    | Capture
    | Retry                     // listing failed or went stale before publishing
    | Publish
    | TakeKick
    | Absorb
    | Timer
    | Tick
    | BeginReconcile
    | FinishReconcile
    | Retrigger
    | Cancel
    | Abort                     // the loop notices the cancellation
    | StopDone
    | Event                     // a container event triggers the current run
    | Mutate(service: string)
    | Observe
    | Enter(q: nat)
    | Ask(q: nat)
    | Trigger(q: nat)
    | Leave(q: nat)             // the tracked caller stops waiting and ends

  ghost predicate Syncing(p: Phase) { p.Starting? || p.Reconciling? }

  ghost predicate Enabled(s: State, step: Step) {
    match step
    case StartRun => s.phase == Off && !s.current
    case Capture => Syncing(s.phase) && s.phase.sync == Fresh
    case Retry => Syncing(s.phase)
    case Publish => Syncing(s.phase) && s.phase.sync.Listing?
    case TakeKick => s.phase == Idle && s.kick
    case Absorb => s.phase == Debouncing && s.kick
    case Timer => s.phase == Debouncing
    case Tick => s.phase == Idle
    case BeginReconcile => s.phase == Beginning
    case FinishReconcile => s.phase == Published
    case Retrigger => s.phase == Retriggering
    case Cancel => s.current
    case Abort => s.cancelled && s.phase != Off && s.phase != Exited && s.phase != Published && s.phase != Retriggering
    case StopDone => s.cancelled && s.phase == Exited && forall q :: q in s.requesters ==> s.requesters[q].run != s.run
    case Event => s.current
    case Enter(q) => s.current && q !in s.requesters
    case Ask(q) => q in s.requesters && s.requesters[q].Entered?
    case Trigger(q) => q in s.requesters && s.requesters[q].Asked? && s.requesters[q].owes
    case Leave(q) => q in s.requesters && s.requesters[q].Asked? && !s.requesters[q].owes
    case _ => true
  }

  ghost function WithSync(p: Phase, sync: Sync): Phase
    requires Syncing(p)
  {
    if p.Starting? then Starting(sync) else Reconciling(sync)
  }

  ghost function Apply(s: State, step: Step): State
    requires Enabled(s, step)
  {
    match step
    case StartRun => s.(run := s.run + 1, current := true, cancelled := false, kick := false, phase := Starting(Fresh))
    case Capture => s.(phase := WithSync(s.phase, Listing(s.gen.versions)))
    case Retry => s.(phase := WithSync(s.phase, Fresh))
    case Publish =>
      var g := Publication(s.gen, s.phase.sync.captured);
      s.(gen := g, phase := if g.generation == s.gen.generation then WithSync(s.phase, Fresh)
                            else if s.phase.Starting? then Idle else Published)
    case TakeKick => s.(kick := false, phase := Debouncing)
    case Absorb => s.(kick := false)
    case Timer => s.(phase := Beginning)
    case Tick => s.(phase := Beginning)
    case BeginReconcile => s.(gen := Begun(s.gen), phase := Reconciling(Fresh))
    case FinishReconcile => s.(gen := Finished(s.gen), phase := if s.gen.demanded && !s.cancelled then Retriggering else Idle)
    case Retrigger => s.(kick := true, phase := Idle)
    case Cancel => s.(cancelled := true)
    case Abort => s.(gen := if s.phase.Reconciling? then Finished(s.gen) else s.gen, phase := Exited)
    case StopDone => s.(current := false, phase := Off)
    case Event => s.(kick := true)
    case Mutate(service) => s.(gen := s.gen.(versions := Mutated(s.gen.versions, service)))
    case Observe => s.(gen := s.gen.(versions := Observed(s.gen.versions)))
    case Enter(q) => s.(requesters := s.requesters[q := Entered(s.run)])
    case Ask(q) =>
      var asked := Asked(s.requesters[q].run, s.gen.generation, !s.gen.reconciling);
      s.(gen := Demanded(s.gen), requesters := s.requesters[q := asked])
    case Trigger(q) =>
      var r := s.requesters[q];
      s.(kick := s.kick || r.run == s.run, requesters := s.requesters[q := r.(owes := false)])
    case Leave(q) => s.(requesters := s.requesters - {q})
  }

  ghost predicate Run(states: seq<State>, steps: seq<Step>) {
    && |states| == |steps| + 1 && states[0] == START
    && forall i :: 0 <= i < |steps| ==> Enabled(states[i], steps[i]) && states[i + 1] == Apply(states[i], steps[i])
  }

  // ---------- No lost wakeups ----------

  ghost predicate Live(s: State) { s.current && !s.cancelled }

  /** Requester `q` waits for an edge not yet closed. */
  ghost predicate Waits(s: State, q: nat) {
    q in s.requesters && s.requesters[q].Asked? && s.requesters[q].edge == s.gen.generation
  }

  ghost predicate Owes(s: State, q: nat) {
    q in s.requesters && s.requesters[q].Asked? && s.requesters[q].owes
  }

  /** Something is under way that ends in a publication. */
  ghost predicate Underway(s: State) {
    || s.kick
    || s.phase.Starting? || s.phase == Debouncing || s.phase == Beginning || s.phase.Reconciling? || s.phase == Retriggering
    || (s.phase == Published && s.gen.demanded)
  }

  ghost predicate Covered(s: State) { Underway(s) || exists q :: Owes(s, q) }

  ghost predicate LoopOk(s: State) {
    && (s.gen.reconciling <==> s.phase.Reconciling? || s.phase == Published)
    && (s.gen.demanded ==> s.gen.reconciling)
    && (s.current <==> s.phase != Off)
    && (s.phase == Exited ==> s.cancelled)
  }

  /** Nobody is left who read a run other than the current one. */
  ghost predicate RequestersOk(s: State) {
    forall q {:trigger s.requesters[q]} :: q in s.requesters ==>
      && s.current && s.requesters[q].run == s.run
      && (s.requesters[q].Asked? ==> s.requesters[q].edge <= s.gen.generation)
  }

  ghost predicate Inv(s: State) {
    && LoopOk(s) && RequestersOk(s)
    && (Live(s) && (exists q :: Waits(s, q)) ==> Covered(s))
  }

  lemma StepRequesters(s: State, step: Step)
    requires LoopOk(s) && RequestersOk(s) && Enabled(s, step)
    ensures LoopOk(Apply(s, step)) && RequestersOk(Apply(s, step))
  {
  }

  /** A trigger still owed is owed until it is given. */
  lemma DebtKept(s: State, step: Step, o: nat)
    requires RequestersOk(s) && Enabled(s, step) && Owes(s, o)
    ensures Owes(Apply(s, step), o) || Apply(s, step).kick
  {
  }

  /** What is under way stays under way until it publishes. */
  lemma UnderwayKept(s: State, step: Step)
    requires LoopOk(s) && Enabled(s, step) && Underway(s) && Live(Apply(s, step))
    ensures Underway(Apply(s, step)) || Apply(s, step).gen.generation > s.gen.generation
  {
  }

  lemma StepCovered(s: State, step: Step, q: nat)
    requires Inv(s) && Enabled(s, step) && Live(Apply(s, step)) && Waits(Apply(s, step), q)
    ensures Covered(Apply(s, step))
  {
    var t := Apply(s, step);
    if step.Ask? && step.q == q {
      assert Owes(t, q) || Underway(t);
    } else if Live(s) {
      assert Waits(s, q);
      if Underway(s) {
        UnderwayKept(s, step);
      } else {
        var o :| Owes(s, o);
        DebtKept(s, step, o);
      }
    }
  }

  lemma StepInv(s: State, step: Step)
    requires Inv(s) && Enabled(s, step)
    ensures Inv(Apply(s, step))
  {
    StepRequesters(s, step);
    var t := Apply(s, step);
    if Live(t) && exists q :: Waits(t, q) {
      var q :| Waits(t, q);
      StepCovered(s, step, q);
    }
  }

  lemma {:induction false} RunInv(states: seq<State>, steps: seq<Step>, n: nat)
    requires Run(states, steps) && n <= |steps|
    ensures Inv(states[n])
  {
    if n > 0 {
      RunInv(states, steps, n - 1);
      StepInv(states[n - 1], steps[n - 1]);
    }
  }

  /** While a run is live, everyone whose edge is still open has a publication coming. */
  lemma NoLostWakeup(states: seq<State>, steps: seq<Step>, n: nat, q: nat)
    requires Run(states, steps) && n <= |steps| && Live(states[n]) && Waits(states[n], q)
    ensures Covered(states[n])
  {
    RunInv(states, steps, n);
  }

  /** Stopping waits for its callers: no trigger ever goes to a run that has been replaced. */
  lemma RequestersAreCurrent(states: seq<State>, steps: seq<Step>, n: nat, q: nat)
    requires Run(states, steps) && n <= |steps| && q in states[n].requesters
    ensures states[n].current && states[n].requesters[q].run == states[n].run
  {
    RunInv(states, steps, n);
    assert states[n].requesters[q] == states[n].requesters[q];
  }

  /** Steps the loop and a requester that owes a trigger can take until publication. */
  ghost function Remaining(s: State): nat {
    match s.phase
    case Starting(sync) => RemainingSync(s, sync)
    case Reconciling(sync) => RemainingSync(s, sync)
    case Beginning => 4
    case Debouncing => 5
    case Retriggering => 7
    case Published => if s.gen.demanded || s.kick then 8 else 9
    case _ => if s.kick then 6 else 10
  }

  ghost function RemainingSync(s: State, sync: Sync): nat {
    if sync == Fresh then 2 else if sync.captured == s.gen.versions then 1 else 3
  }

  ghost predicate Advances(s: State, step: Step) {
    Enabled(s, step) &&
    var t := Apply(s, step);
    t.gen.generation == s.gen.generation + 1 ||
    (t.gen.generation == s.gen.generation && Inv(t) && Live(t) && Covered(t) && Remaining(t) < Remaining(s))
  }

  lemma CanAdvance(s: State) returns (step: Step)
    requires Inv(s) && Live(s) && Covered(s)
    ensures Advances(s, step)
  {
    if Underway(s) {
      step := match s.phase
        case Starting(sync) => if sync == Fresh then Capture else Publish
        case Reconciling(sync) => if sync == Fresh then Capture else Publish
        case Beginning => BeginReconcile
        case Debouncing => Timer
        case Retriggering => Retrigger
        case Published => FinishReconcile
        case _ => TakeKick;
    } else {
      var q :| Owes(s, q);
      step := Trigger(q);
    }
    StepInv(s, step);
  }

  ghost predicate Path(states: seq<State>, steps: seq<Step>) {
    && |states| == |steps| + 1
    && forall i :: 0 <= i < |steps| ==> Enabled(states[i], steps[i]) && states[i + 1] == Apply(states[i], steps[i])
  }

  /** What covers a waiter is not a dead end: from every covered live state, at most
      ten of these steps close the open edge. */
  lemma {:induction false} EdgeCanClose(s: State) returns (states: seq<State>, steps: seq<Step>)
    requires Inv(s) && Live(s) && Covered(s)
    ensures Path(states, steps) && states[0] == s && |steps| <= Remaining(s)
    ensures states[|steps|].gen.generation == s.gen.generation + 1
    decreases Remaining(s)
  {
    var step := CanAdvance(s);
    var t := Apply(s, step);
    if t.gen.generation == s.gen.generation + 1 {
      states, steps := [s, t], [step];
    } else {
      var later, rest := EdgeCanClose(t);
      states, steps := [s] + later, [step] + rest;
      PathPrepend(s, step, later, rest);
    }
  }

  lemma PathPrepend(s: State, step: Step, later: seq<State>, rest: seq<Step>)
    requires Enabled(s, step) && Path(later, rest) && later[0] == Apply(s, step)
    ensures Path([s] + later, [step] + rest)
  {
    var states, steps := [s] + later, [step] + rest;
    forall i | 0 <= i < |steps|
      ensures Enabled(states[i], steps[i]) && states[i + 1] == Apply(states[i], steps[i])
    {
      if i > 0 {
        assert states[i] == later[i - 1] && states[i + 1] == later[i] && steps[i] == rest[i - 1];
      }
    }
  }

  // ---------- Published tables are current ----------

  ghost predicate CapturedAt(states: seq<State>, i: nat, v: Versions)
    requires i < |states|
  {
    Syncing(states[i].phase) && states[i].phase.sync == Listing(v)
  }

  /** A listing holds what was captured when it began. */
  lemma {:induction false} CaptureHolds(states: seq<State>, steps: seq<Step>, i: nat, v: Versions) returns (c: nat)
    requires Run(states, steps) && i <= |steps| && CapturedAt(states, i, v)
    ensures c < i && steps[c] == Capture && states[c].gen.versions == v
    ensures forall k :: c < k <= i ==> CapturedAt(states, k, v)
  {
    assert i > 0;
    CaptureStep(states[i - 1], steps[i - 1], v);
    if steps[i - 1] == Capture {
      c := i - 1;
    } else {
      c := CaptureHolds(states, steps, i - 1, v);
    }
  }

  lemma CaptureStep(s: State, step: Step, v: Versions)
    requires Enabled(s, step) && Syncing(Apply(s, step).phase) && Apply(s, step).phase.sync == Listing(v)
    ensures if step == Capture then s.gen.versions == v else Syncing(s.phase) && s.phase.sync == Listing(v)
  {
  }

  // ---------- Counted from the steps ----------

  /** The step invalidates every listing captured before it. */
  ghost predicate Invalidates(step: Step) { step.Mutate? || step.Observe? }

  ghost function Mutations(steps: seq<Step>, n: nat, service: string): nat
    requires n <= |steps|
  {
    if n == 0 then 0 else Mutations(steps, n - 1, service) + if steps[n - 1] == Mutate(service) then 1 else 0
  }

  ghost function Observations(steps: seq<Step>, n: nat): nat
    requires n <= |steps|
  {
    if n == 0 then 0 else Observations(steps, n - 1) + if steps[n - 1] == Observe then 1 else 0
  }

  /** The counters count: each mutation of a service, and each observation, exactly once. */
  lemma {:induction false} CountersCount(states: seq<State>, steps: seq<Step>, n: nat, service: string)
    requires Run(states, steps) && n <= |steps|
    ensures var v := states[n].gen.versions;
            && v.observations == Observations(steps, n)
            && (service in v.mutations <==> 0 < Mutations(steps, n, service))
            && (service in v.mutations ==> v.mutations[service] == Mutations(steps, n, service))
  {
    if n > 0 {
      CountersCount(states, steps, n - 1, service);
      VersionStep(states[n - 1], steps[n - 1]);
    }
  }

  lemma VersionStep(s: State, step: Step)
    requires Enabled(s, step)
    ensures var v, w := s.gen.versions, Apply(s, step).gen.versions;
            match step
            case Mutate(service) => w == Mutated(v, service)
            case Observe => w == Observed(v)
            case _ => w == v
  {
  }

  lemma {:induction false} CountsGrow(steps: seq<Step>, i: nat, j: nat, service: string)
    requires i <= j <= |steps|
    ensures Mutations(steps, i, service) <= Mutations(steps, j, service) && Observations(steps, i) <= Observations(steps, j)
    decreases j
  {
    if i < j {
      CountsGrow(steps, i, j - 1, service);
    }
  }

  lemma {:induction false} QuietKeeps(states: seq<State>, steps: seq<Step>, i: nat, j: nat)
    requires Run(states, steps) && i <= j <= |steps| && forall k :: i <= k < j ==> !Invalidates(steps[k])
    ensures states[j].gen.versions == states[i].gen.versions
    decreases j
  {
    if i < j {
      QuietKeeps(states, steps, i, j - 1);
      VersionStep(states[j - 1], steps[j - 1]);
    }
  }

  /** Any invalidation in between shows. */
  lemma NoisyShows(states: seq<State>, steps: seq<Step>, i: nat, k: nat, j: nat)
    requires Run(states, steps) && i <= k < j <= |steps| && Invalidates(steps[k])
    ensures states[j].gen.versions != states[i].gen.versions
  {
    var service := if steps[k].Mutate? then steps[k].service else "";
    CountsGrow(steps, i, k, service);
    CountsGrow(steps, k + 1, j, service);
    CountersCount(states, steps, i, service);
    CountersCount(states, steps, j, service);
  }

  /** A publication goes out exactly when no mutation and no observation came after the
      counters were captured; otherwise the generation stays as it was. */
  lemma PublishesIffQuiet(states: seq<State>, steps: seq<Step>, i: nat) returns (c: nat)
    requires Run(states, steps) && i < |steps| && steps[i] == Publish
    ensures c < i && steps[c] == Capture && forall k :: c < k < i ==> steps[k] != Capture
    ensures if forall k :: c <= k < i ==> !Invalidates(steps[k])
            then states[i + 1].gen == states[i].gen.(demanded := false, generation := states[i].gen.generation + 1,
                                                     table := Some(states[c].gen.versions))
            else states[i + 1].gen == states[i].gen
  {
    var v := states[i].phase.sync.captured;
    assert CapturedAt(states, i, v);
    c := CaptureHolds(states, steps, i, v);
    forall k | c < k < i
      ensures steps[k] != Capture
    {
      assert CapturedAt(states, k, v);
    }
    if forall k :: c <= k < i ==> !Invalidates(steps[k]) {
      QuietKeeps(states, steps, c, i);
    } else {
      var k :| c <= k < i && Invalidates(steps[k]);
      NoisyShows(states, steps, c, k, i);
    }
  }

  /** A published table carries the counters captured before its listing, none of which has
      moved since. */
  lemma PublishedIsCurrent(states: seq<State>, steps: seq<Step>, i: nat) returns (c: nat)
    requires Run(states, steps) && i < |steps| && states[i].gen.generation < states[i + 1].gen.generation
    ensures c < i && steps[c] == Capture && states[i + 1].gen.table == Some(states[c].gen.versions)
    ensures forall k :: c <= k < i ==> !Invalidates(steps[k])
    ensures forall k :: c <= k <= i + 1 ==> states[k].gen.versions == states[c].gen.versions
    ensures states[i + 1].gen.generation == states[i].gen.generation + 1 && !states[i + 1].gen.demanded
  {
    OnlyPublishes(states[i], steps[i]);
    c := PublishesIffQuiet(states, steps, i);
    forall k | c <= k <= i + 1
      ensures states[k].gen.versions == states[c].gen.versions
    {
      QuietKeeps(states, steps, c, k);
    }
  }

  lemma OnlyPublishes(s: State, step: Step)
    requires Enabled(s, step) && s.gen.generation < Apply(s, step).gen.generation
    ensures step == Publish
  {
  }

  // ---------- The provider's generation section on the heap ----------

  class Provider {
    var reconciling: bool
    var reconcileDemanded: bool
    var generation: nat
    var mutationVersions: map<string, nat>
    var observationVersion: nat
    var table: Option<Versions>

    ghost function View(): Generation
      reads this
    {
      Generation(reconciling, reconcileDemanded, generation, Versions(mutationVersions, observationVersion), table)
    }

    constructor ()
      ensures View() == START.gen
    {
      reconciling, reconcileDemanded, generation := false, false, 0;
      mutationVersions, observationVersion, table := map[], 0, None;
    }

    method BeginReconcile()
      modifies this`reconciling, this`reconcileDemanded
      ensures View() == Begun(old(View())) && reconciling && !reconcileDemanded
    {
      reconciling := true;
      reconcileDemanded := false;
    }

    method FinishReconcile() returns (demanded: bool)
      modifies this`reconciling, this`reconcileDemanded
      ensures View() == Finished(old(View())) && !reconciling && !reconcileDemanded && demanded == old(reconcileDemanded)
    {
      demanded := reconcileDemanded;
      reconciling := false;
      reconcileDemanded := false;
    }

    /** A table built against these counters goes out as long as none of them moves. */
    method CurrentVersions() returns (v: Versions)
      ensures v == View().versions && Publication(View(), v).table == Some(v)
    {
      v := Versions(mutationVersions, observationVersion);
    }

    method PublishGeneration(next: Versions) returns (ok: bool)
      modifies this`reconcileDemanded, this`generation, this`table
      ensures View() == Publication(old(View()), next) && ok == (old(View()).versions == next)
      ensures ok ==> table == Some(next) && !reconcileDemanded && generation == old(generation) + 1
      ensures !ok ==> unchanged(this)
    {
      if mutationVersions != next.mutations || observationVersion != next.observations {
        return false;
      }
      table := Some(next);
      reconcileDemanded := false;
      generation := generation + 1;
      return true;
    }

    /** The edge to wait for, and whether the caller still has to trigger the run. */
    method AskPublication() returns (edge: nat, owes: bool)
      modifies this`reconcileDemanded
      ensures View() == Demanded(old(View())) && edge == generation && owes == !reconciling
      ensures reconcileDemanded == (old(reconcileDemanded) || reconciling)
    {
      edge := generation;
      if reconciling {
        reconcileDemanded := true;
      }
      owes := !reconciling;
    }

    method MutateService(service: string)
      modifies this`mutationVersions
      ensures View() == old(View()).(versions := Mutated(old(View()).versions, service))
      ensures service in mutationVersions
      ensures mutationVersions[service] == (if service in old(mutationVersions) then old(mutationVersions)[service] else 0) + 1
      ensures mutationVersions - {service} == old(mutationVersions) - {service}
    {
      mutationVersions := mutationVersions[service := (if service in mutationVersions then mutationVersions[service] else 0) + 1];
    }

    method ObserveWorkload()
      modifies this`observationVersion
      ensures View() == old(View()).(versions := Observed(old(View()).versions))
      ensures observationVersion == old(observationVersion) + 1
    {
      observationVersion := observationVersion + 1;
    }
  }
}
