/** Every interleaving of requests through one Timeout handler: admission by
    compare-and-swap, writes from producers (and from whatever they leave running),
    deadlines, and both parties finishing in either order. */
module TimeoutRuns {
  import opened Basics
  import opened Ledger
  import opened ResponseBuffers
  import opened Timeouts

  datatype Entry = Idle | Loaded(seen: int) | Refused | Admitted

  /** `Finished` has closed its writer but not yet given up its in-flight slot. */
  datatype Producer = Waiting | Running | Finished | Gone

  datatype Request = Request(entry: Entry, producer: Producer, writer: Writer, outcome: Option<Outcome>)

  datatype Params = Params(maxInFlight: nat, limit: nat, maximum: nat)

  datatype State = State(active: int, used: int, reqs: map<nat, Request>)

  const START := State(0, 0, map[])

  datatype Step =
    | Arrive(r: nat)
    | Load(r: nat)
    | Swap(r: nat)
    | Write(r: nat, data: seq<Byte>)
    | Expire(r: nat, cause: Cause)
    | FinishProducer(r: nat, value: Panic)
    | LeaveProducer(r: nat)
    | Judge(r: nat)
    | FinishCaller(r: nat)

  ghost function NewRequest(p: Params): Request { Request(Idle, Waiting, NewWriter(p.maximum), None) }

  ghost function At(p: Params, s: State, r: nat): Request { if r in s.reqs then s.reqs[r] else NewRequest(p) }

  /** When request `q` may take a step. A write may come at any time after admission. */
  ghost predicate Ready(q: Request, step: Step) {
    match step
    case Arrive(_) => true
    case Load(_) => q.entry == Idle
    case Swap(_) => q.entry.Loaded?
    case FinishProducer(_, _) => q.producer == Running
    case LeaveProducer(_) => q.producer == Finished
    case Judge(_) => q.entry == Admitted && q.outcome.None? && (q.writer.producerDone || q.writer.ctx.Some?)
    case FinishCaller(_) => q.outcome.Some? && !q.writer.callerDone
    case _ => q.entry == Admitted
  }

  ghost predicate Enabled(p: Params, s: State, step: Step) {
    (step.Arrive? <==> step.r !in s.reqs) && Ready(At(p, s, step.r), step)
  }

  /** The request's own part of the step. */
  ghost function Moved(p: Params, active: int, used: int, q: Request, step: Step): Request
    requires Ready(q, step)
  {
    match step
    case Arrive(_) => q
    case Load(_) => q.(entry := if active >= p.maxInFlight then Refused else Loaded(active))
    case Swap(_) => if active == q.entry.seen then q.(entry := Admitted, producer := Running) else q.(entry := Idle)
    case Write(_, data) => q.(writer := Written(q.writer, data, used, p.limit))
    case Expire(_, cause) => q.(writer := Expired(q.writer, cause))
    case FinishProducer(_, value) => q.(writer := ProducerFinished(q.writer, value), producer := Finished)
    case LeaveProducer(_) => q.(producer := Gone)
    case Judge(_) => q.(writer := Judged(q.writer), outcome := Some(Verdict(q.writer)))
    case FinishCaller(_) => q.(writer := CallerFinished(q.writer))
  }

  ghost function Slots(q: Request): int { if q.producer == Running || q.producer == Finished then 1 else 0 }

  /** The counter: up by a swap that succeeds, down when a producer leaves. */
  ghost function Counter(active: int, q: Request, step: Step): int {
    if step.Swap? && q.entry.Loaded? && active == q.entry.seen then active + 1
    else if step.LeaveProducer? then active - 1
    else active
  }

  ghost function Apply(p: Params, s: State, step: Step): State
    requires Enabled(p, s, step)
  {
    var q := At(p, s, step.r);
    var t := Moved(p, s.active, s.used, q, step);
    State(Counter(s.active, q, step), s.used + t.writer.capacity - q.writer.capacity, s.reqs[step.r := t])
  }

  ghost function Active(reqs: map<nat, Request>): map<nat, int> { map r | r in reqs :: Slots(reqs[r]) }

  ghost function Cost(q: Request): int { q.writer.capacity }

  ghost function Charged(reqs: map<nat, Request>): map<nat, int> { map r | r in reqs :: Cost(reqs[r]) }

  ghost predicate RequestOk(p: Params, q: Request) {
    && WriterOk(q.writer) && q.writer.maximum == p.maximum
    && (q.entry != Admitted ==> q.producer == Waiting && q.writer == NewWriter(p.maximum) && q.outcome.None?)
    && (q.entry == Admitted ==> q.producer != Waiting)
    && (q.entry.Loaded? ==> q.entry.seen < p.maxInFlight)
    && (q.writer.producerDone <==> q.producer == Finished || q.producer == Gone)
    && (q.writer.callerDone ==> q.outcome.Some?)
    && (q.outcome == Some(Replay) ==> q.writer.producerDone && q.writer.panic == NoPanic && !q.writer.over)
  }

  /** Every counter is what it counts, and within its bound. */
  ghost predicate Inv(p: Params, s: State) { RequestsOk(p, s.reqs) && Counted(p, s) }

  ghost predicate RequestsOk(p: Params, reqs: map<nat, Request>) {
    forall r :: r in reqs ==> RequestOk(p, reqs[r])
  }

  ghost predicate Counted(p: Params, s: State) {
    && s.active == Total(Active(s.reqs)) && s.active <= p.maxInFlight
    && s.used == Total(Charged(s.reqs)) && s.used <= p.limit
  }

  // ---------- Every step keeps it ----------

  lemma WrittenOk(w: Writer, data: seq<Byte>, used: int, limit: int)
    requires WriterOk(w) && used <= limit
    ensures WriterOk(Written(w, data, used, limit))
    ensures used + Written(w, data, used, limit).capacity - w.capacity <= limit
    ensures Written(w, data, used, limit).capacity != w.capacity ==> MayWrite(w)
    ensures !MayWrite(w) ==> Written(w, data, used, limit) == w
  {
  }

  lemma MovedOk(p: Params, active: int, used: int, q: Request, step: Step)
    requires RequestOk(p, q) && Ready(q, step) && used <= p.limit && active <= p.maxInFlight
    ensures RequestOk(p, Moved(p, active, used, q, step))
    ensures used + Moved(p, active, used, q, step).writer.capacity - q.writer.capacity <= p.limit
  {
    if step.Write? {
      WrittenOk(q.writer, step.data, used, p.limit);
    }
  }

  lemma CounterOk(p: Params, active: int, used: int, q: Request, step: Step)
    requires RequestOk(p, q) && Ready(q, step) && active <= p.maxInFlight
    ensures Counter(active, q, step) == active - Slots(q) + Slots(Moved(p, active, used, q, step))
    ensures Counter(active, q, step) <= p.maxInFlight
  {
  }

  lemma ActiveMove(reqs: map<nat, Request>, r: nat, q: Request)
    ensures Total(Active(reqs[r := q])) == Total(Active(reqs)) - (if r in reqs then Slots(reqs[r]) else 0) + Slots(q)
  {
    TotalUpdate(Active(reqs), r, Slots(q));
    assert Active(reqs[r := q]) == Active(reqs)[r := Slots(q)];
  }

  lemma ChargedMove(reqs: map<nat, Request>, r: nat, q: Request)
    ensures Total(Charged(reqs[r := q])) ==
            Total(Charged(reqs)) - (if r in reqs then Cost(reqs[r]) else 0) + Cost(q)
  {
    TotalUpdate(Charged(reqs), r, Cost(q));
    assert Charged(reqs[r := q]) == Charged(reqs)[r := Cost(q)];
  }

  lemma StepCounted(p: Params, s: State, step: Step)
    requires Counted(p, s) && Enabled(p, s, step) && RequestOk(p, At(p, s, step.r))
    ensures Counted(p, Apply(p, s, step))
  {
    var q := At(p, s, step.r);
    MovedOk(p, s.active, s.used, q, step);
    CounterOk(p, s.active, s.used, q, step);
    var t := Moved(p, s.active, s.used, q, step);
    ActiveMove(s.reqs, step.r, t);
    ChargedMove(s.reqs, step.r, t);
  }

  lemma StepInv(p: Params, s: State, step: Step)
    requires Inv(p, s) && Enabled(p, s, step)
    ensures Inv(p, Apply(p, s, step))
  {
    MovedOk(p, s.active, s.used, At(p, s, step.r), step);
    StepCounted(p, s, step);
  }

  // ---------- Whole runs ----------

  ghost predicate Run(p: Params, states: seq<State>, steps: seq<Step>) {
    && |states| == |steps| + 1 && states[0] == START
    && forall i :: 0 <= i < |steps| ==>
         Enabled(p, states[i], steps[i]) && states[i + 1] == Apply(p, states[i], steps[i])
  }

  lemma {:induction false} RunInv(p: Params, states: seq<State>, steps: seq<Step>, n: nat)
    requires Run(p, states, steps) && n <= |steps|
    ensures Inv(p, states[n])
  {
    if n > 0 {
      RunInv(p, states, steps, n - 1);
      StepInv(p, states[n - 1], steps[n - 1]);
    }
  }

  /** In every reachable state the buffer has been released exactly once if both
      parties have finished and not at all before, its failure channel has been closed
      at most once, and a replay is only ever decided for a producer that completed,
      without panic and within the limit. */
  lemma ReachableWriter(p: Params, states: seq<State>, steps: seq<Step>, n: nat, r: nat)
    requires Run(p, states, steps) && n <= |steps| && r in states[n].reqs
    ensures var q := states[n].reqs[r]; var w := q.writer;
            && w.released == (if w.producerDone && w.callerDone then 1 else 0)
            && w.failed <= 1
            && (q.outcome == Some(Replay) ==> w.producerDone && w.panic == NoPanic && !w.over)
  {
    RunInv(p, states, steps, n);
    assert RequestOk(p, states[n].reqs[r]);
  }

  /** The in-flight counter is the number of producers running, and bounded. */
  lemma ActiveIsRunning(p: Params, states: seq<State>, steps: seq<Step>, n: nat)
    requires Run(p, states, steps) && n <= |steps|
    ensures states[n].active == Total(Active(states[n].reqs)) && states[n].active <= p.maxInFlight
    ensures states[n].used == Total(Charged(states[n].reqs)) && states[n].used <= p.limit
  {
    RunInv(p, states, steps, n);
  }

  /** A step only charges the budget for a writer neither of whose parties has
      finished and whose request has not been cancelled. */
  lemma NoLateCharge(p: Params, states: seq<State>, steps: seq<Step>, i: nat)
    requires Run(p, states, steps) && i < |steps| && states[i].used < states[i + 1].used
    ensures steps[i].Write? && steps[i].r in states[i].reqs && MayWrite(states[i].reqs[steps[i].r].writer)
  {
    RunInv(p, states, steps, i);
    var q := At(p, states[i], steps[i].r);
    if steps[i].Write? {
      WrittenOk(q.writer, steps[i].data, states[i].used, p.limit);
    }
  }

  /** A replay is decided before any cancellation, and what is replayed does not
      change until the caller has finished with it. */
  lemma ReplayStable(p: Params, states: seq<State>, steps: seq<Step>, i: nat, r: nat)
    requires Run(p, states, steps) && i < |steps| && r in states[i].reqs
    ensures r in states[i + 1].reqs
    ensures var q, t := states[i].reqs[r], states[i + 1].reqs[r];
            && (q.outcome.None? && t.outcome == Some(Replay) ==> q.writer.ctx.None?)
            && (q.outcome == Some(Replay) ==> t.outcome == Some(Replay))
            && (q.outcome == Some(Replay) && !t.writer.callerDone ==> t.writer.body == q.writer.body)
  {
    RunInv(p, states, steps, i);
    var q := states[i].reqs[r];
    assert RequestOk(p, q);
    if steps[i].Write? {
      WrittenOk(At(p, states[i], steps[i].r).writer, steps[i].data, states[i].used, p.limit);
    }
  }

  /** Once every producer has gone and every caller has finished, nothing is held. */
  lemma AllFinished(p: Params, states: seq<State>, steps: seq<Step>, n: nat)
    requires Run(p, states, steps) && n <= |steps|
    requires forall r :: r in states[n].reqs && states[n].reqs[r].entry == Admitted ==>
               states[n].reqs[r].producer == Gone && states[n].reqs[r].writer.callerDone
    ensures states[n].active == 0 && states[n].used == 0
  {
    RunInv(p, states, steps, n);
    var reqs := states[n].reqs;
    forall r | r in reqs
      ensures Active(reqs)[r] == 0 && Charged(reqs)[r] == 0
    {
      assert RequestOk(p, reqs[r]);
    }
    AllZero(Active(reqs));
    AllZero(Charged(reqs));
  }
}
