/** What a request through the Timeout handler comes to, told from the steps taken for it:
    which writes fitted, whether a deadline or cancellation came first, and how the producer
    ended. */
module TimeoutOutcomes {
  import opened Basics
  import opened ResponseBuffers
  import opened Timeouts
  import opened TimeoutRuns

  /** Everything that was written, the status of the first write that did not fit, what
      stopped the request first, and how its producer finished. */
  datatype Story = Story(body: seq<Byte>, refused: Option<int>, stopped: Option<Cause>, finished: Option<Panic>)

  /** The budget has room for `size` bytes of request `r`. */
  ghost predicate Room(p: Params, s: State, r: nat, size: nat)
    requires size <= p.maximum
  {
    var capacity := At(p, s, r).writer.capacity;
    size <= capacity || s.used + NextCapacity(capacity, size, p.maximum) <= p.limit
  }

  ghost function AfterWrite(p: Params, s: State, r: nat, t: Story, data: seq<Byte>): Story {
    if t.refused.Some? || t.stopped.Some? || t.finished.Some? then t
    else if |t.body| + |data| > p.maximum then t.(refused := Some(502), stopped := Some(Cancelled))
    else if !Room(p, s, r, |t.body| + |data|) then t.(refused := Some(503), stopped := Some(Cancelled))
    else t.(body := t.body + data)
  }

  /** The story of request `r` after the first `n` steps. */
  ghost function Told(p: Params, states: seq<State>, steps: seq<Step>, n: nat, r: nat): Story
    requires n <= |steps| && n < |states|
  {
    if n == 0 then Story([], None, None, None)
    else
      var t := Told(p, states, steps, n - 1, r);
      if steps[n - 1].r != r then t
      else
        match steps[n - 1]
        case Write(_, data) => AfterWrite(p, states[n - 1], r, t, data)
        case Expire(_, cause) => if t.stopped.None? then t.(stopped := Some(cause)) else t
        case FinishProducer(_, value) => t.(finished := Some(value))
        case _ => t
  }

  /** What the caller should do: pass on a panic that the limit did not provoke, report the
      limit, hand on what was written by a producer that finished in time, or give up. */
  ghost function Due(t: Story): Outcome {
    if t.finished.Some? && t.finished.value != NoPanic && !(t.finished.value == Abort && t.refused.Some?) then Panicked
    else if t.refused.Some? then Limit(t.refused.value)
    else if t.finished.Some? && t.stopped.None? then Replay
    else Unavailable(t.stopped == Some(Deadline))
  }

  /** The writer is as the story says, as long as nobody has judged. */
  ghost predicate Follows(w: Writer, t: Story) {
    && w.body == t.body && w.ctx == t.stopped && w.over == t.refused.Some? && (w.over ==> w.status == t.refused.value)
    && w.producerDone == t.finished.Some? && !w.callerDone && w.err == (if w.over then Some(OverLimit) else None)
    && w.panic == (if t.finished.None? || (t.finished.value == Abort && w.over) then NoPanic else t.finished.value)
  }

  lemma WriteFollows(p: Params, s: State, r: nat, t: Story, data: seq<Byte>)
    requires Follows(At(p, s, r).writer, t) && WriterOk(At(p, s, r).writer) && At(p, s, r).writer.maximum == p.maximum
    ensures Follows(Written(At(p, s, r).writer, data, s.used, p.limit), AfterWrite(p, s, r, t, data))
  {
  }

  lemma {:induction false} ToldFollows(p: Params, states: seq<State>, steps: seq<Step>, n: nat, r: nat)
    requires Run(p, states, steps) && n <= |steps| && At(p, states[n], r).outcome.None?
    ensures Follows(At(p, states[n], r).writer, Told(p, states, steps, n, r))
  {
    if n > 0 {
      ToldFollows(p, states, steps, n - 1, r);
      RunInv(p, states, steps, n - 1);
      var s, t := states[n - 1], Told(p, states, steps, n - 1, r);
      assert RequestOk(p, At(p, s, r));
      if steps[n - 1].r == r && steps[n - 1].Write? {
        WriteFollows(p, s, r, t, steps[n - 1].data);
      }
    }
  }

  /** Whoever is judged gets what their story is due, and the writer still holds exactly what
      was written. */
  lemma JudgedAsTold(p: Params, states: seq<State>, steps: seq<Step>, i: nat)
    requires Run(p, states, steps) && i < |steps| && steps[i].Judge?
    ensures steps[i].r in states[i + 1].reqs
    ensures var q, t := states[i + 1].reqs[steps[i].r], Told(p, states, steps, i, steps[i].r);
            q.outcome == Some(Due(t)) && q.writer.body == t.body
  {
    ToldFollows(p, states, steps, i, steps[i].r);
  }

  // ---------- The plain case ----------

  /** The producer of `r` has finished within the first `n` steps. */
  ghost predicate Completed(steps: seq<Step>, n: nat, r: nat)
    requires n <= |steps|
  {
    exists k :: 0 <= k < n && steps[k] == FinishProducer(r, NoPanic)
  }

  /** What was written for `r` before its producer finished, in order. */
  ghost function Sent(steps: seq<Step>, n: nat, r: nat): seq<Byte>
    requires n <= |steps|
  {
    if n == 0 then []
    else if steps[n - 1].Write? && steps[n - 1].r == r && !Completed(steps, n - 1, r) then Sent(steps, n - 1, r) + steps[n - 1].data
    else Sent(steps, n - 1, r)
  }

  /** No deadline, no cancellation, no panic, and every write fits. */
  ghost predicate Smooth(p: Params, states: seq<State>, steps: seq<Step>, n: nat, r: nat)
    requires n <= |steps| && n < |states|
  {
    && (forall k :: 0 <= k < n && steps[k].r == r ==> !steps[k].Expire?)
    && (forall k :: 0 <= k < n && steps[k].r == r && steps[k].FinishProducer? ==> steps[k].value == NoPanic)
    && (forall k :: 0 <= k < n && steps[k].r == r && steps[k].Write? && !Completed(steps, k, r) ==>
          var size := |Sent(steps, k, r)| + |steps[k].data|;
          size <= p.maximum && Room(p, states[k], r, size))
  }

  lemma CompletedNext(steps: seq<Step>, n: nat, r: nat)
    requires 0 < n <= |steps|
    ensures Completed(steps, n, r) <==> Completed(steps, n - 1, r) || steps[n - 1] == FinishProducer(r, NoPanic)
  {
    if Completed(steps, n, r) {
      var k :| 0 <= k < n && steps[k] == FinishProducer(r, NoPanic);
      assert k < n - 1 ==> Completed(steps, n - 1, r);
    }
  }

  lemma {:induction false} SmoothTold(p: Params, states: seq<State>, steps: seq<Step>, n: nat, r: nat)
    requires n <= |steps| && n < |states| && Smooth(p, states, steps, n, r)
    ensures Told(p, states, steps, n, r) ==
            Story(Sent(steps, n, r), None, None, if Completed(steps, n, r) then Some(NoPanic) else None)
  {
    if n > 0 {
      SmoothTold(p, states, steps, n - 1, r);
      CompletedNext(steps, n, r);
    }
  }

  /** A response that was written within its bounds and finished, with no deadline or
      cancellation before it is judged, is replayed: all of it, in order. */
  lemma FinishedIsReplayed(p: Params, states: seq<State>, steps: seq<Step>, i: nat)
    requires Run(p, states, steps) && i < |steps| && steps[i].Judge?
    requires Smooth(p, states, steps, i, steps[i].r) && Completed(steps, i, steps[i].r)
    ensures steps[i].r in states[i + 1].reqs
    ensures var q := states[i + 1].reqs[steps[i].r];
            q.outcome == Some(Replay) && q.writer.body == Sent(steps, i, steps[i].r)
  {
    JudgedAsTold(p, states, steps, i);
    SmoothTold(p, states, steps, i, steps[i].r);
  }

  // ---------- Admission ----------

  /** Producers started minus producers that gave up their slot, in the first `n` steps. */
  ghost function InFlight(p: Params, states: seq<State>, steps: seq<Step>, n: nat): int
    requires n <= |steps| && n < |states|
  {
    if n == 0 then 0
    else InFlight(p, states, steps, n - 1) +
         (if steps[n - 1].Swap? && At(p, states[n], steps[n - 1].r).entry == Admitted then 1
          else if steps[n - 1].LeaveProducer? then -1 else 0)
  }

  /** The counter is the number of producers started and not yet gone. */
  lemma {:induction false} ActiveCounts(p: Params, states: seq<State>, steps: seq<Step>, n: nat)
    requires Run(p, states, steps) && n <= |steps|
    ensures states[n].active == InFlight(p, states, steps, n)
  {
    if n > 0 {
      ActiveCounts(p, states, steps, n - 1);
    }
  }

  /** A request is refused only at a moment when as many producers as allowed are in flight. */
  lemma RefusedMeansFull(p: Params, states: seq<State>, steps: seq<Step>, i: nat)
    requires Run(p, states, steps) && i < |steps| && steps[i].Load?
    ensures steps[i].r in states[i + 1].reqs
    ensures states[i + 1].reqs[steps[i].r].entry == Refused <==> InFlight(p, states, steps, i) == p.maxInFlight
  {
    ActiveCounts(p, states, steps, i);
    RunInv(p, states, steps, i);
  }
}
