/** Safety of the retry transport over whole runs, in every interleaving. */
module RetryRuns {
  import opened Ledger
  import opened LeaseLedger
  import opened RetryTransport

  ghost predicate Run(states: seq<State>, actions: seq<Action>) {
    && |states| == |actions| + 1 && states[0] == START
    && forall i :: 0 <= i < |actions| ==>
         RetryTransport.Enabled(states[i], actions[i]) && states[i + 1] == RetryTransport.Apply(states[i], actions[i])
  }

  lemma {:induction false} RunInv(states: seq<State>, actions: seq<Action>, n: nat)
    requires Run(states, actions) && n <= |actions|
    ensures RetryTransport.Inv(states[n])
  {
    if n == 0 {
      assert Charges(map[], {}) == map[];
    } else {
      RunInv(states, actions, n - 1);
      ActionInv(states[n - 1], actions[n - 1]);
    }
  }

  // ---------- Bytes outlive their readers ----------

  /** While a body has not retired, none of its buffers is freed; and a body with a
      read in progress has not retired. */
  lemma ReadersKeepBytes(states: seq<State>, actions: seq<Action>, n: nat, x: nat, b: Buffer)
    requires Run(states, actions) && n <= |actions|
    requires x in states[n].bodies && states[n].bodies[x].published
    ensures 0 < states[n].bodies[x].active ==> states[n].bodies[x].reader
    ensures Reader(x) in states[n].books.holds
    ensures states[n].bodies[x].reader && b in states[n].books.holds[Reader(x)].chain ==>
              b in states[n].books.refs && b !in states[n].books.freed
  {
    RunInv(states, actions, n);
    var s := states[n];
    assert BodyOk(s.books.holds, x, s.bodies[x]);
    var h := s.books.holds[Reader(x)];
    assert Known(s.books.refs, h);
    if s.bodies[x].reader && b in h.chain {
      HeldCovers(h, b);
      CoveredNotFreed(s.books, Reader(x), b);
    }
  }

  /** A freed buffer is never retained, released or freed again. */
  lemma FreedForGood(s: State, a: Action, b: Buffer)
    requires RetryTransport.Inv(s) && RetryTransport.Enabled(s, a) && b in s.books.freed
    ensures b in RetryTransport.Apply(s, a).books.freed
    ensures RetryTransport.Apply(s, a).books.refs[b] == 0
  {
    if a.Lease? && a.step.Take? {
      TakeAlive(s.books, a.step.id);
    } else if a.Lease? && a.step.Give? {
      GiveAlive(s.books, a.step.id);
    }
  }

  /** Once everybody has given everything back, every buffer is freed and nothing is charged. */
  lemma AllReturned(states: seq<State>, actions: seq<Action>, n: nat)
    requires Run(states, actions) && n <= |actions|
    requires forall id :: id in states[n].books.holds ==>
               states[n].books.holds[id].phase == Giving && states[n].books.holds[id].from == |states[n].books.holds[id].chain|
    ensures states[n].books.freed == states[n].books.refs.Keys && states[n].books.used == 0
  {
    RunInv(states, actions, n);
    var s := states[n].books;
    forall b | b in s.refs
      ensures b in s.freed
    {
      forall id | id in s.holds
        ensures Coverage(s.holds, b)[id] == 0
      {
        assert Known(s.refs, s.holds[id]);
      }
      AllZero(Coverage(s.holds, b));
    }
    assert Charges(s.size, s.freed) == map[];
  }

  // ---------- Each body retires at most once ----------

  ghost predicate Progressed(b: Body, c: Body) {
    && c.trip == b.trip
    && (b.published ==> c.published)
    && (b.stage != Open ==> c.stage != Open && c.active <= b.active)
    && (b.stage == Closed ==> c.stage == Closed)
    && (!b.reader ==> !c.reader)
  }

  lemma ActionProgress(s: State, a: Action, x: nat)
    requires RetryTransport.Enabled(s, a) && x in s.bodies
    ensures x in RetryTransport.Apply(s, a).bodies
    ensures Progressed(s.bodies[x], RetryTransport.Apply(s, a).bodies[x])
  {
  }

  lemma {:induction false} RunProgress(states: seq<State>, actions: seq<Action>, i: nat, j: nat, x: nat)
    requires Run(states, actions) && i <= j <= |actions| && x in states[i].bodies
    ensures x in states[j].bodies && Progressed(states[i].bodies[x], states[j].bodies[x])
    decreases j
  {
    if i < j {
      RunProgress(states, actions, i, j - 1, x);
      ActionProgress(states[j - 1], actions[j - 1], x);
    }
  }

  /** No read begins once Close has started. */
  lemma NoReadAfterClose(states: seq<State>, actions: seq<Action>, i: nat, j: nat, x: nat)
    requires Run(states, actions) && i <= j <= |actions| && x in states[i].bodies && states[i].bodies[x].stage != Open
    ensures x in states[j].bodies && states[j].bodies[x].stage != Open
    ensures states[j].bodies[x].active <= states[i].bodies[x].active
  {
    RunProgress(states, actions, i, j, x);
  }

  ghost predicate RetiresAt(states: seq<State>, i: nat, x: nat)
    requires i + 1 < |states|
  {
    x in states[i].bodies && states[i].bodies[x].reader && x in states[i + 1].bodies && !states[i + 1].bodies[x].reader
  }

  /** How often body `x` took its lease back during the first `n` actions. */
  ghost function Retirements(states: seq<State>, n: nat, x: nat): nat
    requires n < |states|
  {
    if n == 0 then 0 else Retirements(states, n - 1, x) + if RetiresAt(states, n - 1, x) then 1 else 0
  }

  lemma RetiredIsClosed(states: seq<State>, actions: seq<Action>, n: nat, x: nat)
    requires Run(states, actions) && n <= |actions| && x in states[n].bodies && !states[n].bodies[x].reader
    ensures states[n].bodies[x].stage == Closed && states[n].bodies[x].active == 0
  {
    RunInv(states, actions, n);
    assert BodyOk(states[n].books.holds, x, states[n].bodies[x]);
  }

  /** A body retires at most once, and only after Close has finished with no read in progress. */
  lemma {:induction false} RetiresOnce(states: seq<State>, actions: seq<Action>, n: nat, x: nat)
    requires Run(states, actions) && n <= |actions|
    ensures Retirements(states, n, x) <= 1
    ensures Retirements(states, n, x) == 1 <==> x in states[n].bodies && !states[n].bodies[x].reader
    ensures Retirements(states, n, x) == 1 ==> states[n].bodies[x].stage == Closed && states[n].bodies[x].active == 0
  {
    if n > 0 {
      RetiresOnce(states, actions, n - 1, x);
      if x in states[n - 1].bodies {
        ActionProgress(states[n - 1], actions[n - 1], x);
      } else {
        BornReading(states[n - 1], actions[n - 1], x);
      }
    }
    if x in states[n].bodies && !states[n].bodies[x].reader {
      RetiredIsClosed(states, actions, n, x);
    }
  }

  lemma BornReading(s: State, a: Action, x: nat)
    requires RetryTransport.Enabled(s, a) && x !in s.bodies
    ensures x in RetryTransport.Apply(s, a).bodies ==> RetryTransport.Apply(s, a).bodies[x].reader
  {
  }

  // ---------- Reads and closes, counted from the actions ----------

  /** Action `i` is somebody's call to close body `x`: a caller's, or panic cleanup's. */
  ghost predicate ClosesAt(states: seq<State>, actions: seq<Action>, i: nat, x: nat)
    requires i < |actions| && i < |states|
  {
    || actions[i] == CloseBegin(x)
    || (actions[i].CleanupClose? && actions[i].trip in states[i].popped && states[i].popped[actions[i].trip] == x)
  }

  /** Calls to close body `x` among the first `n` actions. */
  ghost function Closings(states: seq<State>, actions: seq<Action>, n: nat, x: nat): nat
    requires n <= |actions| && n < |states|
  {
    if n == 0 then 0 else Closings(states, actions, n - 1, x) + if ClosesAt(states, actions, n - 1, x) then 1 else 0
  }

  /** Reads of `x` that went ahead: those begun before anybody called to close it. */
  ghost function Begun(states: seq<State>, actions: seq<Action>, n: nat, x: nat): nat
    requires n <= |actions| && n < |states|
  {
    if n == 0 then 0
    else Begun(states, actions, n - 1, x) +
         if actions[n - 1] == ReadBegin(x) && Closings(states, actions, n - 1, x) == 0 then 1 else 0
  }

  ghost function Ended(actions: seq<Action>, n: nat, x: nat): nat
    requires n <= |actions|
  {
    if n == 0 then 0 else Ended(actions, n - 1, x) + if actions[n - 1] == ReadEnd(x) then 1 else 0
  }

  ghost function Finished(actions: seq<Action>, n: nat, x: nat): nat
    requires n <= |actions|
  {
    if n == 0 then 0 else Finished(actions, n - 1, x) + if actions[n - 1] == CloseEnd(x) then 1 else 0
  }

  /** A body as its own actions so far make it. */
  ghost predicate Tallied(b: Body, begun: nat, ended: nat, closings: nat, finished: nat) {
    && b.active == begun - ended && (b.stage == Open <==> closings == 0)
    && (b.stage == Closed <==> 0 < finished) && (b.reader <==> finished == 0 || begun != ended)
  }

  lemma StepTallied(s: State, a: Action, x: nat, closes: bool, begun: nat, ended: nat, closings: nat, finished: nat)
    requires RetryTransport.Enabled(s, a) && x in s.bodies && Tallied(s.bodies[x], begun, ended, closings, finished)
    requires closes <==> a == CloseBegin(x) || (a.CleanupClose? && a.trip in s.popped && s.popped[a.trip] == x)
    ensures x in RetryTransport.Apply(s, a).bodies
    ensures Tallied(RetryTransport.Apply(s, a).bodies[x],
                    begun + (if a == ReadBegin(x) && closings == 0 then 1 else 0), ended + (if a == ReadEnd(x) then 1 else 0),
                    closings + (if closes then 1 else 0), finished + (if a == CloseEnd(x) then 1 else 0))
  {
  }

  lemma BornTallied(s: State, a: Action, x: nat)
    requires RetryTransport.Inv(s) && RetryTransport.Enabled(s, a) && x !in s.bodies
    ensures a != ReadBegin(x) && a != ReadEnd(x) && a != CloseBegin(x) && a != CloseEnd(x)
    ensures !(a.CleanupClose? && a.trip in s.popped && s.popped[a.trip] == x)
    ensures x in RetryTransport.Apply(s, a).bodies ==> Tallied(RetryTransport.Apply(s, a).bodies[x], 0, 0, 0, 0)
  {
  }

  /** In every reachable state: the reads in progress are those begun and not ended, a body
      is open until somebody calls to close it, and it gives up its buffers exactly when
      Close has finished and every read that began has ended. */
  lemma {:induction false} ReadsCounted(states: seq<State>, actions: seq<Action>, n: nat, x: nat)
    requires Run(states, actions) && n <= |actions|
    ensures if x in states[n].bodies then
              Tallied(states[n].bodies[x], Begun(states, actions, n, x), Ended(actions, n, x),
                      Closings(states, actions, n, x), Finished(actions, n, x))
            else Begun(states, actions, n, x) == Ended(actions, n, x) == Closings(states, actions, n, x) == Finished(actions, n, x) == 0
  {
    if n > 0 {
      ReadsCounted(states, actions, n - 1, x);
      if x in states[n - 1].bodies {
        StepTallied(states[n - 1], actions[n - 1], x, ClosesAt(states, actions, n - 1, x), Begun(states, actions, n - 1, x),
                    Ended(actions, n - 1, x), Closings(states, actions, n - 1, x), Finished(actions, n - 1, x));
      } else {
        RunInv(states, actions, n - 1);
        BornTallied(states[n - 1], actions[n - 1], x);
      }
    }
  }

  /** When a body retires, every read that began has ended and Close has finished. */
  lemma RetiresAfterReads(states: seq<State>, actions: seq<Action>, i: nat, x: nat)
    requires Run(states, actions) && i < |actions| && RetiresAt(states, i, x)
    ensures Begun(states, actions, i + 1, x) == Ended(actions, i + 1, x) && 0 < Finished(actions, i + 1, x)
  {
    ReadsCounted(states, actions, i + 1, x);
  }

  /** While a read has begun and not ended, no buffer of its body is freed. */
  lemma ReadKeepsBytes(states: seq<State>, actions: seq<Action>, n: nat, x: nat, b: Buffer)
    requires Run(states, actions) && n <= |actions| && Ended(actions, n, x) < Begun(states, actions, n, x)
    ensures x in states[n].bodies && Reader(x) in states[n].books.holds
    ensures b in states[n].books.holds[Reader(x)].chain ==> b in states[n].books.refs && b !in states[n].books.freed
  {
    ReadsCounted(states, actions, n, x);
    RunInv(states, actions, n);
    assert BodyOk(states[n].books.holds, x, states[n].bodies[x]);
    ReadersKeepBytes(states, actions, n, x, b);
  }

  // ---------- Each retain is given back at most once ----------

  ghost function Gives(actions: seq<Action>, n: nat, id: HoldId): nat
    requires n <= |actions|
  {
    if n == 0 then 0 else Gives(actions, n - 1, id) + if actions[n - 1] == Lease(Give(id)) then 1 else 0
  }

  ghost function GivenSoFar(s: State, id: HoldId): nat {
    if id in s.books.holds then s.books.holds[id].from else 0
  }

  lemma LeaseGives(s: Books, step: Step, id: HoldId)
    requires LeaseLedger.Inv(s) && LeaseLedger.Enabled(s, step) && id in s.holds
    ensures id in LeaseLedger.Apply(s, step).holds
    ensures LeaseLedger.Apply(s, step).holds[id].from == s.holds[id].from + if step == Give(id) then 1 else 0
  {
    assert Known(s.refs, s.holds[id]);
  }

  lemma LeaseGivesAny(s: Books, step: Step, id: HoldId)
    requires LeaseLedger.Inv(s) && LeaseLedger.Enabled(s, step) && id !in s.holds
    ensures var t := LeaseLedger.Apply(s, step); step != Give(id) && (id in t.holds ==> t.holds[id].from == 0)
  {
    StepHold(s, step);
  }

  lemma ActionGives(s: State, a: Action, id: HoldId)
    requires RetryTransport.Inv(s) && RetryTransport.Enabled(s, a)
    ensures GivenSoFar(RetryTransport.Apply(s, a), id) == GivenSoFar(s, id) + if a == Lease(Give(id)) then 1 else 0
  {
    if a.Lease? {
      if id in s.books.holds {
        LeaseGives(s.books, a.step, id);
      } else {
        LeaseGivesAny(s.books, a.step, id);
      }
    } else if a.ReadEnd? || a.CloseEnd? {
      assert BodyOk(s.books.holds, a.body, s.bodies[a.body]);
    }
  }

  lemma {:induction false} GivesCounted(states: seq<State>, actions: seq<Action>, n: nat, id: HoldId)
    requires Run(states, actions) && n <= |actions|
    ensures Gives(actions, n, id) == GivenSoFar(states[n], id)
  {
    if n > 0 {
      GivesCounted(states, actions, n - 1, id);
      RunInv(states, actions, n - 1);
      ActionGives(states[n - 1], actions[n - 1], id);
    }
  }

  lemma GivenBounded(s: State, id: HoldId)
    requires RetryTransport.Inv(s)
    ensures id in s.books.holds ==> GivenSoFar(s, id) <= |s.books.holds[id].chain|
    ensures id.Reader? && 0 < GivenSoFar(s, id) ==> id.body in s.bodies && !s.bodies[id.body].reader
  {
    if id in s.books.holds {
      assert Known(s.books.refs, s.books.holds[id]);
      if id.Reader? {
        assert BodyOk(s.books.holds, id.body, s.bodies[id.body]);
      }
    }
  }

  /** A hold gives back one buffer at a time, in chain order, and never more than it
      took; a body's hold gives back nothing before the body has retired. */
  lemma GivenInOrder(states: seq<State>, actions: seq<Action>, n: nat, id: HoldId)
    requires Run(states, actions) && n <= |actions|
    ensures Gives(actions, n, id) == GivenSoFar(states[n], id)
    ensures id in states[n].books.holds ==> Gives(actions, n, id) <= |states[n].books.holds[id].chain|
    ensures id.Reader? && 0 < Gives(actions, n, id) ==> id.body in states[n].bodies && !states[n].bodies[id.body].reader
  {
    RunInv(states, actions, n);
    GivesCounted(states, actions, n, id);
    GivenBounded(states[n], id);
  }

  // ---------- Panic cleanup ----------

  /** When cleanup finds a registry empty, every body handed out has begun to close. */
  lemma CleanupClosesAll(states: seq<State>, actions: seq<Action>, n: nat, t: nat, x: nat)
    requires Run(states, actions) && n <= |actions|
    requires ListOf(states[n].lists, t) == [] && t !in states[n].popped
    requires x in states[n].bodies && states[n].bodies[x].trip == t && states[n].bodies[x].published
    ensures states[n].bodies[x].stage != Open
  {
    RunInv(states, actions, n);
    assert Loose(states[n].bodies[x]) || states[n].bodies[x].linked || states[n].bodies[x].stage != Open;
  }
}
