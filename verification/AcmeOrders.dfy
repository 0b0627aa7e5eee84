/** Single-flight ACME orders with a failure cooldown: handshakes, renewals and
    shutdowns in any order. Each critical section, each channel operation and each
    order's completion is one step. Times are nanoseconds. */
module AcmeOrders {
  import opened Basics

  const COOLDOWN: nat := 60_000_000_000

  /** How far an entry's owner has come. */
  datatype Phase =
    | Ordering        // the order is in flight
    | Dropped         // the order died of a shutdown; the entry is still listed
    | Forgotten       // the same, after it left the table
    | Failed          // the order failed and is stamped
    | Won             // the order succeeded
    | Cached          // the same, with the certificate cached
    | Ready           // the result is handed out

  datatype Entry = Entry(host: string, phase: Phase, cert: Option<nat>, failedAt: int)

  /** A caller owns the entry it created, or waits on the one it found. */
  datatype Caller = Owner(entry: nat) | Waiter(entry: nat) | Gone | Answered(entry: nat, cert: Option<nat>)

  /** `lastFailure` remembers, per host, when an order last failed on its own account. */
  datatype State = State(now: int, table: map<string, nat>, entries: map<nat, Entry>, callers: map<nat, Caller>,
                         cache: map<string, nat>, lastFailure: map<string, int>)

  datatype Step =
    | Clock(now: int)
    | Call(caller: nat, host: string, entry: nat)
    | Succeed(entry: nat, cert: nat)
    | Fail(entry: nat)
    | Die(entry: nat)
    | Store(entry: nat)
    | Forget(entry: nat)
    | Close(entry: nat)
    | Wake(caller: nat)
    | GiveUp(caller: nat)

  /** An entry that may be replaced: settled, and a success or past its cooldown. */
  predicate Stale(e: Entry, now: int) { e.phase == Ready && (e.cert.Some? || now > e.failedAt + COOLDOWN) }

  /** Whether a call joins the listed entry rather than starting an order. */
  ghost predicate Joins(s: State, host: string) {
    host in s.table && s.table[host] in s.entries && !Stale(s.entries[s.table[host]], s.now)
  }

  ghost predicate Enabled(s: State, step: Step) {
    match step
    case Clock(now) => s.now <= now
    case Call(c, _, e) => c !in s.callers && e !in s.entries
    case Succeed(e, _) => e in s.entries && s.entries[e].phase == Ordering
    case Fail(e) => e in s.entries && s.entries[e].phase == Ordering
    case Die(e) => e in s.entries && s.entries[e].phase == Ordering
    case Store(e) => e in s.entries && s.entries[e].phase == Won && s.entries[e].cert.Some?
    case Forget(e) => e in s.entries && (s.entries[e].phase == Dropped || (s.entries[e].phase == Ready && s.entries[e].cert.Some?))
    case Close(e) => e in s.entries && s.entries[e].phase in {Forgotten, Failed, Cached}
    case Wake(c) => c in s.callers && s.callers[c].Waiter? && s.callers[c].entry in s.entries && s.entries[s.callers[c].entry].phase == Ready
    case GiveUp(c) => c in s.callers && s.callers[c].Waiter?
  }

  ghost function Move(s: State, e: nat, phase: Phase): State
    requires e in s.entries
  {
    s.(entries := s.entries[e := s.entries[e].(phase := phase)])
  }

  ghost function Unlisted(s: State, e: nat): map<string, nat>
    requires e in s.entries
  {
    var host := s.entries[e].host;
    if host in s.table && s.table[host] == e then s.table - {host} else s.table
  }

  ghost function Apply(s: State, step: Step): State
    requires Enabled(s, step)
  {
    match step
    case Clock(now) => s.(now := now)
    case Call(c, host, e) =>
      if Joins(s, host) then s.(callers := s.callers[c := Waiter(s.table[host])])
      else s.(callers := s.callers[c := Owner(e)], table := s.table[host := e],
              entries := s.entries[e := Entry(host, Ordering, None, 0)])
    case Succeed(e, cert) => s.(entries := s.entries[e := s.entries[e].(phase := Won, cert := Some(cert))])
    case Fail(e) =>
      s.(entries := s.entries[e := s.entries[e].(phase := Failed, cert := None, failedAt := s.now)],
         lastFailure := s.lastFailure[s.entries[e].host := s.now])
    case Die(e) => s.(entries := s.entries[e := s.entries[e].(phase := Dropped, cert := None)])
    case Store(e) => Move(s, e, Cached).(cache := s.cache[s.entries[e].host := s.entries[e].cert.value])
    case Forget(e) => Move(s, e, if s.entries[e].phase == Dropped then Forgotten else Ready).(table := Unlisted(s, e))
    case Close(e) => Move(s, e, Ready)
    case Wake(c) => s.(callers := s.callers[c := Answered(s.callers[c].entry, s.entries[s.callers[c].entry].cert)])
    case GiveUp(c) => s.(callers := s.callers[c := Gone])
  }

  ghost predicate Run(states: seq<State>, steps: seq<Step>) {
    && |states| == |steps| + 1
    && states[0] == State(states[0].now, map[], map[], map[], map[], map[])
    && forall i :: 0 <= i < |steps| ==> Enabled(states[i], steps[i]) && states[i + 1] == Apply(states[i], steps[i])
  }

  // ---------- Invariant ----------

  /** An entry whose order is not settled is the one in the table. */
  ghost predicate Listed(table: map<string, nat>, e: nat, entry: Entry) {
    entry.phase in {Ordering, Dropped, Failed, Won, Cached} ==> entry.host in table && table[entry.host] == e
  }

  /** A remembered failure is still listed, or its cooldown has passed. */
  ghost predicate CoolingOk(s: State, host: string) {
    host in s.lastFailure ==>
      || s.now > s.lastFailure[host] + COOLDOWN
      || (host in s.table && s.table[host] in s.entries &&
          var e := s.entries[s.table[host]];
          e.failedAt == s.lastFailure[host] && e.cert.None? && (e.phase == Failed || e.phase == Ready))
  }

  ghost predicate TableOk(table: map<string, nat>, entries: map<nat, Entry>) {
    forall h :: h in table ==> table[h] in entries && entries[table[h]].host == h
  }

  ghost predicate CallersOk(entries: map<nat, Entry>, callers: map<nat, Caller>) {
    forall c :: c in callers ==>
      match callers[c]
      case Gone => true
      case Owner(e) => e in entries
      case Waiter(e) => e in entries
      case Answered(e, cert) => e in entries && entries[e].phase == Ready && entries[e].cert == cert
  }

  ghost predicate EntryOk(s: State, e: nat)
    requires e in s.entries
  {
    var entry := s.entries[e];
    && Listed(s.table, e, entry)
    && (entry.phase in {Ordering, Dropped, Forgotten, Failed} ==> entry.cert.None?)
    && (entry.phase in {Won, Cached} ==> entry.cert.Some?)
    && (entry.phase == Cached || (entry.phase == Ready && entry.cert.Some?) ==> entry.host in s.cache)
  }

  ghost predicate EntriesOk(s: State) { forall e :: e in s.entries ==> EntryOk(s, e) }

  ghost predicate CooldownsOk(s: State) { forall h :: CoolingOk(s, h) }

  ghost predicate Inv(s: State) {
    EntriesOk(s) && TableOk(s.table, s.entries) && CallersOk(s.entries, s.callers) && CooldownsOk(s)
  }

  lemma StepEntries(s: State, step: Step)
    requires EntriesOk(s) && TableOk(s.table, s.entries) && Enabled(s, step)
    ensures EntriesOk(Apply(s, step)) && TableOk(Apply(s, step).table, Apply(s, step).entries)
  {
    var t := Apply(s, step);
    forall e | e in t.entries
      ensures EntryOk(t, e)
    {
      assert e in s.entries ==> EntryOk(s, e);
      if step.Call? && !Joins(s, step.host) && step.host in s.table {
        assert EntryOk(s, s.table[step.host]);
      }
    }
  }

  lemma StepCooldowns(s: State, step: Step)
    requires EntriesOk(s) && TableOk(s.table, s.entries) && CooldownsOk(s) && Enabled(s, step)
    ensures CooldownsOk(Apply(s, step))
  {
    var t := Apply(s, step);
    forall h
      ensures CoolingOk(t, h)
    {
      assert CoolingOk(s, h);
      if !step.Clock? && !step.Call? && !step.Wake? && !step.GiveUp? {
        assert EntryOk(s, step.entry);
      }
    }
  }

  lemma StepCallers(s: State, step: Step)
    requires TableOk(s.table, s.entries) && CallersOk(s.entries, s.callers) && Enabled(s, step)
    ensures CallersOk(Apply(s, step).entries, Apply(s, step).callers)
  {
  }

  lemma StepInv(s: State, step: Step)
    requires Inv(s) && Enabled(s, step)
    ensures Inv(Apply(s, step))
  {
    StepEntries(s, step);
    StepCooldowns(s, step);
    StepCallers(s, step);
  }

  lemma {:induction false} RunInv(states: seq<State>, steps: seq<Step>, n: nat)
    requires Run(states, steps) && n <= |steps|
    ensures Inv(states[n])
  {
    if n > 0 {
      RunInv(states, steps, n - 1);
      StepInv(states[n - 1], steps[n - 1]);
    }
  }

  // ---------- What callers and the certificate authority see ----------

  /** At most one order per host is in flight. */
  lemma SingleFlight(states: seq<State>, steps: seq<Step>, n: nat, d: nat, e: nat)
    requires Run(states, steps) && n <= |steps|
    requires d in states[n].entries && e in states[n].entries && states[n].entries[d].host == states[n].entries[e].host
    requires states[n].entries[d].phase == Ordering && states[n].entries[e].phase == Ordering
    ensures d == e
  {
    RunInv(states, steps, n);
    assert EntryOk(states[n], d) && EntryOk(states[n], e);
  }

  /** When one of the host's orders last failed on its own account, in the first `n` steps. */
  ghost function LastFailure(states: seq<State>, steps: seq<Step>, n: nat, host: string): Option<int>
    requires Run(states, steps) && n <= |steps|
  {
    if n == 0 then None
    else if steps[n - 1].Fail? && states[n - 1].entries[steps[n - 1].entry].host == host then Some(states[n - 1].now)
    else LastFailure(states, steps, n - 1, host)
  }

  /** What is remembered of a host is the time of its last failure in the whole run, and
      nothing exactly when none of its orders failed. */
  lemma {:induction false} FailureRemembered(states: seq<State>, steps: seq<Step>, n: nat, host: string)
    requires Run(states, steps) && n <= |steps|
    ensures LastFailure(states, steps, n, host) == if host in states[n].lastFailure then Some(states[n].lastFailure[host]) else None
  {
    if n > 0 {
      FailureRemembered(states, steps, n - 1, host);
      FailureStep(states[n - 1], steps[n - 1], host);
    }
  }

  lemma FailureStep(s: State, step: Step, host: string)
    requires Enabled(s, step)
    ensures var t := Apply(s, step);
            if step.Fail? && s.entries[step.entry].host == host then host in t.lastFailure && t.lastFailure[host] == s.now
            else (host in t.lastFailure <==> host in s.lastFailure) && (host in s.lastFailure ==> t.lastFailure[host] == s.lastFailure[host])
  {
  }

  /** An order starts only when the host's last failure is more than the cooldown ago, and
      no other order for the host is in flight. */
  lemma CooldownRespected(states: seq<State>, steps: seq<Step>, i: nat)
    requires Run(states, steps) && i < |steps| && steps[i].Call? && steps[i].entry in states[i + 1].entries
    ensures var host := steps[i].host;
            && (LastFailure(states, steps, i, host).Some? ==> states[i].now > LastFailure(states, steps, i, host).value + COOLDOWN)
            && (forall e :: e in states[i].entries && states[i].entries[e].host == host ==> states[i].entries[e].phase != Ordering)
  {
    RunInv(states, steps, i);
    FailureRemembered(states, steps, i, steps[i].host);
    var s, host := states[i], steps[i].host;
    assert CoolingOk(s, host);
    forall e | e in s.entries && s.entries[e].host == host
      ensures s.entries[e].phase != Ordering
    {
      assert EntryOk(s, e);
    }
  }

  // ---------- When an order starts ----------

  /** A failure that is shown or about to be is no later than what is remembered; an entry
      that was forgotten is not listed. */
  ghost predicate StampOk(s: State, e: nat)
    requires e in s.entries
  {
    var entry := s.entries[e];
    var listed := entry.host in s.table && s.table[entry.host] == e;
    && (entry.phase == Failed || (entry.phase == Ready && entry.cert.None? && listed) ==>
          entry.host in s.lastFailure && entry.failedAt <= s.lastFailure[entry.host])
    && (entry.phase == Forgotten ==> !listed)
  }

  ghost predicate StampsOk(s: State) {
    && (forall e :: e in s.entries ==> StampOk(s, e))
    && (forall h :: h in s.lastFailure ==> s.lastFailure[h] <= s.now)
  }

  lemma StepStamps(s: State, step: Step)
    requires Inv(s) && StampsOk(s) && Enabled(s, step)
    ensures StampsOk(Apply(s, step))
  {
    var t := Apply(s, step);
    forall e | e in t.entries
      ensures StampOk(t, e)
    {
      if e in s.entries {
        assert StampOk(s, e) && EntryOk(s, e);
      }
    }
  }

  lemma {:induction false} RunStamps(states: seq<State>, steps: seq<Step>, n: nat)
    requires Run(states, steps) && n <= |steps|
    ensures StampsOk(states[n])
  {
    if n > 0 {
      RunStamps(states, steps, n - 1);
      RunInv(states, steps, n - 1);
      StepStamps(states[n - 1], steps[n - 1]);
    }
  }

  /** The host has no order under way whose result is still to be handed out. */
  ghost predicate Settled(s: State, host: string) {
    forall e :: e in s.entries && s.entries[e].host == host ==> s.entries[e].phase == Ready || s.entries[e].phase == Forgotten
  }

  /** A call starts an order exactly when none of the host's orders is unsettled and its last
      failure in the run, if any, is more than the cooldown ago. */
  lemma OrderStartsIff(states: seq<State>, steps: seq<Step>, i: nat)
    requires Run(states, steps) && i < |steps| && steps[i].Call?
    ensures var host := steps[i].host; var last := LastFailure(states, steps, i, host);
            steps[i].entry in states[i + 1].entries <==>
            Settled(states[i], host) && (last.None? || states[i].now > last.value + COOLDOWN)
  {
    var s, host := states[i], steps[i].host;
    RunInv(states, steps, i);
    RunStamps(states, steps, i);
    FailureRemembered(states, steps, i, host);
    if steps[i].entry in states[i + 1].entries {
      CooldownRespected(states, steps, i);
      forall e | e in s.entries && s.entries[e].host == host
        ensures s.entries[e].phase == Ready || s.entries[e].phase == Forgotten
      {
        assert EntryOk(s, e);
      }
    } else {
      assert Joins(s, host) && StampOk(s, s.table[host]);
    }
  }

  lemma ReadyStep(s: State, step: Step, e: nat)
    requires Enabled(s, step) && e in s.entries && s.entries[e].phase == Ready
    ensures e in Apply(s, step).entries && Apply(s, step).entries[e] == s.entries[e]
  {
  }

  lemma ReadyStays(states: seq<State>, steps: seq<Step>, i: nat, e: nat)
    requires Run(states, steps) && i < |steps| && e in states[i].entries && states[i].entries[e].phase == Ready
    ensures e in states[i + 1].entries && states[i + 1].entries[e] == states[i].entries[e]
  {
    ReadyStep(states[i], steps[i], e);
  }

  ghost predicate Unchanged(states: seq<State>, k: nat, e: nat)
    requires k + 1 < |states|
  {
    e in states[k].entries && states[k].entries[e].phase == Ready ==>
      e in states[k + 1].entries && states[k + 1].entries[e] == states[k].entries[e]
  }

  lemma {:induction false} UnchangedOver(states: seq<State>, i: nat, j: nat, e: nat)
    requires i <= j < |states| && e in states[i].entries && states[i].entries[e].phase == Ready
    requires forall k :: i <= k < j ==> Unchanged(states, k, e)
    ensures e in states[j].entries && states[j].entries[e] == states[i].entries[e]
    decreases j
  {
    if i < j {
      UnchangedOver(states, i, j - 1, e);
      assert Unchanged(states, j - 1, e);
    }
  }

  /** A result handed out never changes afterwards. */
  lemma SettledForGood(states: seq<State>, steps: seq<Step>, i: nat, j: nat, e: nat)
    requires Run(states, steps) && i <= j <= |steps| && e in states[i].entries && states[i].entries[e].phase == Ready
    ensures e in states[j].entries && states[j].entries[e] == states[i].entries[e]
  {
    forall k | i <= k < j
      ensures Unchanged(states, k, e)
    {
      if e in states[k].entries && states[k].entries[e].phase == Ready {
        ReadyStays(states, steps, k, e);
      }
    }
    UnchangedOver(states, i, j, e);
  }

  /** Where a caller that joined entry `e` can be. */
  ghost predicate Served(s: State, c: nat, e: nat) {
    c in s.callers &&
    (|| s.callers[c] == Waiter(e)
     || s.callers[c] == Gone
     || (e in s.entries && s.entries[e].phase == Ready && s.callers[c] == Answered(e, s.entries[e].cert)))
  }

  lemma ServedStep(s: State, step: Step, c: nat, e: nat)
    requires Enabled(s, step) && Served(s, c, e)
    ensures Served(Apply(s, step), c, e)
    ensures Apply(s, step).callers[c] == Gone ==> s.callers[c] == Gone || step == GiveUp(c)
  {
    if e in s.entries && s.entries[e].phase == Ready {
      ReadyStep(s, step, e);
    }
  }

  lemma ServedStays(states: seq<State>, steps: seq<Step>, i: nat, c: nat, e: nat)
    requires Run(states, steps) && i < |steps| && Served(states[i], c, e)
    ensures Served(states[i + 1], c, e)
    ensures states[i + 1].callers[c] == Gone ==> states[i].callers[c] == Gone || steps[i] == GiveUp(c)
  {
    ServedStep(states[i], steps[i], c, e);
  }

  /** A caller that joined an entry stays with it: it is still waiting, has given up on
      its own account, or has received that entry's settled result. */
  lemma {:induction false} WaiterGetsResult(states: seq<State>, steps: seq<Step>, i: nat, j: nat, c: nat)
    requires Run(states, steps) && i <= j <= |steps| && c in states[i].callers && states[i].callers[c].Waiter?
    ensures Served(states[j], c, states[i].callers[c].entry)
    ensures states[j].callers[c] == Gone ==> exists k :: i <= k < j && steps[k] == GiveUp(c)
    decreases j
  {
    if i < j {
      WaiterGetsResult(states, steps, i, j - 1, c);
      ServedStays(states, steps, j - 1, c, states[i].callers[c].entry);
    }
  }

  /** A won certificate is cached before anyone waiting hears of it. */
  lemma CachedBeforeAnswer(states: seq<State>, steps: seq<Step>, n: nat, c: nat)
    requires Run(states, steps) && n <= |steps| && c in states[n].callers
    requires states[n].callers[c].Answered? && states[n].callers[c].cert.Some?
    ensures states[n].callers[c].entry in states[n].entries
    ensures states[n].entries[states[n].callers[c].entry].host in states[n].cache
  {
    RunInv(states, steps, n);
    assert EntryOk(states[n], states[n].callers[c].entry);
  }

  // ---------- Certificates, told from the steps ----------

  /** What order `e` brought within the first `n` steps. */
  ghost function Brought(steps: seq<Step>, n: nat, e: nat): Option<nat>
    requires n <= |steps|
  {
    if n == 0 then None
    else if steps[n - 1].Succeed? && steps[n - 1].entry == e then Some(steps[n - 1].cert)
    else Brought(steps, n - 1, e)
  }

  lemma CertStep(s: State, step: Step, e: nat)
    requires Inv(s) && Enabled(s, step)
    ensures var t := Apply(s, step);
            e in t.entries ==>
              t.entries[e].cert ==
                if step.Succeed? && step.entry == e then Some(step.cert) else if e in s.entries then s.entries[e].cert else None
    ensures e in s.entries ==> e in Apply(s, step).entries && Apply(s, step).entries[e].host == s.entries[e].host
    ensures e !in s.entries ==> !(step.Succeed? && step.entry == e)
  {
    if e in s.entries {
      assert EntryOk(s, e);
    }
  }

  /** An entry carries exactly the certificate its own order brought, so that is what everyone
      who waits on it is given. */
  lemma {:induction false} CertIsBrought(states: seq<State>, steps: seq<Step>, n: nat, e: nat)
    requires Run(states, steps) && n <= |steps|
    ensures if e in states[n].entries then states[n].entries[e].cert == Brought(steps, n, e) else Brought(steps, n, e) == None
  {
    if n > 0 {
      CertIsBrought(states, steps, n - 1, e);
      RunInv(states, steps, n - 1);
      CertStep(states[n - 1], steps[n - 1], e);
    }
  }

  /** The entry last stored for the host within the first `n` steps. */
  ghost function LastStored(states: seq<State>, steps: seq<Step>, n: nat, host: string): Option<nat>
    requires Run(states, steps) && n <= |steps|
  {
    if n == 0 then None
    else if steps[n - 1].Store? && states[n - 1].entries[steps[n - 1].entry].host == host then Some(steps[n - 1].entry)
    else LastStored(states, steps, n - 1, host)
  }

  lemma CacheStep(s: State, step: Step, host: string)
    requires Enabled(s, step)
    ensures var t := Apply(s, step);
            if step.Store? && s.entries[step.entry].host == host
            then host in t.cache && Some(t.cache[host]) == s.entries[step.entry].cert
            else (host in t.cache <==> host in s.cache) && (host in s.cache ==> t.cache[host] == s.cache[host])
  {
  }

  /** Once brought, a certificate is what the order brought for good. */
  lemma BroughtOnce(states: seq<State>, steps: seq<Step>, n: nat, e: nat)
    requires Run(states, steps) && 0 < n <= |steps| && Brought(steps, n - 1, e).Some?
    ensures Brought(steps, n, e) == Brought(steps, n - 1, e)
  {
    RunInv(states, steps, n - 1);
    CertIsBrought(states, steps, n - 1, e);
    assert EntryOk(states[n - 1], e);
  }

  /** The cache holds, for every host, what the order stored last brought. */
  lemma {:induction false} CacheIsLatest(states: seq<State>, steps: seq<Step>, n: nat, host: string)
    requires Run(states, steps) && n <= |steps|
    ensures match LastStored(states, steps, n, host)
            case None => host !in states[n].cache
            case Some(e) => host in states[n].cache && Brought(steps, n, e) == Some(states[n].cache[host])
  {
    if n > 0 {
      CacheIsLatest(states, steps, n - 1, host);
      CacheStep(states[n - 1], steps[n - 1], host);
      var e := LastStored(states, steps, n, host);
      if e.Some? {
        CertIsBrought(states, steps, n - 1, e.value);
        BroughtOnce(states, steps, n, e.value);
      }
    }
  }

  // ---------- The table on the heap ----------

  /** Some run leads to this state. */
  ghost predicate Reachable(s: State) { exists states, steps :: Run(states, steps) && states[|steps|] == s }

  lemma ReachStep(s: State, step: Step)
    requires Reachable(s) && Enabled(s, step)
    ensures Reachable(Apply(s, step))
  {
    var states, steps :| Run(states, steps) && states[|steps|] == s;
    var more, taken := states + [Apply(s, step)], steps + [step];
    forall i | 0 <= i < |taken|
      ensures Enabled(more[i], taken[i]) && more[i + 1] == Apply(more[i], taken[i])
    {
      assert i < |steps| ==> Enabled(states[i], steps[i]) && more[i + 1] == states[i + 1];
    }
    assert Run(more, taken) && more[|taken|] == Apply(s, step);
  }

  lemma ReachStart(now: int)
    ensures Reachable(State(now, map[], map[], map[], map[], map[]))
  {
    assert Run([State(now, map[], map[], map[], map[], map[])], []);
  }

  /** In every reachable state an order that just failed is the listed one. */
  lemma FailedIsListed(s: State, e: nat)
    requires Reachable(s) && e in s.entries && s.entries[e].phase == Failed
    ensures s.entries[e].host in s.table && s.table[s.entries[e].host] == e
  {
    var states, steps :| Run(states, steps) && states[|steps|] == s;
    RunInv(states, steps, |steps|);
    assert EntryOk(s, e);
  }

  class IssueState {
    ghost const id: nat
    var ready: bool
    var cert: Option<nat>
    var failedAt: int

    constructor (ghost id: nat)
      ensures this.id == id && !ready && cert == None && failedAt == 0
    {
      this.id, ready, cert, failedAt := id, false, None, 0;
    }

    predicate Stale(now: int)
      reads this
    {
      ready && (cert.Some? || now > failedAt + COOLDOWN)
    }

    ghost predicate Shows(e: Entry)
      reads this
    {
      ready == (e.phase == Ready) && cert == e.cert && failedAt == e.failedAt
    }
  }

  /** The maps the manager keeps under its locks. `s` is the state of the run so far and
      `nodes` every entry ever made; each method is one critical section, one write of an
      owner to its own entry, or the closing of a channel. */
  class Issuer {
    var issuing: map<string, IssueState>
    var cache: map<string, nat>
    ghost var s: State
    ghost var nodes: map<nat, IssueState>

    ghost predicate Valid()
      reads this, nodes.Values
    {
      && s.cache == cache && s.table.Keys == issuing.Keys && s.entries.Keys == nodes.Keys
      && (forall h :: h in issuing ==> s.table[h] in nodes && nodes[s.table[h]] == issuing[h])
      && (forall e :: e in nodes ==> nodes[e].id == e && nodes[e].Shows(s.entries[e]))
      && Reachable(s)
    }

    constructor (now: int)
      ensures Valid() && s == State(now, map[], map[], map[], map[], map[])
    {
      issuing, cache := map[], map[];
      s, nodes := State(now, map[], map[], map[], map[], map[]), map[];
      ReachStart(now);
    }

    ghost method Tick(now: int)
      requires Valid() && s.now <= now
      modifies this`s
      ensures Valid() && s == Apply(old(s), Clock(now))
    {
      ReachStep(s, Clock(now));
      s := Apply(s, Clock(now));
    }

    /** The host's entry and whether the caller owns it: a caller owns a new entry
        exactly when none is listed or the listed one may be replaced. */
    method FindOrCreate(ghost c: nat, host: string, now: int) returns (st: IssueState, owner: bool, ghost e: nat)
      requires Valid() && c !in s.callers && s.now == now
      modifies this`issuing, this`s, this`nodes
      ensures Valid() && Enabled(old(s), Call(c, host, e)) && s == Apply(old(s), Call(c, host, e))
      ensures owner <==> host !in old(issuing) || old(issuing[host].Stale(now))
      ensures owner ==> fresh(st) && issuing == old(issuing)[host := st]
      ensures !owner ==> issuing == old(issuing) && st == issuing[host]
      ensures forall d :: d in old(nodes) ==> d in nodes && nodes[d] == old(nodes)[d]
    {
      e := Unused(s.entries.Keys);
      if host in issuing && !issuing[host].Stale(now) {
        st, owner := issuing[host], false;
        ReachStep(s, Call(c, host, e));
        s := Apply(s, Call(c, host, e));
      } else {
        st := Create(c, host, e);
        owner := true;
      }
    }

    method Create(ghost c: nat, host: string, ghost e: nat) returns (st: IssueState)
      requires Valid() && Enabled(s, Call(c, host, e)) && !Joins(s, host)
      modifies this`issuing, this`s, this`nodes
      ensures Valid() && s == Apply(old(s), Call(c, host, e)) && fresh(st) && issuing == old(issuing)[host := st]
      ensures nodes == old(nodes)[e := st]
    {
      st := new IssueState(e);
      issuing, nodes := issuing[host := st], nodes[e := st];
      ReachStep(s, Call(c, host, e));
      s := Apply(s, Call(c, host, e));
    }

    /** The order succeeded. */
    method Won(st: IssueState, cert: nat)
      requires Valid() && st.id in nodes && nodes[st.id] == st && Enabled(s, Succeed(st.id, cert))
      modifies this`s, st`cert
      ensures Valid() && s == Apply(old(s), Succeed(st.id, cert))
    {
      st.cert := Some(cert);
      ReachStep(s, Succeed(st.id, cert));
      s := Apply(s, Succeed(st.id, cert));
    }

    /** The order failed by itself: the entry is stamped while nobody can see it. */
    method Lost(st: IssueState, now: int)
      requires Valid() && st.id in nodes && nodes[st.id] == st && Enabled(s, Fail(st.id)) && s.now == now
      modifies this`s, st`cert, st`failedAt
      ensures Valid() && s == Apply(old(s), Fail(st.id)) && !st.ready
    {
      assert forall d :: d in nodes && d != st.id ==> nodes[d] != st;
      st.cert, st.failedAt := None, now;
      ReachStep(s, Fail(st.id));
      s := Apply(s, Fail(st.id));
    }

    /** The order died of a shutdown: nothing is stamped. */
    method Abandoned(st: IssueState)
      requires Valid() && st.id in nodes && nodes[st.id] == st && Enabled(s, Die(st.id))
      modifies this`s, st`cert
      ensures Valid() && s == Apply(old(s), Die(st.id)) && !st.ready
    {
      st.cert := None;
      ReachStep(s, Die(st.id));
      s := Apply(s, Die(st.id));
    }

    /** A won certificate enters the cache. */
    method Keep(host: string, st: IssueState)
      requires Valid() && st.id in nodes && nodes[st.id] == st && Enabled(s, Store(st.id)) && s.entries[st.id].host == host
      modifies this`s, this`cache
      ensures Valid() && s == Apply(old(s), Store(st.id)) && st.cert.Some? && cache == old(cache)[host := st.cert.value]
    {
      cache := cache[host := st.cert.value];
      ReachStep(s, Store(st.id));
      s := Apply(s, Store(st.id));
    }

    /** Drops the entry only while it is still the listed one. */
    method Forget(host: string, st: IssueState)
      requires Valid() && st.id in nodes && nodes[st.id] == st && Enabled(s, Step.Forget(st.id)) && s.entries[st.id].host == host
      modifies this`s, this`issuing
      ensures Valid() && s == Apply(old(s), Step.Forget(st.id))
      ensures issuing == if host in old(issuing) && old(issuing)[host] == st then old(issuing) - {host} else old(issuing)
    {
      if host in issuing && issuing[host] == st {
        Unlist(host, st);
      } else {
        ReachStep(s, Step.Forget(st.id));
        s := Apply(s, Step.Forget(st.id));
      }
    }

    method Unlist(host: string, st: IssueState)
      requires Valid() && st.id in nodes && nodes[st.id] == st && Enabled(s, Step.Forget(st.id)) && s.entries[st.id].host == host
      requires host in issuing && issuing[host] == st
      modifies this`s, this`issuing
      ensures Valid() && s == Apply(old(s), Step.Forget(st.id)) && issuing == old(issuing) - {host}
    {
      assert s.table[host] == st.id;
      issuing := issuing - {host};
      ReachStep(s, Step.Forget(st.id));
      s := Apply(s, Step.Forget(st.id));
    }

    /** Wakes everyone waiting: from now on the result shows. */
    method Close(st: IssueState)
      requires Valid() && st.id in nodes && nodes[st.id] == st && Enabled(s, Step.Close(st.id))
      modifies this`s, st`ready
      ensures Valid() && s == Apply(old(s), Step.Close(st.id)) && st.ready
    {
      st.ready := true;
      ReachStep(s, Step.Close(st.id));
      s := Apply(s, Step.Close(st.id));
    }

    /** Entry `st` is on the books. */
    ghost predicate Holds(st: IssueState)
      reads this, nodes.Values
    {
      Valid() && st.id in nodes && nodes[st.id] == st
    }

    /** Handshakes for any hosts arrive meanwhile. */
    method Arrive(hosts: seq<string>, now: int, ghost st: IssueState)
      requires Holds(st) && s.now == now
      modifies this`issuing, this`s, this`nodes
      ensures Holds(st) && s.now == now && s.entries[st.id] == old(s.entries[st.id])
    {
      for i := 0 to |hosts|
        invariant Holds(st) && s.now == now && s.entries[st.id] == old(s.entries[st.id])
      {
        var _, _, _ := FindOrCreate(Unused(s.callers.Keys), hosts[i], now);
      }
    }

    /** The order died of a shutdown: the entry is unlisted before anyone is woken. */
    method SettleDead(host: string, st: IssueState, now: int, arrivals: seq<string>)
      requires Holds(st) && s.entries[st.id].phase == Ordering && s.entries[st.id].host == host && s.now == now
      modifies this`issuing, this`s, this`nodes, st
      ensures Holds(st) && st.ready && st.cert == None && !(host in issuing && issuing[host] == st)
    {
      Withdraw(host, st, now, arrivals);
      Close(st);
    }

    method Withdraw(host: string, st: IssueState, now: int, arrivals: seq<string>)
      requires Holds(st) && s.entries[st.id].phase == Ordering && s.entries[st.id].host == host && s.now == now
      modifies this`issuing, this`s, this`nodes, st`cert
      ensures Holds(st) && s.entries[st.id].phase == Forgotten && st.cert == None && !(host in issuing && issuing[host] == st)
    {
      Abandoned(st);
      Arrive(arrivals, now, st);
      Forget(host, st);
    }

    /** The order failed: the entry stays listed, stamped, and is not replaced meanwhile. */
    method SettleLost(host: string, st: IssueState, now: int, arrivals: seq<string>)
      requires Holds(st) && s.entries[st.id].phase == Ordering && s.entries[st.id].host == host && s.now == now
      modifies this`issuing, this`s, this`nodes, st
      ensures Holds(st) && st.ready && st.cert == None && host in issuing && issuing[host] == st
      ensures st.failedAt == now && !st.Stale(now)
    {
      Stamp(host, st, now, arrivals);
      FailedIsListed(s, st.id);
      Close(st);
    }

    method Stamp(host: string, st: IssueState, now: int, arrivals: seq<string>)
      requires Holds(st) && s.entries[st.id].phase == Ordering && s.entries[st.id].host == host && s.now == now
      modifies this`issuing, this`s, this`nodes, st`cert, st`failedAt
      ensures Holds(st) && s.entries[st.id] == Entry(host, Failed, None, now)
    {
      Lost(st, now);
      Arrive(arrivals, now, st);
    }

    /** The order succeeded: cached, then handed out, then unlisted. A newer entry that
        replaced it in between stays. */
    method SettleWon(host: string, st: IssueState, cert: nat, now: int, arrivals: nat -> seq<string>)
      requires Holds(st) && s.entries[st.id].phase == Ordering && s.entries[st.id].host == host && s.now == now
      modifies this, st
      ensures Holds(st) && st.ready && st.cert == Some(cert) && cache == old(cache)[host := cert]
      ensures !(host in issuing && issuing[host] == st)
    {
      Announce(host, st, cert, now, arrivals(0));
      Arrive(arrivals(1), now, st);
      HandOut(host, st, now, arrivals(2));
    }

    method Announce(host: string, st: IssueState, cert: nat, now: int, arrivals: seq<string>)
      requires Holds(st) && s.entries[st.id].phase == Ordering && s.entries[st.id].host == host && s.now == now
      modifies this, st`cert
      ensures Holds(st) && s.entries[st.id].phase == Cached && s.entries[st.id].host == host && s.now == now
      ensures st.cert == Some(cert) && cache == old(cache)[host := cert]
    {
      Won(st, cert);
      Arrive(arrivals, now, st);
      Keep(host, st);
    }

    method HandOut(host: string, st: IssueState, now: int, arrivals: seq<string>)
      requires Holds(st) && s.entries[st.id].phase == Cached && s.entries[st.id].host == host && s.now == now && st.cert.Some?
      modifies this`issuing, this`s, this`nodes, st`ready
      ensures Holds(st) && st.ready && !(host in issuing && issuing[host] == st)
    {
      Close(st);
      Arrive(arrivals, now, st);
      Forget(host, st);
    }
  }

  ghost function Unused(used: set<nat>): (e: nat)
    ensures e !in used
  {
    Beyond(used);
    var e: nat :| e !in used;
    e
  }

  lemma Beyond(used: set<nat>)
    ensures exists e: nat :: e !in used
  {
    var top := Above(used);
    assert top !in used;
  }

  lemma {:induction false} Above(used: set<nat>) returns (top: nat)
    ensures forall e :: e in used ==> e < top
  {
    if used == {} {
      top := 0;
    } else {
      var e :| e in used;
      var rest := Above(used - {e});
      assert used == used - {e} + {e};
      top := if e < rest then rest else e + 1;
    }
  }
}
