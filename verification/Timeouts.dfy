/** The Timeout middleware: a producer writing into a bounded buffer, a caller that may
    stop waiting, and a deadline, in any order. Values first: one function per
    critical section of the response writer. */
module Timeouts {
  import opened Basics
  import opened ResponseBuffers

  datatype Cause = Deadline | Cancelled
  datatype Failure = HandlerTimeout | OverLimit | Stopped
  datatype Panic = NoPanic | Abort | Other

  datatype Writer = Writer(body: seq<Byte>, capacity: nat, maximum: nat, over: bool, status: int,
                           ctx: Option<Cause>, err: Option<Failure>, panic: Panic,
                           producerDone: bool, callerDone: bool, failed: nat, released: nat)

  /** What the caller does in the end. */
  datatype Outcome = Panicked | Limit(status: int) | Replay | Unavailable(deadline: bool)

  function NewWriter(maximum: nat): Writer {
    Writer([], 0, maximum, false, 0, None, None, NoPanic, false, false, 0, 0)
  }

  predicate MayWrite(w: Writer) { w.err.None? && !w.producerDone && !w.callerDone && w.ctx.None? }

  /** The capacity after `n` more bytes, if the body limit and the budget allow them. */
  function Granted(w: Writer, n: nat, used: int, limit: int): (r: Option<nat>)
    ensures r.Some? ==> |w.body| + n <= r.value && w.capacity <= r.value
    ensures r.Some? && w.capacity <= w.maximum ==> r.value <= w.maximum
    ensures r.Some? && r.value != w.capacity ==> used + r.value <= limit
  {
    if w.over || |w.body| + n > w.maximum then None
    else if |w.body| + n <= w.capacity then Some(w.capacity)
    else
      var next := NextCapacity(w.capacity, |w.body| + n, w.maximum);
      if used + next <= limit then Some(next) else None
  }

  /** A write is charged and appended, refused for good, or ignored. */
  function Written(w: Writer, p: seq<Byte>, used: int, limit: int): Writer {
    if !MayWrite(w) then w
    else
      var grant := Granted(w, |p|, used, limit);
      if grant.Some? then w.(body := w.body + p, capacity := grant.value)
      else
        var status := if |w.body| + |p| <= w.maximum then STATUS_UNAVAILABLE else STATUS_BAD_GATEWAY;
        w.(over := true, status := status, ctx := Some(Cancelled), err := Some(OverLimit), failed := w.failed + 1)
  }

  function Released(w: Writer): Writer { w.(body := [], capacity := 0, released := w.released + 1) }

  /** An abort that the buffer itself provoked is not the producer's panic. */
  function ProducerFinished(w: Writer, value: Panic): Writer {
    var v := w.(panic := if w.over && value == Abort then NoPanic else value, producerDone := true);
    if v.callerDone then Released(v) else v
  }

  function CallerFinished(w: Writer): Writer {
    var v := w.(callerDone := true);
    if v.producerDone then Released(v) else v
  }

  function Expired(w: Writer, cause: Cause): Writer { if w.ctx.Some? then w else w.(ctx := Some(cause)) }

  function Verdict(w: Writer): Outcome {
    if w.producerDone && w.panic != NoPanic then Panicked
    else if w.over then Limit(w.status)
    else if w.ctx.None? && w.producerDone then Replay
    else Unavailable(w.ctx == Some(Deadline))
  }

  /** Asking for the verdict overwrites the recorded error, unless it is final. */
  function Judged(w: Writer): Writer {
    if Verdict(w).Panicked? || Verdict(w).Limit? then w
    else w.(err := if w.ctx.None? then None else if w.ctx.value == Deadline then Some(HandlerTimeout) else Some(Stopped))
  }

  /** What every writer keeps. */
  ghost predicate WriterOk(w: Writer) {
    && |w.body| <= w.capacity <= w.maximum
    && w.released == (if w.producerDone && w.callerDone then 1 else 0)
    && (w.released == 1 ==> w.capacity == 0)
    && w.failed == (if w.over then 1 else 0)
    && (w.over ==> w.err == Some(OverLimit) && w.ctx.Some? && w.status != 0)
  }

  // ---------- The writer on the heap ----------

  class TimeoutResponseWriter {
    const buffer: ResponseBuffer
    var ctx: Option<Cause>
    var err: Option<Failure>
    var panicValue: Panic
    var producerDone: bool
    var callerDone: bool
    ghost var failed: nat
    ghost var released: nat

    ghost predicate Valid()
      reads this, buffer
    {
      buffer.Valid() && WriterOk(View()) && (!buffer.overLimit ==> buffer.failureStatus == 0)
    }

    ghost function View(): Writer
      requires buffer.Valid()
      reads this, buffer
    {
      Writer(buffer.body, buffer.capacity, buffer.maxBodyBytes, buffer.overLimit, buffer.failureStatus,
             ctx, err, panicValue, producerDone, callerDone, failed, released)
    }

    constructor (buffer: ResponseBuffer)
      requires buffer.Valid() && buffer.body == [] && buffer.capacity == 0 && !buffer.overLimit && buffer.failureStatus == 0
      ensures Valid() && this.buffer == buffer && View() == NewWriter(buffer.maxBodyBytes)
    {
      this.buffer := buffer;
      ctx, err, panicValue, producerDone, callerDone := None, None, NoPanic, false, false;
      failed, released := 0, 0;
    }

    predicate WriteError()
      reads this
    {
      err.Some? || producerDone || callerDone || ctx.Some?
    }

    method Write(p: seq<Byte>) returns (ok: bool)
      requires Valid()
      modifies this`ctx, this`err, this`failed, buffer, buffer.budget`used
      ensures Valid() && View() == Written(old(View()), p, old(buffer.budget.used), buffer.budget.limit)
      ensures buffer.budget.used == old(buffer.budget.used) + buffer.capacity - old(buffer.capacity)
      ensures ok ==> buffer.body == old(buffer.body) + p
    {
      if WriteError() {
        return false;
      }
      ok := AppendBody(p);
    }

    method AppendBody(p: seq<Byte>) returns (ok: bool)
      requires Valid() && MayWrite(View())
      modifies this`ctx, this`err, this`failed, buffer, buffer.budget`used
      ensures Valid() && View() == Written(old(View()), p, old(buffer.budget.used), buffer.budget.limit)
      ensures buffer.budget.used == old(buffer.budget.used) + buffer.capacity - old(buffer.capacity)
      ensures ok ==> buffer.body == old(buffer.body) + p
    {
      ok := buffer.Write(p);
      if !ok {
        ctx := Some(Cancelled);
        err, failed := Some(OverLimit), failed + 1;
      }
    }

    method FinishProducer(value: Panic)
      requires Valid() && !producerDone
      modifies this`panicValue, this`producerDone, this`released, buffer, buffer.budget`used
      ensures Valid() && View() == ProducerFinished(old(View()), value)
      ensures buffer.budget.used == old(buffer.budget.used) + buffer.capacity - old(buffer.capacity)
    {
      panicValue := if buffer.overLimit && value == Abort then NoPanic else value;
      producerDone := true;
      if callerDone {
        buffer.Release();
        released := released + 1;
      }
    }

    method FinishCaller()
      requires Valid() && !callerDone
      modifies this`callerDone, this`released, buffer, buffer.budget`used
      ensures Valid() && View() == CallerFinished(old(View()))
      ensures buffer.budget.used == old(buffer.budget.used) + buffer.capacity - old(buffer.capacity)
    {
      callerDone := true;
      if producerDone {
        buffer.Release();
        released := released + 1;
      }
    }

    method Result() returns (r: Outcome)
      requires Valid()
      modifies this`err
      ensures Valid() && View() == Judged(old(View())) && r == Verdict(old(View()))
      ensures r == Panicked <==> producerDone && panicValue != NoPanic
      ensures r == Replay <==> producerDone && panicValue == NoPanic && !buffer.overLimit && ctx.None?
      ensures r.Limit? ==> buffer.overLimit && r.status == buffer.failureStatus
      ensures r == Panicked || r.Limit? ==> err == old(err)
      ensures r == Replay ==> err == None
      ensures r.Unavailable? && ctx.Some? ==> err == Some(if ctx.value == Deadline then HandlerTimeout else Stopped)
      ensures r.Unavailable? ==> !buffer.overLimit && r.deadline == (ctx == Some(Deadline))
    {
      if producerDone && panicValue != NoPanic {
        return Panicked;
      }
      if buffer.overLimit {
        return Limit(buffer.failureStatus);
      }
      if ctx.None? {
        err := None;
        return if producerDone then Replay else Unavailable(false);
      }
      err := if ctx.value == Deadline then Some(HandlerTimeout) else Some(Stopped);
      return Unavailable(ctx.value == Deadline);
    }
  }
}
