/** The writer that captures a response while it fits and streams it once it does
    not, without the client being able to tell. */
module CacheWriter {
  import opened ResponseBuffers

  /** What reaches the client's side. */
  datatype Event = Commit(status: int) | Body(bytes: seq<Byte>)

  /** What the producer does, and what the surroundings answer: whether the header
      map is within its cost limit, whether a flush succeeds, and how other requests
      move the shared budget. */
  datatype Op =
    | Status(code: int, headersFit: bool)
    | Bytes(p: seq<Byte>, headersFit: bool, flushes: bool)
    | Pressure(delta: int)

  /** The first final status set before any body byte, or 200. */
  ghost function FirstStatus(ops: seq<Op>, multiplexed: bool): int {
    if ops == [] then STATUS_OK
    else
      match ops[0]
      case Status(code, _) => if FinalStatus(code, multiplexed) then code else FirstStatus(ops[1..], multiplexed)
      case Bytes(_, _, _) => STATUS_OK
      case Pressure(_) => FirstStatus(ops[1..], multiplexed)
  }

  /** Everything the producer wrote, in order. */
  ghost function Written(ops: seq<Op>): seq<Byte> {
    if ops == [] then []
    else Written(ops[..|ops| - 1]) + (if ops[|ops| - 1].Bytes? then ops[|ops| - 1].p else [])
  }

  ghost function Delivered(log: seq<Event>): seq<Byte> {
    if log == [] then []
    else Delivered(log[..|log| - 1]) + (if log[|log| - 1].Body? then log[|log| - 1].bytes else [])
  }

  /** One status, before every body byte. */
  ghost predicate CommittedOnce(log: seq<Event>, status: int) {
    && log != [] && log[0] == Commit(status)
    && forall i :: 1 <= i < |log| ==> log[i].Body?
  }

  /** Once decided, the status does not change whatever follows. */
  lemma {:induction false} StatusDecided(ops: seq<Op>, more: seq<Op>, multiplexed: bool)
    requires Decided(ops, multiplexed)
    ensures FirstStatus(ops + more, multiplexed) == FirstStatus(ops, multiplexed)
  {
    assert (ops + more)[1..] == ops[1..] + more;
    if !Decides(ops[0], multiplexed) {
      var i :| 0 <= i < |ops| && Decides(ops[i], multiplexed);
      assert ops[1..][i - 1] == ops[i];
      StatusDecided(ops[1..], more, multiplexed);
    }
  }

  ghost predicate Decides(op: Op, multiplexed: bool) {
    op.Bytes? || (op.Status? && FinalStatus(op.code, multiplexed))
  }

  /** Something in the history has settled the status. */
  ghost predicate Decided(ops: seq<Op>, multiplexed: bool) {
    exists i :: 0 <= i < |ops| && Decides(ops[i], multiplexed)
  }

  lemma {:induction false} StatusUndecided(ops: seq<Op>, op: Op, multiplexed: bool)
    requires forall i :: 0 <= i < |ops| ==> !Decides(ops[i], multiplexed)
    ensures FirstStatus(ops, multiplexed) == STATUS_OK
    ensures FirstStatus(ops + [op], multiplexed) ==
            if op.Status? && FinalStatus(op.code, multiplexed) then op.code else STATUS_OK
  {
    if ops == [] {
      assert ops + [op] == [op];
      assert [op][1..] == [];
    } else {
      assert (ops + [op])[1..] == ops[1..] + [op];
      assert (ops + [op])[0] == ops[0];
      StatusUndecided(ops[1..], op, multiplexed);
    }
  }

  /** The client's side gave the writer a reason to fail. */
  ghost predicate Refused(ops: seq<Op>, accepts: nat) {
    |Written(ops)| > accepts || exists i :: 0 <= i < |ops| && ops[i].Bytes? && !ops[i].flushes
  }

  class Outer {
    var log: seq<Event>
    /** How many more body bytes the client accepts. */
    var room: nat

    constructor (room: nat)
      ensures log == [] && this.room == room
    {
      log := [];
      this.room := room;
    }

    method WriteHeader(status: int)
      modifies this`log
      ensures log == old(log) + [Commit(status)]
    {
      log := log + [Commit(status)];
    }

    /** A short write is an error. */
    method Write(p: seq<Byte>) returns (ok: bool)
      modifies this
      ensures ok == (|p| <= old(room))
      ensures room == old(room) - (if ok then |p| else old(room))
      ensures log == old(log) + [Body(if ok then p else p[..old(room)])]
    {
      ok := |p| <= room;
      if ok {
        log := log + [Body(p)];
        room := room - |p|;
      } else {
        log := log + [Body(p[..room])];
        room := 0;
      }
    }
  }

  class CacheWriter {
    const outer: Outer
    const buf: ResponseBuffer
    var streaming: bool
    var flushed: bool
    var err: bool
    /** The producer's history, and how many bytes the client would accept at the start. */
    ghost var ops: seq<Op>
    ghost const accepts: nat

    ghost predicate Valid()
      reads this, outer, buf
    {
      && buf.Valid()
      && outer.room + |Delivered(outer.log)| == accepts
      && (err ==> Refused(ops, accepts))
      && (!streaming ==>
            && outer.log == [] && !err
            && buf.body == Written(ops)
            && buf.status == FirstStatus(ops, buf.multiplexed)
            && (buf.wroteHeader <==> Decided(ops, buf.multiplexed)))
      && (streaming ==>
            && buf.capacity == 0
            && CommittedOnce(outer.log, FirstStatus(ops, buf.multiplexed))
            && Decided(ops, buf.multiplexed)
            && Delivered(outer.log) <= Written(ops)
            && (!err ==> Delivered(outer.log) == Written(ops)))
    }

    constructor (outer: Outer, buf: ResponseBuffer)
      requires buf.Valid() && outer.log == [] && buf.body == [] && !buf.wroteHeader && buf.status == STATUS_OK
      ensures Valid() && this.outer == outer && this.buf == buf && ops == [] && !streaming && accepts == outer.room
    {
      this.outer, this.buf := outer, buf;
      streaming, flushed, err := false, false, false;
      ops, accepts := [], outer.room;
    }

    /** Commits status and captured bytes, then gives the captured storage back. */
    method StartStreaming()
      requires buf.Valid() && !streaming && outer.log == []
      modifies this`streaming, this`err, outer, buf`body, buf`capacity, buf.budget`used
      ensures buf.Valid() && streaming && buf.capacity == 0
      ensures CommittedOnce(outer.log, buf.status)
      ensures Delivered(outer.log) <= old(buf.body) && (!err ==> Delivered(outer.log) == old(buf.body))
      ensures outer.room + |Delivered(outer.log)| == old(outer.room) && (err ==> |old(buf.body)| > old(outer.room))
    {
      streaming := true;
      err := false;
      outer.WriteHeader(buf.status);
      assert Delivered(outer.log) == [];
      if |buf.body| != 0 {
        var ok := outer.Write(buf.body);
        err := !ok;
        assert outer.log[..1] == [Commit(buf.status)];
      }
      buf.Release();
    }

    /** Later codes are ignored once a final status, or a body byte, decided it. */
    method WriteHeader(code: int, headersFit: bool)
      requires Valid()
      modifies this, outer, buf, buf.budget`used
      ensures Valid() && ops == old(ops) + [Status(code, headersFit)]
      ensures buf.multiplexed == old(buf.multiplexed)
    {
      ghost var before := ops;
      ops := ops + [Status(code, headersFit)];
      Extends(before, Status(code, headersFit), buf.multiplexed);
      RefusedStays(before, Status(code, headersFit), accepts);
      if code == STATUS_SWITCHING && buf.multiplexed {
        return;
      }
      if streaming || (code < 200 && code != STATUS_SWITCHING) {
        return;
      }
      buf.WriteHeader(code);
      if !headersFit {
        StartStreaming();
      }
    }

    /** Captures `p` if it fits, and otherwise streams it after what was captured. */
    method Write(p: seq<Byte>, headersFit: bool, flushes: bool)
      requires Valid()
      modifies this, outer, buf, buf.budget`used
      ensures Valid() && ops == old(ops) + [Bytes(p, headersFit, flushes)]
      ensures buf.multiplexed == old(buf.multiplexed)
    {
      ghost var before := ops;
      ops := ops + [Bytes(p, headersFit, flushes)];
      Extends(before, Bytes(p, headersFit, flushes), buf.multiplexed);
      assert !flushes ==> ops[|before|].Bytes? && !ops[|before|].flushes;
      RefusedStays(before, Bytes(p, headersFit, flushes), accepts);
      if err {
        return;
      }
      if streaming {
        Stream(p, flushes);
      } else {
        Capture(p, headersFit, flushes);
      }
    }

    method Capture(p: seq<Byte>, headersFit: bool, flushes: bool)
      requires buf.Valid() && !streaming && outer.log == [] && !err
      modifies this`streaming, this`flushed, this`err, outer, buf, buf.budget`used
      ensures buf.Valid() && buf.status == old(buf.status) && buf.multiplexed == old(buf.multiplexed)
      ensures !streaming ==> !err && outer.log == [] && outer.room == old(outer.room)
      ensures !streaming ==> buf.body == old(buf.body) + p && buf.wroteHeader
      ensures streaming ==> buf.capacity == 0 && CommittedOnce(outer.log, buf.status)
      ensures streaming ==> Delivered(outer.log) <= old(buf.body) + p
      ensures streaming && !err ==> Delivered(outer.log) == old(buf.body) + p
      ensures outer.room + |Delivered(outer.log)| == old(outer.room)
      ensures err ==> |old(buf.body) + p| > old(outer.room) || !flushes
    {
      if headersFit {
        var ok := buf.Write(p);
        if ok {
          return;
        }
      }
      StartStreaming();
      if !err {
        Stream(p, flushes);
      }
    }

    method Stream(p: seq<Byte>, flushes: bool)
      requires streaming && !err && outer.log != []
      requires forall i :: 1 <= i < |outer.log| ==> outer.log[i].Body?
      modifies this`flushed, this`err, outer
      ensures |outer.log| == |old(outer.log)| + 1 && outer.log[0] == old(outer.log)[0]
      ensures forall i :: 1 <= i < |outer.log| ==> outer.log[i].Body?
      ensures Delivered(outer.log) <= old(Delivered(outer.log)) + p
      ensures !err ==> Delivered(outer.log) == old(Delivered(outer.log)) + p
      ensures outer.room + |Delivered(outer.log)| == old(outer.room + |Delivered(outer.log)|)
      ensures err ==> |p| > old(outer.room) || !flushes
    {
      ghost var log := outer.log;
      var ok := outer.Write(p);
      assert outer.log[..|log|] == log;
      if ok && !flushed {
        flushed := true;
        ok := flushes;
      }
      err := !ok;
    }

    /** Other requests move the shared budget between the producer's calls. */
    method Squeeze(delta: int)
      requires Valid()
      modifies this`ops, buf.budget`used
      ensures Valid() && ops == old(ops) + [Pressure(delta)]
    {
      Extends(ops, Pressure(delta), buf.multiplexed);
      RefusedStays(ops, Pressure(delta), accepts);
      ops := ops + [Pressure(delta)];
      buf.budget.used := buf.budget.used + delta;
    }

    /** Delivers whatever is still captured. */
    method Finish(headersFit: bool)
      requires Valid()
      modifies this, outer, buf, buf.budget`used
      ensures CommittedOnce(outer.log, old(FirstStatus(ops, buf.multiplexed)))
      ensures Delivered(outer.log) <= old(Written(ops))
      ensures !err ==> Delivered(outer.log) == old(Written(ops))
      ensures err ==> old(Refused(ops, accepts))
    {
      if streaming {
        return;
      }
      if !headersFit {
        StartStreaming();
        return;
      }
      outer.WriteHeader(buf.status);
      assert Delivered(outer.log) == [];
      var ok := outer.Write(buf.body);
      err := !ok;
      assert outer.log[..1] == [Commit(buf.status)];
    }
  }

  /** One more producer call changes the history only where it should. */
  lemma Extends(ops: seq<Op>, op: Op, multiplexed: bool)
    ensures Written(ops + [op]) == Written(ops) + (if op.Bytes? then op.p else [])
    ensures FirstStatus(ops + [op], multiplexed) ==
            if !Decided(ops, multiplexed) && op.Status? && FinalStatus(op.code, multiplexed) then op.code
            else FirstStatus(ops, multiplexed)
    ensures Decided(ops + [op], multiplexed) <==> Decided(ops, multiplexed) || Decides(op, multiplexed)
  {
    var all := ops + [op];
    assert all[..|ops|] == ops;
    if Decided(ops, multiplexed) {
      StatusDecided(ops, [op], multiplexed);
      var i :| 0 <= i < |ops| && Decides(ops[i], multiplexed);
      assert all[i] == ops[i];
    } else {
      StatusUndecided(ops, op, multiplexed);
      assert all[|ops|] == op;
    }
  }

  lemma RefusedStays(ops: seq<Op>, op: Op, accepts: nat)
    ensures Refused(ops, accepts) ==> Refused(ops + [op], accepts)
  {
    Extends(ops, op, false);
    if exists i :: 0 <= i < |ops| && ops[i].Bytes? && !ops[i].flushes {
      var i :| 0 <= i < |ops| && ops[i].Bytes? && !ops[i].flushes;
      assert (ops + [op])[i] == ops[i];
    }
  }

  /** A whole response. Whatever the producer does and wherever capturing is refused,
      the client sees the first final status once, before any body byte, and then the
      producer's bytes in order: all of them, as long as its side accepts them. */
  method Serve(script: seq<Op>, headersFit: bool, outer: Outer, buf: ResponseBuffer) returns (err: bool)
    requires buf.Valid() && outer.log == [] && buf.body == [] && !buf.wroteHeader && buf.status == STATUS_OK
    modifies outer, buf, buf.budget`used
    ensures CommittedOnce(outer.log, old(FirstStatus(script, buf.multiplexed)))
    ensures Delivered(outer.log) <= Written(script)
    ensures !err ==> Delivered(outer.log) == Written(script)
    ensures err ==> Refused(script, old(outer.room))
  {
    var w := new CacheWriter(outer, buf);
    for i := 0 to |script|
      invariant w.outer == outer && w.buf == buf && fresh(w) && w.accepts == old(outer.room)
      invariant w.Valid() && w.ops == script[..i] && buf.multiplexed == old(buf.multiplexed)
    {
      assert script[..i + 1] == script[..i] + [script[i]];
      match script[i]
      case Status(code, fit) => w.WriteHeader(code, fit);
      case Bytes(p, fit, flushes) => w.Write(p, fit, flushes);
      case Pressure(delta) => w.Squeeze(delta);
    }
    assert script[..|script|] == script;
    w.Finish(headersFit);
    err := w.err;
  }
}
