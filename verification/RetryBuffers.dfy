/** Buffering a request body for replay across attempts, within a shared budget. */
module RetryBuffers {
  import opened Basics
  import opened ResponseBuffers
  import opened Sources

  const INITIAL_BYTES := 512
  const MAX_BYTES := 0x10_0000

  class RetryRequestBuffer {
    const budget: Budget
    var body: seq<Byte>
    var capacity: int

    ghost predicate Valid()
      reads this
    {
      |body| <= capacity && 0 < capacity <= MAX_BYTES + 1
    }

    /** Takes over `capacity` bytes already reserved. */
    constructor (budget: Budget, capacity: int)
      requires 0 < capacity <= INITIAL_BYTES
      ensures Valid() && this.budget == budget && body == [] && this.capacity == capacity
    {
      this.budget, body, this.capacity := budget, [], capacity;
    }

    /** Moves the bytes into twice the space. Both allocations are charged while they
        coexist; a refusal changes nothing. */
    method Grow() returns (ok: bool)
      requires Valid()
      modifies this`capacity, budget`used
      ensures Valid() && budget.used - capacity == old(budget.used - capacity)
      ensures capacity == if ok then Min(2 * old(capacity), MAX_BYTES + 1) else old(capacity)
      ensures ok <==> old(capacity) <= MAX_BYTES && old(budget.used) + Min(2 * old(capacity), MAX_BYTES + 1) <= budget.limit
    {
      var size := Min(capacity * 2, MAX_BYTES + 1);
      if size <= capacity {
        return false;
      }
      ok := budget.Reserve(size);
      if ok {
        budget.Release(capacity);
        capacity := size;
      }
    }

    /** Reads until the end, an error, or no more room, following the first `calls`
        answers of the reader. No byte is lost: the buffer followed by the unread
        stream is always the original body. `complete` means it is all here. */
    method ReadFrom(src: Source, calls: nat) returns (complete: bool, err: ReadError, stopped: bool)
      requires Valid() && body == []
      modifies this`body, this`capacity, budget`used, src
      ensures Valid() && body + src.rest == old(src.rest)
      ensures budget.used - capacity == old(budget.used - capacity)
      ensures budget.used <= Max(old(budget.used), budget.limit)
      ensures complete ==> stopped && err == Fine && body == old(src.rest) && |body| <= MAX_BYTES
      ensures stopped && !complete && err == Fine ==>
                |body| == capacity && (capacity == MAX_BYTES + 1 || budget.limit < budget.used + Min(2 * capacity, MAX_BYTES + 1))
      ensures !stopped ==> src.pos == old(src.pos) + calls && |body| <= MAX_BYTES
    {
      complete, err, stopped := false, Fine, false;
      var i := 0;
      while i < calls
        invariant i <= calls && src.pos == old(src.pos) + i
        invariant Valid() && |body| <= MAX_BYTES && body + src.rest == old(src.rest)
        invariant budget.used - capacity == old(budget.used - capacity)
        invariant budget.used <= Max(old(budget.used), budget.limit)
      {
        if |body| == capacity {
          var grown := Grow();
          if !grown {
            return false, Fine, true;
          }
        }
        var data, e := src.Read(capacity - |body|);
        body := body + data;
        i := i + 1;
        if e != Fine && e != Eof {
          return false, e, true;
        }
        if |body| > MAX_BYTES {
          return false, Fine, true;
        }
        if e == Eof {
          assert body == old(src.rest);
          return true, Fine, true;
        }
      }
    }
  }

  /** Admission: a small buffer, or none and nothing charged. */
  method NewRetryRequestBuffer(budget: Budget) returns (b: RetryRequestBuffer?)
    requires 0 < budget.limit
    modifies budget`used
    ensures b == null <==> budget.limit < old(budget.used) + Min(INITIAL_BYTES, budget.limit)
    ensures b == null ==> budget.used == old(budget.used)
    ensures b != null ==> fresh(b) && b.Valid() && b.budget == budget && b.body == [] && budget.used == old(budget.used) + b.capacity
  {
    var size := Min(INITIAL_BYTES, budget.limit);
    var ok := budget.Reserve(size);
    if !ok {
      return null;
    }
    b := new RetryRequestBuffer(budget, size);
  }
}
