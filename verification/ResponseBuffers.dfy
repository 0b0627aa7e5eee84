/** The byte budget shared by buffering middleware, and the bounded response
    buffer that charges its allocations to it. */
module ResponseBuffers {
  import opened Basics

  type Byte = b: nat | b < 256

  const DEFAULT_MAX_RESPONSE_BODY: int := 0x80_0000
  const DEFAULT_BUDGET: int := 0x400_0000
  const MIN_GROWTH: int := 512

  const STATUS_SWITCHING := 101
  const STATUS_OK := 200
  const STATUS_BAD_GATEWAY := 502
  const STATUS_UNAVAILABLE := 503

  /** Informational codes never become the recorded status; 101 does, except on
      a multiplexed connection. */
  predicate FinalStatus(code: int, multiplexed: bool) {
    if code == STATUS_SWITCHING then !multiplexed else code >= 200
  }

  class Budget {
    const limit: int
    var used: int

    constructor (limit: int)
      ensures used == 0 && 0 < this.limit
      ensures 0 < limit ==> this.limit == limit
      ensures limit <= 0 ==> this.limit == DEFAULT_BUDGET
    {
      this.limit := if limit <= 0 then DEFAULT_BUDGET else limit;
      used := 0;
    }

    /** Admits `n` bytes exactly when they still fit; a refusal changes nothing. */
    method Reserve(n: int) returns (ok: bool)
      modifies this`used
      ensures ok <==> old(used) + n <= limit
      ensures used == if ok then old(used) + n else old(used)
    {
      if n > limit - used {
        return false;
      }
      used := used + n;
      return true;
    }

    method Release(n: int)
      modifies this`used
      ensures used == old(used) - n
    {
      used := used - n;
    }
  }

  /** The size of the next allocation: doubling from 512 bytes, never past the
      body limit, and never short of what the write needs. */
  function NextCapacity(capacity: int, needed: int, maximum: int): (r: int)
    requires 0 <= capacity < needed <= maximum
    ensures needed <= r <= maximum
    ensures Min(maximum, Max(MIN_GROWTH, 2 * capacity)) <= r <= Max(needed, Max(MIN_GROWTH, 2 * capacity))
  {
    var grown := capacity + Min(capacity, maximum - capacity);
    Max(needed, Min(maximum, Max(MIN_GROWTH, grown)))
  }

  /** A size-limited response buffer. `owner` is the entry or writer that will
      give its capacity back. */
  class ResponseBuffer {
    var status: int
    var body: seq<Byte>
    var capacity: int
    var wroteHeader: bool
    var multiplexed: bool
    const maxBodyBytes: int
    var overLimit: bool
    var failureStatus: int
    const budget: Budget
    ghost var owner: object?

    ghost predicate Valid()
      reads this
    {
      0 <= |body| <= capacity <= maxBodyBytes
    }

    constructor (limit: int, budget: Budget, ghost owner: object?)
      ensures Valid() && 0 < maxBodyBytes && (0 < limit ==> maxBodyBytes == limit)
      ensures status == STATUS_OK && body == [] && capacity == 0
      ensures !wroteHeader && !multiplexed && !overLimit && failureStatus == 0
      ensures this.budget == budget && this.owner == owner
    {
      status, body, capacity := STATUS_OK, [], 0;
      wroteHeader, multiplexed, overLimit, failureStatus := false, false, false, 0;
      maxBodyBytes := if limit <= 0 then DEFAULT_MAX_RESPONSE_BODY else limit;
      this.budget := budget;
      this.owner := owner;
    }

    /** The struct copy made on publication: same bytes, same allocation. */
    constructor Copy(b: ResponseBuffer, ghost owner: object?)
      requires b.Valid()
      ensures Valid() && maxBodyBytes == b.maxBodyBytes && budget == b.budget
      ensures status == b.status && body == b.body && capacity == b.capacity
      ensures this.owner == owner
    {
      status, body, capacity := b.status, b.body, b.capacity;
      wroteHeader, multiplexed := b.wroteHeader, b.multiplexed;
      overLimit, failureStatus := b.overLimit, b.failureStatus;
      maxBodyBytes, budget := b.maxBodyBytes, b.budget;
      this.owner := owner;
    }

    /** The first final status wins; informational codes are not recorded. */
    method WriteHeader(code: int)
      requires Valid()
      modifies this`status, this`wroteHeader
      ensures Valid()
      ensures wroteHeader == (old(wroteHeader) || FinalStatus(code, multiplexed))
      ensures status == if !old(wroteHeader) && FinalStatus(code, multiplexed) then code else old(status)
    {
      if code == STATUS_SWITCHING && multiplexed {
        return;
      }
      if code < 200 && code != STATUS_SWITCHING {
        return;
      }
      if wroteHeader {
        return;
      }
      status := code;
      wroteHeader := true;
    }

    /** Whether `n` more bytes would be admitted: within the body limit, and
        either inside the present allocation or with room in the budget for the
        replacement while the old allocation is still charged. */
    ghost predicate Admits(n: nat)
      requires Valid()
      reads this, budget
    {
      && !overLimit
      && |body| + n <= maxBodyBytes
      && (|body| + n <= capacity ||
          budget.used + NextCapacity(capacity, |body| + n, maxBodyBytes) <= budget.limit)
    }

    /** Growth keeps the budget exact: the charge moves by the change in capacity,
        and a refusal moves nothing. */
    method PrepareBodyWrite(n: nat) returns (ok: bool)
      requires Valid()
      modifies this`capacity, this`overLimit, this`failureStatus, budget`used
      ensures Valid() && ok == old(Admits(n))
      ensures budget.used - old(budget.used) == capacity - old(capacity)
      ensures budget.used <= Max(old(budget.used), budget.limit)
      ensures ok ==> |body| + n <= capacity && old(capacity) <= capacity
      ensures ok ==> capacity == if |body| + n <= old(capacity) then old(capacity)
                                 else NextCapacity(old(capacity), |body| + n, maxBodyBytes)
      ensures ok ==> overLimit == old(overLimit) && failureStatus == old(failureStatus)
      ensures !ok ==> overLimit && capacity == old(capacity)
      ensures !ok && !old(overLimit) ==>
                failureStatus == if |body| + n <= maxBodyBytes then STATUS_UNAVAILABLE
                                 else if old(failureStatus) == 0 then STATUS_BAD_GATEWAY
                                 else old(failureStatus)
    {
      if overLimit || n > maxBodyBytes - |body| {
        overLimit := true;
        if failureStatus == 0 {
          failureStatus := STATUS_BAD_GATEWAY;
        }
        return false;
      }
      var needed := |body| + n;
      if needed <= capacity {
        return true;
      }
      var oldCapacity := capacity;
      var next := NextCapacity(capacity, needed, maxBodyBytes);
      // Both allocations are live while copying.
      ok := budget.Reserve(next);
      if !ok {
        overLimit := true;
        failureStatus := STATUS_UNAVAILABLE;
        return false;
      }
      capacity := next;
      budget.Release(oldCapacity);
      return true;
    }

    /** Appends all of `p` or nothing. */
    method Write(p: seq<Byte>) returns (ok: bool)
      requires Valid()
      modifies this`body, this`capacity, this`wroteHeader, this`overLimit, this`failureStatus, budget`used
      ensures Valid() && ok == old(Admits(|p|))
      ensures budget.used - old(budget.used) == capacity - old(capacity)
      ensures budget.used <= Max(old(budget.used), budget.limit)
      ensures body == if ok then old(body) + p else old(body)
      ensures wroteHeader == (old(wroteHeader) || ok)
      ensures ok ==> overLimit == old(overLimit) && failureStatus == old(failureStatus)
      ensures ok ==> capacity == if |body| <= old(capacity) then old(capacity)
                                 else NextCapacity(old(capacity), |body|, maxBodyBytes)
      ensures !ok ==> overLimit && capacity == old(capacity)
      ensures !ok && !old(overLimit) ==>
                failureStatus == if |body| + |p| <= maxBodyBytes then STATUS_UNAVAILABLE
                                 else if old(failureStatus) == 0 then STATUS_BAD_GATEWAY
                                 else old(failureStatus)
    {
      ok := PrepareBodyWrite(|p|);
      if !ok {
        return;
      }
      wroteHeader := true;
      body := body + p;
    }

    /** Gives the whole allocation back; a second release gives back nothing. */
    method Release()
      requires Valid()
      modifies this`body, this`capacity, budget`used
      ensures Valid() && body == [] && capacity == 0
      ensures budget.used == old(budget.used) - old(capacity)
    {
      var c := capacity;
      body, capacity := [], 0;
      budget.Release(c);
    }
  }
}
