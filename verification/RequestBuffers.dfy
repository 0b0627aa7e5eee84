/** Request bodies buffered in memory and, past a threshold, on disk, under server-wide
    budgets. Each critical section of the manager is one method. */
module RequestBuffers {
  import opened Basics
  import opened Ledger
  import opened ResponseBuffers
  import opened Sources

  const DEFAULT_MAX_IN_FLIGHT := 128
  const INITIAL_BYTES := 512
  const MAX_EMPTY_READS := 100

  const BAD_REQUEST := 400
  const TOO_LARGE := 413
  const UNAVAILABLE := 503

  /** Answers that come from outside: disk operations and cancellation. */
  class Oracle {
    const says: nat -> bool
    var asked: nat

    constructor (says: nat -> bool)
      ensures this.says == says && asked == 0
    {
      this.says, asked := says, 0;
    }

    method Ask() returns (answer: bool)
      modifies this
      ensures answer == says(old(asked)) && asked == old(asked) + 1 && Said(this, old(asked), answer)
    {
      answer := says(asked);
      asked := asked + 1;
    }
  }

  /** The oracle has given this answer since its `from`-th question. */
  ghost predicate Said(o: Oracle, from: nat, answer: bool)
    reads o
  {
    exists k :: from <= k < o.asked && o.says(k) == answer
  }

  /** A read that brings neither bytes nor the end nor a failure, with `rest` still to come. */
  ghost predicate Empty(turn: Turn, rest: seq<Byte>) {
    (turn.size == 0 || rest == []) && (turn.err == Fine || (turn.err == Eof && rest != []))
  }

  /** The last `n` reads were empty. */
  ghost predicate Stalled(turns: nat -> Turn, pos: nat, rest: seq<Byte>, n: nat) {
    n <= pos && forall k :: pos - n <= k < pos ==> Empty(turns(k), rest)
  }

  lemma StalledMore(turns: nat -> Turn, pos: nat, rest: seq<Byte>, n: nat)
    requires Stalled(turns, pos, rest, n) && Empty(turns(pos), rest)
    ensures Stalled(turns, pos + 1, rest, n + 1)
  {
  }

  /** What one buffer has reserved. */
  datatype Reserved = Reserved(memory: int, disk: int)

  ghost function InMemory(m: map<nat, Reserved>): map<nat, int> { map b | b in m :: m[b].memory }

  ghost function OnDisk(m: map<nat, Reserved>): map<nat, int> { map b | b in m :: m[b].disk }

  /** The counters are the sums over the live buffers. */
  ghost predicate Summed(m: map<nat, Reserved>, memory: int, disk: int, active: int) {
    memory == Total(InMemory(m)) && disk == Total(OnDisk(m)) && active == |m|
  }

  lemma InMemoryPut(m: map<nat, Reserved>, b: nat, r: Reserved)
    ensures Total(InMemory(m[b := r])) == Total(InMemory(m)) - (if b in m then m[b].memory else 0) + r.memory
  {
    TotalUpdate(InMemory(m), b, r.memory);
    assert InMemory(m[b := r]) == InMemory(m)[b := r.memory];
  }

  lemma OnDiskPut(m: map<nat, Reserved>, b: nat, r: Reserved)
    ensures Total(OnDisk(m[b := r])) == Total(OnDisk(m)) - (if b in m then m[b].disk else 0) + r.disk
  {
    TotalUpdate(OnDisk(m), b, r.disk);
    assert OnDisk(m[b := r]) == OnDisk(m)[b := r.disk];
  }

  lemma SummedPut(m: map<nat, Reserved>, b: nat, r: Reserved, memory: int, disk: int, active: int)
    requires Summed(m, memory, disk, active)
    ensures b in m ==> Summed(m[b := r], memory - m[b].memory + r.memory, disk - m[b].disk + r.disk, active)
    ensures b !in m ==> Summed(m[b := r], memory + r.memory, disk + r.disk, active + 1)
  {
    InMemoryPut(m, b, r);
    OnDiskPut(m, b, r);
    assert m[b := r].Keys == m.Keys + {b};
  }

  lemma SummedDrop(m: map<nat, Reserved>, b: nat, memory: int, disk: int, active: int)
    requires Summed(m, memory, disk, active) && b in m
    ensures Summed(m - {b}, memory - m[b].memory, disk - m[b].disk, active - 1)
  {
    TotalRemove(InMemory(m), b);
    TotalRemove(OnDisk(m), b);
    assert InMemory(m - {b}) == InMemory(m) - {b};
    assert OnDisk(m - {b}) == OnDisk(m) - {b};
    assert (m - {b}).Keys == m.Keys - {b};
  }

  class Manager {
    const memoryBudget: int
    const diskBudget: int
    const maxInFlight: int
    const storage: bool
    var memory: int
    var disk: int
    var active: int
    var closed: bool
    /** What each live buffer has reserved, by its number. */
    ghost var live: map<nat, Reserved>
    ghost var issued: nat

    /** The counters are the sums over the live buffers and stay within budget. */
    ghost predicate Valid()
      reads this
    {
      && Summed(live, memory, disk, active) && (forall id :: id in live ==> id < issued)
      && memory <= memoryBudget && disk <= diskBudget && active <= maxInFlight && 0 <= memoryBudget
    }

    constructor (memoryBudget: nat, diskBudget: nat, maxInFlight: nat, storage: bool)
      ensures Valid() && live == map[] && !closed
      ensures this.memoryBudget == memoryBudget && this.diskBudget == diskBudget && this.storage == storage
      ensures this.maxInFlight == if maxInFlight == 0 then DEFAULT_MAX_IN_FLIGHT else maxInFlight
    {
      this.memoryBudget, this.diskBudget, this.storage := memoryBudget, diskBudget, storage;
      this.maxInFlight := if maxInFlight == 0 then DEFAULT_MAX_IN_FLIGHT else maxInFlight;
      memory, disk, active, closed := 0, 0, 0, false;
      live, issued := map[], 0;
    }

    /** Admits a buffer of `size` bytes exactly when open, below the in-flight limit
        and within the memory budget. */
    method Acquire(size: nat) returns (b: BodyBuffer?)
      requires Valid()
      modifies this`memory, this`active, this`live, this`issued
      ensures Valid() && (b == null <==> closed || old(active) >= maxInFlight || old(memory) + size > memoryBudget)
      ensures b == null ==> unchanged(this)
      ensures b != null ==> fresh(b) && b.manager == this && b.refs == 1 && b.memory == size
      ensures b != null ==> |b.data| == size && b.disk == 0 && b.file == None && b.size == 0
      ensures b != null ==> live == old(live)[b.id := Reserved(size, 0)] && b.id !in old(live)
      ensures b != null ==> memory == old(memory) + size && disk == old(disk)
    {
      if closed || active >= maxInFlight || size > memoryBudget - memory {
        return null;
      }
      ghost var id := issued;
      Admit(size);
      b := new BodyBuffer(this, size, id);
    }

    method Admit(size: nat)
      requires Valid() && active < maxInFlight && memory + size <= memoryBudget
      modifies this`memory, this`active, this`live, this`issued
      ensures Valid() && live == old(live)[old(issued) := Reserved(size, 0)] && memory == old(memory) + size
    {
      SummedPut(live, issued, Reserved(size, 0), memory, disk, active);
      memory, active := memory + size, active + 1;
      live, issued := live[issued := Reserved(size, 0)], issued + 1;
    }

    method ReserveMemory(ghost b: nat, size: nat) returns (ok: bool)
      requires Valid() && b in live
      modifies this`memory, this`live
      ensures Valid() && (ok <==> old(memory) + size <= memoryBudget)
      ensures live == if ok then old(live)[b := Reserved(old(live)[b].memory + size, old(live)[b].disk)] else old(live)
      ensures memory == if ok then old(memory) + size else old(memory)
    {
      if size > memoryBudget - memory {
        return false;
      }
      ghost var r := Reserved(live[b].memory + size, live[b].disk);
      SummedPut(live, b, r, memory, disk, active);
      memory, live := memory + size, live[b := r];
      return true;
    }

    method ReleaseMemory(ghost b: nat, size: nat)
      requires Valid() && b in live
      modifies this`memory, this`live
      ensures Valid() && live == old(live)[b := Reserved(old(live)[b].memory - size, old(live)[b].disk)]
      ensures memory == old(memory) - size
    {
      ghost var r := Reserved(live[b].memory - size, live[b].disk);
      SummedPut(live, b, r, memory, disk, active);
      memory, live := memory - size, live[b := r];
    }

    method ReserveDisk(ghost b: nat, size: nat) returns (ok: bool)
      requires Valid() && b in live
      modifies this`disk, this`live
      ensures Valid() && (ok <==> old(disk) + size <= diskBudget)
      ensures live == if ok then old(live)[b := Reserved(old(live)[b].memory, old(live)[b].disk + size)] else old(live)
      ensures disk == if ok then old(disk) + size else old(disk)
    {
      if size > diskBudget - disk {
        return false;
      }
      ghost var r := Reserved(live[b].memory, live[b].disk + size);
      SummedPut(live, b, r, memory, disk, active);
      disk, live := disk + size, live[b := r];
      return true;
    }

    /** What a stretch of other requests' critical sections may amount to. */
    method Shift(memory: int, disk: int, active: int, closed: bool, ghost live: map<nat, Reserved>, ghost issued: nat)
      requires Valid() && Summed(live, memory, disk, active) && forall id :: id in live ==> id < issued
      requires memory <= memoryBudget && disk <= diskBudget && active <= maxInFlight
      modifies this
      ensures Valid() && this.live == live
      ensures this.memory == memory && this.disk == disk && this.active == active && this.closed == closed
    {
      this.memory, this.disk, this.active, this.closed := memory, disk, active, closed;
      this.live, this.issued := live, issued;
    }

    /** The last reference is gone: everything the buffer reserved comes back. */
    method Retire(b: BodyBuffer)
      requires Valid() && b.id in live && live[b.id] == Reserved(b.memory, b.disk) && 0 <= b.memory && 0 <= b.disk
      modifies this`memory, this`disk, this`active, this`live
      ensures Valid() && live == old(live) - {b.id}
    {
      SummedDrop(live, b.id, memory, disk, active);
      memory, disk, active, live := memory - b.memory, disk - b.disk, active - 1, live - {b.id};
    }
  }

  /** What the other live requests hold between two critical sections of this one. */
  datatype Load = Load(memory: int, disk: int, active: int, closed: bool)

  /** A table of `active` buffers after number `first` that holds the given bytes. */
  ghost function Crowd(first: nat, memory: int, disk: int, active: nat): map<nat, Reserved>
    decreases active
  {
    if active == 0 then map[] else Crowd(first, 0, 0, active - 1)[first + active := Reserved(memory, disk)]
  }

  lemma NoneSummed()
    ensures Summed(map[], 0, 0, 0)
  {
    assert InMemory(map[]) == map[] && OnDisk(map[]) == map[];
  }

  lemma {:induction false} CrowdSummed(first: nat, memory: int, disk: int, active: nat)
    requires active == 0 ==> memory == 0 && disk == 0
    ensures Summed(Crowd(first, memory, disk, active), memory, disk, active)
    decreases active
  {
    if active == 0 {
      NoneSummed();
    } else {
      var fewer := Crowd(first, 0, 0, active - 1);
      CrowdSummed(first, 0, 0, active - 1);
      assert first + active !in fewer by {
        CrowdKeys(first, 0, 0, active - 1);
      }
      SummedPut(fewer, first + active, Reserved(memory, disk), 0, 0, active - 1);
    }
  }

  lemma {:induction false} CrowdKeys(first: nat, memory: int, disk: int, active: nat)
    ensures forall b :: b in Crowd(first, memory, disk, active) ==> first < b <= first + active
    decreases active
  {
    if active > 0 {
      CrowdKeys(first, 0, 0, active - 1);
    }
  }

  lemma CrowdBeside(id: nat, first: nat, memory: int, disk: int, load: Load)
    requires 0 <= load.active && id < first && (load.active == 0 ==> load.memory == 0 && load.disk == 0)
    ensures var o := Crowd(first, load.memory, load.disk, load.active); var all := o[id := Reserved(memory, disk)];
            && Summed(all, memory + load.memory, disk + load.disk, 1 + load.active) && all - {id} == o
            && forall b :: b in all ==> b < first + load.active + 1
  {
    var o := Crowd(first, load.memory, load.disk, load.active);
    CrowdSummed(first, load.memory, load.disk, load.active);
    CrowdKeys(first, load.memory, load.disk, load.active);
    SummedPut(o, id, Reserved(memory, disk), load.memory, load.disk, load.active);
    assert id !in o;
  }

  /** The other requests. Whenever this one is outside the manager's lock, they may have
      acquired, grown, spilled and released, and leave any load that fits beside what this
      request holds. */
  class Traffic {
    const next: nat -> Load
    var pos: nat
    /** How many bytes of each budget they are taken to leave. */
    ghost const spareMemory: nat
    ghost const spareDisk: nat
    /** What they hold, by buffer. */
    ghost var others: map<nat, Reserved>

    constructor (next: nat -> Load, ghost spareMemory: nat, ghost spareDisk: nat, ghost others: map<nat, Reserved>)
      ensures this.next == next && this.others == others && pos == 0
      ensures this.spareMemory == spareMemory && this.spareDisk == spareDisk
    {
      this.next, this.others, pos := next, others, 0;
      this.spareMemory, this.spareDisk := spareMemory, spareDisk;
    }

    /** Whatever they do, they leave that much. */
    ghost predicate Ample(m: Manager) {
      spareMemory <= m.memoryBudget &&
      forall k {:trigger next(k)} ::
        next(k).memory + spareMemory <= m.memoryBudget && next(k).disk + spareDisk <= m.diskBudget
    }

    /** Beside `memory` and `disk`, that much of each budget is not taken by others. */
    ghost predicate Spared(m: Manager, memory: int, disk: int)
      reads m
    {
      m.memory - memory + spareMemory <= m.memoryBudget && m.disk - disk + spareDisk <= m.diskBudget
    }

    predicate Fits(m: Manager, memory: int, disk: int, load: Load) {
      && 0 <= load.memory && 0 <= load.disk && 0 <= load.active && (load.active == 0 ==> load.memory == 0 && load.disk == 0)
      && memory + load.memory <= m.memoryBudget && disk + load.disk <= m.diskBudget && 1 + load.active <= m.maxInFlight
    }

    /** The others move while this request holds `memory` and `disk`. */
    method Yield(m: Manager, ghost id: nat, memory: int, disk: int)
      requires m.Valid() && id in m.live && m.live[id] == Reserved(memory, disk) && m.live - {id} == others
      modifies this, m
      ensures m.Valid() && id in m.live && m.live[id] == Reserved(memory, disk) && m.live - {id} == others
      ensures var load := next(old(pos)); Fits(m, memory, disk, load) ==>
                m.memory == memory + load.memory && m.disk == disk + load.disk && m.active == 1 + load.active && m.closed == load.closed
      ensures Ample(m) && old(Spared(m, memory, disk)) ==> Spared(m, memory, disk)
    {
      var load := next(pos);
      pos := pos + 1;
      if Fits(m, memory, disk, load) {
        others := Crowd(m.issued, load.memory, load.disk, load.active);
        CrowdBeside(id, m.issued, memory, disk, load);
        m.Shift(memory + load.memory, disk + load.disk, 1 + load.active, load.closed,
                others[id := Reserved(memory, disk)], m.issued + load.active + 1);
      }
    }
  }

  class BodyBuffer {
    const manager: Manager
    ghost const id: nat
    var refs: int
    var memory: int
    var disk: int
    var data: seq<Byte>
    var file: Option<seq<Byte>>
    var size: int

    constructor (manager: Manager, size: nat, ghost id: nat)
      ensures this.manager == manager && this.id == id && refs == 1 && memory == size && disk == 0
      ensures |data| == size && file == None && this.size == 0
    {
      this.manager, this.id, refs, memory, disk := manager, id, 1, size, 0;
      data := seq(size, _ => 0);
      file, this.size := None, 0;
    }

    /** The manager charges exactly what this buffer believes it has. */
    ghost predicate Charged()
      reads this, manager
    {
      && id in manager.live && manager.live[id] == Reserved(memory, disk)
      && 0 <= memory && 0 <= disk && |data| == memory
    }

    /** What a reader of the finished buffer would yield. */
    function Contents(): seq<Byte>
      reads this
      requires Stored()
    {
      if file.Some? then file.value else data[..size]
    }

    /** What the other live buffers have reserved. */
    ghost function Others(): map<nat, Reserved>
      reads manager
    {
      manager.live - {id}
    }

    ghost predicate Stored()
      reads this
    {
      0 <= size && if file.Some? then |file.value| == size && 0 < |data| else size <= |data|
    }

    /** Between reads: everything read so far is stored, in memory up to the threshold
        and on disk above it. */
    ghost predicate Ready(maximum: int, threshold: int)
      reads this, manager
    {
      && 0 <= threshold <= maximum && (!manager.storage ==> threshold == maximum)
      && manager.Valid() && Charged() && Stored()
      && size <= maximum && memory <= threshold + 1
      && (file.None? ==> size <= threshold && disk == 0) && (file.Some? ==> manager.storage)
    }

    /** The others leave room for whatever this buffer may still need. */
    ghost predicate Roomy(traffic: Traffic, maximum: int, threshold: int)
      reads this, manager
    {
      && traffic.Ample(manager) && traffic.Spared(manager, memory, disk) && 0 < memory
      && 2 * (threshold + 1) <= traffic.spareMemory && maximum <= traffic.spareDisk
    }

    method Retain()
      requires 0 < refs
      modifies this`refs
      ensures refs == old(refs) + 1
    {
      refs := refs + 1;
    }

    /** Gives everything back exactly when the last reference goes. */
    method Release()
      requires manager.Valid() && Charged() && 0 < refs
      modifies this, manager`memory, manager`disk, manager`active, manager`live
      ensures manager.Valid() && refs == old(refs) - 1
      ensures manager.live == if refs == 0 then old(Others()) else old(manager.live)
      ensures refs != 0 ==> Charged() && data == old(data) && file == old(file) && size == old(size)
    {
      refs := refs - 1;
      if refs != 0 {
        return;
      }
      file, data := None, [];
      manager.Retire(this);
    }

    /** Drops the last reference, after whatever the others did in the meantime. */
    method Leave(traffic: Traffic)
      requires manager.Valid() && Charged() && refs == 1 && Others() == traffic.others
      modifies this, manager, traffic
      ensures manager.Valid() && manager.live == traffic.others
    {
      traffic.Yield(manager, id, memory, disk);
      Release();
    }

    /** Doubles the in-memory space, up to `limit`. Both allocations are charged while
        they coexist. */
    method Grow(limit: int, traffic: Traffic) returns (ok: bool)
      requires manager.Valid() && Charged() && Stored() && Others() == traffic.others
      modifies this`memory, this`data, manager, traffic
      ensures Others() == traffic.others
      ensures manager.Valid() && Charged() && Stored() && Contents() == old(Contents())
      ensures ok <==> 0 < old(memory) < limit && old(manager.memory) + Min(2 * old(memory), limit) <= manager.memoryBudget
      ensures ok ==> memory == Min(2 * old(memory), limit)
      ensures traffic.Ample(manager) && old(traffic.Spared(manager, memory, disk)) ==> traffic.Spared(manager, memory, disk)
      ensures !ok ==> unchanged(this) && unchanged(manager) && traffic.others == old(traffic.others)
    {
      var before := memory;
      var grown := before + Min(before, limit - before);
      if grown <= before {
        return false;
      }
      OthersPut(manager.live, id, Reserved(before + grown, disk));
      ok := manager.ReserveMemory(id, grown);
      if ok {
        traffic.Yield(manager, id, before + grown, disk);
        MoveTo(grown);
      }
    }

    /** Copies into the larger allocation and gives the smaller one back. */
    method MoveTo(grown: nat)
      requires manager.Valid() && id in manager.live && manager.live[id] == Reserved(memory + grown, disk)
      requires 0 <= memory < grown && 0 <= disk && |data| == memory && Stored()
      modifies this`memory, this`data, manager`memory, manager`live
      ensures Others() == old(Others())
      ensures manager.Valid() && Charged() && Stored() && Contents() == old(Contents()) && memory == grown
      ensures manager.memory == old(manager.memory) - old(memory)
    {
      var before := memory;
      OthersPut(manager.live, id, Reserved(grown, disk));
      data := data + seq(grown - before, _ => 0);
      memory := grown;
      manager.ReleaseMemory(id, before);
    }

    method ReserveSpool(maximum: nat) returns (ok: bool)
      requires manager.Valid() && Charged() && disk == 0
      modifies this`disk, manager`disk, manager`live
      ensures Others() == old(Others())
      ensures manager.Valid() && Charged() && disk == if ok then maximum else 0
      ensures ok <==> old(manager.disk) + maximum <= manager.diskBudget
      ensures manager.disk == old(manager.disk) + disk
    {
      OthersPut(manager.live, id, Reserved(memory, maximum));
      ok := manager.ReserveDisk(id, maximum);
      if ok {
        disk := maximum;
      }
    }

    /** Moves the body to a file that has already been unlinked. Fails on an exhausted
        disk budget or a failing disk; the reservation then stays with the buffer. */
    method Spill(maximum: nat, disks: Oracle) returns (ok: bool)
      requires manager.Valid() && Charged() && file.None? && 0 <= size <= |data| && 0 < size && disk == 0
      requires manager.storage
      modifies this`disk, this`file, manager`disk, manager`live, disks
      ensures Others() == old(Others())
      ensures manager.Valid() && Charged()
      ensures ok ==> Stored() && file.Some? && file.value == data[..size] && disk == maximum
      ensures manager.disk == old(manager.disk) + disk
      ensures old(manager.disk) + maximum <= manager.diskBudget && !ok ==> Said(disks, old(disks.asked), false)
      ensures old(disks.asked) <= disks.asked
    {
      var reserved := ReserveSpool(maximum);
      if !reserved {
        return false;
      }
      var created := disks.Ask();
      if !created {
        return false;
      }
      var removed := disks.Ask();
      if !removed {
        return false;
      }
      file := Some(data[..size]);
      ok := disks.Ask();
    }

    /** Where the next bytes go, and how many are asked for: never none, and never more
        than one past the maximum. */
    method ReadTarget(maximum: int, threshold: int, traffic: Traffic) returns (ok: bool, at: int, room: int)
      requires Ready(maximum, threshold) && Others() == traffic.others
      modifies this`memory, this`data, manager, traffic
      ensures Others() == traffic.others
      ensures Ready(maximum, threshold) && Contents() == old(Contents())
      ensures ok ==> at == (if file.None? then size else 0) && 0 < room <= maximum - size + 1 && at + room <= |data|
      ensures old(Roomy(traffic, maximum, threshold)) ==> ok && Roomy(traffic, maximum, threshold)
    {
      if file.None? && size == |data| {
        ok := Grow(threshold + 1, traffic);
        if !ok {
          return false, 0, 0;
        }
      }
      at := if file.None? then size else 0;
      room := Min(|data| - at, maximum - size + 1);
      ok := true;
    }

    /** Keeps a chunk that lies at `at` in the data: appends it to the file, or spills
        once the body no longer fits in memory. */
    method StoreChunk(at: int, n: nat, maximum: int, threshold: int, disks: Oracle, traffic: Traffic, ghost before: seq<Byte>)
      returns (status: int)
      requires Others() == traffic.others
      requires 0 <= threshold < maximum || (threshold == maximum && 0 <= maximum)
      requires !manager.storage ==> threshold == maximum
      requires manager.Valid() && Charged() && 0 <= at && at + n <= |data| && size == |before| + n <= maximum && memory <= threshold + 1
      requires file.Some? ==> at == 0 && file.value == before && 0 < |data| && manager.storage
      requires file.None? ==> at == |before| && data[..at] == before && disk == 0
      modifies this`disk, this`file, manager, disks, traffic
      ensures Others() == traffic.others
      ensures manager.Valid() && Charged() && (file.Some? ==> manager.storage)
      ensures status == 0 || status == UNAVAILABLE
      ensures status == 0 ==> Ready(maximum, threshold) && Contents() == before + data[at..at + n]
      ensures old(Roomy(traffic, maximum, threshold)) ==> Roomy(traffic, maximum, threshold)
      ensures old(Roomy(traffic, maximum, threshold)) && status != 0 ==> Said(disks, old(disks.asked), false)
      ensures old(disks.asked) <= disks.asked
    {
      if file.Some? {
        file := Some(file.value + data[at..at + n]);
        var written := disks.Ask();
        return if written then 0 else UNAVAILABLE;
      }
      assert data[..size] == before + data[at..at + n];
      if size > threshold {
        traffic.Yield(manager, id, memory, disk);
        var ok := Spill(maximum, disks);
        return if ok then 0 else UNAVAILABLE;
      }
      return 0;
    }

    /** Asks for at least one byte and puts what comes at `at`. */
    method Receive(src: Source, maximum: int, threshold: int, traffic: Traffic)
      returns (ok: bool, at: int, chunk: seq<Byte>, err: ReadError)
      requires Ready(maximum, threshold) && Others() == traffic.others
      modifies this`memory, this`data, this`size, manager, src, traffic
      ensures Others() == traffic.others
      ensures manager.Valid() && Charged() && memory <= threshold + 1
      ensures !ok ==> src.rest == old(src.rest)
      ensures ok ==> chunk + src.rest == old(src.rest) && size == old(size) + |chunk| && (err == Eof ==> src.rest == [])
      ensures ok ==> src.pos == old(src.pos) + 1
      ensures ok ==> err == if src.turns(old(src.pos)).err == Eof && src.rest != [] then Fine else src.turns(old(src.pos)).err
      ensures ok && chunk == [] && err == Fine ==> Empty(src.turns(old(src.pos)), src.rest)
      ensures old(Roomy(traffic, maximum, threshold)) ==> ok && Roomy(traffic, maximum, threshold)
      ensures ok ==> 0 <= at <= at + |chunk| <= |data| && data[at..at + |chunk|] == chunk
      ensures ok && file.Some? ==> at == 0 && 0 < |data|
      ensures ok && file.None? ==> at == old(size) && data[..at] == old(Contents())
    {
      var room;
      ok, at, room := ReadTarget(maximum, threshold, traffic);
      if !ok {
        return false, 0, [], Fine;
      }
      chunk, err := src.Read(room);
      data := data[..at] + chunk + data[at + |chunk|..];
      size := size + |chunk|;
    }

    /** Judges a chunk that has been received, and stores it. */
    method Settle(at: int, chunk: seq<Byte>, err: ReadError, cancelled: bool, maximum: int, threshold: int,
                  emptyReads: nat, disks: Oracle, traffic: Traffic, ghost before: seq<Byte>) returns (status: int, empties: nat)
      requires Others() == traffic.others
      requires 0 <= threshold <= maximum && (!manager.storage ==> threshold == maximum)
      requires manager.Valid() && Charged() && memory <= threshold + 1
      requires 0 <= at <= at + |chunk| <= |data| && data[at..at + |chunk|] == chunk && size == |before| + |chunk|
      requires file.Some? ==> at == 0 && file.value == before && 0 < |data| && manager.storage
      requires file.None? ==> at == |before| && data[..at] == before && disk == 0
      modifies this`disk, this`file, manager, disks, traffic
      ensures Others() == traffic.others
      ensures manager.Valid() && Charged() && (file.Some? ==> manager.storage)
      ensures status == 0 ==> Ready(maximum, threshold) && Contents() == before + chunk && empties < MAX_EMPTY_READS
      ensures status == 0 && chunk == [] && err != Eof ==> empties == emptyReads + 1
      ensures status == TOO_LARGE ==> size > maximum || err == TooLarge
      ensures empties == if chunk == [] && err == Fine then emptyReads + 1 else 0
      ensures status == BAD_REQUEST ==> empties >= MAX_EMPTY_READS || err == Failed
      ensures old(Roomy(traffic, maximum, threshold)) ==> Roomy(traffic, maximum, threshold)
      ensures old(Roomy(traffic, maximum, threshold)) && status == UNAVAILABLE ==> cancelled || Said(disks, old(disks.asked), false)
      ensures old(disks.asked) <= disks.asked
      ensures status in {0, BAD_REQUEST, TOO_LARGE, UNAVAILABLE}
    {
      empties := if chunk == [] && err == Fine then emptyReads + 1 else 0;
      if empties >= MAX_EMPTY_READS {
        return BAD_REQUEST, empties;
      }
      if size > maximum {
        return TOO_LARGE, empties;
      }
      status := ReadStatus(cancelled, err);
      if status == 0 {
        status := StoreChunk(at, |chunk|, maximum, threshold, disks, traffic, before);
      }
    }

    /** One read: ask for at least one byte, count it, check it, store it. */
    method ReadChunk(src: Source, cancelled: bool, maximum: int, threshold: int, emptyReads: nat, disks: Oracle, traffic: Traffic)
      returns (done: bool, status: int, empties: nat)
      requires Ready(maximum, threshold) && Others() == traffic.others
      modifies this`memory, this`data, this`size, this`disk, this`file
      modifies manager, src, disks, traffic
      ensures Others() == traffic.others
      ensures manager.Valid() && Charged() && (file.Some? ==> manager.storage)
      ensures status == 0 ==> Ready(maximum, threshold) && Contents() + src.rest == old(Contents() + src.rest)
      ensures status == 0 && done ==> src.rest == []
      ensures status == 0 ==> empties < MAX_EMPTY_READS
      ensures status == 0 && !done ==> size > old(size) || (size == old(size) && emptyReads < empties)
      ensures status == TOO_LARGE ==>
                |old(Contents() + src.rest)| > maximum || src.turns(old(src.pos)).err == TooLarge
      ensures status in {0, BAD_REQUEST, TOO_LARGE, UNAVAILABLE} && (done ==> status == 0)
      ensures old(Roomy(traffic, maximum, threshold)) ==> Roomy(traffic, maximum, threshold)
      ensures old(Roomy(traffic, maximum, threshold)) && status == UNAVAILABLE ==> cancelled || Said(disks, old(disks.asked), false)
      ensures old(disks.asked) <= disks.asked
      ensures status == BAD_REQUEST && src.turns(old(src.pos)).err != Failed ==> MAX_EMPTY_READS <= empties
      ensures status == 0 || (status == BAD_REQUEST && src.turns(old(src.pos)).err != Failed) ==>
                src.pos == old(src.pos) + 1 && (empties == 0 || empties == emptyReads + 1)
      ensures (status == 0 && 0 < empties) || (status == BAD_REQUEST && src.turns(old(src.pos)).err != Failed) ==>
                src.rest == old(src.rest) && Empty(src.turns(old(src.pos)), src.rest)
    {
      ghost var before := Contents();
      var ok, at, chunk, err := Receive(src, maximum, threshold, traffic);
      if !ok {
        return false, UNAVAILABLE, emptyReads;
      }
      Regroup(before, chunk, src.rest);
      status, empties := Settle(at, chunk, err, cancelled, maximum, threshold, emptyReads, disks, traffic, before);
      done := status == 0 && err == Eof;
    }

    /** One turn of the loop: give up if cancelled, otherwise read, while others move. */
    method Attempt(src: Source, cancel: Oracle, maximum: int, threshold: int, emptyReads: nat, disks: Oracle, traffic: Traffic)
      returns (done: bool, status: int, empties: nat)
      requires Ready(maximum, threshold) && Others() == traffic.others && disks != cancel
      requires emptyReads < MAX_EMPTY_READS && Stalled(src.turns, src.pos, src.rest, emptyReads)
      modifies this`memory, this`data, this`size, this`disk, this`file
      modifies manager, src, disks, cancel, traffic
      ensures Others() == traffic.others
      ensures manager.Valid() && Charged() && (file.Some? ==> manager.storage)
      ensures status == 0 ==> Ready(maximum, threshold) && Contents() + src.rest == old(Contents() + src.rest)
      ensures status == 0 && done ==> src.rest == []
      ensures status == 0 ==> empties < MAX_EMPTY_READS && Stalled(src.turns, src.pos, src.rest, empties)
      ensures status == 0 && !done ==> size > old(size) || (size == old(size) && emptyReads < empties)
      ensures status in {0, BAD_REQUEST, TOO_LARGE, UNAVAILABLE} && (done ==> status == 0)
      ensures old(Roomy(traffic, maximum, threshold)) ==> Roomy(traffic, maximum, threshold)
      ensures old(cancel.asked) <= cancel.asked && old(disks.asked) <= disks.asked
      ensures status == TOO_LARGE ==>
                |old(Contents() + src.rest)| > maximum || src.turns(old(src.pos)).err == TooLarge
      ensures status == BAD_REQUEST ==>
                src.turns(old(src.pos)).err == Failed || Stalled(src.turns, src.pos, src.rest, MAX_EMPTY_READS)
      ensures status == UNAVAILABLE && old(Roomy(traffic, maximum, threshold)) ==>
                Said(cancel, old(cancel.asked), true) || Said(disks, old(disks.asked), false)
    {
      var cancelled := cancel.Ask();
      if cancelled {
        return false, UNAVAILABLE, emptyReads;
      }
      cancelled := cancel.Ask();
      done, status, empties := ReadTurn(src, cancelled, maximum, threshold, emptyReads, disks, traffic);
    }

    /** The others move, then one read; how long nothing has come is kept track of. */
    method ReadTurn(src: Source, cancelled: bool, maximum: int, threshold: int, emptyReads: nat, disks: Oracle, traffic: Traffic)
      returns (done: bool, status: int, empties: nat)
      requires Ready(maximum, threshold) && Others() == traffic.others
      requires emptyReads < MAX_EMPTY_READS && Stalled(src.turns, src.pos, src.rest, emptyReads)
      modifies this`memory, this`data, this`size, this`disk, this`file
      modifies manager, src, disks, traffic
      ensures Others() == traffic.others
      ensures manager.Valid() && Charged() && (file.Some? ==> manager.storage)
      ensures status == 0 ==> Ready(maximum, threshold) && Contents() + src.rest == old(Contents() + src.rest)
      ensures status == 0 && done ==> src.rest == []
      ensures status == 0 ==> empties < MAX_EMPTY_READS && Stalled(src.turns, src.pos, src.rest, empties)
      ensures status == 0 && !done ==> size > old(size) || (size == old(size) && emptyReads < empties)
      ensures status in {0, BAD_REQUEST, TOO_LARGE, UNAVAILABLE} && (done ==> status == 0)
      ensures old(Roomy(traffic, maximum, threshold)) ==> Roomy(traffic, maximum, threshold)
      ensures old(disks.asked) <= disks.asked
      ensures status == TOO_LARGE ==>
                |old(Contents() + src.rest)| > maximum || src.turns(old(src.pos)).err == TooLarge
      ensures status == BAD_REQUEST ==>
                src.turns(old(src.pos)).err == Failed || Stalled(src.turns, src.pos, src.rest, MAX_EMPTY_READS)
      ensures old(Roomy(traffic, maximum, threshold)) && status == UNAVAILABLE ==> cancelled || Said(disks, old(disks.asked), false)
    {
      traffic.Yield(manager, id, memory, disk);
      ghost var pos, rest := src.pos, src.rest;
      done, status, empties := ReadChunk(src, cancelled, maximum, threshold, emptyReads, disks, traffic);
      if src.rest == rest && Empty(src.turns(pos), rest) {
        StalledMore(src.turns, pos, rest, emptyReads);
      }
    }

    /** Reads the whole request body. On success the buffer holds exactly the bytes of
        the stream, at most `maximum` of them; whatever happens, the books balance and
        nothing is spilled unless storage is configured. Every refusal has its cause. */
    method Consume(src: Source, hasBody: bool, open: bool, cancel: Oracle, maximum: int, threshold: int, disks: Oracle, traffic: Traffic)
      returns (status: int)
      requires Ready(maximum, threshold) && size == 0 && file.None? && Others() == traffic.others
      requires disks != cancel
      modifies this`memory, this`data, this`size, this`disk, this`file
      modifies manager, src, disks, cancel, traffic
      ensures Others() == traffic.others
      ensures manager.Valid() && Charged() && (file.Some? ==> manager.storage)
      ensures status in {0, BAD_REQUEST, TOO_LARGE, UNAVAILABLE}
      ensures status == 0 && hasBody ==> Stored() && Contents() == old(src.rest) && |Contents()| <= maximum && src.rest == []
      ensures status == 0 && !hasBody ==> Stored() && Contents() == []
      ensures !hasBody ==> status == 0
      ensures status == TOO_LARGE ==> |old(src.rest)| > maximum || exists i :: src.turns(i).err == TooLarge
      ensures status == BAD_REQUEST ==>
                (exists i :: src.turns(i).err == Failed) || Stalled(src.turns, src.pos, src.rest, MAX_EMPTY_READS)
      ensures status == UNAVAILABLE && open && old(Roomy(traffic, maximum, threshold)) ==>
                Said(cancel, old(cancel.asked), true) || Said(disks, old(disks.asked), false)
      ensures old(cancel.asked) <= cancel.asked && old(disks.asked) <= disks.asked
    {
      if !hasBody {
        return 0;
      }
      if !open {
        return UNAVAILABLE;
      }
      var emptyReads: nat := 0;
      while true
        invariant Ready(maximum, threshold) && Contents() + src.rest == old(src.rest) && Others() == traffic.others
        invariant emptyReads < MAX_EMPTY_READS && Stalled(src.turns, src.pos, src.rest, emptyReads)
        invariant old(Roomy(traffic, maximum, threshold)) ==> Roomy(traffic, maximum, threshold)
        invariant old(cancel.asked) <= cancel.asked && old(disks.asked) <= disks.asked
        decreases maximum - size, MAX_EMPTY_READS - emptyReads
      {
        var done: bool;
        done, status, emptyReads := Attempt(src, cancel, maximum, threshold, emptyReads, disks, traffic);
        if done || status != 0 {
          return;
        }
      }
    }
  }

  /** The first allocation: sized by the declared length, but never past one byte over
      the in-memory limit, and never over the whole budget. */
  function InitialSize(hasBody: bool, contentLength: int, limit: int, budget: int): int {
    if !hasBody then 0
    else Min(if contentLength > 0 then contentLength + 1 else INITIAL_BYTES, Min(limit + 1, budget))
  }

  /** The status a failed read is answered with. */
  function ReadStatus(cancelled: bool, err: ReadError): int {
    if err == Fine || err == Eof then 0
    else if err == TooLarge then TOO_LARGE
    else if cancelled then UNAVAILABLE
    else BAD_REQUEST
  }

  lemma OthersPut(m: map<nat, Reserved>, id: nat, r: Reserved)
    ensures m[id := r] - {id} == m - {id}
  {
  }

  lemma Regroup(before: seq<Byte>, chunk: seq<Byte>, rest: seq<Byte>)
    ensures (before + chunk) + rest == before + (chunk + rest)
  {
  }

  /** Reads the body, hands it on, and drops the buffer, also when cancelled. */
  method Forward(b: BodyBuffer, src: Source, hasBody: bool, maximum: nat, threshold: nat, open: bool, cancel: Oracle, disks: Oracle,
                 traffic: Traffic)
    returns (status: int, forwarded: Option<seq<Byte>>)
    requires b.Ready(maximum, threshold) && b.size == 0 && b.file.None? && b.refs == 1 && disks != cancel
    requires b.Others() == traffic.others
    modifies b, b.manager, src, cancel, disks, traffic
    ensures b.manager.Valid() && b.manager.live == traffic.others
    ensures status == 0 <==> forwarded.Some?
    ensures forwarded.Some? ==> forwarded.value == (if hasBody then old(src.rest) else []) && |forwarded.value| <= maximum
    ensures status in {0, BAD_REQUEST, TOO_LARGE, UNAVAILABLE}
    ensures status == TOO_LARGE ==> |old(src.rest)| > maximum || exists i :: src.turns(i).err == TooLarge
    ensures status == BAD_REQUEST ==> (exists i :: src.turns(i).err == Failed) || Stalled(src.turns, src.pos, src.rest, MAX_EMPTY_READS)
    ensures status == UNAVAILABLE && (hasBody ==> open && old(b.Roomy(traffic, maximum, threshold))) ==>
              Said(cancel, old(cancel.asked), true) || Said(disks, old(disks.asked), false)
  {
    status := ReadIn(b, src, hasBody, maximum, threshold, open, cancel, disks, traffic);
    forwarded := if status == 0 then Some(b.Contents()) else None;
    b.Leave(traffic);
  }

  method ReadIn(b: BodyBuffer, src: Source, hasBody: bool, maximum: nat, threshold: nat, open: bool, cancel: Oracle, disks: Oracle,
                traffic: Traffic)
    returns (status: int)
    requires b.Ready(maximum, threshold) && b.size == 0 && b.file.None? && disks != cancel
    requires b.Others() == traffic.others
    modifies b`memory, b`data, b`size, b`disk, b`file, b.manager, src, cancel, disks, traffic
    ensures b.manager.Valid() && b.Charged() && b.Others() == traffic.others
    ensures status == 0 ==> b.Stored() && b.Contents() == (if hasBody then old(src.rest) else []) && |b.Contents()| <= maximum
    ensures status in {0, BAD_REQUEST, TOO_LARGE, UNAVAILABLE}
    ensures status == TOO_LARGE ==> |old(src.rest)| > maximum || exists i :: src.turns(i).err == TooLarge
    ensures status == BAD_REQUEST ==>
              (exists i :: src.turns(i).err == Failed) || Stalled(src.turns, src.pos, src.rest, MAX_EMPTY_READS)
    ensures status == UNAVAILABLE && (hasBody ==> open && old(b.Roomy(traffic, maximum, threshold))) ==>
              Said(cancel, old(cancel.asked), true) || Said(disks, old(disks.asked), false)
  {
    var cancelled := cancel.Ask();
    if cancelled {
      return UNAVAILABLE;
    }
    status := b.Consume(src, hasBody, open, cancel, maximum, threshold, disks, traffic);
    cancelled := cancel.Ask();
    if status == 0 && cancelled {
      status := UNAVAILABLE;
    }
  }

  /** The bytes of a body that stay in memory. */
  function MemoryLimit(m: Manager, maxBytes: nat, thresholdBytes: nat): nat {
    if m.storage then Min(maxBytes, thresholdBytes) else maxBytes
  }

  /** The others always leave enough for one more body of this size. */
  ghost predicate Provided(m: Manager, traffic: Traffic, maxBytes: nat, thresholdBytes: nat) {
    traffic.Ample(m) && 2 * (MemoryLimit(m, maxBytes, thresholdBytes) + 1) <= traffic.spareMemory && maxBytes <= traffic.spareDisk
  }

  /** Takes a buffer for the request, or has a reason not to. */
  method TakeBuffer(m: Manager, hasBody: bool, contentLength: int, maxBytes: nat, thresholdBytes: nat, ghost traffic: Traffic)
    returns (b: BodyBuffer?)
    requires m.Valid() && m.live == traffic.others && contentLength <= maxBytes
    modifies m
    ensures b == null ==> unchanged(m)
    ensures b == null ==>
              || m.closed || m.active >= m.maxInFlight
              || !Provided(m, traffic, maxBytes, thresholdBytes) || !traffic.Spared(m, 0, 0)
    ensures b != null ==> fresh(b) && b.manager == m && b.size == 0 && b.file.None? && b.refs == 1 && b.Others() == traffic.others
    ensures b != null ==> b.Ready(maxBytes, MemoryLimit(m, maxBytes, thresholdBytes))
    ensures b != null && hasBody && Provided(m, traffic, maxBytes, thresholdBytes) && old(traffic.Spared(m, 0, 0)) ==>
              b.Roomy(traffic, maxBytes, MemoryLimit(m, maxBytes, thresholdBytes))
  {
    b := m.Acquire(InitialSize(hasBody, contentLength, MemoryLimit(m, maxBytes, thresholdBytes), m.memoryBudget));
    if b != null {
      assert b.Others() == traffic.others;
    }
  }

  /** One buffered request, end to end. The next handler sees exactly the client's
      bytes, at most `maxBytes` of them, or is not called; and afterwards everything
      reserved on the way has been returned. */
  method Serve(m: Manager, src: Source, hasBody: bool, contentLength: int, maxBytes: nat, thresholdBytes: nat,
               open: bool, cancel: Oracle, disks: Oracle, traffic: Traffic)
    returns (status: int, forwarded: Option<seq<Byte>>)
    requires m.Valid() && disks != cancel && m.live == traffic.others
    modifies m, src, cancel, disks, traffic
    ensures m.Valid() && m.live == traffic.others
    ensures status == 0 <==> forwarded.Some?
    ensures forwarded.Some? ==> forwarded.value == (if hasBody then old(src.rest) else []) && |forwarded.value| <= maxBytes
    ensures contentLength > maxBytes ==> status == TOO_LARGE && src.rest == old(src.rest)
    ensures status in {0, BAD_REQUEST, TOO_LARGE, UNAVAILABLE}
    ensures status == TOO_LARGE ==>
              contentLength > maxBytes || |old(src.rest)| > maxBytes || exists i :: src.turns(i).err == TooLarge
    ensures status == BAD_REQUEST ==> (exists i :: src.turns(i).err == Failed) || Stalled(src.turns, src.pos, src.rest, MAX_EMPTY_READS)
    ensures status == UNAVAILABLE ==>
              || old(m.closed) || old(m.active) >= m.maxInFlight || (hasBody && !open)
              || !Provided(m, traffic, maxBytes, thresholdBytes) || !old(traffic.Spared(m, 0, 0))
              || Said(cancel, old(cancel.asked), true) || Said(disks, old(disks.asked), false)
  {
    if contentLength > maxBytes {
      return TOO_LARGE, None;
    }
    var b := TakeBuffer(m, hasBody, contentLength, maxBytes, thresholdBytes, traffic);
    if b == null {
      return UNAVAILABLE, None;
    }
    var limit := MemoryLimit(m, maxBytes, thresholdBytes);
    status, forwarded := Forward(b, src, hasBody, maxBytes, limit, open, cancel, disks, traffic);
  }
}
