/** The transport's request bodies and their registry as they live on the heap: one
    method per critical section, each proved against the protocol's step. */
module RetryBodies {
  import opened Basics
  import opened RetryTransport

  class TransportBody {
    /** The RoundTrip this body was wrapped for. */
    const trip: nat
    var reader: bool
    var active: nat
    var closed: bool
    var closeDone: bool
    var prev: TransportBody?
    var next: TransportBody?
    var linked: bool
    /** How far Close has come. */
    ghost var stage: Stage

    ghost predicate Valid()
      reads this`closed, this`closeDone, this`stage
    {
      closed == (stage != Open) && closeDone == (stage == Closed)
    }

    ghost function View(): Body
      reads this
    {
      Body(trip, active, stage, reader, true, linked)
    }

    constructor (trip: nat)
      ensures this.trip == trip && Valid() && reader && active == 0 && stage == Open && !linked && prev == null && next == null
    {
      this.trip := trip;
      reader, active, closed, closeDone := true, 0, false, false;
      prev, next, linked, stage := null, null, false, Open;
    }

    /** Takes the lease back if this was the last use. */
    method RetireLocked() returns (retired: bool)
      requires Valid()
      modifies this`reader
      ensures Valid() && View() == Retired(old(View()))
      ensures retired == (old(reader) && closeDone && active == 0) && reader == (old(reader) && !retired)
    {
      if !closeDone || active != 0 || !reader {
        return false;
      }
      reader := false;
      return true;
    }

    /** Whether a read may go ahead. */
    method BeginRead() returns (ok: bool)
      requires Valid()
      modifies this`active
      ensures Valid() && View() == ReadStarted(old(View()))
      ensures ok == !closed && active == if ok then old(active) + 1 else old(active)
    {
      if closed {
        return false;
      }
      active := active + 1;
      return true;
    }

    method FinishRead() returns (retired: bool)
      requires Valid() && 0 < active
      modifies this`active, this`reader
      ensures Valid() && View() == ReadFinished(old(View())) && active == old(active) - 1
      ensures retired == (old(reader) && closeDone && active == 0) && reader == (old(reader) && !retired)
    {
      active := active - 1;
      retired := RetireLocked();
    }

    /** Whether this caller is the one to close the reader. */
    method BeginClose() returns (first: bool)
      requires Valid()
      modifies this`closed, this`stage
      ensures Valid() && View() == CloseStarted(old(View()))
      ensures closed && first == !old(closed)
    {
      if closed {
        return false;
      }
      closed, stage := true, Closing;
      return true;
    }

    method FinishClose() returns (retired: bool)
      requires Valid() && stage == Unlinked
      modifies this`closeDone, this`stage, this`reader
      ensures Valid() && View() == CloseFinished(old(View())) && closeDone
      ensures retired == (old(reader) && active == 0) && reader == (old(reader) && !retired)
    {
      closeDone, stage := true, Closed;
      retired := RetireLocked();
    }
  }

  class TransportOwner {
    var head: TransportBody?
    ghost var list: seq<TransportBody>
    /** Every body ever wrapped. */
    ghost var bodies: set<TransportBody>

    /** A well-formed doubly linked list of exactly the linked bodies. */
    ghost predicate Linked(s: seq<TransportBody>)
      reads this`head, this`bodies, bodies`prev, bodies`next, bodies`linked
    {
      && (forall b :: b in s ==> b in bodies)
      && (forall b :: b in bodies ==> (b.linked <==> b in s))
      && (forall b :: b in bodies && b !in s ==> b.prev == null && b.next == null)
      && head == (if s == [] then null else s[0])
      && (s != [] ==> s[0].prev == null && s[|s| - 1].next == null)
      && (forall i {:trigger s[i].prev} :: 1 <= i < |s| ==> s[i].prev == s[i - 1])
      && (forall i {:trigger s[i].next} :: 0 <= i < |s| - 1 ==> s[i].next == s[i + 1])
    }

    ghost predicate Valid()
      reads this, bodies
    {
      Linked(list) && Distinct(list) && Staged()
    }

    ghost predicate Staged()
      reads this`bodies, bodies`closed, bodies`closeDone, bodies`stage
    {
      forall b :: b in bodies ==> b.Valid()
    }

    constructor ()
      ensures Valid() && list == [] && bodies == {}
    {
      head, list, bodies := null, [], {};
    }

    /** Registers a body at the front. */
    method Link(b: TransportBody)
      requires Valid() && b !in bodies && b.Valid() && !b.linked && b.prev == null && b.next == null
      modifies this, bodies`prev, b`next, b`linked
      ensures Valid() && list == [b] + old(list) && bodies == old(bodies) + {b} && b.linked
    {
      DistinctIndices(list);
      IndicesDistinct([b] + list);
      Prepend(b, list);
      list := [b] + list;
    }

    method Prepend(b: TransportBody, ghost s: seq<TransportBody>)
      requires Linked(s) && b !in bodies && b.prev == null && b.next == null
      modifies this`head, this`bodies, bodies`prev, b`next, b`linked
      ensures Linked([b] + s) && bodies == old(bodies) + {b} && b.linked
    {
      b.next := head;
      if head != null {
        head.prev := b;
      }
      head := b;
      b.linked := true;
      bodies := bodies + {b};
    }

    method Unlink(b: TransportBody, ghost s: seq<TransportBody>, ghost k: nat)
      requires Linked(s) && k < |s| && s[k] == b && Apart(s, k - 1) && Apart(s, k) && Apart(s, k + 1)
      modifies this`head, bodies`prev, bodies`next, b`linked
      ensures Linked(s[..k] + s[k + 1..])
      ensures !b.linked && b.prev == null && b.next == null
    {
      assert s[k].prev == if k == 0 then null else s[k - 1];
      assert s[k].next == if k == |s| - 1 then null else s[k + 1];
      if b.prev == null {
        head := b.next;
      } else {
        b.prev.next := b.next;
      }
      if b.next != null {
        b.next.prev := b.prev;
      }
      b.prev, b.next, b.linked := null, null, false;
    }

    /** Takes a body out of the registry; a second time changes nothing. */
    method RemoveLocked(b: TransportBody)
      requires Valid() && b in bodies
      modifies this`head, this`list, bodies`prev, bodies`next, b`linked
      ensures Valid() && list == Without(old(list), b) && !b.linked
    {
      WithoutDistinct(list, b);
      if b.linked {
        UnlinkListed(b);
      } else {
        WithoutAbsent(list, b);
      }
    }

    method UnlinkListed(b: TransportBody)
      requires Linked(list) && Distinct(list) && b in list
      modifies this`head, this`list, bodies`prev, bodies`next, b`linked
      ensures Linked(list) && list == Without(old(list), b) && !b.linked
    {
      ghost var k :| 0 <= k < |list| && list[k] == b;
      WithoutAt(list, k);
      DistinctApart(list, k - 1);
      DistinctApart(list, k);
      DistinctApart(list, k + 1);
      Unlink(b, list, k);
      list := Without(list, b);
    }

    /** Close: the first caller takes the body out of the registry and closes the
        reader; any other caller changes nothing. */
    method Close(b: TransportBody)
      requires Valid() && b in bodies
      modifies this`head, this`list, bodies`prev, bodies`next, b
      ensures Valid() && b.closed
      ensures list == if old(b.closed) then old(list) else Without(old(list), b)
    {
      var first := b.BeginClose();
      if first {
        CloseReader(b);
      }
    }

    method CloseReader(b: TransportBody)
      requires Valid() && b in bodies && b.stage == Closing
      modifies this`head, this`list, bodies`prev, bodies`next, b
      ensures Valid() && b.stage == Closed && list == Without(old(list), b)
    {
      RemoveLocked(b);
      b.stage := Unlinked;
      var _ := b.FinishClose();
    }

    method PopHead() returns (b: TransportBody)
      requires Valid() && head != null
      modifies this`head, this`list, bodies`prev, bodies`next, head`linked
      ensures Valid() && b == old(head) && list == old(list)[1..] && b in bodies && b !in list
    {
      b := head;
      WithoutAt(list, 0);
      RemoveLocked(b);
    }

    method CloseHead()
      requires Valid() && head != null
      modifies this`head, this`list, bodies
      ensures Valid() && list == old(list)[1..] && old(head).closed
      ensures forall b :: b in bodies && b != old(head) ==> b.closed == old(b.closed)
    {
      var b := PopHead();
      WithoutAbsent(list, b);
      Close(b);
    }

    /** Panic cleanup: takes bodies out one at a time and closes each, until none is left. */
    method CloseAll()
      requires Valid()
      modifies this`head, this`list, bodies
      ensures Valid() && list == []
      ensures forall b :: b in old(list) ==> b.closed
    {
      ghost var n := 0;
      while head != null
        invariant Valid() && n <= |old(list)| && list == old(list)[n..]
        invariant forall i :: 0 <= i < n ==> old(list)[i] in bodies && old(list)[i].closed
        decreases |list|
      {
        CloseHead();
        n := n + 1;
      }
    }
  }

  lemma {:induction false} WithoutAbsent<T>(list: seq<T>, x: T)
    requires x !in list
    ensures Without(list, x) == list
  {
    if list != [] {
      WithoutAbsent(list[1..], x);
    }
  }

  lemma {:induction false} WithoutAt<T>(list: seq<T>, k: nat)
    requires k < |list| && Distinct(list)
    ensures Without(list, list[k]) == list[..k] + list[k + 1..]
    decreases k
  {
    DistinctIndices(list);
    IndicesDistinct(list[1..]);
    if k == 0 {
      WithoutAbsent(list[1..], list[0]);
    } else {
      WithoutAt(list[1..], k - 1);
      assert list[..k] + list[k + 1..] == [list[0]] + (list[1..][..k - 1] + list[1..][k..]);
    }
  }
}
