/**
 * The timer object: a fixed pool of entries allocated at creation, with a
 * singly-linked list kept in expiration order threaded through the same
 * array. The ghost sequence `pending` is the list a walk from `head` visits;
 * `Valid()` ties it to the array.
 */
module XrTimer {
  import opened Types
  import opened OrderedList
  import opened Arena

  const UsecPerSec: nat := 1000000
  const NsecPerSec: nat := 1000000000

  /** Whole seconds and the remainder in `unit`ths of a second. */
  function Split(total: nat, unit: nat): (r: (nat, nat))
    requires 0 < unit
    ensures r.0 * unit + r.1 == total && r.1 < unit
  {
    (total / unit, total % unit)
  }

  /** What the next-timer queries return besides the id. */
  datatype Expiry = Expiry(sec: nat, frac: nat, handler: Option<Handler>, data: Context)

  class TimerObject {
    /** The identifier tag: set at creation, cleared by destroy. */
    var valid: bool
    const qty: nat
    const singleThread: bool
    const threadIdCheck: bool
    /** Slot index of the first entry of the list, or Null. */
    var head: int
    const entries: array<Entry>
    /** The timers the list visits from `head`, in order. */
    ghost var pending: seq<Timer>

    /** The list is well formed and sorted, and free slots have no successor. */
    ghost predicate Linked()
      reads this`head, this`pending, entries
    {
      entries.Length == qty && qty <= MaxInt32 &&
      Chain(entries[..], head, pending) && Sorted(pending) && Detached(entries[..])
    }

    /** Between operations, besides: every slot in use is linked. */
    ghost predicate Valid()
      reads this`head, this`pending, entries
    {
      Linked() && Complete(entries[..], pending)
    }

    /**
     * Stores the capacity and mode, empties the list, initialises every slot
     * and then zero-fills the whole array, which overwrites the ids the loop
     * set: a fresh slot has id 0.
     */
    constructor (qty: uint32, singleThread: bool, threadIdCheck: bool)
      requires qty <= MaxInt32
      ensures Valid() && valid && fresh(entries)
      ensures this.qty == qty && this.singleThread == singleThread
      ensures this.threadIdCheck == threadIdCheck
      ensures head == Null && pending == []
      ensures forall i :: 0 <= i < qty ==> entries[i] == Zeroed
    {
      valid := true;
      this.qty := qty;
      this.singleThread := singleThread;
      this.threadIdCheck := threadIdCheck;
      head := Null;
      entries := new Entry[qty];
      pending := [];
      new;
      for index := 0 to qty
        modifies entries
        invariant forall i :: 0 <= i < index ==>
          entries[i].next == Null && entries[i].timerId == TimerIdInvalid && !entries[i].inUse
      {
        entries[index] := entries[index].(next := Null, timerId := TimerIdInvalid, inUse := false);
      }
      forall i | 0 <= i < qty {
        entries[i] := Zeroed;
      }
    }

    /** Creation, with the allocator's answer as an input: no memory, no object. */
    static method Create(qty: uint32, singleThread: bool, threadIdCheck: bool, memoryAvailable: bool)
      returns (obj: TimerObject?)
      requires qty <= MaxInt32
      ensures obj == null <==> !memoryAvailable
      ensures obj != null ==> fresh(obj) && fresh(obj.entries) && obj.Valid() && obj.valid
      ensures obj != null ==> obj.qty == qty && obj.head == Null && obj.pending == []
      ensures obj != null ==> forall i :: 0 <= i < qty ==> obj.entries[i] == Zeroed
    {
      if !memoryAvailable {
        return null;
      }
      obj := new TimerObject(qty, singleThread, threadIdCheck);
    }

    /** Clears the identifier tag; every later operation is rejected. */
    method Destroy()
      modifies this`valid
      ensures !valid
    {
      if valid {
        valid := false;
      }
    }

    /** The scan for the lowest-index slot that is not in use. */
    method FirstFree() returns (id: int32)
      requires entries.Length == qty && qty <= MaxInt32
      ensures id == TimerIdInvalid <==> forall i :: 0 <= i < qty ==> entries[i].inUse
      ensures id != TimerIdInvalid ==>
        0 <= id < qty && !entries[id].inUse && forall j :: 0 <= j < id ==> entries[j].inUse
    {
      id := TimerIdInvalid;
      for index := 0 to qty
        invariant id == TimerIdInvalid
        invariant forall j :: 0 <= j < index ==> entries[j].inUse
      {
        if !entries[index].inUse {
          id := index;
          break;
        }
      }
    }

    /**
     * Allocates the lowest free slot, fills it in and links it in expiration
     * order. Rejected without any change for a NULL handler, an invalid
     * object or a full pool.
     */
    method Insert(timeout: Timestamp, handler: Option<Handler>, data: Context) returns (id: int32)
      requires Valid()
      modifies this`head, this`pending, entries
      ensures Valid()
      ensures id == TimerIdInvalid <==> handler == None || !valid || old(|pending|) == qty
      ensures id == TimerIdInvalid ==>
        head == old(head) && pending == old(pending) && entries[..] == old(entries[..])
      ensures id != TimerIdInvalid ==>
        0 <= id < qty && !old(entries[id].inUse) && forall j :: 0 <= j < id ==> old(entries[j].inUse)
      ensures id != TimerIdInvalid ==>
        pending == OrderedList.Insert(old(pending), Timer(id, timeout)) && Ids(pending) == old(Ids(pending)) + {id as int}
      ensures id != TimerIdInvalid ==> |pending| == old(|pending|) + 1
      ensures id != TimerIdInvalid ==>
        entries[id] == Entry(entries[id].next, true, id, timeout, handler, data)
      ensures id != TimerIdInvalid ==>
        forall i :: 0 <= i < qty && i != id ==> entries[i] == old(entries[i]).(next := entries[i].next)
    {
      if handler == None {
        return TimerIdInvalid;
      }
      if !valid {
        return TimerIdInvalid;
      }
      FullIffAllInUse(entries[..], head, pending);
      id := FirstFree();
      if id == TimerIdInvalid {
        return;
      }
      Fill(id, entries[id].(next := Null, inUse := true, timerId := id, timeout := timeout,
                            handler := handler, data := data));
    }

    /** Stores the new record of a free slot and links it in expiration order. */
    method Fill(id: int32, e: Entry)
      requires Valid() && 0 <= id < qty && !entries[id].inUse
      requires e.inUse && e.timerId == id
      modifies this`head, this`pending, entries
      ensures Valid()
      ensures pending == OrderedList.Insert(old(pending), Timer(id, e.timeout))
      ensures Ids(pending) == old(Ids(pending)) + {id as int} && |pending| == old(|pending|) + 1
      ensures entries[id] == e.(next := entries[id].next)
      ensures forall i :: 0 <= i < qty && i != id ==> entries[i] == old(entries[i]).(next := entries[i].next)
    {
      FreeNotLinked(entries[..], head, pending, id);
      ghost var p, es0 := pending, entries[..];
      Stored(es0, head, p, id, e);
      entries[id] := e;
      ListAdd(id);
      Allocated(es0, entries[..], p, pending, id, e);
    }

    /**
     * Repositions a timer for a new expiration, keeping its handler and
     * context. Rejected without any change on an invalid object or an id
     * outside the pool, negative ids included.
     */
    method Update(id: int32, timeout: Timestamp) returns (ok: bool)
      requires Valid()
      requires valid && 0 <= id < qty ==> entries[id].inUse
      modifies this`head, this`pending, entries
      ensures Valid()
      ensures ok <==> valid && 0 <= id < qty
      ensures !ok ==> head == old(head) && pending == old(pending) && entries[..] == old(entries[..])
      ensures ok ==> pending == OrderedList.Insert(RemoveFirst(old(pending), id), Timer(id, timeout))
      ensures ok ==> Ids(pending) == old(Ids(pending))
      ensures ok ==> entries[id] == old(entries[id]).(next := entries[id].next, timeout := timeout)
      ensures ok ==>
        forall i :: 0 <= i < qty && i != id ==> entries[i] == old(entries[i]).(next := entries[i].next)
    {
      if !valid {
        return false;
      }
      if AsUint32(id) >= qty {
        return false;
      }
      Reschedule(id, entries[id].(timeout := timeout));
      ok := true;
    }

    /**
     * As `Update`, and also replaces the handler and context; a NULL handler
     * is rejected first.
     */
    method UpdateHandler(id: int32, timeout: Timestamp, handler: Option<Handler>, data: Context)
      returns (ok: bool)
      requires Valid()
      requires handler != None && valid && 0 <= id < qty ==> entries[id].inUse
      modifies this`head, this`pending, entries
      ensures Valid()
      ensures ok <==> handler != None && valid && 0 <= id < qty
      ensures !ok ==> head == old(head) && pending == old(pending) && entries[..] == old(entries[..])
      ensures ok ==> pending == OrderedList.Insert(RemoveFirst(old(pending), id), Timer(id, timeout))
      ensures ok ==> Ids(pending) == old(Ids(pending))
      ensures ok ==> entries[id] == old(entries[id]).(next := entries[id].next, timeout := timeout,
                                                     handler := handler, data := data)
      ensures ok ==>
        forall i :: 0 <= i < qty && i != id ==> entries[i] == old(entries[i]).(next := entries[i].next)
    {
      if handler == None {
        return false;
      }
      if !valid {
        return false;
      }
      if AsUint32(id) >= qty {
        return false;
      }
      Reschedule(id, entries[id].(timeout := timeout, handler := handler, data := data));
      ok := true;
    }

    /**
     * The common part of both updates: unlink the timer, store the timeout,
     * handler and context of `e` in its slot and link it again in expiration
     * order.
     */
    method Reschedule(id: int32, e: Entry)
      requires Valid() && 0 <= id < qty && entries[id].inUse
      requires e.inUse && e.timerId == id
      modifies this`head, this`pending, entries
      ensures Valid()
      ensures pending == OrderedList.Insert(RemoveFirst(old(pending), id), Timer(id, e.timeout))
      ensures Ids(pending) == old(Ids(pending))
      ensures entries[id] == e.(next := entries[id].next)
      ensures forall i :: 0 <= i < qty && i != id ==> entries[i] == old(entries[i]).(next := entries[i].next)
    {
      ghost var p, es0 := pending, entries[..];
      assert id as int in Ids(p);
      ListRemove(id);
      RemoveIds(p, id);
      ghost var es1 := entries[..];
      var stored := entries[id].(timeout := e.timeout, handler := e.handler, data := e.data);
      assert stored == e.(next := stored.next);
      ChainFrame(entries[..], head, pending, id, stored);
      entries[id] := stored;
      ListAdd(id);
      Reposition(p, id, e.timeout);
      RelinkedAround(es0, es1, entries[..], id, stored);
      CompleteKept(es0, entries[..], p, pending);
    }

    /**
     * Unlinks the timer and frees its slot, resetting its id to -1. Succeeds
     * for any id inside the pool, linked or not; rejected without any change
     * on an invalid object or an id outside the pool.
     */
    method Remove(id: int32) returns (ok: bool)
      requires Valid()
      modifies this`head, this`pending, entries
      ensures Valid()
      ensures ok <==> valid && 0 <= id < qty
      ensures !ok ==> head == old(head) && pending == old(pending) && entries[..] == old(entries[..])
      ensures ok ==> pending == RemoveFirst(old(pending), id) && Ids(pending) == old(Ids(pending)) - {id as int}
      ensures ok && id as int !in old(Ids(pending)) ==> pending == old(pending) && head == old(head)
      ensures ok ==> entries[id] == old(entries[id]).(next := Null, inUse := false, timerId := TimerIdInvalid)
      ensures ok ==>
        forall i :: 0 <= i < qty && i != id ==> entries[i] == old(entries[i]).(next := entries[i].next)
    {
      if !valid {
        return false;
      }
      if AsUint32(id) >= qty {
        return false;
      }
      ghost var p, es0 := pending, entries[..];
      ListRemove(id);
      RemoveIds(p, id);
      if id as int !in Ids(p) {
        RemoveAbsent(p, id);
        assert !entries[id].inUse;
      }
      Freed(es0, entries[..], head, p, pending, id);
      entries[id] := entries[id].(inUse := false, timerId := TimerIdInvalid);
      ok := true;
    }

    /**
     * The earliest timer: its id, handler and context, and the time left
     * until it expires as seconds and microseconds. `untilUs` is the
     * timestamp collaborator's remaining-time answer. Changes nothing;
     * -1 when an output is missing, the object is invalid or nothing is
     * linked.
     */
    method NextGet(tvGiven: bool, dataGiven: bool, untilUs: Timestamp -> nat)
      returns (id: int32, next: Option<Expiry>)
      requires Linked()
      ensures id == TimerIdInvalid <==> !tvGiven || !dataGiven || !valid || pending == []
      ensures next.None? <==> id == TimerIdInvalid
      ensures id != TimerIdInvalid ==> pending != [] && id == pending[0].id == head
      ensures id != TimerIdInvalid ==> forall k :: 0 <= k < |pending| ==> entries[id].timeout <= pending[k].timeout
      ensures next.Some? ==> 0 <= id < qty
      ensures next.Some? ==> next.value.handler == entries[id].handler && next.value.data == entries[id].data
      ensures next.Some? ==>
        next.value.sec * UsecPerSec + next.value.frac == untilUs(entries[id].timeout) && next.value.frac < UsecPerSec
    {
      if !tvGiven || !dataGiven {
        return TimerIdInvalid, None;
      }
      if !valid {
        return TimerIdInvalid, None;
      }
      if head == Null {
        return TimerIdInvalid, None;
      }
      var entry := entries[head];
      var usecs := untilUs(entry.timeout);
      var (sec, usec) := Split(usecs, UsecPerSec);
      id := entry.timerId;
      next := Some(Expiry(sec, usec, entry.handler, entry.data));
    }

    /** As `NextGet`, with the remaining time as seconds and nanoseconds. */
    method NextGetTs(tsGiven: bool, dataGiven: bool, untilNs: Timestamp -> nat)
      returns (id: int32, next: Option<Expiry>)
      requires Linked()
      ensures id == TimerIdInvalid <==> !tsGiven || !dataGiven || !valid || pending == []
      ensures next.None? <==> id == TimerIdInvalid
      ensures id != TimerIdInvalid ==> pending != [] && id == pending[0].id == head
      ensures id != TimerIdInvalid ==> forall k :: 0 <= k < |pending| ==> entries[id].timeout <= pending[k].timeout
      ensures next.Some? ==> 0 <= id < qty
      ensures next.Some? ==> next.value.handler == entries[id].handler && next.value.data == entries[id].data
      ensures next.Some? ==>
        next.value.sec * NsecPerSec + next.value.frac == untilNs(entries[id].timeout) && next.value.frac < NsecPerSec
    {
      if !tsGiven || !dataGiven {
        return TimerIdInvalid, None;
      }
      if !valid {
        return TimerIdInvalid, None;
      }
      if head == Null {
        return TimerIdInvalid, None;
      }
      var entry := entries[head];
      var nsecs := untilNs(entry.timeout);
      var (sec, nsec) := Split(nsecs, NsecPerSec);
      id := entry.timerId;
      next := Some(Expiry(sec, nsec, entry.handler, entry.data));
    }

    /**
     * Links slot `id` in front of the first entry expiring strictly later
     * than it, or at the tail.
     */
    method ListAdd(id: int32)
      requires Linked() && 0 <= id < qty && id as int !in Ids(pending)
      requires entries[id].inUse && entries[id].timerId == id
      modifies this`head, this`pending, entries
      ensures Linked()
      ensures pending == OrderedList.Insert(old(pending), Timer(id, entries[id].timeout))
      ensures Ids(pending) == old(Ids(pending)) + {id as int} && |pending| == old(|pending|) + 1
      ensures SameButNext(old(entries[..]), entries[..])
    {
      ghost var p, es := pending, entries[..];
      ghost var x := Timer(id, entries[id].timeout);
      ghost var pos := 0;
      var next := head;
      if next == Null {
        head := id;
        entries[id] := entries[id].(next := Null);
      } else {
        var prev := Null;
        while next != Null
          invariant 0 <= pos <= |p| && next == At(p, pos)
          invariant prev == if pos == 0 then Null else p[pos - 1].id
          invariant forall k :: 0 <= k < pos ==> p[k].timeout <= x.timeout
          invariant entries[..] == es && head == old(head)
          decreases |p| - pos
        {
          if entries[id].timeout < entries[next].timeout {
            entries[id] := entries[id].(next := next);
            if prev != Null {
              entries[prev] := entries[prev].(next := id);
            } else {
              head := id;
            }
            break;
          }
          prev := next;
          next := entries[next].next;
          pos := pos + 1;
        }
        if next == Null {
          entries[prev] := entries[prev].(next := id);
          entries[id] := entries[id].(next := Null);
          RelinkSwap(es, prev, id, id as int, Null);
        }
      }
      LinkAt(es, old(head), p, pos, x, entries[..], head);
      InsertAt(p, x, pos);
      InsertSorted(p, x);
      InsertIds(p, x);
      pending := p[..pos] + [x] + p[pos..];
    }

    /** Unlinks the first entry whose id matches; nothing changes when none does. */
    method ListRemove(id: int32)
      requires Linked()
      modifies this`head, this`pending, entries
      ensures Linked()
      ensures pending == RemoveFirst(old(pending), id)
      ensures SameButNext(old(entries[..]), entries[..])
      ensures id as int in old(Ids(pending)) ==> 0 <= id < qty && entries[id].next == Null
      ensures id as int !in old(Ids(pending)) ==> head == old(head) && entries[..] == old(entries[..])
    {
      ghost var p, es := pending, entries[..];
      ghost var k := 0;
      var next := head;
      var prev := Null;
      while next != Null
        invariant 0 <= k <= |p| && next == At(p, k)
        invariant prev == if k == 0 then Null else p[k - 1].id
        invariant forall j :: 0 <= j < k ==> p[j].id != id
        invariant entries[..] == es && head == old(head)
        decreases |p| - k
      {
        if entries[next].timerId == id {
          if prev == Null {
            head := entries[next].next;
          } else {
            entries[prev] := entries[prev].(next := entries[next].next);
          }
          entries[next] := entries[next].(next := Null);
          break;
        }
        prev := next;
        next := entries[next].next;
        k := k + 1;
      }
      RemoveSorted(p, id);
      if k < |p| {
        assert p[k].id == id as int && id as int in Ids(p);
        RemoveMatch(p, k);
        UnlinkAt(es, old(head), p, k, entries[..], head);
        pending := p[..k] + p[k + 1..];
      } else {
        RemoveNone(p, id);
        assert id as int !in Ids(p);
      }
      assert pending == RemoveFirst(p, id);
    }

    /**
     * The removal walk exactly as the source has it: `prev` starts NULL and
     * is never advanced, so the head is always rewritten to the match's
     * successor and every entry before the match is dropped from the list
     * while still in use.
     */
    method ListRemoveAsWritten(id: int32)
      requires Linked()
      modifies this`head, this`pending, entries
      ensures Linked()
      ensures pending == RemoveAsWritten(old(pending), id)
      ensures SameButNext(old(entries[..]), entries[..])
    {
      ghost var p, es := pending, entries[..];
      ghost var k := 0;
      var next := head;
      var prev := Null;
      while next != Null
        invariant 0 <= k <= |p| && next == At(p, k)
        invariant forall j :: 0 <= j < k ==> p[j].id != id
        invariant entries[..] == es && head == old(head)
        decreases |p| - k
      {
        if entries[next].timerId == id {
          if prev == Null {
            head := entries[next].next;
          } else {
            // prev->next = next->next: unreachable, prev is still NULL
            assert false;
          }
          entries[next] := entries[next].(next := Null);
          break;
        }
        next := entries[next].next;
        k := k + 1;
      }
      IndexOfAt(p, id, k);
      if k < |p| {
        TruncateAt(es, old(head), p, k, entries[..], head);
        pending := p[k + 1..];
      }
    }
  }
}
