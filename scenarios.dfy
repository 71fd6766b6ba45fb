/**
 * Client call sequences over one timer object, each stating what the caller
 * observes through the public operations: which ids come back, and which
 * timer the next-timer query reports.
 */
module Scenarios {
  import opened Types
  import opened OrderedList
  import opened XrTimer

  /** The remaining-time answer does not matter for which timer comes first. */
  function NoTimeLeft(t: Timestamp): nat { 0 }

  /** Capacity 2: the earlier timer is reported first, then the other once it is removed. */
  method EarliestFirst() returns (a: int32, b: int32, first: int32, second: int32)
    ensures a == 0 && b == 1
    ensures first == 1 && second == 0
  {
    var obj := new TimerObject(2, false, false);
    a := obj.Insert(100, Some(7), 0);
    b := obj.Insert(50, Some(7), 0);
    var next;
    first, next := obj.NextGet(true, true, NoTimeLeft);
    var ok := obj.Remove(first);
    second, next := obj.NextGet(true, true, NoTimeLeft);
  }

  /** Capacity 1: a second timer is refused, and the slot is reused once freed. */
  method ExhaustAndReuse() returns (a: int32, refused: int32, reused: int32)
    ensures a == 0 && refused == TimerIdInvalid && reused == 0
  {
    var obj := new TimerObject(1, false, false);
    a := obj.Insert(10, Some(7), 0);
    refused := obj.Insert(20, Some(7), 0);
    var ok := obj.Remove(a);
    reused := obj.Insert(20, Some(7), 0);
  }

  /** A fresh object of capacity 2 holding ids 0 and 1, inserted in expiration order. */
  method TwoTimers(t0: Timestamp, t1: Timestamp) returns (obj: TimerObject)
    requires t0 <= t1
    ensures fresh(obj) && fresh(obj.entries) && obj.Valid() && obj.valid && obj.qty == 2
    ensures obj.pending == [Timer(0, t0), Timer(1, t1)]
    ensures obj.entries[0].inUse && obj.entries[1].inUse
  {
    obj := new TimerObject(2, false, false);
    assert !obj.entries[0].inUse && !obj.entries[1].inUse;
    var a := obj.Insert(t0, Some(7), 0);
    assert a == 0 && obj.pending == [Timer(0, t0)];
    var b := obj.Insert(t1, Some(7), 0);
  }

  /** Moving the earlier timer past the later one: the report order follows. */
  method RepositionEarlier() returns (ok: bool, first: int32, second: int32)
    ensures ok && first == 1 && second == 0
  {
    var obj := TwoTimers(10, 20);
    ok := obj.Update(0, 30);
    assert obj.pending == [Timer(1, 20), Timer(0, 30)];
    var next;
    first, next := obj.NextGet(true, true, NoTimeLeft);
    var removed := obj.Remove(first);
    second, next := obj.NextGet(true, true, NoTimeLeft);
  }

  /** Equal expirations: the one inserted first is reported first, the other once it is removed. */
  method TiesInInsertionOrder() returns (first: int32, second: int32)
    ensures first == 0 && second == 1
  {
    var obj := TwoTimers(10, 10);
    var next;
    first, next := obj.NextGet(true, true, NoTimeLeft);
    var ok := obj.Remove(first);
    second, next := obj.NextGet(true, true, NoTimeLeft);
  }

  /** A NULL handler is refused even for a free slot, before the slot is looked at. */
  method NullHandlerOnFreeSlot() returns (ok: bool)
    ensures !ok
  {
    var obj := new TimerObject(2, false, false);
    ok := obj.UpdateHandler(1, 5, None, 0);
  }

  /** Nothing pending: both encodings of the query report no timer. */
  method EmptyPool() returns (us: int32, ns: int32)
    ensures us == TimerIdInvalid && ns == TimerIdInvalid
  {
    var obj := new TimerObject(4, false, false);
    var next;
    us, next := obj.NextGet(true, true, NoTimeLeft);
    ns, next := obj.NextGetTs(true, true, NoTimeLeft);
  }

  /** A destroyed object refuses insertion, and so does a NULL handler. */
  method Refusals() returns (destroyed: int32, noHandler: int32)
    ensures destroyed == TimerIdInvalid && noHandler == TimerIdInvalid
  {
    var obj := new TimerObject(4, false, false);
    noHandler := obj.Insert(10, None, 0);
    obj.Destroy();
    destroyed := obj.Insert(10, Some(7), 0);
  }

  /**
   * The removal walk as written, on timers expiring at 100 and 200: removing
   * the second leaves nothing to report although the first is still in use.
   */
  method LostTimer() returns (reported: int32, stillInUse: bool)
    ensures reported == TimerIdInvalid && stillInUse
  {
    var obj := TwoTimers(100, 200);
    obj.ListRemoveAsWritten(1);
    var next;
    reported, next := obj.NextGet(true, true, NoTimeLeft);
    stillInUse := obj.entries[0].inUse;
  }

  /** The same removal through the corrected walk: the first timer is still reported. */
  method TimerKept() returns (reported: int32)
    ensures reported == 0
  {
    var obj := TwoTimers(100, 200);
    var ok := obj.Remove(1);
    var next;
    reported, next := obj.NextGet(true, true, NoTimeLeft);
  }
}
