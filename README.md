# rdk-xr-timer: the timer queue

This project models the fixed-capacity timer queue of `src/xr_timer.c`, and
proves properties of that model.

A timer object owns one array of `qty` entries. The entries serve two
purposes at once:

- **Slot pool.** Insert takes the lowest-index entry that is not in use, and
  that index becomes the timer id. Remove frees the entry again.
- **Expiration list.** A singly-linked list runs through the same entries, and
  is kept in expiration order. A new timer is linked in front of the first
  timer that expires strictly later than it. Timers with equal expirations
  therefore stay first in, first out.

Update and update-handler are built from these pieces: each unlinks a timer,
rewrites its record and links it again. The two next-timer queries report the
head of the list. They split the remaining time into seconds plus
microseconds, or seconds plus nanoseconds.

## How the model is built

- **`Types`** holds the C integer types. Ids are `int32`, with `-1` as the
  invalid id. It also holds the `(uint32_t)` cast that the range checks
  apply, and an `Option` type that stands in for a nullable handler.
- **`OrderedList`** models the list as a value, `seq<Timer>`: the timers a
  walk from the head visits, in order. It defines:
  - ordered insertion (`Insert`, and `InsertPos` for its position);
  - removal of the first match (`RemoveFirst`, and `IndexOf` for its
    position);
  - the removal the source actually performs (`RemoveAsWritten`).

  The lemmas about these are proved here: sortedness, first-in-first-out
  among ties, the set of linked ids, the remove/insert round trip, and
  repositioning.
- **`Arena`** models one entry as the datatype `Entry`. `Chain(es, head, p)`
  says that following `head` through the `next` links of the array snapshot
  `es` visits exactly the timers of `p`. The lemmas here are the pointer
  surgery of list-add and list-remove, done on a snapshot. Links are slot
  indices, and `-1` is NULL.
- **`XrTimer`** holds the class `TimerObject`, the form the source has:
  - an `entries` array, updated in place;
  - `head` and a `valid` flag as fields;
  - a ghost sequence `pending`, which is the list a walk from `head` visits.

  The methods keep the source's loops: the two `for` loops of create and
  insert, and the two `while` walks of list-add and list-remove. Each method
  ties its new state to the functions of `OrderedList`.

  `Valid()` is the invariant that every public operation keeps. It says:
  - the list is well formed and sorted;
  - free slots have no successor;
  - every slot in use is linked.

  `rdkx_timer_obj_is_valid` is the `valid` field: creation sets it and
  destroy clears it.
- **`Scenarios`** holds verified client call sequences that state what a caller observes:
  which ids come back, and which timer is reported first.

The removal walk does not do what its own branches imply. The `else` branch
at src/xr_timer.c:370-371 (marked as removal from the middle or tail) patches
the predecessor's link. But the walk never advances `prev`, so that branch is
dead (see Findings). The model follows the code in `ListRemoveAsWritten`. The
public operations use the corrected walk `ListRemove`.

## Model

| member | source | states |
|---|---|---|
| Types.AsUint32 | src/xr_timer.c:188 | The `(uint32_t)` cast used by the range checks. It keeps non-negative ids, and maps every negative id above `INT32_MAX`, so any negative id fails the check. |
| XrTimer.Split | src/xr_timer.c:294-295 | Seconds and remainder: `sec * unit + frac == total` and `frac < unit`. |
| XrTimer.TimerObject.constructor | src/xr_timer.c:99-112 | Stores capacity and mode, gives an empty list and a valid object, and satisfies `Valid()`. Every slot ends up zero-filled: not in use, no successor, id 0 (the memset overwrites the `-1` ids the loop wrote). |
| XrTimer.TimerObject.Create | src/xr_timer.c:92-120 | With no memory, no object. Otherwise a fresh valid object with an empty list and zero-filled slots. |
| XrTimer.TimerObject.Destroy | src/xr_timer.c:122-128 | Clears the identifier, after which every operation is rejected. |
| XrTimer.TimerObject.FirstFree | src/xr_timer.c:149-157 | Returns `-1` exactly when every slot is in use. Otherwise returns a slot that is not in use, with every lower slot in use. |
| XrTimer.TimerObject.Insert | src/xr_timer.c:138-178 | Fails (`-1`) exactly for a NULL handler, an invalid object or a full pool, and then changes nothing. Otherwise it returns the lowest free slot, and the list becomes `Insert(old list, (id, timeout))`, with exactly this id added and one more timer. The slot holds in-use, id, timeout, handler and data. Every other slot changes at most its link. `Valid()` is kept. |
| XrTimer.TimerObject.Fill | src/xr_timer.c:164-174 | Stores the record of a free slot and links it: the ordered insertion, the id set plus this id, and no other slot changes beyond its link. |
| XrTimer.TimerObject.Update | src/xr_timer.c:180-206 | False exactly for an invalid object or `(uint32_t)id >= qty`, and then nothing changes. Otherwise true, and the list becomes `Insert(RemoveFirst(old list, id), (id, timeout))` with the same ids. The slot gets the new timeout and keeps its handler and data. Every other slot changes at most its link. |
| XrTimer.TimerObject.UpdateHandler | src/xr_timer.c:208-241 | As Update, and also rejects a NULL handler first. On success it replaces the handler and the data as well. |
| XrTimer.TimerObject.Reschedule | src/xr_timer.c:194-202 | Unlink (corrected walk; see Findings), store the new timeout, handler and data, relink: the list becomes the repositioned list, the set of ids stays the same, and `Valid()` is kept. |
| XrTimer.TimerObject.Remove | src/xr_timer.c:243-268 | False exactly for an invalid object or `(uint32_t)id >= qty`, and then nothing changes. Otherwise true, even for an id that is not linked (the list is then unchanged). The list becomes `RemoveFirst(old list, id)` without this id. The slot is marked free with id `-1` and no successor. |
| XrTimer.TimerObject.NextGet | src/xr_timer.c:270-299 | Changes nothing. Returns `-1` exactly when an output is missing, the object is invalid or the list is empty. Otherwise it returns the head's id, which is the first timer of the list and expires no later than any linked timer, together with its handler and data and the split `sec * 1000000 + usec` of the remaining time. |
| XrTimer.TimerObject.NextGetTs | src/xr_timer.c:301-330 | As NextGet, with the remaining time split as `sec * 1000000000 + nsec`. |
| XrTimer.TimerObject.ListAdd | src/xr_timer.c:332-360 | The walk links the slot in front of the first strictly later timer, or at the tail. The list becomes `Insert(old list, entry)`, with one more timer; the list stays well formed and sorted, and only links change. |
| XrTimer.TimerObject.ListRemove | src/xr_timer.c:362-378 | The walk with its predecessor pointer advanced (corrected; see Findings). The list becomes `RemoveFirst(old list, id)` and stays well formed and sorted. The unlinked slot has no successor. Nothing changes when the id is not linked. |
| XrTimer.TimerObject.ListRemoveAsWritten | src/xr_timer.c:362-378 | The walk as written: the list becomes `RemoveAsWritten(old list, id)`, which is only what followed the first match. The list stays well formed and only links change. |
| OrderedList.InsertPos | src/xr_timer.c:341-354 | The walk's stopping point: every timer before it expires no later than `t`, and the timer at it expires strictly later. |
| OrderedList.IndexOf | src/xr_timer.c:366-377 | The removal walk's stopping point: no earlier timer has the id, and the timer at it does. |
| OrderedList.InsertAt | src/xr_timer.c:341-358 | Any position meeting the placement rule is where ordered insertion splices the new timer. |
| OrderedList.InsertAfterTies | src/xr_timer.c:342 | The new timer lands after every timer expiring no later than it, and before every timer expiring later. The others keep their order, so ties are first in, first out. |
| OrderedList.InsertSorted | src/xr_timer.c:332-360 | Ordered insertion keeps the list sorted by expiration. |
| OrderedList.InsertHead | src/xr_timer.c:332-360 | Ordered insertion is a permutation of the old list plus the new timer. |
| OrderedList.InsertLength | src/xr_timer.c:332-360 | Ordered insertion adds exactly one timer. |
| OrderedList.InsertIds | src/xr_timer.c:332-360 | The linked ids gain exactly the new id. |
| OrderedList.InsertDistinct | src/xr_timer.c:332-360 | Inserting an id that is not linked keeps the ids distinct. |
| OrderedList.IndexOfAt | src/xr_timer.c:366-377 | Any position meeting the search rule is the one the removal walk stops at. |
| OrderedList.RemoveAt | src/xr_timer.c:362-378 | Removal unlinks exactly the first match and keeps the rest in order, or changes nothing when there is no match. |
| OrderedList.RemoveMatch | src/xr_timer.c:367-374 | Removing the first match at position `k` gives the list without position `k`. |
| OrderedList.RemoveNone | src/xr_timer.c:366-377 | With no match, removal changes nothing. |
| OrderedList.RemoveAbsent | src/xr_timer.c:258 | Removing an id that is not linked changes nothing. |
| OrderedList.RemoveSorted | src/xr_timer.c:362-378 | Removal keeps the list sorted. |
| OrderedList.RemoveIds | src/xr_timer.c:362-378 | In a list without repeated ids, removal takes away exactly that id. |
| OrderedList.RemoveDistinct | src/xr_timer.c:362-378 | Removal keeps the ids distinct. |
| OrderedList.RemoveInsert | src/xr_timer.c:332-378 | Removing an id that was just inserted gives back the old list. |
| OrderedList.Reposition | src/xr_timer.c:194-202 | Remove then insert with a new expiration: the list stays sorted and distinct, with exactly the same ids. |
| OrderedList.AsWrittenAgreesIff | src/xr_timer.c:362-378 | The removal as written agrees with removing only the match exactly when the match is the head or the id is not linked. |
| OrderedList.AsWrittenDropsEarlierTimer | src/xr_timer.c:362-378 | Timers (0, 100) and (1, 200): removing id 1 as written leaves nothing linked, where removing only the match keeps (0, 100). |
| Arena.ChainFrame | src/xr_timer.c:164-171 | Writing a slot the list does not visit leaves the list intact. |
| Arena.FreeNotLinked | src/xr_timer.c:153-166 | A slot that is not in use is not linked, so insert can take it. |
| Arena.Stored | src/xr_timer.c:164-171 | Storing an in-use record in an unlinked slot keeps the list and the free slots. |
| Arena.Allocated | src/xr_timer.c:164-174 | After storing and relinking: the slot holds its record, the others keep their fields, and every slot in use is linked. |
| Arena.Freed | src/xr_timer.c:258-264 | Freeing an unlinked slot keeps the list, keeps free slots detached and keeps every slot in use linked. The slot is free, with id `-1` and no successor. |
| Arena.RelinkedAround | src/xr_timer.c:194-202 | Relink, write, relink: the written slot holds its new fields, and every other slot its old ones. |
| Arena.CompleteKept | src/xr_timer.c:194-202 | With the same in-use flags and the same ids, every slot in use is still linked. |
| Arena.KeepsDetached | src/xr_timer.c:343-357 | Relinking only slots in use keeps every free slot without a successor. |
| Arena.RelinkSwap | src/xr_timer.c:355-356 | The tail case's two link writes give the same array as the middle case's order. |
| Arena.LinkAt | src/xr_timer.c:336-357 | Pointing the new entry at the old successor, then pointing the predecessor (or the head) at it, gives a well-formed list with the entry spliced in at that position. |
| Arena.UnlinkAt | src/xr_timer.c:366-374 | Pointing the predecessor (or the head) past the match and clearing the match's link gives a well-formed list without it. |
| Arena.TruncateAt | src/xr_timer.c:366-374 | Pointing the head past the match, as the code always does, gives a well-formed list of only what followed the match. |
| Arena.AtMostCapacity | src/xr_timer.c:152-162 | No more timers are linked than there are slots. |
| Arena.FullIffAllInUse | src/xr_timer.c:152-162 | With every slot in use linked, the list is full exactly when every slot is in use, so insert fails exactly at capacity. |
| Scenarios.EarliestFirst | src/xr_timer.c:138-178 | Capacity 2, inserted at 100 then 50: ids 0 and 1. The query reports 1, and after removing it, 0. |
| Scenarios.ExhaustAndReuse | src/xr_timer.c:149-162 | Capacity 1: the second insert fails, and after a remove the slot is reused as id 0. |
| Scenarios.TwoTimers | src/xr_timer.c:138-178 | Two inserts in expiration order give ids 0 and 1, linked in that order. |
| Scenarios.RepositionEarlier | src/xr_timer.c:180-206 | Moving the earlier timer past the later one changes which timer is reported first. |
| Scenarios.TiesInInsertionOrder | src/xr_timer.c:342 | Of two timers with equal expirations, the first inserted is reported first, and the second once the first is removed. |
| Scenarios.EmptyPool | src/xr_timer.c:283-286 | With nothing pending, both queries report no timer. |
| Scenarios.Refusals | src/xr_timer.c:139-147 | A NULL handler is refused, and so is any insert after destroy. |
| Scenarios.NullHandlerOnFreeSlot | src/xr_timer.c:209-212 | Update-handler with a NULL handler on a free slot of a valid object returns false. |
| Scenarios.LostTimer | src/xr_timer.c:362-378 | Removal as written of the later of two timers leaves nothing to report, while the earlier one is still in use. |
| Scenarios.TimerKept | src/xr_timer.c:243-268 | The same removal through the corrected walk still reports the earlier timer. |

## Left out

- The semaphore and thread-id guard (`RDKX_TIMER_MUTEX_WAIT`/`POST`, `sem_init`, `pthread_self`): they concern concurrency only. Acquire and release are treated as no-ops, and the `singleThread` and `threadIdCheck` flags are stored but not used.
- The timestamp collaborator (`rdkx_timestamp_cmp`, `rdkx_timestamp_until_us`, `rdkx_timestamp_until_ns`) is not part of this model. Timestamps are integers ordered by `<`. The remaining time is the function parameter `untilUs` / `untilNs` of the queries, so the split is proved for whatever that answer is.
- `rdkx_timer_version`: it only copies string metadata and makes a foreign call.
- `malloc` and `free`: the allocator's answer is the `memoryAvailable` input of `Create`, and memory is not released on destroy.
- `XLOGD_ERROR` logging.
- A NULL or dangling object handle: the only handle state modelled is the `valid` flag, so the use-after-free of a destroyed handle is not captured.
- Handlers are opaque values; this module never calls them.
- `NextGet` and `NextGetTs` check the time and data outputs for NULL but not the handler output. Writing through a NULL handler pointer is not modelled.
- The 64-bit width of the remaining time (`unsigned long long`) is not bounded: `untilUs` and `untilNs` return any natural number.
- Capacities above `INT32_MAX`: the model requires `qty <= 0x7FFF_FFFF`, because slot indices become `int32` ids, and a larger index would wrap.
- XrTimer.TimerObject.Update: requires that a valid, in-range id names a slot in use. On a free slot the source unlinks nothing, and then links an unallocated entry into the list, which breaks the invariant that every linked entry is in use. That path is not modelled.
- XrTimer.TimerObject.UpdateHandler: requires that a valid, in-range id names a slot in use once the handler is non-NULL, for the same reason as Update. A NULL handler is refused before the slot is looked at, so that call is modelled for every slot.
- XrTimer.TimerObject.Remove: unlinks with the corrected walk `ListRemove`, where the source calls the walk as written. The earlier timers that the source drops are captured only through `ListRemoveAsWritten` (see Findings).
- XrTimer.TimerObject.Update: unlinks through `Reschedule` with the corrected walk, where src/xr_timer.c:195 calls the walk as written (see Findings).
- XrTimer.TimerObject.UpdateHandler: unlinks through `Reschedule` with the corrected walk, where src/xr_timer.c:228 calls the walk as written (see Findings).
- XrTimer.TimerObject.Reschedule: unlinks with the corrected walk `ListRemove`, not the walk as written that both update paths call. Its result is therefore the intended repositioning, not what src/xr_timer.c:194-202 does when the timer is not first in the list.

## Findings

| source | as written | input that shows it | evidently intended | confidence | as-written member | corrected member |
|---|---|---|---|---|---|---|
| src/xr_timer.c:362-378 | `rdkx_timer_list_remove` starts `prev` at NULL and never advances it, so unlinking a match always sets `list_head = next->next`. Every timer before the match is dropped from the list while its slot stays in use. | Capacity 2: insert at 100 (id 0), insert at 200 (id 1), remove(1). The list becomes empty while slot 0 is still in use. Timer 0 is not reported again unless an update or update-handler of id 0 links it back in. | Set `prev = next` before advancing, so only the match is unlinked and the predecessor's link is patched. | not executed | XrTimer.TimerObject.ListRemoveAsWritten, OrderedList.AsWrittenDropsEarlierTimer, Scenarios.LostTimer | XrTimer.TimerObject.ListRemove, OrderedList.RemoveAt, Scenarios.TimerKept |
