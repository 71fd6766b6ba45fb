/**
 * The entry array as a value and the shape of the intrusive list threaded
 * through it. `Chain(es, head, p)` says that following `head` and the `next`
 * links of `es` visits exactly the slots of `p`, in order, each once. The
 * lemmas here are the pointer surgery of list_add and list_remove done on a
 * snapshot of the array.
 */
module Arena {
  import opened Types
  import opened OrderedList

  /**
   * One slot of the pool. `next` is the index of the next entry in
   * expiration order, or Null.
   */
  datatype Entry = Entry(
    next: int,
    inUse: bool,
    timerId: int32,
    timeout: Timestamp,
    handler: Option<Handler>,
    data: Context)

  /** A slot as the zero fill of the whole array leaves it. */
  const Zeroed: Entry := Entry(Null, false, 0, 0, None, 0)

  /** The slot the list head points to, or Null for an empty list. */
  function HeadOf(p: seq<Timer>): int {
    if p == [] then Null else p[0].id
  }

  /** The link that follows position `k`: the next slot, or Null at the tail. */
  function NextOf(p: seq<Timer>, k: nat): int
    requires k < |p|
  {
    if k + 1 < |p| then p[k + 1].id else Null
  }

  /** The slot at position `k`, or Null once the walk has passed the tail. */
  function At(p: seq<Timer>, k: nat): int
    requires k <= |p|
  {
    if k < |p| then p[k].id else Null
  }

  /** A linked entry is in use and carries the id and timeout the list records. */
  predicate Holds(e: Entry, t: Timer) {
    e.inUse && e.timerId == t.id && e.timeout == t.timeout
  }

  /** Following `head` through the `next` links of `es` visits exactly `p`. */
  predicate Chain(es: seq<Entry>, head: int, p: seq<Timer>) {
    (forall k :: 0 <= k < |p| ==> 0 <= p[k].id < |es|) &&
    Distinct(p) &&
    head == HeadOf(p) &&
    (forall k :: 0 <= k < |p| ==> es[p[k].id].next == NextOf(p, k)) &&
    (forall k :: 0 <= k < |p| ==> Holds(es[p[k].id], p[k]))
  }

  /** A slot that is not in use has no successor. */
  predicate Detached(es: seq<Entry>) {
    forall i :: 0 <= i < |es| && !es[i].inUse ==> es[i].next == Null
  }

  /** Every slot in use is linked. */
  predicate Complete(es: seq<Entry>, p: seq<Timer>) {
    forall i :: 0 <= i < |es| && es[i].inUse ==> i in Ids(p)
  }

  /** `es'` differs from `es` at most in `next` links. */
  predicate SameButNext(es: seq<Entry>, es': seq<Entry>) {
    |es'| == |es| && forall i :: 0 <= i < |es| ==> es'[i] == es[i].(next := es'[i].next)
  }

  /** `es` with the link of slot `i` set to `n`. */
  function Relink(es: seq<Entry>, i: int, n: int): seq<Entry>
    requires 0 <= i < |es|
  {
    es[i := es[i].(next := n)]
  }

  // ---------------------------------------------------------------------
  // Writes and frames

  /** A write to a slot the list does not visit leaves the list intact. */
  lemma ChainFrame(es: seq<Entry>, head: int, p: seq<Timer>, i: int, e: Entry)
    requires Chain(es, head, p) && 0 <= i < |es| && i !in Ids(p)
    ensures Chain(es[i := e], head, p)
  {
    forall k | 0 <= k < |p| ensures p[k].id != i {
      assert p[k].id in Ids(p);
    }
  }

  /** A slot that is not in use is not linked. */
  lemma FreeNotLinked(es: seq<Entry>, head: int, p: seq<Timer>, i: int)
    requires Chain(es, head, p) && 0 <= i < |es| && !es[i].inUse
    ensures i !in Ids(p)
  {
    forall k | 0 <= k < |p| ensures p[k].id != i {
      assert Holds(es[p[k].id], p[k]);
    }
  }

  /** Changing only links leaves every slot's id, timeout and in-use flag. */
  lemma LinksOnly(es: seq<Entry>, es': seq<Entry>, p: seq<Timer>)
    requires SameButNext(es, es')
    requires forall k :: 0 <= k < |p| ==> 0 <= p[k].id < |es| && Holds(es[p[k].id], p[k])
    ensures forall k :: 0 <= k < |p| ==> Holds(es'[p[k].id], p[k])
  {
    forall k | 0 <= k < |p| ensures Holds(es'[p[k].id], p[k]) {
      assert es'[p[k].id] == es[p[k].id].(next := es'[p[k].id].next);
    }
  }

  /**
   * Relinking, then a write of slot `i`, then relinking again: slot `i`
   * holds the written fields and every other slot its old fields.
   */
  lemma RelinkedAround(es0: seq<Entry>, es1: seq<Entry>, es3: seq<Entry>, i: int, e: Entry)
    requires SameButNext(es0, es1) && 0 <= i < |es1|
    requires SameButNext(es1[i := e], es3)
    ensures |es3| == |es0| && es3[i] == e.(next := es3[i].next)
    ensures forall j :: 0 <= j < |es0| && j != i ==> es3[j] == es0[j].(next := es3[j].next)
  {
  }

  /** Storing an in-use record in a slot the list does not visit keeps the list and the free slots. */
  lemma Stored(es: seq<Entry>, head: int, p: seq<Timer>, i: int, e: Entry)
    requires Chain(es, head, p) && Detached(es) && 0 <= i < |es| && i !in Ids(p) && e.inUse
    ensures Chain(es[i := e], head, p) && Detached(es[i := e])
  {
    ChainFrame(es, head, p, i, e);
  }

  /**
   * Storing record `e` in slot `i`, then relinking: slot `i` holds `e`, the
   * others their old fields, and with `i` added to the linked ids every
   * slot in use is linked.
   */
  lemma Allocated(es0: seq<Entry>, es: seq<Entry>, p: seq<Timer>, p': seq<Timer>, i: int, e: Entry)
    requires Complete(es0, p) && 0 <= i < |es0| && e.inUse && Ids(p') == Ids(p) + {i}
    requires SameButNext(es0[i := e], es)
    ensures Complete(es, p') && es[i] == e.(next := es[i].next)
    ensures forall j :: 0 <= j < |es0| && j != i ==> es[j] == es0[j].(next := es[j].next)
  {
  }

  /** Completeness survives when the in-use flags and the linked ids stay the same. */
  lemma CompleteKept(es: seq<Entry>, es': seq<Entry>, p: seq<Timer>, p': seq<Timer>)
    requires Complete(es, p) && |es'| == |es| && Ids(p') == Ids(p)
    requires forall j :: 0 <= j < |es| ==> es'[j].inUse == es[j].inUse
    ensures Complete(es', p')
  {
  }

  /**
   * Freeing slot `i` once it is unlinked: the list stays intact, free slots
   * stay detached, and every slot still in use is still linked.
   */
  lemma Freed(es0: seq<Entry>, es: seq<Entry>, head: int, p: seq<Timer>, q: seq<Timer>, i: int)
    requires SameButNext(es0, es) && Complete(es0, p) && Ids(q) == Ids(p) - {i}
    requires Chain(es, head, q) && Detached(es) && 0 <= i < |es| && es[i].next == Null
    ensures var es' := es[i := es[i].(inUse := false, timerId := TimerIdInvalid)];
      Chain(es', head, q) && Detached(es') && Complete(es', q) &&
      es'[i] == es0[i].(next := Null, inUse := false, timerId := TimerIdInvalid) &&
      forall j :: 0 <= j < |es0| && j != i ==> es'[j] == es0[j].(next := es'[j].next)
  {
    ChainFrame(es, head, q, i, es[i].(inUse := false, timerId := TimerIdInvalid));
  }

  /** Relinking two slots in use keeps every free slot detached. */
  lemma KeepsDetached(es: seq<Entry>, es': seq<Entry>, a: int, b: int)
    requires Detached(es) && SameButNext(es, es')
    requires 0 <= a < |es| && es[a].inUse && (0 <= b < |es| ==> es[b].inUse)
    requires forall i :: 0 <= i < |es| && i != a && i != b ==> es'[i] == es[i]
    ensures Detached(es')
  {
  }

  // ---------------------------------------------------------------------
  // Relinking

  /** What one relinking changes. */
  lemma RelinkOne(es: seq<Entry>, a: int, n: int)
    requires 0 <= a < |es|
    ensures var es' := Relink(es, a, n);
      SameButNext(es, es') && es'[a].next == n &&
      forall i :: 0 <= i < |es| && i != a ==> es'[i] == es[i]
  {
  }

  /** What two relinkings of different slots change. */
  lemma RelinkTwo(es: seq<Entry>, a: int, n: int, b: int, m: int)
    requires 0 <= a < |es| && 0 <= b < |es| && a != b
    ensures var es' := Relink(Relink(es, a, n), b, m);
      SameButNext(es, es') && es'[a].next == n && es'[b].next == m &&
      forall i :: 0 <= i < |es| && i != a && i != b ==> es'[i] == es[i]
  {
  }

  /** Relinking two different slots, in either order. */
  lemma RelinkSwap(es: seq<Entry>, i: int, a: int, j: int, b: int)
    requires 0 <= i < |es| && 0 <= j < |es| && i != j
    ensures Relink(Relink(es, i, a), j, b) == Relink(Relink(es, j, b), i, a)
  {
  }

  // ---------------------------------------------------------------------
  // Linking and unlinking

  /**
   * Linking `x` at position `pos`: its link takes over the old successor of
   * position `pos - 1` (or the old head), and then that predecessor (or the
   * head) points at `x`.
   */
  lemma LinkAt(es: seq<Entry>, head: int, p: seq<Timer>, pos: nat, x: Timer, es': seq<Entry>, head': int)
    requires Chain(es, head, p) && Detached(es) && pos <= |p|
    requires 0 <= x.id < |es| && x.id !in Ids(p) && Holds(es[x.id], x)
    requires pos == 0 ==> head' == x.id && es' == Relink(es, x.id, At(p, 0))
    requires pos > 0 ==> head' == head
    requires pos > 0 ==> es' == Relink(Relink(es, x.id, At(p, pos)), p[pos - 1].id, x.id)
    ensures Chain(es', head', p[..pos] + [x] + p[pos..]) && Detached(es') && SameButNext(es, es')
  {
    if pos == 0 {
      RelinkOne(es, x.id, At(p, 0));
    } else {
      assert p[pos - 1].id in Ids(p);
      RelinkTwo(es, x.id, At(p, pos), p[pos - 1].id, x.id);
    }
    KeepsDetached(es, es', x.id, if pos == 0 then Null else p[pos - 1].id);
    assert forall k :: 0 <= k < |p| ==> p[k].id in Ids(p);
    SpliceKeeps(es, es', p, pos, x);
    LinkLinks(es, p, pos, x, es');
  }

  /** Splicing `x` in at `pos` keeps the list distinct and held, across a relinking. */
  lemma SpliceKeeps(es: seq<Entry>, es': seq<Entry>, p: seq<Timer>, pos: nat, x: Timer)
    requires pos <= |p| && Distinct(p) && SameButNext(es, es')
    requires 0 <= x.id < |es| && x.id !in Ids(p) && Holds(es[x.id], x)
    requires forall m :: 0 <= m < |p| ==> 0 <= p[m].id < |es|
    requires forall m :: 0 <= m < |p| ==> Holds(es[p[m].id], p[m])
    ensures var q := p[..pos] + [x] + p[pos..];
      Distinct(q) && HeadOf(q) == (if pos == 0 then x.id else p[0].id) &&
      forall m :: 0 <= m < |q| ==> 0 <= q[m].id < |es| && Holds(es'[q[m].id], q[m])
  {
    var q := p[..pos] + [x] + p[pos..];
    SpliceShifts(p, x, pos);
    SpliceDistinct(p, x, pos);
    SpliceHolds(es, p, x, pos);
    LinksOnly(es, es', q);
  }

  lemma SpliceHolds(es: seq<Entry>, p: seq<Timer>, x: Timer, pos: nat)
    requires pos <= |p| && 0 <= x.id < |es| && Holds(es[x.id], x)
    requires forall k :: 0 <= k < |p| ==> 0 <= p[k].id < |es| && Holds(es[p[k].id], p[k])
    ensures var q := p[..pos] + [x] + p[pos..];
      forall k :: 0 <= k < |q| ==> 0 <= q[k].id < |es| && Holds(es[q[k].id], q[k])
  {
    var q := p[..pos] + [x] + p[pos..];
    forall k | 0 <= k < |q| ensures 0 <= q[k].id < |es| && Holds(es[q[k].id], q[k]) {
      if k < pos { assert q[k] == p[k]; } else if k > pos { assert q[k] == p[k - 1]; }
    }
  }

  lemma LinkLinks(es: seq<Entry>, p: seq<Timer>, pos: nat, x: Timer, es': seq<Entry>)
    requires pos <= |p| && Distinct(p) && |es'| == |es| && 0 <= x.id < |es|
    requires forall m :: 0 <= m < |p| ==>
               0 <= p[m].id < |es| && p[m].id != x.id && es[p[m].id].next == NextOf(p, m)
    requires es'[x.id].next == At(p, pos)
    requires forall i :: 0 <= i < |es| && i != x.id && (pos == 0 || i != p[pos - 1].id) ==>
               es'[i] == es[i]
    requires pos > 0 ==> es'[p[pos - 1].id].next == x.id
    ensures var q := p[..pos] + [x] + p[pos..];
      forall k :: 0 <= k < |q| ==> es'[q[k].id].next == NextOf(q, k)
  {
    var q := p[..pos] + [x] + p[pos..];
    forall k | 0 <= k < |q| ensures es'[q[k].id].next == NextOf(q, k) {
      if k < pos {
        assert q[k] == p[k];
        if k < pos - 1 {
          assert q[k + 1] == p[k + 1];
          assert es'[p[k].id] == es[p[k].id];
        } else {
          assert q[k + 1] == x;
        }
      } else if k == pos {
        assert q[k] == x;
        if pos < |p| { assert q[k + 1] == p[pos]; }
      } else {
        assert q[k] == p[k - 1];
        assert es'[p[k - 1].id] == es[p[k - 1].id];
        if k + 1 < |q| { assert q[k + 1] == p[k]; }
      }
    }
  }

  /**
   * Unlinking position `k`: its predecessor (or the head) takes over its
   * link, and then its own link becomes Null.
   */
  lemma UnlinkAt(es: seq<Entry>, head: int, p: seq<Timer>, k: nat, es': seq<Entry>, head': int)
    requires Chain(es, head, p) && Detached(es) && k < |p|
    requires k == 0 ==> head' == NextOf(p, 0) && es' == Relink(es, p[0].id, Null)
    requires k > 0 ==>
      head' == head && es' == Relink(Relink(es, p[k - 1].id, NextOf(p, k)), p[k].id, Null)
    ensures Chain(es', head', p[..k] + p[k + 1..]) && Detached(es') && SameButNext(es, es')
    ensures es'[p[k].id].next == Null
  {
    if k == 0 {
      RelinkOne(es, p[0].id, Null);
    } else {
      assert p[k - 1].id != p[k].id;
      RelinkTwo(es, p[k - 1].id, NextOf(p, k), p[k].id, Null);
    }
    KeepsDetached(es, es', p[k].id, if k == 0 then Null else p[k - 1].id);
    CutKeeps(es, es', p, k);
    UnlinkLinks(es, p, k, es');
  }

  /** Cutting position `k` keeps the rest distinct and held, across a relinking. */
  lemma CutKeeps(es: seq<Entry>, es': seq<Entry>, p: seq<Timer>, k: nat)
    requires k < |p| && Distinct(p) && SameButNext(es, es')
    requires forall m :: 0 <= m < |p| ==> 0 <= p[m].id < |es|
    requires forall m :: 0 <= m < |p| ==> Holds(es[p[m].id], p[m])
    ensures var q := p[..k] + p[k + 1..];
      Distinct(q) && forall m :: 0 <= m < |q| ==> 0 <= q[m].id < |es| && Holds(es'[q[m].id], q[m])
  {
    var q := p[..k] + p[k + 1..];
    RemoveDistinct(p, p[k].id);
    RemoveAt(p, p[k].id);
    CutHolds(es, p, k);
    LinksOnly(es, es', q);
  }

  lemma CutHolds(es: seq<Entry>, p: seq<Timer>, k: nat)
    requires k < |p|
    requires forall m :: 0 <= m < |p| ==> 0 <= p[m].id < |es| && Holds(es[p[m].id], p[m])
    ensures var q := p[..k] + p[k + 1..];
      forall m :: 0 <= m < |q| ==> 0 <= q[m].id < |es| && Holds(es[q[m].id], q[m])
  {
    var q := p[..k] + p[k + 1..];
    forall m | 0 <= m < |q| ensures 0 <= q[m].id < |es| && Holds(es[q[m].id], q[m]) {
      if m < k { assert q[m] == p[m]; } else { assert q[m] == p[m + 1]; }
    }
  }

  lemma UnlinkLinks(es: seq<Entry>, p: seq<Timer>, k: nat, es': seq<Entry>)
    requires k < |p| && Distinct(p) && |es'| == |es|
    requires forall m :: 0 <= m < |p| ==> 0 <= p[m].id < |es| && es[p[m].id].next == NextOf(p, m)
    requires forall i :: 0 <= i < |es| && i != p[k].id && (k == 0 || i != p[k - 1].id) ==>
               es'[i] == es[i]
    requires k > 0 ==> es'[p[k - 1].id].next == NextOf(p, k)
    ensures var q := p[..k] + p[k + 1..];
      forall m :: 0 <= m < |q| ==> es'[q[m].id].next == NextOf(q, m)
  {
    var q := p[..k] + p[k + 1..];
    forall m | 0 <= m < |q| ensures es'[q[m].id].next == NextOf(q, m) {
      if m < k {
        assert q[m] == p[m];
        if m < k - 1 {
          assert q[m + 1] == p[m + 1];
          assert es'[p[m].id] == es[p[m].id];
        } else if k + 1 < |p| {
          assert q[m + 1] == p[k + 1];
        }
      } else {
        assert q[m] == p[m + 1];
        assert es'[p[m + 1].id] == es[p[m + 1].id];
        if m + 1 < |q| { assert q[m + 1] == p[m + 2]; }
      }
    }
  }

  /**
   * The removal walk as written: it always rewrites the head to the match's
   * successor, so the list that remains is only what followed the match.
   */
  lemma TruncateAt(es: seq<Entry>, head: int, p: seq<Timer>, k: nat, es': seq<Entry>, head': int)
    requires Chain(es, head, p) && Detached(es) && k < |p|
    requires es' == Relink(es, p[k].id, Null)
    requires head' == NextOf(p, k)
    ensures Chain(es', head', p[k + 1..]) && Detached(es')
  {
    RelinkOne(es, p[k].id, Null);
    KeepsDetached(es, es', p[k].id, Null);
    var q := p[k + 1..];
    forall m | 0 <= m < |q|
      ensures 0 <= q[m].id < |es'| && es'[q[m].id].next == NextOf(q, m) && Holds(es'[q[m].id], q[m])
    {
      assert q[m] == p[m + k + 1] && p[m + k + 1].id != p[k].id;
      if m + 1 < |q| {
        assert q[m + 1] == p[m + k + 2];
      }
    }
    forall i, j | 0 <= i < j < |q| ensures q[i].id != q[j].id {
      assert q[i] == p[i + k + 1] && q[j] == p[j + k + 1];
    }
  }

  // ---------------------------------------------------------------------
  // Counting slots

  /** The indices of an array of `n` slots. */
  function Slots(n: nat): set<int> {
    if n == 0 then {} else Slots(n - 1) + {n - 1}
  }

  lemma {:induction false} SlotsCard(n: nat)
    ensures |Slots(n)| == n
    ensures forall i :: i in Slots(n) <==> 0 <= i < n
  {
    if n > 0 {
      SlotsCard(n - 1);
    }
  }

  lemma {:induction false} DistinctCard(p: seq<Timer>)
    requires Distinct(p)
    ensures |Ids(p)| == |p|
  {
    if p != [] {
      var r := p[1..];
      DistinctCard(r);
      assert Ids(p) == {p[0].id} + Ids(r) by {
        forall i | i in Ids(p) ensures i in {p[0].id} + Ids(r) {
          var k :| 0 <= k < |p| && p[k].id == i;
          if k > 0 { assert r[k - 1].id == i; }
        }
        forall i | i in Ids(r) ensures i in Ids(p) {
          var k :| 0 <= k < |r| && r[k].id == i;
          assert p[k + 1].id == i;
        }
      }
      assert p[0].id !in Ids(r) by {
        forall k | 0 <= k < |r| ensures r[k].id != p[0].id {
          assert r[k] == p[k + 1];
        }
      }
    }
  }

  lemma SubsetCard(a: set<int>, b: set<int>)
    requires a <= b
    ensures |a| <= |b|
    ensures |a| == |b| ==> a == b
  {
    assert b == a + (b - a);
  }

  /** At most one linked timer per slot: never more than the capacity. */
  lemma AtMostCapacity(es: seq<Entry>, head: int, p: seq<Timer>)
    requires Chain(es, head, p)
    ensures |p| <= |es|
  {
    DistinctCard(p);
    SlotsCard(|es|);
    SubsetCard(Ids(p), Slots(|es|));
  }

  /**
   * With every slot in use linked, the list is full exactly when every slot
   * is in use.
   */
  lemma FullIffAllInUse(es: seq<Entry>, head: int, p: seq<Timer>)
    requires Chain(es, head, p) && Complete(es, p)
    ensures |p| == |es| <==> forall i :: 0 <= i < |es| ==> es[i].inUse
  {
    if |p| == |es| {
      FullMeansAllInUse(es, head, p);
    }
    if forall i :: 0 <= i < |es| ==> es[i].inUse {
      AllInUseMeansFull(es, head, p);
    }
  }

  lemma AllInUseMeansFull(es: seq<Entry>, head: int, p: seq<Timer>)
    requires Chain(es, head, p) && Complete(es, p)
    requires forall i :: 0 <= i < |es| ==> es[i].inUse
    ensures |p| == |es|
  {
    DistinctCard(p);
    SlotsCard(|es|);
    SubsetCard(Ids(p), Slots(|es|));
    forall i | i in Slots(|es|) ensures i in Ids(p) {
      assert es[i].inUse;
    }
    SubsetCard(Slots(|es|), Ids(p));
  }

  lemma FullMeansAllInUse(es: seq<Entry>, head: int, p: seq<Timer>)
    requires Chain(es, head, p) && |p| == |es|
    ensures forall i :: 0 <= i < |es| ==> es[i].inUse
  {
    DistinctCard(p);
    SlotsCard(|es|);
    SubsetCard(Ids(p), Slots(|es|));
    forall i | 0 <= i < |es| ensures es[i].inUse {
      assert i in Ids(p);
      var k :| 0 <= k < |p| && p[k].id == i;
      assert Holds(es[p[k].id], p[k]);
    }
  }
}
