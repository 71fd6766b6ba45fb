/**
 * The ordered expiration list as a value: the sequence of pending timers in
 * the order a walk from the list head visits them. The class in XrTimer keeps
 * a ghost copy of this sequence and its methods are proved against the
 * functions here.
 */
module OrderedList {
  import opened Types

  /** One linked timer: the id stored in its entry and its expiration time. */
  datatype Timer = Timer(id: int, timeout: Timestamp)

  /** Non-decreasing by expiration from the head to the tail. */
  predicate Sorted(p: seq<Timer>) {
    forall j, k :: 0 <= j < k < |p| ==> p[j].timeout <= p[k].timeout
  }

  /** No id is linked twice. */
  predicate Distinct(p: seq<Timer>) {
    forall j, k :: 0 <= j < k < |p| ==> p[j].id != p[k].id
  }

  /** The ids that are currently linked. */
  function Ids(p: seq<Timer>): set<int> {
    set k | 0 <= k < |p| :: p[k].id
  }

  /**
   * Ordered insertion: the new timer goes in front of the first timer whose
   * expiration is strictly later, or at the tail when there is none.
   */
  function Insert(p: seq<Timer>, x: Timer): seq<Timer> {
    if p == [] then [x]
    else if x.timeout < p[0].timeout then [x] + p
    else [p[0]] + Insert(p[1..], x)
  }

  /** The position of the first timer expiring strictly after `t`, or `|p|`. */
  function InsertPos(p: seq<Timer>, t: Timestamp): (pos: nat)
    ensures pos <= |p|
    ensures forall k :: 0 <= k < pos ==> p[k].timeout <= t
    ensures pos < |p| ==> t < p[pos].timeout
  {
    if p == [] then 0
    else if t < p[0].timeout then 0
    else 1 + InsertPos(p[1..], t)
  }

  /** Removing a node by id: unlink the first timer whose id matches. */
  function RemoveFirst(p: seq<Timer>, id: int): seq<Timer> {
    if p == [] then []
    else if p[0].id == id then p[1..]
    else [p[0]] + RemoveFirst(p[1..], id)
  }

  /** The position of the first timer with this id, or `|p|`. */
  function IndexOf(p: seq<Timer>, id: int): (k: nat)
    ensures k <= |p|
    ensures forall j :: 0 <= j < k ==> p[j].id != id
    ensures k < |p| ==> p[k].id == id
  {
    if p == [] then 0
    else if p[0].id == id then 0
    else 1 + IndexOf(p[1..], id)
  }

  /** Any position meeting the search rule is the one `IndexOf` finds. */
  lemma {:induction false} IndexOfAt(p: seq<Timer>, id: int, k: nat)
    requires k <= |p| && forall j :: 0 <= j < k ==> p[j].id != id
    requires k < |p| ==> p[k].id == id
    ensures IndexOf(p, id) == k
  {
    if k > 0 {
      assert p[0].id != id;
      var r := p[1..];
      assert forall j :: 0 <= j < |r| ==> r[j] == p[j + 1];
      IndexOfAt(r, id, k - 1);
    }
  }

  /**
   * What the source's list walk for removal leaves linked: as it never
   * advances its `prev` pointer, unlinking the first match points the head at
   * the match's successor, so every timer before the match is dropped too.
   */
  function RemoveAsWritten(p: seq<Timer>, id: int): seq<Timer> {
    var k := IndexOf(p, id);
    if k < |p| then p[k + 1..] else p
  }

  // ---------------------------------------------------------------------
  // Insertion

  /** Any position meeting the placement rule is where `Insert` puts `x`. */
  lemma {:induction false} InsertAt(p: seq<Timer>, x: Timer, pos: nat)
    requires pos <= |p|
    requires forall k :: 0 <= k < pos ==> p[k].timeout <= x.timeout
    requires pos < |p| ==> x.timeout < p[pos].timeout
    ensures Insert(p, x) == p[..pos] + [x] + p[pos..]
  {
    if pos == 0 {
      assert p[..0] == [] && p[0..] == p;
    } else {
      var q := p[1..];
      assert forall k :: 0 <= k < pos - 1 ==> q[k] == p[k + 1];
      InsertAt(q, x, pos - 1);
      assert p[..pos] == [p[0]] + q[..pos - 1];
      assert p[pos..] == q[pos - 1..];
    }
  }

  /**
   * Ties stay first in, first out: the new timer lands after every linked
   * timer that does not expire later than it, before every one that does,
   * and the others keep their relative order.
   */
  lemma InsertAfterTies(p: seq<Timer>, x: Timer)
    requires Sorted(p)
    ensures var q := Insert(p, x); var i := InsertPos(p, x.timeout);
      |q| == |p| + 1 && q[i] == x &&
      (forall k :: 0 <= k < i ==> q[k] == p[k] && q[k].timeout <= x.timeout) &&
      (forall k :: i < k < |q| ==> q[k] == p[k - 1] && x.timeout < q[k].timeout)
  {
    var i := InsertPos(p, x.timeout);
    InsertAt(p, x, i);
    SpliceShifts(p, x, i);
    var q := Insert(p, x);
    forall k | i < k < |q|
      ensures x.timeout < q[k].timeout
    {
      assert q[k] == p[k - 1] && p[i].timeout <= p[k - 1].timeout;
    }
  }

  /** Splicing `x` in at `pos` keeps the timers before it and shifts the ones after it. */
  lemma SpliceShifts(p: seq<Timer>, x: Timer, pos: nat)
    requires pos <= |p|
    ensures var q := p[..pos] + [x] + p[pos..];
      |q| == |p| + 1 && q[pos] == x && (forall k :: 0 <= k < pos ==> q[k] == p[k]) &&
      (forall k :: pos < k < |q| ==> q[k] == p[k - 1])
  {
  }

  lemma {:induction false} InsertSorted(p: seq<Timer>, x: Timer)
    requires Sorted(p)
    ensures Sorted(Insert(p, x))
  {
    if p != [] && x.timeout >= p[0].timeout {
      var r := Insert(p[1..], x);
      InsertSorted(p[1..], x);
      InsertHead(p[1..], x);
      forall k | 0 <= k < |r| ensures p[0].timeout <= r[k].timeout {
        assert r[k] in multiset(p[1..]) + multiset{x};
        if r[k] != x {
          assert r[k] in p[1..];
        }
      }
    }
  }

  /** Every timer of `Insert(p, x)` is `x` or one of `p`'s. */
  lemma {:induction false} InsertHead(p: seq<Timer>, x: Timer)
    ensures multiset(Insert(p, x)) == multiset(p) + multiset{x}
  {
    if p != [] {
      if x.timeout < p[0].timeout {
        assert [x] + p == [x] + [p[0]] + p[1..];
      } else {
        InsertHead(p[1..], x);
        assert p == [p[0]] + p[1..];
      }
    }
  }

  /** Insertion adds exactly one timer. */
  lemma {:induction false} InsertLength(p: seq<Timer>, x: Timer)
    ensures |Insert(p, x)| == |p| + 1
  {
    if p != [] && x.timeout >= p[0].timeout {
      InsertLength(p[1..], x);
    }
  }

  lemma InsertIds(p: seq<Timer>, x: Timer)
    ensures Ids(Insert(p, x)) == Ids(p) + {x.id}
  {
    InsertAt(p, x, InsertPos(p, x.timeout));
    SpliceIds(p, x, InsertPos(p, x.timeout));
  }

  lemma InsertDistinct(p: seq<Timer>, x: Timer)
    requires Distinct(p) && x.id !in Ids(p)
    ensures Distinct(Insert(p, x))
  {
    InsertAt(p, x, InsertPos(p, x.timeout));
    SpliceDistinct(p, x, InsertPos(p, x.timeout));
  }

  lemma SpliceIds(p: seq<Timer>, x: Timer, pos: nat)
    requires pos <= |p|
    ensures Ids(p[..pos] + [x] + p[pos..]) == Ids(p) + {x.id}
  {
    var q := p[..pos] + [x] + p[pos..];
    forall i | i in Ids(q) ensures i in Ids(p) + {x.id} {
      var k :| 0 <= k < |q| && q[k].id == i;
      if k < pos { assert q[k] == p[k]; } else if k > pos { assert q[k] == p[k - 1]; }
    }
    forall i | i in Ids(p) + {x.id} ensures i in Ids(q) {
      if i == x.id {
        assert q[pos] == x;
      } else {
        var k :| 0 <= k < |p| && p[k].id == i;
        if k < pos { assert q[k] == p[k]; } else { assert q[k + 1] == p[k]; }
      }
    }
  }

  lemma SpliceDistinct(p: seq<Timer>, x: Timer, pos: nat)
    requires pos <= |p| && Distinct(p) && x.id !in Ids(p)
    ensures Distinct(p[..pos] + [x] + p[pos..])
  {
    var q := p[..pos] + [x] + p[pos..];
    forall j, k | 0 <= j < k < |q| ensures q[j].id != q[k].id {
      var j' := if j < pos then j else j - 1;
      var k' := if k < pos then k else k - 1;
      if j == pos {
        assert q[k] == p[k'] && p[k'].id in Ids(p);
      } else if k == pos {
        assert q[j] == p[j'] && p[j'].id in Ids(p);
      } else {
        assert q[j] == p[j'] && q[k] == p[k'] && j' < k';
      }
    }
  }

  // ---------------------------------------------------------------------
  // Removal

  /** Removal unlinks exactly the first match and keeps the rest in order. */
  lemma RemoveAt(p: seq<Timer>, id: int)
    ensures var k := IndexOf(p, id);
      RemoveFirst(p, id) == if k < |p| then p[..k] + p[k + 1..] else p
  {
    var k := IndexOf(p, id);
    if k < |p| {
      RemoveMatch(p, k);
    } else {
      RemoveNone(p, id);
    }
  }

  lemma {:induction false} RemoveMatch(p: seq<Timer>, k: nat)
    requires k < |p| && forall j :: 0 <= j < k ==> p[j].id != p[k].id
    ensures RemoveFirst(p, p[k].id) == p[..k] + p[k + 1..]
  {
    if k == 0 {
      assert p[..0] + p[1..] == p[1..];
    } else {
      var r := p[1..];
      assert r[k - 1] == p[k];
      RemoveMatch(r, k - 1);
      assert [p[0]] + (r[..k - 1] + r[k..]) == p[..k] + p[k + 1..];
    }
  }

  lemma {:induction false} RemoveNone(p: seq<Timer>, id: int)
    requires forall j :: 0 <= j < |p| ==> p[j].id != id
    ensures RemoveFirst(p, id) == p
  {
    if p != [] {
      assert p[0].id != id;
      var r := p[1..];
      assert forall j :: 0 <= j < |r| ==> r[j] == p[j + 1];
      RemoveNone(r, id);
      assert [p[0]] + r == p;
    }
  }

  /** Removing an id that is not linked changes nothing. */
  lemma RemoveAbsent(p: seq<Timer>, id: int)
    requires id !in Ids(p)
    ensures RemoveFirst(p, id) == p
  {
    RemoveAt(p, id);
  }

  lemma RemoveSorted(p: seq<Timer>, id: int)
    requires Sorted(p)
    ensures Sorted(RemoveFirst(p, id))
  {
    RemoveAt(p, id);
    var k := IndexOf(p, id);
    if k < |p| {
      CutShifts(p, k);
    }
  }

  /** Cutting position `k` keeps the timers before it and shifts the ones after it. */
  lemma CutShifts(p: seq<Timer>, k: nat)
    requires k < |p|
    ensures var q := p[..k] + p[k + 1..];
      |q| == |p| - 1 && (forall m :: 0 <= m < k ==> q[m] == p[m]) &&
      (forall m :: k <= m < |q| ==> q[m] == p[m + 1])
  {
  }

  /** In a list without repeated ids, removal takes exactly that id away. */
  lemma RemoveIds(p: seq<Timer>, id: int)
    requires Distinct(p)
    ensures Ids(RemoveFirst(p, id)) == Ids(p) - {id}
  {
    RemoveAt(p, id);
    var k := IndexOf(p, id);
    if k < |p| {
      CutIds(p, k);
    } else {
      RemoveAbsent(p, id);
    }
  }

  lemma CutIds(p: seq<Timer>, k: nat)
    requires k < |p| && Distinct(p)
    ensures Ids(p[..k] + p[k + 1..]) == Ids(p) - {p[k].id}
  {
    var q := p[..k] + p[k + 1..];
    assert forall m :: 0 <= m < k ==> q[m] == p[m];
    assert forall m :: k <= m < |q| ==> q[m] == p[m + 1];
    forall i | i in Ids(q) ensures i in Ids(p) - {p[k].id} {
      var m :| 0 <= m < |q| && q[m].id == i;
      if m < k { assert p[m].id == i; } else { assert p[m + 1].id == i; }
    }
    forall i | i in Ids(p) - {p[k].id} ensures i in Ids(q) {
      var m :| 0 <= m < |p| && p[m].id == i;
      if m < k { assert q[m].id == i; } else { assert q[m - 1].id == i; }
    }
  }

  lemma RemoveDistinct(p: seq<Timer>, id: int)
    requires Distinct(p)
    ensures Distinct(RemoveFirst(p, id))
  {
    RemoveAt(p, id);
    var k := IndexOf(p, id);
    if k < |p| {
      CutShifts(p, k);
    }
  }

  /** Removal undoes insertion of an id that was not linked. */
  lemma {:induction false} RemoveInsert(p: seq<Timer>, x: Timer)
    requires x.id !in Ids(p)
    ensures RemoveFirst(Insert(p, x), x.id) == p
  {
    if p != [] && x.timeout >= p[0].timeout {
      assert p[0].id in Ids(p);
      assert Ids(p[1..]) <= Ids(p) by {
        forall i | i in Ids(p[1..]) ensures i in Ids(p) {
          var k :| 0 <= k < |p[1..]| && p[1..][k].id == i;
          assert p[k + 1].id == i;
        }
      }
      RemoveInsert(p[1..], x);
    }
  }

  /**
   * Repositioning a linked timer (remove, then insert with its new timeout)
   * keeps the order and exactly the same set of linked ids.
   */
  lemma Reposition(p: seq<Timer>, id: int, t: Timestamp)
    requires Sorted(p) && Distinct(p) && id in Ids(p)
    ensures Sorted(Insert(RemoveFirst(p, id), Timer(id, t)))
    ensures Distinct(Insert(RemoveFirst(p, id), Timer(id, t)))
    ensures Ids(Insert(RemoveFirst(p, id), Timer(id, t))) == Ids(p)
  {
    RemoveSorted(p, id);
    RemoveIds(p, id);
    RemoveDistinct(p, id);
    InsertSorted(RemoveFirst(p, id), Timer(id, t));
    InsertDistinct(RemoveFirst(p, id), Timer(id, t));
    InsertIds(RemoveFirst(p, id), Timer(id, t));
  }

  // ---------------------------------------------------------------------
  // The removal walk as written

  /**
   * The walk as written agrees with unlinking only the match exactly when the
   * match is the head or the id is not linked at all.
   */
  lemma AsWrittenAgreesIff(p: seq<Timer>, id: int)
    ensures RemoveAsWritten(p, id) == RemoveFirst(p, id) <==>
            IndexOf(p, id) == 0 || IndexOf(p, id) == |p|
  {
    RemoveAt(p, id);
    var k := IndexOf(p, id);
    if 0 < k < |p| {
      assert |RemoveAsWritten(p, id)| == |p| - k - 1 < |p| - 1 == |RemoveFirst(p, id)|;
    } else if k == 0 && k < |p| {
      assert p[..0] + p[1..] == p[1..];
    }
  }

  /**
   * Two timers expiring at 100 and 200 with ids 0 and 1: removing id 1 as
   * written leaves nothing linked, where unlinking only the match keeps id 0.
   */
  lemma AsWrittenDropsEarlierTimer()
    ensures RemoveAsWritten([Timer(0, 100), Timer(1, 200)], 1) == []
    ensures RemoveFirst([Timer(0, 100), Timer(1, 200)], 1) == [Timer(0, 100)]
  {
    var p := [Timer(0, 100), Timer(1, 200)];
    assert IndexOf(p, 1) == 1 by {
      assert p[1..] == [Timer(1, 200)];
    }
  }
}
