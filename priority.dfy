/**
 * Stable priority insertion, as shared by `PriorityHandleManager.add` and
 * `addPriorityLifeCycleElement`: a list is kept as "prioritised elements in ascending
 * priority, then unprioritised ones", each group in insertion order.
 */
module Priority {
  import opened Wrappers

  /** `a` may stand before `b`: prioritised before unprioritised, then ascending. */
  predicate Le(a: Option<int>, b: Option<int>) {
    b.None? || (a.Some? && a.value <= b.value)
  }

  predicate Ordered<E>(xs: seq<E>, prio: E -> Option<int>) {
    forall i, j :: 0 <= i < j < |xs| ==> Le(prio(xs[i]), prio(xs[j]))
  }

  /** `findIndex` for a prioritised element: the first element that is unprioritised
      or has a strictly larger priority, or the length when there is none. */
  function FindInsert<E>(xs: seq<E>, prio: E -> Option<int>, p: int): (k: nat)
    ensures k <= |xs|
    ensures forall i :: 0 <= i < k ==> prio(xs[i]).Some? && prio(xs[i]).value <= p
    ensures k < |xs| ==> prio(xs[k]).None? || p < prio(xs[k]).value
  {
    if |xs| == 0 then 0
    else if prio(xs[0]).None? || p < prio(xs[0]).value then 0
    else 1 + FindInsert(xs[1..], prio, p)
  }

  /** Where a new element with priority `p` goes: at the end when it has none or the
      list is empty, else before the first unprioritised or strictly larger element. */
  function InsertPosition<E>(xs: seq<E>, prio: E -> Option<int>, p: Option<int>): (k: nat)
    ensures k <= |xs|
    ensures p.None? ==> k == |xs|
  {
    if p.None? || |xs| == 0 then |xs| else FindInsert(xs, prio, p.value)
  }

  /** `splice(k, 0, x)`. */
  function InsertAt<E>(xs: seq<E>, k: nat, x: E): (r: seq<E>)
    requires k <= |xs|
    ensures |r| == |xs| + 1 && r[k] == x
    ensures forall i :: 0 <= i < |r| && i != k ==> r[i] == (if i < k then xs[i] else xs[i - 1])
  {
    xs[..k] + [x] + xs[k..]
  }

  /** `splice(k, 1)`. */
  function RemoveAt<E>(xs: seq<E>, k: nat): (r: seq<E>)
    requires k < |xs|
    ensures |r| == |xs| - 1
    ensures forall i :: 0 <= i < |r| ==> r[i] == (if i < k then xs[i] else xs[i + 1])
  {
    xs[..k] + xs[k + 1..]
  }

  /** The list with `x` inserted at its priority position. */
  function Insert<E>(xs: seq<E>, prio: E -> Option<int>, x: E): seq<E> {
    InsertAt(xs, InsertPosition(xs, prio, prio(x)), x)
  }

  /** The insertion is stable: every element before the new one has a priority no larger
      than its own, every element after it is unprioritised or strictly larger. */
  lemma InsertIsStable<E>(xs: seq<E>, prio: E -> Option<int>, x: E)
    requires Ordered(xs, prio)
    ensures var k := InsertPosition(xs, prio, prio(x));
      (forall i :: 0 <= i < k ==> Le(prio(xs[i]), prio(x))) &&
      (forall i :: k <= i < |xs| ==> prio(xs[i]).None? || (prio(x).Some? && prio(x).value < prio(xs[i]).value))
  {
    var k := InsertPosition(xs, prio, prio(x));
    if prio(x).Some? && k < |xs| {
      forall i | k <= i < |xs|
        ensures prio(xs[i]).None? || prio(x).value < prio(xs[i]).value
      {
        if i > k {
          assert Le(prio(xs[k]), prio(xs[i]));
        }
      }
    }
  }

  /** Inserting at the priority position keeps the list ordered. */
  lemma InsertKeepsOrder<E>(xs: seq<E>, prio: E -> Option<int>, x: E)
    requires Ordered(xs, prio)
    ensures Ordered(Insert(xs, prio, x), prio)
  {
    var k := InsertPosition(xs, prio, prio(x));
    var r := Insert(xs, prio, x);
    InsertIsStable(xs, prio, x);
    forall i, j | 0 <= i < j < |r|
      ensures Le(prio(r[i]), prio(r[j]))
    {
      if j < k {
        assert Le(prio(xs[i]), prio(xs[j]));
      } else if j == k {
        assert r[i] == xs[i];
      } else if i == k {
        assert r[j] == xs[j - 1];
      } else if i < k {
        assert r[i] == xs[i] && r[j] == xs[j - 1];
        assert Le(prio(xs[i]), prio(xs[j - 1]));
      } else {
        assert r[i] == xs[i - 1] && r[j] == xs[j - 1];
        assert Le(prio(xs[i - 1]), prio(xs[j - 1]));
      }
    }
  }

  /** Removing any one element keeps the list ordered. */
  lemma RemoveKeepsOrder<E>(xs: seq<E>, prio: E -> Option<int>, k: nat)
    requires k < |xs| && Ordered(xs, prio)
    ensures Ordered(RemoveAt(xs, k), prio)
  {
    var r := RemoveAt(xs, k);
    forall i, j | 0 <= i < j < |r|
      ensures Le(prio(r[i]), prio(r[j]))
    {
      var i' := if i < k then i else i + 1;
      var j' := if j < k then j else j + 1;
      assert r[i] == xs[i'] && r[j] == xs[j'];
    }
  }

  /** `filter(keep)`. */
  function Filter<E>(xs: seq<E>, keep: E -> bool): (r: seq<E>)
    ensures |r| <= |xs|
  {
    if |xs| == 0 then [] else (if keep(xs[0]) then [xs[0]] else []) + Filter(xs[1..], keep)
  }

  lemma {:induction false} FilterKeeps<E>(xs: seq<E>, keep: E -> bool, y: E)
    ensures y in Filter(xs, keep) <==> y in xs && keep(y)
  {
    if |xs| > 0 {
      FilterKeeps(xs[1..], keep, y);
      assert xs == [xs[0]] + xs[1..];
    }
  }

  lemma {:induction false} FilterAll<E>(xs: seq<E>, keep: E -> bool)
    requires forall i :: 0 <= i < |xs| ==> keep(xs[i])
    ensures Filter(xs, keep) == xs
  {
    if |xs| > 0 {
      FilterAll(xs[1..], keep);
      assert xs == [xs[0]] + xs[1..];
    }
  }

  /** Filtering keeps the list ordered. */
  lemma {:induction false} FilterKeepsOrder<E>(xs: seq<E>, prio: E -> Option<int>, keep: E -> bool)
    requires Ordered(xs, prio)
    ensures Ordered(Filter(xs, keep), prio)
  {
    if |xs| > 0 {
      var tail := Filter(xs[1..], keep);
      assert Ordered(xs[1..], prio) by {
        forall i, j | 0 <= i < j < |xs[1..]|
          ensures Le(prio(xs[1..][i]), prio(xs[1..][j]))
        {
          assert xs[1..][i] == xs[i + 1] && xs[1..][j] == xs[j + 1];
        }
      }
      FilterKeepsOrder(xs[1..], prio, keep);
      if keep(xs[0]) {
        var r := [xs[0]] + tail;
        forall i, j | 0 <= i < j < |r|
          ensures Le(prio(r[i]), prio(r[j]))
        {
          if i == 0 {
            FilterKeeps(xs[1..], keep, r[j]);
            var m :| 0 <= m < |xs[1..]| && xs[1..][m] == r[j];
            assert xs[m + 1] == r[j];
          } else {
            assert r[i] == tail[i - 1] && r[j] == tail[j - 1];
          }
        }
      }
    }
  }
}
