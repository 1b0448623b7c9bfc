/**
 * `WebRTCContext` (webrtc-transfer/src/context.ts): callbacks registered by id, kept in a
 * map in insertion order, and a cached chain of them sorted by
 * `compareCallbackChainElement`. Creating and destroying the peer connection runs every
 * callback's `onConstruct`/`onDestruct` in chain order.
 *
 * Callbacks and peer connections are plain numbers; each callback invocation is
 * logged in `calls`.
 */
module Context {
  import opened Wrappers

  datatype ChainElement = ChainElement(id: string, callback: nat, priority: Option<int>, insertIndex: nat)

  datatype Call = Construct(callback: nat, peer: nat) | Destruct(callback: nat, peer: nat)

  /** `compareCallbackChainElement`. */
  function Compare(a: ChainElement, b: ChainElement): int {
    if a.priority.None? && b.priority.None? then a.insertIndex - b.insertIndex
    else if a.priority.None? then 1
    else if b.priority.None? then -1
    else if a.priority.value - b.priority.value == 0 then a.insertIndex - b.insertIndex
    else a.priority.value - b.priority.value
  }

  /** The comparator's order: prioritised before unprioritised, ascending priority, ties
      broken by insertion; swapping the arguments flips the sign, and only elements with
      the same insertion index compare equal. */
  lemma CompareOrder(a: ChainElement, b: ChainElement)
    ensures a.priority.Some? && b.priority.None? ==> Compare(a, b) < 0
    ensures a.priority.Some? && b.priority.Some? && a.priority.value < b.priority.value ==> Compare(a, b) < 0
    ensures a.priority == b.priority ==> (Compare(a, b) < 0 <==> a.insertIndex < b.insertIndex)
    ensures Compare(a, b) < 0 <==> Compare(b, a) > 0
    ensures Compare(a, b) == 0 <==> a.priority == b.priority && a.insertIndex == b.insertIndex
  {
  }

  lemma CompareTransitive(a: ChainElement, b: ChainElement, c: ChainElement)
    requires Compare(a, b) <= 0 && Compare(b, c) <= 0
    ensures Compare(a, c) <= 0
  {
  }

  predicate Sorted(xs: seq<ChainElement>) {
    forall i, j :: 0 <= i < j < |xs| ==> Compare(xs[i], xs[j]) <= 0
  }

  /** No two elements share an insertion index. */
  predicate DistinctIndices(xs: seq<ChainElement>) {
    forall i, j :: 0 <= i < j < |xs| ==> xs[i].insertIndex != xs[j].insertIndex
  }

  function InsertSorted(x: ChainElement, xs: seq<ChainElement>): (r: seq<ChainElement>)
    ensures |r| == |xs| + 1
  {
    if |xs| == 0 then [x]
    else if Compare(x, xs[0]) <= 0 then [x] + xs
    else [xs[0]] + InsertSorted(x, xs[1..])
  }

  /** `Array.from(callbacks.values()).sort(compareCallbackChainElement)`. */
  function SortChain(xs: seq<ChainElement>): (r: seq<ChainElement>)
    ensures |r| == |xs|
  {
    if |xs| == 0 then [] else InsertSorted(xs[0], SortChain(xs[1..]))
  }

  /** The tail of a sorted chain is sorted and lies above its head. */
  lemma SortedTail(xs: seq<ChainElement>)
    requires |xs| > 0 && Sorted(xs)
    ensures Sorted(xs[1..])
    ensures forall j :: 0 <= j < |xs| - 1 ==> Compare(xs[0], xs[1..][j]) <= 0
  {
    var t := xs[1..];
    forall i, j | 0 <= i < j < |t| ensures Compare(t[i], t[j]) <= 0 {
      assert t[i] == xs[i + 1] && t[j] == xs[j + 1];
    }
    forall j | 0 <= j < |t| ensures Compare(xs[0], t[j]) <= 0 {
      assert t[j] == xs[j + 1];
    }
  }

  /** A head below every element of a sorted tail gives a sorted chain. */
  lemma ConsSorted(h: ChainElement, t: seq<ChainElement>)
    requires Sorted(t) && forall j :: 0 <= j < |t| ==> Compare(h, t[j]) <= 0
    ensures Sorted([h] + t)
  {
    var r := [h] + t;
    forall i, j | 0 <= i < j < |r| ensures Compare(r[i], r[j]) <= 0 {
      assert r[j] == t[j - 1];
      if i > 0 {
        assert r[i] == t[i - 1];
      }
    }
  }

  lemma {:induction false} InsertSortedPerm(x: ChainElement, xs: seq<ChainElement>)
    ensures multiset(InsertSorted(x, xs)) == multiset(xs) + multiset{x}
  {
    if |xs| > 0 && Compare(x, xs[0]) > 0 {
      InsertSortedPerm(x, xs[1..]);
      assert xs == [xs[0]] + xs[1..];
    }
  }

  /** An element below `x` and below every element of `t` is below every element of
      `t` with `x` inserted. */
  lemma InsertSortedBound(h: ChainElement, x: ChainElement, t: seq<ChainElement>)
    requires Compare(h, x) <= 0 && forall j :: 0 <= j < |t| ==> Compare(h, t[j]) <= 0
    ensures forall j :: 0 <= j < |t| + 1 ==> Compare(h, InsertSorted(x, t)[j]) <= 0
  {
    var r := InsertSorted(x, t);
    InsertSortedPerm(x, t);
    forall j | 0 <= j < |r| ensures Compare(h, r[j]) <= 0 {
      assert r[j] in multiset(t) + multiset{x};
      if r[j] != x {
        assert r[j] in t;
      }
    }
  }

  lemma {:induction false} InsertSortedSorted(x: ChainElement, xs: seq<ChainElement>)
    requires Sorted(xs)
    ensures Sorted(InsertSorted(x, xs))
  {
    if |xs| > 0 {
      SortedTail(xs);
      if Compare(x, xs[0]) > 0 {
        InsertSortedSorted(x, xs[1..]);
        CompareOrder(x, xs[0]);
        InsertSortedBound(xs[0], x, xs[1..]);
        ConsSorted(xs[0], InsertSorted(x, xs[1..]));
      } else {
        assert xs == [xs[0]] + xs[1..];
        forall j | 0 <= j < |xs| ensures Compare(x, xs[j]) <= 0 {
          if j > 0 {
            CompareTransitive(x, xs[0], xs[j]);
          }
        }
        ConsSorted(x, xs);
      }
    }
  }

  lemma {:induction false} SortChainSorted(xs: seq<ChainElement>)
    ensures Sorted(SortChain(xs))
  {
    if |xs| > 0 {
      SortChainSorted(xs[1..]);
      InsertSortedSorted(xs[0], SortChain(xs[1..]));
    }
  }

  lemma {:induction false} SortChainPerm(xs: seq<ChainElement>)
    ensures multiset(SortChain(xs)) == multiset(xs)
  {
    if |xs| > 0 {
      SortChainPerm(xs[1..]);
      InsertSortedPerm(xs[0], SortChain(xs[1..]));
      assert xs == [xs[0]] + xs[1..];
    }
  }

  /** The chain is sorted by the comparator and holds exactly the registered elements. */
  lemma SortChainSpec(xs: seq<ChainElement>)
    ensures Sorted(SortChain(xs)) && multiset(SortChain(xs)) == multiset(xs)
  {
    SortChainSorted(xs);
    SortChainPerm(xs);
  }

  /** Two sorted chains of the same elements with distinct indices start alike. */
  lemma SortedHeadsEqual(xs: seq<ChainElement>, ys: seq<ChainElement>)
    requires |xs| > 0 && |ys| > 0
    requires Sorted(xs) && Sorted(ys) && multiset(xs) == multiset(ys) && DistinctIndices(xs)
    ensures xs[0] == ys[0]
  {
    assert xs[0] in multiset(ys) && ys[0] in multiset(xs);
    var k :| 0 <= k < |ys| && ys[k] == xs[0];
    var m :| 0 <= m < |xs| && xs[m] == ys[0];
    assert Compare(ys[0], xs[0]) <= 0 by {
      if k > 0 {
        assert Compare(ys[0], ys[k]) <= 0;
      }
    }
    assert Compare(xs[0], ys[0]) <= 0 by {
      if m > 0 {
        assert Compare(xs[0], xs[m]) <= 0;
      }
    }
    CompareOrder(xs[0], ys[0]);
  }

  lemma MultisetTail(xs: seq<ChainElement>, ys: seq<ChainElement>)
    requires |xs| > 0 && |ys| > 0 && xs[0] == ys[0] && multiset(xs) == multiset(ys)
    ensures multiset(xs[1..]) == multiset(ys[1..])
  {
    assert xs == [xs[0]] + xs[1..] && ys == [ys[0]] + ys[1..];
    assert multiset(xs) == multiset([xs[0]]) + multiset(xs[1..]);
    assert multiset(ys) == multiset([ys[0]]) + multiset(ys[1..]);
    forall e ensures multiset(xs[1..])[e] == multiset(ys[1..])[e] {
      assert multiset(xs)[e] == multiset([xs[0]])[e] + multiset(xs[1..])[e];
      assert multiset(ys)[e] == multiset([ys[0]])[e] + multiset(ys[1..])[e];
    }
  }

  /** Sorting by this comparator has one result once insertion indices are distinct, so
      the chain does not depend on the sort algorithm or on the map's iteration order. */
  lemma {:induction false} SortedUnique(xs: seq<ChainElement>, ys: seq<ChainElement>)
    requires Sorted(xs) && Sorted(ys) && multiset(xs) == multiset(ys) && DistinctIndices(xs)
    ensures xs == ys
  {
    assert |ys| == |multiset(ys)| == |xs|;
    if |xs| > 0 {
      SortedHeadsEqual(xs, ys);
      MultisetTail(xs, ys);
      SortedTail(xs);
      SortedTail(ys);
      assert DistinctIndices(xs[1..]) by {
        forall i, j | 0 <= i < j < |xs| - 1 ensures xs[1..][i].insertIndex != xs[1..][j].insertIndex {
          assert xs[1..][i] == xs[i + 1] && xs[1..][j] == xs[j + 1];
        }
      }
      SortedUnique(xs[1..], ys[1..]);
    }
  }

  /** The map's position of `id`, or -1. */
  function Find(cs: seq<ChainElement>, id: string): (r: int)
    ensures -1 <= r < |cs|
    ensures r >= 0 ==> cs[r].id == id
    ensures r < 0 ==> forall j :: 0 <= j < |cs| ==> cs[j].id != id
  {
    if |cs| == 0 then -1
    else if cs[0].id == id then 0
    else var k := Find(cs[1..], id); if k < 0 then -1 else k + 1
  }

  /** `callbacks.get(id)`. */
  function Get(cs: seq<ChainElement>, id: string): Option<ChainElement> {
    var i := Find(cs, id);
    if i < 0 then None else Some(cs[i])
  }

  /** `callbacks.set(id, e)`: an existing key keeps its position, a new one goes last. */
  function Put(cs: seq<ChainElement>, id: string, e: ChainElement): seq<ChainElement> {
    var i := Find(cs, id);
    if i < 0 then cs + [e] else cs[i := e]
  }

  /** `callbacks.delete(id)`. */
  function Delete(cs: seq<ChainElement>, id: string): seq<ChainElement> {
    var i := Find(cs, id);
    if i < 0 then cs else cs[..i] + cs[i + 1..]
  }

  /** The map's keys are distinct and each entry is stored under its own id. */
  predicate DistinctIds(cs: seq<ChainElement>) {
    forall i, j :: 0 <= i < j < |cs| ==> cs[i].id != cs[j].id
  }

  /** `set` then `get`: the entry just set is found, every other key is unchanged, and
      keys stay distinct. */
  lemma PutGet(cs: seq<ChainElement>, id: string, e: ChainElement, other: string)
    requires DistinctIds(cs) && e.id == id
    ensures DistinctIds(Put(cs, id, e))
    ensures Get(Put(cs, id, e), id) == Some(e)
    ensures other != id ==> Get(Put(cs, id, e), other) == Get(cs, other)
  {
    var i := Find(cs, id);
    var r := Put(cs, id, e);
    assert forall j :: 0 <= j < |cs| ==> r[j].id == cs[j].id;
    assert DistinctIds(r) by {
      forall a, b | 0 <= a < b < |r| ensures r[a].id != r[b].id {
        if b == |cs| {
          assert r[a] == cs[a];
        }
      }
    }
    FindAt(r, id, if i < 0 then |cs| else i);
    if other != id {
      var k := Find(cs, other);
      if k >= 0 {
        assert r[k] == cs[k];
        FindAt(r, other, k);
      } else {
        assert forall j :: 0 <= j < |r| ==> r[j].id != other;
      }
    }
  }

  /** `delete` then `get`: the key is gone and every other key is unchanged. */
  lemma DeleteGet(cs: seq<ChainElement>, id: string, other: string)
    requires DistinctIds(cs)
    ensures DistinctIds(Delete(cs, id))
    ensures Get(Delete(cs, id), id) == None
    ensures other != id ==> Get(Delete(cs, id), other) == Get(cs, other)
  {
    var i := Find(cs, id);
    if i >= 0 {
      RemoveKeepsDistinct(cs, i);
      if other != id {
        RemoveKeepsOthers(cs, i, other);
      }
    }
  }

  /** The entries after position `i` move one place forward. */
  lemma RemovedAt(cs: seq<ChainElement>, i: nat)
    requires i < |cs|
    ensures var r := cs[..i] + cs[i + 1..];
      |r| == |cs| - 1 && forall j :: 0 <= j < |r| ==> r[j] == (if j < i then cs[j] else cs[j + 1])
  {
  }

  /** Removing the entry at `i` keeps the keys distinct, and its key is gone. */
  lemma RemoveKeepsDistinct(cs: seq<ChainElement>, i: nat)
    requires DistinctIds(cs) && i < |cs|
    ensures DistinctIds(cs[..i] + cs[i + 1..])
    ensures forall e :: e in cs[..i] + cs[i + 1..] ==> e.id != cs[i].id
  {
    var r := cs[..i] + cs[i + 1..];
    RemovedAt(cs, i);
    forall a, b | 0 <= a < b < |r| ensures r[a].id != r[b].id {
      var a' := if a < i then a else a + 1;
      var b' := if b < i then b else b + 1;
      assert r[a] == cs[a'] && r[b] == cs[b'];
    }
    forall e | e in r ensures e.id != cs[i].id {
      var j :| 0 <= j < |r| && r[j] == e;
      var j' := if j < i then j else j + 1;
      assert r[j] == cs[j'] && j' != i;
    }
  }

  /** Removing the entry at `i` leaves the lookup of every other key as it was. */
  lemma RemoveKeepsOthers(cs: seq<ChainElement>, i: nat, other: string)
    requires DistinctIds(cs) && i < |cs| && other != cs[i].id
    ensures Get(cs[..i] + cs[i + 1..], other) == Get(cs, other)
  {
    var r := cs[..i] + cs[i + 1..];
    RemovedAt(cs, i);
    RemoveKeepsDistinct(cs, i);
    var k := Find(cs, other);
    if k >= 0 {
      var k' := if k < i then k else k - 1;
      assert r[k'] == cs[k];
      FindAt(r, other, k');
    } else {
      forall j | 0 <= j < |r| ensures r[j].id != other {
        var j' := if j < i then j else j + 1;
        assert r[j] == cs[j'];
      }
    }
  }

  /** In a map with distinct keys, the key at `k` is found at `k`. */
  lemma FindAt(cs: seq<ChainElement>, id: string, k: nat)
    requires DistinctIds(cs) && k < |cs| && cs[k].id == id
    ensures Find(cs, id) == k
  {
  }

  /** The callbacks of `es` in chain order, each called with `peer`. */
  function ConstructCalls(es: seq<ChainElement>, peer: nat): (r: seq<Call>)
    ensures |r| == |es|
  {
    seq(|es|, i requires 0 <= i < |es| => Construct(es[i].callback, peer))
  }

  function DestructCalls(es: seq<ChainElement>, peer: nat): (r: seq<Call>)
    ensures |r| == |es|
  {
    seq(|es|, i requires 0 <= i < |es| => Destruct(es[i].callback, peer))
  }

  /** The `for (const element of chain)` loops of `create` and `destroy`. */
  method RunChain(chain: seq<ChainElement>, peer: nat, construct: bool) returns (calls: seq<Call>)
    ensures calls == if construct then ConstructCalls(chain, peer) else DestructCalls(chain, peer)
  {
    calls := [];
    var i := 0;
    while i < |chain|
      invariant 0 <= i <= |chain|
      invariant calls == if construct then ConstructCalls(chain[..i], peer) else DestructCalls(chain[..i], peer)
    {
      if construct {
        calls := calls + [Construct(chain[i].callback, peer)];
        assert ConstructCalls(chain[..i + 1], peer) == ConstructCalls(chain[..i], peer) + [Construct(chain[i].callback, peer)];
      } else {
        calls := calls + [Destruct(chain[i].callback, peer)];
        assert DestructCalls(chain[..i + 1], peer) == DestructCalls(chain[..i], peer) + [Destruct(chain[i].callback, peer)];
      }
      i := i + 1;
    }
    assert chain[..i] == chain;
  }

  class WebRtcContext {
    var callbacks: seq<ChainElement>
    var chain: Option<seq<ChainElement>>
    var insertIndex: nat
    /** The peer connection, `inner`. */
    var inner: Option<nat>
    var isCaller: Option<bool>
    const uuid: string
    var calls: seq<Call>

    /** Keys are distinct, entries carry distinct insertion indices below the counter,
        and a cached chain is the sorted map. */
    ghost predicate Valid()
      reads this
    {
      DistinctIds(callbacks) && DistinctIndices(callbacks) &&
      (forall i :: 0 <= i < |callbacks| ==> callbacks[i].insertIndex < insertIndex) &&
      (chain.Some? ==> chain.value == SortChain(callbacks))
    }

    constructor (uuid: string)
      ensures Valid() && this.uuid == uuid
      ensures callbacks == [] && chain == None && insertIndex == 0 && inner == None && isCaller == None && calls == []
    {
      callbacks := [];
      chain := None;
      insertIndex := 0;
      inner := None;
      isCaller := None;
      this.uuid := uuid;
      calls := [];
    }

    /** `buildChain()`: the cached chain, or the sorted map, which is then cached. */
    method BuildChain() returns (r: seq<ChainElement>)
      requires Valid()
      modifies this
      ensures Valid()
      ensures r == SortChain(callbacks) && chain == Some(r)
      ensures old(chain).Some? ==> r == old(chain).value
      ensures callbacks == old(callbacks) && insertIndex == old(insertIndex)
      ensures inner == old(inner) && isCaller == old(isCaller) && calls == old(calls)
    {
      if chain.Some? {
        return chain.value;
      }
      r := SortChain(callbacks);
      chain := Some(r);
    }

    /** `register(id, callback, priority, trigger)`: replaces the entry for `id` with one
        carrying the next insertion index and drops the cached chain; with `trigger` and
        a live connection the old entry's `onDestruct` and then the new `onConstruct`
        run. */
    method Register(id: string, callback: nat, priority: Option<int>, trigger: bool)
      requires Valid()
      modifies this
      ensures Valid()
      ensures chain == None && insertIndex == old(insertIndex) + 1
      ensures callbacks == Put(old(callbacks), id, ChainElement(id, callback, priority, old(insertIndex)))
      ensures inner == old(inner) && isCaller == old(isCaller)
      ensures var legacy := Get(old(callbacks), id);
        calls == old(calls) +
          (if trigger && inner.Some? then
             (if legacy.Some? then [Destruct(legacy.value.callback, inner.value)] else []) + [Construct(callback, inner.value)]
           else [])
    {
      chain := None;
      var legacy := Get(callbacks, id);
      var e := ChainElement(id, callback, priority, insertIndex);
      PutValid(callbacks, id, e, insertIndex);
      callbacks := Put(callbacks, id, e);
      insertIndex := insertIndex + 1;
      if trigger && inner.Some? {
        if legacy.Some? {
          calls := calls + [Destruct(legacy.value.callback, inner.value)];
        }
        calls := calls + [Construct(callback, inner.value)];
      }
    }

    /** `unregister(id, trigger)`: drops the cached chain and deletes `id` if present; its
        `onDestruct` runs only with `trigger` and a live connection. */
    method Unregister(id: string, trigger: bool)
      requires Valid()
      modifies this
      ensures Valid()
      ensures chain == None && insertIndex == old(insertIndex)
      ensures callbacks == Delete(old(callbacks), id)
      ensures inner == old(inner) && isCaller == old(isCaller)
      ensures var legacy := Get(old(callbacks), id);
        calls == old(calls) + (if legacy.Some? && trigger && inner.Some? then [Destruct(legacy.value.callback, inner.value)] else [])
    {
      chain := None;
      var legacy := Get(callbacks, id);
      if legacy.Some? {
        DeleteValid(callbacks, id, insertIndex);
        callbacks := Delete(callbacks, id);
        if trigger && inner.Some? {
          calls := calls + [Destruct(legacy.value.callback, inner.value)];
        }
      }
    }

    /** `destroy()`: with a live connection, every `onDestruct` runs in chain order and
        `inner` and `is_caller` are cleared. */
    method Destroy()
      requires Valid()
      modifies this
      ensures Valid()
      ensures inner == None && callbacks == old(callbacks) && insertIndex == old(insertIndex)
      ensures old(inner).None? ==> calls == old(calls) && isCaller == old(isCaller) && chain == old(chain)
      ensures old(inner).Some? ==>
        calls == old(calls) + DestructCalls(SortChain(callbacks), old(inner).value) &&
        isCaller == None && chain == Some(SortChain(callbacks))
    {
      if inner.Some? {
        var c := BuildChain();
        var run := RunChain(c, inner.value, false);
        calls := calls + run;
        inner := None;
        isCaller := None;
      }
    }

    /** `create(config)`: destroys any connection, installs the new one `peer`, and runs
        every `onConstruct` in chain order. */
    method Create(peer: nat)
      requires Valid()
      modifies this
      ensures Valid()
      ensures inner == Some(peer) && callbacks == old(callbacks) && insertIndex == old(insertIndex)
      ensures chain == Some(SortChain(callbacks))
      ensures isCaller == (if old(inner).Some? then None else old(isCaller))
      ensures calls == old(calls) +
        (if old(inner).Some? then DestructCalls(SortChain(callbacks), old(inner).value) else []) +
        ConstructCalls(SortChain(callbacks), peer)
    {
      Destroy();
      inner := Some(peer);
      var c := BuildChain();
      var run := RunChain(c, peer, true);
      calls := calls + run;
    }
  }

  lemma PutValid(cs: seq<ChainElement>, id: string, e: ChainElement, counter: nat)
    requires DistinctIds(cs) && DistinctIndices(cs) && e.id == id && e.insertIndex == counter
    requires forall i :: 0 <= i < |cs| ==> cs[i].insertIndex < counter
    ensures var r := Put(cs, id, e);
      DistinctIds(r) && DistinctIndices(r) && forall i :: 0 <= i < |r| ==> r[i].insertIndex < counter + 1
  {
    PutGet(cs, id, e, id);
    var r := Put(cs, id, e);
    var k := Find(cs, id);
    forall a, b | 0 <= a < b < |r| ensures r[a].insertIndex != r[b].insertIndex {
      if a != k && b != k && b < |cs| {
        assert r[a] == cs[a] && r[b] == cs[b];
      } else if b == |cs| || b == k {
        assert r[a] == cs[a];
      } else {
        assert r[b] == cs[b];
      }
    }
  }

  lemma DeleteValid(cs: seq<ChainElement>, id: string, counter: nat)
    requires DistinctIds(cs) && DistinctIndices(cs)
    requires forall i :: 0 <= i < |cs| ==> cs[i].insertIndex < counter
    ensures var r := Delete(cs, id);
      DistinctIds(r) && DistinctIndices(r) && forall i :: 0 <= i < |r| ==> r[i].insertIndex < counter
  {
    DeleteGet(cs, id, id);
    var i := Find(cs, id);
    var r := Delete(cs, id);
    if i >= 0 {
      forall a, b | 0 <= a < b < |r| ensures r[a].insertIndex != r[b].insertIndex && r[a].insertIndex < counter {
        var a' := if a < i then a else a + 1;
        var b' := if b < i then b else b + 1;
        assert r[a] == cs[a'] && r[b] == cs[b'];
      }
      forall j | 0 <= j < |r| ensures r[j].insertIndex < counter {
        var j' := if j < i then j else j + 1;
        assert r[j] == cs[j'];
      }
    }
  }
}
