/**
 * `PriorityHandleManager` and `Handle` (webrtc-transfer/src/svchandle.ts): a list of
 * requests kept in stable priority order, each pending until the manager becomes ready
 * and then holding a handle, and the lifecycle pending -> ready -> invalid.
 *
 * Promises are numbered; their `resolve`/`reject` calls are logged in `settled`.
 * Handles are identified by number and their `_invalid` flags and `onInvalid`
 * callbacks are kept by the manager; every `onInvalid` invocation is logged in
 * `notified`. The handle factory is not modelled inside: each call's outcome (a handle or an
 * exception) is a parameter.
 */
module SvcHandle {
  import opened Wrappers
  import opened Priority

  /** A request: its priority, its handle once created, and its promise. */
  datatype Element = Element(priority: Option<int>, handle: Option<nat>, promise: nat)

  function ElementPriority(e: Element): Option<int> {
    e.priority
  }

  predicate HasHandle(e: Element) {
    e.handle.Some?
  }

  datatype Outcome = Resolved(handle: nat) | Rejected(reason: string)

  datatype Settlement = Settlement(promise: nat, outcome: Outcome)

  /** What one call of the handle factory did. */
  datatype Made = Made(handle: nat) | Threw(error: string)

  function OutcomeOf(m: Made): Outcome {
    match m
    case Made(h) => Resolved(h)
    case Threw(e) => Rejected(e)
  }

  /** The element after the `i`-th factory call of `makeReady` (a failed call leaves
      it without a handle). */
  function Filled(e: Element, m: Made): (r: Element)
    ensures r.priority == e.priority && r.promise == e.promise
    ensures m.Made? ==> r.handle == Some(m.handle)
    ensures m.Threw? ==> r == e
  {
    if m.Made? then e.(handle := Some(m.handle)) else e
  }

  /** The elements of `makeReady` after its loop, and its settlements in list order. */
  function FilledAll(es: seq<Element>, make: nat -> Made): (r: seq<Element>)
    ensures |r| == |es|
  {
    seq(|es|, i requires 0 <= i < |es| => Filled(es[i], make(i)))
  }

  function ReadySettlements(es: seq<Element>, make: nat -> Made): (r: seq<Settlement>)
    ensures |r| == |es|
  {
    seq(|es|, i requires 0 <= i < |es| => Settlement(es[i].promise, OutcomeOf(make(i))))
  }

  /** The rejections of `makeInvalid` on a manager that never became ready. */
  function ClosedSettlements(es: seq<Element>): (r: seq<Settlement>)
    ensures |r| == |es|
  {
    seq(|es|, i requires 0 <= i < |es| => Settlement(es[i].promise, Rejected("closed")))
  }

  function HandleOf(e: Element): nat {
    if e.handle.Some? then e.handle.value else 0
  }

  function HandleSet(es: seq<Element>): set<nat> {
    set i | 0 <= i < |es| :: HandleOf(es[i])
  }

  /** The handles among `es` whose `onInvalid` is set, in list order. */
  function Watched(es: seq<Element>, watching: set<nat>): seq<nat> {
    if |es| == 0 then []
    else Watched(es[..|es| - 1], watching) + (if HandleOf(es[|es| - 1]) in watching then [HandleOf(es[|es| - 1])] else [])
  }

  /** `findIndex((e) => e.handle === handle)`. */
  function IndexOfHandle(es: seq<Element>, h: nat): (r: int)
    ensures -1 <= r < |es|
    ensures r >= 0 ==> es[r].handle == Some(h)
    ensures forall j :: 0 <= j < |es| && (r < 0 || j < r) ==> es[j].handle != Some(h)
  {
    if |es| == 0 then -1
    else if es[0].handle == Some(h) then 0
    else var k := IndexOfHandle(es[1..], h); if k < 0 then -1 else k + 1
  }

  lemma FilledKeepsOrder(es: seq<Element>, make: nat -> Made)
    requires Ordered(es, ElementPriority)
    ensures Ordered(FilledAll(es, make), ElementPriority)
  {
    var r := FilledAll(es, make);
    forall i, j | 0 <= i < j < |r|
      ensures Le(ElementPriority(r[i]), ElementPriority(r[j]))
    {
      assert r[i] == Filled(es[i], make(i)) && r[j] == Filled(es[j], make(j));
      assert ElementPriority(r[i]) == ElementPriority(es[i]);
      assert ElementPriority(r[j]) == ElementPriority(es[j]);
    }
  }

  /** After `makeReady`'s filter only elements holding a handle remain, and they are the
      elements whose factory call succeeded, in list order. */
  lemma ReadyElements(es: seq<Element>, make: nat -> Made)
    requires Ordered(es, ElementPriority)
    requires forall i :: 0 <= i < |es| ==> es[i].handle.None?
    ensures var r := Filter(FilledAll(es, make), HasHandle);
      Ordered(r, ElementPriority) && (forall i :: 0 <= i < |r| ==> r[i].handle.Some?)
    ensures forall i :: 0 <= i < |es| ==>
      (Filled(es[i], make(i)) in Filter(FilledAll(es, make), HasHandle) <==> make(i).Made?)
  {
    var f := FilledAll(es, make);
    FilledKeepsOrder(es, make);
    FilterKeepsOrder(f, ElementPriority, HasHandle);
    var r := Filter(f, HasHandle);
    forall i | 0 <= i < |r|
      ensures r[i].handle.Some?
    {
      FilterKeeps(f, HasHandle, r[i]);
    }
    forall i | 0 <= i < |es|
      ensures Filled(es[i], make(i)) in r <==> make(i).Made?
    {
      assert f[i] == Filled(es[i], make(i));
      FilterKeeps(f, HasHandle, f[i]);
    }
  }

  class PriorityHandleManager {
    var elements: seq<Element>
    var invalid: bool
    /** `_createHandle` is set. */
    var ready: bool
    var nextPromise: nat
    var settled: seq<Settlement>
    /** The handles whose `_invalid` flag is set. */
    var invalidHandles: set<nat>
    /** The handles whose `onInvalid` callback is set. */
    var watching: set<nat>
    /** Every `onInvalid` invocation, by handle. */
    var notified: seq<nat>

    /** The list is ordered; pending elements have no handle and ready ones have one;
        an invalid manager holds nothing and has no factory. */
    ghost predicate Valid()
      reads this
    {
      Ordered(elements, ElementPriority) &&
      (forall i :: 0 <= i < |elements| ==> (elements[i].handle.Some? <==> ready)) &&
      (invalid ==> elements == [] && !ready)
    }

    constructor ()
      ensures Valid()
      ensures elements == [] && !invalid && !ready
      ensures settled == [] && invalidHandles == {} && watching == {} && notified == []
    {
      elements := [];
      invalid := false;
      ready := false;
      nextPromise := 0;
      settled := [];
      invalidHandles := {};
      watching := {};
      notified := [];
    }

    /** `add(priority)`: rejected with "closed" once invalid; otherwise the request is
        inserted at its priority position and, when the manager is ready, the factory is
        called at once: its handle resolves the promise, or its exception rejects the
        promise and the inserted element is removed again. */
    method Add(priority: Option<int>, made: Made) returns (p: nat)
      requires Valid()
      modifies this
      ensures Valid()
      ensures p == old(nextPromise) && nextPromise == p + 1
      ensures invalid == old(invalid) && ready == old(ready)
      ensures invalidHandles == old(invalidHandles) && watching == old(watching) && notified == old(notified)
      ensures old(invalid) ==>
        elements == old(elements) && settled == old(settled) + [Settlement(p, Rejected("closed"))]
      ensures !old(invalid) && !old(ready) ==>
        elements == Insert(old(elements), ElementPriority, Element(priority, None, p)) && settled == old(settled)
      ensures !old(invalid) && old(ready) && made.Made? ==>
        elements == Insert(old(elements), ElementPriority, Element(priority, Some(made.handle), p)) &&
        settled == old(settled) + [Settlement(p, Resolved(made.handle))]
      ensures !old(invalid) && old(ready) && made.Threw? ==>
        elements == old(elements) && settled == old(settled) + [Settlement(p, Rejected(made.error))]
    {
      p := nextPromise;
      nextPromise := nextPromise + 1;
      if invalid {
        settled := settled + [Settlement(p, Rejected("closed"))];
        return;
      }
      if !ready {
        InsertElement(Element(priority, None, p));
      } else {
        match made
        case Made(h) =>
          InsertElement(Element(priority, Some(h), p));
          settled := settled + [Settlement(p, Resolved(h))];
        case Threw(err) =>
          InsertAndDrop(Element(priority, None, p));
          settled := settled + [Settlement(p, Rejected(err))];
      }
    }

    /** The insertion step of `add`. */
    method InsertElement(e: Element)
      requires Valid() && !invalid && (e.handle.Some? <==> ready)
      modifies this
      ensures Valid()
      ensures elements == Insert(old(elements), ElementPriority, e)
      ensures invalid == old(invalid) && ready == old(ready) && nextPromise == old(nextPromise)
      ensures settled == old(settled) && invalidHandles == old(invalidHandles)
      ensures watching == old(watching) && notified == old(notified)
    {
      var insert := InsertPosition(elements, ElementPriority, e.priority);
      InsertKeepsOrder(elements, ElementPriority, e);
      elements := InsertAt(elements, insert, e);
    }

    /** `add` when the factory throws: the element is inserted and then spliced out at
        the same position, which leaves the list as it was. */
    method InsertAndDrop(e: Element)
      modifies this
      ensures elements == old(elements)
      ensures invalid == old(invalid) && ready == old(ready) && nextPromise == old(nextPromise)
      ensures settled == old(settled) && invalidHandles == old(invalidHandles)
      ensures watching == old(watching) && notified == old(notified)
    {
      var before := elements;
      var insert := InsertPosition(elements, ElementPriority, e.priority);
      elements := InsertAt(elements, insert, e);
      elements := RemoveAt(elements, insert);
      assert elements == before;
    }

    /** `Handle._makeInvalid`: sets the flag and calls `onInvalid` when it is set. */
    method InvalidateHandle(h: nat)
      modifies this
      ensures invalidHandles == old(invalidHandles) + {h}
      ensures notified == old(notified) + (if h in watching then [h] else [])
      ensures elements == old(elements) && invalid == old(invalid) && ready == old(ready)
      ensures nextPromise == old(nextPromise) && settled == old(settled) && watching == old(watching)
    {
      invalidHandles := invalidHandles + {h};
      if h in watching {
        notified := notified + [h];
      }
    }

    /** `remove(handle)`: false when invalid, not ready, or no element holds the
        handle; otherwise that element is deleted and its handle made invalid. */
    method Remove(h: nat) returns (ok: bool)
      requires Valid()
      modifies this
      ensures Valid()
      ensures invalid == old(invalid) && ready == old(ready)
      ensures nextPromise == old(nextPromise) && settled == old(settled) && watching == old(watching)
      ensures var i := IndexOfHandle(old(elements), h);
        ok == (!old(invalid) && old(ready) && i >= 0) &&
        (ok ==> elements == RemoveAt(old(elements), i) && invalidHandles == old(invalidHandles) + {h} &&
                notified == old(notified) + (if h in watching then [h] else [])) &&
        (!ok ==> elements == old(elements) && invalidHandles == old(invalidHandles) && notified == old(notified))
    {
      if invalid || !ready {
        return false;
      }
      var index := IndexOfHandle(elements, h);
      if index < 0 {
        return false;
      }
      RemoveKeepsOrder(elements, ElementPriority, index);
      elements := RemoveAt(elements, index);
      InvalidateHandle(h);
      ok := true;
    }

    /** `Handle.release`: asks the manager to remove the handle only while it is valid. */
    method Release(h: nat)
      requires Valid()
      modifies this
      ensures Valid()
      ensures invalid == old(invalid) && ready == old(ready)
      ensures nextPromise == old(nextPromise) && settled == old(settled) && watching == old(watching)
      ensures var i := IndexOfHandle(old(elements), h);
        var removed := h !in old(invalidHandles) && !old(invalid) && old(ready) && i >= 0;
        (removed ==> elements == RemoveAt(old(elements), i) && invalidHandles == old(invalidHandles) + {h} &&
                     notified == old(notified) + (if h in watching then [h] else [])) &&
        (!removed ==> elements == old(elements) && invalidHandles == old(invalidHandles) && notified == old(notified))
    {
      if h !in invalidHandles {
        var _ := Remove(h);
      }
    }

    /** Setting `onInvalid`: on an already invalid handle the callback runs at once. */
    method SetOnInvalid(h: nat)
      modifies this
      ensures watching == old(watching) + {h}
      ensures notified == old(notified) + (if h in invalidHandles then [h] else [])
      ensures elements == old(elements) && invalid == old(invalid) && ready == old(ready)
      ensures nextPromise == old(nextPromise) && settled == old(settled) && invalidHandles == old(invalidHandles)
    {
      watching := watching + {h};
      if h in invalidHandles {
        notified := notified + [h];
      }
    }

    /** `makeReady(createHandle)`: no-op once invalid; the first call runs the factory
        for each pending element in list order (`make(i)` is the `i`-th call's outcome),
        resolving or rejecting its promise, and drops the elements whose call threw. */
    method MakeReady(make: nat -> Made)
      requires Valid()
      modifies this
      ensures Valid()
      ensures invalid == old(invalid) && ready == !old(invalid)
      ensures invalidHandles == old(invalidHandles) && watching == old(watching) && notified == old(notified)
      ensures nextPromise == old(nextPromise)
      ensures old(invalid) || old(ready) ==> elements == old(elements) && settled == old(settled)
      ensures !old(invalid) && !old(ready) ==>
        elements == Filter(FilledAll(old(elements), make), HasHandle) &&
        settled == old(settled) + ReadySettlements(old(elements), make)
    {
      if invalid {
        return;
      }
      var needResolve := !ready;
      ready := true;
      if needResolve {
        ResolvePending(make);
      }
    }

    /** The loop of the first `makeReady`. */
    method ResolvePending(make: nat -> Made)
      requires Ordered(elements, ElementPriority) && !invalid
      requires forall i :: 0 <= i < |elements| ==> elements[i].handle.None?
      modifies this
      ensures Valid()
      ensures elements == Filter(FilledAll(old(elements), make), HasHandle)
      ensures settled == old(settled) + ReadySettlements(old(elements), make)
      ensures invalid == old(invalid) && ready
      ensures invalidHandles == old(invalidHandles) && watching == old(watching) && notified == old(notified)
      ensures nextPromise == old(nextPromise)
    {
      ready := true;
      var es := elements;
      var out, log, needFilter := CallFactory(es, make);
      settled := settled + log;
      ReadyElements(es, make);
      if needFilter {
        elements := Filter(out, HasHandle);
      } else {
        FilterAll(out, HasHandle);
        elements := out;
      }
    }

    /** `makeInvalid()`: idempotent; invalidates every ready handle in list order, or
        rejects every pending request with "closed", then empties the list and unsets
        the factory. */
    method MakeInvalid()
      requires Valid()
      modifies this
      ensures Valid()
      ensures invalid && !ready && elements == []
      ensures nextPromise == old(nextPromise) && watching == old(watching)
      ensures old(invalid) ==>
        settled == old(settled) && invalidHandles == old(invalidHandles) && notified == old(notified)
      ensures !old(invalid) && old(ready) ==>
        settled == old(settled) && invalidHandles == old(invalidHandles) + HandleSet(old(elements)) &&
        notified == old(notified) + Watched(old(elements), watching)
      ensures !old(invalid) && !old(ready) ==>
        settled == old(settled) + ClosedSettlements(old(elements)) &&
        invalidHandles == old(invalidHandles) && notified == old(notified)
    {
      if invalid {
        return;
      }
      invalid := true;
      if ready {
        InvalidateAll();
        ready := false;
      } else {
        settled := settled + ClosedSettlements(elements);
      }
      elements := [];
    }

    /** The loop of `makeInvalid` over ready elements. */
    method InvalidateAll()
      modifies this
      ensures invalidHandles == old(invalidHandles) + HandleSet(old(elements))
      ensures notified == old(notified) + Watched(old(elements), watching)
      ensures elements == old(elements) && invalid == old(invalid) && ready == old(ready)
      ensures nextPromise == old(nextPromise) && settled == old(settled) && watching == old(watching)
    {
      var es := elements;
      var i := 0;
      while i < |es|
        invariant 0 <= i <= |es| && elements == es
        invariant invalidHandles == old(invalidHandles) + HandleSet(es[..i])
        invariant notified == old(notified) + Watched(es[..i], watching)
        invariant invalid == old(invalid) && ready == old(ready)
        invariant nextPromise == old(nextPromise) && settled == old(settled) && watching == old(watching)
      {
        HandleSetSnoc(es, i);
        assert es[..i + 1][..i] == es[..i];
        InvalidateHandle(HandleOf(es[i]));
        i := i + 1;
      }
      assert es[..i] == es;
    }
  }

  /** The factory calls of the first `makeReady`, one per element in list order; the
      filter is needed exactly when some call threw. */
  method CallFactory(es: seq<Element>, make: nat -> Made) returns (out: seq<Element>, log: seq<Settlement>, needFilter: bool)
    requires forall i :: 0 <= i < |es| ==> es[i].handle.None?
    ensures out == FilledAll(es, make) && log == ReadySettlements(es, make)
    ensures !needFilter ==> forall j :: 0 <= j < |out| ==> HasHandle(out[j])
  {
    out, log, needFilter := [], [], false;
    var i := 0;
    while i < |es|
      invariant 0 <= i <= |es|
      invariant out == FilledAll(es[..i], make)
      invariant log == ReadySettlements(es[..i], make)
      invariant !needFilter ==> forall j :: 0 <= j < i ==> make(j).Made?
    {
      var m := make(i);
      out := out + [Filled(es[i], m)];
      log := log + [Settlement(es[i].promise, OutcomeOf(m))];
      if m.Threw? {
        needFilter := true;
      }
      i := i + 1;
      assert out == FilledAll(es[..i], make);
      assert log == ReadySettlements(es[..i], make);
    }
    assert es[..i] == es;
    assert !needFilter ==> forall j :: 0 <= j < |out| ==> out[j] == Filled(es[j], make(j));
  }

  lemma HandleSetSnoc(es: seq<Element>, i: nat)
    requires i < |es|
    ensures HandleSet(es[..i + 1]) == HandleSet(es[..i]) + {HandleOf(es[i])}
  {
    var a := es[..i];
    var b := es[..i + 1];
    forall x | x in HandleSet(b) ensures x in HandleSet(a) + {HandleOf(es[i])} {
      var k :| 0 <= k < |b| && HandleOf(b[k]) == x;
      if k < i {
        assert a[k] == b[k];
      }
    }
    forall x | x in HandleSet(a) ensures x in HandleSet(b) {
      var k :| 0 <= k < |a| && HandleOf(a[k]) == x;
      assert b[k] == a[k];
    }
    assert b[i] == es[i];
  }
}
