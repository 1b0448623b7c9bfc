/**
 * The list helpers of webrtc-transfer/src/webrtcsvc.ts: a lifecycle list kept in stable
 * priority order whose handles come from one module-wide counter, the status-callback
 * list of `WebRTCService`, and the `label|uuid` data-channel label.
 *
 * Callbacks and the peer connection are plain numbers; `spawn(callback, data)` runs
 * the callback at once, and each such call is logged in the runtime's `calls`.
 */
module WebRtcSvc {
  import opened Wrappers
  import opened Priority
  import opened Strings

  datatype LifeCycleElement = LifeCycleElement(construct: nat, destruct: nat, priority: Option<int>, handle: nat)

  function LifeCyclePriority(e: LifeCycleElement): Option<int> {
    e.priority
  }

  /** A callback invoked with a value. */
  datatype Call = Construct(callback: nat, value: nat) | Destruct(callback: nat, value: nat)

  /** The module's global state: `handleCounter`, and the callbacks run so far. */
  class Runtime {
    var handleCounter: nat
    var calls: seq<Call>

    constructor ()
      ensures handleCounter == 0 && calls == []
    {
      handleCounter := 0;
      calls := [];
    }
  }

  /** A lifecycle list: ordered, with distinct positive handles issued by `rt`. */
  ghost predicate ListValid(list: seq<LifeCycleElement>, counter: nat) {
    Ordered(list, LifeCyclePriority) &&
    (forall i :: 0 <= i < |list| ==> 0 < list[i].handle <= counter) &&
    (forall i, j :: 0 <= i < j < |list| ==> list[i].handle != list[j].handle)
  }

  /** `findIndex((e) => e.handle === handle)`. */
  function IndexOfHandle(list: seq<LifeCycleElement>, h: nat): (r: int)
    ensures -1 <= r < |list|
    ensures r >= 0 ==> list[r].handle == h
    ensures forall j :: 0 <= j < |list| && (r < 0 || j < r) ==> list[j].handle != h
  {
    if |list| == 0 then -1
    else if list[0].handle == h then 0
    else var k := IndexOfHandle(list[1..], h); if k < 0 then -1 else k + 1
  }

  class LifeCycleList {
    var elements: seq<LifeCycleElement>

    constructor ()
      ensures elements == []
    {
      elements := [];
    }
  }

  /** `addPriorityLifeCycleElement`: takes the next handle from the counter, inserts the
      element at its priority position and, when `data` is given, runs `onConstruct`. */
  method AddPriorityLifeCycleElement(list: LifeCycleList, rt: Runtime, construct: nat, destruct: nat,
                                     priority: Option<int>, data: Option<nat>) returns (handle: nat)
    requires ListValid(list.elements, rt.handleCounter)
    modifies list, rt
    ensures ListValid(list.elements, rt.handleCounter)
    ensures handle == old(rt.handleCounter) + 1 && rt.handleCounter == handle
    ensures list.elements == Insert(old(list.elements), LifeCyclePriority, LifeCycleElement(construct, destruct, priority, handle))
    ensures rt.calls == old(rt.calls) + (if data.Some? then [Construct(construct, data.value)] else [])
  {
    rt.handleCounter := rt.handleCounter + 1;
    handle := rt.handleCounter;
    var element := LifeCycleElement(construct, destruct, priority, handle);
    InsertFresh(list.elements, element, handle - 1);
    var index := InsertPosition(list.elements, LifeCyclePriority, priority);
    list.elements := InsertAt(list.elements, index, element);
    if data.Some? {
      rt.calls := rt.calls + [Construct(construct, data.value)];
    }
  }

  /** Inserting an element whose handle is above every issued one keeps the list valid. */
  lemma InsertFresh(list: seq<LifeCycleElement>, e: LifeCycleElement, counter: nat)
    requires ListValid(list, counter) && e.handle == counter + 1
    ensures ListValid(Insert(list, LifeCyclePriority, e), counter + 1)
  {
    InsertKeepsOrder(list, LifeCyclePriority, e);
    var r := Insert(list, LifeCyclePriority, e);
    var k := InsertPosition(list, LifeCyclePriority, e.priority);
    forall i, j | 0 <= i < j < |r|
      ensures r[i].handle != r[j].handle
    {
      if i != k && j != k {
        var i' := if i < k then i else i - 1;
        var j' := if j < k then j else j - 1;
        assert r[i] == list[i'] && r[j] == list[j'];
      } else if i == k {
        assert r[j] == list[j - 1];
      } else {
        assert r[i] == list[i];
      }
    }
  }

  /** `removePriorityLifeCycleElement`: true iff an element holds the handle; that one
      is spliced out and, when `data` is given, its `onDestruct` runs. */
  method RemovePriorityLifeCycleElement(list: LifeCycleList, rt: Runtime, handle: nat, data: Option<nat>) returns (ok: bool)
    requires ListValid(list.elements, rt.handleCounter)
    modifies list, rt
    ensures ListValid(list.elements, rt.handleCounter)
    ensures rt.handleCounter == old(rt.handleCounter)
    ensures var i := IndexOfHandle(old(list.elements), handle);
      ok == (i >= 0) &&
      (ok ==> list.elements == RemoveAt(old(list.elements), i) &&
              rt.calls == old(rt.calls) + (if data.Some? then [Destruct(old(list.elements)[i].destruct, data.value)] else [])) &&
      (!ok ==> list.elements == old(list.elements) && rt.calls == old(rt.calls))
  {
    var index := IndexOfHandle(list.elements, handle);
    if index >= 0 {
      var removed := list.elements[index];
      RemoveValid(list.elements, rt.handleCounter, index);
      list.elements := RemoveAt(list.elements, index);
      if data.Some? {
        rt.calls := rt.calls + [Destruct(removed.destruct, data.value)];
      }
      return true;
    }
    return false;
  }

  lemma RemoveValid(list: seq<LifeCycleElement>, counter: nat, k: nat)
    requires k < |list| && ListValid(list, counter)
    ensures ListValid(RemoveAt(list, k), counter)
  {
    RemoveKeepsOrder(list, LifeCyclePriority, k);
    var r := RemoveAt(list, k);
    forall i, j | 0 <= i < j < |r|
      ensures r[i].handle != r[j].handle
    {
      var i' := if i < k then i else i + 1;
      var j' := if j < k then j else j + 1;
      assert r[i] == list[i'] && r[j] == list[j'];
    }
  }

  /** Removing a handle removes exactly the element holding it: no remaining element
      holds it (handles are distinct), and the others keep their order. */
  lemma RemoveExactlyOne(list: seq<LifeCycleElement>, counter: nat, h: nat)
    requires ListValid(list, counter) && IndexOfHandle(list, h) >= 0
    ensures var r := RemoveAt(list, IndexOfHandle(list, h));
      |r| == |list| - 1 && forall i :: 0 <= i < |r| ==> r[i].handle != h
  {
    var k := IndexOfHandle(list, h);
    var r := RemoveAt(list, k);
    forall i | 0 <= i < |r|
      ensures r[i].handle != h
    {
      if i >= k {
        assert r[i] == list[i + 1];
        assert list[k].handle != list[i + 1].handle;
      }
    }
  }

  /** The handle-issuing part of `WebRTCService`. */
  class WebRtcService {
    const uuid: string
    const rt: Runtime
    const connHandles: LifeCycleList
    /** The current peer connection, `_conn`. */
    var conn: Option<nat>
    var statusCallbacks: seq<nat>
    /** `_handleDataChannels`. */
    var dataChannelsHandle: nat

    ghost predicate Valid()
      reads this, rt, connHandles
    {
      ListValid(connHandles.elements, rt.handleCounter)
    }

    /** The constructor registers the service's own data-channel pair (`initChannels`,
        `dropChannels`) as the first peer-connection lifecycle element. */
    constructor (uuid: string, rt: Runtime, initChannels: nat, dropChannels: nat)
      modifies rt
      ensures Valid() && this.uuid == uuid && this.rt == rt
      ensures dataChannelsHandle == old(rt.handleCounter) + 1 && rt.handleCounter == dataChannelsHandle
      ensures connHandles.elements == [LifeCycleElement(initChannels, dropChannels, None, dataChannelsHandle)]
      ensures conn == None && statusCallbacks == [] && rt.calls == old(rt.calls)
    {
      this.uuid := uuid;
      this.rt := rt;
      connHandles := new LifeCycleList();
      conn := None;
      statusCallbacks := [];
      dataChannelsHandle := 0;
      new;
      dataChannelsHandle := AddPriorityLifeCycleElement(connHandles, rt, initChannels, dropChannels, None, None);
    }

    /** `onStatusChange`. */
    method OnStatusChange(callback: nat)
      modifies this
      ensures statusCallbacks == old(statusCallbacks) + [callback] && conn == old(conn)
    {
      statusCallbacks := statusCallbacks + [callback];
    }

    /** `offStatusChange`: removes the first occurrence of the callback only. */
    method OffStatusChange(callback: nat)
      modifies this
      ensures var i := IndexOf(old(statusCallbacks), callback);
        statusCallbacks == (if i >= 0 then old(statusCallbacks)[..i] + old(statusCallbacks)[i + 1..] else old(statusCallbacks))
      ensures conn == old(conn)
    {
      var index := IndexOf(statusCallbacks, callback);
      if index >= 0 {
        statusCallbacks := statusCallbacks[..index] + statusCallbacks[index + 1..];
      }
    }

    /** `registerPeerConnection`. */
    method RegisterPeerConnection(construct: nat, destruct: nat, priority: Option<int>) returns (handle: nat)
      requires Valid()
      modifies connHandles, rt
      ensures Valid()
      ensures handle == old(rt.handleCounter) + 1 && handle > 0
      ensures connHandles.elements ==
        Insert(old(connHandles.elements), LifeCyclePriority, LifeCycleElement(construct, destruct, priority, handle))
      ensures rt.calls == old(rt.calls) + (if conn.Some? then [Construct(construct, conn.value)] else [])
    {
      handle := AddPriorityLifeCycleElement(connHandles, rt, construct, destruct, priority, conn);
    }

    /** `unregisterPeerConnection`: handle 0 is never issued and yields false at once. */
    method UnregisterPeerConnection(handle: nat) returns (ok: bool)
      requires Valid()
      modifies connHandles, rt
      ensures Valid()
      ensures handle == 0 ==> !ok && connHandles.elements == old(connHandles.elements) && rt.calls == old(rt.calls)
      ensures handle != 0 ==> ok == (IndexOfHandle(old(connHandles.elements), handle) >= 0)
      ensures ok ==> connHandles.elements == RemoveAt(old(connHandles.elements), IndexOfHandle(old(connHandles.elements), handle))
      ensures !ok ==> connHandles.elements == old(connHandles.elements)
      ensures handle != 0 ==>
        var i := IndexOfHandle(old(connHandles.elements), handle);
        rt.calls == old(rt.calls) + (if ok && conn.Some? then [Destruct(old(connHandles.elements)[i].destruct, conn.value)] else [])
      ensures rt.handleCounter == old(rt.handleCounter)
    {
      if handle == 0 {
        return false;
      }
      ok := RemovePriorityLifeCycleElement(connHandles, rt, handle, conn);
    }
  }

  /** `offStatusChange` removes exactly one occurrence: the count of the callback drops
      by one when it was present, and no other callback is affected. */
  lemma OffRemovesOne(xs: seq<nat>, x: nat, y: nat)
    requires IndexOf(xs, x) >= 0
    ensures var i := IndexOf(xs, x);
      multiset(xs[..i] + xs[i + 1..])[y] == multiset(xs)[y] - (if y == x then 1 else 0)
  {
    var i := IndexOf(xs, x);
    var a, b := xs[..i], xs[i + 1..];
    assert xs == a + [x] + b;
    assert multiset(xs) == multiset(a) + multiset{x} + multiset(b);
    assert multiset(a + b) == multiset(a) + multiset(b);
  }

  /** `generateDataChannelLabel`. */
  function GenerateDataChannelLabel(name: string, uuid: string): (r: string)
    ensures |r| == |name| + 1 + |uuid| && r[|name|] == '|'
  {
    name + "|" + uuid
  }

  /** `parseDataChannelLabel`: split at the last `|`, or the whole label and "". */
  function ParseDataChannelLabel(labelFull: string): (r: (string, string))
    ensures LastIndexOf(labelFull, '|') < 0 ==> r == (labelFull, "")
    ensures LastIndexOf(labelFull, '|') >= 0 ==>
      r.0 + "|" + r.1 == labelFull && '|' !in r.1
  {
    var index := LastIndexOf(labelFull, '|');
    if index < 0 then (labelFull, "")
    else
      var r := (labelFull[..index], labelFull[index + 1..]);
      assert labelFull == labelFull[..index] + [labelFull[index]] + labelFull[index + 1..];
      r
  }

  /** The label round-trip: any label, and a uuid with no `|`. */
  lemma LabelRoundTrip(name: string, uuid: string)
    requires '|' !in uuid
    ensures ParseDataChannelLabel(GenerateDataChannelLabel(name, uuid)) == (name, uuid)
  {
    var s := GenerateDataChannelLabel(name, uuid);
    LastIndexOfAfter(name, uuid);
    var r := ParseDataChannelLabel(s);
    assert s[..|name|] == name;
    assert s[|name| + 1..] == uuid;
  }

  lemma LastIndexOfAfter(name: string, uuid: string)
    requires '|' !in uuid
    ensures LastIndexOf(name + "|" + uuid, '|') == |name|
  {
    var s := name + "|" + uuid;
    assert s[|name|] == '|';
    assert s[|name| + 1..] == uuid;
  }
}

