/** The version-list reshaping of web-mcping/src/protocol-versions.ts, applied to JSON
    that is already parsed. Each element of the versions document carries either a
    packets object or a number. A number names another element (by its decimal key)
    whose packets are shared. `rectifyPackets` rewrites an array-valued `c2s`/`s2c` in
    place as `{play: array}`. `getVersions` resolves and rectifies every element, keeps
    the ones with a `protocol_id` and hands them back in reverse iteration order. */
module ProtocolVersions {
  import opened Wrappers
  import opened Strings

  /** `ProtocolPacket | string[]`: a bare list of packet names, or a table of them keyed
      by connection state. */
  datatype Side = Names(names: seq<string>) | Table(t: map<string, seq<string>>)

  /** The value `rectifyPackets` leaves in one side: a bare list becomes `{play: list}`,
      and a table is left as it is. */
  function Wrap(s: Side): (r: Side)
    ensures r.Table?
    ensures s.Table? ==> r == s
    ensures s.Names? ==> r.t.Keys == {"play"} && r.t["play"] == s.names
  {
    match s
    case Names(xs) => Table(map["play" := xs])
    case Table(_) => s
  }

  /** Rectifying twice is rectifying once. */
  lemma WrapIdempotent(s: Side)
    ensures Wrap(Wrap(s)) == Wrap(s)
  {
  }

  /** `ProtocolPacketsRaw`: a mutable object with a `c2s` and an `s2c` side. */
  class Packets {
    var c2s: Side
    var s2c: Side

    constructor (c2s: Side, s2c: Side)
      ensures this.c2s == c2s && this.s2c == s2c
    {
      this.c2s := c2s;
      this.s2c := s2c;
    }

    /** `rectifyPackets`: both sides wrapped, in place. */
    method Rectify()
      modifies this
      ensures c2s == Wrap(old(c2s)) && s2c == Wrap(old(s2c))
    {
      if c2s.Names? {
        c2s := Table(map["play" := c2s.names]);
      }
      if s2c.Names? {
        s2c := Table(map["play" := s2c.names]);
      }
    }
  }

  /** `packets: number | ProtocolPacketsRaw`. */
  datatype PacketsField = Ref(n: int) | Obj(p: Packets)

  /** `ProtocolElementRaw`: the `packets` field is reassigned by `getVersions`. */
  class Element {
    const name: string
    const protocolId: Option<int>
    var packets: PacketsField

    constructor (name: string, protocolId: Option<int>, packets: PacketsField)
      ensures this.name == name && this.protocolId == protocolId && this.packets == packets
    {
      this.name := name;
      this.protocolId := protocolId;
      this.packets := packets;
    }
  }

  /** `element.packets.toString()`: the key a numeric `packets` refers to. */
  function RefKey(n: int): string {
    IntToString(n)
  }

  /** `k` occurs in `order`. */
  predicate Listed(order: seq<string>, k: string)
    decreases |order|
  {
    |order| > 0 && (order[0] == k || Listed(order[1..], k))
  }

  /** `order` lists every key of `m` once: the `for (const key in data)` order. */
  ghost predicate Enumerates<V>(m: map<string, V>, order: seq<string>) {
    (forall a, b :: 0 <= a < b < |order| ==> order[a] != order[b]) &&
    (forall j :: 0 <= j < |order| ==> order[j] in m) &&
    (forall k :: k in m ==> Listed(order, k))
  }

  /** Distinct keys hold distinct element objects, as `JSON.parse` produces them. */
  predicate DistinctElements(data: map<string, Element>) {
    forall a, b :: a in data && b in data && a != b ==> data[a] != data[b]
  }

  /** The `packets` field of every element. */
  function Snapshot(data: map<string, Element>): map<string, PacketsField>
    reads data.Values
  {
    map k | k in data :: data[k].packets
  }

  /** The packets objects the elements refer to. */
  function Objects(init: map<string, PacketsField>): set<Packets> {
    set k | k in init && init[k].Obj? :: init[k].p
  }

  /** Every numeric `packets` among the first `i` keys names a key that exists. */
  predicate ResolvesUpTo(init: map<string, PacketsField>, order: seq<string>, i: int) {
    forall j :: 0 <= j < i && j < |order| && order[j] in init && init[order[j]].Ref? ==> RefKey(init[order[j]].n) in init
  }

  /** The position of `k` in `order`. */
  function IndexOf(order: seq<string>, k: string): (j: nat)
    requires Listed(order, k)
    ensures j < |order| && order[j] == k
    decreases |order|
  {
    if order[0] == k then 0 else IndexOf(order[1..], k) + 1
  }

  /** The `packets` value that `getVersions` leaves in the `i`-th element, given the
      values `init` before the loop. An object stays. A number takes whatever the named
      element holds when the loop reaches this element: its resolved value when it came
      earlier, its original value otherwise (including the element itself). */
  function Final(init: map<string, PacketsField>, order: seq<string>, i: nat): PacketsField
    requires Enumerates(init, order) && i < |order| && ResolvesUpTo(init, order, i + 1)
    decreases i
  {
    match init[order[i]]
    case Obj(p) => Obj(p)
    case Ref(n) =>
      var j := IndexOf(order, RefKey(n));
      if j < i then Final(init, order, j) else init[RefKey(n)]
  }

  /** Every resolved value is some element's original value: a number is replaced by
      the packets object it names, shared and never copied. */
  lemma {:induction false} FinalIsOriginal(init: map<string, PacketsField>, order: seq<string>, i: nat)
    requires Enumerates(init, order) && i < |order| && ResolvesUpTo(init, order, i + 1)
    ensures exists k :: k in init && init[k] == Final(init, order, i)
    decreases i
  {
    match init[order[i]]
    case Obj(p) =>
      assert init[order[i]] == Final(init, order, i);
    case Ref(n) =>
      var j := IndexOf(order, RefKey(n));
      if j < i {
        FinalIsOriginal(init, order, j);
      } else {
        assert init[RefKey(n)] == Final(init, order, i);
      }
  }

  /** A number naming an element that holds a packets object receives that very object. */
  lemma {:induction false} FinalShares(init: map<string, PacketsField>, order: seq<string>, i: nat)
    requires Enumerates(init, order) && i < |order| && ResolvesUpTo(init, order, i + 1)
    requires init[order[i]].Ref? && init[RefKey(init[order[i]].n)].Obj?
    ensures Final(init, order, i) == init[RefKey(init[order[i]].n)]
  {
    var k := RefKey(init[order[i]].n);
    var j := IndexOf(order, k);
    if j < i {
      assert Final(init, order, j) == init[k];
    }
  }

  /** An element holding a packets object keeps it. */
  lemma FinalKeepsObject(init: map<string, PacketsField>, order: seq<string>, i: nat)
    requires Enumerates(init, order) && i < |order| && ResolvesUpTo(init, order, i + 1)
    requires init[order[i]].Obj?
    ensures Final(init, order, i) == init[order[i]]
  {
  }

  /** The elements of the first `n` keys of `order` with a defined `protocol_id`, in order. */
  function Defined(data: map<string, Element>, order: seq<string>, n: nat): (r: seq<Element>)
    requires n <= |order| && forall j :: 0 <= j < |order| ==> order[j] in data
    ensures |r| <= n
  {
    if n == 0 then []
    else
      var e := data[order[n - 1]];
      Defined(data, order, n - 1) + (if e.protocolId.Some? then [e] else [])
  }

  /** The versions pushed are exactly the elements with a `protocol_id`. */
  lemma {:induction false} DefinedMembers(data: map<string, Element>, order: seq<string>, n: nat, e: Element)
    requires n <= |order| && forall j :: 0 <= j < |order| ==> order[j] in data
    ensures e in Defined(data, order, n) <==> e.protocolId.Some? && exists j :: 0 <= j < n && data[order[j]] == e
  {
    if n > 0 {
      DefinedMembers(data, order, n - 1, e);
      if e.protocolId.Some? && data[order[n - 1]] != e && exists j :: 0 <= j < n && data[order[j]] == e {
        var j :| 0 <= j < n && data[order[j]] == e;
        assert j < n - 1;
      }
    }
  }

  /** `Array.prototype.reverse`. */
  function Reverse<T>(s: seq<T>): (r: seq<T>)
    ensures |r| == |s|
    decreases |s|
  {
    if |s| == 0 then [] else [s[|s| - 1]] + Reverse(s[..|s| - 1])
  }

  /** Position `k` of the reversed list holds position `|s| - 1 - k` of the original. */
  lemma {:induction false} ReverseAt<T>(s: seq<T>, k: nat)
    requires k < |s|
    ensures Reverse(s)[k] == s[|s| - 1 - k]
    decreases |s|
  {
    if k > 0 {
      ReverseAt(s[..|s| - 1], k - 1);
    }
  }

  /** Reversing twice gives the original list back. */
  lemma {:induction false} ReverseReverse<T>(s: seq<T>)
    ensures Reverse(Reverse(s)) == s
  {
    var r := Reverse(Reverse(s));
    forall k | 0 <= k < |s|
      ensures r[k] == s[k]
    {
      ReverseAt(Reverse(s), k);
      ReverseAt(s, |s| - 1 - k);
    }
  }

  /** One turn of the loop of `getVersions` on the `packets` values `cur`, for key `k`:
      an object stays; a number takes the value of the key it names, and `None` is the
      `TypeError` of a missing key. */
  function Resolve(cur: map<string, PacketsField>, k: string): (r: Option<map<string, PacketsField>>)
    requires k in cur
    ensures r.Some? ==> r.value.Keys == cur.Keys
  {
    match cur[k]
    case Obj(_) => Some(cur)
    case Ref(n) => if RefKey(n) in cur then Some(cur[k := cur[RefKey(n)]]) else None
  }

  /** The loop of `getVersions` from the `i`-th key on. */
  function Run(cur: map<string, PacketsField>, order: seq<string>, i: nat): (r: Option<map<string, PacketsField>>)
    requires i <= |order| && forall j :: 0 <= j < |order| ==> order[j] in cur
    ensures r.Some? ==> r.value.Keys == cur.Keys
    decreases |order| - i
  {
    if i == |order| then Some(cur)
    else
      match Resolve(cur, order[i])
      case None => None
      case Some(next) => Run(next, order, i + 1)
  }

  /** The loop has handled the first `i` keys: in the `packets` values `cur` they
      hold their resolved value and the rest their original one. */
  ghost predicate Processed(cur: map<string, PacketsField>, order: seq<string>, init: map<string, PacketsField>, i: nat) {
    Enumerates(init, order) && i <= |order| && ResolvesUpTo(init, order, i) && cur.Keys == init.Keys &&
    (forall j :: 0 <= j < i ==> cur[order[j]] == Final(init, order, j)) &&
    (forall j :: i <= j < |order| ==> cur[order[j]] == init[order[j]])
  }

  /** Storing the resolved value of the `i`-th key moves the loop on by one. */
  lemma ProcessedStep(cur: map<string, PacketsField>, order: seq<string>, init: map<string, PacketsField>, i: nat)
    requires Processed(cur, order, init, i) && i < |order| && ResolvesUpTo(init, order, i + 1)
    ensures Processed(cur[order[i] := Final(init, order, i)], order, init, i + 1)
  {
    var next := cur[order[i] := Final(init, order, i)];
    forall j | 0 <= j < |order| && j != i
      ensures next[order[j]] == cur[order[j]]
    {
      assert order[j] != order[i];
    }
  }

  /** A number's value when the loop reaches its element is its resolved value. */
  lemma CurrentIsFinal(cur: map<string, PacketsField>, order: seq<string>, init: map<string, PacketsField>, i: nat)
    requires Processed(cur, order, init, i) && i < |order| && init[order[i]].Ref?
    requires RefKey(init[order[i]].n) in init
    ensures ResolvesUpTo(init, order, i + 1)
    ensures cur[RefKey(init[order[i]].n)] == Final(init, order, i)
  {
    var j := IndexOf(order, RefKey(init[order[i]].n));
    assert ResolvesUpTo(init, order, i + 1);
  }

  /** From a state where the first `i` keys are handled, the loop runs to the end
      exactly when every number names an existing key, and then leaves every key
      holding its resolved value. */
  lemma {:induction false} RunProcesses(cur: map<string, PacketsField>, order: seq<string>, init: map<string, PacketsField>, i: nat)
    requires Processed(cur, order, init, i)
    ensures Run(cur, order, i).Some? <==> ResolvesUpTo(init, order, |order|)
    ensures Run(cur, order, i).Some? ==> Processed(Run(cur, order, i).value, order, init, |order|)
    decreases |order| - i
  {
    if i < |order| {
      var k := order[i];
      match init[k]
      case Obj(_) =>
        assert ResolvesUpTo(init, order, i + 1);
        assert cur[k := Final(init, order, i)] == cur;
        ProcessedStep(cur, order, init, i);
        RunProcesses(cur, order, init, i + 1);
      case Ref(n) =>
        if RefKey(n) in init {
          CurrentIsFinal(cur, order, init, i);
          ProcessedStep(cur, order, init, i);
          RunProcesses(cur[k := Final(init, order, i)], order, init, i + 1);
        } else {
          assert !ResolvesUpTo(init, order, i + 1);
        }
    }
  }

  /** `getVersions` succeeds exactly when every number names an existing key, and
      then leaves every element holding its resolved value. */
  lemma RunResolves(init: map<string, PacketsField>, order: seq<string>)
    requires Enumerates(init, order)
    ensures Run(init, order, 0).Some? <==> ResolvesUpTo(init, order, |order|)
    ensures Run(init, order, 0).Some? ==> forall j :: 0 <= j < |order| ==> Run(init, order, 0).value[order[j]] == Final(init, order, j)
  {
    RunProcesses(init, order, init, 0);
  }

  /** The keys from the `i`-th on still hold their original values. */
  ghost predicate Pending(cur: map<string, PacketsField>, order: seq<string>, init: map<string, PacketsField>, i: nat) {
    forall j :: i <= j < |order| && order[j] in cur && order[j] in init ==> cur[order[j]] == init[order[j]]
  }

  /** Storing a value under the `i`-th key leaves the later keys pending. */
  lemma PendingStep(cur: map<string, PacketsField>, order: seq<string>, init: map<string, PacketsField>, i: nat, v: PacketsField)
    requires Pending(cur, order, init, i) && Enumerates(init, order) && i < |order|
    ensures Pending(cur[order[i] := v], order, init, i + 1)
  {
    forall j | i + 1 <= j < |order| && order[j] in cur && order[j] in init
      ensures cur[order[i] := v][order[j]] == init[order[j]]
    {
      assert order[j] != order[i];
    }
  }

  /** The sides of each packets object, as saved in `orig`: wrapped once it has been
      rectified (the objects in `done`), untouched otherwise. */
  ghost predicate RectifiedAs(orig: map<Packets, (Side, Side)>, done: set<Packets>)
    reads orig.Keys
  {
    forall q :: q in orig ==>
      if q in done then q.c2s == Wrap(orig[q].0) && q.s2c == Wrap(orig[q].1)
      else q.c2s == orig[q].0 && q.s2c == orig[q].1
  }

  /** The objects of the first `i` elements have been rectified. */
  ghost predicate Covers(init: map<string, PacketsField>, order: seq<string>, i: nat, done: set<Packets>) {
    forall j :: 0 <= j < i && j < |order| && order[j] in init && init[order[j]].Obj? ==> init[order[j]].p in done
  }

  /** `rectifyPackets(q)` on an object saved in `orig`, which then counts as done. */
  method RectifyTracked(q: Packets, ghost orig: map<Packets, (Side, Side)>, ghost done: set<Packets>) returns (ghost done': set<Packets>)
    requires q in orig && done <= orig.Keys && RectifiedAs(orig, done)
    modifies q
    ensures done' == done + {q} && RectifiedAs(orig, done')
  {
    WrapIdempotent(orig[q].0);
    WrapIdempotent(orig[q].1);
    q.Rectify();
    done' := done + {q};
  }

  /** `element.packets = value` for the element under key `k`. */
  method SetPackets(data: map<string, Element>, k: string, value: PacketsField)
    requires k in data && DistinctElements(data)
    modifies data[k]
    ensures Snapshot(data) == old(Snapshot(data))[k := value]
  {
    data[k].packets := value;
    forall k' | k' in data && k' != k
      ensures data[k'] != data[k]
    {
    }
  }

  /** Every packets object held in `cur` is one of those saved in `orig`. */
  ghost predicate HeldIn(cur: map<string, PacketsField>, orig: map<Packets, (Side, Side)>) {
    forall k {:trigger cur[k]} :: k in cur && cur[k].Obj? ==> cur[k].p in orig
  }

  /** Where the loop of `getVersions` stands before its `i`-th turn: `cur` is the
      `packets` value of every element, the keys from the `i`-th on still hold their
      original value, and the objects met so far (and only they) are rectified. */
  ghost predicate Midway(data: map<string, Element>, order: seq<string>, init: map<string, PacketsField>,
                         cur: map<string, PacketsField>, orig: map<Packets, (Side, Side)>, done: set<Packets>, i: nat)
    reads data.Values, orig.Keys
  {
    Enumerates(data, order) && DistinctElements(data) && Enumerates(init, order) && i <= |order| &&
    Snapshot(data) == cur && cur.Keys == init.Keys && Pending(cur, order, init, i) && HeldIn(cur, orig) &&
    done <= orig.Keys && RectifiedAs(orig, done) && Covers(init, order, i, done)
  }

  /** One turn of the loop of `getVersions`, for the `i`-th key: `false` when its
      number names a missing key. */
  method Step(data: map<string, Element>, order: seq<string>, i: nat, ghost init: map<string, PacketsField>,
              ghost cur: map<string, PacketsField>, ghost orig: map<Packets, (Side, Side)>, ghost done: set<Packets>)
    returns (ok: bool, ghost cur': map<string, PacketsField>, ghost done': set<Packets>)
    requires Midway(data, order, init, cur, orig, done, i) && i < |order|
    modifies data[order[i]], orig.Keys
    ensures ok == Resolve(cur, order[i]).Some?
    ensures ok ==> cur' == Resolve(cur, order[i]).value && Midway(data, order, init, cur', orig, done', i + 1)
  {
    var element := data[order[i]];
    if element.packets.Ref? {
      ok, cur', done' := StepRef(data, order, i, init, cur, orig, done);
    } else {
      cur', done' := StepObj(data, order, i, init, cur, orig, done);
      ok := true;
    }
  }

  /** The turn for a key holding a number: copy the value of the key it names. */
  method StepRef(data: map<string, Element>, order: seq<string>, i: nat, ghost init: map<string, PacketsField>,
                 ghost cur: map<string, PacketsField>, ghost orig: map<Packets, (Side, Side)>, ghost done: set<Packets>)
    returns (ok: bool, ghost cur': map<string, PacketsField>, ghost done': set<Packets>)
    requires Midway(data, order, init, cur, orig, done, i) && i < |order| && data[order[i]].packets.Ref?
    modifies data[order[i]], orig.Keys
    ensures ok == Resolve(cur, order[i]).Some?
    ensures ok ==> cur' == Resolve(cur, order[i]).value && Midway(data, order, init, cur', orig, done', i + 1)
  {
    var element := data[order[i]];
    done' := done;
    var refKey := RefKey(element.packets.n);
    if refKey !in data {
      return false, cur, done';
    }
    var current := data[refKey].packets;
    assert current == cur[refKey];
    if current.Obj? {
      done' := RectifyTracked(current.p, orig, done);
    }
    SetPackets(data, order[i], current);
    cur' := cur[order[i] := current];
    TurnStep(order, init, cur, orig, done, done', i, current);
    ok := true;
  }

  /** The turn for a key holding an object: rectify it in place. */
  method StepObj(data: map<string, Element>, order: seq<string>, i: nat, ghost init: map<string, PacketsField>,
                 ghost cur: map<string, PacketsField>, ghost orig: map<Packets, (Side, Side)>, ghost done: set<Packets>)
    returns (ghost cur': map<string, PacketsField>, ghost done': set<Packets>)
    requires Midway(data, order, init, cur, orig, done, i) && i < |order| && data[order[i]].packets.Obj?
    modifies orig.Keys
    ensures Resolve(cur, order[i]) == Some(cur') && Midway(data, order, init, cur', orig, done', i + 1)
  {
    var element := data[order[i]];
    ghost var v := element.packets;
    assert v == cur[order[i]];
    done' := RectifyTracked(element.packets.p, orig, done);
    cur' := cur;
    SameUpdate(cur, order[i]);
    TurnStep(order, init, cur, orig, done, done', i, v);
  }

  lemma SameUpdate(m: map<string, PacketsField>, k: string)
    requires k in m
    ensures m[k := m[k]] == m
  {
  }

  /** The facts of `Midway` that do not depend on the heap carry over to the next turn
      once the `i`-th key holds `v` and its own object (if any) is rectified. */
  lemma TurnStep(order: seq<string>, init: map<string, PacketsField>, cur: map<string, PacketsField>,
                 orig: map<Packets, (Side, Side)>, done: set<Packets>, done': set<Packets>, i: nat, v: PacketsField)
    requires Enumerates(init, order) && i < |order| && cur.Keys == init.Keys
    requires Pending(cur, order, init, i) && HeldIn(cur, orig) && Covers(init, order, i, done) && done <= done'
    requires v.Obj? ==> v.p in orig
    requires init[order[i]].Obj? ==> init[order[i]].p in done'
    ensures Pending(cur[order[i] := v], order, init, i + 1) && HeldIn(cur[order[i] := v], orig)
    ensures Covers(init, order, i + 1, done')
  {
    PendingStep(cur, order, init, i, v);
  }

  /** `getVersions` after the download: every element is resolved and rectified in
      `order`; a number naming a missing key reads `.packets` of `undefined` and throws.
      `versions.reverse()` is the returned list. */
  method GetVersions(data: map<string, Element>, order: seq<string>) returns (r: Result<seq<Element>>)
    requires Enumerates(data, order) && DistinctElements(data)
    modifies data.Values, Objects(Snapshot(data))
    ensures r.Ok? <==> ResolvesUpTo(old(Snapshot(data)), order, |order|)
    ensures r.Ok? ==> r.value == Reverse(Defined(data, order, |order|))
    ensures r.Ok? ==> forall i :: 0 <= i < |order| ==> data[order[i]].packets == Final(old(Snapshot(data)), order, i)
    ensures r.Ok? ==> forall q :: q in old(Objects(Snapshot(data))) ==> q.c2s == Wrap(old(q.c2s)) && q.s2c == Wrap(old(q.s2c))
  {
    ghost var init := Snapshot(data);
    ghost var orig := map q | q in Objects(init) :: (q.c2s, q.s2c);
    assert HeldIn(init, orig) by {
      forall k | k in init && init[k].Obj?
        ensures init[k].p in orig
      {
        assert init[k].p in Objects(init);
      }
    }
    var ok, versions, done := ResolveLoop(data, order, init, orig);
    RunResolves(init, order);
    if !ok {
      return Err("TypeError");
    }
    AllCovered(init, order, orig, done);
    r := Ok(Reverse(versions));
  }

  /** The loop of `getVersions`: `false` at the first number that names a missing key;
      otherwise the `packets` values are those the loop model computes, every object
      met is rectified once, and `versions` holds the elements with a `protocol_id`. */
  method ResolveLoop(data: map<string, Element>, order: seq<string>, ghost init: map<string, PacketsField>,
                     ghost orig: map<Packets, (Side, Side)>)
    returns (ok: bool, versions: seq<Element>, ghost done: set<Packets>)
    requires Enumerates(data, order) && DistinctElements(data) && Snapshot(data) == init
    requires orig.Keys == Objects(init) && RectifiedAs(orig, {}) && HeldIn(init, orig)
    modifies data.Values, orig.Keys
    ensures ok <==> Run(init, order, 0).Some?
    ensures ok ==> Snapshot(data) == Run(init, order, 0).value && versions == Defined(data, order, |order|)
    ensures ok ==> done <= orig.Keys && RectifiedAs(orig, done) && Covers(init, order, |order|, done)
  {
    ghost var cur := init;
    done := {};
    versions := [];
    var i := 0;
    while i < |order|
      invariant Midway(data, order, init, cur, orig, done, i)
      invariant Run(init, order, 0) == Run(cur, order, i)
      invariant versions == Defined(data, order, i)
    {
      var element := data[order[i]];
      ok, cur, done := Step(data, order, i, init, cur, orig, done);
      if !ok {
        return;
      }
      if element.protocolId.Some? {
        versions := versions + [element];
      }
      i := i + 1;
    }
    ok := true;
  }

  /** Every object an element refers to at the start is met at its own key. */
  lemma AllCovered(init: map<string, PacketsField>, order: seq<string>, orig: map<Packets, (Side, Side)>, done: set<Packets>)
    requires Enumerates(init, order) && orig.Keys == Objects(init) && Covers(init, order, |order|, done)
    ensures orig.Keys <= done
  {
    forall q | q in orig
      ensures q in done
    {
      var k :| k in init && init[k].Obj? && init[k].p == q;
      var j := IndexOf(order, k);
    }
  }
}
