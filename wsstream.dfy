/** html/wsstream.ts: the growable receive buffer (`Buf`, `createBuf`, `appendBuf`),
    the decode-until-no-progress reading of `MessageStream`, and the event queue of
    `WebSocketStream`. Promises are modelled by numbered handles whose resolutions and
    rejections are appended to a log; socket events, timer expiries and the awaited
    reads of the underlying stream are method calls and parameters. */
module WsStream {
  import opened Wrappers
  import opened Bytes
  import Strings

  // ---------------------------------------------------------------------------------
  // Errors and outcomes

  /** The event object a close or error notification carries. */
  datatype Event = CloseEvent(code: int, reason: string) | ErrorEvent

  /** Why a promise is rejected: `WebSocketError` without an event (invalid state) or
      with one, `TimeoutError`, `UnexpectedEOFError`, or an error thrown by `decode`. */
  datatype Failure =
    | InvalidState(status: int)
    | SocketFailure(status: int, ev: Event)
    | Timeout
    | UnexpectedEof
    | Thrown(message: string)

  // ---------------------------------------------------------------------------------
  // The receive buffer

  /** The contents of a `Buf`: its whole `ArrayBuffer` and the live range `[start, end)`. */
  datatype BufValue = BufValue(bytes: seq<byte>, start: nat, end: nat)

  predicate WellFormed(b: BufValue) {
    b.start <= b.end <= |b.bytes|
  }

  /** The bytes a reader sees: `new Uint8Array(buf.data, buf.start, buf.end - buf.start)`. */
  function Live(b: BufValue): seq<byte>
    requires WellFormed(b)
  {
    b.bytes[b.start..b.end]
  }

  /** `expandScale || 2`: an absent (or zero) scale means doubling. */
  function Scale(expandScale: nat): (r: nat)
    ensures r >= 1
  {
    if expandScale == 0 then 2 else expandScale
  }

  /** `base` with `d` copied in at offset `at` (`view.set(d, at)`). */
  function Overlay(base: seq<byte>, at: nat, d: seq<byte>): (r: seq<byte>)
    requires at + |d| <= |base|
    ensures |r| == |base|
  {
    base[..at] + d + base[at + |d|..]
  }

  lemma OverlayPointwise(base: seq<byte>, e: seq<byte>, at: nat, d: seq<byte>)
    requires at + |d| <= |base| == |e|
    requires forall i :: 0 <= i < |e| ==> e[i] == (if at <= i < at + |d| then d[i - at] else base[i])
    ensures e == Overlay(base, at, d)
  {
  }

  /** Copying `d` behind the live bytes of a relocated buffer. */
  lemma RelocatedOverlay(live: seq<byte>, d: seq<byte>, size: nat)
    requires |live| + |d| <= size
    ensures Overlay(live + Zeros(size - |live|), |live|, d) == live + d + Zeros(size - |live| - |d|)
  {
    var moved := live + Zeros(size - |live|);
    assert moved[..|live|] == live;
    assert moved[|live| + |d|..] == Zeros(size - |live| - |d|);
  }

  lemma AtLeastScaled(n: nat, s: nat)
    requires s >= 1
    ensures n * s >= n
  {
  }

  /** The capacity `appendBuf` reallocates to: `ceil(capacity * scale)`. */
  function Grown(capacity: nat, expandScale: nat): (r: nat)
    ensures r >= capacity
  {
    AtLeastScaled(capacity, Scale(expandScale));
    capacity * Scale(expandScale)
  }

  /** `appendBuf` as written: the new buffer, and whether the final `view.set` fitted (it
      throws a RangeError otherwise, after the buffer has already been replaced). The
      live range is moved to offset 0 when the data does not fit behind `end`, but `end`
      itself is never advanced. */
  function AppendAsWrittenSpec(b: BufValue, d: seq<byte>, expandScale: nat): (BufValue, bool)
    requires WellFormed(b)
  {
    if b.end + |d| > |b.bytes| then
      var live := Live(b);
      var size := Grown(|b.bytes|, expandScale);
      var moved := live + Zeros(size - |live|);
      if |live| + |d| <= size then (BufValue(Overlay(moved, |live|, d), 0, |live|), true)
      else (BufValue(moved, 0, |live|), false)
    else (BufValue(Overlay(b.bytes, b.end, d), b.start, b.end), true)
  }

  /** The capacity the corrected `appendBuf` reallocates to: the scaled capacity, or the
      live bytes plus the data when that is more. */
  function GrownToFit(capacity: nat, expandScale: nat, needed: nat): (r: nat)
    ensures r >= capacity && r >= needed
  {
    var g := Grown(capacity, expandScale);
    if g >= needed then g else needed
  }

  /** `appendBuf` as evidently intended: the data becomes part of the live range. */
  function AppendSpec(b: BufValue, d: seq<byte>, expandScale: nat): (r: BufValue)
    requires WellFormed(b)
  {
    if b.end + |d| > |b.bytes| then
      var live := Live(b);
      var size := GrownToFit(|b.bytes|, expandScale, |live| + |d|);
      BufValue(live + d + Zeros(size - |live| - |d|), 0, |live| + |d|)
    else BufValue(Overlay(b.bytes, b.end, d), b.start, b.end + |d|)
  }

  /** The corrected append keeps the live bytes and adds the data after them; it keeps
      the buffer (and the offset of the live range) when the data fits behind `end`,
      and otherwise moves the live range to offset 0 of a buffer of the scaled capacity,
      or of exactly the needed size when scaling is not enough. */
  lemma AppendExtendsLive(b: BufValue, d: seq<byte>, expandScale: nat)
    requires WellFormed(b)
    ensures WellFormed(AppendSpec(b, d, expandScale))
    ensures Live(AppendSpec(b, d, expandScale)) == Live(b) + d
    ensures b.end + |d| <= |b.bytes| ==>
      |AppendSpec(b, d, expandScale).bytes| == |b.bytes| &&
      AppendSpec(b, d, expandScale).start == b.start &&
      AppendSpec(b, d, expandScale).bytes[..b.start] == b.bytes[..b.start]
    ensures b.end + |d| > |b.bytes| ==>
      AppendSpec(b, d, expandScale).start == 0 &&
      |AppendSpec(b, d, expandScale).bytes| == GrownToFit(|b.bytes|, expandScale, |Live(b)| + |d|)
  {
    var r := AppendSpec(b, d, expandScale);
    if b.end + |d| <= |b.bytes| {
      assert r.bytes == b.bytes[..b.end] + d + b.bytes[b.end + |d|..];
      assert r.bytes[b.start..b.end + |d|] == b.bytes[b.start..b.end] + d;
    } else {
      var live := Live(b);
      assert r.bytes[0..|live| + |d|] == live + d;
    }
  }

  /** As written, a successful append leaves the live range exactly as it was: the bytes
      land behind `end` and no reader ever sees them. */
  lemma AppendAsWrittenHidesData(b: BufValue, d: seq<byte>, expandScale: nat)
    requires WellFormed(b)
    ensures WellFormed(AppendAsWrittenSpec(b, d, expandScale).0)
    ensures Live(AppendAsWrittenSpec(b, d, expandScale).0) == Live(b)
  {
    var (r, ok) := AppendAsWrittenSpec(b, d, expandScale);
    if b.end + |d| > |b.bytes| {
      var live := Live(b);
      assert r.bytes[0..|live|] == live;
    } else {
      assert r.bytes[b.start..b.end] == b.bytes[b.start..b.end];
    }
  }

  /** Two concrete appends: as written, three bytes appended to a one-byte buffer are
      copied but stay invisible, and five bytes appended to a full four-byte buffer
      outgrow the doubled capacity and throw; the corrected append makes both visible. */
  lemma AppendAsWrittenExamples()
    ensures Live(AppendAsWrittenSpec(BufValue([7, 0, 0, 0], 0, 1), [1, 2, 3], 0).0) == [7]
    ensures Live(AppendSpec(BufValue([7, 0, 0, 0], 0, 1), [1, 2, 3], 0)) == [7, 1, 2, 3]
    ensures !AppendAsWrittenSpec(BufValue([1, 2, 3, 4], 0, 4), [5, 6, 7, 8, 9], 0).1
    ensures Live(AppendSpec(BufValue([1, 2, 3, 4], 0, 4), [5, 6, 7, 8, 9], 0)) == [1, 2, 3, 4, 5, 6, 7, 8, 9]
  {
    AppendAsWrittenHidesData(BufValue([7, 0, 0, 0], 0, 1), [1, 2, 3], 0);
    AppendExtendsLive(BufValue([7, 0, 0, 0], 0, 1), [1, 2, 3], 0);
    AppendExtendsLive(BufValue([1, 2, 3, 4], 0, 4), [5, 6, 7, 8, 9], 0);
  }

  /** A `Buf`: an `ArrayBuffer` with a read index `start` and a write index `end`. */
  class Buf {
    var data: array<byte>
    var start: nat
    var end: nat

    ghost predicate Valid()
      reads this
    {
      start <= end <= data.Length
    }

    function Value(): (v: BufValue)
      reads this, data
    {
      BufValue(data[..], start, end)
    }

    /** An empty buffer. */
    constructor ()
      ensures Valid() && Live(Value()) == []
    {
      data := new byte[0];
      start, end := 0, 0;
    }

    /** `createBuf(view)`: the buffer becomes the view's own `ArrayBuffer` (shared, not
        copied) and `[start, end)` the view's byte range. */
    method Create(buffer: array<byte>, byteOffset: nat, length: nat)
      requires byteOffset + length <= buffer.Length
      modifies this
      ensures Valid()
      ensures data == buffer && start == byteOffset && end == byteOffset + length
      ensures Live(Value()) == buffer[byteOffset..byteOffset + length]
    {
      data := buffer;
      start := byteOffset;
      end := byteOffset + length;
    }

    /** The reallocating branch of `appendBuf`: a fresh zeroed buffer of `size` bytes
        holding the live range at offset 0. */
    method Relocate(size: nat)
      requires Valid() && end - start <= size
      modifies this
      ensures Valid() && fresh(data)
      ensures data[..] == old(Live(Value())) + Zeros(size - old(end - start))
      ensures start == 0 && end == old(end - start)
    {
      var live := data[start..end];
      var view := new byte[size];
      forall i | 0 <= i < size {
        view[i] := if i < |live| then live[i] else 0;
      }
      assert view[..] == live + Zeros(size - |live|);
      data := view;
      start := 0;
      end := |live|;
    }

    /** `view.set(d, at)` where it fits. */
    method CopyAt(at: nat, d: seq<byte>)
      requires at + |d| <= data.Length
      modifies data
      ensures data[..] == Overlay(old(data[..]), at, d)
    {
      forall i | 0 <= i < |d| {
        data[at + i] := d[i];
      }
      OverlayPointwise(old(data[..]), data[..], at, d);
    }

    /** `appendBuf(buf, d, expandScale)` as written; `ok` is false where the final copy
        throws a RangeError. */
    method AppendAsWritten(d: seq<byte>, expandScale: nat) returns (ok: bool)
      requires Valid()
      modifies this, data
      ensures Valid()
      ensures (Value(), ok) == AppendAsWrittenSpec(old(Value()), d, expandScale)
      ensures data == old(data) || fresh(data)
    {
      if end + |d| > data.Length {
        Relocate(Grown(data.Length, expandScale));
      }
      if end + |d| > data.Length {
        return false;
      }
      CopyAt(end, d);
      ok := true;
    }

    /** `appendBuf(buf, d, expandScale)` as evidently intended: grows to fit and
        advances `end` past the copied data. */
    method Append(d: seq<byte>, expandScale: nat)
      requires Valid()
      modifies this, data
      ensures Valid()
      ensures Value() == AppendSpec(old(Value()), d, expandScale)
      ensures data == old(data) || fresh(data)
    {
      if end + |d| > data.Length {
        AppendRelocating(d, GrownToFit(data.Length, expandScale, end - start + |d|));
      } else {
        var at := end;
        end := end + |d|;
        CopyAt(at, d);
      }
    }

    /** The reallocating branch of the corrected append. */
    method AppendRelocating(d: seq<byte>, size: nat)
      requires Valid() && end - start + |d| <= size
      modifies this
      ensures Valid() && fresh(data)
      ensures Value() == BufValue(old(Live(Value())) + d + Zeros(size - old(end - start) - |d|), 0, old(end - start) + |d|)
    {
      ghost var live := Live(Value());
      Relocate(size);
      var at := end;
      end := end + |d|;
      CopyAt(at, d);
      RelocatedOverlay(live, d, size);
    }
  }

  // ---------------------------------------------------------------------------------
  // MessageStream

  /** `decode(data, outList)`: the messages it appends and the number of bytes it
      consumed, or the error it throws. */
  type Decoder<T> = seq<byte> -> Result<(seq<T>, nat)>

  /** What `readInner` relies on for the decode loop to end and for `start` to stay in
      range: a decoder consumes no more than it is given, and something whenever it
      produces a message. */
  ghost predicate Sound<T>(decode: Decoder<T>) {
    forall s: seq<byte> :: decode(s).Ok? ==>
      decode(s).value.1 <= |s| && (|decode(s).value.0| > 0 ==> decode(s).value.1 > 0)
  }

  /** The outcome of the inner decode loop: the output list, the bytes left unread, and
      the error thrown by `decode`, if any. */
  datatype Drained<T> = Drained(items: seq<T>, rest: seq<byte>, error: Option<string>)

  /** The inner loop of `readInner`: decode passes over the unread bytes, each advancing
      past what it consumed, until a pass appends nothing (its consumed bytes are still
      skipped) or `decode` throws. */
  function Drain<T>(decode: Decoder<T>, bytes: seq<byte>, items: seq<T>): Drained<T>
    requires Sound(decode)
    decreases |bytes|
  {
    match decode(bytes)
    case Err(m) => Drained(items, bytes, Some(m))
    case Ok((found, n)) =>
      if |found| == 0 then Drained(items, bytes[n..], None)
      else Drain(decode, bytes[n..], items + found)
  }

  /** Draining consumes a prefix of the bytes and only ever appends to the output list. */
  lemma {:induction false} DrainConsumesPrefix<T>(decode: Decoder<T>, bytes: seq<byte>, items: seq<T>)
    requires Sound(decode)
    ensures IsSuffix(Drain(decode, bytes, items).rest, bytes)
    ensures items <= Drain(decode, bytes, items).items
    decreases |bytes|
  {
    match decode(bytes)
    case Err(m) =>
    case Ok((found, n)) =>
      if |found| > 0 {
        DrainConsumesPrefix(decode, bytes[n..], items + found);
        var r := Drain(decode, bytes[n..], items + found);
        assert bytes[n..][|bytes[n..]| - |r.rest|..] == bytes[|bytes| - |r.rest|..];
      }
  }

  /** How the awaited `stream.read()` of one `readInner` iteration ends: with a message,
      with `undefined` (the stream has ended), or by rejecting. */
  datatype Arrival = Chunk(raw: seq<byte>) | EndOfStream | ReadFailed(failure: Failure)

  /** How `MessageStream.read` settles: with a message, with `undefined`, by rejecting,
      or not yet (the stream has not delivered enough). */
  datatype StreamRead<T> = Message(value: T) | Ended | Failed(failure: Failure) | Pending

  /** The outcome of `read`, the number of awaited stream reads it used, and the new
      receive buffer (`None` when `recv` is undefined) and output list. */
  datatype Reading<T> = Reading(result: StreamRead<T>, used: nat, recv: Option<seq<byte>>, queue: seq<T>)

  function Buffered(recv: Option<seq<byte>>): seq<byte> {
    if recv.Some? then recv.value else []
  }

  /** `read`/`readInner` over the stream reads `arrivals`: a queued message is returned
      at once; otherwise each chunk is appended to the receive buffer (or starts one)
      and drained, the buffer is dropped when it is empty, and the loop goes on until
      the output list is non-empty. */
  function ReadSpec<T>(decode: Decoder<T>, recv: Option<seq<byte>>, queue: seq<T>, arrivals: seq<Arrival>): Reading<T>
    requires Sound(decode)
    decreases |arrivals|
  {
    if |queue| > 0 then Reading(Message(queue[0]), 0, recv, queue[1..])
    else if |arrivals| == 0 then Reading(Pending, 0, recv, queue)
    else match arrivals[0]
      case ReadFailed(f) => Reading(Failed(f), 1, recv, queue)
      case EndOfStream => Reading(if recv.Some? then Failed(UnexpectedEof) else Ended, 1, recv, queue)
      case Chunk(raw) =>
        var d := Drain(decode, Buffered(recv) + raw, queue);
        if d.error.Some? then Reading(Failed(Thrown(d.error.value)), 1, Kept(d), d.items)
        else
          var r := ReadSpec(decode, Kept(d), d.items, arrivals[1..]);
          r.(used := r.used + 1)
  }

  /** The receive buffer after a drain: dropped when it is empty, except after `decode`
      threw, which skips that check. */
  function Kept<T>(d: Drained<T>): (r: Option<seq<byte>>)
    ensures Buffered(r) == d.rest
  {
    if d.error.None? && |d.rest| == 0 then None else Some(d.rest)
  }

  /** The bytes of the chunks among `arrivals`, in order. */
  function Chunks(arrivals: seq<Arrival>): seq<byte> {
    if |arrivals| == 0 then [] else
      (if arrivals[0].Chunk? then arrivals[0].raw else []) + Chunks(arrivals[1..])
  }

  /** `z` is a suffix of `x`. */
  predicate IsSuffix(z: seq<byte>, x: seq<byte>) {
    |z| <= |x| && z == x[|x| - |z|..]
  }

  /** No received byte is lost or reordered: what stays buffered after a read is a suffix
      of the bytes buffered before followed by every chunk the read consumed. */
  lemma {:induction false} ReadKeepsUnreadBytes<T>(decode: Decoder<T>, recv: Option<seq<byte>>, queue: seq<T>, arrivals: seq<Arrival>)
    requires Sound(decode)
    ensures ReadSpec(decode, recv, queue, arrivals).used <= |arrivals|
    ensures var r := ReadSpec(decode, recv, queue, arrivals);
      IsSuffix(Buffered(r.recv), Buffered(recv) + Chunks(arrivals[..r.used]))
    decreases |arrivals|, 1
  {
    var r := ReadSpec(decode, recv, queue, arrivals);
    if |queue| > 0 || |arrivals| == 0 {
      assert arrivals[..r.used] == [];
    } else if arrivals[0].Chunk? {
      ChunkKeepsUnreadBytes(decode, recv, queue, arrivals);
    } else {
      assert arrivals[..r.used] == [arrivals[0]];
    }
  }

  lemma {:induction false} ChunkKeepsUnreadBytes<T>(decode: Decoder<T>, recv: Option<seq<byte>>, queue: seq<T>, arrivals: seq<Arrival>)
    requires Sound(decode) && |queue| == 0 && |arrivals| > 0 && arrivals[0].Chunk?
    ensures ReadSpec(decode, recv, queue, arrivals).used <= |arrivals|
    ensures var r := ReadSpec(decode, recv, queue, arrivals);
      IsSuffix(Buffered(r.recv), Buffered(recv) + Chunks(arrivals[..r.used]))
    decreases |arrivals|, 0
  {
    var raw := arrivals[0].raw;
    var bytes := Buffered(recv) + raw;
    var d := Drain(decode, bytes, queue);
    assert IsSuffix(d.rest, bytes) by {
      DrainConsumesPrefix(decode, bytes, queue);
    }
    var r := ReadSpec(decode, recv, queue, arrivals);
    if d.error.Some? {
      assert r.used == 1 && r.recv == Kept(d);
      assert Chunks(arrivals[..1]) == raw by {
        ChunksFirst(arrivals, 0);
        assert Chunks(arrivals[1..][..0]) == [];
      }
      assert Buffered(recv) + Chunks(arrivals[..r.used]) == bytes;
    } else {
      var r1 := ReadSpec(decode, Kept(d), d.items, arrivals[1..]);
      assert r == r1.(used := r1.used + 1);
      ReadKeepsUnreadBytes(decode, Kept(d), d.items, arrivals[1..]);
      var tail := Chunks(arrivals[1..][..r1.used]);
      assert Chunks(arrivals[..r.used]) == raw + tail by {
        ChunksFirst(arrivals, r1.used);
      }
      SuffixStep(Buffered(recv), raw, d.rest, tail, Buffered(r1.recv));
    }
  }

  /** The chunks of the first `k + 1` arrivals are the first one's bytes followed by the
      chunks of the next `k`. */
  lemma ChunksFirst(arrivals: seq<Arrival>, k: nat)
    requires k < |arrivals| && arrivals[0].Chunk?
    ensures Chunks(arrivals[..k + 1]) == arrivals[0].raw + Chunks(arrivals[1..][..k])
  {
    assert arrivals[..k + 1][1..] == arrivals[1..][..k];
  }

  /** A suffix of (a suffix of `pre + raw`) followed by `tail` is a suffix of
      `pre + (raw + tail)`. */
  lemma SuffixStep(pre: seq<byte>, raw: seq<byte>, rest: seq<byte>, tail: seq<byte>, z: seq<byte>)
    requires IsSuffix(rest, pre + raw) && IsSuffix(z, rest + tail)
    ensures IsSuffix(z, pre + (raw + tail))
  {
    assert pre + (raw + tail) == (pre + raw) + tail;
    assert rest + tail == ((pre + raw) + tail)[|pre + raw| - |rest|..];
  }

  /** `MessageStream`: the output list `queue` and the receive buffer, with the
      subclass's `decode`. The stream owns one `Buf` object; `receiving` says whether
      `recv` is defined. */
  class MessageStream<T> {
    const decode: Decoder<T>
    const recv: Buf
    var receiving: bool
    var queue: seq<T>

    ghost predicate Valid()
      reads this, recv
    {
      Sound(decode) && recv.Valid()
    }

    /** The unread bytes, or `None` when `recv` is undefined. */
    function Unread(): Option<seq<byte>>
      reads this, recv, recv.data
      requires Valid()
    {
      if receiving then Some(Live(recv.Value())) else None
    }

    constructor (decode: Decoder<T>)
      requires Sound(decode)
      ensures Valid() && fresh(recv)
      ensures this.decode == decode && Unread() == None && queue == []
    {
      this.decode := decode;
      recv := new Buf();
      receiving := false;
      queue := [];
    }

    /** One pass of the inner loop: decode the unread bytes, append what was decoded and
        advance `start` past what was consumed. */
    method Pass() returns (error: Option<string>)
      requires Valid() && receiving
      modifies this, recv
      ensures Valid() && receiving && recv.data == old(recv.data)
      ensures match decode(old(Unread()).value)
        case Err(m) => error == Some(m) && queue == old(queue) && Unread() == old(Unread())
        case Ok((found, n)) => error == None && queue == old(queue) + found && Unread() == Some(old(Unread()).value[n..])
    {
      var view := recv.data[recv.start..recv.end];
      match decode(view)
      case Err(m) =>
        error := Some(m);
      case Ok((found, n)) =>
        queue := queue + found;
        recv.start := recv.start + n;
        assert recv.data[recv.start..recv.end] == view[n..];
        error := None;
    }

    /** The inner loop of `readInner`: decode until a pass appends nothing. */
    method DecodePasses() returns (error: Option<string>)
      requires Valid() && receiving
      modifies this, recv
      ensures Valid() && receiving && recv.data == old(recv.data)
      ensures Drain(decode, old(Unread()).value, old(queue)) == Drained(queue, Unread().value, error)
    {
      ghost var goal := Drain(decode, Unread().value, queue);
      var oldCount := |queue| - 1;
      while oldCount < |queue|
        invariant Valid() && receiving && recv.data == old(recv.data)
        invariant oldCount <= |queue|
        invariant oldCount < |queue| ==> goal == Drain(decode, Unread().value, queue)
        invariant oldCount == |queue| ==> goal == Drained(queue, Unread().value, None)
        decreases |Unread().value| + (if oldCount < |queue| then 1 else 0)
      {
        oldCount := |queue|;
        error := Pass();
        if error.Some? {
          return;
        }
      }
      error := None;
    }

    /** The first half of an iteration for a received chunk: append it to the receive
        buffer, or create the buffer from it. */
    method Receive(raw: seq<byte>)
      requires Valid()
      modifies this, recv, recv.data
      ensures Valid() && receiving && (recv.data == old(recv.data) || fresh(recv.data))
      ensures Unread() == Some(Buffered(old(Unread())) + raw) && queue == old(queue)
    {
      if receiving {
        ghost var before := recv.Value();
        AppendExtendsLive(before, raw, 0);
        recv.Append(raw, 0);
      } else {
        var buffer := new byte[|raw|](i requires 0 <= i < |raw| => raw[i]);
        assert buffer[..] == raw;
        recv.Create(buffer, 0, |raw|);
        assert buffer[0..|raw|] == raw;
        receiving := true;
        assert Buffered(old(Unread())) + raw == raw;
        assert Live(recv.Value()) == raw;
      }
    }

    /** One iteration of `readInner`'s outer loop for a received chunk: append it to the
        receive buffer (or create one from it), drain, and drop the buffer when empty. */
    method Feed(raw: seq<byte>) returns (error: Option<string>)
      requires Valid()
      modifies this, recv, recv.data
      ensures Valid() && (recv.data == old(recv.data) || fresh(recv.data))
      ensures var d := Drain(decode, Buffered(old(Unread())) + raw, old(queue));
        queue == d.items && error == d.error && Unread() == Kept(d)
    {
      Receive(raw);
      error := DecodePasses();
      if error.None? && recv.start == recv.end {
        receiving := false;
      }
    }

    /** `readInner(timeout)`, with the awaited reads of the underlying stream ending as
        `arrivals` says; `used` is how many of them it awaited. */
    method ReadInner(arrivals: seq<Arrival>) returns (r: StreamRead<T>, used: nat)
      requires Valid()
      modifies this, recv, recv.data
      ensures Valid() && (recv.data == old(recv.data) || fresh(recv.data))
      ensures Reading(r, used, Unread(), queue) == ReadSpec(decode, old(Unread()), old(queue), arrivals)
    {
      ghost var goal := ReadSpec(decode, Unread(), queue, arrivals);
      used := 0;
      while |queue| == 0
        invariant Valid() && (recv.data == old(recv.data) || fresh(recv.data)) && used <= |arrivals|
        invariant var g := ReadSpec(decode, Unread(), queue, arrivals[used..]);
          goal == g.(used := g.used + used)
        decreases |arrivals| - used
      {
        if used == |arrivals| {
          return Pending, used;
        }
        var a := arrivals[used];
        assert arrivals[used..][1..] == arrivals[used + 1..];
        used := used + 1;
        match a
        case ReadFailed(f) =>
          return Failed(f), used;
        case EndOfStream =>
          if receiving {
            return Failed(UnexpectedEof), used;
          }
          return Ended, used;
        case Chunk(raw) =>
          var error := Feed(raw);
          if error.Some? {
            return Failed(Thrown(error.value)), used;
          }
      }
      r := Message(queue[0]);
      queue := queue[1..];
    }

    /** `read(timeout)`: the head of the output list if there is one, else `readInner`. */
    method Read(arrivals: seq<Arrival>) returns (r: StreamRead<T>, used: nat)
      requires Valid()
      modifies this, recv, recv.data
      ensures Valid() && (recv.data == old(recv.data) || fresh(recv.data))
      ensures Reading(r, used, Unread(), queue) == ReadSpec(decode, old(Unread()), old(queue), arrivals)
    {
      if |queue| == 0 {
        r, used := ReadInner(arrivals);
      } else {
        r, used := Message(queue[0]), 0;
        queue := queue[1..];
      }
    }
  }

  // ---------------------------------------------------------------------------------
  // WebSocketStream

  /** `WebSocket.readyState` values. */
  const CONNECTING := 0
  const OPEN := 1

  /** An entry of `queueMsg`: a buffered error, close or message event, or a pending
      `read` (a `RecvMessageItem`) identified by its promise. */
  datatype Item = ErrorItem(ev: Event) | CloseItem(ev: Event) | MessageItem(data: seq<byte>) | Receiver(promise: nat)

  /** `itemOpen`: nothing, an `open` event that arrived first, or a pending `open`. */
  datatype OpenSlot = NoOpen | OpenItem | OpenReceiver(promise: nat)

  /** How a promise settles: resolved with the stream, with data or with `undefined`,
      or rejected. */
  datatype Outcome = Opened | Data(bytes: seq<byte>) | NoData | Rejected(failure: Failure)

  /** One `resolve`/`reject` call on a promise handed out earlier. */
  datatype Settlement = Settlement(promise: nat, outcome: Outcome)

  /** What `open`/`read` return: a promise settled at once, or a pending one. */
  datatype Reply = Now(outcome: Outcome) | Later(promise: nat)

  predicate AllReceivers(q: seq<Item>) {
    forall i :: 0 <= i < |q| ==> q[i].Receiver?
  }

  predicate NoReceivers(q: seq<Item>) {
    forall i :: 0 <= i < |q| ==> !q[i].Receiver?
  }

  /** The queue discipline: pending readers and buffered events never coexist. */
  predicate Disciplined(q: seq<Item>) {
    AllReceivers(q) || NoReceivers(q)
  }

  function PromiseOf(item: Item): nat {
    if item.Receiver? then item.promise else 0
  }

  /** The promises of the pending readers in `q`. */
  function Promises(q: seq<Item>): set<nat> {
    set i | 0 <= i < |q| && q[i].Receiver? :: q[i].promise
  }

  predicate DistinctReceivers(q: seq<Item>) {
    forall i, j :: 0 <= i < j < |q| && q[i].Receiver? && q[j].Receiver? ==> q[i].promise != q[j].promise
  }

  /** The settlements of the readers `q` in order: the first with `head`, the others
      with `others`. */
  function Notices(q: seq<Item>, head: Outcome, others: Outcome): (r: seq<Settlement>)
    ensures |r| == |q|
  {
    seq(|q|, i requires 0 <= i < |q| => Settlement(PromiseOf(q[i]), if i == 0 then head else others))
  }

  /** `q` without its entry at `i` (`splice(i, 1)`). */
  function RemoveAt(q: seq<Item>, i: nat): (r: seq<Item>)
    requires i < |q|
    ensures |r| == |q| - 1
    ensures forall k :: 0 <= k < |r| ==> r[k] == (if k < i then q[k] else q[k + 1])
  {
    q[..i] + q[i + 1..]
  }

  /** Removing an entry keeps the discipline and the distinctness of the readers, and
      removes only that entry's promise. */
  lemma RemoveAtKeeps(q: seq<Item>, i: nat)
    requires i < |q| && Disciplined(q) && DistinctReceivers(q)
    ensures Disciplined(RemoveAt(q, i)) && DistinctReceivers(RemoveAt(q, i))
    ensures Promises(RemoveAt(q, i)) == Promises(q) - (if q[i].Receiver? then {q[i].promise} else {})
  {
    var r := RemoveAt(q, i);
    forall x | x in Promises(r)
      ensures x in Promises(q) && !(q[i].Receiver? && x == q[i].promise)
    {
      var k :| 0 <= k < |r| && r[k].Receiver? && r[k].promise == x;
      if k < i {
        assert q[k] == r[k];
      } else {
        assert q[k + 1] == r[k];
      }
    }
    forall x | x in Promises(q) && !(q[i].Receiver? && x == q[i].promise)
      ensures x in Promises(r)
    {
      var k :| 0 <= k < |q| && q[k].Receiver? && q[k].promise == x;
      if k < i {
        assert r[k] == q[k];
      } else {
        assert k != i;
        assert r[k - 1] == q[k];
      }
    }
  }

  class WebSocketStream {
    var itemOpen: OpenSlot
    var queue: seq<Item>
    var closeCode: Option<int>
    var closeReason: Option<string>
    /** Promises handed out so far are numbered below `nextPromise`. */
    var nextPromise: nat
    /** The promises handed out and not settled yet. */
    var unsettled: set<nat>
    /** Every `resolve`/`reject` call that settled a promise, in order. */
    var settled: seq<Settlement>

    ghost predicate Valid()
      reads this
    {
      Disciplined(queue) && DistinctReceivers(queue) &&
      Promises(queue) <= unsettled &&
      (itemOpen.OpenReceiver? ==> itemOpen.promise in unsettled && itemOpen.promise !in Promises(queue)) &&
      (forall p :: p in unsettled ==> p < nextPromise)
    }

    /** The private constructor, apart from creating the socket. */
    constructor ()
      ensures Valid()
      ensures itemOpen == NoOpen && queue == [] && closeCode == None && closeReason == None
      ensures unsettled == {} && settled == []
    {
      itemOpen := NoOpen;
      queue := [];
      closeCode, closeReason := None, None;
      nextPromise := 0;
      unsettled := {};
      settled := [];
    }

    /** A new pending promise. */
    method NewPromise() returns (p: nat)
      requires Valid()
      modifies this
      ensures p == old(nextPromise) && nextPromise == p + 1 && unsettled == old(unsettled) + {p}
      ensures p !in old(unsettled) && p !in Promises(queue)
      ensures itemOpen == old(itemOpen) && queue == old(queue) && settled == old(settled)
      ensures closeCode == old(closeCode) && closeReason == old(closeReason)
      ensures old(itemOpen).OpenReceiver? ==> old(itemOpen).promise != p
    {
      p := nextPromise;
      nextPromise := nextPromise + 1;
      unsettled := unsettled + {p};
    }

    /** `resolve`/`reject` on promise `p`: it takes effect only while `p` is unsettled. */
    method Settle(p: nat, outcome: Outcome)
      modifies this
      ensures p in old(unsettled) ==>
        settled == old(settled) + [Settlement(p, outcome)] && unsettled == old(unsettled) - {p}
      ensures p !in old(unsettled) ==> settled == old(settled) && unsettled == old(unsettled)
      ensures itemOpen == old(itemOpen) && queue == old(queue) && nextPromise == old(nextPromise)
      ensures closeCode == old(closeCode) && closeReason == old(closeReason)
    {
      if p in unsettled {
        settled := settled + [Settlement(p, outcome)];
        unsettled := unsettled - {p};
      }
    }

    /** `open(timeout)`: consumes an `open` event that came first, rejects unless the
        socket is connecting or open, and otherwise leaves a pending `open`. */
    method Open(readyState: int) returns (reply: Reply)
      requires Valid()
      modifies this
      ensures Valid()
      ensures queue == old(queue) && settled == old(settled)
      ensures closeCode == old(closeCode) && closeReason == old(closeReason)
      ensures old(itemOpen) == OpenItem ==>
        reply == Now(Opened) && itemOpen == NoOpen && unsettled == old(unsettled)
      ensures old(itemOpen) != OpenItem && readyState != CONNECTING && readyState != OPEN ==>
        reply == Now(Rejected(InvalidState(readyState))) && itemOpen == old(itemOpen) && unsettled == old(unsettled)
      ensures old(itemOpen) != OpenItem && (readyState == CONNECTING || readyState == OPEN) ==>
        reply == Later(old(nextPromise)) && itemOpen == OpenReceiver(old(nextPromise)) &&
        unsettled == old(unsettled) + {old(nextPromise)}
    {
      if itemOpen == OpenItem {
        itemOpen := NoOpen;
        reply := Now(Opened);
      } else if readyState != CONNECTING && readyState != OPEN {
        reply := Now(Rejected(InvalidState(readyState)));
      } else {
        var p := NewPromise();
        itemOpen := OpenReceiver(p);
        reply := Later(p);
      }
    }

    /** `read(timeout)`: a buffered event at the head is removed and settles the read at
        once; otherwise the read is rejected unless the socket is open, and else it
        joins the queue as a pending reader. */
    method Read(readyState: int) returns (reply: Reply)
      requires Valid()
      modifies this
      ensures Valid()
      ensures itemOpen == old(itemOpen) && settled == old(settled)
      ensures closeCode == old(closeCode) && closeReason == old(closeReason)
      ensures old(|queue| > 0 && !queue[0].Receiver?) ==>
        queue == old(queue[1..]) && unsettled == old(unsettled) &&
        reply == Now(match old(queue[0])
          case MessageItem(d) => Data(d)
          case CloseItem(_) => NoData
          case ErrorItem(ev) => Rejected(SocketFailure(readyState, ev))
          case Receiver(_) => NoData)
      ensures old(|queue| == 0 || queue[0].Receiver?) && readyState != OPEN ==>
        queue == old(queue) && unsettled == old(unsettled) && reply == Now(Rejected(InvalidState(readyState)))
      ensures old(|queue| == 0 || queue[0].Receiver?) && readyState == OPEN ==>
        queue == old(queue) + [Receiver(old(nextPromise))] && reply == Later(old(nextPromise)) &&
        unsettled == old(unsettled) + {old(nextPromise)}
    {
      if |queue| > 0 && !queue[0].Receiver? {
        var item := queue[0];
        RemoveAtKeeps(queue, 0);
        assert RemoveAt(queue, 0) == queue[1..];
        queue := queue[1..];
        match item
        case MessageItem(d) => reply := Now(Data(d));
        case CloseItem(_) => reply := Now(NoData);
        case ErrorItem(ev) => reply := Now(Rejected(SocketFailure(readyState, ev)));
      } else if readyState != OPEN {
        reply := Now(Rejected(InvalidState(readyState)));
      } else {
        var p := NewPromise();
        ReceiverJoins(queue, p);
        queue := queue + [Receiver(p)];
        reply := Later(p);
      }
    }

    /** `onOpen`: settles a pending `open`, or stores the event for a later `open`; a
        second event while one is stored throws "Unreachable" (`ok` is false). */
    method OnOpen() returns (ok: bool)
      requires Valid()
      modifies this
      ensures Valid()
      ensures queue == old(queue) && nextPromise == old(nextPromise)
      ensures closeCode == old(closeCode) && closeReason == old(closeReason)
      ensures ok == (old(itemOpen) != OpenItem)
      ensures old(itemOpen).OpenReceiver? ==>
        itemOpen == NoOpen && settled == old(settled) + [Settlement(old(itemOpen).promise, Opened)] &&
        unsettled == old(unsettled) - {old(itemOpen).promise}
      ensures !old(itemOpen).OpenReceiver? ==> settled == old(settled) && unsettled == old(unsettled)
      ensures old(itemOpen) == NoOpen ==> itemOpen == OpenItem
      ensures old(itemOpen) == OpenItem ==> itemOpen == OpenItem
    {
      match itemOpen
      case OpenReceiver(p) =>
        Settle(p, Opened);
        itemOpen := NoOpen;
        ok := true;
      case OpenItem =>
        ok := false;
      case NoOpen =>
        itemOpen := OpenItem;
        ok := true;
    }

    /** The loops of `onClose` and `onError` over a queue of pending readers: settle the
        first with `head` and the others with `others`, then empty the queue. */
    method SettleReceivers(head: Outcome, others: Outcome)
      requires Valid() && AllReceivers(queue)
      modifies this
      ensures Valid()
      ensures queue == [] && itemOpen == old(itemOpen) && nextPromise == old(nextPromise)
      ensures closeCode == old(closeCode) && closeReason == old(closeReason)
      ensures settled == old(settled) + Notices(old(queue), head, others)
      ensures unsettled == old(unsettled) - Promises(old(queue))
    {
      var q := queue;
      var i := 0;
      while i < |q|
        invariant 0 <= i <= |q| && queue == q
        invariant itemOpen == old(itemOpen) && nextPromise == old(nextPromise)
        invariant closeCode == old(closeCode) && closeReason == old(closeReason)
        invariant settled == old(settled) + Notices(q[..i], head, others)
        invariant unsettled == old(unsettled) - Promises(q[..i])
      {
        assert q[i].Receiver?;
        PromisesSnoc(q, i);
        assert q[i].promise !in Promises(q[..i]);
        Settle(q[i].promise, if i == 0 then head else others);
        assert Notices(q[..i + 1], head, others) == Notices(q[..i], head, others) + [Settlement(q[i].promise, if i == 0 then head else others)];
        i := i + 1;
      }
      assert q[..i] == q;
      queue := [];
      assert Promises(old(queue)) <= old(unsettled);
    }

    /** `onClose(ev)`: rejects a pending `open`, records the close code and reason, then
        settles the first pending reader with `undefined` and rejects the rest, or, with
        no reader waiting, queues a close item. */
    method OnClose(code: int, reason: string, readyState: int)
      requires Valid()
      modifies this
      ensures Valid()
      ensures nextPromise == old(nextPromise)
      ensures closeCode == Some(code) && closeReason == Some(reason)
      ensures itemOpen == (if old(itemOpen).OpenReceiver? then NoOpen else old(itemOpen))
      ensures var f := SocketFailure(readyState, CloseEvent(code, reason));
        var opening := if old(itemOpen).OpenReceiver? then [Settlement(old(itemOpen).promise, Rejected(f))] else [];
        var openIds := if old(itemOpen).OpenReceiver? then {old(itemOpen).promise} else {};
        if old(|queue| > 0 && queue[0].Receiver?) then
          queue == [] &&
          settled == old(settled) + opening + Notices(old(queue), NoData, Rejected(f)) &&
          unsettled == old(unsettled) - openIds - Promises(old(queue))
        else
          queue == old(queue) + [CloseItem(CloseEvent(code, reason))] &&
          settled == old(settled) + opening && unsettled == old(unsettled) - openIds
    {
      var ev := CloseEvent(code, reason);
      RejectOpen(SocketFailure(readyState, ev));
      closeCode := Some(code);
      closeReason := Some(reason);
      if |queue| > 0 && queue[0].Receiver? {
        SettleReceivers(NoData, Rejected(SocketFailure(readyState, ev)));
      } else {
        EventJoins(queue, CloseItem(ev));
        queue := queue + [CloseItem(ev)];
      }
    }

    /** `onError(ev)`: rejects a pending `open`, then rejects every pending reader, or,
        with no reader waiting, queues an error item. */
    method OnError(readyState: int)
      requires Valid()
      modifies this
      ensures Valid()
      ensures nextPromise == old(nextPromise)
      ensures closeCode == old(closeCode) && closeReason == old(closeReason)
      ensures itemOpen == (if old(itemOpen).OpenReceiver? then NoOpen else old(itemOpen))
      ensures var f := SocketFailure(readyState, ErrorEvent);
        var opening := if old(itemOpen).OpenReceiver? then [Settlement(old(itemOpen).promise, Rejected(f))] else [];
        var openIds := if old(itemOpen).OpenReceiver? then {old(itemOpen).promise} else {};
        if old(|queue| > 0 && queue[0].Receiver?) then
          queue == [] &&
          settled == old(settled) + opening + Notices(old(queue), Rejected(f), Rejected(f)) &&
          unsettled == old(unsettled) - openIds - Promises(old(queue))
        else
          queue == old(queue) + [ErrorItem(ErrorEvent)] &&
          settled == old(settled) + opening && unsettled == old(unsettled) - openIds
    {
      RejectOpen(SocketFailure(readyState, ErrorEvent));
      if |queue| > 0 && queue[0].Receiver? {
        SettleReceivers(Rejected(SocketFailure(readyState, ErrorEvent)), Rejected(SocketFailure(readyState, ErrorEvent)));
      } else {
        EventJoins(queue, ErrorItem(ErrorEvent));
        queue := queue + [ErrorItem(ErrorEvent)];
      }
    }

    /** The common start of `onClose` and `onError`: a pending `open` is rejected. */
    method RejectOpen(f: Failure)
      requires Valid()
      modifies this
      ensures Valid()
      ensures queue == old(queue) && nextPromise == old(nextPromise)
      ensures closeCode == old(closeCode) && closeReason == old(closeReason)
      ensures itemOpen == (if old(itemOpen).OpenReceiver? then NoOpen else old(itemOpen))
      ensures old(itemOpen).OpenReceiver? ==>
        settled == old(settled) + [Settlement(old(itemOpen).promise, Rejected(f))] &&
        unsettled == old(unsettled) - {old(itemOpen).promise}
      ensures !old(itemOpen).OpenReceiver? ==> settled == old(settled) && unsettled == old(unsettled)
    {
      if itemOpen.OpenReceiver? {
        Settle(itemOpen.promise, Rejected(f));
        itemOpen := NoOpen;
      }
    }

    /** `onMessage(ev)`: hands the data to the first pending reader, or queues it. */
    method OnMessage(data: seq<byte>)
      requires Valid()
      modifies this
      ensures Valid()
      ensures itemOpen == old(itemOpen) && nextPromise == old(nextPromise)
      ensures closeCode == old(closeCode) && closeReason == old(closeReason)
      ensures old(|queue| > 0 && queue[0].Receiver?) ==>
        queue == old(queue[1..]) &&
        settled == old(settled) + [Settlement(old(queue[0].promise), Data(data))] &&
        unsettled == old(unsettled) - {old(queue[0].promise)}
      ensures old(|queue| == 0 || !queue[0].Receiver?) ==>
        queue == old(queue) + [MessageItem(data)] && settled == old(settled) && unsettled == old(unsettled)
    {
      if |queue| > 0 && queue[0].Receiver? {
        var p := queue[0].promise;
        RemoveAtKeeps(queue, 0);
        assert RemoveAt(queue, 0) == queue[1..];
        queue := queue[1..];
        Settle(p, Data(data));
      } else {
        EventJoins(queue, MessageItem(data));
        queue := queue + [MessageItem(data)];
      }
    }

    /** `cancelOpenExec(tgt)`: the timer of the `open` with promise `p` fired. The
        target is an open request, never a queued reader. */
    method CancelOpenExec(p: nat)
      requires Valid()
      requires p !in Promises(queue)
      modifies this
      ensures Valid()
      ensures queue == old(queue) && nextPromise == old(nextPromise)
      ensures closeCode == old(closeCode) && closeReason == old(closeReason)
      ensures itemOpen == (if old(itemOpen) == OpenReceiver(p) then NoOpen else old(itemOpen))
      ensures p in old(unsettled) ==>
        settled == old(settled) + [Settlement(p, Rejected(Timeout))] && unsettled == old(unsettled) - {p}
      ensures p !in old(unsettled) ==> settled == old(settled) && unsettled == old(unsettled)
    {
      if itemOpen == OpenReceiver(p) {
        itemOpen := NoOpen;
      }
      Settle(p, Rejected(Timeout));
    }

    /** `cancelMessageExec(tgt)`: the timer of the read with promise `p` fired; the
        reader leaves the queue and is rejected. The target is a read request, never the
        pending `open`. */
    method CancelMessageExec(p: nat)
      requires Valid()
      requires itemOpen != OpenReceiver(p)
      modifies this
      ensures Valid()
      ensures itemOpen == old(itemOpen) && nextPromise == old(nextPromise)
      ensures closeCode == old(closeCode) && closeReason == old(closeReason)
      ensures var i := Strings.IndexOf(old(queue), Receiver(p));
        queue == (if i >= 0 then RemoveAt(old(queue), i) else old(queue))
      ensures p in old(unsettled) ==>
        settled == old(settled) + [Settlement(p, Rejected(Timeout))] && unsettled == old(unsettled) - {p}
      ensures p !in old(unsettled) ==> settled == old(settled) && unsettled == old(unsettled)
    {
      var i := Strings.IndexOf(queue, Receiver(p));
      if i >= 0 {
        RemoveAtKeeps(queue, i);
        queue := RemoveAt(queue, i);
      }
      Settle(p, Rejected(Timeout));
      PromisesWithout(old(queue), queue, p);
    }
  }

  /** A fresh reader may join a queue whose head is not a buffered event. */
  lemma ReceiverJoins(q: seq<Item>, p: nat)
    requires Disciplined(q) && DistinctReceivers(q) && p !in Promises(q)
    requires |q| == 0 || q[0].Receiver?
    ensures Disciplined(q + [Receiver(p)]) && DistinctReceivers(q + [Receiver(p)])
    ensures Promises(q + [Receiver(p)]) == Promises(q) + {p}
  {
    var r := q + [Receiver(p)];
    forall i, j | 0 <= i < j < |r| && r[i].Receiver? && r[j].Receiver?
      ensures r[i].promise != r[j].promise
    {
      if j == |q| {
        assert r[i] == q[i];
        assert q[i].promise in Promises(q);
      }
    }
    assert Promises(r) == Promises(q) + {p} by {
      forall x | x in Promises(r) ensures x in Promises(q) + {p} {
        var k :| 0 <= k < |r| && r[k].Receiver? && r[k].promise == x;
        if k < |q| {
          assert q[k] == r[k];
        }
      }
      forall x | x in Promises(q) ensures x in Promises(r) {
        var k :| 0 <= k < |q| && q[k].Receiver? && q[k].promise == x;
        assert r[k] == q[k];
      }
      assert r[|q|] == Receiver(p);
    }
  }

  /** A buffered event may join a queue whose head is not a pending reader. */
  lemma EventJoins(q: seq<Item>, item: Item)
    requires Disciplined(q) && DistinctReceivers(q) && !item.Receiver?
    requires |q| == 0 || !q[0].Receiver?
    ensures Disciplined(q + [item]) && DistinctReceivers(q + [item])
    ensures Promises(q + [item]) == Promises(q) == {}
  {
    var r := q + [item];
    assert NoReceivers(q) by {
      if |q| > 0 {
        assert !AllReceivers(q);
      }
    }
    assert NoReceivers(r) by {
      forall i | 0 <= i < |r| ensures !r[i].Receiver? {
        if i < |q| {
          assert r[i] == q[i];
        }
      }
    }
  }

  lemma PromisesSnoc(q: seq<Item>, i: nat)
    requires i < |q|
    ensures Promises(q[..i + 1]) == Promises(q[..i]) + (if q[i].Receiver? then {q[i].promise} else {})
  {
    var a := q[..i];
    var b := q[..i + 1];
    forall x | x in Promises(b)
      ensures x in Promises(a) + (if q[i].Receiver? then {q[i].promise} else {})
    {
      var k :| 0 <= k < |b| && b[k].Receiver? && b[k].promise == x;
      if k < i {
        assert a[k] == b[k];
      }
    }
    forall x | x in Promises(a)
      ensures x in Promises(b)
    {
      var k :| 0 <= k < |a| && a[k].Receiver? && a[k].promise == x;
      assert b[k] == a[k];
    }
    if q[i].Receiver? {
      assert b[i] == q[i];
    }
  }

  /** Removing the reader of `p` (when present) keeps every other reader's promise. */
  lemma PromisesWithout(q: seq<Item>, r: seq<Item>, p: nat)
    requires var i := Strings.IndexOf(q, Receiver(p)); r == (if i >= 0 then RemoveAt(q, i) else q)
    requires DistinctReceivers(q)
    ensures Promises(r) <= Promises(q) - {p}
  {
    var i := Strings.IndexOf(q, Receiver(p));
    if i >= 0 {
      PromisesWithoutAt(q, i, p);
    }
  }

  lemma PromisesWithoutAt(q: seq<Item>, i: nat, p: nat)
    requires i < |q| && q[i] == Receiver(p) && DistinctReceivers(q)
    ensures Promises(RemoveAt(q, i)) <= Promises(q) - {p}
  {
    var r := RemoveAt(q, i);
    forall x | x in Promises(r) ensures x in Promises(q) && x != p {
      var k :| 0 <= k < |r| && r[k].Receiver? && r[k].promise == x;
      if k < i {
        assert r[k] == q[k] && q[k].promise != q[i].promise;
      } else {
        assert r[k] == q[k + 1] && q[i].promise != q[k + 1].promise;
      }
    }
  }

}
