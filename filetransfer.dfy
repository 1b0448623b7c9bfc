/** The shared pieces of the chunked file-transfer protocol in
    webrtc-transfer/src/filetransfer.ts: chunk arithmetic, the 32-byte data-frame
    codec, and the in-memory chunk sink `BasicFileWriter`. */
module FileTransfer {
  import opened Wrappers
  import opened Bytes

  // ---------------------------------------------------------------------------
  // Chunk arithmetic
  // ---------------------------------------------------------------------------

  datatype ChunkInfo = ChunkInfo(count: int, last: int)

  /** `calcChunkInfo(size, chunkSize)`: the number of chunks and the size of the final
      remainder. JavaScript computes `Math.ceil(size / chunkSize) >> 0` and
      `size % chunkSize >> 0`; for chunkSize 0 both are NaN or Infinity and `>> 0` makes
      them 0, and for a negative chunkSize the quotient rounds toward +Infinity and `%`
      keeps the sign of `size`. */
  function CalcChunkInfo(size: nat, chunkSize: int): (r: ChunkInfo)
    ensures chunkSize > 0 ==> 0 <= r.last < chunkSize && r.count >= 0
    ensures chunkSize > 0 ==> r.last == size % chunkSize
    ensures chunkSize > 0 ==> (r.count == 0 <==> size == 0)
    ensures chunkSize > 0 && size > 0 ==>
      (r.count - 1) * chunkSize < size <= r.count * chunkSize
    ensures chunkSize > 0 && size > 0 ==>
      size == (r.count - 1) * chunkSize + (if r.last == 0 then chunkSize else r.last)
    ensures chunkSize == 0 ==> r == ChunkInfo(0, 0)
    ensures chunkSize < 0 ==> r.count <= 0 && 0 <= r.last < -chunkSize && r.last == size % -chunkSize
  {
    if chunkSize > 0 then
      CeilingLayout(size, chunkSize)
    else if chunkSize == 0 then ChunkInfo(0, 0)
    else ChunkInfo(-(size / -chunkSize), size % -chunkSize)
  }

  /** The layout for a positive chunk size: Euclidean division read as a ceiling, `q`
      full chunks when the remainder `m` is 0, otherwise `q + 1` chunks, the last
      holding `m` bytes. */
  function CeilingLayout(size: nat, c: int): (r: ChunkInfo)
    requires c > 0
    ensures 0 <= r.last < c && r.count >= 0 && r.last == size % c
    ensures r.count == 0 <==> size == 0
    ensures size > 0 ==> (r.count - 1) * c < size <= r.count * c
    ensures size > 0 ==> size == (r.count - 1) * c + (if r.last == 0 then c else r.last)
  {
    var q, m := size / c, size % c;
    assert size == q * c + m;
    assert (q + 1) * c == q * c + c;
    assert (q - 1) * c == q * c - c;
    if m == 0 then ChunkInfo(q, 0) else ChunkInfo(q + 1, m)
  }

  /** The length every writer demands of chunk `index`: the full chunk size, except for
      the final chunk, which carries the remainder. A remainder of 0 means the file
      ends on a chunk boundary and the final chunk is full (see README, Findings). */
  function ChunkLength(count: int, chunkSize: int, last: int, index: int): int {
    if index == count - 1 && last != 0 then last else chunkSize
  }

  /** The rule as the writers implement it: the final chunk must be exactly `last`
      bytes long, even when `last` is 0. */
  function ChunkLengthAsWritten(count: int, chunkSize: int, last: int, index: int): int {
    if index == count - 1 then last else chunkSize
  }

  function Min(a: int, b: int): int { if a <= b then a else b }
  function Max(a: int, b: int): int { if a >= b then a else b }

  /** `Blob.slice(start, end)`: negative offsets count from the end, both are clamped to
      the blob, and an inverted range is empty. */
  function BlobSlice(data: seq<byte>, start: int, end: int): (r: seq<byte>)
    ensures 0 <= start <= end <= |data| ==> r == data[start..end]
  {
    var n := |data|;
    var from := if start < 0 then Max(n + start, 0) else Min(start, n);
    var to := if end < 0 then Max(n + end, 0) else Min(end, n);
    if from < to then data[from..to] else []
  }

  /** The bytes the sender reads for chunk `i` (filetransfer.ts, `send0`). */
  function ChunkOf(file: seq<byte>, chunkSize: int, i: int): seq<byte> {
    BlobSlice(file, i * chunkSize, Min(i * chunkSize + chunkSize, |file|))
  }

  lemma MulLe(a: int, b: int, c: nat)
    requires a <= b
    ensures a * c <= b * c
  {
  }

  /** Every chunk the sender reads has exactly the length the writers demand. */
  lemma {:induction false} ChunkOfHasChunkLength(file: seq<byte>, chunkSize: int, i: int)
    requires chunkSize > 0
    requires 0 <= i < CalcChunkInfo(|file|, chunkSize).count
    ensures var info := CalcChunkInfo(|file|, chunkSize);
      |ChunkOf(file, chunkSize, i)| == ChunkLength(info.count, chunkSize, info.last, i)
  {
    var info := CalcChunkInfo(|file|, chunkSize);
    var size := |file|;
    MulLe(i, info.count - 1, chunkSize);
    assert 0 <= i * chunkSize;
    if i < info.count - 1 {
      MulLe(i + 1, info.count - 1, chunkSize);
      assert i * chunkSize + chunkSize == (i + 1) * chunkSize;
    }
  }

  /** The rule as written rejects the final chunk of a 100-byte file sent in 50-byte
      chunks: the sender reads 50 bytes for chunk 1, the writers demand 0. */
  lemma ChunkLengthAsWrittenRejectsFullLastChunk()
    ensures var file := seq(100, _ => 0);
      var info := CalcChunkInfo(100, 50);
      info == ChunkInfo(2, 0) &&
      |ChunkOf(file, 50, 1)| == 50 &&
      ChunkLengthAsWritten(info.count, 50, info.last, 1) == 0
  {
    var file: seq<byte> := seq(100, _ => 0);
    assert ChunkOf(file, 50, 1) == file[50..100];
  }

  // ---------------------------------------------------------------------------
  // Data frames
  // ---------------------------------------------------------------------------

  const MAGIC: nat := 0xC09FE7AD
  const HEADER: nat := 32
  const U32: nat := 0x1_0000_0000
  const U64: nat := 0x1_0000_0000_0000_0000

  /** A decoded data frame: the chunk index and its payload. */
  datatype Frame = Frame(index: nat, data: seq<byte>)

  /** The first 16 header bytes: magic, index as u32 and payload length as u64, all
      little-endian. `setUint32` stores the index modulo 2^32. */
  function HeaderPrefix(index: int, length: nat): (r: seq<byte>)
    ensures |r| == 16
  {
    LeBytes(MAGIC, 4) + LeBytes(index % U32, 4) + LeBytes(length % U64, 8)
  }

  /** `encode(index, data)`: the header prefix, 16 zero bytes, then the payload. */
  function Encode(index: int, data: seq<byte>): (r: seq<byte>)
    ensures |r| == |data| + HEADER
    ensures r[..16] == HeaderPrefix(index, |data|) && r[16..32] == Zeros(16) && r[32..] == data
  {
    HeaderPrefix(index, |data|) + Zeros(16) + data
  }

  const OUT_OF_BOUNDS := "Offset is outside the bounds of the DataView"

  /** `decode(buffer)`: the reads at offsets 0, 4 and 8 throw a RangeError on a buffer too
      short for them; a wrong magic or a declared length other than `byteLength - 32`
      throws too. The reserved bytes are not looked at. */
  function Decode(b: seq<byte>): (r: Result<Frame>)
  {
    if |b| < 4 then Err(OUT_OF_BOUNDS)
    else if LeValue(b[..4]) != MAGIC then Err("invalid magic number")
    else if |b| < 16 then Err(OUT_OF_BOUNDS)
    else if LeValue(b[8..16]) != |b| - HEADER then Err("invalid data size")
    else Ok(Frame(LeValue(b[4..8]), b[32..]))
  }

  lemma HeaderFields(index: int, data: seq<byte>)
    ensures var e := Encode(index, data);
      e[..4] == LeBytes(MAGIC, 4) && e[4..8] == LeBytes(index % U32, 4) &&
      e[8..16] == LeBytes(|data| % U64, 8)
  {
    var e := Encode(index, data);
    var h := HeaderPrefix(index, |data|);
    assert e[..4] == h[..4] && e[4..8] == h[4..8] && e[8..16] == h[8..16];
  }

  lemma DecodeFields(b: seq<byte>, index: nat, data: seq<byte>)
    requires |b| >= 16 && LeValue(b[..4]) == MAGIC && LeValue(b[4..8]) == index
    requires LeValue(b[8..16]) == |b| - HEADER && b[32..] == data
    ensures Decode(b) == Ok(Frame(index, data))
  {
  }

  /** The header fields of an encoded frame read back as magic, index and length. */
  lemma EncodedHeader(index: int, data: seq<byte>)
    requires |data| < U64
    ensures var e := Encode(index, data);
      LeValue(e[..4]) == MAGIC && LeValue(e[4..8]) == index % U32 &&
      LeValue(e[8..16]) == |e| - HEADER
  {
    var e := Encode(index, data);
    HeaderFields(index, data);
    HeaderWidths();
    ReadsBack(e[..4], MAGIC, 4);
    ReadsBack(e[4..8], index % U32, 4);
    SmallMod(|data|, U64);
    ReadsBack(e[8..16], |data| % U64, 8);
  }

  lemma HeaderWidths()
    ensures Pow256(4) == U32 && Pow256(8) == U64
  {
  }

  /** A field stored little-endian reads back as the value stored. */
  lemma ReadsBack(field: seq<byte>, v: nat, n: nat)
    requires v < Pow256(n) && field == LeBytes(v, n)
    ensures LeValue(field) == v
  {
    LeValueOfBytes(v, n);
  }

  /** Decoding an encoded frame gives back the index (modulo 2^32) and the payload. */
  lemma DecodeEncode(index: int, data: seq<byte>)
    requires |data| < U64
    ensures Decode(Encode(index, data)) == Ok(Frame(index % U32, data))
  {
    EncodedHeader(index, data);
    DecodeFields(Encode(index, data), index % U32, data);
  }

  /** A buffer decodes exactly when it has a header, the magic and a length field that
      agrees with the payload; the frame then holds the index field and the payload. */
  lemma DecodeSucceedsIff(b: seq<byte>)
    ensures Decode(b).Ok? <==>
      |b| >= HEADER && LeValue(b[..4]) == MAGIC && LeValue(b[8..16]) == |b| - HEADER
    ensures Decode(b).Ok? ==> Decode(b).value == Frame(LeValue(b[4..8]), b[32..])
  {
  }

  lemma SmallMod(x: nat, m: nat)
    requires x < m
    ensures x % m == x
  {
  }

  lemma SplitThree<T>(s: seq<T>, i: nat, j: nat)
    requires i <= j <= |s|
    ensures s == s[..i] + s[i..j] + s[j..]
  {
  }

  /** A header prefix that carries the magic is rebuilt from its two field values. */
  lemma HeaderPrefixOfBytes(h: seq<byte>)
    requires |h| == 16 && LeValue(h[..4]) == MAGIC
    ensures HeaderPrefix(LeValue(h[4..8]), LeValue(h[8..16])) == h
  {
    var a, b, c := h[..4], h[4..8], h[8..16];
    assert LeBytes(MAGIC, 4) == a by { LeBytesOfValue(a); }
    assert LeBytes(LeValue(b) % U32, 4) == b by { HeaderWidths(); SmallMod(LeValue(b), U32); LeBytesOfValue(b); }
    assert LeBytes(LeValue(c) % U64, 8) == c by { HeaderWidths(); SmallMod(LeValue(c), U64); LeBytesOfValue(c); }
    assert h == a + b + c by { SplitThree(h, 4, 8); }
  }

  /** An encoded header is the little-endian image of its three field values. */
  lemma EncodedHeaderBytes(b: seq<byte>, index: nat, data: seq<byte>)
    requires |b| >= HEADER && index == LeValue(b[4..8]) && data == b[32..]
    requires LeValue(b[..4]) == MAGIC && LeValue(b[8..16]) == |b| - HEADER
    ensures Encode(index, data) == b[..16] + Zeros(16) + b[32..]
  {
    var h := b[..16];
    assert h[..4] == b[..4] && h[4..8] == b[4..8] && h[8..16] == b[8..16];
    HeaderPrefixOfBytes(h);
  }

  /** Decoding loses nothing but the reserved bytes: re-encoding a decoded frame
      rebuilds the buffer with bytes 16..31 zeroed. */
  lemma EncodeDecode(b: seq<byte>)
    requires Decode(b).Ok?
    ensures var f := Decode(b).value;
      Encode(f.index, f.data) == b[..16] + Zeros(16) + b[32..]
  {
    DecodeSucceedsIff(b);
    EncodedHeaderBytes(b, LeValue(b[4..8]), b[32..]);
  }

  // ---------------------------------------------------------------------------
  // The chunk sink
  // ---------------------------------------------------------------------------

  /** The file metadata echoed in the handshake. */
  datatype FileInfo = FileInfo(name: string, lastModified: int, relativePath: string, size: nat, mime: string)

  /** What the download callback receives when the sink is flushed. */
  datatype Download = Download(info: Option<FileInfo>, content: seq<byte>)

  // ---------------------------------------------------------------------------
  // Control messages and the channel
  // ---------------------------------------------------------------------------

  /** A JSON control message, by its `type` tag. */
  datatype Message =
    | SendMsg(uuid: string, info: FileInfo, offer: int)
    | RecvMsg(uuid: string, accept: bool, chunkSize: Option<int>)
    | MissingMsg(uuid: string, indices: Option<seq<int>>)
    | FinishMsg(uuid: string)
    | OtherMsg(uuid: string, kind: string)

  /** One frame on the data channel: a text frame (`None` when it is not a JSON object)
      or a binary data frame. */
  datatype Payload = Text(json: Option<Message>) | Binary(bytes: seq<byte>)

  datatype Step = Handshake | Sending | Receiving | Finished | Cancelled

  /** One call of the progress callback: step, round, bytes so far, bytes expected. */
  datatype ProgressEvent = ProgressEvent(step: Step, round: int, acc: int, total: int)

  /** The indices of the unfilled slots among the first `n`, ascending. */
  function GapsUpTo<T>(cache: seq<Option<T>>, n: nat): (r: seq<nat>)
    requires n <= |cache|
    ensures forall k :: 0 <= k < |r| ==> r[k] < n
  {
    if n == 0 then []
    else GapsUpTo(cache, n - 1) + (if cache[n - 1].None? then [n - 1] else [])
  }

  function Gaps<T>(cache: seq<Option<T>>): seq<nat> {
    GapsUpTo(cache, |cache|)
  }

  /** The gap list holds exactly the unfilled indices, strictly ascending. */
  lemma {:induction false} GapsUpToExact<T>(cache: seq<Option<T>>, n: nat)
    requires n <= |cache|
    ensures forall x: nat :: x in GapsUpTo(cache, n) <==> x < n && cache[x].None?
    ensures forall j, k :: 0 <= j < k < |GapsUpTo(cache, n)| ==>
      GapsUpTo(cache, n)[j] < GapsUpTo(cache, n)[k]
  {
    if n > 0 {
      GapsUpToExact(cache, n - 1);
    }
  }

  lemma GapsExact<T>(cache: seq<Option<T>>)
    ensures forall x: nat :: x in Gaps(cache) <==> x < |cache| && cache[x].None?
    ensures forall j, k :: 0 <= j < k < |Gaps(cache)| ==> Gaps(cache)[j] < Gaps(cache)[k]
  {
    GapsUpToExact(cache, |cache|);
  }

  /** The payloads of a full cache, concatenated in index order. */
  function Concat(cache: seq<Option<seq<byte>>>): seq<byte> {
    if |cache| == 0 then []
    else (if cache[0].Some? then cache[0].value else []) + Concat(cache[1..])
  }

  /** The ASCII text "undefined": `new Blob(cache)` turns every hole of a sparse cache
      into this string. */
  const UNDEFINED_TEXT: seq<byte> := [117, 110, 100, 101, 102, 105, 110, 101, 100]

  /** The blob `new Blob(cache)` builds from a cache that may have holes. */
  function ConcatWithHoles(cache: seq<Option<seq<byte>>>): seq<byte> {
    if |cache| == 0 then []
    else (if cache[0].Some? then cache[0].value else UNDEFINED_TEXT) + ConcatWithHoles(cache[1..])
  }

  /** A cache without holes becomes the plain concatenation of its chunks. */
  lemma {:induction false} ConcatWithHolesOfFull(cache: seq<Option<seq<byte>>>)
    requires forall i :: 0 <= i < |cache| ==> cache[i].Some?
    ensures ConcatWithHoles(cache) == Concat(cache)
  {
    if |cache| > 0 {
      ConcatWithHolesOfFull(cache[1..]);
    }
  }

  /** A hole never vanishes from the blob: a cache with a hole gives more bytes than
      its chunks hold, so the download is not the file. */
  lemma {:induction false} ConcatWithHolesLonger(cache: seq<Option<seq<byte>>>)
    ensures |ConcatWithHoles(cache)| >= |Concat(cache)|
    ensures (exists i :: 0 <= i < |cache| && cache[i].None?) ==> |ConcatWithHoles(cache)| > |Concat(cache)|
  {
    if |cache| > 0 {
      ConcatWithHolesLonger(cache[1..]);
      if cache[0].Some? && exists i :: 0 <= i < |cache| && cache[i].None? {
        var i :| 0 <= i < |cache| && cache[i].None?;
        assert cache[1..][i - 1].None?;
      }
    }
  }

  /** The bytes already stored: the sum of the lengths of the filled slots. */
  function FilledBytes(cache: seq<Option<seq<byte>>>): nat {
    if |cache| == 0 then 0
    else (if cache[0].Some? then |cache[0].value| else 0) + FilledBytes(cache[1..])
  }

  /** A cache of empty slots holds no bytes. */
  lemma {:induction false} FilledBytesEmpty(n: nat)
    ensures FilledBytes(seq<Option<seq<byte>>>(n, _ => None)) == 0
  {
    if n > 0 {
      FilledBytesEmpty(n - 1);
      assert seq<Option<seq<byte>>>(n, _ => None)[1..] == seq<Option<seq<byte>>>(n - 1, _ => None);
    }
  }

  /** Filling an empty slot adds the chunk's length; refilling a slot with a chunk of
      the same length adds nothing. */
  lemma {:induction false} FilledBytesUpdate(cache: seq<Option<seq<byte>>>, i: nat, data: seq<byte>)
    requires i < |cache|
    requires cache[i].Some? ==> |cache[i].value| == |data|
    ensures FilledBytes(cache[i := Some(data)]) ==
      FilledBytes(cache) + (if cache[i].Some? then 0 else |data|)
  {
    if i > 0 {
      FilledBytesUpdate(cache[1..], i - 1, data);
      assert cache[i := Some(data)][1..] == cache[1..][i - 1 := Some(data)];
    } else {
      assert cache[i := Some(data)][1..] == cache[1..];
    }
  }

  /** The sender's chunks `from`, `from + 1`, ..., `count - 1`, as filled slots. */
  function ChunksFrom(file: seq<byte>, chunkSize: int, from: nat, count: int): seq<Option<seq<byte>>>
    decreases count - from
  {
    if from >= count then [] else [Some(ChunkOf(file, chunkSize, from))] + ChunksFrom(file, chunkSize, from + 1, count)
  }

  lemma ConcatCons(x: seq<byte>, rest: seq<Option<seq<byte>>>)
    ensures Concat([Some(x)] + rest) == x + Concat(rest)
  {
    assert ([Some(x)] + rest)[1..] == rest;
  }

  /** Chunk `from` of a file occupies `file[from * chunkSize .. min((from + 1) * chunkSize, size)]`. */
  lemma ChunkBounds(file: seq<byte>, chunkSize: int, from: nat)
    requires chunkSize > 0
    requires from < CalcChunkInfo(|file|, chunkSize).count
    ensures 0 <= from * chunkSize < |file|
    ensures Min((from + 1) * chunkSize, |file|) == Min(from * chunkSize + chunkSize, |file|)
    ensures ChunkOf(file, chunkSize, from) == file[from * chunkSize..Min(from * chunkSize + chunkSize, |file|)]
  {
    var count := CalcChunkInfo(|file|, chunkSize).count;
    MulLe(from, count - 1, chunkSize);
    assert (from + 1) * chunkSize == from * chunkSize + chunkSize;
  }

  /** The chunks a sender reads, from chunk `from` on, cover the rest of its file. */
  lemma {:induction false} ChunksCoverFile(file: seq<byte>, chunkSize: int, from: nat)
    requires chunkSize > 0
    requires from <= CalcChunkInfo(|file|, chunkSize).count
    ensures Concat(ChunksFrom(file, chunkSize, from, CalcChunkInfo(|file|, chunkSize).count)) ==
      file[Min(from * chunkSize, |file|)..]
    decreases CalcChunkInfo(|file|, chunkSize).count - from
  {
    var count := CalcChunkInfo(|file|, chunkSize).count;
    if from == count {
      assert Min(from * chunkSize, |file|) == |file|;
    } else {
      ChunksCoverFile(file, chunkSize, from + 1);
      ChunkBounds(file, chunkSize, from);
      ConcatCons(ChunkOf(file, chunkSize, from), ChunksFrom(file, chunkSize, from + 1, count));
      ChunkThenRest(file, chunkSize, from);
    }
  }

  /** A chunk followed by the rest of the file past it is the file from the chunk on. */
  lemma ChunkThenRest(file: seq<byte>, chunkSize: int, from: nat)
    requires chunkSize > 0 && 0 <= from * chunkSize < |file|
    requires Min((from + 1) * chunkSize, |file|) == Min(from * chunkSize + chunkSize, |file|)
    requires ChunkOf(file, chunkSize, from) == file[from * chunkSize..Min(from * chunkSize + chunkSize, |file|)]
    ensures ChunkOf(file, chunkSize, from) + file[Min((from + 1) * chunkSize, |file|)..] ==
      file[Min(from * chunkSize, |file|)..]
  {
    var lo := from * chunkSize;
    var hi := Min(lo + chunkSize, |file|);
    assert file[lo..] == file[lo..hi] + file[hi..];
  }

  /** A full cache whose slot `i` holds the sender's chunk `i` flushes to the file. */
  lemma FullCacheAssemblesFile(file: seq<byte>, chunkSize: int)
    requires chunkSize > 0
    ensures Concat(ChunksFrom(file, chunkSize, 0, CalcChunkInfo(|file|, chunkSize).count)) == file
  {
    ChunksCoverFile(file, chunkSize, 0);
  }

  /** `BasicFileWriter` of filetransfer.ts: keeps the chunks of one file in memory and
      hands the assembled file to the download callback on flush. */
  class BasicFileWriter {
    var info: Option<FileInfo>
    var cache: seq<Option<seq<byte>>>
    var chunk: int
    var last: int
    /** Every call of the download callback, oldest first. */
    var downloads: seq<Download>

    constructor ()
      ensures info == None && cache == [] && chunk == 0 && last == 0 && downloads == []
    {
      info := None;
      cache := [];
      chunk := 0;
      last := 0;
      downloads := [];
    }

    /** The length `write` demands of chunk `index`. */
    function Expected(index: int): int
      reads this
    {
      ChunkLength(|cache|, chunk, last, index)
    }

    /** Every stored chunk has the length its slot demands. */
    ghost predicate Valid()
      reads this
    {
      forall i :: 0 <= i < |cache| && cache[i].Some? ==> |cache[i].value| == Expected(i)
    }

    /** `open`: records the layout and empties the cache. `new Array(count)` throws for a
      negative count (a negative chunk size), after info, chunk size and remainder
      have been stored. */
    method Open(fileInfo: FileInfo, chunkSize: int) returns (r: Result<bool>)
      modifies this
      ensures var ci := CalcChunkInfo(fileInfo.size, chunkSize);
        info == Some(fileInfo) && chunk == chunkSize && last == ci.last &&
        downloads == old(downloads) &&
        (if ci.count < 0 then r.Err? && cache == old(cache)
         else r == Ok(true) && cache == seq(ci.count, _ => None))
      ensures r.Ok? ==> Valid()
    {
      info := Some(fileInfo);
      chunk := chunkSize;
      var ci := CalcChunkInfo(fileInfo.size, chunkSize);
      last := ci.last;
      if ci.count < 0 {
        r := Err("Invalid array length");
      } else {
        cache := seq(ci.count, _ => None);
        r := Ok(true);
      }
    }

    /** `write(chunk, index)`: stores one chunk and returns how many bytes it added to
        the file, 0 when the slot was already filled. */
    method Write(data: seq<byte>, index: int) returns (r: Result<nat>)
      modifies this
      ensures info == old(info) && chunk == old(chunk) && last == old(last) &&
        downloads == old(downloads)
      ensures !(0 <= index < |old(cache)|) ==> r == Err("index out of range") && cache == old(cache)
      ensures 0 <= index < |old(cache)| && |data| != old(Expected(index)) ==>
        r == Err(if index == |old(cache)| - 1 then "last chunk size mismatch" else "chunk size mismatch") &&
        cache == old(cache)
      ensures 0 <= index < |old(cache)| && |data| == old(Expected(index)) ==>
        cache == old(cache)[index := Some(data)] && r == Ok(if old(cache)[index].Some? then 0 else |data|)
      ensures old(Valid()) ==> Valid()
      ensures old(Valid()) && r.Ok? ==> FilledBytes(cache) == old(FilledBytes(cache)) + r.value
    {
      if index < 0 || index >= |cache| {
        return Err("index out of range");
      }
      if |data| != Expected(index) {
        return Err(if index == |cache| - 1 then "last chunk size mismatch" else "chunk size mismatch");
      }
      var filled := cache[index].Some?;
      ghost var valid := Valid();
      if valid {
        FilledBytesUpdate(cache, index, data);
      }
      cache := cache[index := Some(data)];
      r := Ok(if filled then 0 else |data|);
    }

    /** `check()`: the indices still missing, ascending. */
    method Check() returns (missing: seq<nat>)
      ensures missing == Gaps(cache)
    {
      missing := [];
      var i := 0;
      while i < |cache|
        invariant 0 <= i <= |cache|
        invariant missing == GapsUpTo(cache, i)
      {
        if cache[i].None? {
          missing := missing + [i];
        }
        i := i + 1;
      }
    }

    /** `flush()` as written: `open` allocates the cache as a sparse array, and `some`
        skips its holes, so the "missing chunk" rejection never fires. The blob spells
        each hole "undefined" and is handed to the download callback. */
    method FlushAsWritten() returns (r: Result<bool>)
      modifies this
      ensures r == Ok(true) && info == None && cache == [] && chunk == 0 && last == 0
      ensures downloads == old(downloads) + [Download(old(info), ConcatWithHoles(old(cache)))]
    {
      downloads := downloads + [Download(info, ConcatWithHoles(cache))];
      info := None;
      cache := [];
      chunk := 0;
      last := 0;
      r := Ok(true);
    }

    /** `flush()` as intended: fails with "missing chunk" while a slot is empty; otherwise
        hands the metadata and the concatenated chunks to the download callback and
        resets. */
    method Flush() returns (r: Result<bool>)
      modifies this
      ensures (exists i :: 0 <= i < |old(cache)| && old(cache)[i].None?) ==>
        r == Err("missing chunk") && cache == old(cache) && info == old(info) &&
        chunk == old(chunk) && last == old(last) && downloads == old(downloads)
      ensures (forall i :: 0 <= i < |old(cache)| ==> old(cache)[i].Some?) ==>
        r == Ok(true) && info == None && cache == [] && chunk == 0 && last == 0 &&
        downloads == old(downloads) + [Download(old(info), Concat(old(cache)))]
    {
      var i := 0;
      while i < |cache|
        invariant 0 <= i <= |cache|
        invariant forall j :: 0 <= j < i ==> cache[j].Some?
      {
        if cache[i].None? {
          return Err("missing chunk");
        }
        i := i + 1;
      }
      downloads := downloads + [Download(info, Concat(cache))];
      info := None;
      cache := [];
      chunk := 0;
      last := 0;
      r := Ok(true);
    }
  }
}
