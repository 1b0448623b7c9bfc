/** `FileSystemAPIWriter` of webrtc-transfer/src/fsapi-writer.ts: a chunk sink that
    writes each chunk straight to a file at `index * chunkSize` and remembers only a
    presence bitmap. The file picker's outcome is a parameter of `Open`, and the
    output stream is the log `writes`. */
module FsApiWriter {
  import opened Wrappers
  import opened Bytes
  import opened FileTransfer

  /** One positioned write to the output stream. */
  datatype WriteOp = WriteOp(position: int, data: seq<byte>)

  /** Indices below `n` whose bitmap entry is not positive, ascending. */
  function UnmarkedUpTo(bits: seq<byte>, n: nat): (r: seq<nat>)
    requires n <= |bits|
    ensures forall k :: 0 <= k < |r| ==> r[k] < n
  {
    if n == 0 then [] else UnmarkedUpTo(bits, n - 1) + (if bits[n - 1] > 0 then [] else [n - 1])
  }

  function Unmarked(bits: seq<byte>): seq<nat> {
    UnmarkedUpTo(bits, |bits|)
  }

  lemma {:induction false} UnmarkedUpToExact(bits: seq<byte>, n: nat)
    requires n <= |bits|
    ensures forall x: nat :: x in UnmarkedUpTo(bits, n) <==> x < n && bits[x] == 0
    ensures forall j, k :: 0 <= j < k < |UnmarkedUpTo(bits, n)| ==> UnmarkedUpTo(bits, n)[j] < UnmarkedUpTo(bits, n)[k]
  {
    if n > 0 {
      UnmarkedUpToExact(bits, n - 1);
    }
  }

  /** The gap list is exactly the indices whose bitmap entry is 0, ascending. */
  lemma UnmarkedExact(bits: seq<byte>)
    ensures forall x: nat :: x in Unmarked(bits) <==> x < |bits| && bits[x] == 0
    ensures forall j, k :: 0 <= j < k < |Unmarked(bits)| ==> Unmarked(bits)[j] < Unmarked(bits)[k]
  {
    UnmarkedUpToExact(bits, |bits|);
  }

  /** The bytes the marked slots below `n` stand for. */
  function MarkedBytesUpTo(bits: seq<byte>, n: nat, chunkSize: int, last: int): int
    requires n <= |bits|
  {
    if n == 0 then 0 else
      MarkedBytesUpTo(bits, n - 1, chunkSize, last) +
      (if bits[n - 1] > 0 then ChunkLength(|bits|, chunkSize, last, n - 1) else 0)
  }

  function MarkedBytes(bits: seq<byte>, chunkSize: int, last: int): int {
    MarkedBytesUpTo(bits, |bits|, chunkSize, last)
  }

  /** Marking slot `i` adds its chunk length once: marking it again adds nothing. */
  lemma {:induction false} MarkedBytesUpToMark(bits: seq<byte>, i: nat, n: nat, chunkSize: int, last: int)
    requires i < |bits| && n <= |bits|
    ensures MarkedBytesUpTo(bits[i := 1], n, chunkSize, last) ==
      MarkedBytesUpTo(bits, n, chunkSize, last) +
        (if i < n && bits[i] == 0 then ChunkLength(|bits|, chunkSize, last, i) else 0)
  {
    if n > 0 {
      MarkedBytesUpToMark(bits, i, n - 1, chunkSize, last);
    }
  }

  lemma {:induction false} MarkedBytesUpToNone(bits: seq<byte>, n: nat, chunkSize: int, last: int)
    requires n <= |bits|
    requires forall k :: 0 <= k < |bits| ==> bits[k] == 0
    ensures MarkedBytesUpTo(bits, n, chunkSize, last) == 0
  {
    if n > 0 {
      MarkedBytesUpToNone(bits, n - 1, chunkSize, last);
    }
  }

  /** What `flush` reports, as intended: every chunk has been written. */
  predicate AllMarked(bits: seq<byte>) {
    forall i :: 0 <= i < |bits| ==> bits[i] > 0
  }

  /** What `flush` reports as written: `some(c => !(c > 0))`, that a chunk is missing. */
  predicate SomeUnmarked(bits: seq<byte>) {
    exists i :: 0 <= i < |bits| && !(bits[i] > 0)
  }

  /** The intended report agrees with the gap list: true exactly when `check` finds no
      gap. */
  lemma AllMarkedIffNoGaps(bits: seq<byte>)
    ensures AllMarked(bits) <==> Unmarked(bits) == []
  {
    UnmarkedExact(bits);
    if !AllMarked(bits) {
      var i :| 0 <= i < |bits| && !(bits[i] > 0);
      assert i as nat in Unmarked(bits);
    }
    if Unmarked(bits) != [] {
      var x := Unmarked(bits)[0];
      assert x in Unmarked(bits);
      assert !(bits[x] > 0);
    }
  }

  /** The report as written is the negation of the intended one: a writer whose every
      chunk arrived reports false. */
  lemma SomeUnmarkedIsInverted(bits: seq<byte>)
    ensures SomeUnmarked(bits) <==> !AllMarked(bits)
    ensures !SomeUnmarked([1]) && AllMarked([1])
  {
  }

  class FileSystemAPIWriter {
    /** Whether an output stream is open. */
    var streamOpen: bool
    var info: Option<FileInfo>
    var cache: array<byte>
    var acc: int
    var chunkSize: int
    var lastChunkSize: int
    var writes: seq<WriteOp>

    function Expected(index: int): int
      reads this
    {
      ChunkLength(cache.Length, chunkSize, lastChunkSize, index)
    }

    /** The bitmap holds 0 or 1 and `acc` is the byte count of the marked chunks; with
        no stream open nothing is marked. */
    ghost predicate Valid()
      reads this, cache
    {
      (forall i :: 0 <= i < cache.Length ==> cache[i] <= 1) &&
      acc == MarkedBytes(cache[..], chunkSize, lastChunkSize) &&
      (!streamOpen ==> acc == 0 && forall i :: 0 <= i < cache.Length ==> cache[i] == 0)
    }

    constructor ()
      ensures Valid()
      ensures !streamOpen && info == None && cache.Length == 0 && acc == 0
      ensures chunkSize == 0 && lastChunkSize == 0 && writes == []
    {
      streamOpen := false;
      info := None;
      cache := new byte[0];
      acc := 0;
      chunkSize := 0;
      lastChunkSize := 0;
      writes := [];
    }

    /** `open(fileInfo, chunkSize)`: refused while a stream is open. Info, sizes, a zeroed
        bitmap and `acc` are set before the picker runs; a cancelled picker gives false
        and leaves the stream closed. */
    method Open(fileInfo: FileInfo, cs: int, picked: bool) returns (r: Result<bool>)
      requires Valid()
      modifies this
      ensures Valid()
      ensures writes == old(writes)
      ensures old(streamOpen) ==>
        r == Err("File already opened") && streamOpen && info == old(info) &&
        cache == old(cache) && acc == old(acc) && chunkSize == old(chunkSize) && lastChunkSize == old(lastChunkSize)
      ensures !old(streamOpen) ==>
        info == Some(fileInfo) && chunkSize == cs &&
        lastChunkSize == CalcChunkInfo(fileInfo.size, cs).last
      ensures !old(streamOpen) && CalcChunkInfo(fileInfo.size, cs).count < 0 ==>
        r == Err("Invalid typed array length") && !streamOpen && cache == old(cache) && acc == old(acc)
      ensures !old(streamOpen) && CalcChunkInfo(fileInfo.size, cs).count >= 0 ==>
        fresh(cache) && cache.Length == CalcChunkInfo(fileInfo.size, cs).count &&
        (forall i :: 0 <= i < cache.Length ==> cache[i] == 0) && acc == 0 &&
        r == Ok(picked) && streamOpen == picked
    {
      if streamOpen {
        return Err("File already opened");
      }
      info := Some(fileInfo);
      chunkSize := cs;
      var ci := CalcChunkInfo(fileInfo.size, cs);
      lastChunkSize := ci.last;
      if ci.count < 0 {
        MarkedBytesUpToNone(cache[..], cache.Length, chunkSize, lastChunkSize);
        return Err("Invalid typed array length");
      }
      ResetCache(ci.count);
      if !picked {
        return Ok(false);
      }
      streamOpen := true;
      r := Ok(true);
    }

    /** Replaces the cache by `n` zeroed slots and the byte total by 0. */
    method ResetCache(n: nat)
      modifies this
      ensures fresh(cache) && cache.Length == n && (forall i :: 0 <= i < n ==> cache[i] == 0)
      ensures acc == 0 && acc == MarkedBytes(cache[..], chunkSize, lastChunkSize)
      ensures streamOpen == old(streamOpen) && info == old(info) && writes == old(writes)
      ensures chunkSize == old(chunkSize) && lastChunkSize == old(lastChunkSize)
    {
      cache := new byte[n](_ => 0);
      MarkedBytesUpToNone(cache[..], cache.Length, chunkSize, lastChunkSize);
      acc := 0;
    }

    /** `write(chunk, index)`: refused with no stream, an index out of range or a wrong
        length; otherwise marks the slot, writes the chunk at `index * chunkSize` and
        returns the byte total, which grows only on a first write. */
    method Write(data: seq<byte>, index: int) returns (r: Result<int>)
      requires Valid()
      modifies this, cache
      ensures Valid()
      ensures cache == old(cache) && streamOpen == old(streamOpen) && info == old(info)
      ensures chunkSize == old(chunkSize) && lastChunkSize == old(lastChunkSize)
      ensures !old(streamOpen) ==> r == Err("File not opened") && unchanged(cache) && acc == old(acc) && writes == old(writes)
      ensures old(streamOpen) && !(0 <= index < cache.Length) ==>
        r == Err("Index out of range") && unchanged(cache) && acc == old(acc) && writes == old(writes)
      ensures old(streamOpen) && 0 <= index < cache.Length && |data| != old(Expected(index)) ==>
        r == Err("Chunk size mismatch") && unchanged(cache) && acc == old(acc) && writes == old(writes)
      ensures old(streamOpen) && 0 <= index < cache.Length && |data| == old(Expected(index)) ==>
        cache[..] == old(cache[..])[index := 1] &&
        writes == old(writes) + [WriteOp(index * chunkSize, data)] &&
        acc == old(acc) + (if old(cache[index]) > 0 then 0 else |data|) && r == Ok(acc)
    {
      if !streamOpen {
        return Err("File not opened");
      }
      if index < 0 || index >= cache.Length {
        return Err("Index out of range");
      }
      if |data| != Expected(index) {
        return Err("Chunk size mismatch");
      }
      var filled := cache[index] > 0;
      MarkedBytesUpToMark(cache[..], index, cache.Length, chunkSize, lastChunkSize);
      cache[index] := 1;
      writes := writes + [WriteOp(index * chunkSize, data)];
      if !filled {
        acc := acc + |data|;
      }
      r := Ok(acc);
    }

    /** `check()`: the indices whose bitmap entry is 0, ascending; refused with no
        stream. */
    method Check() returns (r: Result<seq<nat>>)
      ensures !streamOpen ==> r == Err("File not opened")
      ensures streamOpen ==> r == Ok(Unmarked(cache[..]))
    {
      if !streamOpen {
        return Err("File not opened");
      }
      var missing: seq<nat> := [];
      var i := 0;
      while i < cache.Length
        invariant 0 <= i <= cache.Length
        invariant missing == UnmarkedUpTo(cache[..], i)
      {
        if !(cache[i] > 0) {
          missing := missing + [i];
        }
        i := i + 1;
      }
      r := Ok(missing);
    }

    /** `flush()`: closes the stream and resets every field, reporting whether all
        chunks were written; refused with no stream. */
    method Flush() returns (r: Result<bool>)
      requires Valid()
      modifies this
      ensures Valid()
      ensures writes == old(writes)
      ensures !old(streamOpen) ==>
        r == Err("File not opened") && !streamOpen && info == old(info) &&
        cache == old(cache) && acc == old(acc) && chunkSize == old(chunkSize) && lastChunkSize == old(lastChunkSize)
      ensures old(streamOpen) ==>
        r == Ok(AllMarked(old(cache[..]))) &&
        !streamOpen && info == None && fresh(cache) && cache.Length == 0 && acc == 0 &&
        chunkSize == 0 && lastChunkSize == 0
    {
      if !streamOpen {
        return Err("File not opened");
      }
      var filled := true;
      var i := 0;
      while i < cache.Length
        invariant 0 <= i <= cache.Length
        invariant filled == (forall j :: 0 <= j < i ==> cache[j] > 0)
      {
        if !(cache[i] > 0) {
          filled := false;
        }
        i := i + 1;
      }
      streamOpen := false;
      info := None;
      cache := new byte[0];
      acc := 0;
      chunkSize := 0;
      lastChunkSize := 0;
      r := Ok(filled);
    }
  }
}
