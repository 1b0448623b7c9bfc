/** The chunk reader and the chunk writer of webrtc-transfer/src/fileoperate.ts. Both
    share the chunk layout of the transfer protocol (`calcChunkInfo` there is the same
    function as in filetransfer.ts). */
module FileOperate {
  import opened Wrappers
  import opened Bytes
  import opened FileTransfer

  /** `BasicFileReader`: reads chunk `i` of an open file as a byte range. A chunk size
      below 0 means "unset" and every size is then -1. */
  class BasicFileReader {
    var info: Option<FileInfo>
    var file: Option<seq<byte>>
    var chunkSize: int
    var lastChunkSize: int
    var chunkCount: int

    /** An open file's metadata describes it, and once a chunk size is set the layout
        belongs to it. */
    ghost predicate Valid()
      reads this
    {
      (file.Some? <==> info.Some?) &&
      (file.Some? ==>
          info.value.size == |file.value| &&
          (chunkSize >= 0 ==> CalcChunkInfo(|file.value|, chunkSize) == ChunkInfo(chunkCount, lastChunkSize)) &&
          (chunkSize < 0 ==> chunkSize == -1 || CalcChunkInfo(|file.value|, chunkSize) == ChunkInfo(chunkCount, lastChunkSize)))
    }

    constructor ()
      ensures Valid()
      ensures info == None && file == None && chunkSize == -1 && lastChunkSize == -1 && chunkCount == -1
    {
      info := None;
      file := None;
      chunkSize := -1;
      lastChunkSize := -1;
      chunkCount := -1;
    }

    /** The `chunkSize` setter: the layout is recomputed only while a file is open. */
    method SetChunkSize(value: int)
      requires Valid()
      modifies this
      ensures Valid()
      ensures chunkSize == value && info == old(info) && file == old(file)
      ensures old(info).Some? ==> ChunkInfo(chunkCount, lastChunkSize) == CalcChunkInfo(old(info).value.size, value)
      ensures old(info).None? ==> chunkCount == old(chunkCount) && lastChunkSize == old(lastChunkSize)
    {
      chunkSize := value;
      if info.Some? {
        var ci := CalcChunkInfo(info.value.size, chunkSize);
        chunkCount := ci.count;
        lastChunkSize := ci.last;
      }
    }

    /** `open(file)`: refused while a file is open; otherwise the layout follows the
        chunk size already set, or is reset to -1 when none is. */
    method Open(meta: FileInfo, bytes: seq<byte>) returns (r: Result<FileInfo>)
      requires Valid()
      requires meta.size == |bytes|
      modifies this
      ensures Valid()
      ensures old(file).Some? ==>
          r == Err("file already opened") &&
          info == old(info) && file == old(file) && chunkSize == old(chunkSize) &&
          chunkCount == old(chunkCount) && lastChunkSize == old(lastChunkSize)
      ensures old(file).None? ==> r == Ok(meta) && info == Some(meta) && file == Some(bytes)
      ensures old(file).None? && old(chunkSize) < 0 ==>
        chunkSize == -1 && chunkCount == -1 && lastChunkSize == -1
      ensures old(file).None? && old(chunkSize) >= 0 ==>
          chunkSize == old(chunkSize) &&
          ChunkInfo(chunkCount, lastChunkSize) == CalcChunkInfo(|bytes|, chunkSize)
    {
      if file.Some? {
        return Err("file already opened");
      }
      file := Some(bytes);
      info := Some(meta);
      if chunkSize < 0 {
        chunkSize := -1;
        lastChunkSize := -1;
        chunkCount := -1;
      } else {
        var ci := CalcChunkInfo(meta.size, chunkSize);
        chunkCount := ci.count;
        lastChunkSize := ci.last;
      }
      r := Ok(meta);
    }

    /** The byte range `read(index)` covers: from `index * chunkSize`, one chunk long,
        and the final chunk as long as the remainder (full when there is none). */
    function ReadEnd(index: int): int
      reads this
    {
      index * chunkSize + ChunkLength(chunkCount, chunkSize, lastChunkSize, index)
    }

    /** `read(index)`. */
    method Read(index: int) returns (r: Result<seq<byte>>)
      requires Valid()
      ensures file.None? ==> r == Err("file not opened")
      ensures file.Some? && chunkSize < 0 ==> r == Ok([])
      ensures file.Some? && chunkSize >= 0 && !(0 <= index < chunkCount) ==> r == Err("index out of range")
      ensures file.Some? && chunkSize >= 0 && 0 <= index < chunkCount ==>
        r == Ok(BlobSlice(file.value, index * chunkSize, ReadEnd(index)))
      ensures file.Some? && chunkSize > 0 && 0 <= index < chunkCount ==>
        r == Ok(ChunkOf(file.value, chunkSize, index))
    {
      if file.None? {
        return Err("file not opened");
      }
      if chunkSize < 0 {
        return Ok([]);
      }
      if index < 0 || index >= chunkCount {
        return Err("index out of range");
      }
      var start := index * chunkSize;
      var end := ReadEnd(index);
      r := Ok(BlobSlice(file.value, start, end));
      if chunkSize > 0 {
        ReadRangeIsChunk(file.value, chunkSize, index);
      }
    }

    /** `close()`: forgets the file and resets every size to -1. */
    method Close()
      modifies this
      ensures Valid()
      ensures info == None && file == None && chunkSize == -1 && lastChunkSize == -1 && chunkCount == -1
    {
      info := None;
      file := None;
      chunkSize := -1;
      lastChunkSize := -1;
      chunkCount := -1;
    }
  }

  /** The reader's range for chunk `i` is the very chunk the sender reads. */
  lemma ReadRangeIsChunk(file: seq<byte>, chunkSize: int, i: int)
    requires chunkSize > 0
    requires 0 <= i < CalcChunkInfo(|file|, chunkSize).count
    ensures var ci := CalcChunkInfo(|file|, chunkSize);
      BlobSlice(file, i * chunkSize, i * chunkSize + ChunkLength(ci.count, chunkSize, ci.last, i)) ==
        ChunkOf(file, chunkSize, i)
  {
    var ci := CalcChunkInfo(|file|, chunkSize);
    ChunkBounds(file, chunkSize, i);
    ChunkOfHasChunkLength(file, chunkSize, i);
  }

  /** The range as written ends at `start + lastChunkSize` for the final chunk: for a
      100-byte file in 50-byte chunks, chunk 1 reads as empty. */
  lemma ReadRangeAsWrittenIsEmpty()
    ensures var file := seq(100, _ => 0);
      var ci := CalcChunkInfo(100, 50);
      ci == ChunkInfo(2, 0) &&
      BlobSlice(file, 50, 50 + ci.last) == [] &&
      BlobSlice(file, 50, 50 + ChunkLength(ci.count, 50, ci.last, 1)) == file[50..]
  {
  }

  /** A download of the blob `close` builds. */
  datatype Saved = Saved(info: FileInfo, content: seq<byte>)

  /** `BasicFileWriter` of fileoperate.ts: an in-memory sink that reports the running
      byte total and hands the file to the download callback on close. */
  class BasicFileWriter {
    var info: Option<FileInfo>
    var cache: seq<Option<seq<byte>>>
    var acc: nat
    var chunkSize: int
    var lastChunkSize: int
    var downloads: seq<Saved>

    function Expected(index: int): int
      reads this
    {
      ChunkLength(|cache|, chunkSize, lastChunkSize, index)
    }

    /** `acc` is the number of bytes held, and every held chunk has its slot's length;
        a closed writer holds nothing. */
    ghost predicate Valid()
      reads this
    {
      acc == FilledBytes(cache) &&
      (info.None? ==> cache == [] && acc == 0) &&
      (forall i :: 0 <= i < |cache| && cache[i].Some? ==> |cache[i].value| == Expected(i))
    }

    constructor ()
      ensures Valid()
      ensures info == None && cache == [] && acc == 0 && chunkSize == 0 && lastChunkSize == 0 && downloads == []
    {
      info := None;
      cache := [];
      acc := 0;
      chunkSize := 0;
      lastChunkSize := 0;
      downloads := [];
    }

    /** `open(fileInfo, chunkSize)`: refused while open; otherwise an empty cache laid out
        for the file. A negative chunk count makes `new Array` throw after info and sizes
        are stored. */
    method Open(fileInfo: FileInfo, cs: int) returns (r: Result<bool>)
      requires Valid()
      modifies this
      ensures Valid()
      ensures downloads == old(downloads)
      ensures old(info).Some? ==>
          r == Err("file already opened") && info == old(info) &&
          cache == old(cache) && acc == old(acc) && chunkSize == old(chunkSize) && lastChunkSize == old(lastChunkSize)
      ensures old(info).None? ==>
          info == Some(fileInfo) && chunkSize == cs &&
          lastChunkSize == CalcChunkInfo(fileInfo.size, cs).last
      ensures old(info).None? && CalcChunkInfo(fileInfo.size, cs).count < 0 ==>
        r == Err("Invalid array length") && cache == [] && acc == 0
      ensures old(info).None? && CalcChunkInfo(fileInfo.size, cs).count >= 0 ==>
        r == Ok(true) && cache == seq(CalcChunkInfo(fileInfo.size, cs).count, _ => None) && acc == 0
    {
      if info.Some? {
        return Err("file already opened");
      }
      info := Some(fileInfo);
      chunkSize := cs;
      var ci := CalcChunkInfo(fileInfo.size, cs);
      lastChunkSize := ci.last;
      if ci.count < 0 {
        return Err("Invalid array length");
      }
      cache := seq(ci.count, _ => None);
      FilledBytesEmpty(ci.count);
      acc := 0;
      r := Ok(true);
    }

    /** `write(chunk, index)`: stores one chunk and returns the new byte total, which
        grows only when the slot was empty. */
    method Write(data: seq<byte>, index: int) returns (r: Result<nat>)
      requires Valid()
      modifies this
      ensures Valid()
      ensures info == old(info) && chunkSize == old(chunkSize) && lastChunkSize == old(lastChunkSize)
      ensures downloads == old(downloads)
      ensures old(info).None? ==> r == Err("file not opened") && cache == old(cache) && acc == old(acc)
      ensures old(info).Some? && !(0 <= index < |old(cache)|) ==>
        r == Err("index out of range") && cache == old(cache) && acc == old(acc)
      ensures old(info).Some? && 0 <= index < |old(cache)| && |data| != old(Expected(index)) ==>
        r == Err(if index == |old(cache)| - 1 then "last chunk size mismatch" else "chunk size mismatch") &&
        cache == old(cache) && acc == old(acc)
      ensures old(info).Some? && 0 <= index < |old(cache)| && |data| == old(Expected(index)) ==>
        cache == old(cache)[index := Some(data)] &&
        acc == old(acc) + (if old(cache)[index].Some? then 0 else |data|) && r == Ok(acc)
    {
      if info.None? {
        return Err("file not opened");
      }
      if index < 0 || index >= |cache| {
        return Err("index out of range");
      }
      if |data| != Expected(index) {
        return Err(if index == |cache| - 1 then "last chunk size mismatch" else "chunk size mismatch");
      }
      var filled := cache[index].Some?;
      FilledBytesUpdate(cache, index, data);
      cache := cache[index := Some(data)];
      if !filled {
        acc := acc + |data|;
      }
      r := Ok(acc);
    }

    /** `check()`: the missing indices, ascending; refused when not open. */
    method Check() returns (r: Result<seq<nat>>)
      ensures info.None? ==> r == Err("file not opened")
      ensures info.Some? ==> r == Ok(Gaps(cache))
    {
      if info.None? {
        return Err("file not opened");
      }
      var missing: seq<nat> := [];
      var i := 0;
      while i < |cache|
        invariant 0 <= i <= |cache|
        invariant missing == GapsUpTo(cache, i)
      {
        if cache[i].None? {
          missing := missing + [i];
        }
        i := i + 1;
      }
      r := Ok(missing);
    }

    /** `close()` as written: `open` allocates the cache as a sparse array, and `every`
        skips its holes, so an open file always closes with `true`. Whatever is held
        goes to the download callback (holes spelled "undefined") and the sizes reset;
        refused when not open. */
    method CloseAsWritten() returns (r: Result<bool>)
      requires Valid()
      modifies this
      ensures Valid()
      ensures old(info).None? ==>
          r == Err("file not opened") && cache == old(cache) &&
          acc == old(acc) && chunkSize == old(chunkSize) && lastChunkSize == old(lastChunkSize) &&
          downloads == old(downloads) && info == None
      ensures old(info).Some? ==>
        r == Ok(true) &&
        info == None && cache == [] && acc == 0 && chunkSize == 0 && lastChunkSize == 0 &&
        downloads == old(downloads) + [Saved(old(info).value, ConcatWithHoles(old(cache)))]
    {
      if info.None? {
        return Err("file not opened");
      }
      downloads := downloads + [Saved(info.value, ConcatWithHoles(cache))];
      info := None;
      cache := [];
      acc := 0;
      chunkSize := 0;
      lastChunkSize := 0;
      r := Ok(true);
    }

    /** `close()` as intended: reports whether every chunk arrived, hands whatever is
        held to the download callback (holes included) and resets; refused when not
        open. */
    method Close() returns (r: Result<bool>)
      requires Valid()
      modifies this
      ensures Valid()
      ensures old(info).None? ==>
          r == Err("file not opened") && cache == old(cache) &&
          acc == old(acc) && chunkSize == old(chunkSize) && lastChunkSize == old(lastChunkSize) &&
          downloads == old(downloads) && info == None
      ensures old(info).Some? ==>
        r == Ok(forall i :: 0 <= i < |old(cache)| ==> old(cache)[i].Some?) &&
        info == None && cache == [] && acc == 0 && chunkSize == 0 && lastChunkSize == 0 &&
        downloads == old(downloads) + [Saved(old(info).value, ConcatWithHoles(old(cache)))]
    {
      if info.None? {
        return Err("file not opened");
      }
      var filled := true;
      var i := 0;
      while i < |cache|
        invariant 0 <= i <= |cache|
        invariant filled == (forall j :: 0 <= j < i ==> cache[j].Some?)
      {
        if cache[i].None? {
          filled := false;
        }
        i := i + 1;
      }
      downloads := downloads + [Saved(info.value, ConcatWithHoles(cache))];
      info := None;
      cache := [];
      acc := 0;
      chunkSize := 0;
      lastChunkSize := 0;
      r := Ok(filled);
    }
  }
}
