/** The sending side of the transfer protocol, `FileSend` in
    webrtc-transfer/src/filetransfer.ts. Channel events arrive as method calls, the
    channel is the log `sent`, and the settlement of each `send()` promise is
    appended to `outcomes`. */
module FileSending {
  import opened Wrappers
  import opened Bytes
  import opened FileTransfer

  /** How a `send()` promise settles. */
  datatype Outcome = Resolved(accepted: bool) | Rejected(reason: string)

  const DEFAULT_LIMIT: int := 16 * 1024

  /** `limit || 16 * 1024`: an absent or zero limit selects the default. */
  function EffectiveLimit(limit: int): (r: int)
    ensures limit != 0 ==> r == limit
    ensures limit == 0 ==> r == DEFAULT_LIMIT
  {
    if limit == 0 then DEFAULT_LIMIT else limit
  }

  /** The chunk indices one sweep sends: every chunk, or the requested ones in order. */
  function SweepOrder(count: int, indices: Option<seq<int>>): (r: seq<int>)
    ensures indices.None? ==> |r| == Max(count, 0) && forall k :: 0 <= k < |r| ==> r[k] == k
    ensures indices.Some? ==> r == indices.value
  {
    match indices
    case None => seq(Max(count, 0), k => k)
    case Some(ix) => ix
  }

  /** The byte total a sweep reports: the file size for a full sweep, otherwise the
      requested chunks counted as full chunks, with the final chunk (when requested)
      counted at its real length. */
  function SweepTotal(size: nat, count: int, chunkSize: int, last: int, indices: Option<seq<int>>): int {
    match indices
    case None => size
    case Some(ix) =>
      if count - 1 !in ix then |ix| * chunkSize
      else (|ix| - 1) * chunkSize + ChunkLength(count, chunkSize, last, count - 1)
  }

  /** The total as written counts the final chunk as `last` bytes, which is 0 for a
      file that ends on a chunk boundary. */
  function SweepTotalAsWritten(size: nat, count: int, chunkSize: int, last: int, indices: Option<seq<int>>): int {
    match indices
    case None => size
    case Some(ix) =>
      if count - 1 !in ix then |ix| * chunkSize
      else (|ix| - 1) * chunkSize + last
  }

  /** The bytes a sweep over `order` reads. */
  function SweepBytes(file: seq<byte>, chunkSize: int, order: seq<int>): nat {
    if |order| == 0 then 0
    else SweepBytes(file, chunkSize, order[..|order| - 1]) + |ChunkOf(file, chunkSize, order[|order| - 1])|
  }

  /** The data frames of a sweep, in order. */
  function SweepFrames(file: seq<byte>, chunkSize: int, order: seq<int>): (r: seq<Payload>)
    ensures |r| == |order|
  {
    if |order| == 0 then [] else
      SweepFrames(file, chunkSize, order[..|order| - 1]) +
      [Binary(Encode(order[|order| - 1], ChunkOf(file, chunkSize, order[|order| - 1])))]
  }

  /** The progress reports of a sweep: after each chunk, the bytes sent so far. */
  function SweepProgress(file: seq<byte>, chunkSize: int, order: seq<int>, round: int, total: int): (r: seq<ProgressEvent>)
    ensures |r| == |order|
  {
    if |order| == 0 then [] else
      SweepProgress(file, chunkSize, order[..|order| - 1], round, total) +
      [ProgressEvent(Sending, round, SweepBytes(file, chunkSize, order), total)]
  }

  /** Frame `k` of a sweep is the data frame of chunk `order[k]`. */
  lemma {:induction false} SweepFramesAt(file: seq<byte>, chunkSize: int, order: seq<int>, k: nat)
    requires k < |order|
    ensures SweepFrames(file, chunkSize, order)[k] == Binary(Encode(order[k], ChunkOf(file, chunkSize, order[k])))
  {
    if k < |order| - 1 {
      var init := order[..|order| - 1];
      SweepFramesAt(file, chunkSize, init, k);
      assert init[k] == order[k];
    }
  }

  /** Report `k` of a sweep carries the bytes of its first `k + 1` chunks. */
  lemma {:induction false} SweepProgressAt(file: seq<byte>, chunkSize: int, order: seq<int>, round: int, total: int, k: nat)
    requires k < |order|
    ensures SweepProgress(file, chunkSize, order, round, total)[k] ==
      ProgressEvent(Sending, round, SweepBytes(file, chunkSize, order[..k + 1]), total)
  {
    if k < |order| - 1 {
      var init := order[..|order| - 1];
      SweepProgressAt(file, chunkSize, init, round, total, k);
      assert init[..k + 1] == order[..k + 1];
    } else {
      assert order[..k + 1] == order;
    }
  }

  predicate Distinct(s: seq<int>) {
    forall j, k :: 0 <= j < k < |s| ==> s[j] != s[k]
  }

  /** The byte count of a sweep over distinct valid indices: a full chunk each,
      except the final chunk of the file, which counts at its own length. */
  lemma SweepBytesOfValidIndices(file: seq<byte>, chunkSize: int, order: seq<int>)
    requires chunkSize > 0
    requires Distinct(order)
    requires forall k :: 0 <= k < |order| ==> 0 <= order[k] < CalcChunkInfo(|file|, chunkSize).count
    ensures var info := CalcChunkInfo(|file|, chunkSize);
      SweepBytes(file, chunkSize, order) ==
        if info.count - 1 !in order then |order| * chunkSize
        else (|order| - 1) * chunkSize + ChunkLength(info.count, chunkSize, info.last, info.count - 1)
  {
    var info := CalcChunkInfo(|file|, chunkSize);
    forall i | 0 <= i < info.count
      ensures |ChunkOf(file, chunkSize, i)| == ChunkLength(info.count, chunkSize, info.last, i)
    {
      ChunkOfHasChunkLength(file, chunkSize, i);
    }
    SweepBytesCount(file, chunkSize, info.count, info.last, order);
  }

  /** `SweepBytesOfValidIndices` for any chunk layout in which chunk `i` has length
      `ChunkLength(count, chunkSize, last, i)`. */
  lemma {:induction false} SweepBytesCount(file: seq<byte>, chunkSize: int, count: int, last: int, order: seq<int>)
    requires chunkSize > 0
    requires Distinct(order)
    requires forall k :: 0 <= k < |order| ==> 0 <= order[k] < count
    requires forall i :: 0 <= i < count ==> |ChunkOf(file, chunkSize, i)| == ChunkLength(count, chunkSize, last, i)
    ensures SweepBytes(file, chunkSize, order) ==
      if count - 1 !in order then |order| * chunkSize
      else (|order| - 1) * chunkSize + ChunkLength(count, chunkSize, last, count - 1)
  {
    if |order| > 0 {
      var n := |order| - 1;
      var init := order[..n];
      var i := order[n];
      DistinctSnoc(order, count - 1);
      SweepBytesCount(file, chunkSize, count, last, init);
      assert SweepBytes(file, chunkSize, order) == SweepBytes(file, chunkSize, init) + |ChunkOf(file, chunkSize, i)|;
      SweepStepArith(n, chunkSize, ChunkLength(count, chunkSize, last, count - 1), count - 1 in init, i == count - 1,
        SweepBytes(file, chunkSize, init), ChunkLength(count, chunkSize, last, i));
    }
  }

  /** The front of a sequence of distinct indices, and where `x` can be in it. */
  lemma DistinctSnoc(order: seq<int>, x: int)
    requires |order| > 0 && Distinct(order)
    ensures var init := order[..|order| - 1];
      Distinct(init) && (forall k :: 0 <= k < |init| ==> init[k] == order[k]) &&
      (x in order <==> x in init || order[|order| - 1] == x) &&
      (order[|order| - 1] == x ==> x !in init)
  {
    var init := order[..|order| - 1];
    assert order == init + [order[|order| - 1]];
  }

  lemma SweepStepArith(n: nat, cs: int, lc: int, inInit: bool, isLast: bool, sb: int, c: int)
    requires !(inInit && isLast)
    requires c == if isLast then lc else cs
    requires sb == if !inInit then n * cs else (n - 1) * cs + lc
    ensures sb + c == if !(inInit || isLast) then (n + 1) * cs else n * cs + lc
  {
    assert (n + 1) * cs == n * cs + cs;
    assert (n - 1) * cs + cs == n * cs;
  }

  /** A retransmission sweep over distinct valid indices reports as its total exactly
      the bytes it sends. */
  lemma SweepTotalIsBytesSent(file: seq<byte>, chunkSize: int, indices: seq<int>)
    requires chunkSize > 0
    requires Distinct(indices)
    requires forall k :: 0 <= k < |indices| ==> 0 <= indices[k] < CalcChunkInfo(|file|, chunkSize).count
    ensures var info := CalcChunkInfo(|file|, chunkSize);
      SweepTotal(|file|, info.count, chunkSize, info.last, Some(indices)) == SweepBytes(file, chunkSize, indices)
  {
    SweepBytesOfValidIndices(file, chunkSize, indices);
  }

  /** The total as written falls short by a full chunk: a 100-byte file in 50-byte
      chunks, chunk 1 requested again, reports a total of 0 for a 50-byte sweep. */
  lemma SweepTotalAsWrittenFallsShort()
    ensures var file := seq(100, _ => 0);
      SweepTotalAsWritten(100, 2, 50, 0, Some([1])) == 0 &&
      SweepBytes(file, 50, [1]) == 50 &&
      SweepTotal(100, 2, 50, 0, Some([1])) == 50
  {
    var file: seq<byte> := seq(100, _ => 0);
    assert [1][..0] == [];
    assert ChunkOf(file, 50, 1) == file[50..100];
  }

  /** The loop of `send0`: a data frame and a progress report per chunk of `order`. */
  method SweepLoop(file: seq<byte>, cs: int, order: seq<int>, r: int, total: int)
    returns (frames: seq<Payload>, reports: seq<ProgressEvent>)
    ensures frames == SweepFrames(file, cs, order)
    ensures reports == SweepProgress(file, cs, order, r, total)
  {
    frames := [];
    reports := [];
    var acc := 0;
    var k := 0;
    while k < |order|
      invariant 0 <= k <= |order|
      invariant acc == SweepBytes(file, cs, order[..k])
      invariant frames == SweepFrames(file, cs, order[..k])
      invariant reports == SweepProgress(file, cs, order[..k], r, total)
    {
      var i := order[k];
      var chunk := ChunkOf(file, cs, i);
      frames := frames + [Binary(Encode(i, chunk))];
      assert order[..k + 1][..k] == order[..k];
      acc := acc + |chunk|;
      reports := reports + [ProgressEvent(Sending, r, acc, total)];
      k := k + 1;
    }
    assert order[..k] == order;
  }

  /** `FileSend`: offers one file over a channel and answers the receiver's requests. */
  class FileSend {
    const uuid: string
    const file: seq<byte>
    const info: FileInfo
    const limit: int
    var count: int
    var chunkSize: int
    var lastChunkSize: int
    /** 0 idle, 1 handshaking, 2 sending, 3 finished, -1 failed. */
    var status: int
    var round: nat
    /** Whether a `send()` promise is waiting to settle. */
    var pending: bool
    var outcomes: seq<Outcome>
    var sent: seq<Payload>
    var progress: seq<ProgressEvent>

    /** The chunk size offered before any negotiation. */
    function InitialChunkSize(): int
      reads this
    {
      limit - HEADER
    }

    /** A promise is pending exactly while handshaking or sending; the chunk size only
        ever shrinks to a positive value; while sending, the layout matches it. */
    ghost predicate Valid()
      reads this
    {
      status in {-1, 0, 1, 2, 3} &&
      (pending <==> status == 1 || status == 2) &&
      info.size == |file| &&
      chunkSize <= InitialChunkSize() &&
      (chunkSize == InitialChunkSize() || chunkSize > 0) &&
      (status == 2 ==> CalcChunkInfo(info.size, chunkSize) == ChunkInfo(count, lastChunkSize))
    }

    constructor (file: seq<byte>, name: string, lastModified: int, relativePath: string,
                 mime: string, uuid: string, limit: int)
      ensures Valid()
      ensures this.file == file && this.uuid == uuid && this.limit == EffectiveLimit(limit)
      ensures info == FileInfo(name, lastModified, relativePath, |file|, mime)
      ensures count == 0 && chunkSize == EffectiveLimit(limit) - HEADER && lastChunkSize == 0
      ensures status == 0 && round == 0 && !pending
      ensures outcomes == [] && sent == [] && progress == []
    {
      this.file := file;
      this.uuid := uuid;
      this.limit := EffectiveLimit(limit);
      info := FileInfo(name, lastModified, relativePath, |file|, mime);
      count := 0;
      chunkSize := EffectiveLimit(limit) - HEADER;
      lastChunkSize := 0;
      status := 0;
      round := 0;
      pending := false;
      outcomes := [];
      sent := [];
      progress := [];
    }

    /** `send(progress)`: only an idle sender starts a handshake; otherwise the returned
        promise is rejected at once and nothing changes. */
    method Send() returns (started: bool)
      requires Valid()
      modifies this
      ensures Valid()
      ensures started == (old(status) == 0)
      ensures if started then
          status == 1 && pending &&
          sent == old(sent) + [Text(Some(SendMsg(uuid, info, chunkSize)))] &&
          progress == old(progress) + [ProgressEvent(Handshake, 0, 0, info.size)] &&
          count == old(count) && chunkSize == old(chunkSize) && lastChunkSize == old(lastChunkSize) &&
          round == old(round) && outcomes == old(outcomes)
        else
          status == old(status) && pending == old(pending) && sent == old(sent) &&
          progress == old(progress) && count == old(count) && chunkSize == old(chunkSize) &&
          lastChunkSize == old(lastChunkSize) && round == old(round) && outcomes == old(outcomes)
    {
      if status != 0 {
        return false;
      }
      status := 1;
      pending := true;
      sent := sent + [Text(Some(SendMsg(uuid, info, chunkSize)))];
      progress := progress + [ProgressEvent(Handshake, 0, 0, info.size)];
      started := true;
    }

    /** The promise fails: status -1 and the pending promise is rejected. */
    method Fail(reason: string)
      requires Valid() && pending
      modifies this
      ensures Valid()
      ensures status == -1 && !pending && outcomes == old(outcomes) + [Rejected(reason)]
      ensures count == old(count) && chunkSize == old(chunkSize) && lastChunkSize == old(lastChunkSize)
      ensures round == old(round) && sent == old(sent) && progress == old(progress)
    {
      status := -1;
      pending := false;
      outcomes := outcomes + [Rejected(reason)];
    }

    /** `recvHandshake(raw)`: the receiver's answer to the offer. */
    method RecvHandshake(json: Option<Message>)
      requires Valid() && status == 1
      modifies this
      ensures Valid()
      ensures match json
        case Some(RecvMsg(id, accept, proposed)) =>
          if id != uuid then status == -1 && outcomes == old(outcomes) + [Rejected("uuid mismatch")] &&
            sent == old(sent) && progress == old(progress) && round == old(round) && chunkSize == old(chunkSize)
          else if accept then
            chunkSize == (if proposed.Some? && 0 < proposed.value < old(chunkSize) then proposed.value else old(chunkSize)) &&
            ChunkInfo(count, lastChunkSize) == CalcChunkInfo(info.size, chunkSize) &&
            status == 2 && pending && round == old(round) + 1 && outcomes == old(outcomes) &&
            sent == old(sent) + SweepFrames(file, chunkSize, SweepOrder(count, None)) + [Text(Some(FinishMsg(uuid)))] &&
            progress == old(progress) + SweepProgress(file, chunkSize, SweepOrder(count, None), old(round), info.size)
          else
            status == 0 && !pending && outcomes == old(outcomes) + [Resolved(false)] &&
            progress == old(progress) + [ProgressEvent(Cancelled, 0, 0, info.size)] &&
            sent == old(sent) && round == old(round) && chunkSize == old(chunkSize)
        case Some(m) =>
          status == -1 && outcomes == old(outcomes) + [Rejected(if m.uuid != uuid then "uuid mismatch" else "invalid handshake type")] &&
          sent == old(sent) && progress == old(progress) && round == old(round) && chunkSize == old(chunkSize)
        case None =>
          status == -1 && outcomes == old(outcomes) + [Rejected("parse error")] &&
          sent == old(sent) && progress == old(progress) && round == old(round) && chunkSize == old(chunkSize)
    {
      if json.None? {
        Fail("parse error");
        return;
      }
      var m := json.value;
      if m.uuid != uuid {
        Fail("uuid mismatch");
        return;
      }
      if !m.RecvMsg? {
        Fail("invalid handshake type");
        return;
      }
      if m.accept {
        Accept(m.chunkSize);
      } else {
        status := 0;
        progress := progress + [ProgressEvent(Cancelled, 0, 0, info.size)];
        outcomes := outcomes + [Resolved(false)];
        pending := false;
      }
    }

    /** The receiver accepted: adopt a smaller positive chunk size it proposes, lay the
        file out again and send the first sweep over every chunk. */
    method Accept(proposed: Option<int>)
      requires Valid() && status == 1
      modifies this
      ensures Valid()
      ensures chunkSize == (if proposed.Some? && 0 < proposed.value < old(chunkSize) then proposed.value else old(chunkSize)) &&
        ChunkInfo(count, lastChunkSize) == CalcChunkInfo(info.size, chunkSize) &&
        status == 2 && pending == old(pending) && round == old(round) + 1 && outcomes == old(outcomes) &&
        sent == old(sent) + SweepFrames(file, chunkSize, SweepOrder(count, None)) + [Text(Some(FinishMsg(uuid)))] &&
        progress == old(progress) + SweepProgress(file, chunkSize, SweepOrder(count, None), old(round), info.size)
    {
      if proposed.Some? && 0 < proposed.value < chunkSize {
        chunkSize := proposed.value;
      }
      var ci := CalcChunkInfo(info.size, chunkSize);
      lastChunkSize := ci.last;
      count := ci.count;
      status := 2;
      var r := round;
      round := round + 1;
      Send0(r, None);
    }

    /** `recvMissingOrFinish(raw)`: while sending, "finish" completes the transfer and
        "missing" starts another sweep; anything else fails it. */
    method RecvMissingOrFinish(json: Option<Message>)
      requires Valid() && status == 2
      modifies this
      ensures Valid()
      ensures count == old(count) && chunkSize == old(chunkSize) && lastChunkSize == old(lastChunkSize)
      ensures match json
        case Some(FinishMsg(id)) =>
          if id != uuid then status == -1 && outcomes == old(outcomes) + [Rejected("uuid mismatch")] &&
            sent == old(sent) && progress == old(progress) && round == old(round)
          else
            status == 3 && !pending && outcomes == old(outcomes) + [Resolved(true)] &&
            progress == old(progress) + [ProgressEvent(Finished, 0, info.size, info.size)] &&
            sent == old(sent) && round == old(round)
        case Some(MissingMsg(id, indices)) =>
          if id != uuid then status == -1 && outcomes == old(outcomes) + [Rejected("uuid mismatch")] &&
            sent == old(sent) && progress == old(progress) && round == old(round)
          else
            status == 2 && pending && round == old(round) + 1 && outcomes == old(outcomes) &&
            sent == old(sent) + SweepFrames(file, chunkSize, SweepOrder(count, indices)) + [Text(Some(FinishMsg(uuid)))] &&
            progress == old(progress) + SweepProgress(file, chunkSize, SweepOrder(count, indices), old(round),
              SweepTotal(info.size, count, chunkSize, lastChunkSize, indices))
        case Some(m) =>
          status == -1 && outcomes == old(outcomes) + [Rejected(if m.uuid != uuid then "uuid mismatch" else "invalid protocol type")] &&
          sent == old(sent) && progress == old(progress) && round == old(round)
        case None =>
          status == -1 && outcomes == old(outcomes) + [Rejected("parse error")] &&
          sent == old(sent) && progress == old(progress) && round == old(round)
    {
      if json.None? {
        Fail("parse error");
        return;
      }
      var m := json.value;
      if m.uuid != uuid {
        Fail("uuid mismatch");
        return;
      }
      if m.FinishMsg? {
        status := 3;
        progress := progress + [ProgressEvent(Finished, 0, info.size, info.size)];
        outcomes := outcomes + [Resolved(true)];
        pending := false;
      } else if m.MissingMsg? {
        var r := round;
        round := round + 1;
        Send0(r, m.indices);
      } else {
        Fail("invalid protocol type");
      }
    }

    /** `send0(round, indices)`: one sweep, the data frames of the chosen chunks in order
        with a progress report after each, then a "finish" message. */
    method Send0(r: int, indices: Option<seq<int>>)
      modifies this
      ensures sent == old(sent) + SweepFrames(file, chunkSize, SweepOrder(count, indices)) + [Text(Some(FinishMsg(uuid)))]
      ensures progress == old(progress) + SweepProgress(file, chunkSize, SweepOrder(count, indices), r,
        SweepTotal(info.size, count, chunkSize, lastChunkSize, indices))
      ensures status == old(status) && pending == old(pending) && round == old(round) && outcomes == old(outcomes)
      ensures count == old(count) && chunkSize == old(chunkSize) && lastChunkSize == old(lastChunkSize)
    {
      var total := SweepTotal(info.size, count, chunkSize, lastChunkSize, indices);
      var frames, reports := SweepLoop(file, chunkSize, SweepOrder(count, indices), r, total);
      sent := sent + frames + [Text(Some(FinishMsg(uuid)))];
      progress := progress + reports;
    }

    /** `onMessage(e)`: text frames drive the handshake (status 1) and the sweeps
        (status 2); everything else is ignored. */
    method OnMessage(p: Payload)
      requires Valid()
      modifies this
      ensures Valid()
      ensures !(p.Text? && old(status) in {1, 2}) ==>
        status == old(status) && pending == old(pending) && round == old(round) &&
        outcomes == old(outcomes) && sent == old(sent) && progress == old(progress) &&
        count == old(count) && chunkSize == old(chunkSize) && lastChunkSize == old(lastChunkSize)
      ensures p.Text? && old(status) == 1 ==> status in {-1, 0, 2}
      ensures p.Text? && old(status) == 2 ==> status in {-1, 2, 3}
    {
      if p.Text? {
        if status == 1 {
          RecvHandshake(p.json);
        } else if status == 2 {
          RecvMissingOrFinish(p.json);
        }
      }
    }
  }
}
