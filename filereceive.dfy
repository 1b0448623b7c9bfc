/** The receiving side of the transfer protocol, `FileReceiveService` in
    webrtc-transfer/src/filetransfer.ts. The save callback's answer arrives as a call
    of `SaveDecided` (or `SaveFailed` when its promise rejects); the sink it returns is
    a `BasicFileWriter`. */
module FileReceiving {
  import opened Wrappers
  import opened Bytes
  import opened FileTransfer

  const DEFAULT_LIMIT: int := 16 * 1024

  /** The chunk size the receiver accepts: its own limit less the frame header, or the
      sender's offer when that is smaller. */
  function AcceptedChunkSize(limit: int, offer: int): (r: int)
    ensures r <= limit - HEADER && r <= offer
    ensures r == limit - HEADER || r == offer
  {
    Min(limit - HEADER, offer)
  }

  class FileReceiveService {
    const limit: int
    /** 0 idle, 1 waiting for the save callback, 2 receiving, -1 failed. */
    var status: int
    var uuid: Option<string>
    var info: Option<FileInfo>
    var writer: BasicFileWriter?
    var round: nat
    var acc: int
    /** The offer a pending save callback was asked about. */
    var offer: Option<Message>
    var sent: seq<Payload>
    var progress: seq<ProgressEvent>

    /** While receiving, the sink is open for the offered file and `acc` counts exactly
        the bytes it holds; an offer is pending exactly in status 1. */
    ghost predicate Valid()
      reads this, writer
    {
      status in {-1, 0, 1, 2} &&
      (status == 1 <==> offer.Some?) &&
      (offer.Some? ==> offer.value.SendMsg?) &&
      (status == 2 ==>
        writer != null && info.Some? && uuid.Some? &&
        writer.info == info && writer.Valid() &&
        acc == FilledBytes(writer.cache))
    }

    constructor (limit: int)
      ensures Valid()
      ensures this.limit == (if limit == 0 then DEFAULT_LIMIT else limit)
      ensures status == 0 && uuid == None && info == None && writer == null
      ensures round == 0 && acc == 0 && offer == None && sent == [] && progress == []
    {
      this.limit := if limit == 0 then DEFAULT_LIMIT else limit;
      status := 0;
      uuid := None;
      info := None;
      writer := null;
      round := 0;
      acc := 0;
      offer := None;
      sent := [];
      progress := [];
    }

    /** `recvHandshake(raw)`: a "send" offer goes to the save callback; anything else
        leaves the service idle. */
    method RecvHandshake(json: Option<Message>)
      requires Valid() && status == 0
      modifies this
      ensures Valid()
      ensures if json.Some? && json.value.SendMsg? then status == 1 && offer == json
        else status == 0 && offer == None
      ensures uuid == old(uuid) && info == old(info) && writer == old(writer) && round == old(round)
      ensures acc == old(acc) && sent == old(sent) && progress == old(progress)
    {
      if json.Some? && json.value.SendMsg? {
        status := 1;
        offer := json;
      } else {
        status := 0;
      }
    }

    /** `checkSave`, after the save callback answered: with a sink the service opens it
        for the accepted chunk size and acknowledges; without one it declines and is
        idle again. A sink that fails to open leaves the service failed. */
    method SaveDecided(sink: BasicFileWriter?)
      requires Valid() && status == 1
      modifies this, sink
      ensures Valid()
      ensures offer == None
      ensures var m := old(offer).value;
        if sink == null then
          status == 0 && sent == old(sent) + [Text(Some(RecvMsg(m.uuid, false, None)))] &&
          uuid == old(uuid) && info == old(info) && writer == old(writer) &&
          round == old(round) && acc == old(acc) && progress == old(progress)
        else
          var cs := AcceptedChunkSize(limit, m.offer);
          uuid == Some(m.uuid) && info == Some(m.info) && writer == sink &&
          round == 0 && acc == 0 && progress == old(progress) &&
          sink.chunk == cs && sink.info == Some(m.info) && sink.downloads == old(sink.downloads) &&
          (CalcChunkInfo(m.info.size, cs).count < 0 ==> status == -1 && sent == old(sent)) &&
          (CalcChunkInfo(m.info.size, cs).count >= 0 ==>
            status == 2 && sink.cache == seq(CalcChunkInfo(m.info.size, cs).count, _ => None) &&
            sent == old(sent) + [Text(Some(RecvMsg(m.uuid, true, Some(cs))))])
    {
      var m := offer.value;
      offer := None;
      if sink == null {
        sent := sent + [Text(Some(RecvMsg(m.uuid, false, None)))];
        status := 0;
        return;
      }
      uuid := Some(m.uuid);
      info := Some(m.info);
      writer := sink;
      round := 0;
      acc := 0;
      var cs := AcceptedChunkSize(limit, m.offer);
      var r := sink.Open(m.info, cs);
      if r.Err? {
        status := -1;
        return;
      }
      FilledBytesEmpty(|sink.cache|);
      sent := sent + [Text(Some(RecvMsg(m.uuid, true, Some(cs))))];
      status := 2;
    }

    /** The save callback's promise rejected: the service is failed. */
    method SaveFailed()
      requires Valid() && status == 1
      modifies this
      ensures Valid()
      ensures status == -1 && offer == None
      ensures uuid == old(uuid) && info == old(info) && writer == old(writer) && round == old(round)
      ensures acc == old(acc) && sent == old(sent) && progress == old(progress)
    {
      status := -1;
      offer := None;
    }

    /** What `RecvData(b)` does to the service and its sink `w`: a frame that decodes and
        fits its slot is stored, `acc` grows by the bytes new to the sink, and new bytes
        are reported as progress; anything else changes nothing. */
    twostate predicate DataReceived(w: BasicFileWriter, b: seq<byte>)
      reads this, w
    {
      old(writer) == w && writer == w && status == 2 && round == old(round) && sent == old(sent) &&
      uuid == old(uuid) && info == old(info) && info.Some? && offer == old(offer) &&
      w.info == old(w.info) && w.chunk == old(w.chunk) && w.last == old(w.last) &&
      w.downloads == old(w.downloads) &&
      (Decode(b).Err? ==> acc == old(acc) && progress == old(progress) && w.cache == old(w.cache)) &&
      (Decode(b).Ok? ==>
        var f := Decode(b).value;
        var stored := 0 <= f.index < |old(w.cache)| && |f.data| == old(w.Expected(f.index));
        (stored ==> w.cache == old(w.cache)[f.index := Some(f.data)]) &&
        (!stored ==> w.cache == old(w.cache)) &&
        var n := if stored && old(w.cache)[f.index].None? then |f.data| else 0;
        acc == old(acc) + n &&
        progress == old(progress) + (if n > 0 then [ProgressEvent(Receiving, round, acc, info.value.size)] else []))
    }

    /** `recvData(raw)` and `writeData`: a frame that decodes is handed to the sink;
        the bytes the sink reports are added to `acc`, and a report with new bytes
        reaches the progress callback. Frames that do not decode and writes the sink
        rejects change nothing. */
    method RecvData(b: seq<byte>)
      requires Valid() && status == 2
      modifies this, writer
      ensures Valid()
      ensures DataReceived(old(writer), b)
    {
      var d := Decode(b);
      if d.Err? {
        return;
      }
      var r := writer.Write(d.value.data, d.value.index);
      if r.Err? {
        return;
      }
      var n := r.value;
      acc := acc + n;
      if n > 0 {
        progress := progress + [ProgressEvent(Receiving, round, acc, info.value.size)];
      }
    }

    /** What `RecvFinish(json)` does to the service and its sink `w`: anything but
        "finish" changes nothing; with gaps the service asks for them and starts a new
        round; without, the sink downloads the file, "finish" is echoed and the service
        is idle. */
    twostate predicate FinishReceived(w: BasicFileWriter, json: Option<Message>)
      reads this, w
    {
      old(writer) == w && old(uuid).Some? && old(info).Some? && offer == old(offer) &&
      (!(json.Some? && json.value.FinishMsg?) ==>
        status == old(status) && round == old(round) && acc == old(acc) && sent == old(sent) &&
        progress == old(progress) && writer == w && info == old(info) && uuid == old(uuid) &&
        w.cache == old(w.cache) && w.downloads == old(w.downloads)) &&
      (json.Some? && json.value.FinishMsg? && |Gaps(old(w.cache))| > 0 ==>
        status == 2 && round == old(round) + 1 && acc == old(acc) && writer == w &&
        info == old(info) && uuid == old(uuid) && progress == old(progress) &&
        w.cache == old(w.cache) && w.downloads == old(w.downloads) &&
        sent == old(sent) + [Text(Some(MissingMsg(old(uuid).value, Some(Gaps(old(w.cache))))))]) &&
      (json.Some? && json.value.FinishMsg? && |Gaps(old(w.cache))| == 0 ==>
        status == 0 && round == 0 && acc == 0 && writer == null && info == None && uuid == old(uuid) &&
        w.downloads == old(w.downloads) + [Download(old(info), Concat(old(w.cache)))] &&
        sent == old(sent) + [Text(Some(FinishMsg(old(uuid).value)))] &&
        progress == old(progress) + [ProgressEvent(Finished, old(round), old(info).value.size, old(info).value.size)])
    }

    /** `recvFinish(raw)` and `checkMissing`: on "finish" (whatever its uuid), a sink with
        gaps makes the service ask for them and start a new round; a full sink is
        flushed, "finish" is echoed and the service is idle again. */
    method RecvFinish(json: Option<Message>)
      requires Valid() && status == 2
      modifies this, writer
      ensures Valid()
      ensures FinishReceived(old(writer), json)
    {
      if !(json.Some? && json.value.FinishMsg?) {
        return;
      }
      var missing := writer.Check();
      if |missing| > 0 {
        sent := sent + [Text(Some(MissingMsg(uuid.value, Some(missing))))];
        round := round + 1;
        return;
      }
      FinishComplete();
    }

    /** The end of `checkMissing` when no chunk is missing: flush the sink, echo
        "finish", report completion and go idle. */
    method FinishComplete()
      requires Valid() && status == 2 && |Gaps(writer.cache)| == 0
      modifies this, writer
      ensures Valid()
      ensures offer == old(offer)
      ensures status == 0 && round == 0 && acc == 0 && writer == null && info == None && uuid == old(uuid) &&
        old(writer).downloads == old(writer.downloads) + [Download(old(info), Concat(old(writer.cache)))] &&
        sent == old(sent) + [Text(Some(FinishMsg(old(uuid).value)))] &&
        progress == old(progress) + [ProgressEvent(Finished, old(round), old(info).value.size, old(info).value.size)]
    {
      var w := writer;
      assert forall i :: 0 <= i < |w.cache| ==> w.cache[i].Some? by { GapsExact(w.cache); }
      var r := w.Flush();
      GoIdle();
    }

    /** Echoes "finish", reports completion and drops the writer. */
    method GoIdle()
      requires status == 2 && offer == None && uuid.Some? && info.Some?
      modifies this
      ensures Valid()
      ensures offer == old(offer)
      ensures status == 0 && round == 0 && acc == 0 && writer == null && info == None && uuid == old(uuid) &&
        sent == old(sent) + [Text(Some(FinishMsg(old(uuid).value)))] &&
        progress == old(progress) + [ProgressEvent(Finished, old(round), old(info).value.size, old(info).value.size)]
    {
      sent := sent + [Text(Some(FinishMsg(uuid.value)))];
      progress := progress + [ProgressEvent(Finished, round, info.value.size, info.value.size)];
      status := 0;
      info := None;
      writer := null;
      round := 0;
      acc := 0;
    }

    /** `onMessage(e)`: text starts a handshake when idle; while receiving, binary frames
        are data and text frames are "finish". In status 1 or -1 every frame is ignored,
        as is a binary frame while idle. */
    method OnMessage(p: Payload)
      requires Valid()
      requires status == 2 ==> writer != null
      modifies this, writer
      ensures Valid()
      ensures old(status) in {1, -1} || (old(status) == 0 && p.Binary?) ==>
        status == old(status) && round == old(round) && acc == old(acc) && sent == old(sent) &&
        progress == old(progress) && writer == old(writer) && info == old(info) &&
        uuid == old(uuid) && offer == old(offer)
      ensures old(status) == 0 && p.Text? ==>
        (if p.json.Some? && p.json.value.SendMsg? then status == 1 && offer == p.json
         else status == 0 && offer == None) &&
        uuid == old(uuid) && info == old(info) && writer == old(writer) && round == old(round) &&
        acc == old(acc) && sent == old(sent) && progress == old(progress)
      ensures old(status) == 2 && p.Binary? ==> DataReceived(old(writer), p.bytes)
      ensures old(status) == 2 && p.Text? ==> FinishReceived(old(writer), p.json)
    {
      if status == 0 {
        if p.Text? {
          RecvHandshake(p.json);
        }
      } else if status == 2 {
        if p.Binary? {
          RecvData(p.bytes);
        } else {
          RecvFinish(p.json);
        }
      }
    }
  }
}
