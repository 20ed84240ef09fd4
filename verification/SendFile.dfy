/** The client's half of a whole-file transfer. */
module SendFile {
  import opened Basics
  import opened Frames
  import opened Reader
  import opened Target

  /** Data frames, none of which ends the transfer. */
  ghost predicate ChunksOnly(frames: seq<Frame>) {
    forall i :: 0 <= i < |frames| ==> frames[i].Chk? && !frames[i].Ends()
  }

  /** The frames a complete read of `source` puts on the link after the request. */
  ghost predicate IsFileOf(frames: seq<Frame>, source: Bytes, mtime: int) {
    var n := |frames| - 1;
    && n >= 0 && frames[n] == Chk(CommitFile(mtime))
    && ChunksOnly(frames[..n]) && DataOf(frames[..n]) == source
  }

  /** A read that was cut short, by its sender or by the link. */
  ghost predicate IsFileCutShort(frames: seq<Frame>) {
    ChunksOnly(frames) || (frames != [] && frames[|frames| - 1] == Chk(AbortFile) && ChunksOnly(frames[..|frames| - 1]))
  }

  lemma FileEnds(frames: seq<Frame>, source: Bytes, mtime: int)
    requires IsFileOf(frames, source, mtime)
    ensures IsWholeStream(frames, false)
  {
    hide DataOf;
    assert forall i :: 0 <= i < |frames| - 1 ==> frames[i] == frames[..|frames| - 1][i];
  }

  /** Reads and sends the file a chunk at a time. */
  method StreamFile(link: Link, reader: Reader) returns (read: Outcome, up: bool)
    requires reader.Valid() && reader.at == 0
    modifies link, reader
    ensures old(link.sent) <= link.sent && ChunksOnly(link.sent[|old(link.sent)|..])
    ensures link.dropped == (old(link.dropped) || !up)
    ensures reader.failed == (old(reader.failed) || read.Fail?) && (read.Fail? ==> up)
    ensures read.Pass? && up ==> DataOf(link.sent[|old(link.sent)|..]) == reader.content
  {
    hide DataOf, ChunksOnly;
    var buffer := new Byte[CHUNK_SIZE];
    ghost var from := |link.sent|;
    NoChunks();
    assert link.sent[from..] == [] && reader.content[..0] == [];
    while true
      invariant reader.Valid() && from <= |link.sent| && old(link.sent) == link.sent[..from]
      invariant link.dropped == old(link.dropped) && reader.failed == old(reader.failed)
      invariant ChunksOnly(link.sent[from..]) && DataOf(link.sent[from..]) == reader.content[..reader.at]
      decreases |reader.content| - reader.at
    {
      ghost var before, at := link.sent[from..], reader.at;
      var n := reader.Read(buffer, 0);
      if n.Failure? {
        return Fail, true;
      }
      if n.value == 0 {
        assert reader.content[..reader.at] == reader.content;
        return Pass, true;
      }
      var bytes := buffer[..n.value];
      assert reader.content[..at] + bytes == reader.content[..reader.at];
      var outcome := link.Write(Chk(Data(bytes)));
      OneMoreChunk(before, bytes);
      assert link.sent[from..] == before + [Chk(Data(bytes))];
      if outcome.Fail? {
        return Pass, false;
      }
    }
  }

  lemma NoChunks()
    ensures ChunksOnly([]) && DataOf([]) == []
  {
  }

  lemma OneMoreChunk(frames: seq<Frame>, bytes: Bytes)
    requires ChunksOnly(frames)
    ensures ChunksOnly(frames + [Chk(Data(bytes))])
    ensures DataOf(frames + [Chk(Data(bytes))]) == DataOf(frames) + bytes
  {
    assert (frames + [Chk(Data(bytes))])[..|frames|] == frames;
  }

  /** As for a patch, every way out is stated by its cause and by what it leaves. */
  method SendFile(link: Link, source: Reader?, path: Path, mtime: Option<int>) returns (sent: Sent)
    requires link.sent == [] && !link.dropped
    requires source != null ==> source.Valid() && source.at == 0 && !source.failed
    modifies link, source
    ensures sent.Unopened? <==> source == null
    ensures sent.Unopened? ==> link.sent == []
    ensures !sent.Unopened? ==> link.sent != [] && link.sent[0] == Req(WriteFile(path))
    ensures sent.Dropped? <==> link.dropped
    ensures sent.Committed? ==> mtime.Some? && !source.failed && IsFileOf(link.sent[1..], source.content, mtime.value)
    ensures source != null && !link.dropped ==>
      && IsStream(link.sent[1..], false)
      && (IsWholeStream(link.sent[1..], false) <==> source.failed || mtime.Some?)
    ensures sent.Aborted? ==> source.failed
    ensures sent.Unfinished? ==> mtime.None?
    ensures sent.Aborted? || sent.Unfinished? ==> IsFileCutShort(link.sent[1..])
    ensures sent.Dropped? ==>
      || (mtime.Some? && IsFileOf(link.sent[1..], source.content, mtime.value))
      || IsFileCutShort(link.sent[1..])
  {
    hide DataOf;
    if source == null {
      return Unopened;
    }
    var outcome := link.Write(Req(WriteFile(path)));
    if outcome.Fail? {
      return Dropped;
    }
    var read, up := StreamFile(link, source);
    ghost var stream := link.sent[1..];
    if !up {
      return Dropped;
    }
    if read.Fail? {
      outcome := link.Write(Chk(AbortFile));
      assert link.sent[1..] == stream + [Chk(AbortFile)] && link.sent[1..][..|stream|] == stream;
      return if outcome.Fail? then Dropped else Aborted;
    }
    if mtime.None? {
      return Unfinished;
    }
    outcome := link.Write(Chk(CommitFile(mtime.value)));
    assert link.sent[1..] == stream + [Chk(CommitFile(mtime.value))] && link.sent[1..][..|stream|] == stream;
    return if outcome.Fail? then Dropped else Committed;
  }

  /** However much of the transfer is delivered, a stream that ends in a commit is
      the complete read, and carries exactly its bytes. */
  lemma CommittedIsTheRead(sent: seq<Frame>, taken: nat, source: Bytes, mtime: Option<int>)
    requires (mtime.Some? && IsFileOf(sent, source, mtime.value)) || IsFileCutShort(sent)
    requires 0 < taken <= |sent| && sent[taken - 1].Chk? && sent[taken - 1].chunk.CommitFile?
    ensures taken == |sent| && mtime.Some? && IsFileOf(sent, source, mtime.value)
  {
    var n := |sent| - 1;
    assert forall i :: 0 <= i < n ==> sent[..n][i] == sent[i];
  }
}
