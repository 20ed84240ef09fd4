/** One file brought across by the client, over a link that may drop at any frame,
    from a source that may be rewritten between attempts. */
module PatchFile {
  import opened Basics
  import opened Frames
  import opened GreedyScan
  import opened Reader
  import opened SendFile
  import opened SendPatch
  import Signature
  import opened Target
  import opened Tokens

  // ---------------------------------------------------------------------------
  // What a delivered prefix of a transfer can commit to
  // ---------------------------------------------------------------------------

  /** The only commit among the frames, if any, is this one, and is last. */
  ghost predicate CommitsOnlyTo(frames: seq<Frame>, commit: Token) {
    forall i :: 0 <= i < |frames| && frames[i].Tok? && frames[i].token.Commit? ==>
      i == |frames| - 1 && frames[i].token == commit
  }

  lemma PatchCommitsToItsScan(frames: seq<Frame>, tokens: seq<Token>, source: Bytes, mtime: int,
                              signature: Signature.Signature, resumeFrom: nat, strong: Hash, full: Hash)
    requires signature.blockSize > 0
    requires IsPatchOf(frames, tokens, source, mtime, signature, resumeFrom, strong, full)
    ensures CommitsOnlyTo(frames, Commit(mtime, full(source)))
  {
    hide Joined, Scan, BySignature, Resumed, Toks;
    var stream := Toks(Resumed(tokens, resumeFrom));
    assert forall i :: 0 <= i < |stream| ==> frames[i] == stream[i];
  }

  ghost predicate NoCommit(frames: seq<Frame>) {
    forall i :: 0 <= i < |frames| ==> !(frames[i].Tok? && frames[i].token.Commit?)
  }

  lemma UnfinishedCommitsToNothing(frames: seq<Frame>)
    requires Streaming(frames) || GivenUp(frames)
    ensures NoCommit(frames)
  {
    if GivenUp(frames) {
      var stream := frames[..|frames| - 1];
      assert forall i :: 0 <= i < |stream| ==> frames[i] == stream[i];
    }
  }

  /** However much of a transfer is delivered, what the agent publishes is the bytes
      of that scan, which had run to its end. */
  lemma PublishedIsTheScan(sent: seq<Frame>, scanned: bool, taken: nat, built: Option<Bytes>,
                           source: Bytes, mtime: int, full: Hash)
    requires CollisionFree(full) && taken <= |sent|
    requires if scanned then CommitsOnlyTo(sent, Commit(mtime, full(source))) else NoCommit(sent)
    requires Accepts(sent[..taken], built, full)
    ensures scanned && built == Some(source) && sent[taken - 1].token.mtime == mtime
  {
    assert sent[taken - 1] == sent[..taken][taken - 1];
  }

  // ---------------------------------------------------------------------------
  // A clean attempt publishes
  // ---------------------------------------------------------------------------

  /** With no block collision, the tokens of a finished scan are those of the naive
      scan up to how literals were cut, and rebuild the source. */
  lemma TokensRebuildSource(tokens: seq<Token>, source: Bytes, existing: Bytes,
                            signature: Signature.Signature, strong: Hash)
    requires Signature.Describes(signature, existing, strong)
    requires NoBlockCollision(source, existing, signature.blockSize, strong)
    requires Joined(tokens) == Scan(source, signature.blockSize, BySignature(signature, strong))
    ensures Joined(tokens) == Scan(source, signature.blockSize, ByContent(existing, signature.blockSize))
    ensures Rebuild(tokens, existing) == Some(source)
  {
    hide Joined, Scan, BySignature, ByContent, Rebuild, NoBlockCollision;
    ScanIsNaive(source, existing, signature, strong);
    NaiveScanRebuilds(source, existing, signature.blockSize);
    JoinedKeepsMeaning(tokens, existing);
  }

  /** Whatever the resume point, a transfer whose signature describes the file still
      there, whose kept prefix is the source's, and which arrives whole, is one the
      agent accepts, and what it builds is the source. */
  lemma CleanAttemptIsAccepted(frames: seq<Frame>, tokens: seq<Token>, source: Bytes, mtime: int,
                               signature: Signature.Signature, resumeFrom: nat, strong: Hash, full: Hash,
                               temporary: Option<Bytes>, destination: Stored)
    requires Signature.Describes(signature, destination.bytes, strong)
    requires NoBlockCollision(source, destination.bytes, signature.blockSize, strong)
    requires IsPatchOf(frames, tokens, source, mtime, signature, resumeFrom, strong, full)
    requires resumeFrom <= |source| && KeptPrefix(temporary, resumeFrom) == Some(source[..resumeFrom])
    ensures var built := Built(temporary, Some(destination), resumeFrom, ContentFrames(frames));
            Accepts(frames, built, full) && built == Some(source)
  {
    hide Joined, Scan, BySignature, Rebuild, NoBlockCollision, Resumed, KeptPrefix, Signature.Describes;
    TokensRebuildSource(tokens, source, destination.bytes, signature, strong);
    PrefixAndStreamAreTheSource(tokens, source, resumeFrom, destination.bytes);
    var stream := Toks(Resumed(tokens, resumeFrom));
    assert frames[..|frames| - 1] == stream;
    TokensOfToks(Resumed(tokens, resumeFrom));
  }

  /** A complete transfer that reaches the agent is taken whole. */
  lemma WholePatchIsTaken(sent: seq<Frame>, tokens: seq<Token>, source: Bytes, mtime: int,
                          signature: Signature.Signature, resumeFrom: nat, strong: Hash, full: Hash)
    requires signature.blockSize > 0 && sent != []
    requires IsPatchOf(sent[1..], tokens, source, mtime, signature, resumeFrom, strong, full)
    ensures AfterTransfer(sent, 1, true) == |sent| && EndedAt(sent, 1, |sent|, true)
  {
    hide IsPatchOf, IsWholeStream;
    PatchEnds(sent[1..], tokens, source, mtime, signature, resumeFrom, strong, full);
    WholeStreamIsTaken(sent, true);
  }

  /** The copies of a stream read the same bytes in another file as in the one it was made
      against. */
  ghost predicate CopiesStand(tokens: seq<Token>, before: Bytes, now: Bytes) {
    forall k :: 0 <= k < |tokens| && tokens[k].Copy? ==> tokens[k].Produce(now) == tokens[k].Produce(before)
  }

  /** A stream rebuilds in another file what it does in its own exactly when its copies
      read the same there. */
  lemma {:induction false} RebuildsAlikeIff(tokens: seq<Token>, before: Bytes, now: Bytes)
    requires Rebuild(tokens, before).Some?
    ensures Rebuild(tokens, now) == Rebuild(tokens, before) <==> CopiesStand(tokens, before, now)
  {
    var n := |tokens| - 1;
    if n >= 0 {
      var front, last := tokens[..n], tokens[n];
      RebuildsAlikeIff(front, before, now);
      LastToo(tokens, before, now);
      if Rebuild(tokens, now) == Rebuild(tokens, before) {
        SpanIsLength(front, before);
        SpanIsLength(front, now);
        SplitAlike(Rebuild(front, before).value, last.Produce(before).value,
                   Rebuild(front, now).value, last.Produce(now).value);
      }
    }
  }

  lemma LastToo(tokens: seq<Token>, before: Bytes, now: Bytes)
    requires tokens != []
    ensures var n := |tokens| - 1;
      CopiesStand(tokens, before, now) <==>
        CopiesStand(tokens[..n], before, now) && tokens[n].Produce(now) == tokens[n].Produce(before)
  {
    var n := |tokens| - 1;
    assert forall k :: 0 <= k < n ==> tokens[..n][k] == tokens[k];
  }

  lemma SplitAlike(a: Bytes, b: Bytes, c: Bytes, d: Bytes)
    requires a + b == c + d && |a| == |c|
    ensures a == c && b == d
  {
    assert a == (a + b)[..|a|] && b == (a + b)[|a|..];
    assert c == (c + d)[..|c|] && d == (c + d)[|c|..];
  }

  /** A complete transfer made against one file, and landing on another, is accepted
      exactly when the copies it sends read the same bytes in both. */
  lemma AcceptedIffCopiesStand(frames: seq<Frame>, tokens: seq<Token>, source: Bytes, mtime: int,
                               signature: Signature.Signature, resumeFrom: nat, strong: Hash, full: Hash,
                               described: Bytes, temporary: Option<Bytes>, destination: Stored)
    requires CollisionFree(full)
    requires Signature.Describes(signature, described, strong)
    requires NoBlockCollision(source, described, signature.blockSize, strong)
    requires IsPatchOf(frames, tokens, source, mtime, signature, resumeFrom, strong, full)
    requires resumeFrom <= |source| && KeptPrefix(temporary, resumeFrom) == Some(source[..resumeFrom])
    ensures Accepts(frames, Built(temporary, Some(destination), resumeFrom, ContentFrames(frames)), full) <==>
      CopiesStand(Resumed(tokens, resumeFrom), described, destination.bytes)
  {
    hide Joined, Scan, BySignature, Rebuild, NoBlockCollision, Resumed, KeptPrefix, Signature.Describes, CopiesStand;
    var sent := Resumed(tokens, resumeFrom);
    TokensRebuildSource(tokens, source, described, signature, strong);
    ResumedRebuilds(tokens, resumeFrom, described);
    RebuildsAlikeIff(sent, described, destination.bytes);
    assert frames[..|frames| - 1] == Toks(sent);
    TokensOfToks(sent);
    PrefixThen(source, resumeFrom, Rebuild(sent, destination.bytes));
  }

  lemma PrefixThen(source: Bytes, resumeFrom: nat, rest: Option<Bytes>)
    requires resumeFrom <= |source|
    ensures Plus(Some(source[..resumeFrom]), rest) == Some(source) <==> rest == Some(source[resumeFrom..])
  {
    assert source == source[..resumeFrom] + source[resumeFrom..];
    if rest.Some? && source[..resumeFrom] + rest.value == source {
      SplitAlike(source[..resumeFrom], rest.value, source[..resumeFrom], source[resumeFrom..]);
    }
  }

  /** The retry after a publish whose reply was lost, the source unchanged: nothing is left
      to resume, the source itself is what is there, and the retry is accepted exactly
      when every range it reuses holds the same bytes in the source as in the old file. */
  lemma RetryAfterLostReplyIsAcceptedIff(frames: seq<Frame>, tokens: seq<Token>, source: Bytes, mtime: int,
                                         signature: Signature.Signature, strong: Hash, full: Hash,
                                         described: Bytes, published: Stored)
    requires CollisionFree(full)
    requires Signature.Describes(signature, described, strong)
    requires NoBlockCollision(source, described, signature.blockSize, strong)
    requires IsPatchOf(frames, tokens, source, mtime, signature, 0, strong, full)
    requires published.bytes == source
    ensures Accepts(frames, Built(None, Some(published), 0, ContentFrames(frames)), full) <==>
      CopiesStand(Resumed(tokens, 0), described, source)
  {
    hide Joined, Scan, BySignature, NoBlockCollision, Resumed, Signature.Describes, CopiesStand, Accepts, Built;
    assert source[..0] == [];
    AcceptedIffCopiesStand(frames, tokens, source, mtime, signature, 0, strong, full, described, None, published);
  }

  /** A transfer that published, and whose reply was lost: sent again against the same
      signature, the copies now read the new file, and the agent refuses the result. */
  lemma RetryAfterLostReplyCanBeRefused(full: Hash, mtime: int)
    requires CollisionFree(full)
    ensures var existing: Bytes, source: Bytes := [0, 1], [1, 0];
      var tokens := [Copy(1, 1), Copy(0, 1)];
      var frames := Toks(tokens) + [Tok(Commit(mtime, full(source)))];
      && Scan(source, 1, ByContent(existing, 1)) == tokens
      && Accepts(frames, Built(None, Some(Stored(existing, 0)), 0, Toks(tokens)), full)
      && !Accepts(frames, Built(None, Some(Stored(source, mtime)), 0, Toks(tokens)), full)
  {
    var existing: Bytes, source: Bytes := [0, 1], [1, 0];
    var tokens := [Copy(1, 1), Copy(0, 1)];
    SwappedBytesScan();
    RebuiltFromSwap(existing, 0);
    RebuiltFromSwap(source, mtime);
    var frames := Toks(tokens) + [Tok(Commit(mtime, full(source)))];
    assert frames[|frames| - 1] == Tok(Commit(mtime, full(source)));
    assert source[0] != existing[0];
  }

  /** The two halves of a two-byte file, the other way round. */
  lemma RebuiltFromSwap(content: Bytes, mtime: int)
    requires |content| == 2
    ensures Built(None, Some(Stored(content, mtime)), 0, Toks([Copy(1, 1), Copy(0, 1)]))
         == Some([content[1], content[0]])
  {
    var tokens := [Copy(1, 1), Copy(0, 1)];
    TokensOfToks(tokens);
    RebuildOneMore([Copy(1, 1)], Copy(0, 1), content);
    RebuildOneMore([], Copy(1, 1), content);
    assert [Copy(1, 1)] + [Copy(0, 1)] == tokens && [] + [Copy(1, 1)] == [Copy(1, 1)];
    assert content[1..2] == [content[1]] && content[0..1] == [content[0]];
    assert forall bytes: Bytes :: [] + bytes == bytes;
    assert [content[1]] + [content[0]] == [content[1], content[0]];
    assert Rebuild(tokens, content) == Some([content[1], content[0]]);
  }

  lemma SwappedBytesScan()
    ensures Scan([1, 0], 1, ByContent([0, 1], 1)) == [Copy(1, 1), Copy(0, 1)]
  {
    var existing: Bytes, source: Bytes := [0, 1], [1, 0];
    var lookup := ByContent(existing, 1);
    assert Signature.Block(existing, 1, 0) == [0] && Signature.Block(existing, 1, 1) == [1];
    assert Window(source, 0, 1) == [1] && Window(source, 1, 1) == [0];
    assert SameBlock(existing, 1, [1], 1) && !SameBlock(existing, 1, [1], 0) && SameBlock(existing, 1, [0], 0);
    assert lookup([1]) == Some(1) && lookup([0]) == Some(0);
    assert ScanFrom([Copy(1, 1), Copy(0, 1)], source, 2, 1, lookup) == [Copy(1, 1), Copy(0, 1)];
    assert ScanFrom([Copy(1, 1)], source, 1, 1, lookup) == [Copy(1, 1), Copy(0, 1)];
  }

  // ---------------------------------------------------------------------------
  // One attempt
  // ---------------------------------------------------------------------------

  datatype Attempt =
    | Acknowledged   // the agent answered that it published
    | Declined       // the agent answered with an error, or the source could not be opened or stat'd
    | LinkDown       // nothing is known of the outcome

  /** The source opened, was read through and stat'd; the path was accepted; the link held
      until the reply; and nothing failed on the target. */
  ghost predicate NothingFailed(link: Link, target: Target, source: Reader?, mtime: Option<int>, resolves: bool)
    reads link, target, source
  {
    source != null && !source.failed && mtime.Some? && resolves && !link.dropped && !target.faulted
  }

  /** A signature of the file that is there, told apart from every window of the source
      by its block hash, and a resume point at which the temporary agrees with it. */
  ghost predicate WellFounded(source: Bytes, signature: Signature.Signature, resumeFrom: nat, strong: Hash,
                              destination: Option<Stored>, temporary: Option<Bytes>)
  {
    && destination.Some? && Signature.Describes(signature, destination.value.bytes, strong)
    && NoBlockCollision(source, destination.value.bytes, signature.blockSize, strong)
    && resumeFrom <= |source| && KeptPrefix(temporary, resumeFrom) == Some(source[..resumeFrom])
  }

  /** A complete, well-founded transfer that the agent takes whole is published, unless
      something fails locally. */
  lemma WellFoundedIsPublished(ending: Ending, frames: seq<Frame>, tokens: seq<Token>, source: Bytes, mtime: int,
                               signature: Signature.Signature, resumeFrom: nat, strong: Hash, full: Hash,
                               dest: Option<Stored>, temp: Option<Bytes>,
                               dest': Option<Stored>, temp': Option<Bytes>)
    requires signature.blockSize > 0 && WellFounded(source, signature, resumeFrom, strong, dest, temp)
    requires IsPatchOf(frames, tokens, source, mtime, signature, resumeFrom, strong, full)
    requires PatchEnded(ending, frames, true, resumeFrom, full, dest, temp, dest', temp', false)
    requires !ending.Discarded?
    ensures ending.Published?
  {
    hide Joined, Scan, BySignature, Resumed, Toks, Built, NoBlockCollision, Signature.Describes, KeptPrefix;
    hide ContentFrames, Accepts;
    CleanAttemptIsAccepted(frames, tokens, source, mtime, signature, resumeFrom, strong, full, temp, dest.value);
  }

  lemma PartOfStream(stream: seq<Frame>, frames: seq<Frame>, taken: nat)
    requires taken <= |frames| && Streaming(stream) && stream <= frames && |frames| <= |stream| + 1
    requires |frames| > |stream| ==> frames[|stream|].Tok? && frames[|stream|].Ends()
    ensures ContentFrames(frames[..taken]) == stream[..Min(taken, |stream|)]
  {
    var part := frames[..taken];
    if taken <= |stream| {
      assert part == stream[..taken];
      assert taken > 0 ==> part[taken - 1] == stream[taken - 1];
    } else {
      assert part[..|stream|] == stream && stream[..|stream|] == stream;
    }
  }

  /** However the sending ended and however much of it arrived, what the agent has built is
      the beginning of the source, so that a resume loses nothing of it. */
  lemma InterruptedIsABeginning(sent: Sent, frames: seq<Frame>, literalBytes: nat, tokens: seq<Token>, source: Bytes,
                                failed: bool, mtime: Option<int>, signature: Signature.Signature, resumeFrom: nat,
                                strong: Hash, full: Hash, taken: nat, temp: Option<Bytes>, dest: Option<Stored>)
    requires signature.blockSize > 0 && taken <= |frames|
    requires WellFounded(source, signature, resumeFrom, strong, dest, temp)
    requires Leaves(sent, frames, literalBytes, tokens, source, failed, mtime, signature, resumeFrom, strong, full)
    ensures var built := Built(temp, dest, resumeFrom, ContentFrames(frames[..taken]));
            built.Some? && built.value <= source
  {
    hide Joined, Scan, BySignature, Rebuild, NoBlockCollision, Resumed, KeptPrefix, Signature.Describes, LiteralBytes;
    hide Begins, ContentFrames, Streaming, Toks, Leaves, TokensOf, ByContent;
    var existing, stream := dest.value.bytes, Toks(Resumed(tokens, resumeFrom));
    var m := Min(taken, |stream|);
    LeavesStream(sent, frames, literalBytes, tokens, source, failed, mtime, signature, resumeFrom, strong, full);
    PartOfStream(stream, frames, taken);
    var front := FrontOf(tokens, source, existing, signature, strong);
    ResumedRebuilds(tokens, resumeFrom, existing);
    PartOfToks(Resumed(tokens, resumeFrom), m);
    PrefixBegins(Resumed(tokens, resumeFrom), m);
    BeginningRebuilds(Resumed(tokens, resumeFrom)[..m], Resumed(tokens, resumeFrom), existing);
    FrontThen(source, front, resumeFrom, Rebuild(Resumed(tokens, resumeFrom)[..m], existing).value);
  }

  /** What an attempt leaves of the temporary, if nothing failed on the target. */
  lemma LeftIsABeginning(sent: Sent, frames: seq<Frame>, literalBytes: nat, tokens: seq<Token>, source: Bytes,
                         failed: bool, mtime: Option<int>, signature: Signature.Signature, resumeFrom: nat,
                         strong: Hash, full: Hash, taken: nat, complete: bool, temp: Option<Bytes>,
                         dest: Option<Stored>, ending: Ending, dest': Option<Stored>, temp': Option<Bytes>)
    requires signature.blockSize > 0 && taken <= |frames|
    requires WellFounded(source, signature, resumeFrom, strong, dest, temp)
    requires Leaves(sent, frames, literalBytes, tokens, source, failed, mtime, signature, resumeFrom, strong, full)
    requires PatchEnded(ending, frames[..taken], complete, resumeFrom, full, dest, temp, dest', temp', false)
    requires ending.Refused? ==> temp'.None?
    ensures temp' == temp || temp'.None? || temp'.value <= source
  {
    hide Leaves, WellFounded, Built, ContentFrames, Accepts;
    InterruptedIsABeginning(sent, frames, literalBytes, tokens, source, failed, mtime, signature, resumeFrom,
                            strong, full, taken, temp, dest);
  }

  /** The tokens of a scan that has not ended rebuild the front of the source. */
  lemma FrontOf(tokens: seq<Token>, source: Bytes, existing: Bytes, signature: Signature.Signature, strong: Hash)
    returns (front: Bytes)
    requires Signature.Describes(signature, existing, strong)
    requires NoBlockCollision(source, existing, signature.blockSize, strong)
    requires Begins(Joined(tokens), Scan(source, signature.blockSize, BySignature(signature, strong)))
    ensures Rebuild(tokens, existing) == Some(front) && front <= source
  {
    hide Joined, Scan, BySignature, ByContent, Rebuild, NoBlockCollision, Begins;
    ScanIsNaive(source, existing, signature, strong);
    NaiveScanRebuilds(source, existing, signature.blockSize);
    BeginningRebuilds(Joined(tokens), Scan(source, signature.blockSize, BySignature(signature, strong)), existing);
    JoinedKeepsMeaning(tokens, existing);
    front := Rebuild(tokens, existing).value;
  }

  lemma PartOfToks(tokens: seq<Token>, m: nat)
    requires m <= |Toks(tokens)|
    ensures |Toks(tokens)| == |tokens| && TokensOf(Toks(tokens)[..m]) == tokens[..m]
  {
  }

  lemma FrontThen(source: Bytes, front: Bytes, at: nat, piece: Bytes)
    requires front <= source && at <= |source| && piece <= front[Min(at, |front|)..]
    ensures source[..at] + piece <= source
  {
    var joined := source[..at] + piece;
    assert forall i :: at <= i < |joined| ==> joined[i] == piece[i - at] == front[i];
  }

  /** The link delivers some prefix of what was sent, the agent acts on it, and the
      reply may be lost. Whatever happens, the destination is as it was or holds exactly
      this source, and the latter only if a complete scan of it went out with its commit;
      `full` is the only hash that has to be collision-free for that. If nothing fails and
      the attempt was well founded, it is acknowledged; and if nothing fails on the target,
      whatever it newly leaves of the temporary is the beginning of this source. */
  method AttemptPatch(link: Link, target: Target, source: Reader?, path: Path, mtime: Option<int>, resolves: bool,
                      signature: Signature.Signature, resumeFrom: nat, strong: Hash, full: Hash)
    returns (attempt: Attempt, ghost tokens: seq<Token>)
    requires CollisionFree(full) && 0 < signature.blockSize < 0x1_0000_0000
    requires link.sent == [] && !link.dropped
    requires source != null ==> source.Valid() && source.at == 0 && !source.failed
    modifies link, target, source
    ensures target.destination != old(target.destination) || attempt.Acknowledged? ==>
      && source != null && mtime.Some? && target.destination == Some(Stored(source.content, mtime.value))
      && link.sent != []
      && IsPatchOf(link.sent[1..], tokens, source.content, mtime.value, signature, resumeFrom, strong, full)
    ensures attempt.LinkDown? <==> link.dropped
    ensures if source == null then attempt.Declined? && link.sent == []
            else link.sent != [] && link.sent[0] == Req(Request.PatchFile(path, resumeFrom))
    ensures attempt.Declined? ==> target.destination == old(target.destination)
    ensures NothingFailed(link, target, source, mtime, resolves) ==>
      WellFounded(source.content, signature, resumeFrom, strong, old(target.destination), old(target.temporary)) ==>
        attempt.Acknowledged?
    ensures source != null && !target.faulted ==>
      WellFounded(source.content, signature, resumeFrom, strong, old(target.destination), old(target.temporary)) ==>
        || target.temporary == old(target.temporary) || target.temporary.None?
        || target.temporary.value <= source.content
  {
    hide Joined, Scan, BySignature, Resumed, Toks, Built, Streaming, GivenUp, IsPatchOf, Leaves, PatchEnded;
    hide AfterTransfer, EndedAt, Span, LiteralBytes, ContentFrames, WellFounded, IsStream, IsWholeStream;
    var sent, literalBytes;
    sent, literalBytes, tokens := SendPatch.SendPatch(link, source, path, mtime, signature, resumeFrom, strong, full);
    if sent.Unopened? {
      return Declined, [];
    }
    ghost var failed := source.failed;
    CommittedUnless(sent, link.sent[1..], literalBytes, tokens, source.content, failed, mtime, signature, resumeFrom,
                    strong, full);
    var arrived := link.Deliver();
    if arrived == 0 {
      if sent.Unfinished? {
        return Declined, tokens;
      }
      var _ := link.HearBack();
      return LinkDown, tokens;
    }
    var input := new Incoming(link.sent[..arrived]);
    input.at := 1;
    var outcome; ghost var ending;
    outcome, ending := target.ReceivePatch(input, resumeFrom, resolves, full);
    AttemptEnds(sent, link.sent, arrived, literalBytes, tokens, source.content, failed, mtime, signature, resumeFrom,
                strong, full, input.at, ending, old(target.destination), old(target.temporary),
                target.destination, target.temporary, target.faulted);
    if sent.Unfinished? {
      return Declined, tokens;
    }
    var heard := link.HearBack();
    if !heard || sent.Dropped? {
      return LinkDown, tokens;
    }
    return if outcome.Pass? then Acknowledged else Declined, tokens;
  }

  /** What an attempt comes to when `arrived` of the frames on the link reach the agent, which
      takes them up to `at`. */
  lemma AttemptEnds(sent: Sent, wire: seq<Frame>, arrived: nat, literalBytes: nat, tokens: seq<Token>, source: Bytes,
                    failed: bool, mtime: Option<int>, signature: Signature.Signature, resumeFrom: nat, strong: Hash,
                    full: Hash, at: nat, ending: Ending, dest: Option<Stored>, temp: Option<Bytes>,
                    dest': Option<Stored>, temp': Option<Bytes>, faulted: bool)
    requires CollisionFree(full) && signature.blockSize > 0 && 1 <= arrived <= |wire|
    requires Leaves(sent, wire[1..], literalBytes, tokens, source, failed, mtime, signature, resumeFrom, strong, full)
    requires at == AfterTransfer(wire[..arrived], 1, true)
    requires PatchEnded(ending, wire[..arrived][1..at], EndedAt(wire[..arrived], 1, at, true), resumeFrom, full,
                        dest, temp, dest', temp', faulted)
    requires ending.Refused? && !faulted ==> temp'.None?
    ensures ending.Published? ==>
      && mtime.Some? && dest' == Some(Stored(source, mtime.value))
      && IsPatchOf(wire[1..], tokens, source, mtime.value, signature, resumeFrom, strong, full)
    ensures !faulted && WellFounded(source, signature, resumeFrom, strong, dest, temp) ==>
      temp' == temp || temp'.None? || temp'.value <= source
    ensures sent.Committed? && arrived == |wire| && !faulted && !ending.Discarded? ==>
      WellFounded(source, signature, resumeFrom, strong, dest, temp) ==> ending.Published?
  {
    hide Joined, Scan, BySignature, Resumed, Toks, Built, Streaming, GivenUp, IsPatchOf, Leaves, PatchEnded;
    hide AfterTransfer, EndedAt, Span, LiteralBytes, ContentFrames, WellFounded, IsStream, IsWholeStream;
    var stream, complete := wire[1..], EndedAt(wire[..arrived], 1, at, true);
    assert wire[..arrived][1..at] == stream[..at - 1];
    if ending.Published? {
      PublishedByAttempt(sent, stream, literalBytes, tokens, source, failed, mtime, signature, resumeFrom,
                         strong, full, at - 1, complete, dest, temp, dest', temp', faulted);
    }
    if !faulted && WellFounded(source, signature, resumeFrom, strong, dest, temp) {
      LeftIsABeginning(sent, stream, literalBytes, tokens, source, failed, mtime, signature, resumeFrom,
                       strong, full, at - 1, complete, temp, dest, ending, dest', temp');
      CommittedUnless(sent, stream, literalBytes, tokens, source, failed, mtime, signature, resumeFrom, strong, full);
      if sent.Committed? && arrived == |wire| && !ending.Discarded? {
        assert wire[..arrived] == wire && stream[..|stream|] == stream;
        WholePatchIsTaken(wire, tokens, source, mtime.value, signature, resumeFrom, strong, full);
        WellFoundedIsPublished(ending, stream, tokens, source, mtime.value, signature, resumeFrom, strong, full,
                               dest, temp, dest', temp');
      }
    }
  }

  lemma CommittedUnless(sent: Sent, stream: seq<Frame>, literalBytes: nat, tokens: seq<Token>,
                        source: Bytes, failed: bool, mtime: Option<int>, signature: Signature.Signature,
                        resumeFrom: nat, strong: Hash, full: Hash)
    requires signature.blockSize > 0
    requires Leaves(sent, stream, literalBytes, tokens, source, failed, mtime, signature, resumeFrom, strong, full)
    ensures sent.Committed? ==>
      mtime.Some? && IsPatchOf(stream, tokens, source, mtime.value, signature, resumeFrom, strong, full)
    ensures sent.Aborted? ==> failed
    ensures sent.Unfinished? ==> mtime.None?
  {
    hide IsPatchOf;
  }

  /** What an attempt publishes, from whatever part of it was delivered, is its own scan. */
  lemma PublishedByAttempt(sent: Sent, stream: seq<Frame>, literalBytes: nat, tokens: seq<Token>,
                           source: Bytes, failed: bool, mtime: Option<int>, signature: Signature.Signature,
                           resumeFrom: nat, strong: Hash, full: Hash, taken: nat, complete: bool,
                           dest: Option<Stored>, temp: Option<Bytes>,
                           dest': Option<Stored>, temp': Option<Bytes>, faulted: bool)
    requires CollisionFree(full) && signature.blockSize > 0 && taken <= |stream|
    requires Leaves(sent, stream, literalBytes, tokens, source, failed, mtime, signature, resumeFrom, strong, full)
    requires PatchEnded(Published, stream[..taken], complete, resumeFrom, full, dest, temp, dest', temp', faulted)
    ensures mtime.Some? && IsPatchOf(stream, tokens, source, mtime.value, signature, resumeFrom, strong, full)
    ensures dest' == Some(Stored(source, mtime.value))
  {
    hide IsPatchOf, Streaming, GivenUp, Built, ContentFrames, Resumed, Accepts, CommitsOnlyTo, NoCommit;
    var scanned := mtime.Some? && IsPatchOf(stream, tokens, source, mtime.value, signature, resumeFrom, strong, full);
    if scanned {
      PatchCommitsToItsScan(stream, tokens, source, mtime.value, signature, resumeFrom, strong, full);
    } else {
      LeavesOneOf(sent, stream, literalBytes, tokens, source, failed, mtime, signature, resumeFrom, strong, full);
      UnfinishedCommitsToNothing(stream);
    }
    var built := Built(temp, dest, resumeFrom, ContentFrames(stream[..taken]));
    AcceptedHasLast(stream[..taken], built, full);
    PublishedIsTheScan(stream, scanned, taken, built, source, if scanned then mtime.value else 0, full);
  }

  lemma AcceptedHasLast(frames: seq<Frame>, built: Option<Bytes>, full: Hash)
    requires Accepts(frames, built, full)
    ensures frames != [] && built.Some?
  {
  }

  /** The same for a file sent whole. */
  method AttemptWrite(link: Link, target: Target, source: Reader?, path: Path, mtime: Option<int>, resolves: bool)
    returns (attempt: Attempt)
    requires link.sent == [] && !link.dropped
    requires source != null ==> source.Valid() && source.at == 0 && !source.failed
    modifies link, target, source
    ensures target.destination != old(target.destination) || attempt.Acknowledged? ==>
      && source != null && mtime.Some? && target.destination == Some(Stored(source.content, mtime.value))
      && link.sent != [] && IsFileOf(link.sent[1..], source.content, mtime.value)
    ensures attempt.LinkDown? <==> link.dropped
    ensures if source == null then attempt.Declined? && link.sent == []
            else link.sent != [] && link.sent[0] == Req(Request.WriteFile(path))
    ensures attempt.Declined? ==> target.destination == old(target.destination)
    ensures NothingFailed(link, target, source, mtime, resolves) ==> attempt.Acknowledged?
  {
    hide DataOf, AfterTransfer, IsFileOf, IsFileCutShort;
    var sent := SendFile.SendFile(link, source, path, mtime);
    if sent.Unopened? {
      return Declined;
    }
    ghost var stream := link.sent[1..];
    ghost var scanned := mtime.Some? && IsFileOf(stream, source.content, mtime.value);
    var arrived := link.Deliver();
    if arrived == 0 {
      if sent.Unfinished? {
        return Declined;
      }
      var _ := link.HearBack();
      return LinkDown;
    }
    var input := new Incoming(link.sent[..arrived]);
    input.at := 1;
    var outcome; ghost var ending;
    outcome, ending := target.ReceiveFile(input, resolves);
    ghost var taken := input.at - 1;
    ghost var frames := input.frames[1..input.at];
    assert frames == stream[..taken];
    if outcome.Pass? {
      CommittedIsTheRead(stream, taken, source.content, mtime);
      assert frames[..taken - 1] == stream[..taken - 1];
    } else if scanned && arrived == |link.sent| {
      assert link.sent[..arrived] == link.sent;
      WholeFileIsTaken(link.sent, source.content, mtime.value);
    }
    if sent.Unfinished? {
      return Declined;
    }
    var heard := link.HearBack();
    if !heard || sent.Dropped? {
      return LinkDown;
    }
    return if outcome.Pass? then Acknowledged else Declined;
  }

  lemma WholeFileIsTaken(sent: seq<Frame>, source: Bytes, mtime: int)
    requires sent != [] && IsFileOf(sent[1..], source, mtime)
    ensures AfterTransfer(sent, 1, false) == |sent| && EndedAt(sent, 1, |sent|, false)
    ensures sent[|sent| - 1] == Chk(CommitFile(mtime))
  {
    hide DataOf, IsWholeStream, AfterTransfer;
    FileEnds(sent[1..], source, mtime);
    WholeStreamIsTaken(sent, false);
  }

  // ---------------------------------------------------------------------------
  // Resuming
  // ---------------------------------------------------------------------------

  /** Fails exactly if the file does not open or a read fails; otherwise the hash is
      of that prefix, if the file has it. */
  method HashPrefix(source: Reader?, bytes: nat, full: Hash) returns (r: Result<Option<Digest>>)
    requires source != null ==> source.Valid() && source.at == 0 && !source.failed
    modifies source
    ensures r.Failure? <==> source == null || source.failed
    ensures r.Success? ==>
      r.value == if |source.content| < bytes then None else Some(full(source.content[..bytes]))
  {
    if source == null {
      return Failure;
    }
    if |source.content| < bytes {
      return Success(None);
    }
    var hasher, remaining := [], bytes;
    while remaining > 0
      invariant 0 <= remaining <= bytes && source.Valid() && source.at == bytes - remaining && !source.failed
      invariant hasher == source.content[..source.at]
    {
      var want := Min(remaining, CHUNK_SIZE);
      var buffer := new Byte[want];
      ghost var at := source.at;
      var filled := Signature.FillBlock(source, buffer);
      if filled.Failure? {
        return Failure;
      }
      assert filled.value == want;
      assert source.content[..at] + source.content[at..at + want] == source.content[..at + want];
      hasher := hasher + buffer[..want];
      remaining := remaining - want;
    }
    return Success(Some(full(hasher)));
  }

  /** The whole temporary if it is a prefix of the source as that now is, and
      otherwise nothing. */
  method ResumableFrom(target: Target, source: Reader?, answered: bool, full: Hash) returns (from: nat)
    requires CollisionFree(full)
    requires source != null ==> source.Valid() && source.at == 0 && !source.failed
    modifies source
    ensures from ==
      if answered && source != null && !source.failed
        && target.temporary.Some? && target.temporary.value <= source.content
      then |target.temporary.value| else 0
    ensures source != null ==>
      from <= |source.content| && KeptPrefix(target.temporary, from) == Some(source.content[..from])
  {
    var state := target.ResumeState(answered, full);
    if state.Failure? || state.value.0 == 0 {
      return 0;
    }
    var (bytes, hash) := state.value;
    var local := HashPrefix(source, bytes, full);
    if local.Failure? || local.value.None? {
      return 0;
    }
    assert target.temporary.value[..bytes] == target.temporary.value;
    assert target.temporary.value <= source.content ==> source.content[..bytes] == target.temporary.value;
    if local.value.value != hash {
      return 0;
    }
    assert full(source.content[..bytes]) == full(target.temporary.value);
    return bytes;
  }

  // ---------------------------------------------------------------------------
  // Whole runs
  // ---------------------------------------------------------------------------

  datatype Done = Written | GaveUp | StillTrying

  /** The source as one attempt finds it: what its reads deliver, and the time it is stat'd
      with afterwards, if that works. */
  datatype Version = Version(content: Bytes, mtime: Option<int>)

  /** What surrounds one attempt: the source as it finds it, if that opens; whether the agent
      accepts the path; and, should the link fail, whether it can be rebuilt, whether the
      agent then says what there is to resume, and the source as it is read to check that. */
  datatype Round = Round(version: Option<Version>, resolves: bool, restored: bool, answered: bool,
                         current: Option<Version>)

  /** The file holds exactly this version, and its time. There is none where the source did
      not open. */
  ghost predicate IsVersion(now: Option<Stored>, version: Option<Version>) {
    && version.Some? && version.value.mtime.Some?
    && now == Some(Stored(version.value.content, version.value.mtime.value))
  }

  /** The original, or the version of one of the rounds so far. */
  ghost predicate OriginalOrMade(original: Option<Stored>, now: Option<Stored>, rounds: seq<Round>, made: nat)
    requires made <= |rounds|
  {
    now == original || exists i :: 0 <= i < made && IsVersion(now, rounds[i].version)
  }

  function TimeOf(version: Option<Version>): Option<int> {
    if version.Some? then version.value.mtime else None
  }

  method OpenSource(version: Option<Version>) returns (source: Reader?)
    ensures source == null <==> version.None?
    ensures source != null ==>
      fresh(source) && source.Valid() && source.at == 0 && !source.failed && source.content == version.value.content
  {
    if version.None? {
      return null;
    }
    source := new Reader(version.value.content);
  }

  // ---------------------------------------------------------------------------
  // The course of a run
  // ---------------------------------------------------------------------------

  /** One attempt as it went: over which link, from where, between which states of the target;
      and the source as it was read, if it was, to see what to resume. */
  datatype Tried = Tried(attempt: Attempt, link: Link, from: nat, before: Option<Stored>, after: Option<Stored>,
                         left: Option<Bytes>, checked: Option<Reader>)

  /** Where the next attempt starts: after all there is, if the agent says so and the source
      can be read and begins with it; and else over. */
  ghost function ResumePoint(tried: Tried, answered: bool): nat
    reads if tried.checked.Some? then {tried.checked.value} else {}
  {
    if answered && tried.checked.Some? && !tried.checked.value.failed
      && tried.left.Some? && tried.left.value <= tried.checked.value.content
    then |tried.left.value| else 0
  }

  /** An attempt is lost exactly when its link was; it asked for what it should, if the source
      opened; and it left the file as it was or as this version, the latter if it was
      acknowledged and the former if it was declined. */
  ghost predicate Went(tried: Tried, round: Round, patch: bool, path: Path)
    reads tried.link
  {
    && (tried.attempt.LinkDown? <==> tried.link.dropped)
    && (round.version.None? ==> tried.attempt.Declined? && tried.link.sent == [])
    && (round.version.Some? ==>
         && tried.link.sent != []
         && tried.link.sent[0] == Req(if patch then Request.PatchFile(path, tried.from) else Request.WriteFile(path)))
    && (tried.after == tried.before || IsVersion(tried.after, round.version))
    && (tried.attempt.Acknowledged? ==> IsVersion(tried.after, round.version))
    && (tried.attempt.Declined? ==> tried.after == tried.before)
  }

  /** An attempt that was followed by another: its link was lost and rebuilt, and the next
      takes up where it left. */
  ghost predicate Follows(tried: Tried, next: Tried, round: Round, patch: bool)
    reads if tried.checked.Some? then {tried.checked.value} else {}
  {
    && tried.attempt.LinkDown? && round.restored && next.before == tried.after
    && (patch ==>
         && (tried.checked.Some? <==> round.current.Some?)
         && (tried.checked.Some? ==> tried.checked.value.content == round.current.value.content)
         && next.from == ResumePoint(tried, round.answered))
  }

  /** A run of attempts, each in its round, from one state of the file to another. */
  ghost predicate Course(course: seq<Tried>, rounds: seq<Round>, patch: bool, path: Path,
                         original: Option<Stored>, now: Option<Stored>)
    reads set t | t in course :: t.link
    reads set t | t in course && t.checked.Some? :: t.checked.value
  {
    && |course| <= |rounds|
    && (forall i :: 0 <= i < |course| ==> Went(course[i], rounds[i], patch, path))
    && (forall i :: 0 < i < |course| ==> Follows(course[i - 1], course[i], rounds[i - 1], patch))
    && (if course == [] then now == original
        else course[0].from == 0 && course[0].before == original && course[|course| - 1].after == now)
  }

  /** How a run of attempts ended, if it did: by the last of them. */
  ghost predicate EndedBy(done: Done, course: seq<Tried>, rounds: seq<Round>)
    requires |course| <= |rounds|
  {
    var n := |course| - 1;
    && (done.Written? <==> n >= 0 && course[n].attempt.Acknowledged?)
    && (done.GaveUp? <==>
         n >= 0 && (course[n].attempt.Declined? || (course[n].attempt.LinkDown? && !rounds[n].restored)))
    && (done.StillTrying? ==> |course| == |rounds|)
  }

  /** However it went, the file holds the original or one of the versions attempted. */
  lemma {:induction false} CourseMakes(course: seq<Tried>, rounds: seq<Round>, patch: bool, path: Path,
                                       original: Option<Stored>, now: Option<Stored>, n: nat)
    requires Course(course, rounds, patch, path, original, now) && n <= |course|
    ensures OriginalOrMade(original, if n == 0 then original else course[n - 1].after, rounds, n)
  {
    hide IsVersion;
    if n > 0 {
      CourseMakes(course, rounds, patch, path, original, now, n - 1);
      assert Went(course[n - 1], rounds[n - 1], patch, path);
      if n > 1 {
        assert Follows(course[n - 2], course[n - 1], rounds[n - 2], patch);
      }
    }
  }

  lemma NothingTried(rounds: seq<Round>, patch: bool, path: Path, original: Option<Stored>)
    ensures Course([], rounds, patch, path, original, original)
  {
  }

  /** A run is carried on by an attempt that takes up where the last one left. */
  lemma OneMoreTried(course: seq<Tried>, tried: Tried, rounds: seq<Round>, patch: bool, path: Path,
                     original: Option<Stored>)
    requires |course| < |rounds| && Course(course, rounds, patch, path, original, tried.before)
    requires Went(tried, rounds[|course|], patch, path)
    requires if course == [] then tried.from == 0
             else Follows(course[|course| - 1], tried, rounds[|course| - 1], patch)
    ensures Course(course + [tried], rounds, patch, path, original, tried.after)
  {
    hide Went;
    var all := course + [tried];
    forall i | 0 < i < |all|
      ensures Follows(all[i - 1], all[i], rounds[i - 1], patch)
    {
      assert all[i - 1] == course[i - 1];
    }
  }

  lemma WentSo(tried: Tried, round: Round, patch: bool, path: Path, source: Reader?)
    requires tried.attempt.LinkDown? <==> tried.link.dropped
    requires (source == null <==> round.version.None?)
    requires source != null ==> source.content == round.version.value.content
    requires source == null ==> tried.attempt.Declined? && tried.link.sent == []
    requires source != null ==>
      && tried.link.sent != []
      && tried.link.sent[0] == Req(if patch then Request.PatchFile(path, tried.from) else Request.WriteFile(path))
    requires tried.after != tried.before || tried.attempt.Acknowledged? ==>
      && source != null && TimeOf(round.version).Some?
      && tried.after == Some(Stored(source.content, TimeOf(round.version).value))
    requires tried.attempt.Declined? ==> tried.after == tried.before
    ensures Went(tried, round, patch, path)
  {
  }

  /** Sends the file whole, again from the beginning whenever the link drops, while the
      source may be rewritten from one attempt to the next. The run is cut off after some
      number of attempts, so that what is said of every run is said of all its prefixes. */
  method WriteFile(target: Target, path: Path, rounds: seq<Round>) returns (done: Done, ghost course: seq<Tried>)
    modifies target
    ensures Course(course, rounds, false, path, old(target.destination), target.destination)
    ensures |course| <= |rounds| && EndedBy(done, course, rounds)
    ensures OriginalOrMade(old(target.destination), target.destination, rounds, |course|)
    ensures done.Written? ==> course != [] && IsVersion(target.destination, rounds[|course| - 1].version)
    ensures forall t :: t in course ==> fresh(t.link)
  {
    hide IsVersion, Course, Went, OriginalOrMade, IsFileOf;
    course := [];
    NothingTried(rounds, false, path, target.destination);
    for n := 0 to |rounds|
      invariant |course| == n && Course(course, rounds, false, path, old(target.destination), target.destination)
      invariant course != [] ==> course[n - 1].attempt.LinkDown? && rounds[n - 1].restored
      invariant course != [] ==> course[n - 1].after == target.destination
      invariant forall t :: t in course ==> fresh(t.link)
    {
      ghost var before := target.destination;
      var attempt; ghost var link;
      attempt, link := WriteOnce(target, path, rounds[n]);
      ghost var tried := Tried(attempt, link, 0, before, target.destination, None, None);
      OneMoreTried(course, tried, rounds, false, path, old(target.destination));
      course := course + [tried];
      if attempt.Acknowledged? || attempt.Declined? || !rounds[n].restored {
        CourseMakes(course, rounds, false, path, old(target.destination), target.destination, n + 1);
        LastWent(course, rounds, false, path, old(target.destination), target.destination);
        return if attempt.Acknowledged? then Written else GaveUp, course;
      }
    }
    CourseMakes(course, rounds, false, path, old(target.destination), target.destination, |rounds|);
    CourseEnds(course, rounds, false, path, old(target.destination), target.destination);
    return StillTrying, course;
  }

  lemma LastWent(course: seq<Tried>, rounds: seq<Round>, patch: bool, path: Path,
                 original: Option<Stored>, now: Option<Stored>)
    requires course != [] && Course(course, rounds, patch, path, original, now)
    ensures |course| <= |rounds| && course[|course| - 1].after == now
    ensures course[|course| - 1].attempt.Acknowledged? ==> IsVersion(now, rounds[|course| - 1].version)
  {
    hide IsVersion;
    assert Went(course[|course| - 1], rounds[|course| - 1], patch, path);
  }

  lemma CourseEnds(course: seq<Tried>, rounds: seq<Round>, patch: bool, path: Path,
                   original: Option<Stored>, now: Option<Stored>)
    requires Course(course, rounds, patch, path, original, now)
    ensures now == if course == [] then original else course[|course| - 1].after
  {
  }

  /** One attempt in its round, over a link of its own. */
  method WriteOnce(target: Target, path: Path, round: Round) returns (attempt: Attempt, ghost link: Link)
    modifies target
    ensures fresh(link)
    ensures Went(Tried(attempt, link, 0, old(target.destination), target.destination, None, None), round, false, path)
  {
    hide IsFileOf, Went;
    var over := new Link();
    var source := OpenSource(round.version);
    attempt := AttemptWrite(over, target, source, path, TimeOf(round.version), round.resolves);
    link := over;
    ghost var tried := Tried(attempt, link, 0, old(target.destination), target.destination, None, None);
    WentSo(tried, round, false, path, source);
  }

  datatype Options = Options(enabled: bool, minSize: nat, blockSize: nat)

  /** What decides, before anything is sent, that nothing will be: the file cannot be measured,
      or its signature is refused. */
  ghost predicate Stopped(options: Options, length: Option<nat>, held: Signature.Opened)
    reads if held.Readable? then {held.reader} else {}
  {
    options.enabled
    && (length.None?
        || (length.value >= options.minSize
            && (options.blockSize == 0 || held.Unreadable? || (held.Readable? && held.reader.failed))))
  }

  /** What decides for a patch: it is switched on, the file is worth it, and there is at least
      a block to build on. */
  ghost predicate Patches(options: Options, length: Option<nat>, held: Signature.Opened) {
    && options.enabled && length.Some? && length.value >= options.minSize
    && held.Readable? && |held.reader.content| >= options.blockSize > 0
  }

  /** Over any run of dropped links, resumed attempts and rewritten sources, the destination
      holds the original or exactly one of the versions attempted; and an acknowledged patch
      leaves the last of them. `length` is what measuring the source comes to, and `held` what
      the agent finds when it opens the file to describe it. */
  method PatchFile(target: Target, path: Path, options: Options, length: Option<nat>, held: Signature.Opened,
                   strong: Hash, full: Hash, rounds: seq<Round>)
    returns (done: Done, ghost course: seq<Tried>)
    requires CollisionFree(full) && options.blockSize < 0x1_0000_0000
    requires held.Absent? <==> target.destination.None?
    requires held.Readable? ==>
      && held.reader.Valid() && held.reader.at == 0 && !held.reader.failed
      && held.reader.content == target.destination.value.bytes
    modifies target, if held.Readable? then {held.reader} else {}
    ensures var stopped := Stopped(options, length, held);
      && (stopped ==> done.GaveUp? && course == [] && target.destination == old(target.destination))
      && (!stopped ==>
           && Course(course, rounds, Patches(options, length, held), path,
                     old(target.destination), target.destination)
           && EndedBy(done, course, rounds))
    ensures |course| <= |rounds| && OriginalOrMade(old(target.destination), target.destination, rounds, |course|)
    ensures done.Written? ==> course != [] && IsVersion(target.destination, rounds[|course| - 1].version)
    ensures forall t :: t in course ==> fresh(t.link)
  {
    hide IsVersion, Course, OriginalOrMade, EndedBy, Signature.Describes;
    course := [];
    CourseIsOriginal(target.destination, rounds);
    if options.enabled && length.None? {
      return GaveUp, [];
    }
    if !options.enabled || length.value < options.minSize {
      done, course := WriteFile(target, path, rounds);
      return;
    }
    var reply := Signature.Answer(held, options.blockSize, strong);
    if reply.Refused? {
      return GaveUp, [];
    }
    if held.Readable? {
      BlocksIff(reply.signature, held.reader.content, strong);
    }
    if reply.signature.blocks == [] {
      done, course := WriteFile(target, path, rounds);
      return;
    }
    done, course := PatchOnAndOn(target, path, reply.signature, strong, full, rounds);
  }

  lemma CourseIsOriginal(original: Option<Stored>, rounds: seq<Round>)
    ensures OriginalOrMade(original, original, rounds, 0)
  {
  }

  lemma BlocksIff(signature: Signature.Signature, content: Bytes, strong: Hash)
    requires Signature.Describes(signature, content, strong)
    ensures signature.blocks != [] <==> |content| >= signature.blockSize
  {
    if signature.blocks != [] {
      assert Signature.DescribesBlock(signature.blocks[0], content, signature.blockSize, 0, strong);
    }
  }

  /** Sends what the target lacks, again from what is there whenever the link drops. */
  method PatchOnAndOn(target: Target, path: Path, signature: Signature.Signature, strong: Hash, full: Hash,
                      rounds: seq<Round>)
    returns (done: Done, ghost course: seq<Tried>)
    requires CollisionFree(full) && 0 < signature.blockSize < 0x1_0000_0000
    modifies target
    ensures Course(course, rounds, true, path, old(target.destination), target.destination)
    ensures |course| <= |rounds| && EndedBy(done, course, rounds)
    ensures OriginalOrMade(old(target.destination), target.destination, rounds, |course|)
    ensures done.Written? ==> course != [] && IsVersion(target.destination, rounds[|course| - 1].version)
    ensures forall t :: t in course ==> fresh(t.link)
  {
    hide IsVersion, Course, Went, OriginalOrMade, Follows;
    var resumeFrom := 0;
    course := [];
    NothingTried(rounds, true, path, target.destination);
    for n := 0 to |rounds|
      invariant |course| == n && Course(course, rounds, true, path, old(target.destination), target.destination)
      invariant course == [] ==> resumeFrom == 0
      invariant course != [] ==>
        && course[n - 1].attempt.LinkDown? && rounds[n - 1].restored
        && TakesUp(course[n - 1], resumeFrom, rounds[n - 1], target.destination)
      invariant forall t :: t in course ==> fresh(t.link) && (t.checked.Some? ==> fresh(t.checked.value))
    {
      ghost var before := target.destination;
      ghost var tried;
      var attempt;
      attempt, resumeFrom, tried := PatchOnce(target, path, rounds[n], signature, resumeFrom, strong, full);
      if course != [] {
        TakenUp(course[n - 1], tried, rounds[n - 1], before);
      }
      OneMoreTried(course, tried, rounds, true, path, old(target.destination));
      course := course + [tried];
      if attempt.Acknowledged? || attempt.Declined? || !rounds[n].restored {
        CourseMakes(course, rounds, true, path, old(target.destination), target.destination, n + 1);
        LastWent(course, rounds, true, path, old(target.destination), target.destination);
        return if attempt.Acknowledged? then Written else GaveUp, course;
      }
    }
    CourseMakes(course, rounds, true, path, old(target.destination), target.destination, |rounds|);
    CourseEnds(course, rounds, true, path, old(target.destination), target.destination);
    return StillTrying, course;
  }

  /** Where to go on after an attempt whose link was lost, the file being as it left it. */
  ghost predicate TakesUp(tried: Tried, from: nat, round: Round, now: Option<Stored>)
    reads if tried.checked.Some? then {tried.checked.value} else {}
  {
    && tried.after == now
    && (tried.checked.Some? <==> round.current.Some?)
    && (tried.checked.Some? ==> tried.checked.value.content == round.current.value.content)
    && from == ResumePoint(tried, round.answered)
  }

  lemma TakenUp(tried: Tried, next: Tried, round: Round, before: Option<Stored>)
    requires tried.attempt.LinkDown? && round.restored && TakesUp(tried, next.from, round, before)
    requires next.before == before
    ensures Follows(tried, next, round, true)
  {
  }

  /** One attempt in its round, over a link of its own; and, should that link be lost and
      rebuilt, the point to resume from. */
  method PatchOnce(target: Target, path: Path, round: Round, signature: Signature.Signature, resumeFrom: nat,
                   strong: Hash, full: Hash)
    returns (attempt: Attempt, next: nat, ghost tried: Tried)
    requires CollisionFree(full) && 0 < signature.blockSize < 0x1_0000_0000
    modifies target
    ensures fresh(tried.link) && (tried.checked.Some? ==> fresh(tried.checked.value))
    ensures tried.attempt == attempt && tried.from == resumeFrom
    ensures tried.before == old(target.destination) && tried.after == target.destination
    ensures Went(tried, round, true, path)
    ensures attempt.LinkDown? && round.restored ==> TakesUp(tried, next, round, target.destination)
  {
    hide IsPatchOf, Went, WellFounded;
    var link := new Link();
    var source := OpenSource(round.version);
    ghost var tokens;
    attempt, tokens := AttemptPatch(link, target, source, path, TimeOf(round.version), round.resolves,
                                    signature, resumeFrom, strong, full);
    tried := Tried(attempt, link, resumeFrom, old(target.destination), target.destination, target.temporary, None);
    next := 0;
    WentSo(tried, round, true, path, source);
    if attempt.LinkDown? && round.restored {
      var now := OpenSource(round.current);
      next := ResumableFrom(target, now, round.answered, full);
      tried := tried.(checked := if now == null then None else Some(now));
      WentSo(tried, round, true, path, source);
    }
  }
}
