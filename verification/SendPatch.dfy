/** What the client puts on the link for a delta transfer: the tokens of a scan, less
    what a resume leaves out. */
module SendPatch {
  import opened Basics
  import opened Frames
  import opened GreedyScan
  import opened Matcher
  import opened Reader
  import opened Rolling
  import Signature
  import opened Tokens

  /** The bytes of the rebuilt file a stream stands for. */
  function Span(tokens: seq<Token>): nat {
    if tokens == [] then 0 else Span(tokens[..|tokens| - 1]) + tokens[|tokens| - 1].Length()
  }

  /** A token without its first `skip` bytes. */
  function Trim(token: Token, skip: nat): Token
    requires skip <= token.Length()
  {
    match token
    case Copy(offset, len) => Copy(offset + skip, len - skip)
    case Literal(bytes) => Literal(bytes[skip..])
    case other => other
  }

  /** What is sent for a token that starts at byte `start` of the rebuilt file. */
  function Kept(token: Token, start: nat, resumeFrom: nat): seq<Token> {
    if start + token.Length() <= resumeFrom then []
    else if start < resumeFrom then [Trim(token, resumeFrom - start)]
    else [token]
  }

  /** The stream sent when `resumeFrom` bytes are already on the target. */
  function Resumed(tokens: seq<Token>, resumeFrom: nat): seq<Token> {
    if tokens == [] then []
    else
      var n := |tokens| - 1;
      Resumed(tokens[..n], resumeFrom) + Kept(tokens[n], Span(tokens[..n]), resumeFrom)
  }

  function LiteralBytes(tokens: seq<Token>): nat {
    if tokens == [] then 0
    else
      var n := |tokens| - 1;
      LiteralBytes(tokens[..n]) + if tokens[n].Literal? then |tokens[n].bytes| else 0
  }

  // ---------------------------------------------------------------------------
  // Resuming rebuilds the rest of the source
  // ---------------------------------------------------------------------------

  lemma {:induction false} SpanIsLength(tokens: seq<Token>, existing: Bytes)
    requires Rebuild(tokens, existing).Some?
    ensures |Rebuild(tokens, existing).value| == Span(tokens)
  {
    if tokens != [] {
      SpanIsLength(tokens[..|tokens| - 1], existing);
    }
  }

  lemma TrimProduces(token: Token, skip: nat, existing: Bytes)
    requires skip <= token.Length() && token.Produce(existing).Some?
    ensures Trim(token, skip).Produce(existing) == Some(token.Produce(existing).value[skip..])
  {
  }

  /** The tokens sent for any resume point rebuild exactly the bytes from there on,
      even when the point falls inside a copy or a literal. */
  lemma {:induction false} ResumedRebuilds(tokens: seq<Token>, resumeFrom: nat, existing: Bytes)
    requires Rebuild(tokens, existing).Some?
    ensures var whole := Rebuild(tokens, existing).value;
            Rebuild(Resumed(tokens, resumeFrom), existing) == Some(whole[Min(resumeFrom, |whole|)..])
  {
    var n := |tokens| - 1;
    if n >= 0 {
      var before, last := tokens[..n], tokens[n];
      ResumedRebuilds(before, resumeFrom, existing);
      SpanIsLength(before, existing);
      var front, piece := Rebuild(before, existing).value, last.Produce(existing).value;
      var kept := Kept(last, |front|, resumeFrom);
      KeptProduces(last, |front|, resumeFrom, existing);
      RebuildConcat(Resumed(before, resumeFrom), kept, existing);
      CutOfJoin(front, piece, resumeFrom);
    }
  }

  lemma KeptProduces(token: Token, start: nat, resumeFrom: nat, existing: Bytes)
    requires token.Produce(existing).Some?
    ensures var piece := token.Produce(existing).value;
            Rebuild(Kept(token, start, resumeFrom), existing)
              == Some(piece[Min(if resumeFrom < start then 0 else resumeFrom - start, |piece|)..])
  {
    var piece := token.Produce(existing).value;
    if start + token.Length() <= resumeFrom {
      assert piece[|piece|..] == [];
    } else if start < resumeFrom {
      TrimProduces(token, resumeFrom - start, existing);
      OneTokenRebuilds(Trim(token, resumeFrom - start), existing);
    } else {
      OneTokenRebuilds(token, existing);
    }
  }

  lemma OneTokenRebuilds(token: Token, existing: Bytes)
    ensures Rebuild([token], existing) == token.Produce(existing)
  {
    RebuildOneMore([], token, existing);
    assert forall bytes: Bytes :: [] + bytes == bytes;
  }

  lemma CutOfJoin(front: Bytes, back: Bytes, at: nat)
    ensures (front + back)[Min(at, |front + back|)..]
         == front[Min(at, |front|)..] + back[Min(if at < |front| then 0 else at - |front|, |back|)..]
  {
  }

  /** The bytes the agent kept, followed by what the stream rebuilds, are the whole
      source. */
  lemma PrefixAndStreamAreTheSource(tokens: seq<Token>, source: Bytes, resumeFrom: nat, existing: Bytes)
    requires Rebuild(tokens, existing) == Some(source) && resumeFrom <= |source|
    ensures Plus(Some(source[..resumeFrom]), Rebuild(Resumed(tokens, resumeFrom), existing)) == Some(source)
  {
    ResumedRebuilds(tokens, resumeFrom, existing);
    assert source[..resumeFrom] + source[resumeFrom..] == source;
  }

  /** Transfer frames, none of which ends the transfer. */
  ghost predicate Streaming(frames: seq<Frame>) {
    forall i :: 0 <= i < |frames| ==> frames[i].Tok? && !frames[i].token.Ends()
  }

  /** A transfer given up by its sender. */
  ghost predicate GivenUp(frames: seq<Frame>) {
    frames != [] && frames[|frames| - 1] == Tok(Abort) && Streaming(frames[..|frames| - 1])
  }

  /** The frames a completed scan of `source` puts on the link after the request. */
  ghost predicate IsPatchOf(frames: seq<Frame>, tokens: seq<Token>, source: Bytes, mtime: int,
                            signature: Signature.Signature, resumeFrom: nat, strong: Hash, full: Hash)
    requires signature.blockSize > 0
  {
    && Joined(tokens) == Scan(source, signature.blockSize, BySignature(signature, strong))
    && Streaming(Toks(Resumed(tokens, resumeFrom)))
    && frames == Toks(Resumed(tokens, resumeFrom)) + [Tok(Commit(mtime, full(source)))]
  }

  /** What may be on the link, as a stream: an abort and a commit end it, and nothing else
      does. */
  lemma EndsIff(frames: seq<Frame>)
    ensures Streaming(frames) ==> IsStream(frames, true) && !IsWholeStream(frames, true)
    ensures GivenUp(frames) ==> IsStream(frames, true) && IsWholeStream(frames, true)
  {
    if GivenUp(frames) {
      assert forall i :: 0 <= i < |frames| - 1 ==> frames[i] == frames[..|frames| - 1][i];
    }
  }

  lemma CommitEnds(tokens: seq<Token>, source: Bytes, mtime: int, signature: Signature.Signature,
                   resumeFrom: nat, strong: Hash, full: Hash)
    requires signature.blockSize > 0
    requires Joined(tokens) == Scan(source, signature.blockSize, BySignature(signature, strong))
    requires Streaming(Toks(Resumed(tokens, resumeFrom)))
    ensures IsPatchOf(Toks(Resumed(tokens, resumeFrom)) + [Tok(Commit(mtime, full(source)))],
                      tokens, source, mtime, signature, resumeFrom, strong, full)
  {
    hide Joined, Scan, BySignature, Resumed, Streaming, Toks;
  }

  lemma PatchEnds(frames: seq<Frame>, tokens: seq<Token>, source: Bytes, mtime: int, signature: Signature.Signature,
                  resumeFrom: nat, strong: Hash, full: Hash)
    requires signature.blockSize > 0
    requires IsPatchOf(frames, tokens, source, mtime, signature, resumeFrom, strong, full)
    ensures IsStream(frames, true) && IsWholeStream(frames, true)
  {
    hide Joined, Scan, BySignature, Resumed, Toks;
    assert forall i :: 0 <= i < |frames| - 1 ==> frames[i] == Toks(Resumed(tokens, resumeFrom))[i];
  }

  lemma AbortEnds(stream: seq<Frame>)
    requires Streaming(stream)
    ensures GivenUp(stream + [Tok(Abort)])
  {
    assert (stream + [Tok(Abort)])[..|stream|] == stream;
  }

  lemma NothingSent(resumeFrom: nat)
    ensures Span([]) == 0 && Resumed([], resumeFrom) == [] && LiteralBytes([]) == 0
    ensures Toks([]) == [] && Streaming([])
  {
  }

  lemma OneMoreSent(tokens: seq<Token>, token: Token, resumeFrom: nat)
    requires Streaming(Toks(Resumed(tokens, resumeFrom))) && !token.Ends()
    ensures Span(tokens + [token]) == Span(tokens) + token.Length()
    ensures Resumed(tokens + [token], resumeFrom) ==
      var kept := Kept(token, Span(tokens), resumeFrom);
      if kept == [] then Resumed(tokens, resumeFrom) else Resumed(tokens, resumeFrom) + [kept[0]]
    ensures var kept := Kept(token, Span(tokens), resumeFrom);
            && (kept != [] ==> kept == [kept[0]])
            && Toks(Resumed(tokens + [token], resumeFrom))
               == Toks(Resumed(tokens, resumeFrom)) + if kept == [] then [] else [Tok(kept[0])]
    ensures Streaming(Toks(Resumed(tokens + [token], resumeFrom)))
  {
    hide Kept;
    var kept := Kept(token, Span(tokens), resumeFrom);
    AtMostOneKept(token, Span(tokens), resumeFrom);
    assert (tokens + [token])[..|tokens|] == tokens;
    var all := Resumed(tokens + [token], resumeFrom);
    assert all == if kept == [] then Resumed(tokens, resumeFrom) else Resumed(tokens, resumeFrom) + [kept[0]];
    assert Toks(all) == Toks(Resumed(tokens, resumeFrom)) + if kept == [] then [] else [Tok(kept[0])];
  }

  lemma AtMostOneKept(token: Token, start: nat, resumeFrom: nat)
    ensures var kept := Kept(token, start, resumeFrom);
            kept == [] || (kept == [kept[0]] && (kept[0].Ends() <==> token.Ends()))
  {
  }

  lemma OneMoreLiteral(tokens: seq<Token>, token: Token)
    ensures LiteralBytes(tokens + [token]) == LiteralBytes(tokens) + if token.Literal? then |token.bytes| else 0
  {
    assert (tokens + [token])[..|tokens|] == tokens;
  }

  // ---------------------------------------------------------------------------
  // Sending
  // ---------------------------------------------------------------------------

  datatype Scanned = ToTheEnd | ReadFailed | LinkFailed

  /** Pulls tokens and sends what the resume point leaves of each. */
  method Stream(link: Link, matcher: Matcher, resumeFrom: nat)
    returns (scanned: Scanned, literalBytes: nat, ghost tokens: seq<Token>)
    requires matcher.Valid() && matcher.emitted == [] && matcher.rolling == null
    modifies link, matcher, matcher.reader, matcher.scratch
    ensures Streaming(Toks(Resumed(tokens, resumeFrom)))
    ensures link.sent == old(link.sent) + Toks(Resumed(tokens, resumeFrom))
    ensures link.dropped == (old(link.dropped) || scanned.LinkFailed?)
    ensures matcher.reader.failed == (old(matcher.reader.failed) || scanned.ReadFailed?)
    ensures literalBytes == LiteralBytes(Resumed(tokens, resumeFrom))
    ensures matcher.Queued() && tokens == matcher.Delivered()
    ensures Begins(Joined(tokens), Scan(matcher.reader.content, matcher.blockSize, matcher.Lookup()))
    ensures scanned.ToTheEnd? ==>
      && Joined(tokens) == Scan(matcher.reader.content, matcher.blockSize, matcher.Lookup())
      && matcher.hashed == matcher.reader.content
  {
    hide ScanFrom, Scan, First, Sized, OnCourseAt, Joined, Streaming, Span, Resumed, LiteralBytes, Toks, BySignature;
    hide Push, View, Indexes, Trim, Words.Describe, Begins;
    literalBytes, tokens := 0, [];
    var produced: nat := 0;
    NothingSent(resumeFrom);
    while true
      invariant matcher.rolling != null ==> fresh(matcher.rolling)
      invariant matcher.Valid() && tokens == matcher.Delivered()
      invariant produced == Span(tokens) && literalBytes == LiteralBytes(Resumed(tokens, resumeFrom))
      invariant link.sent == old(link.sent) + Toks(Resumed(tokens, resumeFrom))
      invariant link.dropped == old(link.dropped) && matcher.reader.failed == old(matcher.reader.failed)
      invariant Streaming(Toks(Resumed(tokens, resumeFrom)))
      decreases |matcher.reader.content| - matcher.Passed(), !matcher.finished, |matcher.ready|
    {
      var next := matcher.NextToken();
      matcher.DeliveredBegins();
      if next.Failure? {
        return ReadFailed, literalBytes, tokens;
      }
      if next.value.None? {
        matcher.WholeScan();
        return ToTheEnd, literalBytes, tokens;
      }
      var token := next.value.value;
      var outcome, literal := SendToken(link, token, produced, resumeFrom, tokens, old(link.sent));
      produced, literalBytes := produced + token.Length(), literalBytes + literal;
      tokens := tokens + [token];
      if outcome.Fail? {
        return LinkFailed, literalBytes, tokens;
      }
    }
  }

  /** Sends what the resume point leaves of the token after `before`, if anything. */
  method SendToken(link: Link, token: Token, start: nat, resumeFrom: nat,
                   ghost before: seq<Token>, ghost earlier: seq<Frame>)
    returns (outcome: Outcome, literal: nat)
    requires start == Span(before) && !token.Ends() && Streaming(Toks(Resumed(before, resumeFrom)))
    requires link.sent == earlier + Toks(Resumed(before, resumeFrom))
    modifies link
    ensures link.dropped == (old(link.dropped) || outcome.Fail?)
    ensures var more := before + [token];
      && Span(more) == start + token.Length() && Streaming(Toks(Resumed(more, resumeFrom)))
      && link.sent == earlier + Toks(Resumed(more, resumeFrom))
      && LiteralBytes(Resumed(more, resumeFrom)) == LiteralBytes(Resumed(before, resumeFrom)) + literal
  {
    hide Streaming, Span, Resumed, LiteralBytes, Toks;
    OneMoreSent(before, token, resumeFrom);
    if start + token.Length() <= resumeFrom {
      return Pass, 0;
    }
    var kept := if start < resumeFrom then Trim(token, resumeFrom - start) else token;
    OneMoreLiteral(Resumed(before, resumeFrom), kept);
    literal := if kept.Literal? then |kept.bytes| else 0;
    outcome := link.Write(Tok(kept));
  }

  /** What each way out leaves on the link after the request, and its cause. Always it is
      what the resume point leaves of the beginning of the scan, of all of it unless a read
      or the link failed, with at most the frame that ends it. */
  ghost predicate Leaves(sent: Sent, frames: seq<Frame>, literalBytes: nat, tokens: seq<Token>, source: Bytes,
                         failed: bool, mtime: Option<int>, signature: Signature.Signature, resumeFrom: nat,
                         strong: Hash, full: Hash)
    requires signature.blockSize > 0
  {
    var stream := Toks(Resumed(tokens, resumeFrom));
    var scan := Scan(source, signature.blockSize, BySignature(signature, strong));
    && Streaming(stream) && Begins(Joined(tokens), scan) && literalBytes == LiteralBytes(Resumed(tokens, resumeFrom))
    && match sent
       case Unopened => false
       case Committed =>
         && !failed && mtime.Some?
         && IsPatchOf(frames, tokens, source, mtime.value, signature, resumeFrom, strong, full)
       case Aborted => failed && frames == stream + [Tok(Abort)]
       case Unfinished => !failed && mtime.None? && Joined(tokens) == scan && frames == stream
       case Dropped =>
         || frames == stream || (failed && frames == stream + [Tok(Abort)])
         || (!failed && mtime.Some?
             && IsPatchOf(frames, tokens, source, mtime.value, signature, resumeFrom, strong, full))
  }

  /** What is left is a finished patch, or one given up, or one broken off. */
  lemma LeavesOneOf(sent: Sent, frames: seq<Frame>, literalBytes: nat, tokens: seq<Token>, source: Bytes,
                    failed: bool, mtime: Option<int>, signature: Signature.Signature, resumeFrom: nat,
                    strong: Hash, full: Hash)
    requires signature.blockSize > 0
    requires Leaves(sent, frames, literalBytes, tokens, source, failed, mtime, signature, resumeFrom, strong, full)
    ensures || Streaming(frames) || GivenUp(frames)
            || (mtime.Some? && IsPatchOf(frames, tokens, source, mtime.value, signature, resumeFrom, strong, full))
    ensures sent.Aborted? ==> GivenUp(frames)
    ensures sent.Unfinished? ==> Streaming(frames)
  {
    hide Streaming, GivenUp, IsPatchOf, Resumed, LiteralBytes, Toks, Joined, Scan, BySignature, Begins;
    AbortEnds(Toks(Resumed(tokens, resumeFrom)));
  }

  /** The stream is all there is, but for a frame that ends it. */
  lemma LeavesStream(sent: Sent, frames: seq<Frame>, literalBytes: nat, tokens: seq<Token>, source: Bytes,
                     failed: bool, mtime: Option<int>, signature: Signature.Signature, resumeFrom: nat,
                     strong: Hash, full: Hash)
    requires signature.blockSize > 0
    requires Leaves(sent, frames, literalBytes, tokens, source, failed, mtime, signature, resumeFrom, strong, full)
    ensures var stream := Toks(Resumed(tokens, resumeFrom));
      && Streaming(stream) && stream <= frames && |frames| <= |stream| + 1
      && (|frames| > |stream| ==> frames[|stream|].Tok? && frames[|stream|].Ends())
    ensures Begins(Joined(tokens), Scan(source, signature.blockSize, BySignature(signature, strong)))
  {
    hide Streaming, Resumed, LiteralBytes, Toks, Joined, Scan, BySignature, Begins;
  }

  lemma LeavesOf(sent: Sent, scanned: Scanned, up: bool, tokens: seq<Token>, literalBytes: nat, source: Bytes,
                 mtime: Option<int>, signature: Signature.Signature, resumeFrom: nat, strong: Hash, full: Hash)
    requires signature.blockSize > 0
    requires Streaming(Toks(Resumed(tokens, resumeFrom))) && literalBytes == LiteralBytes(Resumed(tokens, resumeFrom))
    requires Begins(Joined(tokens), Scan(source, signature.blockSize, BySignature(signature, strong)))
    requires scanned.ToTheEnd? ==> Joined(tokens) == Scan(source, signature.blockSize, BySignature(signature, strong))
    requires sent == EndOf(scanned, up, mtime) && (scanned.LinkFailed? ==> !up)
    ensures Leaves(sent, Ended(Toks(Resumed(tokens, resumeFrom)), scanned, mtime, full(source)), literalBytes, tokens,
                   source, scanned.ReadFailed?, mtime, signature, resumeFrom, strong, full)
  {
    hide Joined, Scan, BySignature, Resumed, Toks, LiteralBytes, Streaming, GivenUp, IsPatchOf, Begins;
    if scanned.ToTheEnd? && mtime.Some? {
      CommitEnds(tokens, source, mtime.value, signature, resumeFrom, strong, full);
    }
  }

  /** On a link that held, the exchange was ended exactly when the source could not be read
      to its end, or could still be stat'd when it had been. */
  lemma EndedUnlessUnfinished(sent: Sent, frames: seq<Frame>, literalBytes: nat, tokens: seq<Token>, source: Bytes,
                              failed: bool, mtime: Option<int>, signature: Signature.Signature, resumeFrom: nat,
                              strong: Hash, full: Hash)
    requires signature.blockSize > 0 && !sent.Dropped?
    requires Leaves(sent, frames, literalBytes, tokens, source, failed, mtime, signature, resumeFrom, strong, full)
    ensures IsStream(frames, true)
    ensures IsWholeStream(frames, true) <==> failed || mtime.Some?
  {
    hide Streaming, GivenUp, IsPatchOf, IsStream, IsWholeStream, Resumed, LiteralBytes, Toks, Joined, Scan;
    hide BySignature, Begins;
    LeavesOneOf(sent, frames, literalBytes, tokens, source, failed, mtime, signature, resumeFrom, strong, full);
    EndsIff(frames);
    if sent.Committed? {
      PatchEnds(frames, tokens, source, mtime.value, signature, resumeFrom, strong, full);
    }
  }

  /** `source` hands over what the reads of this scan deliver, whatever happens to the
      file meanwhile, and is null if it could not be opened; there is no `mtime` if the
      final stat failed. Every way out is stated by its cause, and by the frames it
      leaves on the link. */
  method SendPatch(link: Link, source: Reader?, path: Path, mtime: Option<int>, signature: Signature.Signature,
                   resumeFrom: nat, strong: Hash, full: Hash)
    returns (sent: Sent, literalBytes: nat, ghost tokens: seq<Token>)
    requires 0 < signature.blockSize < 0x1_0000_0000
    requires link.sent == [] && !link.dropped
    requires source != null ==> source.Valid() && source.at == 0 && !source.failed
    modifies link, source
    ensures sent.Unopened? <==> source == null
    ensures sent.Unopened? ==> link.sent == []
    ensures sent.Dropped? <==> link.dropped
    ensures source != null ==>
      && link.sent != [] && link.sent[0] == Req(PatchFile(path, resumeFrom))
      && Leaves(sent, link.sent[1..], literalBytes, tokens, source.content, source.failed, mtime,
                signature, resumeFrom, strong, full)
    ensures source != null && !link.dropped ==>
      && IsStream(link.sent[1..], true)
      && (IsWholeStream(link.sent[1..], true) <==> source.failed || mtime.Some?)
  {
    hide ScanFrom, Scan, First, Sized, OnCourseAt, Joined, Span, Resumed, LiteralBytes, Toks, BySignature;
    hide Indexes, ListsOnly, IsStream, IsWholeStream, View, Push, Words.Describe, Streaming, GivenUp, IsPatchOf, Leaves;
    hide Begins;
    if source == null {
      return Unopened, 0, [];
    }
    var outcome := link.Write(Req(PatchFile(path, resumeFrom)));
    if outcome.Fail? {
      NothingLeft(source.content, source.failed, mtime, signature, resumeFrom, strong, full);
      assert link.sent[1..] == [];
      return Dropped, 0, [];
    }
    var matcher := new Matcher(source, signature, strong);
    var scanned;
    scanned, literalBytes, tokens := Stream(link, matcher, resumeFrom);
    ghost var stream := link.sent[1..];
    assert stream == Toks(Resumed(tokens, resumeFrom));
    sent := EndStream(link, scanned, mtime, full(matcher.hashed), stream);
    LeavesOf(sent, scanned, !link.dropped, tokens, literalBytes, source.content, mtime,
             signature, resumeFrom, strong, full);
    if !sent.Dropped? {
      EndedUnlessUnfinished(sent, link.sent[1..], literalBytes, tokens, source.content, source.failed, mtime,
                            signature, resumeFrom, strong, full);
    }
  }

  lemma NothingLeft(source: Bytes, failed: bool, mtime: Option<int>, signature: Signature.Signature, resumeFrom: nat,
                    strong: Hash, full: Hash)
    requires signature.blockSize > 0
    ensures Leaves(Dropped, [], 0, [], source, failed, mtime, signature, resumeFrom, strong, full)
  {
    hide Scan, BySignature;
    NothingSent(resumeFrom);
  }

  /** A scan's frames with the one that ends them, if there is one to send: an abort if the
      source could not be read to its end, a commit if it could and has a time to commit. */
  function Ended(stream: seq<Frame>, scanned: Scanned, mtime: Option<int>, hash: Digest): seq<Frame> {
    if scanned.ReadFailed? then stream + [Tok(Abort)]
    else if scanned.ToTheEnd? && mtime.Some? then stream + [Tok(Commit(mtime.value, hash))]
    else stream
  }

  function EndOf(scanned: Scanned, up: bool, mtime: Option<int>): Sent {
    if !up then Dropped
    else if scanned.ReadFailed? then Aborted
    else if mtime.None? then Unfinished
    else Committed
  }

  method EndStream(link: Link, scanned: Scanned, mtime: Option<int>, hash: Digest, ghost stream: seq<Frame>)
    returns (sent: Sent)
    requires scanned.LinkFailed? <==> link.dropped
    requires link.sent != [] && link.sent[1..] == stream
    modifies link
    ensures link.sent != [] && link.sent[0] == old(link.sent[0])
    ensures sent == EndOf(scanned, !link.dropped, mtime) && (old(link.dropped) ==> link.dropped)
    ensures link.sent[1..] == Ended(stream, scanned, mtime, hash)
  {
    match scanned {
      case LinkFailed =>
        sent := Dropped;
      case ReadFailed =>
        var outcome := link.Write(Tok(Abort));
        sent := if outcome.Fail? then Dropped else Aborted;
      case ToTheEnd =>
        if mtime.None? {
          return Unfinished;
        }
        var outcome := link.Write(Tok(Commit(mtime.value, hash)));
        sent := if outcome.Fail? then Dropped else Committed;
    }
  }
}
