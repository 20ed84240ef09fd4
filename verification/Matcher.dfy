/** The streaming matcher: a window and a bounded read-ahead over the source, a
    rolling checksum carried across steps, and runs of matched blocks coalesced. */
module Matcher {
  import opened Basics
  import opened Reader
  import opened Rolling
  import opened Signature
  import opened Tokens
  import opened GreedyScan

  const READ_AHEAD: nat := 0x4_0000

  const LITERAL_FLUSH: nat := 0x4_0000

  datatype Run = Run(start: nat, len: nat)

  /** What has been produced so far, as one joined stream: the tokens made ready,
      then whichever of a run or a literal is still open. */
  ghost function View(emitted: seq<Token>, run: Option<Run>, literal: Bytes): seq<Token> {
    if run.Some? then Joined(emitted) + [Copy(run.value.start, run.value.len)]
    else if literal != [] then Push(Joined(emitted), Literal(literal))
    else Joined(emitted)
  }

  lemma FlushingRunKeepsView(emitted: seq<Token>, run: Run)
    ensures View(emitted + [Copy(run.start, run.len)], None, []) == View(emitted, Some(run), [])
  {
    JoinedOneMore(emitted, Copy(run.start, run.len));
  }

  lemma FlushingLiteralKeepsView(emitted: seq<Token>, literal: Bytes)
    requires literal != []
    ensures View(emitted + [Literal(literal)], None, []) == View(emitted, None, literal)
  {
    JoinedOneMore(emitted, Literal(literal));
  }

  lemma GrowingLiteral(emitted: seq<Token>, literal: Bytes, more: Bytes)
    requires more != []
    ensures View(emitted, None, literal + more) == Push(View(emitted, None, literal), Literal(more))
  {
    if literal == [] {
      assert literal + more == more;
    } else {
      PushAssociates(Joined(emitted), literal, more);
    }
  }

  /** The last token made ready is no copy, so a fresh run never abuts one. */
  ghost predicate NoOpenCopy(emitted: seq<Token>) {
    emitted != [] ==> emitted[|emitted| - 1].Literal?
  }

  lemma StartingRun(emitted: seq<Token>, blockSize: nat, i: nat)
    requires NoOpenCopy(emitted)
    ensures View(emitted, Some(Run(i * blockSize, blockSize)), []) == PushBlock(View(emitted, None, []), blockSize, i)
  {
  }

  lemma GrowingRun(emitted: seq<Token>, run: Run, blockSize: nat, i: nat)
    ensures PushBlock(View(emitted, Some(run), []), blockSize, i) ==
      if run.start + run.len == i * blockSize then View(emitted, Some(Run(run.start, run.len + blockSize)), [])
      else View(emitted + [Copy(run.start, run.len)], Some(Run(i * blockSize, blockSize)), [])
  {
    JoinedOneMore(emitted, Copy(run.start, run.len));
  }

  // One turn of the scan, unfolded once.

  lemma MatchedTurn(tokens: seq<Token>, source: Bytes, at: nat, blockSize: nat, lookup: Lookup, i: nat)
    requires blockSize > 0 && at + blockSize <= |source| && lookup(Window(source, at, blockSize)) == Some(i)
    ensures ScanFrom(PushBlock(tokens, blockSize, i), source, at + blockSize, blockSize, lookup)
         == ScanFrom(tokens, source, at, blockSize, lookup)
  {
  }

  lemma UnmatchedTurn(tokens: seq<Token>, source: Bytes, at: nat, blockSize: nat, lookup: Lookup)
    requires blockSize > 0 && at + blockSize <= |source| && lookup(Window(source, at, blockSize)) == None
    ensures ScanFrom(Push(tokens, Literal([source[at]])), source, at + 1, blockSize, lookup)
         == ScanFrom(tokens, source, at, blockSize, lookup)
  {
  }

  lemma LastTurn(tokens: seq<Token>, source: Bytes, at: nat, blockSize: nat, lookup: Lookup)
    requires blockSize > 0 && at <= |source| < at + blockSize
    ensures ScanFrom(tokens, source, at, blockSize, lookup)
         == if at < |source| then Push(tokens, Literal(source[at..])) else tokens
  {
  }

  /** Each list holds, in order, exactly the blocks with that weak checksum. */
  ghost predicate Indexes(candidates: map<nat, seq<nat>>, blocks: seq<BlockSig>) {
    && (forall i: nat :: i < |blocks| ==> blocks[i].weak in candidates && i in candidates[blocks[i].weak])
    && (forall weak :: weak in candidates ==> ListsOnly(candidates[weak], blocks, weak))
  }

  ghost predicate ListsOnly(list: seq<nat>, blocks: seq<BlockSig>, weak: nat) {
    && (forall k :: 0 <= k < |list| ==> list[k] < |blocks| && blocks[list[k]].weak == weak)
    && (forall j, k :: 0 <= j < k < |list| ==> list[j] < list[k])
  }

  ghost predicate SizedToken(token: Token, limit: nat) {
    token.Copy? || (token.Literal? && 0 < |token.bytes| <= limit)
  }

  /** Only copies and literals, and no literal empty or oversized. */
  ghost predicate Sized(tokens: seq<Token>, limit: nat) {
    forall k :: 0 <= k < |tokens| ==> SizedToken(tokens[k], limit)
  }

  lemma SizedAt(tokens: seq<Token>, k: nat, limit: nat)
    requires Sized(tokens, limit) && k < |tokens|
    ensures SizedToken(tokens[k], limit)
  {
  }

  lemma SizedOneMore(tokens: seq<Token>, token: Token, limit: nat)
    requires Sized(tokens, limit) && SizedToken(token, limit)
    ensures Sized(tokens + [token], limit)
  {
  }

  /** Joined, what is out and what is open is exactly the greedy scan so far. */
  ghost predicate OnCourseAt(source: Bytes, at: int, blockSize: nat, lookup: Lookup,
                             emitted: seq<Token>, run: Option<Run>, literal: Bytes, finished: bool)
  {
    && 0 < blockSize && 0 <= at <= |source|
    && (run.Some? ==> literal == [])
    && (run.None? && literal == [] && !finished ==> NoOpenCopy(emitted))
    && ScanFrom(View(emitted, run, literal), source, at, blockSize, lookup) == Scan(source, blockSize, lookup)
  }

  /** What is out begins the scan: the token that may still grow is the open one, or a
      literal. */
  lemma OnCourseBegins(source: Bytes, at: int, blockSize: nat, lookup: Lookup,
                       emitted: seq<Token>, run: Option<Run>, literal: Bytes, finished: bool)
    requires OnCourseAt(source, at, blockSize, lookup, emitted, run, literal, finished)
    requires finished ==> at == |source| && run.None? && literal == []
    ensures Begins(Joined(emitted), Scan(source, blockSize, lookup))
  {
    hide Push, Joined, Grows, Begins;
    ScanGrows(View(emitted, run, literal), source, at, blockSize, lookup);
    OpenBegins(emitted, run, literal, Scan(source, blockSize, lookup), finished);
  }

  lemma OpenBegins(emitted: seq<Token>, run: Option<Run>, literal: Bytes, scan: seq<Token>, finished: bool)
    requires Grows(View(emitted, run, literal), scan)
    requires run.None? && literal == [] ==> NoOpenCopy(emitted) || (finished && Joined(emitted) == scan)
    ensures Begins(Joined(emitted), scan)
  {
    hide Begins, Grows, Joined, Push;
    if run.Some? {
      AllButLastBegins(Joined(emitted), Copy(run.value.start, run.value.len), scan);
    } else if literal != [] {
      PushedBegins(Joined(emitted), literal, scan);
    } else if Joined(emitted) == scan {
      PrefixBegins(scan, |scan|);
      assert scan[..|scan|] == scan;
    } else {
      LastIsLiteral(emitted);
      LiteralBegins(Joined(emitted), scan);
    }
  }

  lemma LastIsLiteral(emitted: seq<Token>)
    requires NoOpenCopy(emitted)
    ensures emitted != [] ==> Joined(emitted) != [] && Joined(emitted)[|Joined(emitted)| - 1].Literal?
    ensures emitted == [] ==> Joined(emitted) == []
  {
  }

  lemma AllButLastBegins(tokens: seq<Token>, open: Token, scan: seq<Token>)
    requires Grows(tokens + [open], scan)
    ensures Begins(tokens, scan)
  {
    assert forall i :: 0 <= i < |tokens| ==> (tokens + [open])[i] == tokens[i];
  }

  lemma LiteralBegins(tokens: seq<Token>, scan: seq<Token>)
    requires Grows(tokens, scan) && (tokens != [] ==> tokens[|tokens| - 1].Literal?)
    ensures Begins(tokens, scan)
  {
  }

  lemma PushedBegins(tokens: seq<Token>, literal: Bytes, scan: seq<Token>)
    requires Grows(Push(tokens, Literal(literal)), scan)
    ensures Begins(tokens, scan)
  {
    var pushed := Push(tokens, Literal(literal));
    PushBegins(tokens, Literal(literal));
    LiteralBegins(pushed, scan);
    BeginsOn(tokens, pushed, scan);
  }

  /** The buffer is the stretch of the source up to where it has been read, all of which
      has been hashed. */
  ghost predicate BufferedAt(source: Bytes, at: nat, blockSize: nat, room: nat,
                             buffer: Bytes, pos: nat, hashed: Bytes, eof: bool)
  {
    && room == READ_AHEAD && 0 < blockSize < 0x1_0000_0000
    && pos <= |buffer| <= at <= |source|
    && |buffer| <= blockSize + 3 * READ_AHEAD - 1
    && buffer == source[at - |buffer|..at]
    && hashed == source[..at]
    && (eof ==> at == |source|)
  }

  lemma SliceHeld(source: Bytes, from: nat, to: nat, buffer: Bytes, i: nat, j: nat)
    requires from <= to <= |source| && buffer == source[from..to] && i <= j <= |buffer|
    ensures source[from + i..from + j] == buffer[i..j]
  {
    forall k | 0 <= k < j - i
      ensures buffer[i..j][k] == source[from + i..from + j][k]
    {
      assert buffer[i + k] == source[from + i + k];
    }
  }

  method IndexBlocks(blocks: seq<BlockSig>) returns (candidates: map<nat, seq<nat>>)
    ensures Indexes(candidates, blocks)
  {
    candidates := map[];
    for index := 0 to |blocks|
      invariant Indexes(candidates, blocks[..index])
    {
      hide Indexes;
      var weak := blocks[index].weak;
      var list := if weak in candidates then candidates[weak] else [];
      AddIndex(candidates, blocks, index, list);
      candidates := candidates[weak := list + [index]];
    }
    assert blocks[..|blocks|] == blocks;
  }

  lemma StartsOnCourse(source: Bytes, blockSize: nat, lookup: Lookup, limit: nat)
    requires 0 < blockSize
    ensures OnCourseAt(source, 0, blockSize, lookup, [], None, [], false)
    ensures Sized([], limit)
  {
    hide ScanFrom;
  }

  lemma StartsBuffered(source: Bytes, blockSize: nat)
    requires 0 < blockSize < 0x1_0000_0000
    ensures BufferedAt(source, 0, blockSize, READ_AHEAD, [], 0, [], false)
  {
  }

  class Matcher {
    const reader: Reader
    const strong: Hash
    const blocks: seq<BlockSig>
    const blockSize: nat
    /** What `Indexes` says of the blocks. */
    const candidates: map<nat, seq<nat>>
    const scratch: array<Byte>
    var buffer: Bytes
    var pos: nat
    var literal: Bytes
    var rolling: Rolling?
    var run: Option<Run>
    var ready: seq<Token>
    /** The bytes the whole-file hasher has taken in. */
    var hashed: Bytes
    var eof: bool
    var finished: bool
    /** Every token that ever became ready, in order. */
    ghost var emitted: seq<Token>

    /** How much of the source is behind the window. */
    ghost function Passed(): int
      reads `buffer, `pos, reader
    {
      reader.at - (|buffer| - pos)
    }

    ghost function Lookup(): Lookup {
      BySignature(Signature(blockSize, blocks), strong)
    }

    ghost predicate Buffered()
      reads `buffer, `pos, `hashed, `eof, reader
    {
      reader.Valid() && BufferedAt(reader.content, reader.at, blockSize, scratch.Length, buffer, pos, hashed, eof)
    }

    ghost predicate OnCourse()
      reads `buffer, `pos, `run, `literal, `emitted, `finished, reader
    {
      OnCourseAt(reader.content, Passed(), blockSize, Lookup(), emitted, run, literal, finished)
    }

    ghost predicate LiteralsBounded()
      reads `emitted
    {
      Sized(emitted, LITERAL_FLUSH + blockSize)
    }

    /** How much may be waiting in the open literal between steps. */
    ghost predicate OpenLiteralBounded()
      reads this
    {
      && |literal| <= LITERAL_FLUSH + 1
      && (|literal| == LITERAL_FLUSH + 1 ==> eof && |buffer| - pos < blockSize)
    }

    ghost predicate Queued()
      reads `ready, `emitted
    {
      |ready| <= |emitted| && ready == emitted[|emitted| - |ready|..]
    }

    ghost predicate RollingExact()
      requires Buffered()
      reads this, reader, rolling
    {
      rolling != null ==> InWindow(rolling)
    }

    /** What holds at every point of a step, as at its ends. */
    ghost predicate Core()
      reads `buffer, `pos, `hashed, `eof, `run, `literal, `ready, `emitted, `finished, reader
    {
      && Buffered()
      && OnCourse()
      && LiteralsBounded()
      && Queued()
      && Indexes(candidates, blocks)
    }

    ghost predicate Valid()
      reads this, reader, rolling
    {
      && Core()
      && OpenLiteralBounded()
      && RollingExact()
      && (finished ==> eof && pos == |buffer| && run.None? && literal == [])
    }

    /** The tokens the caller has been given so far. */
    ghost function Delivered(): seq<Token>
      requires Queued()
      reads `ready, `emitted
    {
      emitted[..|emitted| - |ready|]
    }

    /** Once the stream has ended, what was delivered is the whole greedy scan up to
        how its literals were cut, every byte was hashed, and no literal that went
        out was empty or longer than the flush limit plus one block. */
    lemma WholeScan()
      requires Valid() && finished && ready == []
      ensures Joined(Delivered()) == Scan(reader.content, blockSize, Lookup())
      ensures hashed == reader.content
      ensures Sized(Delivered(), LITERAL_FLUSH + blockSize)
    {
      hide Push, PushBlock, Joined, First, Indexes, ListsOnly, BySignature, Sized;
      AtEnd();
      assert emitted[..|emitted|] == emitted;
    }

    /** At any point, what was delivered begins the scan, up to how its literals were cut. */
    lemma DeliveredBegins()
      requires Valid()
      ensures Begins(Joined(Delivered()), Scan(reader.content, blockSize, Lookup()))
    {
      hide Push, PushBlock, Joined, First, Indexes, ListsOnly, BySignature, Sized, Begins, Scan, OnCourseAt;
      OnCourseBegins(reader.content, Passed(), blockSize, Lookup(), emitted, run, literal, finished);
      JoinedPrefixBegins(emitted, |emitted| - |ready|);
      BeginsOn(Joined(Delivered()), Joined(emitted), Scan(reader.content, blockSize, Lookup()));
    }

    /** A matcher over a fresh source. One signature reply holds far fewer than
        2^32 blocks, so an index always fits a `u32`. */
    constructor (reader: Reader, signature: Signature, strong: Hash)
      requires reader.Valid() && reader.at == 0
      requires signature.blockSize < 0x1_0000_0000
      ensures Valid() && this.reader == reader && this.strong == strong
      ensures blocks == signature.blocks
      ensures blockSize == if signature.blockSize == 0 then 1 else signature.blockSize
      ensures emitted == [] && ready == [] && fresh(scratch) && rolling == null
    {
      hide Indexes, ListsOnly, Scan, ScanFrom, Sized, BySignature, OnCourseAt, View, Push, Words.Describe, First;
      hide Matcher.Lookup, NoOpenCopy, BufferedAt;
      var candidates := IndexBlocks(signature.blocks);
      this.reader, this.strong, this.blocks := reader, strong, signature.blocks;
      blockSize := if signature.blockSize == 0 then 1 else signature.blockSize;
      this.candidates := candidates;
      scratch := new Byte[READ_AHEAD];
      buffer, pos, literal, rolling, run, ready, hashed := [], 0, [], null, None, [], [];
      eof, finished := false, false;
      emitted := [];
      new;
      StartsBuffered(reader.content, blockSize);
      StartsOnCourse(reader.content, blockSize, Lookup(), LITERAL_FLUSH + blockSize);
    }

    /** Each call delivers one more token of the scan, or finds that all were. */
    method NextToken() returns (r: Result<Option<Token>>)
      requires Valid()
      modifies this, reader, scratch, rolling
      ensures Valid() && (rolling != null ==> rolling == old(rolling) || fresh(rolling))
      ensures r.Success? && r.value.Some? ==>
        && Delivered() == old(Delivered()) + [r.value.value]
        && SizedToken(r.value.value, LITERAL_FLUSH + blockSize)
      ensures r.Success? && r.value.None? ==> Delivered() == old(Delivered()) && ready == [] && finished
      ensures r.Failure? ==> Delivered() == old(Delivered())
      ensures reader.failed == (old(reader.failed) || r.Failure?)
      ensures Passed() >= old(Passed()) && (old(finished) ==> finished)
      ensures r.Success? && r.value.Some? ==>
        Passed() > old(Passed()) || (finished && !old(finished)) || |ready| < old(|ready|)
    {
      hide ScanFrom, Push, PushBlock, Joined, View, First, Indexes, ListsOnly, BySignature, Sized, OnCourseAt;
      hide Words.Describe, Buffered;
      var outcome := ScanToReady();
      if outcome.Fail? {
        return Failure;
      }
      if ready != [] {
        var token := ready[0];
        SizedAt(emitted, |emitted| - |ready|, LITERAL_FLUSH + blockSize);
        ready := ready[1..];
        return Success(Some(token));
      }
      return Success(None);
    }

    /** Steps until a token is ready or the source is used up, delivering nothing. */
    method ScanToReady() returns (outcome: Outcome)
      requires Valid()
      modifies this, reader, scratch, rolling
      ensures Valid() && (rolling != null ==> rolling == old(rolling) || fresh(rolling))
      ensures Delivered() == old(Delivered()) && (old(ready) != [] ==> ready == old(ready))
      ensures reader.failed == (old(reader.failed) || outcome.Fail?)
      ensures outcome.Pass? ==> ready != [] || finished
      ensures Passed() >= old(Passed()) && (old(finished) ==> finished)
      ensures || Passed() > old(Passed()) || (finished && !old(finished))
              || (ready == old(ready) && finished == old(finished))
    {
      hide ScanFrom, Push, PushBlock, Joined, View, First, Indexes, ListsOnly, BySignature, Sized, OnCourseAt;
      hide Words.Describe, Buffered;
      PassedInside();
      while ready == [] && !finished
        invariant Valid() && (rolling != null ==> rolling == old(rolling) || fresh(rolling))
        invariant reader.failed == old(reader.failed)
        invariant old(ready) != [] ==> ready == old(ready)
        invariant old(Passed()) <= Passed() <= |reader.content| && (old(finished) ==> finished)
        invariant || Passed() > old(Passed()) || (finished && !old(finished))
                  || (ready == old(ready) && finished == old(finished))
        invariant Delivered() == old(Delivered())
        decreases |reader.content| - Passed(), !finished
      {
        outcome := Step();
        PassedInside();
        if outcome.Fail? {
          return;
        }
      }
      return Pass;
    }

    /** One advance of the scan: it keeps `Valid`, and unless a read fails it moves
        the window or finishes. */
    method Step() returns (outcome: Outcome)
      requires Valid() && ready == [] && !finished
      modifies this, reader, scratch, rolling
      ensures Valid() && (rolling != null ==> rolling == old(rolling) || fresh(rolling))
      ensures old(emitted) <= emitted && emitted[..|emitted| - |ready|] == old(emitted)
      ensures outcome.Pass? ==> finished || Passed() > old(Passed())
      ensures Passed() >= old(Passed())
      ensures outcome.Fail? ==> emitted == old(emitted) && ready == [] && !finished
      ensures reader.failed == (old(reader.failed) || outcome.Fail?)
    {
      hide ScanFrom, Push, PushBlock, Joined, View, First, Indexes, ListsOnly, BySignature, Sized, OnCourseAt;
      hide Words.Describe;
      ghost var before := buffer[pos..];
      assert rolling != null ==> before[..blockSize] == buffer[pos..pos + blockSize];
      outcome := Fill();
      if rolling != null {
        StillInWindow(before, rolling);
      }
      if outcome.Fail? {
        return;
      }
      if |buffer| - pos < blockSize {
        Finish();
        return;
      }
      var sliding := rolling;
      rolling := null;
      if sliding == null {
        sliding := new Rolling(buffer[pos..pos + blockSize]);
      }
      Slide(sliding);
    }

    /** With less than a block left of the source, the scan ends in one literal. */
    method Finish()
      requires Valid() && ready == [] && !finished
      requires eof && |buffer| - pos < blockSize
      modifies this
      ensures Valid() && finished && rolling == null && Passed() >= old(Passed())
      ensures old(emitted) <= emitted && emitted[..|emitted| - |ready|] == old(emitted)
    {
      hide ScanFrom, Push, PushBlock, Joined, View, First, Indexes, ListsOnly, BySignature, Sized, Buffered;
      hide InWindow, OnCourseAt;
      rolling := null;
      if pos < |buffer| {
        KeepTail();
      }
      AtEnd();
      CloseOut();
    }

    method CloseOut()
      requires Core() && |literal| <= LITERAL_FLUSH + blockSize
      modifies this`ready, this`emitted, this`run, this`literal, this`finished
      ensures Core() && finished && run.None? && literal == []
      ensures old(emitted) <= emitted && emitted[..|emitted| - |ready|] == old(emitted[..|emitted| - |ready|])
    {
      hide ScanFrom, Push, PushBlock, Joined, View, First, Indexes, ListsOnly, BySignature, Sized, Buffered;
      FlushRunKeepingView();
      FlushLiteralKeepingView();
      finished := true;
    }

    /** The remaining bytes join the literal, after any run. */
    method KeepTail()
      requires Core() && !finished && eof && pos < |buffer| < pos + blockSize
      modifies this`ready, this`emitted, this`run, this`literal, this`pos
      ensures Core() && run.None? && pos == |buffer|
      ensures literal == old(literal) + buffer[old(pos)..]
      ensures old(emitted) <= emitted && emitted[..|emitted| - |ready|] == old(emitted[..|emitted| - |ready|])
    {
      hide ScanFrom, Push, PushBlock, Joined, View, First, Indexes, ListsOnly, BySignature, Sized;
      LastTurn(View(emitted, run, literal), reader.content, Passed(), blockSize, Lookup());
      TailHeld();
      if literal == [] {
        FlushRunKeepingView();
      }
      GrowingLiteral(emitted, literal, buffer[pos..]);
      literal := literal + buffer[pos..];
      pos := |buffer|;
      LastTurn(View(emitted, run, literal), reader.content, Passed(), blockSize, Lookup());
    }

    method FlushRunKeepingView()
      requires Queued() && LiteralsBounded() && (run.Some? ==> literal == [])
      modifies this`ready, this`emitted, this`run
      ensures Queued() && LiteralsBounded() && run.None?
      ensures old(emitted) <= emitted && emitted[..|emitted| - |ready|] == old(emitted[..|emitted| - |ready|])
      ensures View(emitted, None, literal) == old(View(emitted, run, literal))
    {
      hide Sized, View;
      if run.Some? {
        FlushingRunKeepsView(emitted, run.value);
        SizedOneMore(emitted, Copy(run.value.start, run.value.len), LITERAL_FLUSH + blockSize);
      }
      FlushRun();
    }

    method FlushLiteralKeepingView()
      requires Queued() && LiteralsBounded() && (run.Some? ==> literal == [])
      requires |literal| <= LITERAL_FLUSH + blockSize
      modifies this`ready, this`emitted, this`literal
      ensures Queued() && LiteralsBounded() && literal == []
      ensures old(emitted) <= emitted && emitted[..|emitted| - |ready|] == old(emitted[..|emitted| - |ready|])
      ensures View(emitted, run, []) == old(View(emitted, run, literal))
      ensures old(literal) != [] ==> NoOpenCopy(emitted)
      ensures old(literal) == [] ==> emitted == old(emitted)
    {
      hide Sized, View;
      if literal != [] {
        FlushingLiteralKeepsView(emitted, literal);
        SizedOneMore(emitted, Literal(literal), LITERAL_FLUSH + blockSize);
      }
      FlushLiteral();
    }

    /** Keeps the scan on course up to a match, the end of the buffer, or a full
        literal, always moving the window. */
    method Slide(sliding: Rolling)
      requires Core() && ready == [] && !finished && rolling == null && |literal| <= LITERAL_FLUSH
      requires blockSize > 0 && (eof || |buffer| - pos >= blockSize + READ_AHEAD)
      requires InWindow(sliding)
      modifies this, sliding
      ensures Valid() && !finished && (rolling == null || rolling == sliding)
      ensures Passed() > old(Passed())
      ensures old(emitted) <= emitted && emitted[..|emitted| - |ready|] == old(emitted)
    {
      hide ScanFrom, Push, PushBlock, Joined, View, First, Indexes, ListsOnly, BySignature, Sized, OnCourseAt;
      hide Words.Describe, Words.Rolled, Buffered;
      while true
        invariant Core() && !finished && rolling == null && Passed() >= old(Passed()) && pos <= |buffer|
        invariant old(emitted) <= emitted && emitted[..|emitted| - |ready|] == old(emitted)
        invariant InWindow(sliding)
        invariant |literal| <= LITERAL_FLUSH
        invariant |literal| == LITERAL_FLUSH ==> eof || |buffer| - pos >= blockSize + READ_AHEAD
        decreases |buffer| - pos
      {
        var found := MatchAt(sliding);
        if found.Some? {
          Reuse(found.value);
          return;
        }
        var more := Advance(sliding);
        if !more {
          return;
        }
        if |literal| >= LITERAL_FLUSH {
          FlushLiteralOnCourse();
          rolling := sliding;
          return;
        }
      }
    }

    ghost predicate InWindow(sliding: Rolling)
      reads `buffer, `pos, sliding
    {
      pos + blockSize <= |buffer| && sliding.View().Describe(buffer[pos..pos + blockSize])
    }

    /** Keeps one byte and rolls the checksum on, while a window is left. */
    method Advance(sliding: Rolling) returns (more: bool)
      requires Core() && !finished && InWindow(sliding)
      requires Lookup()(buffer[pos..pos + blockSize]) == None
      modifies this`ready, this`emitted, this`run, this`literal, this`pos, sliding
      ensures Core() && |literal| == old(|literal|) + 1 && pos == old(pos) + 1 <= |buffer|
      ensures more == (pos + blockSize <= |buffer|) && (more ==> InWindow(sliding))
      ensures old(emitted) <= emitted && emitted[..|emitted| - |ready|] == old(emitted[..|emitted| - |ready|])
    {
      hide ScanFrom, Push, PushBlock, Joined, View, First, Indexes, ListsOnly, BySignature, Sized, OnCourseAt;
      hide Words.Describe, Words.Rolled;
      hide Buffered;
      SomeBlock();
      var out := buffer[pos];
      ghost var window := buffer[pos..pos + blockSize];
      Keep();
      if |buffer| - pos < blockSize {
        return false;
      }
      var inbound := buffer[pos + blockSize - 1];
      sliding.Roll(out, inbound);
      assert window[1..] + [inbound] == buffer[pos..pos + blockSize];
      return true;
    }

    lemma PassedInside()
      requires Buffered()
      ensures 0 <= Passed() <= |reader.content|
    {
    }

    lemma SomeBlock()
      requires Buffered()
      ensures 0 < blockSize
    {
    }

    /** The window is the source's own, at the place reached. */
    lemma WindowHeld()
      requires Buffered() && pos + blockSize <= |buffer|
      ensures 0 <= Passed() && Passed() + blockSize <= |reader.content|
      ensures Window(reader.content, Passed(), blockSize) == buffer[pos..pos + blockSize]
    {
      SliceHeld(reader.content, reader.at - |buffer|, reader.at, buffer, pos, pos + blockSize);
    }

    lemma TailHeld()
      requires Buffered() && eof
      ensures 0 <= Passed() <= |reader.content| && reader.content[Passed()..] == buffer[pos..]
    {
      SliceHeld(reader.content, reader.at - |buffer|, reader.at, buffer, pos, |buffer|);
    }

    lemma AtEnd()
      requires Buffered() && eof && pos >= |buffer|
      ensures 0 < blockSize && pos == |buffer|
    {
    }

    lemma StillInWindow(before: Bytes, sliding: Rolling)
      requires blockSize <= |before| && pos <= |buffer| && before <= buffer[pos..]
      requires sliding.View().Describe(before[..blockSize])
      ensures InWindow(sliding)
    {
      hide Words.Describe;
      assert buffer[pos..pos + blockSize] == before[..blockSize];
    }

    /** The window is block `block`: the scan's next turn is a copy of it, behind any
        open literal. */
    method Reuse(block: nat)
      requires Core() && !finished && pos + blockSize <= |buffer| && |literal| <= LITERAL_FLUSH
      requires Lookup()(buffer[pos..pos + blockSize]) == Some(block)
      modifies this`ready, this`emitted, this`run, this`literal, this`pos
      ensures Core() && literal == [] && pos == old(pos) + blockSize
      ensures old(emitted) <= emitted && emitted[..|emitted| - |ready|] == old(emitted[..|emitted| - |ready|])
    {
      hide ScanFrom, Push, PushBlock, Joined, View, First, Indexes, ListsOnly, BySignature, Sized;
      WindowHeld();
      MatchedTurn(View(emitted, run, literal), reader.content, Passed(), blockSize, Lookup(), block);
      FlushLiteralKeepingView();
      assert run.Some? || NoOpenCopy(emitted);
      ExtendRun(block);
      pos := pos + blockSize;
    }

    /** An unmatched window: its first byte is literal, and any run ends before it. */
    method Keep()
      requires Core() && !finished && pos + blockSize <= |buffer|
      requires Lookup()(buffer[pos..pos + blockSize]) == None
      modifies this`ready, this`emitted, this`run, this`literal, this`pos
      ensures Core() && literal == old(literal) + [old(buffer[pos])] && pos == old(pos) + 1
      ensures old(emitted) <= emitted && emitted[..|emitted| - |ready|] == old(emitted[..|emitted| - |ready|])
    {
      hide ScanFrom, Push, PushBlock, Joined, View, First, Indexes, ListsOnly, BySignature, Sized;
      WindowHeld();
      UnmatchedTurn(View(emitted, run, literal), reader.content, Passed(), blockSize, Lookup());
      if literal == [] {
        FlushRunKeepingView();
      }
      GrowingLiteral(emitted, literal, [buffer[pos]]);
      literal := literal + [buffer[pos]];
      pos := pos + 1;
    }

    method FlushLiteralOnCourse()
      requires Core() && |literal| <= LITERAL_FLUSH + blockSize
      modifies this`ready, this`emitted, this`literal
      ensures Core() && literal == []
      ensures old(emitted) <= emitted && emitted[..|emitted| - |ready|] == old(emitted[..|emitted| - |ready|])
    {
      hide ScanFrom, Push, PushBlock, Joined, View, First, Indexes, ListsOnly, BySignature, Sized, Buffered;
      FlushLiteralKeepingView();
    }

    /** Changes nothing from the window on, except to add to it: afterwards a block
        and a read-ahead are buffered, or the source has ended. */
    method Fill() returns (outcome: Outcome)
      requires Core()
      modifies this`buffer, this`pos, this`hashed, this`eof, reader, scratch
      ensures Core() && Passed() == old(Passed())
      ensures old(buffer[pos..]) <= buffer[pos..]
      ensures old(eof) ==> eof && buffer[pos..] == old(buffer[pos..])
      ensures outcome.Pass? ==> eof || |buffer| - pos >= blockSize + READ_AHEAD
      ensures reader.failed == (old(reader.failed) || outcome.Fail?)
    {
      hide ScanFrom, Push, PushBlock, Joined, View, First, Indexes, ListsOnly, BySignature, Sized, OnCourseAt;
      if pos > READ_AHEAD {
        Drop();
      }
      var want := blockSize + READ_AHEAD;
      while !eof && |buffer| - pos < want
        invariant Core() && Passed() == old(Passed()) && pos <= READ_AHEAD && reader.failed == old(reader.failed)
        invariant old(buffer[pos..]) <= buffer[pos..]
        invariant old(eof) ==> eof && buffer[pos..] == old(buffer[pos..])
        decreases |reader.content| - reader.at, !eof
      {
        outcome := ReadMore();
        if outcome.Fail? {
          return;
        }
      }
      return Pass;
    }

    /** One read's bytes go to the buffer and the hasher alike. */
    method ReadMore() returns (outcome: Outcome)
      requires Core() && !eof && |buffer| - pos < blockSize + READ_AHEAD && pos <= READ_AHEAD
      modifies this`buffer, this`hashed, this`eof, reader, scratch
      ensures Core() && Passed() == old(Passed()) && old(buffer) <= buffer
      ensures outcome.Pass? ==> eof || reader.at > old(reader.at)
      ensures reader.failed == (old(reader.failed) || outcome.Fail?)
    {
      hide ScanFrom, Push, PushBlock, Joined, View, First, Indexes, ListsOnly, BySignature, Sized, OnCourseAt;
      var read := reader.Read(scratch, 0);
      if read.Failure? {
        return Fail;
      }
      if read.value == 0 {
        eof := true;
      } else {
        Take(read.value);
      }
      return Pass;
    }

    method Drop()
      requires Core()
      modifies this`buffer, this`pos
      ensures Core() && Passed() == old(Passed()) && pos == 0
      ensures buffer == old(buffer[pos..])
    {
      hide ScanFrom, Push, PushBlock, Joined, View, First, Indexes, ListsOnly, BySignature, Sized, OnCourseAt;
      buffer, pos := buffer[pos..], 0;
    }

    /** Takes in what a read delivered. */
    method Take(read: nat)
      requires 0 < read <= READ_AHEAD && |buffer| + read <= blockSize + 3 * READ_AHEAD - 1
      requires reader.Valid() && read <= reader.at && |buffer| <= reader.at - read && !eof
      requires buffer == reader.content[reader.at - read - |buffer|..reader.at - read]
      requires hashed == reader.content[..reader.at - read]
      requires scratch.Length == READ_AHEAD && scratch[..read] == reader.content[reader.at - read..reader.at]
      requires 0 < blockSize < 0x1_0000_0000 && pos <= |buffer|
      modifies this`buffer, this`hashed
      ensures Buffered() && |buffer| == old(|buffer|) + read && old(buffer) <= buffer
    {
      hashed := hashed + scratch[..read];
      buffer := buffer + scratch[..read];
    }

    method FlushRun()
      requires Queued()
      modifies this`ready, this`emitted, this`run
      ensures Queued() && run.None?
      ensures emitted ==
        if old(run).Some? then old(emitted) + [Copy(old(run).value.start, old(run).value.len)] else old(emitted)
      ensures emitted[..|emitted| - |ready|] == old(emitted[..|emitted| - |ready|])
    {
      if run.Some? {
        var token := Copy(run.value.start, run.value.len);
        ready, emitted := ready + [token], emitted + [token];
        run := None;
      }
    }

    method FlushLiteral()
      requires Queued()
      modifies this`ready, this`emitted, this`literal
      ensures Queued() && literal == []
      ensures emitted == if old(literal) != [] then old(emitted) + [Literal(old(literal))] else old(emitted)
      ensures emitted[..|emitted| - |ready|] == old(emitted[..|emitted| - |ready|])
    {
      if literal != [] {
        ready, emitted := ready + [Literal(literal)], emitted + [Literal(literal)];
        literal := [];
      }
    }

    /** Afterwards the view is what `PushBlock` makes of it. */
    method ExtendRun(block: nat)
      requires Queued() && LiteralsBounded() && literal == []
      modifies this`ready, this`emitted, this`run
      ensures Queued() && LiteralsBounded() && run.Some?
      ensures old(run).Some? || NoOpenCopy(old(emitted)) ==>
        View(emitted, run, []) == PushBlock(old(View(emitted, run, [])), blockSize, block)
      ensures old(emitted) <= emitted
      ensures emitted[..|emitted| - |ready|] == old(emitted[..|emitted| - |ready|])
    {
      if run.Some? {
        GrowingRun(emitted, run.value, blockSize, block);
        SizedOneMore(emitted, Copy(run.value.start, run.value.len), LITERAL_FLUSH + blockSize);
        if run.value.start + run.value.len == block * blockSize {
          run := Some(Run(run.value.start, run.value.len + blockSize));
        } else {
          FlushRun();
          run := Some(Run(block * blockSize, blockSize));
        }
      } else {
        if NoOpenCopy(emitted) {
          StartingRun(emitted, blockSize, block);
        }
        run := Some(Run(block * blockSize, blockSize));
      }
    }

    /** Finds what `Lookup` specifies, through the candidates with this checksum. */
    method MatchAt(rolling: Rolling) returns (found: Option<nat>)
      requires Core() && InWindow(rolling)
      ensures found == Lookup()(buffer[pos..pos + blockSize])
    {
      hide ScanFrom, Push, PushBlock, Joined, View, First, BySignature, Sized, OnCourseAt;
      var window := buffer[pos..pos + blockSize];
      var weak := rolling.Digest();
      if weak !in candidates {
        NoHit(candidates, blocks, window, strong);
        return None;
      }
      var list := candidates[weak];
      var hash := strong(window);
      for k := 0 to |list|
        invariant forall j :: 0 <= j < k ==> blocks[list[j]].strong != hash
      {
        if blocks[list[k]].strong == hash {
          FirstHit(list, blocks, window, strong, k);
          return Some(list[k]);
        }
      }
      NoHit(candidates, blocks, window, strong);
      return None;
    }
  }

  // The index built by the constructor, and the lookups made in it.

  lemma AddIndex(candidates: map<nat, seq<nat>>, blocks: seq<BlockSig>, index: nat, list: seq<nat>)
    requires index < |blocks| && Indexes(candidates, blocks[..index])
    requires list == if blocks[index].weak in candidates then candidates[blocks[index].weak] else []
    ensures Indexes(candidates[blocks[index].weak := list + [index]], blocks[..index + 1])
  {
    hide ListsOnly;
    var next := candidates[blocks[index].weak := list + [index]];
    forall i: nat | i < index + 1
      ensures blocks[i].weak in next && i in next[blocks[i].weak]
    {
      if i < index {
        assert blocks[..index][i] == blocks[i];
      } else {
        assert next[blocks[index].weak][|list|] == index;
      }
    }
    forall w | w in next
      ensures ListsOnly(next[w], blocks[..index + 1], w)
    {
      if w in candidates {
        ListGrows(candidates[w], blocks, index, w);
      } else {
        ListGrows([], blocks, index, w);
      }
    }
  }

  lemma ListGrows(list: seq<nat>, blocks: seq<BlockSig>, index: nat, weak: nat)
    requires index < |blocks| && (list != [] ==> ListsOnly(list, blocks[..index], weak))
    ensures ListsOnly(list, blocks[..index + 1], weak)
    ensures blocks[index].weak == weak ==> ListsOnly(list + [index], blocks[..index + 1], weak)
  {
  }

  lemma NoHit(candidates: map<nat, seq<nat>>, blocks: seq<BlockSig>, window: Bytes, strong: Hash)
    requires Indexes(candidates, blocks)
    requires Weak(window) in candidates ==>
      forall j :: 0 <= j < |candidates[Weak(window)]| ==> blocks[candidates[Weak(window)][j]].strong != strong(window)
    ensures BySignature(Signature(|window|, blocks), strong)(window) == None
  {
    LowestHit(Signature(|window|, blocks), strong, window);
  }

  lemma FirstHit(list: seq<nat>, blocks: seq<BlockSig>, window: Bytes, strong: Hash, k: nat)
    requires ListsOnly(list, blocks, Weak(window)) && k < |list|
    requires forall i: nat :: i < |blocks| && blocks[i].weak == Weak(window) ==> i in list
    requires blocks[list[k]].strong == strong(window)
    requires forall j :: 0 <= j < k ==> blocks[list[j]].strong != strong(window)
    ensures BySignature(Signature(|window|, blocks), strong)(window) == Some(list[k])
  {
    var signature := Signature(|window|, blocks);
    LowestHit(signature, strong, window);
    var first := BySignature(signature, strong)(window);
    assert Hit(signature, window, strong, list[k]);
    var j :| 0 <= j < |list| && list[j] == first.value;
    assert j == k;
  }
}
