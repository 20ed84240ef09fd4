/** What the agent does with a transfer into one path, and what it leaves there. */
module Target {
  import opened Basics
  import opened Frames
  import opened Tokens

  const CHUNK_SIZE: nat := 0x4_0000

  datatype Stored = Stored(bytes: Bytes, mtime: int)

  /** How a transfer left its path. */
  datatype Ending =
    | Published   // the rebuilt file took the destination's place
    | Refused     // nothing published, and no temporary left
    | LinkLost    // the stream died: the temporary is kept as far as it got
    | Discarded   // the path was refused before anything was touched

  /** The tokens a run of transfer frames carries. */
  function TokensOf(frames: seq<Frame>): seq<Token> {
    seq(|frames|, i requires 0 <= i < |frames| => if frames[i].Tok? then frames[i].token else Abort)
  }

  lemma TokensOfToks(tokens: seq<Token>)
    ensures TokensOf(Toks(tokens)) == tokens
  {
  }

  function ContentOf(stored: Option<Stored>): Bytes {
    if stored.Some? then stored.value.bytes else []
  }

  /** The bytes of a whole-file transfer. */
  function DataOf(frames: seq<Frame>): Bytes {
    if frames == [] then []
    else
      var n := |frames| - 1;
      DataOf(frames[..n]) + if frames[n].Chk? && frames[n].chunk.Data? then frames[n].chunk.bytes else []
  }

  /** What is kept of an earlier attempt, when that much is there. */
  function KeptPrefix(temporary: Option<Bytes>, resumeFrom: nat): Option<Bytes> {
    if resumeFrom == 0 then Some([])
    else if temporary.Some? && resumeFrom <= |temporary.value| then Some(temporary.value[..resumeFrom])
    else None
  }

  /** What a patch stream builds here: the kept prefix, then the tokens, copies read
      from the existing file. Nothing when there is no such prefix, no such range,
      or no file for a copy to read. */
  function Built(temporary: Option<Bytes>, destination: Option<Stored>, resumeFrom: nat, frames: seq<Frame>):
    Option<Bytes>
  {
    if destination.None? && exists i :: 0 <= i < |frames| && frames[i].Tok? && frames[i].token.Copy? then None
    else Plus(KeptPrefix(temporary, resumeFrom), Rebuild(TokensOf(frames), ContentOf(destination)))
  }

  lemma BuiltOneMore(temporary: Option<Bytes>, destination: Option<Stored>, resumeFrom: nat,
                     frames: seq<Frame>, frame: Frame)
    requires frame.Tok?
    ensures Built(temporary, destination, resumeFrom, frames + [frame]) ==
      if destination.None? && frame.token.Copy? then None
      else Plus(Built(temporary, destination, resumeFrom, frames), frame.token.Produce(ContentOf(destination)))
  {
    var more := frames + [frame];
    assert TokensOf(more) == TokensOf(frames) + [frame.token];
    RebuildOneMore(TokensOf(frames), frame.token, ContentOf(destination));
    PlusAssociates(KeptPrefix(temporary, resumeFrom), Rebuild(TokensOf(frames), ContentOf(destination)),
                   frame.token.Produce(ContentOf(destination)));
    assert more[|frames|] == frame;
    assert forall i :: 0 <= i < |frames| ==> more[i] == frames[i];
  }

  lemma BuiltNothingYet(temporary: Option<Bytes>, destination: Option<Stored>, resumeFrom: nat)
    ensures Built(temporary, destination, resumeFrom, []) == KeptPrefix(temporary, resumeFrom)
  {
    assert TokensOf([]) == [];
    var kept := KeptPrefix(temporary, resumeFrom);
    assert kept.Some? ==> kept.value + [] == kept.value;
  }

  /** A stream the agent publishes, unless something local goes wrong. */
  ghost predicate Accepts(frames: seq<Frame>, built: Option<Bytes>, full: Hash) {
    && frames != []
    && var last := frames[|frames| - 1];
       last.Tok? && last.token.Commit? && built.Some? && full(built.value) == last.token.hash
  }

  /** While no failure is recorded, the bytes fed to the hasher are the temporary's,
      and are what the stream builds. A failure with nothing at fault locally means
      that the stream builds nothing. */
  ghost predicate Progress(temp: Option<Bytes>, dest: Option<Stored>, resumeFrom: nat, taken: seq<Frame>,
                           failure: bool, hasher: Bytes, temporary: Option<Bytes>, faulted: bool)
  {
    if failure then faulted || Built(temp, dest, resumeFrom, taken).None?
    else temporary == Some(hasher) && Built(temp, dest, resumeFrom, taken) == Some(hasher)
  }

  lemma ProgressBegins(temp: Option<Bytes>, dest: Option<Stored>, resumeFrom: nat,
                       failure: bool, hasher: Bytes, temporary: Option<Bytes>, faulted: bool)
    requires if failure then faulted || KeptPrefix(temp, resumeFrom).None?
      else temporary == Some(hasher) && Some(hasher) == KeptPrefix(temp, resumeFrom)
    ensures Progress(temp, dest, resumeFrom, [], failure, hasher, temporary, faulted)
    ensures KeptPrefix(temp, 0).Some?
  {
    BuiltNothingYet(temp, dest, resumeFrom);
  }

  lemma ProgressMeans(temp: Option<Bytes>, dest: Option<Stored>, resumeFrom: nat, taken: seq<Frame>,
                      failure: bool, hasher: Bytes, temporary: Option<Bytes>, faulted: bool)
    requires Progress(temp, dest, resumeFrom, taken, failure, hasher, temporary, faulted)
    ensures !failure ==> temporary == Some(hasher)
  {
  }

  /** What taking one more token comes to: nothing after a failure; otherwise the token's
      bytes on the temporary and in the hash, or a failure with its cause. */
  ghost predicate TokenTaken(token: Token, dest: Option<Stored>, failure: bool, hasher: Bytes,
                             failure': bool, hasher': Bytes, temporary': Option<Bytes>, faulted': bool)
  {
    && (failure ==> failure')
    && (!failure' ==>
         && (token.Copy? ==> dest.Some?)
         && temporary' == Some(hasher') && Some(hasher') == Plus(Some(hasher), token.Produce(ContentOf(dest))))
    && (failure' && !failure ==>
         faulted' || (token.Copy? && dest.None?) || token.Produce(ContentOf(dest)).None?)
  }

  lemma ProgressOne(temp: Option<Bytes>, dest: Option<Stored>, resumeFrom: nat, taken: seq<Frame>, token: Token,
                    failure: bool, hasher: Bytes, temporary: Option<Bytes>, faulted: bool,
                    failure': bool, hasher': Bytes, temporary': Option<Bytes>, faulted': bool)
    requires Progress(temp, dest, resumeFrom, taken, failure, hasher, temporary, faulted)
    requires TokenTaken(token, dest, failure, hasher, failure', hasher', temporary', faulted')
    requires faulted ==> faulted'
    ensures Progress(temp, dest, resumeFrom, taken + [Tok(token)], failure', hasher', temporary', faulted')
  {
    hide Built;
    BuiltOneMore(temp, dest, resumeFrom, taken, Tok(token));
  }

  /** The content among a transfer's frames: all but one that ends it or is foreign. */
  function ContentFrames(frames: seq<Frame>): seq<Frame> {
    var n := |frames| - 1;
    if n >= 0 && (!frames[n].Tok? || frames[n].Ends()) then frames[..n] else frames
  }

  lemma ForeignIsNoContent(frames: seq<Frame>, from: nat, at: nat)
    requires from <= at <= |frames|
    requires at > from ==> frames[at - 1].Tok? && !frames[at - 1].Ends()
    requires at < |frames| ==> !frames[at].Tok? || frames[at].Ends()
    ensures ContentFrames(frames[from..Min(at + 1, |frames|)]) == frames[from..at]
    ensures at < |frames| ==> frames[from..at + 1] == frames[from..at] + [frames[at]]
  {
    if at < |frames| {
      var taken := frames[from..at + 1];
      assert taken[at - from] == frames[at];
      assert taken[..at - from] == frames[from..at];
    } else if at > from {
      assert frames[from..at][at - from - 1] == frames[at - 1];
    }
  }

  /** A temporary that is still there, with these bytes at its front. */
  predicate KeptAtLeast(temporary: Option<Bytes>, front: Bytes) {
    temporary.Some? && front <= temporary.value
  }

  lemma KeptOn(a: Option<Bytes>, b: Option<Bytes>, c: Option<Bytes>)
    requires a.Some? ==> KeptAtLeast(b, a.value)
    requires b.Some? ==> KeptAtLeast(c, b.value)
    ensures a.Some? ==> KeptAtLeast(c, a.value)
    ensures forall front :: KeptAtLeast(b, front) ==> KeptAtLeast(c, front)
  {
  }

  lemma KeptAsItIs(temporary: Option<Bytes>)
    ensures temporary.Some? ==> KeptAtLeast(temporary, temporary.value)
    ensures temporary.Some? ==> forall n: nat :: n <= |temporary.value| ==> KeptAtLeast(temporary, temporary.value[..n])
  {
  }

  lemma TakenOneMore(frames: seq<Frame>, from: nat, at: nat)
    requires from <= at < |frames|
    ensures frames[from..at] + [frames[at]] == frames[from..at + 1]
  {
  }

  /** What each ending of a patch leaves behind. `frames` are those the agent took,
      and `complete` says whether the last of them ends the transfer. */
  ghost predicate PatchEnded(ending: Ending, frames: seq<Frame>, complete: bool, resumeFrom: nat, full: Hash,
                             dest: Option<Stored>, temp: Option<Bytes>,
                             dest': Option<Stored>, temp': Option<Bytes>, faulted: bool)
  {
    var built := Built(temp, dest, resumeFrom, ContentFrames(frames));
    match ending
    case Published =>
      && complete && Accepts(frames, built, full)
      && dest' == Some(Stored(built.value, frames[|frames| - 1].token.mtime))
      && temp'.None?
    case Refused => complete && (faulted || !Accepts(frames, built, full))
    case LinkLost =>
      && !complete
      && (faulted || built.None? || temp' == built)
      && (resumeFrom > 0 && temp.Some? ==> KeptAtLeast(temp', temp.value[..Min(resumeFrom, |temp.value|)]))
      && (resumeFrom == 0 && temp'.None? ==> faulted)
    case Discarded => temp' == temp
  }

  lemma EndsDiscarded(frames: seq<Frame>, complete: bool, resumeFrom: nat, full: Hash,
                      dest: Option<Stored>, temp: Option<Bytes>, faulted: bool)
    ensures PatchEnded(Discarded, frames, complete, resumeFrom, full, dest, temp, dest, temp, faulted)
  {
  }

  /** A stream that died leaves the temporary: as built, if nothing failed; and never less
      than was there when the stream began. */
  lemma EndsLost(frames: seq<Frame>, resumeFrom: nat, full: Hash, dest: Option<Stored>, temp: Option<Bytes>,
                 begun: Option<Bytes>, failure: bool, hasher: Bytes, received: Option<Bytes>, f: bool,
                 dest': Option<Stored>, faulted: bool)
    requires Progress(temp, dest, resumeFrom, ContentFrames(frames), failure, hasher, received, f) && (f ==> faulted)
    requires begun.Some? ==> KeptAtLeast(received, begun.value)
    requires resumeFrom > 0 && temp.Some? ==> KeptAtLeast(begun, temp.value[..Min(resumeFrom, |temp.value|)])
    requires resumeFrom == 0 && begun.None? ==> faulted
    ensures PatchEnded(LinkLost, frames, false, resumeFrom, full, dest, temp, dest', received, faulted)
  {
    hide Built, ContentFrames;
  }

  /** A stream that ended is published if its commit matches, and else refused. */
  lemma EndsSettled(frames: seq<Frame>, last: Token, resumeFrom: nat, full: Hash, dest: Option<Stored>,
                    temp: Option<Bytes>, failure: bool, hasher: Bytes, received: Option<Bytes>, f: bool,
                    published: bool, dest': Option<Stored>, temp': Option<Bytes>, faulted: bool)
    requires Progress(temp, dest, resumeFrom, ContentFrames(frames), failure, hasher, received, f) && (f ==> faulted)
    requires frames != [] && frames[|frames| - 1] == Tok(last)
    requires published ==>
      && !failure && last.Commit? && full(hasher) == last.hash
      && dest' == Some(Stored(hasher, last.mtime)) && temp'.None?
    requires !published ==> failure || !last.Commit? || full(hasher) != last.hash || faulted
    ensures PatchEnded(if published then Published else Refused, frames, true, resumeFrom, full,
                       dest, temp, dest', temp', faulted)
  {
    hide Built, ContentFrames;
  }

  /** What each ending of a whole-file transfer leaves behind. */
  ghost predicate FileEnded(ending: Ending, frames: seq<Frame>, complete: bool,
                            dest': Option<Stored>, temp': Option<Bytes>, faulted: bool)
  {
    var n := |frames| - 1;
    match ending
    case Published =>
      && complete && frames != [] && frames[n].Chk? && frames[n].chunk.CommitFile?
      && dest' == Some(Stored(DataOf(frames[..n]), frames[n].chunk.mtime)) && temp'.None?
    case Refused => complete && frames != [] && (faulted || frames[n] == Chk(AbortFile))
    case LinkLost => !complete
    case Discarded => true
  }

  class Target {
    var destination: Option<Stored>
    var temporary: Option<Bytes>
    var parentMode: Mode
    /** Whether any filesystem operation failed since the request came in. */
    ghost var faulted: bool
    /** Whether the cleaning up itself failed: an unlink, or the restoring of a mode. */
    ghost var stuck: bool
    /** Whether a patch's temporary could not be made or resumed. */
    ghost var unopened: bool

    // -------------------------------------------------------------------------
    // The filesystem under one transfer. Any operation may fail.
    // -------------------------------------------------------------------------

    constructor (destination: Option<Stored>, temporary: Option<Bytes>, parentMode: Mode)
      ensures this.destination == destination && this.temporary == temporary && this.parentMode == parentMode
    {
      this.destination, this.temporary, this.parentMode := destination, temporary, parentMode;
      faulted, stuck, unopened := false, false, false;
    }

    method Try() returns (works: bool)
      modifies this`faulted
      ensures faulted == (old(faulted) || !works)
    {
      works := *;
      faulted := faulted || !works;
    }

    method CreateTemporary() returns (outcome: Outcome, denied: bool)
      modifies this`temporary, this`faulted
      ensures denied == !MayWrite(parentMode)
      ensures outcome.Pass? ==> temporary == Some([]) && !denied && faulted == old(faulted)
      ensures outcome.Fail? ==> (denied && faulted == old(faulted)) || faulted
    {
      if !MayWrite(parentMode) {
        return Fail, true;
      }
      var unlinks := Try();
      if !unlinks {
        return Fail, false;
      }
      temporary := None;
      var creates := Try();
      if !creates {
        return Fail, false;
      }
      temporary := Some([]);
      return Pass, false;
    }

    /** Afterwards the directory may be written, or changing it failed; a mode is
        returned exactly when it was changed. */
    method RelaxDir() returns (original: Option<Mode>)
      modifies this`parentMode, this`faulted
      ensures old(faulted) ==> faulted
      ensures MayWrite(parentMode) || faulted
      ensures original.Some? ==> original.value == old(parentMode) && MayWrite(parentMode)
      ensures original.None? ==> parentMode == old(parentMode)
    {
      var stats := Try();
      if !stats || MayWrite(parentMode) {
        return None;
      }
      var changes := Try();
      if !changes {
        return None;
      }
      original := Some(parentMode);
      parentMode := parentMode | OWNER_MAY_WRITE;
    }

    method RestoreMode(original: Option<Mode>)
      modifies this`parentMode, this`faulted, this`stuck
      ensures (old(faulted) ==> faulted) && (old(stuck) ==> stuck) && (stuck ==> old(stuck) || faulted)
      ensures if original.None? then parentMode == old(parentMode) && faulted == old(faulted)
              else parentMode == original.value || stuck
    {
      if original.Some? {
        var works := Try();
        if works {
          parentMode := original.value;
        } else {
          stuck := true;
        }
      }
    }

    /** The temporary is open and empty in a directory that may be written, or
        something other than the directory's mode stopped it. */
    method OpenTemporary() returns (opens: bool, relaxed: Option<Mode>)
      modifies this`temporary, this`parentMode, this`faulted
      ensures old(faulted) ==> faulted
      ensures opens ==> temporary == Some([]) && MayWrite(parentMode)
      ensures !opens ==> faulted
      ensures parentMode == old(parentMode) || relaxed == Some(old(parentMode))
      ensures relaxed.Some? ==> relaxed.value == old(parentMode)
    {
      var outcome, denied := CreateTemporary();
      if outcome.Pass? || !denied {
        return outcome.Pass?, None;
      }
      relaxed := RelaxDir();
      if relaxed.None? {
        return false, None;
      }
      outcome, denied := CreateTemporary();
      opens := outcome.Pass?;
    }

    /** On success the temporary and the hash both hold the first `from` bytes of
        what was there, and nothing else. */
    method Resume(from: nat) returns (r: Result<Bytes>)
      requires from > 0
      modifies this`temporary, this`faulted
      ensures old(faulted) ==> faulted
      ensures r.Success? ==> temporary == Some(r.value) && Some(r.value) == KeptPrefix(old(temporary), from)
      ensures r.Failure? ==> faulted || KeptPrefix(old(temporary), from).None?
      ensures
        || temporary == old(temporary)
        || (old(temporary).Some? && from <= |old(temporary).value| && temporary == Some(old(temporary).value[..from]))
    {
      var stats := Try();
      if !stats || temporary.None? || |temporary.value| < from {
        return Failure;
      }
      var works := Try();
      if !works {
        return Failure;
      }
      temporary := Some(temporary.value[..from]);
      works := Try();
      if !works {
        return Failure;
      }
      return Success(temporary.value);
    }

    /** Appends to the open temporary; a failing write may have written a part. */
    method WriteAll(bytes: Bytes) returns (outcome: Outcome)
      requires temporary.Some?
      modifies this`temporary, this`faulted
      ensures KeptAtLeast(temporary, old(temporary.value)) && (old(faulted) ==> faulted)
      ensures outcome.Pass? ==> temporary.value == old(temporary.value) + bytes && faulted == old(faulted)
      ensures outcome.Fail? ==> faulted
    {
      var works := Try();
      if works {
        temporary := Some(temporary.value + bytes);
        return Pass;
      }
      var part: nat :| part <= |bytes|;
      temporary := Some(temporary.value + bytes[..part]);
      return Fail;
    }

    method Unlink()
      modifies this`temporary, this`faulted, this`stuck
      ensures (old(faulted) ==> faulted) && (old(stuck) ==> stuck) && (stuck ==> old(stuck) || faulted)
      ensures temporary.None? || (stuck && temporary == old(temporary))
    {
      var works := Try();
      if works {
        temporary := None;
      } else {
        stuck := true;
      }
    }

    // -------------------------------------------------------------------------
    // Receiving a patch
    // -------------------------------------------------------------------------

    /** On success the range is appended to the temporary and the hash. It fails for
        a range the file does not have, or a fault. */
    method CopyRange(existing: Bytes, offset: nat, len: nat, hasher: Bytes) returns (outcome: Outcome, hashed: Bytes)
      requires temporary == Some(hasher)
      modifies this`temporary, this`faulted
      ensures KeptAtLeast(temporary, hasher) && (old(faulted) ==> faulted)
      ensures outcome.Pass? ==>
        && Copy(offset, len).Produce(existing).Some?
        && temporary == Some(hashed) && hashed == hasher + Copy(offset, len).Produce(existing).value
        && faulted == old(faulted)
      ensures outcome.Fail? ==> faulted || Copy(offset, len).Produce(existing).None?
    {
      hashed := hasher;
      if offset + len > |existing| {
        return Fail, hashed;
      }
      var seeks := Try();
      if !seeks {
        return Fail, hashed;
      }
      var at := offset;
      while at < offset + len
        invariant offset <= at <= offset + len && faulted == old(faulted)
        invariant temporary == Some(hashed) && hashed == hasher + existing[offset..at]
      {
        var want := Min(offset + len - at, CHUNK_SIZE);
        var readable := Try();
        if !readable {
          return Fail, hashed;
        }
        outcome := WriteAll(existing[at..at + want]);
        if outcome.Fail? {
          return Fail, hashed;
        }
        assert existing[offset..at] + existing[at..at + want] == existing[offset..at + want];
        hashed := hashed + existing[at..at + want];
        at := at + want;
      }
      return Pass, hashed;
    }

    /** Puts one content token on the temporary, if nothing has failed yet. `dest` is what
        was at the destination; it may be there and still not have opened. */
    method TakeToken(token: Token, existing: Option<Bytes>, hasher: Bytes, failure: bool, ghost dest: Option<Stored>)
      returns (failed: bool, hashed: Bytes)
      requires !token.Ends() && (!failure ==> temporary == Some(hasher))
      requires existing.Some? ==> dest.Some? && existing.value == ContentOf(dest)
      requires !faulted ==> existing.Some? == dest.Some?
      modifies this`temporary, this`faulted
      ensures (old(faulted) ==> faulted)
      ensures old(temporary).Some? ==> KeptAtLeast(temporary, old(temporary).value)
      ensures TokenTaken(token, dest, failure, hasher, failed, hashed, temporary, faulted)
    {
      failed, hashed := failure, hasher;
      if failure {
        return;
      }
      match token {
        case Copy(offset, len) =>
          if existing.None? {
            return true, hasher;
          }
          var outcome;
          outcome, hashed := CopyRange(existing.value, offset, len, hasher);
          failed := outcome.Fail?;
        case Literal(bytes) =>
          var outcome := WriteAll(bytes);
          failed := outcome.Fail?;
          hashed := hasher + bytes;
        case _ =>
          assert false;
      }
    }

    /** Ends where the stream does, as `AfterTransfer` has it, with nothing else
        touched. */
    method Discard(input: Incoming, patch: bool)
      requires input.Valid()
      modifies input
      ensures input.Valid() && input.at == AfterTransfer(input.frames, old(input.at), patch)
    {
      while true
        invariant input.Valid()
        invariant AfterTransfer(input.frames, input.at, patch) == AfterTransfer(input.frames, old(input.at), patch)
        decreases |input.frames| - input.at
      {
        var frame := input.Expect(patch);
        if frame.Failure? || frame.value.Ends() {
          return;
        }
      }
    }

    /** Checked against the whole-file hash, stamped, and moved into place. */
    method PublishPatch(hasher: Bytes, mtime: int, expected: Digest, full: Hash) returns (outcome: Outcome)
      requires temporary == Some(hasher)
      modifies this`temporary, this`destination, this`faulted
      ensures old(faulted) ==> faulted
      ensures outcome.Pass? ==>
        full(hasher) == expected && destination == Some(Stored(hasher, mtime)) && temporary.None?
      ensures outcome.Fail? ==>
        && destination == old(destination)
        && (faulted || full(hasher) != expected || !MayWrite(parentMode))
    {
      if full(hasher) != expected {
        return Fail;
      }
      outcome := Rename(mtime);
    }

    /** Flush, stamp, rename: nothing is visible before the last step works. */
    method Rename(mtime: int) returns (outcome: Outcome)
      requires temporary.Some?
      modifies this`temporary, this`destination, this`faulted
      ensures old(faulted) ==> faulted
      ensures outcome.Pass? ==> destination == Some(Stored(old(temporary.value), mtime)) && temporary.None?
      ensures outcome.Fail? ==> destination == old(destination) && (faulted || !MayWrite(parentMode))
    {
      var flushes := Try();
      if !flushes {
        return Fail;
      }
      var stamps := Try();
      if !stamps || !MayWrite(parentMode) {
        return Fail;
      }
      var renames := Try();
      if !renames {
        return Fail;
      }
      destination, temporary := Some(Stored(temporary.value, mtime)), None;
      return Pass;
    }

    /** The end of a patch whose stream ended: published, or the temporary unlinked; and
        the mode put back either way. */
    method ConcludePatch(last: Token, failure: bool, hasher: Bytes, relaxed: Option<Mode>, full: Hash)
      returns (outcome: Outcome)
      requires last.Ends() && (!failure ==> temporary == Some(hasher))
      modifies this
      ensures (old(faulted) ==> faulted) && (old(stuck) ==> stuck) && (stuck ==> old(stuck) || faulted)
      ensures temporary.None? || stuck
      ensures parentMode == (if relaxed.None? then old(parentMode) else relaxed.value) || stuck
      ensures outcome.Pass? ==>
        && !failure && last.Commit? && full(hasher) == last.hash
        && destination == Some(Stored(hasher, last.mtime)) && temporary.None?
      ensures outcome.Fail? ==>
        && destination == old(destination)
        && (failure || !last.Commit? || full(hasher) != last.hash || faulted || !MayWrite(old(parentMode)))
    {
      outcome := Fail;
      if !failure && last.Commit? {
        outcome := PublishPatch(hasher, last.mtime, last.hash, full);
      }
      if outcome.Fail? {
        Unlink();
      }
      RestoreMode(relaxed);
    }

    /** Opens what a patch accumulates in, fresh or resumed. A resume widens the
        directory up front, as only the final rename would find it read-only. */
    method OpenForPatch(resumeFrom: nat) returns (opens: bool, hasher: Bytes, relaxed: Option<Mode>)
      modifies this`temporary, this`parentMode, this`faulted
      ensures old(faulted) ==> faulted
      ensures opens ==>
        && temporary == Some(hasher) && Some(hasher) == KeptPrefix(old(temporary), resumeFrom)
        && (MayWrite(parentMode) || faulted)
      ensures resumeFrom > 0 && old(temporary).Some? ==>
        KeptAtLeast(temporary, old(temporary).value[..Min(resumeFrom, |old(temporary).value|)])
      ensures !opens ==> faulted || KeptPrefix(old(temporary), resumeFrom).None?
      ensures relaxed.Some? ==> relaxed.value == old(parentMode)
      ensures relaxed.None? ==> parentMode == old(parentMode)
    {
      if resumeFrom == 0 {
        opens, relaxed := OpenTemporary();
        return opens, [], relaxed;
      }
      relaxed := RelaxDir();
      var resumed := Resume(resumeFrom);
      return resumed.Success?, if resumed.Success? then resumed.value else [], relaxed;
    }

    /** Takes the stream's tokens until one ends it, or until it dies. */
    method ReceiveTokens(input: Incoming, existing: Option<Bytes>, before: Bytes, failed: bool,
                         ghost temp: Option<Bytes>, ghost dest: Option<Stored>, ghost resumeFrom: nat)
      returns (failure: bool, hasher: Bytes, last: Option<Token>)
      requires input.Valid()
      requires existing.Some? ==> dest.Some? && existing.value == ContentOf(dest)
      requires !faulted ==> existing.Some? == dest.Some?
      requires Progress(temp, dest, resumeFrom, [], failed, before, temporary, faulted)
      modifies this`temporary, this`faulted, input
      ensures input.Valid() && input.at == AfterTransfer(input.frames, old(input.at), true)
      ensures (old(faulted) ==> faulted) && (failed ==> failure)
      ensures old(temporary).Some? ==> KeptAtLeast(temporary, old(temporary).value)
      ensures EndedAt(input.frames, old(input.at), input.at, true) == last.Some?
      ensures var frames := input.frames[old(input.at)..input.at];
        && Progress(temp, dest, resumeFrom, ContentFrames(frames), failure, hasher, temporary, faulted)
        && (last.Some? ==> frames != [] && frames[|frames| - 1] == Tok(last.value) && last.value.Ends())
    {
      hide Built, AfterTransfer, ContentFrames, Rebuild, Progress, TokenTaken, KeptAtLeast;
      KeptAsItIs(temporary);
      failure, hasher := failed, before;
      ghost var taken: seq<Frame> := [];
      while true
        invariant input.Valid() && old(input.at) <= input.at && taken == input.frames[old(input.at)..input.at]
        invariant input.at > old(input.at) ==> input.frames[input.at - 1].Tok? && !input.frames[input.at - 1].Ends()
        invariant AfterTransfer(input.frames, input.at, true) == AfterTransfer(input.frames, old(input.at), true)
        invariant Progress(temp, dest, resumeFrom, taken, failure, hasher, temporary, faulted)
        invariant old(temporary).Some? ==> KeptAtLeast(temporary, old(temporary).value)
        invariant (old(faulted) ==> faulted) && (failed ==> failure)
        decreases |input.frames| - input.at
      {
        ghost var at := input.at;
        var frame := input.Expect(true);
        if frame.Failure? {
          StreamStops(input.frames, at, true);
          ForeignIsNoContent(input.frames, old(input.at), at);
          return failure, hasher, None;
        }
        var token := frame.value.token;
        if token.Ends() {
          StreamStops(input.frames, at, true);
          ForeignIsNoContent(input.frames, old(input.at), at);
          return failure, hasher, Some(token);
        }
        StreamGoesOn(input.frames, at, true);
        ghost var failure0, hasher0, temporary0, faulted0 := failure, hasher, temporary, faulted;
        ProgressMeans(temp, dest, resumeFrom, taken, failure, hasher, temporary, faulted);
        failure, hasher := TakeToken(token, existing, hasher, failure, dest);
        ProgressOne(temp, dest, resumeFrom, taken, token, failure0, hasher0, temporary0, faulted0,
                    failure, hasher, temporary, faulted);
        KeptOn(old(temporary), temporary0, temporary);
        TakenOneMore(input.frames, old(input.at), at);
        taken := taken + [frame.value];
      }
    }

    /** Everything up to the first frame: the existing file opened, if it can be, and the
        temporary made or resumed. */
    method BeginPatch(resumeFrom: nat)
      returns (failure: bool, hasher: Bytes, existing: Option<Bytes>, relaxed: Option<Mode>)
      requires !faulted
      modifies this`temporary, this`parentMode, this`faulted, this`unopened
      ensures unopened == failure
      ensures !failure ==> temporary.Some? && temporary == KeptPrefix(old(temporary), resumeFrom)
      ensures Progress(old(temporary), destination, resumeFrom, [], failure, hasher, temporary, faulted)
      ensures existing.Some? ==> destination.Some? && existing.value == ContentOf(destination)
      ensures !faulted ==> existing.Some? == destination.Some?
      ensures parentMode == old(parentMode) || relaxed == Some(old(parentMode))
      ensures relaxed.Some? ==> relaxed.value == old(parentMode)
      ensures !failure ==> MayWrite(parentMode) || faulted
      ensures resumeFrom > 0 && old(temporary).Some? ==>
        KeptAtLeast(temporary, old(temporary).value[..Min(resumeFrom, |old(temporary).value|)])
      ensures resumeFrom == 0 && temporary.None? ==> faulted
    {
      hide KeptPrefix, KeptAtLeast, MayWrite, Progress;
      failure, hasher, relaxed := true, [], None;
      var makes := Try();
      var readable := Try();
      existing := if destination.Some? && readable then Some(ContentOf(destination)) else None;
      KeptAsItIs(temporary);
      if makes {
        var opens;
        opens, hasher, relaxed := OpenForPatch(resumeFrom);
        failure := !opens;
      }
      unopened := failure;
      ProgressBegins(old(temporary), destination, resumeFrom, failure, hasher, temporary, faulted);
    }

    /** What a patch leaves, by how it ended. Only a clean-up that itself fails can leave a
        temporary behind a refusal, or the directory's mode changed. */
    method ReceivePatch(input: Incoming, resumeFrom: nat, resolves: bool, full: Hash)
      returns (outcome: Outcome, ghost ending: Ending)
      requires input.Valid()
      modifies this, input
      ensures input.Valid() && input.at == AfterTransfer(input.frames, old(input.at), true)
      ensures outcome.Pass? <==> ending.Published?
      ensures ending.Discarded? <==> !resolves
      ensures parentMode == old(parentMode) || stuck
      ensures !ending.Published? ==> destination == old(destination)
      ensures ending.Published? || ending.Refused? ==> temporary.None? || stuck
      ensures stuck ==> faulted
      ensures ending.LinkLost? && !unopened ==>
        && KeptPrefix(old(temporary), resumeFrom).Some?
        && KeptAtLeast(temporary, KeptPrefix(old(temporary), resumeFrom).value)
      ensures PatchEnded(ending, input.frames[old(input.at)..input.at],
                         EndedAt(input.frames, old(input.at), input.at, true), resumeFrom, full,
                         old(destination), old(temporary), destination, temporary, faulted)
    {
      hide Built, AfterTransfer, EndedAt, ContentFrames, KeptPrefix, KeptAtLeast, Progress, PatchEnded, MayWrite;
      hide ContentOf;
      faulted, stuck := false, false;
      ghost var dest, temp := destination, temporary;
      if !resolves {
        Discard(input, true);
        EndsDiscarded(input.frames[old(input.at)..input.at], EndedAt(input.frames, old(input.at), input.at, true),
                      resumeFrom, full, destination, temporary, faulted);
        return Fail, Discarded;
      }
      var failure, hasher, existing, relaxed := BeginPatch(resumeFrom);
      ghost var begun := temporary;
      var last;
      failure, hasher, last := ReceiveTokens(input, existing, hasher, failure, temp, dest, resumeFrom);
      ghost var frames, received, f := input.frames[old(input.at)..input.at], temporary, faulted;
      if last.None? {
        RestoreMode(relaxed);
        EndsLost(frames, resumeFrom, full, dest, temp, begun, failure, hasher, received, f, destination, faulted);
        return Fail, LinkLost;
      }
      ProgressMeans(temp, dest, resumeFrom, ContentFrames(frames), failure, hasher, temporary, faulted);
      outcome := ConcludePatch(last.value, failure, hasher, relaxed, full);
      ending := if outcome.Pass? then Published else Refused;
      EndsSettled(frames, last.value, resumeFrom, full, dest, temp, failure, hasher, received, f,
                  outcome.Pass?, destination, temporary, faulted);
    }

    // -------------------------------------------------------------------------
    // Receiving a whole file, and reporting a partial one
    // -------------------------------------------------------------------------

    method ReceiveChunks(input: Incoming, failed: bool) returns (failure: bool, last: Option<Chunk>)
      requires input.Valid() && (!failed ==> temporary == Some([]))
      requires failed ==> faulted
      modifies this`temporary, this`faulted, input
      ensures input.Valid() && input.at == AfterTransfer(input.frames, old(input.at), false)
      ensures (old(faulted) ==> faulted) && (failure ==> faulted)
      ensures EndedAt(input.frames, old(input.at), input.at, false) == last.Some?
      ensures var frames := input.frames[old(input.at)..input.at];
        last.Some? ==>
          && frames != [] && frames[|frames| - 1] == Chk(last.value) && last.value.Ends()
          && (!failure ==> temporary == Some(DataOf(frames[..|frames| - 1])))
    {
      hide AfterTransfer;
      failure := failed;
      ghost var taken: seq<Frame> := [];
      while true
        invariant input.Valid() && old(input.at) <= input.at && taken == input.frames[old(input.at)..input.at]
        invariant input.at > old(input.at) ==> input.frames[input.at - 1].Chk? && !input.frames[input.at - 1].Ends()
        invariant AfterTransfer(input.frames, input.at, false) == AfterTransfer(input.frames, old(input.at), false)
        invariant !failure ==> temporary == Some(DataOf(taken))
        invariant (old(faulted) ==> faulted) && (failure ==> faulted)
        decreases |input.frames| - input.at
      {
        ghost var at := input.at;
        var frame := input.Expect(false);
        if frame.Failure? {
          StreamStops(input.frames, at, false);
          return failure, None;
        }
        var chunk := frame.value.chunk;
        ghost var more := input.frames[old(input.at)..at + 1];
        assert more == taken + [frame.value] && more[..|more| - 1] == taken;
        if chunk.Ends() {
          StreamStops(input.frames, at, false);
          return failure, Some(chunk);
        }
        StreamGoesOn(input.frames, at, false);
        if !failure {
          var outcome := WriteAll(chunk.bytes);
          failure := outcome.Fail?;
        }
        taken := more;
      }
    }

    /** What a whole-file transfer leaves, by how it ended. Unlike a patch, a lost
        link leaves no temporary, unless unlinking it fails. */
    method ReceiveFile(input: Incoming, resolves: bool) returns (outcome: Outcome, ghost ending: Ending)
      requires input.Valid()
      modifies this, input
      ensures input.Valid() && input.at == AfterTransfer(input.frames, old(input.at), false)
      ensures outcome.Pass? <==> ending.Published?
      ensures ending.Discarded? <==> !resolves
      ensures parentMode == old(parentMode) || stuck
      ensures !ending.Published? ==> destination == old(destination)
      ensures !ending.Discarded? ==> temporary.None? || stuck
      ensures stuck ==> faulted
      ensures FileEnded(ending, input.frames[old(input.at)..input.at],
                        EndedAt(input.frames, old(input.at), input.at, false), destination, temporary, faulted)
    {
      hide AfterTransfer, EndedAt, DataOf;
      faulted, stuck := false, false;
      if !resolves {
        Discard(input, false);
        return Fail, Discarded;
      }
      var failure, relaxed := true, None;
      var makes := Try();
      if makes {
        var opens;
        opens, relaxed := OpenTemporary();
        failure := !opens;
      }
      var last;
      failure, last := ReceiveChunks(input, failure);
      if last.None? {
        Unlink();
        RestoreMode(relaxed);
        return Fail, LinkLost;
      }
      outcome := Fail;
      if !failure && last.value.CommitFile? {
        outcome := Rename(last.value.mtime);
      }
      if outcome.Fail? {
        Unlink();
      }
      RestoreMode(relaxed);
      ending := if outcome.Pass? then Published else Refused;
    }

    /** The length and the hash of the temporary, nothing being there counting as
        empty. */
    method ResumeState(readable: bool, full: Hash) returns (r: Result<(nat, Digest)>)
      ensures r.Success? <==> readable
      ensures r.Success? ==>
        var left := if temporary.Some? then temporary.value else [];
        r.value == (|left|, full(left))
    {
      if !readable {
        return Failure;
      }
      if temporary.None? || temporary.value == [] {
        return Success((0, full([])));
      }
      return Success((|temporary.value|, full(temporary.value)));
    }
  }
}
