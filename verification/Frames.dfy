/** The messages that cross the link, and the link itself. */
module Frames {
  import opened Basics
  import opened Tokens

  datatype Request =
    | Hello(version: nat)
    | Index
    | CreateDir(path: Path)
    | WriteFile(path: Path)
    | CreateSymlink(path: Path, target: Path)
    | Remove(path: Path)
    | Rename(from: Path, to: Path)
    | SetMetadata(path: Path)
    | Goodbye
    | Signature(path: Path, blockSize: nat)
    | PatchFile(path: Path, resumeFrom: nat)
    | ResumeState(path: Path)
  {
    /** Whether a stream of transfer frames follows the request. */
    predicate OpensTransfer() {
      WriteFile? || PatchFile?
    }
  }

  datatype Chunk = Data(bytes: Bytes) | CommitFile(mtime: int) | AbortFile {
    predicate Ends() {
      CommitFile? || AbortFile?
    }
  }

  datatype Frame = Req(request: Request) | Tok(token: Token) | Chk(chunk: Chunk) {
    /** Whether the frame is one of the kind a transfer's stream is made of. */
    predicate Carries(patch: bool) {
      if patch then Tok? else Chk?
    }

    predicate Ends() {
      (Tok? && token.Ends()) || (Chk? && chunk.Ends())
    }
  }

  datatype Response =
    | HelloReply
    | OkReply
    | IndexReply
    | ErrorReply
    | SignatureReply
    | ResumeReply(bytes: nat, hash: Digest)

  /** Where the agent stands after taking a transfer's stream off the wire: past the
      frame that ends it, past the first frame that is not part of one, or at the
      end of what arrived. */
  function AfterTransfer(frames: seq<Frame>, at: nat, patch: bool): (after: nat)
    requires at <= |frames|
    ensures at <= after <= |frames|
    decreases |frames| - at
  {
    if at == |frames| then at
    else if !frames[at].Carries(patch) || frames[at].Ends() then at + 1
    else AfterTransfer(frames, at + 1, patch)
  }

  lemma StreamGoesOn(frames: seq<Frame>, at: nat, patch: bool)
    requires at < |frames| && frames[at].Carries(patch) && !frames[at].Ends()
    ensures AfterTransfer(frames, at, patch) == AfterTransfer(frames, at + 1, patch)
  {
  }

  lemma StreamStops(frames: seq<Frame>, at: nat, patch: bool)
    requires at <= |frames| && (at < |frames| ==> !frames[at].Carries(patch) || frames[at].Ends())
    ensures AfterTransfer(frames, at, patch) == Min(at + 1, |frames|)
  {
  }

  /** A transfer's frames so far: all of its kind, and none but possibly the last ending
      it. */
  ghost predicate IsStream(frames: seq<Frame>, patch: bool) {
    && (forall i :: 0 <= i < |frames| ==> frames[i].Carries(patch))
    && (forall i :: 0 <= i < |frames| - 1 ==> !frames[i].Ends())
  }

  /** A stream that ends, once and at its end. */
  ghost predicate IsWholeStream(frames: seq<Frame>, patch: bool) {
    IsStream(frames, patch) && frames != [] && frames[|frames| - 1].Ends()
  }

  /** A stream that ends once, at its end, is taken whole and no further. */
  lemma {:induction false} StreamIsTaken(frames: seq<Frame>, at: nat, len: nat, patch: bool)
    requires 0 < len && at + len <= |frames| && frames[at + len - 1].Ends()
    requires forall i :: at <= i < at + len ==> frames[i].Carries(patch)
    requires forall i :: at <= i < at + len - 1 ==> !frames[i].Ends()
    ensures AfterTransfer(frames, at, patch) == at + len
    decreases len
  {
    if len > 1 {
      StreamGoesOn(frames, at, patch);
      StreamIsTaken(frames, at + 1, len - 1, patch);
    }
  }

  /** Whether the stream that started at `from` was complete. */
  predicate EndedAt(frames: seq<Frame>, from: nat, after: nat, patch: bool)
    requires from <= after <= |frames|
  {
    after > from && frames[after - 1].Carries(patch) && frames[after - 1].Ends()
  }

  lemma WholeStreamIsTaken(frames: seq<Frame>, patch: bool)
    requires frames != [] && IsWholeStream(frames[1..], patch)
    ensures AfterTransfer(frames, 1, patch) == |frames| && EndedAt(frames, 1, |frames|, patch)
  {
    var body := frames[1..];
    assert forall i :: 1 <= i < |frames| ==> frames[i] == body[i - 1];
    StreamIsTaken(frames, 1, |body|, patch);
  }

  /** The agent's end of the link: the frames that reached it. */
  class Incoming {
    const frames: seq<Frame>
    var at: nat

    ghost predicate Valid()
      reads this
    {
      at <= |frames|
    }

    constructor (frames: seq<Frame>)
      ensures this.frames == frames && at == 0
    {
      this.frames := frames;
      at := 0;
    }

    /** Reads one frame where one of a transfer's is required. Anything else is an
        error, and an undecodable frame has been taken off the wire all the same. */
    method Expect(patch: bool) returns (r: Result<Frame>)
      requires Valid()
      modifies this
      ensures Valid() && at == Min(old(at) + 1, |frames|)
      ensures r.Success? <==> old(at) < |frames| && frames[old(at)].Carries(patch)
      ensures r.Success? ==> r.value == frames[old(at)]
    {
      if at == |frames| {
        return Failure;
      }
      at := at + 1;
      return if frames[at - 1].Carries(patch) then Success(frames[at - 1]) else Failure;
    }
  }

  /** How the sending of a transfer ended, before any reply is read. */
  datatype Sent =
    | Committed          // the whole stream and its commit went out
    | Aborted            // the source could not be read to its end
    | Unfinished         // the final stat failed: neither commit nor abort went out
    | Dropped            // the link failed
    | Unopened           // the source could not be opened: nothing went out

  function Toks(tokens: seq<Token>): seq<Frame> {
    seq(|tokens|, i requires 0 <= i < |tokens| => Tok(tokens[i]))
  }

  /** The client's end of the link. A write that fails may or may not have reached
      the agent, so the frame is recorded either way. */
  class Link {
    var sent: seq<Frame>
    /** Whether the link has failed, as its sender finds when it writes, or waits for a reply. */
    ghost var dropped: bool
    /** Whether some of what was sent never got through. */
    var cut: bool

    constructor ()
      ensures sent == [] && !dropped
    {
      sent, dropped, cut := [], false, false;
    }

    method Write(frame: Frame) returns (outcome: Outcome)
      modifies this`sent, this`dropped
      ensures sent == old(sent) + [frame]
      ensures dropped == (old(dropped) || outcome.Fail?)
    {
      sent := sent + [frame];
      var drops: bool := *;
      dropped := dropped || drops;
      return if drops then Fail else Pass;
    }

    /** How much of what was sent reached the agent. */
    method Deliver() returns (arrived: nat)
      modifies this`cut
      ensures arrived <= |sent| && cut == (arrived < |sent|)
    {
      arrived :| arrived <= |sent|;
      cut := arrived < |sent|;
    }

    /** Whether the agent's reply got back, as none does to what never got through. */
    method HearBack() returns (heard: bool)
      modifies this`dropped
      ensures dropped == (old(dropped) || !heard) && (cut ==> !heard)
    {
      heard := *;
      heard := heard && !cut;
      dropped := dropped || !heard;
    }
  }
}
