/** The agent's side of a session: strict turns over one stream, whatever fails
    locally along the way. */
module Session {
  import opened Basics
  import opened Frames
  import Framing
  import opened Target
  import opened Tokens

  const PROTOCOL_VERSION: nat := 2

  /** One request as the agent takes it: the frames from `from` up to `to` are its. */
  datatype Turn = Turn(request: Request, from: nat, to: nat)

  /** Where the next request is looked for. */
  function NextRequest(frames: seq<Frame>, at: nat): (next: nat)
    requires at < |frames| && frames[at].Req?
    ensures at < next <= |frames|
  {
    var request := frames[at].request;
    if request.OpensTransfer() then AfterTransfer(frames, at + 1, request.PatchFile?) else at + 1
  }

  /** The turns an agent takes from position `at`: it stops at a goodbye, at the end
      of the stream, or at a frame that is no request. */
  function Turns(frames: seq<Frame>, at: nat): seq<Turn>
    requires at <= |frames|
    decreases |frames| - at
  {
    if at == |frames| || !frames[at].Req? then []
    else
      var turn := Turn(frames[at].request, at, NextRequest(frames, at));
      if turn.request.Goodbye? then [turn] else [turn] + Turns(frames, turn.to)
  }

  /** What may answer a request: a failure, or a reply of its own kind. */
  predicate Answers(request: Request, reply: Response) {
    || reply.ErrorReply?
    || match request
       case Hello(_) => false
       case Index => reply.IndexReply?
       case Signature(_, _) => reply.SignatureReply?
       case ResumeState(_) => reply.ResumeReply?
       case _ => reply.OkReply?
  }

  ghost predicate AnsweredInOrder(turns: seq<Turn>, replies: seq<Response>) {
    && |replies| <= |turns|
    && forall i :: 0 <= i < |replies| ==> Answers(turns[i].request, replies[i])
  }

  // ---------------------------------------------------------------------------
  // What a turn does, and what its reply says of that
  // ---------------------------------------------------------------------------

  /** A path's file, and what an unfinished transfer to it left. */
  datatype Here = Here(destination: Option<Stored>, temporary: Option<Bytes>)

  type Disk = map<Path, Here>

  function At(disk: Disk, path: Path): Here {
    if path in disk then disk[path] else Here(None, None)
  }

  ghost predicate SameBut(before: Disk, after: Disk, path: Path) {
    forall p :: p != path ==> At(after, p) == At(before, p)
  }

  ghost predicate Same(before: Disk, after: Disk) {
    forall p :: At(after, p) == At(before, p)
  }

  /** The file is exactly what a whole-file transfer carried, with the time it committed. */
  ghost predicate CarriedOver(taken: seq<Frame>, after: Here) {
    var n := |taken| - 1;
    && n >= 0 && taken[n].Chk? && taken[n].chunk.CommitFile? && after.temporary.None?
    && after.destination == Some(Stored(DataOf(taken[..n]), taken[n].chunk.mtime))
  }

  /** The file is what a patch built on what was there, with the hash and the time it
      committed. */
  ghost predicate BuiltOver(taken: seq<Frame>, resumeFrom: nat, full: Hash, before: Here, after: Here) {
    var n := |taken| - 1;
    && n >= 0 && taken[n].Tok? && taken[n].token.Commit? && after.temporary.None?
    && after.destination.Some? && after.destination.value.mtime == taken[n].token.mtime
    && full(after.destination.value.bytes) == taken[n].token.hash
    && Built(before.temporary, before.destination, resumeFrom, ContentFrames(taken))
       == Some(after.destination.value.bytes)
  }

  /** What the agent answers with. */
  datatype Service = Service(
    full: Hash,
    /** The encoded size of a reply. */
    size: Response -> nat,
    /** Whether the disk lets through the request that starts at a place of the stream. */
    works: nat -> bool)

  /** What a turn did to the disk, with the result it came to: a transfer that succeeded has
      replaced its file with what it carried, one that failed has left the file as it was,
      no other path is touched, and no other request touches any. */
  ghost predicate Did(turn: Turn, frames: seq<Frame>, before: Disk, after: Disk, result: Result<Response>,
                      service: Service)
    requires turn.from < turn.to <= |frames|
  {
    var taken, works := frames[turn.from + 1..turn.to], service.works(turn.from);
    match turn.request
    case WriteFile(path) =>
      && SameBut(before, after, path)
      && (result.Success? ==> result.value.OkReply? && works && CarriedOver(taken, At(after, path)))
      && (result.Failure? ==> At(after, path).destination == At(before, path).destination)
    case PatchFile(path, resumeFrom) =>
      && SameBut(before, after, path)
      && (result.Success? ==>
           && result.value.OkReply? && works
           && BuiltOver(taken, resumeFrom, service.full, At(before, path), At(after, path)))
      && (result.Failure? ==> At(after, path).destination == At(before, path).destination)
    case ResumeState(path) =>
      && Same(before, after)
      && var left := if At(before, path).temporary.Some? then At(before, path).temporary.value else [];
         result == if works then Success(ResumeReply(|left|, service.full(left))) else Failure
    case Hello(_) => Same(before, after) && result.Failure?
    case Index => Same(before, after) && result == if works then Success(IndexReply) else Failure
    case Signature(_, blockSize) =>
      Same(before, after) && result == if works && blockSize > 0 then Success(SignatureReply) else Failure
    case Goodbye => Same(before, after) && result == Success(OkReply)
    case _ => Same(before, after) && result == if works then Success(OkReply) else Failure
  }

  /** What is sent of a result: itself, or an error if it is a failure or does not fit. */
  function ReplyTo(result: Result<Response>, service: Service): Response {
    if result.Success? && service.size(result.value) <= Framing.MAX_FRAME then result.value else ErrorReply
  }

  /** Turns carried out one after another, from `disks[0]` on. */
  ghost predicate AllDid(turns: seq<Turn>, frames: seq<Frame>, disks: seq<Disk>, results: seq<Result<Response>>,
                         service: Service)
  {
    && |disks| == |results| + 1 && |results| <= |turns|
    && forall i :: 0 <= i < |results| ==>
         && turns[i].from < turns[i].to <= |frames|
         && Did(turns[i], frames, disks[i], disks[i + 1], results[i], service)
  }

  /** A reply each, as the result was. */
  ghost predicate RepliesTo(replies: seq<Response>, results: seq<Result<Response>>, service: Service) {
    && |replies| <= |results|
    && forall i :: 0 <= i < |replies| ==> replies[i] == ReplyTo(results[i], service)
  }

  /** What a client may conclude from a reply to a transfer: an acknowledgement, that the file
      is what was sent; an error, that it is as it was, unless an acknowledgement would not
      have fitted. */
  lemma RepliesMean(turns: seq<Turn>, frames: seq<Frame>, disks: seq<Disk>, results: seq<Result<Response>>,
                    replies: seq<Response>, service: Service, i: nat)
    requires AllDid(turns, frames, disks, results, service) && RepliesTo(replies, results, service)
    requires i < |replies| && turns[i].request.OpensTransfer()
    ensures turns[i].from < turns[i].to <= |frames| && (replies[i].OkReply? || replies[i].ErrorReply?)
    ensures var path, taken := turns[i].request.path, frames[turns[i].from + 1..turns[i].to];
      && SameBut(disks[i], disks[i + 1], path)
      && (replies[i].OkReply? ==>
           if turns[i].request.WriteFile? then CarriedOver(taken, At(disks[i + 1], path))
           else BuiltOver(taken, turns[i].request.resumeFrom, service.full, At(disks[i], path), At(disks[i + 1], path)))
      && (replies[i].ErrorReply? && service.size(OkReply) <= Framing.MAX_FRAME ==>
           At(disks[i + 1], path).destination == At(disks[i], path).destination)
  {
    hide CarriedOver, BuiltOver, SameBut;
    assert Did(turns[i], frames, disks[i], disks[i + 1], results[i], service);
  }

  // ---------------------------------------------------------------------------
  // Exchanges stay aligned
  // ---------------------------------------------------------------------------

  /** A request with the stream that belongs to it. */
  datatype Exchange = Exchange(request: Request, body: seq<Frame>) {
    /** A transfer's stream ends once, at its end; other requests have none. */
    ghost predicate WellFormed() {
      if request.OpensTransfer() then IsWholeStream(body, request.PatchFile?) else body == []
    }

    function Frames(): seq<Frame> {
      [Req(request)] + body
    }
  }

  function Wire(exchanges: seq<Exchange>): seq<Frame> {
    if exchanges == [] then [] else exchanges[0].Frames() + Wire(exchanges[1..])
  }

  /** The turns a client means: its requests, each with exactly its own frames. */
  function Meant(exchanges: seq<Exchange>, at: nat): seq<Turn> {
    if exchanges == [] then []
    else
      var to := at + |exchanges[0].Frames()|;
      [Turn(exchanges[0].request, at, to)] + Meant(exchanges[1..], to)
  }

  /** A goodbye, if any, is the last thing asked. */
  ghost predicate GoodbyeLast(exchanges: seq<Exchange>) {
    forall i :: 0 <= i < |exchanges| - 1 ==> !exchanges[i].request.Goodbye?
  }

  /** The agent takes exactly the turns the client means, each request with its own
      frames and no others, for any number of exchanges of any kinds. */
  lemma {:induction false} ExchangesStayAligned(before: seq<Frame>, exchanges: seq<Exchange>)
    requires forall i :: 0 <= i < |exchanges| ==> exchanges[i].WellFormed()
    requires GoodbyeLast(exchanges)
    ensures Turns(before + Wire(exchanges), |before|) == Meant(exchanges, |before|)
    decreases |exchanges|
  {
    hide NextRequest, Exchange.WellFormed, Turns, AfterTransfer;
    var frames := before + Wire(exchanges);
    if exchanges == [] {
      NoTurn(frames, |before|);
    } else {
      var first := exchanges[0];
      var own, rest := first.Frames(), Wire(exchanges[1..]);
      OwnFrames(before, first, rest);
      assert frames == before + own + rest;
      OneTurn(frames, |before|);
      if !first.request.Goodbye? {
        LaterExchanges(exchanges);
        ExchangesStayAligned(before + own, exchanges[1..]);
      }
    }
  }

  lemma LaterExchanges(exchanges: seq<Exchange>)
    requires exchanges != [] && GoodbyeLast(exchanges)
    ensures GoodbyeLast(exchanges[1..])
  {
    assert forall i :: 0 <= i < |exchanges| - 1 ==> exchanges[1..][i] == exchanges[i + 1];
  }

  lemma OwnFrames(before: seq<Frame>, exchange: Exchange, rest: seq<Frame>)
    requires exchange.WellFormed()
    ensures var frames := before + exchange.Frames() + rest;
      && |before| < |frames| && frames[|before|] == Req(exchange.request)
      && NextRequest(frames, |before|) == |before| + |exchange.Frames()|
  {
    var frames := before + exchange.Frames() + rest;
    if exchange.request.OpensTransfer() {
      var at, len := |before| + 1, |exchange.body|;
      assert forall i :: at <= i < at + len ==> frames[i] == exchange.body[i - at];
      StreamIsTaken(frames, at, len, exchange.request.PatchFile?);
    }
  }

  lemma {:induction false} MeantTurns(exchanges: seq<Exchange>, at: nat)
    ensures |Meant(exchanges, at)| == |exchanges|
    ensures forall i :: 0 <= i < |exchanges| ==> Meant(exchanges, at)[i].request == exchanges[i].request
    ensures LastOf(Meant(exchanges, at), at) == at + |Wire(exchanges)|
  {
    hide Exchange.Frames;
    if exchanges != [] {
      var to := at + |exchanges[0].Frames()|;
      var rest := Meant(exchanges[1..], to);
      MeantTurns(exchanges[1..], to);
      assert Meant(exchanges, at) == [Turn(exchanges[0].request, at, to)] + rest;
      assert |Wire(exchanges)| == |exchanges[0].Frames()| + |Wire(exchanges[1..])|;
      assert rest == [] ==> |Wire(exchanges[1..])| == 0;
    }
  }

  /** Exchanges served to their end, after whatever came before them: one reply each, in
      order and of its request's kind, and every frame consumed. */
  lemma OneReplyPerExchange(before: seq<Frame>, exchanges: seq<Exchange>, replies: seq<Response>, end: nat)
    requires forall i :: 0 <= i < |exchanges| ==> exchanges[i].WellFormed()
    requires GoodbyeLast(exchanges)
    requires var turns := Turns(before + Wire(exchanges), |before|);
      AnsweredInOrder(turns, replies) && |replies| == |turns| && end == LastOf(turns, |before|)
    ensures |replies| == |exchanges| && end == |before + Wire(exchanges)|
    ensures forall i :: 0 <= i < |exchanges| ==> Answers(exchanges[i].request, replies[i])
  {
    hide Answers, Exchange.WellFormed, Turns;
    ExchangesStayAligned(before, exchanges);
    MeantTurns(exchanges, |before|);
  }

  /** A client's whole session: the handshake, then its exchanges. */
  function Opened(exchanges: seq<Exchange>): seq<Frame> {
    [Req(Hello(PROTOCOL_VERSION))] + Wire(exchanges)
  }

  /** What the agent makes of such a session, served to its end: the handshake's reply,
      then one for each exchange, and nothing left over. */
  lemma WholeSession(exchanges: seq<Exchange>, output: seq<Response>, end: nat)
    requires forall i :: 0 <= i < |exchanges| ==> exchanges[i].WellFormed()
    requires GoodbyeLast(exchanges)
    requires Served(Opened(exchanges), output) && |output| == 1 + |Turns(Opened(exchanges), 1)|
    requires end == LastOf(Turns(Opened(exchanges), 1), 1)
    ensures |output| == 1 + |exchanges| && output[0] == HelloReply && end == |Opened(exchanges)|
    ensures forall i :: 0 <= i < |exchanges| ==> Answers(exchanges[i].request, output[1 + i])
  {
    hide Answers, Exchange.WellFormed, Turns;
    OneReplyPerExchange([Req(Hello(PROTOCOL_VERSION))], exchanges, output[1..], end);
    assert forall i :: 0 <= i < |exchanges| ==> output[1..][i] == output[1 + i];
  }

  /** Replies to an agreed session: to its handshake, and then to its turns so far. */
  ghost predicate Served(frames: seq<Frame>, output: seq<Response>) {
    && frames != [] && output != [] && output[0] == HelloReply
    && AnsweredInOrder(Turns(frames, 1), output[1..])
  }

  /** The agent is at the next request after a transfer exactly when the stream before it
      was ended. */
  lemma NextRequestStandsIff(transfer: Request, body: seq<Frame>, next: Request, rest: seq<Frame>)
    requires transfer.OpensTransfer() && IsStream(body, transfer.PatchFile?)
    ensures var frames := [Req(transfer)] + body + [Req(next)] + rest;
      NextRequest(frames, 0) == |body| + 1 <==> IsWholeStream(body, transfer.PatchFile?)
  {
    var frames := [Req(transfer)] + body + [Req(next)] + rest;
    assert forall i :: 0 <= i < |body| ==> frames[i + 1] == body[i];
    if IsWholeStream(body, transfer.PatchFile?) {
      StreamIsTaken(frames, 1, |body|, transfer.PatchFile?);
    } else {
      UnfinishedTransferSwallowsNextRequest(transfer, body, next, rest);
    }
  }

  /** A request that follows a stream which was never ended is taken for a part of it. */
  lemma UnfinishedTransferSwallowsNextRequest(transfer: Request, body: seq<Frame>, next: Request, rest: seq<Frame>)
    requires transfer.OpensTransfer()
    requires forall i :: 0 <= i < |body| ==> body[i].Carries(transfer.PatchFile?) && !body[i].Ends()
    ensures var frames := [Req(transfer)] + body + [Req(next)] + rest;
            NextRequest(frames, 0) == |body| + 2 && frames[|body| + 1] == Req(next)
  {
    var frames := [Req(transfer)] + body + [Req(next)] + rest;
    assert forall i :: 0 <= i < |body| ==> frames[i + 1] == body[i];
    RunsInto(frames, 1, |body|, transfer.PatchFile?);
  }

  lemma {:induction false} RunsInto(frames: seq<Frame>, at: nat, len: nat, patch: bool)
    requires at + len < |frames| && !frames[at + len].Carries(patch)
    requires forall i :: at <= i < at + len ==> frames[i].Carries(patch) && !frames[i].Ends()
    ensures AfterTransfer(frames, at, patch) == at + len + 1
    decreases len
  {
    if len > 0 {
      StreamGoesOn(frames, at, patch);
      RunsInto(frames, at + 1, len - 1, patch);
    }
  }

  // ---------------------------------------------------------------------------
  // Serving
  // ---------------------------------------------------------------------------

  /** Where replies go. A write that fails may or may not have got through. */
  class Output {
    var replies: seq<Response>
    ghost var dropped: bool

    constructor ()
      ensures replies == [] && !dropped
    {
      replies, dropped := [], false;
    }

    method Send(reply: Response) returns (outcome: Outcome)
      modifies this
      ensures outcome.Pass? ==> replies == old(replies) + [reply]
      ensures outcome.Fail? ==> replies == old(replies)
      ensures dropped == (old(dropped) || outcome.Fail?)
    {
      var drops: bool := *;
      if drops {
        dropped := true;
        return Fail;
      }
      replies := replies + [reply];
      return Pass;
    }
  }

  /** Why a session ended: its stream or a goodbye, its handshake, a frame that is no
      request, a reply that cannot even be sent as an error, or its link. */
  datatype Ended = Finished | NotAgreed | Undecodable | Unserved | LinkGone

  class Agent {
    var targets: map<Path, Target>
    const strong: Hash
    const service: Service

    /** One target to a path. */
    ghost predicate Valid()
      reads this
    {
      forall p, q :: p in targets && q in targets && targets[p] == targets[q] ==> p == q
    }

    ghost function Footprint(): set<object>
      reads this
    {
      set path | path in targets :: targets[path]
    }

    ghost function Contents(): Disk
      reads this, Footprint()
    {
      map path | path in targets :: Here(targets[path].destination, targets[path].temporary)
    }

    constructor (targets: map<Path, Target>, strong: Hash, service: Service)
      requires forall p, q :: p in targets && q in targets && targets[p] == targets[q] ==> p == q
      ensures Valid() && this.targets == targets && this.strong == strong && this.service == service
    {
      this.targets, this.strong, this.service := targets, strong, service;
    }

    /** What there is at a path: of one that has not been met, nothing yet. */
    method TargetFor(path: Path) returns (target: Target)
      requires Valid()
      modifies this
      ensures Valid() && path in targets && targets[path] == target && fresh(Footprint() - old(Footprint()))
      ensures Same(old(Contents()), Contents())
    {
      if path in targets {
        return targets[path];
      }
      var mode: Mode := *;
      target := new Target(None, None, mode);
      targets := targets[path := target];
    }

    /** Receives a file into a path, and touches no other. */
    method FileInto(path: Path, input: Incoming, place: nat) returns (outcome: Outcome)
      requires Valid() && path in targets && input.Valid() && input !in Footprint() && place + 1 == input.at
      modifies input, targets[path]
      ensures input.Valid() && input.at == AfterTransfer(input.frames, old(input.at), false)
      ensures SameBut(old(Contents()), Contents(), path)
      ensures outcome.Pass? ==>
        service.works(place) && CarriedOver(input.frames[place + 1..input.at], At(Contents(), path))
      ensures outcome.Fail? ==> At(Contents(), path).destination == At(old(Contents()), path).destination
    {
      hide AfterTransfer, FileEnded, EndedAt, CarriedOver;
      var target := targets[path];
      ghost var ending;
      outcome, ending := target.ReceiveFile(input, service.works(place));
      FileIsCarriedOver(ending, input.frames[place + 1..input.at], EndedAt(input.frames, place + 1, input.at, false),
                        target.destination, target.temporary, target.faulted);
    }

    /** Receives a patch into a path, and touches no other. */
    method PatchInto(path: Path, resumeFrom: nat, input: Incoming, place: nat) returns (outcome: Outcome)
      requires Valid() && path in targets && input.Valid() && input !in Footprint() && place + 1 == input.at
      modifies input, targets[path]
      ensures input.Valid() && input.at == AfterTransfer(input.frames, old(input.at), true)
      ensures SameBut(old(Contents()), Contents(), path)
      ensures outcome.Pass? ==>
        && service.works(place)
        && BuiltOver(input.frames[place + 1..input.at], resumeFrom, service.full,
                     At(old(Contents()), path), At(Contents(), path))
      ensures outcome.Fail? ==> At(Contents(), path).destination == At(old(Contents()), path).destination
    {
      hide AfterTransfer, PatchEnded, EndedAt, BuiltOver;
      var target := targets[path];
      ghost var here := Here(target.destination, target.temporary);
      ghost var ending;
      outcome, ending := target.ReceivePatch(input, resumeFrom, service.works(place), service.full);
      PatchIsBuiltOver(ending, input.frames[place + 1..input.at], EndedAt(input.frames, place + 1, input.at, true),
                       resumeFrom, service.full, here, Here(target.destination, target.temporary), target.faulted);
    }

    lemma HereIs(path: Path)
      requires path in targets
      ensures At(Contents(), path) == Here(targets[path].destination, targets[path].temporary)
    {
    }

    /** Carries out one request, which started at `place`. A transfer's stream has been taken
        off the wire whatever comes of it. */
    method Handle(request: Request, input: Incoming, place: nat) returns (r: Result<Response>)
      requires Valid() && input.Valid() && !request.Goodbye?
      requires input !in Footprint() && place + 1 == input.at
      modifies this, input, Footprint()
      ensures Valid() && input.Valid() && fresh(Footprint() - old(Footprint()))
      ensures input.at == if request.OpensTransfer() then AfterTransfer(input.frames, old(input.at), request.PatchFile?)
                          else old(input.at)
      ensures r.Success? ==> Answers(request, r.value)
      ensures Did(Turn(request, place, input.at), input.frames, old(Contents()), Contents(), r, service)
    {
      hide AfterTransfer, CarriedOver, BuiltOver, Agent.Contents;
      var works := service.works(place);
      match request {
        case WriteFile(path) =>
          var _ := TargetFor(path);
          var outcome := FileInto(path, input, place);
          return if outcome.Pass? then Success(OkReply) else Failure;
        case PatchFile(path, resumeFrom) =>
          var _ := TargetFor(path);
          var outcome := PatchInto(path, resumeFrom, input, place);
          return if outcome.Pass? then Success(OkReply) else Failure;
        case ResumeState(path) =>
          var target := TargetFor(path);
          HereIs(path);
          var state := target.ResumeState(works, service.full);
          return if state.Success? then Success(ResumeReply(state.value.0, state.value.1)) else Failure;
        case Hello(_) =>
          return Failure;
        case Index =>
          return if works then Success(IndexReply) else Failure;
        case Signature(_, blockSize) =>
          return if works && blockSize > 0 then Success(SignatureReply) else Failure;
        case _ =>
          return if works then Success(OkReply) else Failure;
      }
    }

    /** Sends a reply as it is if its frame is small enough, and otherwise an error. */
    method EncodeReply(response: Response) returns (r: Result<Response>)
      ensures service.size(response) <= Framing.MAX_FRAME ==> r == Success(response)
      ensures service.size(response) > Framing.MAX_FRAME && service.size(ErrorReply) <= Framing.MAX_FRAME ==>
        r == Success(ErrorReply)
      ensures r.Failure? <==> service.size(response) > Framing.MAX_FRAME && service.size(ErrorReply) > Framing.MAX_FRAME
    {
      if service.size(response) <= Framing.MAX_FRAME {
        return Success(response);
      }
      return if service.size(ErrorReply) <= Framing.MAX_FRAME then Success(ErrorReply) else Failure;
    }

    /** The handshake. A peer is answered if its first frame is a request at all, and is
        agreed with only if that is a hello of this version. */
    method Greet(input: Incoming, output: Output) returns (agreed: bool, up: bool)
      requires input.Valid() && input.at == 0 && output.replies == [] && !output.dropped
      modifies input, output
      ensures input.Valid()
      ensures up <==> !output.dropped
      ensures !output.dropped ==> (agreed <==> input.frames != [] && input.frames[0] == Req(Hello(PROTOCOL_VERSION)))
      ensures agreed ==> !output.dropped && input.at == 1 && output.replies == [HelloReply]
      ensures !agreed && !output.dropped ==>
        output.replies == if input.frames != [] && input.frames[0].Req? then [ErrorReply] else []
    {
      if input.at == |input.frames| {
        return false, true;
      }
      input.at := 1;
      if !input.frames[0].Req? {
        return false, true;
      }
      agreed := input.frames[0].request == Hello(PROTOCOL_VERSION);
      var outcome := output.Send(if agreed then HelloReply else ErrorReply);
      up := outcome.Pass?;
      agreed := agreed && up;
    }

    /** A whole session: the handshake and, once it is agreed, the requests. */
    method Serve(input: Incoming, output: Output)
      returns (ended: Ended, ghost disks: seq<Disk>, ghost results: seq<Result<Response>>)
      requires Valid() && input.Valid() && input.at == 0 && output.replies == [] && !output.dropped
      requires input !in Footprint() && output !in Footprint()
      modifies this, input, output, Footprint()
      ensures Valid() && (ended.LinkGone? <==> output.dropped)
      ensures |results| <= |output.replies|
      ensures !output.dropped ==>
        (ended.NotAgreed? <==> !(input.frames != [] && input.frames[0] == Req(Hello(PROTOCOL_VERSION))))
      ensures ended.NotAgreed? ==>
        output.replies == if input.frames != [] && input.frames[0].Req? then [ErrorReply] else []
      ensures ended.Unserved? ==> service.size(ErrorReply) > Framing.MAX_FRAME
      ensures !ended.NotAgreed? && !ended.LinkGone? ==> Served(input.frames, output.replies)
      ensures ended.Finished? || ended.Undecodable? ==> |output.replies| == 1 + |Turns(input.frames, 1)|
      ensures ended.Finished? ==> input.at == LastOf(Turns(input.frames, 1), 1)
      ensures ended.Undecodable? ==>
        var next := LastOf(Turns(input.frames, 1), 1);
        next < |input.frames| && !input.frames[next].Req?
      ensures disks != [] && disks[0] == old(Contents()) && disks[|disks| - 1] == Contents()
      ensures input.frames != [] ==> AllDid(Turns(input.frames, 1), input.frames, disks, results, service)
      ensures input.frames == [] ==> |disks| == 1
      ensures results != [] ==> output.replies != [] && RepliesTo(output.replies[1..], results, service)
      ensures ended.Finished? || ended.Undecodable? ==> |results| == |Turns(input.frames, 1)|
    {
      hide NextRequest, Answers, AfterTransfer, Turns, AnsweredInOrder, AllDid, RepliesTo;
      disks, results := [Contents()], [];
      NothingDone(input.frames, Contents(), service);
      var agreed, up := Greet(input, output);
      if !agreed {
        return if up then NotAgreed else LinkGone, disks, results;
      }
      ghost var replies;
      ended, replies, disks, results := ServeRequests(input, output);
      assert output.replies[1..] == replies;
    }

    /** The encoded reply to one request: its own, or the error it came to. */
    method Respond(request: Request, input: Incoming, place: nat)
      returns (encoded: Result<Response>, ghost result: Result<Response>)
      requires Valid() && input.Valid() && input !in Footprint() && place + 1 == input.at
      modifies this, input, Footprint()
      ensures Valid() && input.Valid() && fresh(Footprint() - old(Footprint()))
      ensures input.at == if request.OpensTransfer() then AfterTransfer(input.frames, old(input.at), request.PatchFile?)
                          else old(input.at)
      ensures Did(Turn(request, place, input.at), input.frames, old(Contents()), Contents(), result, service)
      ensures encoded.Success? ==> encoded.value == ReplyTo(result, service) && Answers(request, encoded.value)
      ensures encoded.Failure? ==> service.size(ErrorReply) > Framing.MAX_FRAME
    {
      hide Answers, AfterTransfer, Did, Agent.Contents;
      var response := OkReply;
      FailureAnswers(request);
      result := Success(OkReply);
      if request.Goodbye? {
        GoodbyeDoesNothing(Turn(request, place, input.at), input.frames, Contents(), service);
      } else {
        var r := Handle(request, input, place);
        response := if r.Success? then r.value else ErrorReply;
        result := r;
      }
      encoded := EncodeReply(response);
    }

    /** Serves the requests of an agreed session: each turn's frames are taken exactly, and it
        is answered once, in order, and as it went. */
    method ServeRequests(input: Incoming, output: Output)
      returns (ended: Ended, ghost replies: seq<Response>, ghost disks: seq<Disk>,
               ghost results: seq<Result<Response>>)
      requires Valid() && input.Valid() && !output.dropped && input !in Footprint() && output !in Footprint()
      modifies this, input, output, Footprint()
      ensures Valid() && !ended.NotAgreed? && output.replies == old(output.replies) + replies
      ensures AnsweredInOrder(Turns(input.frames, old(input.at)), replies)
      ensures ended.Unserved? ==> service.size(ErrorReply) > Framing.MAX_FRAME
      ensures ended.LinkGone? <==> output.dropped
      ensures ended.Finished? || ended.Undecodable? ==> |replies| == |Turns(input.frames, old(input.at))|
      ensures ended.Finished? ==> input.at == LastOf(Turns(input.frames, old(input.at)), old(input.at))
      ensures ended.Undecodable? ==>
        var next := LastOf(Turns(input.frames, old(input.at)), old(input.at));
        next < |input.frames| && !input.frames[next].Req?
      ensures AllDid(Turns(input.frames, old(input.at)), input.frames, disks, results, service)
      ensures RepliesTo(replies, results, service) && |results| <= |replies| + 1
      ensures ended.Finished? || ended.Undecodable? ==> |results| == |replies|
      ensures disks != [] && disks[0] == old(Contents()) && disks[|disks| - 1] == Contents()
    {
      hide NextRequest, Answers, AfterTransfer, Turns, AnsweredInOrder, SoFar, LastOf, Did, AllDid, RepliesTo, Along;
      hide Agent.Contents;
      replies, disks, results := [], [Contents()], [];
      ghost var done: seq<Turn> := [];
      AlongNothing(input.frames, input.at, Contents(), service);
      while input.at < |input.frames|
        invariant Valid() && fresh(Footprint() - old(Footprint()))
        invariant input.Valid() && !output.dropped && output.replies == old(output.replies) + replies
        invariant Along(input.frames, old(input.at), input.at, done, replies, disks, results, service)
        invariant disks != [] && disks[0] == old(Contents()) && disks[|disks| - 1] == Contents()
        decreases |input.frames| - input.at
      {
        ghost var at := input.at;
        AlongEnds(input.frames, old(input.at), at, done, replies, disks, results, service);
        if !input.frames[input.at].Req? {
          return Undecodable, replies, disks, results;
        }
        var request := input.frames[input.at].request;
        OneTurn(input.frames, at);
        input.at := input.at + 1;
        var encoded; ghost var result;
        encoded, result := Respond(request, input, input.at - 1);
        AlongOneMore(input.frames, old(input.at), at, done, replies, disks, results, service, Contents(), result);
        disks, results := disks + [Contents()], results + [result];
        if encoded.Failure? {
          return Unserved, replies, disks, results;
        }
        var outcome := output.Send(encoded.value);
        if outcome.Fail? {
          return LinkGone, replies, disks, results;
        }
        replies, done := replies + [encoded.value], done + [Turn(request, at, input.at)];
        if request.Goodbye? {
          return Finished, replies, disks, results;
        }
      }
      AlongEnds(input.frames, old(input.at), input.at, done, replies, disks, results, service);
      return Finished, replies, disks, results;
    }
  }

  /** Some of a stream's turns taken, carried out and answered, and the agent at the next. */
  ghost predicate Along(frames: seq<Frame>, start: nat, at: nat, done: seq<Turn>, replies: seq<Response>,
                        disks: seq<Disk>, results: seq<Result<Response>>, service: Service)
  {
    && SoFar(frames, start, at, done, replies) && |results| == |replies|
    && AllDid(Turns(frames, start), frames, disks, results, service) && RepliesTo(replies, results, service)
  }

  lemma AlongNothing(frames: seq<Frame>, start: nat, disk: Disk, service: Service)
    requires start <= |frames|
    ensures Along(frames, start, start, [], [], [disk], [], service)
  {
    hide Turns;
    SoFarNothing(frames, start);
    NothingDone(frames, disk, service);
  }

  lemma AlongEnds(frames: seq<Frame>, start: nat, at: nat, done: seq<Turn>, replies: seq<Response>,
                  disks: seq<Disk>, results: seq<Result<Response>>, service: Service)
    requires Along(frames, start, at, done, replies, disks, results, service)
    ensures start <= at <= |frames|
    ensures AnsweredInOrder(Turns(frames, start), replies) && |results| == |replies|
    ensures AllDid(Turns(frames, start), frames, disks, results, service) && RepliesTo(replies, results, service)
    ensures at == |frames| || !frames[at].Req? ==>
      |replies| == |Turns(frames, start)| && at == LastOf(Turns(frames, start), start)
  {
    hide Turns, AnsweredInOrder, LastOf, AllDid, RepliesTo;
    SoFarEnds(frames, start, at, done, replies);
  }

  lemma AlongOneMore(frames: seq<Frame>, start: nat, at: nat, done: seq<Turn>, replies: seq<Response>,
                     disks: seq<Disk>, results: seq<Result<Response>>, service: Service,
                     disk: Disk, result: Result<Response>)
    requires Along(frames, start, at, done, replies, disks, results, service) && at < |frames| && frames[at].Req?
    requires start <= at
    requires disks != [] && var turn := Turn(frames[at].request, at, NextRequest(frames, at));
      Did(turn, frames, disks[|disks| - 1], disk, result, service)
    ensures AllDid(Turns(frames, start), frames, disks + [disk], results + [result], service)
    ensures RepliesTo(replies, results + [result], service) && |results| == |replies|
    ensures Answers(frames[at].request, ReplyTo(result, service)) ==>
      var next := NextRequest(frames, at);
      var turn := Turn(frames[at].request, at, next);
      var more := replies + [ReplyTo(result, service)];
      if turn.request.Goodbye? then
        && AnsweredInOrder(Turns(frames, start), more) && |more| == |Turns(frames, start)|
        && next == LastOf(Turns(frames, start), start) && RepliesTo(more, results + [result], service)
      else Along(frames, start, next, done + [turn], more, disks + [disk], results + [result], service)
  {
    hide Answers, NextRequest, Turns, AnsweredInOrder, SoFar, LastOf, Did, AllDid, RepliesTo;
    NextTurnIs(frames, start, at, done, replies);
    AllDidCounts(Turns(frames, start), frames, disks, results, service);
    OneMoreDone(Turns(frames, start), frames, disks, results, service, disk, result);
    OneMoreReply(replies, results, service, result);
    if Answers(frames[at].request, ReplyTo(result, service)) {
      SoFarOneMore(frames, start, at, done, replies, ReplyTo(result, service));
    }
  }

  lemma AllDidCounts(turns: seq<Turn>, frames: seq<Frame>, disks: seq<Disk>, results: seq<Result<Response>>,
                     service: Service)
    requires AllDid(turns, frames, disks, results, service)
    ensures |disks| == |results| + 1
  {
  }

  lemma FileIsCarriedOver(ending: Ending, taken: seq<Frame>, complete: bool, dest: Option<Stored>,
                          temp: Option<Bytes>, faulted: bool)
    requires FileEnded(ending, taken, complete, dest, temp, faulted)
    ensures ending.Published? ==> CarriedOver(taken, Here(dest, temp))
  {
    hide DataOf;
  }

  lemma PatchIsBuiltOver(ending: Ending, taken: seq<Frame>, complete: bool, resumeFrom: nat, full: Hash,
                         before: Here, after: Here, faulted: bool)
    requires PatchEnded(ending, taken, complete, resumeFrom, full, before.destination, before.temporary,
                        after.destination, after.temporary, faulted)
    ensures ending.Published? ==> BuiltOver(taken, resumeFrom, full, before, after)
  {
    hide Built, ContentFrames;
  }

  lemma GoodbyeDoesNothing(turn: Turn, frames: seq<Frame>, disk: Disk, service: Service)
    requires turn.request.Goodbye? && turn.from < turn.to <= |frames|
    ensures Did(turn, frames, disk, disk, Success(OkReply), service)
  {
  }

  lemma NothingDone(frames: seq<Frame>, disk: Disk, service: Service)
    ensures forall turns :: AllDid(turns, frames, [disk], [], service)
    ensures RepliesTo([], [], service)
  {
  }

  lemma OneMoreDone(turns: seq<Turn>, frames: seq<Frame>, disks: seq<Disk>, results: seq<Result<Response>>,
                    service: Service, disk: Disk, result: Result<Response>)
    requires AllDid(turns, frames, disks, results, service) && |results| < |turns|
    requires var turn := turns[|results|];
      turn.from < turn.to <= |frames| && Did(turn, frames, disks[|results|], disk, result, service)
    ensures AllDid(turns, frames, disks + [disk], results + [result], service)
  {
    hide Did;
  }

  lemma OneMoreReply(replies: seq<Response>, results: seq<Result<Response>>, service: Service,
                     result: Result<Response>)
    requires RepliesTo(replies, results, service) && |replies| == |results|
    ensures RepliesTo(replies + [ReplyTo(result, service)], results + [result], service)
    ensures RepliesTo(replies, results + [result], service)
  {
    hide ReplyTo;
  }

  /** Where the turns taken so far end, the next begins. */
  lemma NextTurnIs(frames: seq<Frame>, start: nat, at: nat, done: seq<Turn>, replies: seq<Response>)
    requires SoFar(frames, start, at, done, replies) && at < |frames| && frames[at].Req?
    ensures |done| < |Turns(frames, start)| && |replies| == |done|
    ensures Turns(frames, start)[|done|] == Turn(frames[at].request, at, NextRequest(frames, at))
  {
    hide Answers, NextRequest, Turns, AnsweredInOrder;
    OneTurn(frames, at);
  }

  /** Some of a stream's turns taken and answered, and the agent at the next. */
  ghost predicate SoFar(frames: seq<Frame>, start: nat, at: nat, done: seq<Turn>, replies: seq<Response>) {
    && start <= at <= |frames|
    && Turns(frames, start) == done + Turns(frames, at)
    && |replies| == |done| && AnsweredInOrder(Turns(frames, start), replies)
    && LastOf(done, start) == at
  }

  lemma SoFarNothing(frames: seq<Frame>, start: nat)
    requires start <= |frames|
    ensures SoFar(frames, start, start, [], [])
  {
    hide Turns, Answers;
  }

  lemma SoFarEnds(frames: seq<Frame>, start: nat, at: nat, done: seq<Turn>, replies: seq<Response>)
    requires SoFar(frames, start, at, done, replies)
    ensures AnsweredInOrder(Turns(frames, start), replies)
    ensures at == |frames| || !frames[at].Req? ==>
      |replies| == |Turns(frames, start)| && at == LastOf(Turns(frames, start), start)
  {
    hide Answers, NextRequest;
    if at == |frames| || !frames[at].Req? {
      NoTurn(frames, at);
    }
  }

  lemma SoFarOneMore(frames: seq<Frame>, start: nat, at: nat, done: seq<Turn>, replies: seq<Response>, reply: Response)
    requires SoFar(frames, start, at, done, replies) && at < |frames| && frames[at].Req?
    requires Answers(frames[at].request, reply)
    ensures var next := NextRequest(frames, at);
      var turn := Turn(frames[at].request, at, next);
      if turn.request.Goodbye? then
        && AnsweredInOrder(Turns(frames, start), replies + [reply]) && |replies| + 1 == |Turns(frames, start)|
        && next == LastOf(Turns(frames, start), start)
      else SoFar(frames, start, next, done + [turn], replies + [reply])
  {
    hide Answers, NextRequest, Turns, AnsweredInOrder;
    OneTurn(frames, at);
    assert Turns(frames, start)[|replies|] == Turn(frames[at].request, at, NextRequest(frames, at));
    OneMoreAnswer(Turns(frames, start), replies, reply);
  }

  /** Where the last turn ends. */
  ghost function LastOf(turns: seq<Turn>, start: nat): nat {
    if turns == [] then start else turns[|turns| - 1].to
  }

  lemma NoTurn(frames: seq<Frame>, at: nat)
    requires at <= |frames| && (at == |frames| || !frames[at].Req?)
    ensures Turns(frames, at) == []
  {
  }

  lemma OneTurn(frames: seq<Frame>, at: nat)
    requires at < |frames| && frames[at].Req?
    ensures var turn := Turn(frames[at].request, at, NextRequest(frames, at));
            Turns(frames, at) == [turn] + if turn.request.Goodbye? then [] else Turns(frames, turn.to)
    ensures NextRequest(frames, at) ==
      var request := frames[at].request;
      if request.OpensTransfer() then AfterTransfer(frames, at + 1, request.PatchFile?) else at + 1
  {
  }

  lemma OneMoreAnswer(turns: seq<Turn>, replies: seq<Response>, reply: Response)
    requires AnsweredInOrder(turns, replies) && |replies| < |turns| && Answers(turns[|replies|].request, reply)
    ensures AnsweredInOrder(turns, replies + [reply])
  {
    hide Answers;
  }

  lemma FailureAnswers(request: Request)
    ensures Answers(request, ErrorReply) && Answers(Goodbye, OkReply)
  {
  }
}
