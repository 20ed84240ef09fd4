# Treesync, modelled and verified in Dafny

Treesync mirrors a source tree onto a target, on this machine or over SSH. This
project models the four parts of it that are hard to get right, and proves what they
are for. `dafny verify dfyconfig.toml` checks everything.

## What is modelled

**The delta transfer.** The agent describes the file it holds block by block
(`Signature`). The client moves a window along the source with a rolling checksum
(`Rolling`) and turns it into copies and literals (`Matcher`, against the buffer-free
specification in `GreedyScan` and the token streams of `Tokens`). `SendPatch` drops and
trims what the target already has; `Target` rebuilds a temporary and publishes it by a
rename, or not at all; `SendFile` is the whole-file transfer; `PatchFile` is the retry
loop around them. `Reader` is the source as an oracle of read sizes and failures.
`TwoAgents` is a retry begun while the agent of the lost connection is still at work, as
two agents' steps in any order over the files and names of one directory.

**Framing and sessions.** `Framing` is the length-prefixed wire format, `WireIndex` how an
index crosses it, `Frames` the messages and both ends of the link, and `Session` the
agent's loop: one reply per request, whatever fails.

**Plan, order and apply.** `Reconcile` compares two indexes into a plan, `Ordering` and
`PlanFacts` are about its order and its scope, `LocalSink` is a directory tree and the
operations on it, and `Convergence` carries plans out and says what a pass leaves.

**Event accounting.** `WatchEvents` translates backend events, `RescanSignal` keeps the
scope of what was lost, `WatcherSteps` is the backend's thread and the consumer in every
interleaving of their steps, and `EventQueue` collapses the stream into batches.

## How

Files, links, disks and schedulers act by arbitrary choice, in `Reader`, `Link`,
`Target.Try`, `EventStream` and the steps of `WatcherSteps` and `TwoAgents`; ghost fields
record which of them failed, so that contracts can say what happens when none does. When
time passes and in what order hash maps are walked are arbitrary choices too. What
surrounds each attempt of a retry loop is given, as a list of rounds, and whether the disk
lets a request of a session through, by its place in the stream.

Hash functions are parameters. Two hypotheses are made about them, separately and only
where needed: `CollisionFree` of the whole-file hash, on which the safety of a transfer
rests, and `NoBlockCollision` of the sixteen-byte block hash, on windows of this source
against blocks of this target, on which only the success of one rests. The serializer and
the compressor are parameters of which it is asked that decoding undoes encoding.

Paths are sequences of plain names, relative in the reconciler and absolute in the
watcher. Permission bits are 12-bit words. Everything the source computes in machine
words is computed in them here: 32-bit wrapping and 16-bit masking in `Rolling`, 64-bit
truncation in `WireIndex`, the 31-bit length in `Framing`.

## Where the code does less than it says

The code is modelled as it is. Each of these has a theorem with the exact condition, or
a lemma that exhibits it:

- Metadata is compared as it was before the copy (`reconcile/mod.rs:270`), while
  publishing makes a new file (`sink/local.rs:233`), so a replaced file can lose its mode
  until the next pass. `SecondAndThirdPlans` says exactly when;
  `RewrittenFileLosesItsMode` is the case.
- A rescan clears every pending path (`queue/mod.rs:301`), also those its root does not
  contain: `NothingLostIff`, `RescanElsewhereLosesPaths`.
- When the final stat fails, the client returns without a commit or an abort
  (`remote/ssh.rs:890`), and the next request is taken for part of the transfer:
  `SendPatch`, `SendFile` and `NextRequestStandsIff` give the condition, which is that
  stat; `UnfinishedTransferSwallowsNextRequest` is the case.
- A named path below what is now a regular file fails the whole index
  (`reconcile/index.rs:443`), although a path that is gone is meant to be an answer, and
  one below a link is read through it: `IndexIsSureIff`,
  `ReplacedDirectoryLosesTheIndex`.
- A retry after a lost reply reuses the old signature (`remote/ssh.rs:1267`), and may be
  refused: exactly when `RetryAfterLostReplyIsAcceptedIff` says, as in
  `RetryAfterLostReplyCanBeRefused`. Safety is unaffected.
- The temporary's name is the same for every agent, and what is hashed is what was built,
  not the file that is renamed (`remote/agent.rs:922`, `remote/agent.rs:945`). A new
  connection is used without knowing that the old agent has stopped (`remote/ssh.rs:584`),
  so that two of them can publish a torn file between them: `OverlapIsSafeIff` says
  exactly when they cannot, `LateStartTears`, `LateCommitTears` and `LateWritesTear` how
  they can.
- A consumer already waiting for the channel is not woken by an overflow
  (`watcher/scope.rs:75`): `OverflowDoesNotWakeReceiver`. What it misses is exactly what
  `QuietMeansSettled` says.
- A rename reported in one event without two paths yields nothing at all
  (`watcher/mod.rs:346`), although the comment there prefers a rescan:
  `TranslateNamesAllIff`.
- A time too far from the epoch is truncated on its way back (`remote/protocol.rs:342`):
  `TimeSurvivesIff`, `UnrepresentableIsAlwaysCopied`.

## Model

| member | source | states |
|---|---|---|
| `Rolling.Rolling.constructor` | crates/treesync/src/remote/delta.rs:138-153 | summing a window in wrapping 32-bit words leaves both words equal to the window's plain and position-weighted sums modulo 2^16, for every window length and content |
| `Rolling.Rolling.Roll` | crates/treesync/src/remote/delta.rs:159-171 | rolling out the first byte of any window the words describe makes them describe the window one further on |
| `Rolling.Rolling.Digest` | crates/treesync/src/remote/delta.rs:173-175 | the digest of words that describe a window is that window's checksum, however the words were reached |
| `Rolling.Slide` | crates/treesync/src/remote/delta.rs:124-129 | by how much the two sums of any window change when it slides by a byte |
| `Rolling.RollStep` | crates/treesync/src/remote/delta.rs:155-171 | words that describe a window describe the next one after a roll, wrapping at 32 bits and masking to 16 included |
| `Rolling.RollingIsExact` | crates/treesync/src/remote/delta.rs:138-175 | after any number of rolls the words and the digest are those of the window reached, computed afresh |
| `Signature.FillBlock` | crates/treesync/src/remote/delta.rs:192-224 | a block buffer ends up with exactly the next bytes of the file, short only at its end, whatever sizes the reads return; it fails only if a read does |
| `Signature.SignatureOf` | crates/treesync/src/remote/delta.rs:192-224 | the signature describes every whole block of the file, in order, and never a trailing partial one; it fails only if a read does |
| `Signature.SignatureIsUnique` | crates/treesync/src/remote/delta.rs:118-122 | a file has one signature at a block size, so describing it is a complete specification |
| `Signature.Answer` | crates/treesync/src/remote/agent.rs:625-663 | refused exactly for a zero block size or an unreadable file; an absent file gets an empty signature, any other its own |
| `Tokens.JoinedKeepsMeaning` | crates/treesync/src/remote/protocol.rs:223-259 | merging adjacent literals never changes what a stream rebuilds |
| `Tokens.RebuildConcat` | crates/treesync/src/remote/protocol.rs:230-259 | a stream rebuilds what its two parts rebuild, one after the other, and nothing if either reuses a range the file does not have |
| `Tokens.BeginningRebuilds` | crates/treesync/src/remote/protocol.rs:230-259 | a stream cut short, even inside a literal, rebuilds the beginning of what the whole of it would |
| `GreedyScan.LowestHit` | crates/treesync/src/remote/delta.rs:409-418 | the lookup names the lowest block that agrees in both checksums, and none exactly when none does |
| `GreedyScan.LookupsAgree` | crates/treesync/src/remote/delta.rs:409-418 | with no block-hash collision, looking a window up by checksums finds what comparing it with every block would |
| `GreedyScan.ScanIsNaive` | crates/treesync/src/remote/delta.rs:288-451 | with no block-hash collision, the scan by checksums is token for token the naive scan that compares content and takes the lowest block |
| `GreedyScan.ScanFromRebuilds` | crates/treesync/src/remote/delta.rs:308-437 | from any position, the scan completes the source, provided its lookup only names blocks equal to the window |
| `GreedyScan.NaiveScanRebuilds` | crates/treesync/src/remote/delta.rs:288-451 | the naive scan reuses only ranges inside the target's file, and rebuilds the whole source |
| `Matcher.IndexBlocks` | crates/treesync/src/remote/delta.rs:262-285 | the index lists, per weak checksum and in order, exactly the blocks that have it |
| `Matcher.Matcher.constructor` | crates/treesync/src/remote/delta.rs:262-285 | a fresh matcher has passed nothing, and a zero block size is taken as one |
| `Matcher.Matcher.NextToken` | crates/treesync/src/remote/delta.rs:288-300 | each token extends what was delivered by one; none is given only once the source is used up; every call makes progress, so the stream ends; it fails only if a read does |
| `Matcher.Matcher.Step` | crates/treesync/src/remote/delta.rs:308-375 | one step keeps the stream so far, its open run or literal included, equal to the greedy scan so far, and its buffer within its bound |
| `Matcher.Matcher.Slide` | crates/treesync/src/remote/delta.rs:332-374 | the sliding loop does the same through every match, miss, flush and refill point, with the rolling checksum always that of the window |
| `Matcher.Matcher.Fill` | crates/treesync/src/remote/delta.rs:378-406 | topping up the buffer and dropping what is behind the window changes neither the position in the source nor the bytes from the window on |
| `Matcher.Matcher.ReadMore` | crates/treesync/src/remote/delta.rs:388-403 | one read: what has been hashed and what is buffered stay the source's own bytes, the buffer at most a block and three read-aheads less one |
| `Matcher.Matcher.MatchAt` | crates/treesync/src/remote/delta.rs:409-418 | the candidates walked in index order give the lowest block with both checksums |
| `Matcher.Matcher.ExtendRun` | crates/treesync/src/remote/delta.rs:425-437 | an adjacent block lengthens the open copy, any other closes it and opens a new one, as the specified scan does |
| `Matcher.Matcher.FlushRun` | crates/treesync/src/remote/delta.rs:439-443 | closing a run makes its one copy ready, behind everything ready before |
| `Matcher.Matcher.FlushLiteral` | crates/treesync/src/remote/delta.rs:445-450 | closing a literal makes it ready, unless it is empty |
| `Matcher.Matcher.WholeScan` | crates/treesync/src/remote/delta.rs:288-451 | at the end, what was delivered is the greedy scan up to how its literals were cut, whatever the reads returned; every byte was hashed; and no literal exceeds the flush limit plus a block |
| `Matcher.Matcher.DeliveredBegins` | crates/treesync/src/remote/delta.rs:288-300 | at any point, also when a read fails, what was delivered begins the greedy scan: the same tokens as far as they go, but that the last literal may still grow |
| `Frames.Incoming.Expect` | crates/treesync/src/remote/protocol.rs:809-819 | one frame is taken whether or not it is one the transfer may hold |
| `Frames.StreamIsTaken` | crates/treesync/src/remote/agent.rs:200-249 | a stream that ends once, at its end, is taken whole and no further |
| `Target.Target.Discard` | crates/treesync/src/remote/agent.rs:219-249 | a refused transfer's frames are taken off the stream to its end, and nothing else is |
| `Session.ExchangesStayAligned` | crates/treesync/src/remote/agent.rs:94-122 | for any exchanges whose transfers each end once, the turns the agent takes are the client's own, each request with exactly its frames |
| `Session.Agent.Serve` | crates/treesync/src/remote/agent.rs:50-122 | whatever fails locally: no reply but an error without the handshake; with it, its reply, then one for each turn in order, each as that turn went and as it left the disk; the session stops early only with the link, at a frame that is no request, or at an error that does not fit in a frame |
| `Session.Agent.ServeRequests` | crates/treesync/src/remote/agent.rs:94-118 | each turn takes exactly its own frames off the stream, does to the disk only what it may, and is answered once, in order, with its own result |
| `Session.Agent.Handle` | crates/treesync/src/remote/agent.rs:523-614 | every request, failed or not, leaves the stream just past its own frames; a transfer that succeeds has put what it carried, with its time, in place of its file, one that fails has left the file as it was, and nothing touches another path; a report of what there is to resume is of the temporary as it is; a second hello and a zero block size fail |
| `Session.Agent.Respond` | crates/treesync/src/remote/agent.rs:103-118 | what is answered is the result the request came to, or an error if it failed or does not fit |
| `Session.Agent.EncodeReply` | crates/treesync/src/remote/agent.rs:142-151 | a reply that fits is sent as it is; one that does not becomes an error; and it fails only if even that does not fit |
| `Session.Agent.Greet` | crates/treesync/src/remote/agent.rs:60-91 | nothing is agreed unless the first frame is a hello of this version and its reply got out; another request is answered with an error, another frame not at all |
| `Session.OneReplyPerExchange` | crates/treesync/src/remote/agent.rs:94-151 | exchanges served to their end, after whatever came before, have one reply each, of their kind, and exactly their frames are consumed |
| `Session.RepliesMean` | crates/treesync/src/remote/agent.rs:94-118 | over a whole session, an acknowledged transfer has published just what was sent, and one answered with an error has left its file as it was, unless an acknowledgement would not have fitted in a frame |
| `Session.WholeSession` | crates/treesync/src/remote/agent.rs:50-122 | a hello of this version and then any exchanges, served to the end, yield the hello's reply and one for each exchange, with nothing left over |
| `Session.NextRequestStandsIff` | crates/treesync/src/remote/agent.rs:200-249 | after a transfer's stream the agent is at the next request exactly when the stream was ended |
| `Session.UnfinishedTransferSwallowsNextRequest` | crates/treesync/src/remote/ssh.rs:886-893 | the flaw: after a stream that was not ended, the agent takes the next request for part of it |
| `SendPatch.ResumedRebuilds` | crates/treesync/src/remote/ssh.rs:836-882 | for any resume point, the tokens sent rebuild exactly the bytes from there on, even when it falls inside a copy or a literal |
| `SendPatch.PrefixAndStreamAreTheSource` | crates/treesync/src/remote/ssh.rs:836-882 | the prefix kept on the target and the stream sent are together the whole source |
| `SendPatch.SendToken` | crates/treesync/src/remote/ssh.rs:838-878 | one token more is sent as the resume point leaves it: dropped, trimmed to the byte, or whole |
| `SendPatch.Stream` | crates/treesync/src/remote/ssh.rs:829-882 | what goes on the link is the tokens the matcher gave, less the resumed part: all of the scan, or the beginning of it if a read or the link failed; the count returned is of the literal bytes sent |
| `SendPatch.SendPatch` | crates/treesync/src/remote/ssh.rs:807-927 | each way out has its cause, and leaves on the link the beginning of the scan less the resumed part, all of it unless a read or the link failed, and at most the frame that ends it; on a link that held, the stream was ended exactly when a read failed or the final stat did not |
| `SendPatch.EndedUnlessUnfinished` | crates/treesync/src/remote/ssh.rs:884-913 | the same of what a way out leaves: only a failing stat leaves a stream that is not ended |
| `Target.Target.CopyRange` | crates/treesync/src/remote/agent.rs:285-332 | the chunks copied are the range and go to hash and temporary alike; a range outside the file is refused before anything is written |
| `Target.Target.OpenTemporary` | crates/treesync/src/remote/agent.rs:258-273 | the temporary is fresh and empty and its directory writable, or something failed; the mode to restore is the original |
| `Target.Target.Resume` | crates/treesync/src/remote/agent.rs:400-479 | a resume keeps exactly the agreed prefix, on disk and in the hash, and fails if there is not that much |
| `Target.Target.ReceiveTokens` | crates/treesync/src/remote/agent.rs:829-908 | to the last frame, while no failure is recorded, the hashed bytes, the temporary and what the stream builds are the same; after one, frames are still taken |
| `Target.Target.PublishPatch` | crates/treesync/src/remote/agent.rs:910-948 | published with the temporary's bytes and the commit's time only if their hash is the one committed to; otherwise the destination is as it was |
| `Target.Target.ConcludePatch` | crates/treesync/src/remote/agent.rs:910-960 | once the stream has ended: published with no failure, a commit and its hash, or destination unchanged; no temporary is left and the mode is put back, unless that itself fails |
| `Target.Target.ReceivePatch` | crates/treesync/src/remote/agent.rs:731-960 | published with exactly the built bytes, the commit's time and no temporary; or refused, destination unchanged and no temporary, faults or none; or the link lost, destination unchanged and the temporary kept as far as it got, and after a fault never shorter than what was resumed. Refused without a fault only if the stream is not acceptable. Only the unlink itself can leave a temporary, and only the restoring itself a changed mode |
| `Target.Target.ReceiveFile` | crates/treesync/src/remote/agent.rs:974-1098 | the same three endings for a whole file, except that a lost link leaves no temporary either |
| `Target.Target.ResumeState` | crates/treesync/src/remote/agent.rs:671-718 | what is reported is the length and the hash of exactly the bytes left |
| `SendFile.StreamFile` | crates/treesync/src/remote/ssh.rs:947-965 | the data frames sent are what was read, all of it once the end is reached |
| `SendFile.SendFile` | crates/treesync/src/remote/ssh.rs:929-1012 | each way out has its cause, and leaves the complete read with its commit, or one cut short; on a link that held, the stream was ended exactly when a read failed or the final stat did not |
| `SendFile.CommittedIsTheRead` | crates/treesync/src/remote/ssh.rs:929-1012 | in any delivered part of a transfer, a commit comes only at the end of a complete read, and carries exactly its bytes |
| `PatchFile.TokensRebuildSource` | crates/treesync/src/remote/delta.rs:192-451 | end to end: the tokens of a finished scan, merged, are the naive scan of the file the signature described, and rebuild the source |
| `PatchFile.PublishedIsTheScan` | crates/treesync/src/remote/agent.rs:897-948 | with the whole-file hash collision-free, anything published from any delivered part of a transfer is the bytes and the time of its scan, which had ended |
| `PatchFile.CleanAttemptIsAccepted` | crates/treesync/src/remote/agent.rs:731-960 | a transfer whose signature and prefix fit what is on the target, and which arrives whole, is acceptable and builds the source |
| `PatchFile.InterruptedIsABeginning` | crates/treesync/src/remote/agent.rs:829-852 | however the sending ended and however much of it arrived, what a well-founded transfer has built on the target is the beginning of the source, so that a resume need not send it again |
| `PatchFile.RebuildsAlikeIff` | crates/treesync/src/remote/protocol.rs:223-259 | a stream rebuilds in another file what it does in its own exactly when each range it copies holds the same bytes in both |
| `PatchFile.AcceptedIffCopiesStand` | crates/treesync/src/remote/ssh.rs:1263-1303 | a complete transfer made against one file and landing on another is accepted exactly when the ranges it copies, as a resume leaves them, hold the same bytes in both |
| `PatchFile.RetryAfterLostReplyIsAcceptedIff` | crates/treesync/src/remote/ssh.rs:1263-1303 | so the retry after a publish whose reply was lost is accepted exactly when those ranges hold the same bytes in the source as in the old file |
| `PatchFile.RetryAfterLostReplyCanBeRefused` | crates/treesync/src/remote/ssh.rs:1263-1303 | the flaw: two bytes swapped by the publish, and the same tokens against the new file build something else and are refused |
| `PatchFile.AttemptPatch` | crates/treesync/src/remote/ssh.rs:807-927 | whatever the link, the source and the target do, the destination is untouched, or is exactly this source after a complete scan of it went out with its commit; an acknowledgement means the latter, a refusal the former; an attempt counts as lost exactly when the link failed its sender; a well-founded attempt in which nothing fails is acknowledged; and one in which only the link fails leaves the temporary a beginning of the source |
| `PatchFile.AttemptWrite` | crates/treesync/src/remote/ssh.rs:929-1012 | the same of the destination and of the link, for a file sent whole, with no condition for being acknowledged but that nothing fails |
| `PatchFile.HashPrefix` | crates/treesync/src/remote/ssh.rs:773-796 | the hash of exactly the first bytes, none if the file is shorter, and an error only if it cannot be read |
| `PatchFile.ResumableFrom` | crates/treesync/src/remote/ssh.rs:723-770 | resumes at the end of what the target has exactly when that is a prefix of the source as it now is, and else from nothing |
| `PatchFile.WriteFile` | crates/treesync/src/remote/ssh.rs:1188-1209 | over any run of rounds, every attempt but the last lost its link, which was rebuilt; success is exactly that the last was acknowledged, and giving up exactly that it was declined or its link could not be rebuilt; the destination holds its original bytes and time, or exactly those of one version attempted, on success of the last |
| `PatchFile.CourseMakes` | crates/treesync/src/remote/ssh.rs:1188-1304 | however the attempts of a run went, the destination holds the original or exactly one of the versions attempted so far |
| `PatchFile.PatchFile` | crates/treesync/src/remote/ssh.rs:1228-1304 | the same for a patch, which is what is sent exactly when it is enabled, worth it and has a block to build on; it also gives up, with nothing sent, exactly when the source cannot be measured or the signature is refused; every retry starts where the check of what was left says; only the whole-file hash has to be collision-free |
| `TwoAgents.Overlap.StepKeeps` | crates/treesync/src/remote/agent.rs:731-960 | while an earlier agent without a commit is still writing, every step of either agent, in any order, keeps the destination whole and the later agent's file on its way to the source |
| `TwoAgents.Overlap.OverlapIsSafeIff` | crates/treesync/src/remote/ssh.rs:584-598 | a transfer begun while the agent of the lost connection is still at work is safe in every interleaving exactly when that agent has its temporary open and got no commit, unless both sides are empty, and either what reached it begins the new source or none of it can be resumed |
| `TwoAgents.Overlap.LateStartTears` | crates/treesync/src/remote/agent.rs:731-960 | the flaw: if it has yet to make its temporary, there is a run in which it replaces the later agent's, and that one publishes a file it never wrote, and is acknowledged |
| `TwoAgents.Overlap.LateCommitTears` | crates/treesync/src/remote/agent.rs:913-948 | the flaw: if a commit did reach it, there is a run in which it renames the later agent's unfinished file over the destination, since the hash is of what was built and the rename is by path |
| `TwoAgents.Overlap.LateWritesTear` | crates/treesync/src/remote/agent.rs:400-451 | the flaw: if what reached it parts from the new source, there is a run in which the later agent resumes the same file, is written over, and is acknowledged all the same |
| `Framing.EncodeFrame` | crates/treesync/src/remote/protocol.rs:682-714 | the frame of a value, or an error exactly when it cannot be encoded or is too long |
| `Framing.FrameLayout` | crates/treesync/src/remote/protocol.rs:682-715 | on the wire the low byte of the header comes first; its low 31 bits are the length of what follows, and its top bit is set exactly when that is compressed, which no payload under the threshold is |
| `Framing.Compress` | crates/treesync/src/remote/protocol.rs:739-747 | what is kept compressed is strictly smaller, and is the compressor's own output; a payload of the threshold or more is sent as it is only if the compressor fails or makes it no smaller |
| `Framing.ReadFrame` | crates/treesync/src/remote/protocol.rs:753-803 | one read finds a clean end, an error or a value exactly as `ReadAt` says, and stops just past the frame |
| `Framing.FrameReadsBack` | crates/treesync/src/remote/protocol.rs:682-803 | a frame reads back as its value, compressed or not, whatever is around it, and exactly its bytes are consumed |
| `Framing.StreamReadsBack` | crates/treesync/src/remote/protocol.rs:682-803 | any concatenation of frames reads back as its values, in order, and ends cleanly |
| `Framing.CutStreamReadsBack` | crates/treesync/src/remote/protocol.rs:753-803 | cut at any byte, a stream yields its whole frames, then a clean end if fewer than four bytes remain, else an error |
| `WireIndex.ToWire` | crates/treesync/src/remote/protocol.rs:327-339 | the encoded nanoseconds are always in [0, 10^9), and with the seconds make up the time |
| `WireIndex.TimeSurvivesIff` | crates/treesync/src/remote/protocol.rs:326-350 | a time survives the trip exactly when it is less than 2^64 nanoseconds from the epoch, on either side |
| `WireIndex.Flatten` | crates/treesync/src/remote/protocol.rs:557-564 | the list holds each entry of the index once encoded, in whatever order, and nothing else |
| `WireIndex.Cross` | crates/treesync/src/remote/protocol.rs:556-575 | an index flattened and rebuilt has the same paths, each with its entry as the trip leaves it |
| `WireIndex.IndexSurvivesIff` | crates/treesync/src/remote/protocol.rs:556-575 | an index crosses unchanged exactly when the time of every file in it is representable |
| `WireIndex.UnrepresentableIsAlwaysCopied` | crates/treesync/src/remote/protocol.rs:341-349 | what failing that costs: a file identical on both sides is planned for copying on every pass |
| `Ordering.PathsAreOrdered` | crates/treesync/src/reconcile/action.rs:226-232 | comparing component by component and byte by byte is a total order on paths |
| `Ordering.PathOrderIff` | crates/treesync/src/reconcile/action.rs:226-232 | one path comes before another as a directory above it, or by the lesser byte at the place where their names first part |
| `Ordering.StableSortSorts` | crates/treesync/src/reconcile/action.rs:212-214 | sorting by any of the plan's orders sorts and permutes |
| `Reconcile.OrderedIsSorted` | crates/treesync/src/reconcile/action.rs:197-219 | ordering loses and adds nothing, and leaves removals children-first, then writes parents-first, then metadata children-first |
| `Reconcile.Plan.Order` | crates/treesync/src/reconcile/action.rs:197-219 | the actions are put in that order in place |
| `Reconcile.Plan.PushComparison` | crates/treesync/src/reconcile/mod.rs:196-246 | comparing one path adds exactly the actions called for there, each once |
| `Reconcile.Plan.PushMetadata` | crates/treesync/src/reconcile/mod.rs:253-281 | metadata is added exactly when something is mirrored and the target's is missing or differs |
| `Reconcile.Plan.PushUnder` | crates/treesync/src/reconcile/mod.rs:143-192 | one prefix adds exactly what is called for at or below it, each once, in whatever order the maps are walked |
| `Reconcile.CallsAreFunctional` | crates/treesync/src/reconcile/mod.rs:196-281 | an action called for is settled by its group and its path |
| `Reconcile.MakePlan` | crates/treesync/src/reconcile/mod.rs:140-193 | a plan holds each action called for as often as prefixes name its path, and nothing else, in plan order |
| `PlanFacts.PlanIsUnique` | crates/treesync/src/reconcile/action.rs:197-232 | the plan is one list, whatever order the hash maps were walked in |
| `PlanFacts.PlanIsExecutable` | crates/treesync/src/reconcile/action.rs:179-219 | no removal follows a write, nor a child's removal its parent's, nor a parent's write its child's; and metadata follows every action strictly below its path |
| `PlanFacts.SiblingsAreOrdered` | crates/treesync/src/reconcile/action.rs:226-232 | at one depth, writes come in the order of their paths, removals and metadata in the reverse of it |
| `PlanFacts.PlanStaysInScope` | crates/treesync/src/reconcile/mod.rs:143-192 | no scoped plan names a path outside its scope |
| `PlanFacts.WalkTo` | crates/treesync/src/reconcile/index.rs:433-443 | what a lookup meets on its way: it is an error below a file, follows a link, and finds nothing below what is missing |
| `PlanFacts.IndexScope` | crates/treesync/src/reconcile/index.rs:385-527 | indexing named paths fails where one lies below a file; below a link it may fail or find anything; all else it finds is what the disk holds at or below a name, and all of that |
| `PlanFacts.IndexIsSureIff` | crates/treesync/src/reconcile/index.rs:385-527 | the index is sure to be the whole tree's, restricted to the paths at or below those named, exactly when no name lies below anything but directories |
| `PlanFacts.FileAboveLosesTheIndex` | crates/treesync/src/reconcile/index.rs:435-443 | one name below a file fails the index of all of them |
| `PlanFacts.ReplacedDirectoryLosesTheIndex` | crates/treesync/src/reconcile/index.rs:435-443 | the flaw: a directory replaced by a file, named together with a path it held, has no index, although the file does |
| `PlanFacts.IncrementalPlanIsFullPlan` | crates/treesync/src/reconcile/mod.rs:143-192 | when the named paths cover every difference, the incremental plan without its repeats is the full plan, action for action |
| `LocalSink.LocalSink.Resolve` | crates/treesync/src/sink/local.rs:317-383 | refused exactly for an empty path or one with a symlink above it that can be looked up |
| `LocalSink.MakeDirsMakes` | crates/treesync/src/sink/local.rs:436-468 | a directory whose last existing parent can be written, as can new ones, is made with exactly its missing parents |
| `LocalSink.HasParentsIff` | crates/treesync/src/sink/local.rs:429-532 | the parents of a path can be had exactly when the last of them that is there can be written, as can new ones |
| `LocalSink.NothingBelowAFile` | crates/treesync/src/sink/local.rs:470-532 | nothing is written below a regular file or a link |
| `LocalSink.LocalSink.RelaxDir` | crates/treesync/src/sink/local.rs:99-128 | widened exactly when it is a directory that its owner may not write, and the mode returned is the one to put back |
| `LocalSink.LocalSink.Perform` | crates/treesync/src/sink/local.rs:429-556 | an operation tried, and once more with its directory widened if permission stopped it: where the directory is there it succeeds exactly when what is in the way lets it, and otherwise changes nothing, modes included; elsewhere it comes to what the attempt, or the retry in a parent just made, does |
| `LocalSink.LocalSink.Remove` | crates/treesync/src/sink/local.rs:534-556 | never recursive: fails exactly on a directory that still holds something, and then changes nothing; where the path's directory is not there it passes exactly when there is nothing to remove |
| `LocalSink.LocalSink.CreateDir` | crates/treesync/src/sink/local.rs:429-468 | makes the directory with its missing parents; satisfied by a directory that is there, never by a file or a link; nothing else is touched |
| `LocalSink.LocalSink.WriteFile` | crates/treesync/src/sink/local.rs:470-507 | makes missing parents, and fails where it cannot; replaces in one step anything but a directory, with a new file's own metadata and the source's time |
| `LocalSink.LocalSink.CreateSymlink` | crates/treesync/src/sink/local.rs:509-532 | makes missing parents, and fails where it cannot; replaces anything but a directory that holds something |
| `LocalSink.LocalSink.SetMetadata` | crates/treesync/src/sink/local.rs:558-598 | sets only what is mirrored; refuses a link, and a path that is not there if anything is mirrored |
| `LocalSink.OperationsAreIdempotent` | crates/treesync/src/sink/mod.rs:185-189 | an operation done again goes through and changes nothing |
| `Convergence.ApplyOne` | crates/treesync/src/sink/mod.rs:199-209 | any action goes through exactly where it works, and then does what it is for: the bytes and time of the copied file, the link, the directory, the metadata, or nothing left; otherwise its path is as it was; it touches only its path and its missing parents |
| `Convergence.Mirror.Advance` | crates/treesync/src/reconcile/action.rs:179-219 | at any point of a plan the next action is safe, and doing it keeps the tree good and takes its path one step on |
| `Convergence.Apply` | crates/treesync/src/sink/mod.rs:190-234 | the failures reported are, in order, exactly the actions that did not work where each was done, and each counter is of the others of its kind; a whole plan between sound trees fails nothing exactly when removals are allowed or nothing clashes, and then leaves exactly the predicted tree |
| `Convergence.Mirror.ClashFails` | crates/treesync/src/sink/mod.rs:190-234 | without removals, a directory to be replaced by a file, anything else by a directory, or a directory that holds something by a link, makes its action fail, whatever else fails |
| `Convergence.Synchronise` | crates/treesync/src/sink/mod.rs:190-234 | one full pass, indexing and planning included, does the same; it needs removals allowed, or nothing that clashes |
| `Convergence.PassConverges` | crates/treesync/src/reconcile/mod.rs:140-281 | after one pass the target has every path of the source, of its kind: a link leads where the source's does, a file has the source's length and time, or its hash if content is verified; beside them it has nothing if removals are allowed, and otherwise its own paths as they were |
| `Convergence.ContentConverges` | crates/treesync/src/reconcile/index.rs:84-108 | with content verification and no hash collision, every file holds the source's bytes |
| `Convergence.MetadataConverges` | crates/treesync/src/reconcile/mod.rs:253-281 | the mode, and the owner and group, if mirrored, are the source's after one pass exactly where they were not lost, and after two everywhere |
| `Convergence.RemovalsInPlan` | crates/treesync/src/reconcile/mod.rs:196-246 | no plan removes anything unless removals are allowed, nor then a path the source has, but a directory for something else or something else for a directory |
| `Convergence.NextPassCalls` | crates/treesync/src/reconcile/mod.rs:253-281 | the next pass is called on for exactly the metadata this one lost |
| `Convergence.SecondAndThirdPlans` | crates/treesync/src/reconcile/mod.rs:253-281 | the second plan only sets metadata, and is empty exactly when the first pass lost none, as when none is mirrored; the third is always empty |
| `Convergence.RewrittenFileLosesItsMode` | crates/treesync/src/reconcile/mod.rs:253-281 | the flaw: a rewritten file whose mode already agreed is left with a new file's mode, since metadata is compared as it was before the copy |
| `WatchEvents.TranslateNamesAllIff` | crates/treesync/src/watcher/mod.rs:320-368 | a change loses none of its paths, unless it is a rename reported in one event with a path missing or paths to spare |
| `WatchEvents.RenameInOneRunsForward` | crates/treesync/src/watcher/mod.rs:330-350 | a rename reported in one event comes to its old path moved from and then its new path moved to, under one tracker |
| `WatchEvents.KindsAreKept` | crates/treesync/src/watcher/mod.rs:320-368 | each change is seen as of the kind it was reported as |
| `RescanSignal.CommonPrefixIsMeet` | crates/treesync/src/watcher/scope.rs:98-110 | the directories containing both paths are exactly those containing their common prefix |
| `RescanSignal.CommonAncestor` | crates/treesync/src/watcher/scope.rs:98-110 | the loop finds that prefix |
| `RescanSignal.OrderDoesNotMatter` | crates/treesync/src/watcher/scope.rs:46-78 | the scope owed depends only on which losses there were, not on their order or number |
| `RescanSignal.WidenedCovers` | crates/treesync/src/watcher/scope.rs:60-71 | widening keeps the scope the longest common prefix of the directories lost in, and everything once a loss was unbounded |
| `RescanSignal.RescanSignal.Widen` | crates/treesync/src/watcher/scope.rs:60-71 | the signal is pending exactly when something was lost, and its scope is the one owed |
| `RescanSignal.RescanSignal.Lost` | crates/treesync/src/watcher/scope.rs:46-48 | losing an event owes a walk of the directory its path is in, as the path itself may be gone |
| `RescanSignal.RescanSignal.LostUnder` | crates/treesync/src/watcher/scope.rs:56-58 | doubt about a directory owes a walk of that directory and no more |
| `RescanSignal.RescanSignal.LostEverything` | crates/treesync/src/watcher/scope.rs:75-78 | an unbounded loss absorbs all others |
| `RescanSignal.RescanSignal.Take` | crates/treesync/src/watcher/scope.rs:85-94 | the directory returned is never outside the root, contains everything lost inside it, and is the deepest that does |
| `WatcherSteps.Watch.StepKeeps` | crates/treesync/src/watcher/mod.rs:148-313 | every step of the backend or the consumer, in any order, keeps every observation accounted for, every scope wide enough, and its flag set or about to be |
| `WatcherSteps.Watch.NothingIsDropped` | crates/treesync/src/watcher/mod.rs:148-313 | in every interleaving, an observation inside the root is delivered, within a returned rescan that can list it, queued, in a hand, or owed by a scope that reaches it |
| `WatcherSteps.Watch.ReportIsNotDropped` | crates/treesync/src/watcher/mod.rs:272-313 | from a report of a change on, in every interleaving, each path it names inside the root is delivered as an event of that change, within a rescan of the directory it is in or one above, queued, in a hand, or owed |
| `WatcherSteps.Watch.NewFolderIsWalked` | crates/treesync/src/watcher/mod.rs:280-296 | a folder reported as new is owed a walk of its own, or has had one |
| `WatcherSteps.Watch.OverflowIsWalked` | crates/treesync/src/watcher/mod.rs:272-278 | events lost by the backend, or an error of its, are owed a walk of the whole root, or have had one |
| `WatcherSteps.Watch.NoGapNoRescan` | crates/treesync/src/watcher/mod.rs:298-310 | while the channel has room and only changes are observed, no change becomes a rescan: each is delivered as an event, queued, or about to be |
| `WatcherSteps.Watch.RescansAreNarrow` | crates/treesync/src/watcher/scope.rs:60-94 | a rescan returned is of the deepest directory inside the root that contains each directory lost in |
| `WatcherSteps.Watch.NextCallRescans` | crates/treesync/src/watcher/mod.rs:148-196 | a call that finds the flag set returns one rescan, for all that was owed and all that was queued, and leaves nothing owed, queued or flagged unless the backend goes on |
| `WatcherSteps.Watch.NextCallReceives` | crates/treesync/src/watcher/mod.rs:148-160 | a call that does not find it set returns the event at the head of the channel |
| `WatcherSteps.Watch.ConsumerIsDeterministic` | crates/treesync/src/watcher/mod.rs:148-196 | what the consumer does next is settled by where it is, so that these are the only runs of such a call |
| `WatcherSteps.Watch.DeliveredInOrder` | crates/treesync/src/watcher/mod.rs:148-196 | events are delivered in the order in which they were observed, whatever is discarded in between |
| `WatcherSteps.Watch.ChannelIsBounded` | crates/treesync/src/watcher/mod.rs:298-310 | the channel never holds more than its capacity |
| `WatcherSteps.Watch.QuietMeansSettled` | crates/treesync/src/watcher/mod.rs:148-313 | once the backend is idle, the channel empty and the consumer between calls or waiting, an observation is settled exactly when the scope does not owe it, and all are if the flag is clear |
| `WatcherSteps.Watch.OnePlaceThroughout` | crates/treesync/src/watcher/mod.rs:148-313 | in every interleaving each observation is in exactly one place, and there once |
| `WatcherSteps.Watch.DeliveredOnce` | crates/treesync/src/watcher/mod.rs:148-195 | what is delivered is delivered once, as an event or within one rescan |
| `WatcherSteps.Watch.OwedIsRescannedAfter` | crates/treesync/src/watcher/scope.rs:42-95 | what a scope owes stays owed until a rescan, returned after the loss, answers for it |
| `WatcherSteps.Watch.OverflowDoesNotWakeReceiver` | crates/treesync/src/watcher/scope.rs:75-78 | what is not promised: a run ending with the consumer waiting on an empty channel while a rescan is owed and flagged |
| `EventQueue.PairUpIsApart` | crates/treesync/src/queue/mod.rs:246-264 | each rename joins a moved-from and a moved-to of one cookie, and no event is in two renames |
| `EventQueue.HalvesArePaired` | crates/treesync/src/queue/mod.rs:246-264 | two halves with a cookie of their own are paired, whichever came first |
| `EventQueue.RenamesRunForward` | crates/treesync/src/queue/mod.rs:246-264 | every rename runs from a path moved from to a path moved to, of one tracker |
| `EventQueue.RenameInOneIsQueued` | crates/treesync/src/queue/mod.rs:246-264 | a rename reported in one event comes out of the window as that rename, from the old path to the new |
| `EventQueue.EndsAreListed` | crates/treesync/src/queue/mod.rs:100-105 | both ends of every rename are among the batch's paths |
| `EventQueue.EventQueue.Merge` | crates/treesync/src/queue/mod.rs:225-265 | pending paths, waiting halves and renames stay those of the events merged since the last batch, and the window is dated by the first of them |
| `EventQueue.EventQueue.Flush` | crates/treesync/src/queue/mod.rs:268-295 | a batch lists each path merged once, is never empty, carries the time its window was opened, and leaves nothing pending |
| `EventQueue.EventQueue.NextBatch` | crates/treesync/src/queue/mod.rs:176-201 | each batch stands for exactly the events since the last one, wherever its deadline fell, and is dated by the first of them; unless a rescan comes, a window closes only when it is full, the stream ends, or the delay since its first event is over; from an empty queue it has at most max_pending paths, or one; none means that the stream has ended |
| `EventQueue.EventQueue.Drain` | crates/treesync/src/queue/mod.rs:208-222 | the same without waiting: all that has arrived is taken, up to a rescan, dated likewise, and none means that nothing was pending or had arrived |
| `EventQueue.NothingLostIff` | crates/treesync/src/queue/mod.rs:298-307 | a batch covers every path of its window, except that a rescan does exactly when all of them lie under its root |
| `EventQueue.RescanElsewhereLosesPaths` | crates/treesync/src/queue/mod.rs:298-307 | the flaw: after one change and a rescan of another directory, the only batch there can be is that rescan, and does not cover the change |

## Left out

- SSH, shell commands, uploading the agent, platform detection: foreign processes. A reconnect is one arbitrary choice.
- Real time: backoff, shutdown grace and the sweeping of stale temporaries. Of the queue's timer, that a window may stay open past its deadline while events keep coming.
- Glob filters, walkdir, notify, bincode, zstd and BLAKE3 themselves. The filter is taken as empty: patterns are evaluated relative to the subtree walked (`reconcile/index.rs:229`), so scoped and full indexes can differ under anchored ones.
- `block_size_for`, which takes a floating-point square root: the block size is any `u32`.
- The CLI, metrics and configuration, and `Syncer`, which drops a batch when its pass errors (`syncer.rs:457`).
- Hidden entries: temporaries, special files and the running binary are never indexed, and the trees here have none. A source file named like a temporary could be clobbered by one.
- Symlinks placed between a check and its use, or at a temporary's path; and a link where `create_dir_all` finds one it could not look up before, which it would follow.
- Paths holding `.`, `..` or a prefix, which `resolve` refuses before it looks at the disk (`sink/local.rs:322`): a path is taken to be spelled in plain names.
- Disk errors other than those of permission and structure in `LocalSink`; `Target` has them all. `chown` is taken as permitted.
- `Rename`, as no plan contains one (`sink/local.rs:603`). `Apply` takes plans without it.
- Frames are values in `Session` and `Target`, of which only the kind can be wrong. That a frame of another kind might decode as one that was expected is not modelled.
- `TwoAgents.Overlap.OverlapIsSafeIff`: is about one earlier agent, of either kind of transfer, that has opened its temporary or is to make a fresh one, and a later patch. Not modelled are an earlier one still to reopen a partial file, more than two agents, and a later whole-file transfer, which resumes nothing.
- In the retry loops of `PatchFile` a dropped link's agent is taken to have finished before the next connection acts; `TwoAgents` is about what happens when it has not.
- The 64-bit overflow of a copy's range, which the source refuses (`remote/agent.rs:297`): offsets are unbounded here, and a range past the end is refused all the same.
- A consumer that goes away, after which the backend's thread sends nothing (`watcher/mod.rs:309`).
- `PatchFile.PatchFile`: is stated for runs cut off after any number of attempts, because the loop of the source need not end; what holds of every such run holds throughout.
- `Session.Agent.Handle`: takes it from an oracle whether a request that is no transfer goes through, and transfers' files as untouched by one, because what such a request does to the tree is the part of `LocalSink`.
- Liveness of rescans and of retries, for the reasons listed above.
