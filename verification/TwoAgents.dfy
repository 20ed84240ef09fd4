/** A connection rebuilt while the agent of the one before is still at work: two agents,
    one temporary, and every interleaving of their steps. */
module TwoAgents {
  import opened Basics

  /** The agent of the lost connection: its file, how many of the bytes delivered to it have
      reached that, and how far it has come. */
  datatype Earlier = Earlier(file: nat, at: nat, phase: Phase)

  datatype Phase =
    | Beginning                       // has yet to make its temporary
    | Clearing                        // has unlinked the one that was there
    | Running
    | Published
    | Stopped

  /** The agent of the new connection, by its place in its own code. */
  datatype Later =
    | Asking                          // has not yet reported what there is to resume
    | Told(from: nat)                 // asked to go on from there, or from nothing
    | Cleared                         // has unlinked the temporary, to make a fresh one
    | Opened(file: nat, from: nat)    // has opened the temporary, to trim and go on with it
    | Writing(file: nat, at: nat)     // its file, and how much of the source it has built
    | Placed                          // renamed its temporary over the destination
    | GaveUp

  /** Files are what is on the disk, named or not; a path holds the number of one. An agent
      writes through the file it opened, and renames and unlinks by path. */
  datatype State = State(
    files: seq<Bytes>,
    temporary: Option<nat>,
    destination: Option<nat>,
    earlier: Earlier,
    later: Later)

  /** A write at an offset. What lies between the end of the file and there reads as zero. */
  function WriteAt(file: Bytes, at: nat, bytes: Bytes): Bytes {
    if bytes == [] then file
    else
      var front := if at <= |file| then file[..at] else file + seq(at - |file|, _ => 0);
      front + bytes + if at + |bytes| < |file| then file[at + |bytes|..] else []
  }

  lemma WriteAtEnd(bytes: Bytes, at: nat, n: nat)
    requires at + n <= |bytes|
    ensures WriteAt(bytes[..at], at, bytes[at..at + n]) == bytes[..at + n]
  {
  }

  /** Writing some of the bytes a file should have leaves those it has, and the file no
      longer than it should be. */
  lemma WriteWithin(file: Bytes, at: nat, n: nat, whole: Bytes, k: nat)
    requires at + n <= |whole| && k <= |file| <= |whole| && file[..k] == whole[..k]
    ensures var written := WriteAt(file, at, whole[at..at + n]);
      k <= |file| <= |written| <= |whole| && written[..k] == whole[..k]
  {
    var written := WriteAt(file, at, whole[at..at + n]);
    forall i | 0 <= i < k
      ensures written[i] == whole[i]
    {
      assert file[..k][i] == whole[..k][i];
    }
  }

  /** And carries on where it should. */
  lemma WriteOn(file: Bytes, at: nat, n: nat, whole: Bytes)
    requires at + n <= |whole| && at <= |file| <= |whole| && file[..at] == whole[..at]
    ensures var written := WriteAt(file, at, whole[at..at + n]);
      at + n <= |written| <= |whole| && written[..at + n] == whole[..at + n]
  {
    assert whole[..at + n] == whole[..at] + whole[at..at + n];
  }

  /** Writing the rest of something else over a file shows, unless that only begins what the
      file has. */
  lemma WriteOver(file: Bytes, at: nat, other: Bytes)
    requires at < |other| && at <= |file| && file[..at] == other[..at]
    ensures WriteAt(file, at, other[at..]) == file ==> other <= file
  {
    var written, n := WriteAt(file, at, other[at..]), |other|;
    assert n <= |written| && written[..at] == file[..at] && written[at..n] == other[at..];
    assert written[..n] == written[..at] + written[at..n];
    assert other == other[..at] + other[at..];
  }

  /** One transfer left running and one begun after it. What reached the earlier agent builds
      `delivered`, of which `written` bytes are in its file, if it has `begun` one; and
      `committed` says whether a commit to just these bytes reached it too. The later transfer
      is a complete one of `source`. */
  datatype Overlap = Overlap(delivered: Bytes, begun: bool, written: nat, committed: bool,
                             source: Bytes, original: Option<Bytes>)
  {
    ghost predicate Valid() {
      written <= |delivered| && (!begun ==> written == 0)
    }

    function Start(): State
      requires Valid()
    {
      State([delivered[..written]] + (if original.Some? then [original.value] else []),
            if begun then Some(0) else None, if original.Some? then Some(1) else None,
            Earlier(0, written, if begun then Running else Beginning), Asking)
    }

    /** There is nothing to send on either side. */
    predicate BothEmpty() {
      delivered == [] && source == []
    }

    // -------------------------------------------------------------------------
    // Steps
    // -------------------------------------------------------------------------

    ghost predicate EarlierOpens(s: State, s': State) {
      match s.earlier.phase
      case Beginning => s' == s.(temporary := None, earlier := s.earlier.(phase := Clearing))
      case Clearing =>
        s' == if s.temporary.Some? then s.(earlier := s.earlier.(phase := Stopped))
              else s.(files := s.files + [[]], temporary := Some(|s.files|), earlier := Earlier(|s.files|, 0, Running))
      case _ => false
    }

    /** A write reaches the file in as many pieces as it likes. */
    ghost predicate EarlierWrites(s: State, s': State, n: nat) {
      var Earlier(file, at, phase) := s.earlier;
      && phase.Running? && file < |s.files| && at + n <= |delivered|
      && s' == s.(files := s.files[file := WriteAt(s.files[file], at, delivered[at..at + n])],
                  earlier := Earlier(file, at + n, Running))
    }

    /** The hash agrees, as it is of what was delivered; what is renamed is whatever file has
        the temporary's name. */
    ghost predicate EarlierPublishes(s: State, s': State) {
      && s.earlier.phase.Running? && committed && s.earlier.at == |delivered|
      && s' == if s.temporary.None? then s.(earlier := s.earlier.(phase := Stopped))
               else s.(destination := s.temporary, temporary := None, earlier := s.earlier.(phase := Published))
    }

    /** It notices the dead link, or fails, and may unlink the temporary. */
    ghost predicate EarlierStops(s: State, s': State) {
      && !s.earlier.phase.Published? && !s.earlier.phase.Stopped?
      && (s'.temporary == s.temporary || s'.temporary.None?)
      && s' == s.(temporary := s'.temporary, earlier := s.earlier.(phase := Stopped))
    }

    /** The client resumes from all there is if that begins its source, and may always start
        over. */
    ghost predicate LaterIsTold(s: State, s': State, from: nat) {
      && s.later.Asking? && s' == s.(later := Told(from))
      && (from > 0 ==>
           && s.temporary.Some? && s.temporary.value < |s.files|
           && from == |s.files[s.temporary.value]| && s.files[s.temporary.value] <= source)
    }

    ghost predicate LaterOpens(s: State, s': State) {
      match s.later
      case Told(from) =>
        if from == 0 then s' == s.(temporary := None, later := Cleared)
        else if s.temporary.Some? && s.temporary.value < |s.files| && from <= |s.files[s.temporary.value]| then
          s' == s.(later := Opened(s.temporary.value, from))
        else s' == s.(later := GaveUp)
      case Cleared =>
        s' == if s.temporary.Some? then s.(later := GaveUp)
              else s.(files := s.files + [[]], temporary := Some(|s.files|), later := Writing(|s.files|, 0))
      case Opened(file, from) =>
        && file < |s.files| && from <= |s.files[file]|
        && s' == s.(files := s.files[file := s.files[file][..from]], later := Writing(file, from))
      case _ => false
    }

    ghost predicate LaterWrites(s: State, s': State, n: nat) {
      && s.later.Writing? && s.later.file < |s.files| && s.later.at + n <= |source|
      && var Writing(file, at) := s.later;
         s' == s.(files := s.files[file := WriteAt(s.files[file], at, source[at..at + n])],
                  later := Writing(file, at + n))
    }

    ghost predicate LaterPublishes(s: State, s': State) {
      && s.later.Writing? && s.later.at == |source|
      && s' == if s.temporary.None? then s.(later := GaveUp)
               else s.(destination := s.temporary, temporary := None, later := Placed)
    }

    ghost predicate LaterStops(s: State, s': State) {
      && !s.later.Placed? && !s.later.GaveUp?
      && (s'.temporary == s.temporary || s'.temporary.None?)
      && s' == s.(temporary := s'.temporary, later := GaveUp)
    }

    ghost predicate Step(s: State, s': State) {
      || EarlierOpens(s, s') || (exists n :: EarlierWrites(s, s', n)) || EarlierPublishes(s, s') || EarlierStops(s, s')
      || (exists from :: LaterIsTold(s, s', from)) || LaterOpens(s, s')
      || (exists n :: LaterWrites(s, s', n)) || LaterPublishes(s, s') || LaterStops(s, s')
    }

    ghost predicate IsRun(run: seq<State>)
      requires Valid()
    {
      run != [] && run[0] == Start() && forall i :: 0 <= i < |run| - 1 ==> Step(run[i], run[i + 1])
    }

    // -------------------------------------------------------------------------
    // What a transfer is for
    // -------------------------------------------------------------------------

    /** The bytes a reader of the destination finds. */
    function Content(s: State): Option<Bytes> {
      if s.destination.Some? && s.destination.value < |s.files| then Some(s.files[s.destination.value]) else None
    }

    /** The destination changes only when an agent publishes, and then to the bytes that agent
        was sent; and after an acknowledgement it holds what was acknowledged. */
    ghost predicate Whole(s: State, s': State) {
      && (if s'.earlier.phase.Published? && !s.earlier.phase.Published? then Content(s') == Some(delivered)
          else if s'.later.Placed? && !s.later.Placed? then Content(s') == Some(source)
          else Content(s') == Content(s))
      && (s'.later.Placed? ==> Content(s') == Some(source))
    }

    ghost predicate SafeRun(run: seq<State>) {
      forall i :: 0 <= i < |run| - 1 ==> Whole(run[i], run[i + 1])
    }

    /** The least there can be to resume, if there is anything. */
    function Least(): Bytes
      requires Valid()
    {
      delivered[..if written == 0 && delivered != [] then 1 else written]
    }

    /** The earlier agent got no commit and has its temporary open, unless nothing is sent at
        all; and either all that it got begins the new source too, or none of it can be
        resumed. */
    ghost predicate Harmless()
      requires Valid()
    {
      && (committed || !begun ==> BothEmpty())
      && (delivered <= source || !(Least() <= source))
    }

    // -------------------------------------------------------------------------
    // With no commit delivered
    // -------------------------------------------------------------------------

    predicate IsOriginal(file: nat) {
      original.Some? && file == 1
    }

    /** The paths and the bystanders: the earlier agent publishes nothing, and the original
        stays where it is until the later one does. */
    ghost predicate Aside(s: State)
      requires Valid()
    {
      && 0 < |s.files| && (original.Some? ==> 1 < |s.files| && s.files[1] == original.value)
      && s.earlier.file == 0 && written <= s.earlier.at <= |delivered|
      && (s.earlier.phase.Running? || s.earlier.phase.Stopped?)
      && (s.temporary.Some? ==> s.temporary.value < |s.files| && !IsOriginal(s.temporary.value))
      && (!s.later.Placed? ==> s.destination == Start().destination)
    }

    /** The earlier agent has its file to itself. */
    ghost predicate Alone(s: State) {
      && 0 < |s.files| && s.earlier.at <= |delivered| && s.files[0] == delivered[..s.earlier.at]
      && (s.temporary.Some? ==> s.temporary.value == 0)
    }

    /** The later agent's file: the earlier one's too only if its bytes can do no harm there,
        and then it holds the source as far as the later agent has come. */
    ghost predicate Built(s: State, file: nat, at: nat) {
      && file < |s.files| && !IsOriginal(file) && at <= |source|
      && (file == 0 ==> delivered <= source)
      && at <= |s.files[file]| <= |source| && s.files[file][..at] == source[..at]
    }

    ghost predicate Keeps(s: State)
      requires Valid()
    {
      && Aside(s)
      && match s.later
         case Asking => Alone(s)
         case Told(from) => Alone(s) && (from > 0 ==> from <= s.earlier.at && delivered <= source)
         case Cleared => true
         case Opened(file, from) =>
           file == 0 && Alone(s) && from <= s.earlier.at && delivered <= source
         case Writing(file, at) => Built(s, file, at) && (s.temporary.Some? ==> s.temporary.value == file)
         case Placed =>
           s.destination.Some? && Built(s, s.destination.value, |source|) && s.temporary.None?
         case GaveUp => true
    }

    lemma BuiltIsSource(s: State, file: nat)
      requires Built(s, file, |source|)
      ensures s.files[file] == source
    {
      assert s.files[file][..|source|] == s.files[file] && source[..|source|] == source;
    }

    lemma EarlierWritesKeeps(s: State, s': State, n: nat)
      requires Valid() && Keeps(s) && EarlierWrites(s, s', n)
      ensures Keeps(s') && Whole(s, s')
    {
      hide WriteAt;
      var at := s.earlier.at;
      if Alone(s) {
        WriteAtEnd(delivered, at, n);
      }
      if s.later.Placed? {
        BuiltIsSource(s, s.destination.value);
      }
      var mine, k := if s.later.Writing? then s.later.file else if s.later.Placed? then s.destination.value else 1,
                     if s.later.Writing? then s.later.at else |source|;
      if mine == 0 && delivered <= source {
        assert delivered[at..at + n] == source[at..at + n];
        WriteWithin(s.files[0], at, n, source, k);
      }
      if s.later.Placed? {
        BuiltIsSource(s', s.destination.value);
      }
    }

    lemma EarlierEndsKeeps(s: State, s': State)
      requires Valid() && !committed && Keeps(s)
      requires EarlierOpens(s, s') || EarlierPublishes(s, s') || EarlierStops(s, s')
      ensures Keeps(s') && Whole(s, s')
    {
      if s.later.Placed? {
        BuiltIsSource(s, s.destination.value);
      }
    }

    /** There is something to resume only where resuming it is harmless. */
    lemma LaterIsToldKeeps(s: State, s': State, from: nat)
      requires Valid() && Harmless() && Keeps(s) && LaterIsTold(s, s', from)
      ensures Keeps(s') && Whole(s, s')
    {
      if from > 0 {
        assert Least() <= delivered[..from];
      }
    }

    lemma LaterOpensKeeps(s: State, s': State)
      requires Valid() && Keeps(s) && LaterOpens(s, s')
      ensures Keeps(s') && Whole(s, s')
    {
    }

    lemma LaterWritesKeeps(s: State, s': State, n: nat)
      requires Valid() && Keeps(s) && LaterWrites(s, s', n)
      ensures Keeps(s') && Whole(s, s')
    {
      hide WriteAt;
      WriteOn(s.files[s.later.file], s.later.at, n, source);
    }

    lemma LaterEndsKeeps(s: State, s': State)
      requires Valid() && Keeps(s) && (LaterPublishes(s, s') || LaterStops(s, s'))
      ensures Keeps(s') && Whole(s, s')
    {
      if LaterPublishes(s, s') && s.temporary.Some? {
        BuiltIsSource(s, s.later.file);
      }
    }

    /** Every step either agent can take, in any order, keeps the destination whole. */
    lemma StepKeeps(s: State, s': State)
      requires Valid() && Harmless() && !committed && Keeps(s) && Step(s, s')
      ensures Keeps(s') && Whole(s, s')
    {
      hide EarlierOpens, EarlierWrites, EarlierPublishes, EarlierStops;
      hide LaterIsTold, LaterOpens, LaterWrites, LaterPublishes, LaterStops;
      hide Keeps, Whole, Harmless;
      if n :| EarlierWrites(s, s', n) {
        EarlierWritesKeeps(s, s', n);
      } else if EarlierOpens(s, s') || EarlierPublishes(s, s') || EarlierStops(s, s') {
        EarlierEndsKeeps(s, s');
      } else if from :| LaterIsTold(s, s', from) {
        LaterIsToldKeeps(s, s', from);
      } else if LaterOpens(s, s') {
        LaterOpensKeeps(s, s');
      } else if n :| LaterWrites(s, s', n) {
        LaterWritesKeeps(s, s', n);
      } else {
        LaterEndsKeeps(s, s');
      }
    }

    // -------------------------------------------------------------------------
    // With nothing to send on either side
    // -------------------------------------------------------------------------

    /** Every file but the original is empty. */
    ghost predicate AllEmpty(s: State) {
      && (forall f :: 0 <= f < |s.files| && !IsOriginal(f) ==> s.files[f] == [])
      && (original.Some? ==> 1 < |s.files|)
      && s.files != []
      && (s.temporary.Some? ==> s.temporary.value < |s.files| && !IsOriginal(s.temporary.value))
      && (s.destination.Some? ==> s.destination.value < |s.files|)
      && (s.later.Told? ==> s.later.from == 0) && !s.later.Opened?
      && (s.later.Placed? ==> Content(s) == Some([]))
    }

    lemma EmptyStepKeeps(s: State, s': State)
      requires Valid() && BothEmpty() && AllEmpty(s) && Step(s, s')
      ensures AllEmpty(s') && Whole(s, s')
    {
      hide WriteAt, IsOriginal;
      WriteNothing();
      if EarlierPublishes(s, s') || EarlierStops(s, s') || LaterPublishes(s, s') || LaterStops(s, s') {
        EmptyEndKeeps(s, s');
      } else if EarlierOpens(s, s') || LaterOpens(s, s') {
        EmptyOpenKeeps(s, s');
      }
    }

    lemma WriteNothing()
      ensures forall file, at :: WriteAt(file, at, []) == file
    {
    }

    lemma EmptyOpenKeeps(s: State, s': State)
      requires Valid() && BothEmpty() && AllEmpty(s) && (EarlierOpens(s, s') || LaterOpens(s, s'))
      ensures AllEmpty(s') && Whole(s, s')
    {
    }

    lemma EmptyEndKeeps(s: State, s': State)
      requires Valid() && BothEmpty() && AllEmpty(s)
      requires EarlierPublishes(s, s') || EarlierStops(s, s') || LaterPublishes(s, s') || LaterStops(s, s')
      ensures AllEmpty(s') && Whole(s, s')
    {
    }

    // -------------------------------------------------------------------------
    // The runs that tear the destination
    // -------------------------------------------------------------------------

    /** The later agent starts over, and the earlier one publishes the later one's file. */
    lemma LateCommitTears() returns (run: seq<State>)
      requires Valid() && begun && committed && !BothEmpty()
      ensures IsRun(run) && !SafeRun(run)
    {
      var n := if delivered == [] then |source| else 0;
      var s0 := Start();
      var f := |s0.files|;
      var s1 := s0.(later := Told(0));
      var s2 := s1.(temporary := None, later := Cleared);
      var s3 := s2.(files := s2.files + [[]], temporary := Some(f), later := Writing(f, 0));
      var s4 := s3.(files := s3.files[0 := WriteAt(s3.files[0], written, delivered[written..|delivered|])],
                    earlier := Earlier(0, |delivered|, Running));
      var s5 := s4.(files := s4.files[f := WriteAt(s4.files[f], 0, source[0..n])], later := Writing(f, n));
      var s6 := s5.(destination := s5.temporary, temporary := None, earlier := Earlier(0, |delivered|, Published));
      assert LaterIsTold(s0, s1, 0) && EarlierWrites(s3, s4, |delivered| - written) && LaterWrites(s4, s5, n);
      assert LaterOpens(s1, s2) && LaterOpens(s2, s3) && EarlierPublishes(s5, s6);
      run := [s0, s1, s2, s3, s4, s5, s6];
      WriteAtEnd(source, 0, n);
      assert source[..0] == [];
      assert Content(s6) == Some(source[..n]);
      assert !Whole(run[5], run[6]);
    }

    /** The earlier agent makes its temporary last, and the later one publishes that. */
    lemma LateStartTears() returns (run: seq<State>)
      requires Valid() && !begun && !BothEmpty()
      ensures IsRun(run) && !SafeRun(run)
    {
      hide WriteAt;
      var n := if source == [] then |delivered| else 0;
      var s0 := Start();
      var f := |s0.files|;
      var s1 := s0.(later := Told(0));
      var s2 := s1.(later := Cleared);
      var s3 := s2.(files := s2.files + [[]], temporary := Some(f), later := Writing(f, 0));
      var s4 := s3.(files := s3.files[f := source], later := Writing(f, |source|));
      var s5 := s4.(temporary := None, earlier := Earlier(0, 0, Clearing));
      var s6 := s5.(files := s5.files + [[]], temporary := Some(f + 1), earlier := Earlier(f + 1, 0, Running));
      var s7 := s6.(files := s6.files[f + 1 := delivered[..n]], earlier := Earlier(f + 1, n, Running));
      var s8 := s7.(destination := s7.temporary, temporary := None, later := Placed);
      WriteAtEnd(source, 0, |source|);
      WriteAtEnd(delivered, 0, n);
      assert source[..0] == [] == delivered[..0] && source[..|source|] == source;
      assert LaterIsTold(s0, s1, 0) && LaterOpens(s1, s2) && LaterOpens(s2, s3) && LaterWrites(s3, s4, |source|);
      assert EarlierOpens(s4, s5) && EarlierOpens(s5, s6) && EarlierWrites(s6, s7, n) && LaterPublishes(s7, s8);
      run := [s0, s1, s2, s3, s4, s5, s6, s7, s8];
      assert Content(s8) == Some(delivered[..n]);
      assert !Whole(run[7], run[8]);
    }

    /** The later agent resumes the file that the earlier one is still writing. */
    lemma LateWritesTear() returns (run: seq<State>)
      requires Valid() && begun && !(delivered <= source) && Least() <= source
      ensures IsRun(run) && !SafeRun(run)
    {
      hide WriteAt;
      var m, rest := |Least()|, |delivered| - |Least()|;
      var s0 := Start();
      var s1 := s0.(files := s0.files[0 := delivered[..m]], earlier := Earlier(0, m, Running));
      var s2 := s1.(later := Told(m));
      var s3 := s2.(later := Opened(0, m));
      var s4 := s3.(later := Writing(0, m));
      var s5 := s4.(files := s4.files[0 := source], later := Writing(0, |source|));
      var torn := WriteAt(source, m, delivered[m..]);
      var s6 := s5.(files := s5.files[0 := torn], earlier := Earlier(0, |delivered|, Running));
      var s7 := s6.(destination := s6.temporary, temporary := None, later := Placed);
      WriteAtEnd(delivered, written, m - written);
      WriteAtEnd(source, m, |source| - m);
      assert source[..m] == delivered[..m] && source[..|source|] == source;
      assert delivered[m..|delivered|] == delivered[m..];
      assert EarlierWrites(s0, s1, m - written) && LaterIsTold(s1, s2, m) && LaterWrites(s4, s5, |source| - m);
      assert delivered[..m][..m] == delivered[..m];
      assert s4.files == s3.files[0 := s3.files[0][..m]];
      assert LaterOpens(s2, s3) && LaterOpens(s3, s4) && EarlierWrites(s5, s6, rest) && LaterPublishes(s6, s7);
      run := [s0, s1, s2, s3, s4, s5, s6, s7];
      WriteOver(source, m, delivered);
      assert !Whole(run[6], run[7]);
    }

    // -------------------------------------------------------------------------
    // Exactly when it is safe
    // -------------------------------------------------------------------------

    lemma {:induction false} HarmlessThroughout(run: seq<State>, i: nat)
      requires Valid() && Harmless() && IsRun(run) && i < |run|
      ensures if BothEmpty() then AllEmpty(run[i]) else Keeps(run[i])
    {
      hide Step, Harmless, AllEmpty, Keeps;
      if i == 0 {
        HarmlessStart();
      } else {
        HarmlessThroughout(run, i - 1);
        HarmlessStep(run[i - 1], run[i]);
      }
    }

    lemma HarmlessStart()
      requires Valid() && Harmless()
      ensures if BothEmpty() then AllEmpty(Start()) else Keeps(Start())
    {
    }

    lemma HarmlessStep(s: State, s': State)
      requires Valid() && Harmless() && Step(s, s')
      requires if BothEmpty() then AllEmpty(s) else Keeps(s)
      ensures if BothEmpty() then AllEmpty(s') else Keeps(s')
      ensures Whole(s, s')
    {
      hide Step, AllEmpty, Keeps, Whole, Least;
      if BothEmpty() {
        EmptyStepKeeps(s, s');
      } else {
        StepKeeps(s, s');
      }
    }

    /** A transfer may be begun while the agent of a lost connection is still at work exactly
        when that one has opened its temporary and has no commit to act on, and writes nothing
        but what the new transfer will too, or nothing that the new one would resume. */
    lemma OverlapIsSafeIff()
      requires Valid()
      ensures (forall run :: IsRun(run) ==> SafeRun(run)) <==> Harmless()
    {
      hide Step, Whole, AllEmpty, Keeps, Least;
      if Harmless() {
        forall run | IsRun(run)
          ensures SafeRun(run)
        {
          forall i | 0 <= i < |run| - 1
            ensures Whole(run[i], run[i + 1])
          {
            HarmlessThroughout(run, i);
            HarmlessStep(run[i], run[i + 1]);
          }
        }
      } else if !begun && !BothEmpty() {
        var run := LateStartTears();
      } else if committed && !BothEmpty() {
        var run := LateCommitTears();
      } else {
        var run := LateWritesTear();
      }
    }
  }
}
