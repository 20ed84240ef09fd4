/** The backend's thread and the consumer, sharing a bounded channel and a rescan
    signal, in every interleaving of their steps. */
module WatcherSteps {
  import opened Basics
  import opened RescanSignal
  import opened WatchEvents

  // ---------------------------------------------------------------------------
  // What has to reach the consumer
  // ---------------------------------------------------------------------------

  /** Something the consumer has to learn of: a change at a path, a new directory whose
      contents may be unreported, or a gap of unknown extent. */
  datatype Observation = Change(event: FsEvent) | NewDirectory(directory: Path) | Overflow {
    /** The path it is about. */
    function At(root: Path): Path {
      match this
      case Change(event) => event.path
      case NewDirectory(directory) => directory
      case Overflow => root
    }

    /** The directory in which something is lost with it: the one a change is in, as all that
        can still be listed of it, and a new directory itself. */
    function LostIn(): Path {
      match this
      case Change(event) => if event.path == [] then [] else event.path[..|event.path| - 1]
      case NewDirectory(directory) => directory
      case Overflow => []
    }

    /** A walk of any directory containing this path makes up for it. A change needs its
        directory listed, as its own path may be gone, unless it is the root's own. */
    function Extent(root: Path): Path {
      if Change? && root <= Containing(event.path) then Containing(event.path) else At(root)
    }
  }

  function NewDirectories(paths: seq<Path>): (seen: seq<Observation>)
    ensures |seen| == |paths|
    ensures forall i :: 0 <= i < |paths| ==> seen[i] == NewDirectory(paths[i])
  {
    seq(|paths|, (i: nat) requires i < |paths| => NewDirectory(paths[i]))
  }

  function Changes(events: seq<FsEvent>): (seen: seq<Observation>)
    ensures |seen| == |events|
    ensures forall i :: 0 <= i < |events| ==> seen[i] == Change(events[i])
  {
    seq(|events|, (i: nat) requires i < |events| => Change(events[i]))
  }

  /** What one backend report obliges the watcher to pass on, in order. */
  function Observed(event: NotifyEvent): seq<Observation> {
    if event.BackendError? || event.needRescan then [Overflow]
    else (if event.kind.CreateFolder? then NewDirectories(event.paths) else []) + Changes(Translate(event))
  }

  // ---------------------------------------------------------------------------
  // The shared state, and each side's place in its own code
  // ---------------------------------------------------------------------------

  /** What the backend's thread still has to do, an observation being named by its place
      in the history. `RaiseFlag` is the second half of a widening, under the lock, and
      `RaiseFlagFree` that of `lost_everything`, which has let go of it. */
  datatype Op = Send(id: nat) | Widen(directory: Path, id: nat) | RaiseFlag | LoseEverything(id: nat) | RaiseFlagFree {
    predicate Holds(id: nat) {
      (Send? || Widen? || LoseEverything?) && this.id == id
    }
  }

  datatype Consumer =
    | Idle                                         // between calls
    | Receiving                                    // no rescan was pending when it looked
    | Purging                                      // one was
    | Purged(id: nat)                              // holding an event it took off the channel
    | Flagging                                     // has widened for it, under the lock
    | Emptied                                      // the channel was empty when it looked
    | Taken(directory: Path, ids: set<nat>)        // has swapped the scope out, under the lock

  datatype Holder = Nobody | Backend | TheConsumer

  datatype Delivery = Event(id: nat) | Rescan(directory: Path, ids: set<nat>)

  /** `history` and every set of ids are bookkeeping; the program holds the rest. */
  datatype State = State(
    history: seq<Observation>,
    backend: seq<Op>,
    channel: seq<nat>,
    scope: Scope,
    pending: bool,
    lock: Holder,
    consumer: Consumer,
    delivered: seq<Delivery>,
    owed: set<nat>)

  datatype Watch = Watch(root: Path, capacity: nat) {

    function Start(): State {
      State([], [], [], Clean, false, Nobody, Idle, [], {})
    }

    function PlanOne(seen: Observation, id: nat): Op {
      match seen
      case Change(_) => Send(id)
      case NewDirectory(directory) => Widen(directory, id)
      case Overflow => LoseEverything(id)
    }

    function PlanAll(seen: seq<Observation>, from: nat): (ops: seq<Op>)
      ensures |ops| == |seen|
      ensures forall i :: 0 <= i < |seen| ==> ops[i] == PlanOne(seen[i], from + i)
    {
      seq(|seen|, (i: nat) requires i < |seen| => PlanOne(seen[i], from + i))
    }

    // -------------------------------------------------------------------------
    // Steps
    // -------------------------------------------------------------------------

    /** A report arrives while the backend's thread has nothing left to do. */
    ghost predicate Report(s: State, s': State, event: NotifyEvent) {
      && s.backend == []
      && s' == s.(history := s.history + Observed(event), backend := PlanAll(Observed(event), |s.history|))
    }

    ghost predicate BackendStep(s: State, s': State) {
      && s.backend != []
      && var rest := s.backend[1..];
         match s.backend[0]
         case Send(id) =>
           && id < |s.history|
           && s' == if |s.channel| < capacity then s.(channel := s.channel + [id], backend := rest)
                    else s.(backend := [Widen(Containing(s.history[id].At(root)), id)] + rest)
         case Widen(directory, id) =>
           s.lock.Nobody? && s' == s.(
             lock := Backend, scope := Widened(s.scope, directory), owed := s.owed + {id},
             backend := [RaiseFlag] + rest)
         case RaiseFlag => s' == s.(pending := true, lock := Nobody, backend := rest)
         case LoseEverything(id) =>
           s.lock.Nobody? && s' == s.(scope := Everything, owed := s.owed + {id}, backend := [RaiseFlagFree] + rest)
         case RaiseFlagFree => s' == s.(pending := true, backend := rest)
    }

    ghost predicate ConsumerStep(s: State, s': State) {
      match s.consumer
      case Idle => s' == s.(consumer := if s.pending then Purging else Receiving)
      case Receiving =>
        if s.channel != [] then
          s' == s.(channel := s.channel[1..], delivered := s.delivered + [Event(s.channel[0])], consumer := Idle)
        else s' == s.(consumer := Idle)
      case Purging =>
        if s.channel != [] then s' == s.(channel := s.channel[1..], consumer := Purged(s.channel[0]))
        else s' == s.(consumer := Emptied)
      case Purged(id) =>
        s.lock.Nobody? && id < |s.history| && s' == s.(
          lock := TheConsumer, scope := Widened(s.scope, Containing(s.history[id].At(root))),
          owed := s.owed + {id}, consumer := Flagging)
      case Flagging => s' == s.(pending := true, lock := Nobody, consumer := Purging)
      case Emptied =>
        s.lock.Nobody? && s' == s.(
          lock := TheConsumer, scope := Clean, owed := {}, consumer := Taken(WalkFor(s.scope, root), s.owed))
      case Taken(directory, ids) =>
        s' == s.(
          pending := false, lock := Nobody, delivered := s.delivered + [Rescan(directory, ids)], consumer := Idle)
    }

    ghost predicate Step(s: State, s': State) {
      (exists event :: Report(s, s', event)) || BackendStep(s, s') || ConsumerStep(s, s')
    }

    ghost predicate IsRun(run: seq<State>) {
      run != [] && run[0] == Start() && forall i :: 0 < i < |run| ==> Step(run[i - 1], run[i])
    }

    // -------------------------------------------------------------------------
    // The invariant
    // -------------------------------------------------------------------------

    predicate Inside(s: State, id: nat) {
      id < |s.history| && root <= s.history[id].At(root)
    }

    ghost predicate InBackendsHand(s: State, id: nat) {
      exists k :: 0 <= k < |s.backend| && s.backend[k].Holds(id)
    }

    predicate InHand(consumer: Consumer, id: nat) {
      consumer == Purged(id) || (consumer.Taken? && id in consumer.ids)
    }

    ghost predicate Rescanned(s: State, from: nat, id: nat) {
      exists k :: from <= k < |s.delivered| && s.delivered[k].Rescan? && id in s.delivered[k].ids
    }

    ghost predicate Accounted(s: State, id: nat) {
      || InBackendsHand(s, id)
      || id in s.channel
      || InHand(s.consumer, id)
      || Event(id) in s.delivered
      || id in s.owed
      || Rescanned(s, 0, id)
    }

    /** A walk for the scope would reach an observation. */
    predicate ScopeReaches(scope: Scope, extent: Path) {
      match scope
      case Clean => false
      case Subtree(directory) => directory <= extent
      case Everything => true
    }

    ghost predicate OwedIsReached(s: State) {
      forall id :: id in s.owed && Inside(s, id) ==> ScopeReaches(s.scope, s.history[id].Extent(root))
    }

    ghost predicate Reaches(s: State, directory: Path, ids: set<nat>) {
      && root <= directory && (forall id :: id in ids ==> id < |s.history|)
      && forall id :: id in ids && Inside(s, id) ==> directory <= s.history[id].Extent(root)
    }

    /** A pending scope has its flag set, or about to be set by whoever widened it. */
    ghost predicate Flagged(s: State) {
      s.scope != Clean ==>
        || s.pending
        || s.consumer == Flagging
        || (s.backend != [] && (s.backend[0] == RaiseFlag || s.backend[0] == RaiseFlagFree))
    }

    ghost predicate LockIsHeld(s: State) {
      && (s.lock.Backend? <==> s.backend != [] && s.backend[0] == RaiseFlag)
      && (s.lock.TheConsumer? <==> s.consumer.Flagging? || s.consumer.Taken?)
      && (s.consumer.Taken? ==> s.scope == Clean)
      && (forall k :: 0 < k < |s.backend| ==> !s.backend[k].RaiseFlag? && !s.backend[k].RaiseFlagFree?)
    }

    /** Whatever is waiting to be passed on is in the history, and what waits to widen the
        scope waits to do so far enough. */
    predicate OpFits(op: Op, history: seq<Observation>) {
      match op
      case Send(id) => id < |history|
      case Widen(directory, id) => id < |history| && directory <= history[id].Extent(root)
      case LoseEverything(id) => id < |history|
      case _ => true
    }

    ghost predicate AllFit(s: State) {
      && (forall k :: 0 <= k < |s.backend| ==> OpFits(s.backend[k], s.history))
      && (forall k :: 0 <= k < |s.channel| ==> s.channel[k] < |s.history|)
      && (s.consumer.Purged? ==> s.consumer.id < |s.history|)
      && (forall id :: id in s.owed ==> id < |s.history|)
    }

    /** Every rescan returned, or about to be, reaches what it answers for. */
    ghost predicate RescansReach(s: State) {
      && (s.consumer.Taken? ==> Reaches(s, s.consumer.directory, s.consumer.ids))
      && (forall k :: 0 <= k < |s.delivered| && s.delivered[k].Rescan? ==>
           Reaches(s, s.delivered[k].directory, s.delivered[k].ids))
    }

    ghost predicate Inv(s: State) {
      && (forall id: nat :: id < |s.history| ==> Accounted(s, id))
      && OwedIsReached(s) && RescansReach(s)
      && Flagged(s) && LockIsHeld(s) && AllFit(s)
    }

    // -------------------------------------------------------------------------
    // Every step keeps it
    // -------------------------------------------------------------------------

    lemma ContainingIsWideEnough(seen: Observation)
      ensures Containing(seen.At(root)) <= seen.Extent(root)
      ensures root <= seen.At(root) ==> root <= seen.Extent(root)
    {
    }

    lemma WideningReaches(scope: Scope, directory: Path, extent: Path)
      ensures ScopeReaches(scope, extent) ==> ScopeReaches(Widened(scope, directory), extent)
      ensures directory <= extent ==> ScopeReaches(Widened(scope, directory), extent)
    {
      if scope.Subtree? {
        var shared := CommonPrefix(scope.directory, directory);
        CommonPrefixIsMeet(scope.directory, directory, shared);
        if scope.directory <= extent {
          assert extent[..|shared|] == scope.directory[..|shared|];
        }
        if directory <= extent {
          assert extent[..|shared|] == directory[..|shared|];
        }
      }
    }

    lemma WalkReaches(scope: Scope, extent: Path)
      requires ScopeReaches(scope, extent) && root <= extent
      ensures WalkFor(scope, root) <= extent
    {
    }

    lemma ReportKeepsAccounts(s: State, s': State, event: NotifyEvent, id: nat)
      requires Report(s, s', event) && id < |s'.history|
      requires id < |s.history| ==> Accounted(s, id)
      ensures Accounted(s', id)
    {
      hide Observed;
      if id >= |s.history| {
        assert s'.backend[id - |s.history|].Holds(id);
      }
    }

    lemma ReportKeepsRest(s: State, s': State, event: NotifyEvent)
      requires Inv(s) && Report(s, s', event)
      ensures OwedIsReached(s') && RescansReach(s') && Flagged(s') && LockIsHeld(s') && AllFit(s')
    {
      hide Observed, Accounted, ScopeReaches;
    }

    lemma BackendKeepsAccounts(s: State, s': State, id: nat)
      requires AllFit(s) && Accounted(s, id) && BackendStep(s, s')
      ensures Accounted(s', id)
    {
      hide Widened, Containing;
      if InBackendsHand(s, id) {
        var k :| 0 <= k < |s.backend| && s.backend[k].Holds(id);
        if k > 0 {
          assert s.backend[k] == s.backend[1..][k - 1];
          if |s'.backend| == |s.backend| {
            assert s'.backend[k] == s.backend[k];
          } else {
            assert s'.backend[k - 1] == s.backend[k];
          }
        } else if s.backend[0].Send? && |s.channel| >= capacity {
          assert s'.backend[0].Holds(id);
        }
      }
    }

    lemma BackendKeepsFlags(s: State, s': State)
      requires Inv(s) && BackendStep(s, s')
      ensures Flagged(s') && LockIsHeld(s') && AllFit(s')
    {
      hide AllFit, Flagged, LockIsHeld, Accounted, RescansReach, OwedIsReached;
      BackendKeepsFit(s, s');
      BackendKeepsLock(s, s');
    }

    lemma BackendKeepsLock(s: State, s': State)
      requires Flagged(s) && LockIsHeld(s) && BackendStep(s, s')
      ensures Flagged(s') && LockIsHeld(s')
    {
      hide Containing, Widened;
    }

    lemma BackendKeepsFit(s: State, s': State)
      requires AllFit(s) && BackendStep(s, s')
      ensures AllFit(s')
    {
      hide Containing, Widened;
      forall seen: Observation
        ensures Containing(seen.At(root)) <= seen.Extent(root)
      {
        ContainingIsWideEnough(seen);
      }
    }

    lemma BackendKeepsReach(s: State, s': State)
      requires Inv(s) && BackendStep(s, s')
      ensures OwedIsReached(s') && RescansReach(s')
    {
      hide Containing, Widened, Accounted, Flagged, ScopeReaches;
      forall id | id in s'.owed && Inside(s', id)
        ensures ScopeReaches(s'.scope, s'.history[id].Extent(root))
      {
        if s.backend[0].Widen? {
          WideningReaches(s.scope, s.backend[0].directory, s.history[id].Extent(root));
        } else if s.backend[0].LoseEverything? {
          EverythingReaches(s.history[id].Extent(root));
        }
      }
    }

    lemma EverythingReaches(extent: Path)
      ensures ScopeReaches(Everything, extent)
    {
    }

    lemma DeliveriesStay(s: State, s': State, from: nat, id: nat)
      requires s.delivered <= s'.delivered
      ensures Event(id) in s.delivered ==> Event(id) in s'.delivered
      ensures Rescanned(s, from, id) ==> Rescanned(s', from, id)
    {
      assert s.delivered == s'.delivered[..|s.delivered|];
      if Rescanned(s, from, id) {
        var k :| from <= k < |s.delivered| && s.delivered[k].Rescan? && id in s.delivered[k].ids;
        assert s'.delivered[k] == s.delivered[k];
      }
    }

    lemma ConsumerKeepsAccounts(s: State, s': State, id: nat)
      requires AllFit(s) && Accounted(s, id) && ConsumerStep(s, s')
      ensures Accounted(s', id)
    {
      hide Widened, Containing, Rescanned;
      DeliveriesStay(s, s', 0, id);
      if s.channel != [] {
        assert s.channel == [s.channel[0]] + s.channel[1..];
      }
      if s.consumer.Receiving? && s.channel != [] {
        assert s'.delivered[|s.delivered|] == Event(s.channel[0]);
      } else if s.consumer.Taken? && id in s.consumer.ids {
        LastIsRescan(s', id);
      }
    }

    lemma LastIsRescan(s: State, id: nat)
      requires s.delivered != []
      ensures var last := s.delivered[|s.delivered| - 1];
        last.Rescan? && id in last.ids ==> Rescanned(s, |s.delivered| - 1, id) && Rescanned(s, 0, id)
    {
    }

    lemma ConsumerKeepsFlags(s: State, s': State)
      requires Inv(s) && ConsumerStep(s, s')
      ensures Flagged(s') && LockIsHeld(s') && AllFit(s')
    {
      hide Containing, Widened, Accounted, WalkFor, OpFits, RescansReach, OwedIsReached;
    }

    lemma ConsumerKeepsReach(s: State, s': State)
      requires Inv(s) && ConsumerStep(s, s')
      ensures OwedIsReached(s') && RescansReach(s')
    {
      hide Containing, Widened, Accounted, WalkFor, Flagged, LockIsHeld, OpFits, ScopeReaches;
      match s.consumer {
        case Purged(purged) =>
          forall id | id in s'.owed && Inside(s', id)
            ensures ScopeReaches(s'.scope, s'.history[id].Extent(root))
          {
            var path := s.history[purged].At(root);
            ContainingIsWideEnough(s.history[purged]);
            WideningReaches(s.scope, Containing(path), s.history[id].Extent(root));
          }
        case Emptied =>
          WalkStaysInside(s.scope);
          forall id | id in s.owed && Inside(s, id)
            ensures WalkFor(s.scope, root) <= s.history[id].Extent(root)
          {
            WalkReaches(s.scope, s.history[id].Extent(root));
          }
        case _ =>
      }
    }

    lemma WalkStaysInside(scope: Scope)
      ensures root <= WalkFor(scope, root)
    {
    }

    lemma StepKeeps(s: State, s': State)
      requires Inv(s) && Step(s, s')
      ensures Inv(s')
    {
      hide Accounted, AllFit, Flagged, LockIsHeld, OwedIsReached, RescansReach;
      if event :| Report(s, s', event) {
        ReportKeepsRest(s, s', event);
        forall id: nat | id < |s'.history|
          ensures Accounted(s', id)
        {
          ReportKeepsAccounts(s, s', event, id);
        }
      } else if BackendStep(s, s') {
        BackendKeepsFlags(s, s');
        BackendKeepsReach(s, s');
        forall id: nat | id < |s'.history|
          ensures Accounted(s', id)
        {
          BackendKeepsAccounts(s, s', id);
        }
      } else {
        ConsumerKeepsFlags(s, s');
        ConsumerKeepsReach(s, s');
        forall id: nat | id < |s'.history|
          ensures Accounted(s', id)
        {
          ConsumerKeepsAccounts(s, s', id);
        }
      }
    }

    // -------------------------------------------------------------------------
    // Whole runs
    // -------------------------------------------------------------------------

    /** In every interleaving, however long. */
    lemma {:induction false} RunKeeps(run: seq<State>, i: nat)
      requires IsRun(run) && i < |run|
      ensures Inv(run[i])
    {
      hide Step, Accounted;
      if i > 0 {
        RunKeeps(run, i - 1);
        StepKeeps(run[i - 1], run[i]);
      }
    }

    /** What was observed inside the root has been delivered, or lies beneath a directory
        that was returned to be walked again. */
    ghost predicate Settled(s: State, id: nat) {
      || Event(id) in s.delivered
      || exists k :: 0 <= k < |s.delivered| && s.delivered[k].Rescan? && id in s.delivered[k].ids && id < |s.history|
           && root <= s.delivered[k].directory <= s.history[id].Extent(root)
    }

    /** Wherever a run gets to, an observation inside the root is settled, or still on its
        way: in a hand, in the channel, or owed by a scope that reaches it and whose flag
        is set or about to be. */
    lemma NothingIsDropped(run: seq<State>, i: nat, id: nat)
      requires IsRun(run) && i < |run| && Inside(run[i], id)
      ensures var s := run[i];
        || Settled(s, id)
        || InBackendsHand(s, id) || id in s.channel || InHand(s.consumer, id)
        || (id in s.owed && ScopeReaches(s.scope, s.history[id].Extent(root)) && Flagged(s))
    {
      hide IsRun;
      RunKeeps(run, i);
      assert Accounted(run[i], id);
    }

    // -------------------------------------------------------------------------
    // What becomes of a report
    // -------------------------------------------------------------------------

    /** Each observation travels as what it is: only changes are sent as events, and only an
        overflow loses everything. */
    ghost predicate InKind(s: State) {
      && AllFit(s)
      && (forall k :: 0 <= k < |s.backend| ==>
           && (s.backend[k].Send? ==> s.history[s.backend[k].id].Change?)
           && (s.backend[k].Widen? ==> !s.history[s.backend[k].id].Overflow?)
           && (s.backend[k].LoseEverything? ==> s.history[s.backend[k].id].Overflow?))
      && (forall k :: 0 <= k < |s.channel| ==> s.history[s.channel[k]].Change?)
      && (s.consumer.Purged? ==> s.history[s.consumer.id].Change?)
      && (forall k :: 0 <= k < |s.delivered| && s.delivered[k].Event? ==>
           s.delivered[k].id < |s.history| && s.history[s.delivered[k].id].Change?)
    }

    lemma StepKeepsKind(s: State, s': State)
      requires InKind(s) && AllFit(s') && Step(s, s')
      ensures InKind(s') && s.history <= s'.history
    {
      hide BackendStep, ConsumerStep, Report, AllFit;
      KindMeansFit(s);
      if event :| Report(s, s', event) {
        ReportKeepsKind(s, s', event);
      } else if BackendStep(s, s') {
        BackendKeepsKind(s, s');
      } else {
        ConsumerKeepsKind(s, s');
      }
    }

    lemma ReportKeepsKind(s: State, s': State, event: NotifyEvent)
      requires InKind(s) && AllFit(s') && Report(s, s', event)
      ensures InKind(s') && s.history <= s'.history
    {
      hide Observed, OpFits;
    }

    lemma BackendKeepsKind(s: State, s': State)
      requires InKind(s) && AllFit(s') && BackendStep(s, s')
      ensures InKind(s') && s.history <= s'.history
    {
      hide Widened, Containing;
      assert forall k :: 0 <= k < |s.backend| - 1 ==> s.backend[1..][k] == s.backend[k + 1];
    }

    lemma ConsumerKeepsKind(s: State, s': State)
      requires InKind(s) && AllFit(s') && ConsumerStep(s, s')
      ensures InKind(s') && s.history <= s'.history
    {
      hide Widened, Containing, WalkFor, OpFits;
    }

    lemma {:induction false} RunKeepsKind(run: seq<State>, i: nat)
      requires IsRun(run) && i < |run|
      ensures InKind(run[i])
    {
      hide Step, AllFit, InKind;
      RunKeeps(run, i);
      if i > 0 {
        RunKeepsKind(run, i - 1);
        StepKeepsKind(run[i - 1], run[i]);
      } else {
        StartIsInKind();
      }
    }

    lemma StartIsInKind()
      ensures InKind(Start())
    {
    }

    lemma {:induction false} HistoryGrows(run: seq<State>, i: nat, j: nat)
      requires IsRun(run) && i <= j < |run|
      ensures run[i].history <= run[j].history
      decreases j
    {
      hide Step, InKind;
      if i < j {
        HistoryGrows(run, i, j - 1);
        RunKeepsKind(run, j - 1);
        RunKeepsKind(run, j);
        KindMeansFit(run[j]);
        StepKeepsKind(run[j - 1], run[j]);
      }
    }

    lemma KindMeansFit(s: State)
      requires InKind(s)
      ensures AllFit(s)
    {
    }

    /** A report of a change at a path: not of lost events, nor of a read, and of a rename
        in one only its old and its new path. */
    ghost predicate Reports(event: NotifyEvent, path: Path) {
      && event.NotifyEvent? && !event.needRescan && !event.kind.Access? && !event.kind.OtherKind?
      && if event.kind.RenamedBoth? then
           |event.paths| >= 2 && (path == event.paths[0] || path == event.paths[1])
         else path in event.paths
    }

    lemma ReportIsRecorded(s: State, s': State, event: NotifyEvent, path: Path) returns (id: nat)
      requires Report(s, s', event) && Reports(event, path)
      ensures |s.history| <= id < |s'.history|
      ensures s'.history[id].Change? && s'.history[id].event.path == path
      ensures s'.history[id].event in Translate(event)
    {
      var first := if event.kind.CreateFolder? then |event.paths| else 0;
      var k := TranslatedAt(event, path);
      ObservedAfter(event, first, k);
      hide Observed, Translate, Reports;
      id := |s.history| + first + k;
    }

    lemma TranslatedAt(event: NotifyEvent, path: Path) returns (k: nat)
      requires Reports(event, path)
      ensures k < |Translate(event)| && Translate(event)[k].path == path && Translate(event)[k] in Translate(event)
    {
      if event.kind.RenamedBoth? {
        k := if path == event.paths[0] then 0 else 1;
      } else {
        k :| k < |event.paths| && event.paths[k] == path;
      }
    }

    lemma ObservedAfter(event: NotifyEvent, first: nat, k: nat)
      requires event.NotifyEvent? && !event.needRescan && k < |Translate(event)|
      requires first == if event.kind.CreateFolder? then |event.paths| else 0
      ensures first + k < |Observed(event)| && Observed(event)[first + k] == Change(Translate(event)[k])
    {
      hide Translate;
    }

    /** From a report of a change on, wherever a run gets to: for every path it names inside
        the root there is a change at that path delivered, beneath a returned rescan, queued, in
        a hand, or owed. */
    lemma ReportIsNotDropped(run: seq<State>, i: nat, j: nat, event: NotifyEvent, path: Path) returns (id: nat)
      requires IsRun(run) && i < j < |run| && Report(run[i], run[i + 1], event)
      requires Reports(event, path) && root <= path
      ensures |run[i].history| <= id < |run[i + 1].history| && id < |run[j].history|
      ensures var s := run[j];
        && s.history[id].Change? && s.history[id].event.path == path && s.history[id].event in Translate(event)
        && (|| Settled(s, id)
            || InBackendsHand(s, id) || id in s.channel || InHand(s.consumer, id)
            || (id in s.owed && ScopeReaches(s.scope, s.history[id].Extent(root)) && Flagged(s)))
    {
      hide IsRun, Report, Reports, Settled, InBackendsHand;
      id := ReportIsRecorded(run[i], run[i + 1], event, path);
      HistoryGrows(run, i + 1, j);
      assert run[i + 1].history[id] == run[j].history[id];
      NothingIsDropped(run, j, id);
    }

    /** What is no change is never sent as one: a rescan answers for it, or is going to. */
    ghost predicate AnsweredByAWalk(s: State, id: nat, extent: Path) {
      || (exists k :: 0 <= k < |s.backend| && s.backend[k].Holds(id) && !s.backend[k].Send?)
      || (id in s.owed && ScopeReaches(s.scope, extent) && Flagged(s))
      || (s.consumer.Taken? && id in s.consumer.ids && root <= s.consumer.directory <= extent)
      || (exists k :: 0 <= k < |s.delivered| && s.delivered[k].Rescan? && id in s.delivered[k].ids
           && root <= s.delivered[k].directory <= extent)
    }

    lemma WalkAnswers(run: seq<State>, j: nat, id: nat)
      requires IsRun(run) && j < |run| && Inside(run[j], id) && !run[j].history[id].Change?
      ensures AnsweredByAWalk(run[j], id, run[j].history[id].Extent(root))
    {
      hide IsRun, OpFits;
      var s := run[j];
      RunKeeps(run, j);
      RunKeepsKind(run, j);
      NothingIsDropped(run, j, id);
      if InBackendsHand(s, id) {
        var k :| 0 <= k < |s.backend| && s.backend[k].Holds(id);
        assert !s.backend[k].Send?;
      }
    }

    /** A folder reported as new is itself walked, in a directory no higher than its own, and
        not only reported. */
    lemma NewFolderIsWalked(run: seq<State>, i: nat, j: nat, event: NotifyEvent, folder: Path) returns (id: nat)
      requires IsRun(run) && i < j < |run| && Report(run[i], run[i + 1], event)
      requires Reports(event, folder) && event.kind.CreateFolder? && root <= folder
      ensures |run[i].history| <= id < |run[i + 1].history| && id < |run[j].history|
      ensures run[j].history[id] == NewDirectory(folder) && AnsweredByAWalk(run[j], id, folder)
    {
      hide IsRun, AnsweredByAWalk;
      var k: nat :| k < |event.paths| && event.paths[k] == folder;
      id := |run[i].history| + k;
      assert Observed(event)[k] == NewDirectory(folder);
      HistoryGrows(run, i + 1, j);
      assert run[i + 1].history[id] == run[j].history[id];
      WalkAnswers(run, j, id);
    }

    /** Lost events, or an error of the backend's, cost a walk of the whole root. */
    lemma OverflowIsWalked(run: seq<State>, i: nat, j: nat, event: NotifyEvent) returns (id: nat)
      requires IsRun(run) && i < j < |run| && Report(run[i], run[i + 1], event)
      requires event.BackendError? || event.needRescan
      ensures |run[i].history| <= id < |run[i + 1].history| && id < |run[j].history|
      ensures run[j].history[id] == Overflow && AnsweredByAWalk(run[j], id, root)
    {
      hide IsRun, AnsweredByAWalk;
      id := |run[i].history|;
      assert Observed(event)[0] == Overflow;
      HistoryGrows(run, i + 1, j);
      assert run[i + 1].history[id] == run[j].history[id];
      WalkAnswers(run, j, id);
    }

    // -------------------------------------------------------------------------
    // No scope is wider than it has to be
    // -------------------------------------------------------------------------

    /** A walk that is owed is owed in every directory that contains all that is lost, and the
        deepest of them is enough; with events lost by the backend, only the root is. */
    ghost predicate Needs(history: seq<Observation>, ids: set<nat>, directory: Path) {
      forall id :: id in ids && id < |history| ==> !history[id].Overflow? && directory <= history[id].LostIn()
    }

    ghost predicate ScopeIsTight(scope: Scope, ids: set<nat>, history: seq<Observation>) {
      match scope
      case Clean => ids == {}
      case Subtree(directory) => ids != {} && forall p :: p <= directory <==> Needs(history, ids, p)
      case Everything => forall p :: !Needs(history, ids, p)
    }

    ghost predicate WalkIsTight(directory: Path, ids: set<nat>, history: seq<Observation>) {
      ids != {} ==> forall p :: root <= p && Needs(history, ids, p) ==> p <= directory
    }

    ghost predicate Tight(s: State) {
      && ScopeIsTight(s.scope, s.owed, s.history)
      && (forall k :: 0 <= k < |s.backend| && s.backend[k].Widen? ==>
           s.backend[k].id < |s.history| && s.backend[k].directory == s.history[s.backend[k].id].LostIn())
      && (s.consumer.Taken? ==> WalkIsTight(s.consumer.directory, s.consumer.ids, s.history))
      && (forall k :: 0 <= k < |s.delivered| && s.delivered[k].Rescan? ==>
           WalkIsTight(s.delivered[k].directory, s.delivered[k].ids, s.history))
    }

    lemma NeedsOneMore(history: seq<Observation>, ids: set<nat>, id: nat, p: Path)
      requires id < |history|
      ensures Needs(history, ids + {id}, p) <==>
        Needs(history, ids, p) && !history[id].Overflow? && p <= history[id].LostIn()
    {
    }

    lemma NeedsAsBefore(history: seq<Observation>, more: seq<Observation>, ids: set<nat>, p: Path)
      requires history <= more && forall id :: id in ids ==> id < |history|
      ensures Needs(more, ids, p) <==> Needs(history, ids, p)
    {
    }

    lemma WideningIsTight(scope: Scope, ids: set<nat>, history: seq<Observation>, id: nat)
      requires ScopeIsTight(scope, ids, history) && id < |history| && !history[id].Overflow?
      ensures ScopeIsTight(Widened(scope, history[id].LostIn()), ids + {id}, history)
    {
      hide Needs;
      var directory := history[id].LostIn();
      forall p
        ensures Needs(history, ids + {id}, p) <==> Needs(history, ids, p) && p <= directory
        ensures scope.Clean? ==> Needs(history, ids, p)
        ensures scope.Subtree? ==>
          (p <= CommonPrefix(scope.directory, directory) <==> p <= scope.directory && p <= directory)
      {
        NeedsOneMore(history, ids, id, p);
        NothingNeedsNothing(history, p);
        if scope.Subtree? {
          CommonPrefixIsMeet(scope.directory, directory, p);
        }
      }
    }

    lemma NothingNeedsNothing(history: seq<Observation>, p: Path)
      ensures Needs(history, {}, p)
    {
    }

    lemma LosingEverythingIsTight(scope: Scope, ids: set<nat>, history: seq<Observation>, id: nat)
      requires id < |history| && history[id].Overflow?
      ensures ScopeIsTight(Everything, ids + {id}, history)
    {
    }

    lemma WalkOfTightScope(scope: Scope, ids: set<nat>, history: seq<Observation>)
      requires ScopeIsTight(scope, ids, history)
      ensures WalkIsTight(WalkFor(scope, root), ids, history)
    {
      hide Needs;
    }

    lemma ReportKeepsTight(s: State, s': State, event: NotifyEvent)
      requires Tight(s) && InKind(s) && Inv(s) && Report(s, s', event)
      ensures Tight(s')
    {
      hide Observed, Needs, Accounted, OwedIsReached, Flagged, LockIsHeld, OpFits;
      forall ids: set<nat>, p | forall id :: id in ids ==> id < |s.history|
        ensures Needs(s'.history, ids, p) <==> Needs(s.history, ids, p)
      {
        NeedsAsBefore(s.history, s'.history, ids, p);
      }
    }

    lemma BackendKeepsTight(s: State, s': State)
      requires Tight(s) && InKind(s) && BackendStep(s, s')
      ensures Tight(s')
    {
      hide Needs, ScopeIsTight, WalkIsTight, Widened;
      var op, rest := s.backend[0], s.backend[1..];
      assert forall k :: 0 <= k < |rest| ==> rest[k] == s.backend[k + 1];
      if op.Widen? {
        WideningIsTight(s.scope, s.owed, s.history, op.id);
      } else if op.LoseEverything? {
        LosingEverythingIsTight(s.scope, s.owed, s.history, op.id);
      }
    }

    lemma ConsumerKeepsTight(s: State, s': State)
      requires Tight(s) && InKind(s) && ConsumerStep(s, s')
      ensures Tight(s')
    {
      hide Needs, WalkIsTight, Widened, WalkFor, OpFits;
      match s.consumer {
        case Purged(id) => WideningIsTight(s.scope, s.owed, s.history, id);
        case Emptied => WalkOfTightScope(s.scope, s.owed, s.history);
        case _ =>
      }
    }

    lemma StepKeepsTight(s: State, s': State)
      requires Tight(s) && InKind(s) && Inv(s) && Step(s, s')
      ensures Tight(s')
    {
      hide Tight, InKind, Inv, Report, BackendStep, ConsumerStep;
      if event :| Report(s, s', event) {
        ReportKeepsTight(s, s', event);
      } else if BackendStep(s, s') {
        BackendKeepsTight(s, s');
      } else {
        ConsumerKeepsTight(s, s');
      }
    }

    lemma {:induction false} RunKeepsTight(run: seq<State>, i: nat)
      requires IsRun(run) && i < |run|
      ensures Tight(run[i])
    {
      hide Step, Tight, InKind, Inv;
      if i == 0 {
        StartIsTight();
      } else {
        RunKeepsTight(run, i - 1);
        RunKeepsKind(run, i - 1);
        RunKeeps(run, i - 1);
        StepKeepsTight(run[i - 1], run[i]);
      }
    }

    lemma StartIsTight()
      ensures Tight(Start())
    {
    }

    /** A rescan is of no more than it has to be: any directory inside the root that contains
        each directory lost in contains the one returned, or is it. */
    lemma RescansAreNarrow(run: seq<State>, i: nat, k: nat, p: Path)
      requires IsRun(run) && i < |run| && k < |run[i].delivered|
      requires run[i].delivered[k].Rescan? && run[i].delivered[k].ids != {}
      requires root <= p && forall id :: id in run[i].delivered[k].ids && id < |run[i].history| ==>
        !run[i].history[id].Overflow? && p <= run[i].history[id].LostIn()
      ensures p <= run[i].delivered[k].directory
    {
      hide IsRun;
      RunKeepsTight(run, i);
      var rescan := run[i].delivered[k];
      assert Needs(run[i].history, rescan.ids, p) && WalkIsTight(rescan.directory, rescan.ids, run[i].history);
    }

    // -------------------------------------------------------------------------
    // The consumer's calls, and the channel
    // -------------------------------------------------------------------------

    /** What the consumer does next is settled by where it is. */
    lemma ConsumerIsDeterministic(s: State, a: State, b: State)
      requires ConsumerStep(s, a) && ConsumerStep(s, b)
      ensures a == b
    {
    }

    /** The consumer's own steps, one after another. */
    ghost predicate IsConsumerRun(run: seq<State>) {
      run != [] && forall k :: 0 < k < |run| ==> ConsumerStep(run[k - 1], run[k])
    }

    lemma StepThenRun(s: State, run: seq<State>)
      requires run != [] && IsConsumerRun(run) && ConsumerStep(s, run[0])
      ensures IsConsumerRun([s] + run)
    {
      hide ConsumerStep;
      var all := [s] + run;
      forall k | 0 < k < |all|
        ensures ConsumerStep(all[k - 1], all[k])
      {
        assert all[k] == run[k - 1];
        assert k > 1 ==> all[k - 1] == run[k - 2];
      }
    }

    /** What a call that found the flag set ends in. */
    ghost predicate Rescans(s: State, ids: set<nat>, last: State) {
      && last.consumer.Idle? && last.channel == [] && !last.pending && last.scope == Clean && last.owed == {}
      && last.lock.Nobody? && last.history == s.history && last.backend == s.backend
      && |last.delivered| == |s.delivered| + 1 && last.delivered[..|s.delivered|] == s.delivered
      && last.delivered[|s.delivered|].Rescan? && last.delivered[|s.delivered|].ids == ids
    }

    /** With the channel empty, the scope is swapped out and returned. */
    lemma PurgeEnds(s: State) returns (run: seq<State>)
      requires s.consumer.Purging? && s.lock.Nobody? && s.channel == []
      ensures run != [] && IsConsumerRun(run) && run[0] == s && Rescans(s, s.owed, run[|run| - 1])
    {
      hide Widened, Containing, WalkFor;
      var emptied := s.(consumer := Emptied);
      var directory := WalkFor(s.scope, root);
      var taken := emptied.(lock := TheConsumer, scope := Clean, owed := {}, consumer := Taken(directory, s.owed));
      var last := taken.(pending := false, lock := Nobody, delivered := s.delivered + [Rescan(directory, s.owed)],
        consumer := Idle);
      assert ConsumerStep(s, emptied) && ConsumerStep(emptied, taken) && ConsumerStep(taken, last);
      hide ConsumerStep;
      run := [s, emptied, taken, last];
    }

    /** One more event off the channel, and owed instead. */
    lemma PurgeOne(s: State) returns (purged: State, flagging: State, next: State)
      requires s.consumer.Purging? && s.lock.Nobody? && s.channel != [] && s.channel[0] < |s.history|
      ensures ConsumerStep(s, purged) && ConsumerStep(purged, flagging) && ConsumerStep(flagging, next)
      ensures next.consumer.Purging? && next.lock.Nobody? && next.channel == s.channel[1..]
      ensures next.owed == s.owed + {s.channel[0]} && next.history == s.history
      ensures next.backend == s.backend && next.delivered == s.delivered
    {
      hide Widened, Containing;
      var id := s.channel[0];
      purged := s.(channel := s.channel[1..], consumer := Purged(id));
      flagging := purged.(lock := TheConsumer, owed := s.owed + {id}, consumer := Flagging,
        scope := Widened(s.scope, Containing(s.history[id].At(root))));
      next := flagging.(pending := true, lock := Nobody, consumer := Purging);
    }

    lemma {:induction false} PurgeOn(s: State) returns (run: seq<State>)
      requires s.consumer.Purging? && s.lock.Nobody?
      requires forall k :: 0 <= k < |s.channel| ==> s.channel[k] < |s.history|
      ensures run != [] && IsConsumerRun(run) && run[0] == s
      ensures Rescans(s, s.owed + (set id | id in s.channel), run[|run| - 1])
      decreases |s.channel|
    {
      hide ConsumerStep, IsConsumerRun;
      if s.channel == [] {
        run := PurgeEnds(s);
        assert s.owed + (set id | id in s.channel) == s.owed;
      } else {
        var purged, flagging, next := PurgeOne(s);
        var rest := PurgeOn(next);
        assert s.channel == [s.channel[0]] + s.channel[1..];
        assert s.owed + (set x | x in s.channel) == next.owed + (set x | x in next.channel);
        StepThenRun(flagging, rest);
        StepThenRun(purged, [flagging] + rest);
        StepThenRun(s, [purged] + ([flagging] + rest));
        run := [s] + ([purged] + ([flagging] + rest));
      }
    }

    /** A call that finds the flag set returns one rescan, which answers for all that was owed
        and all that was queued, and leaves nothing owed, queued or flagged, if the backend
        does nothing meanwhile. */
    lemma NextCallRescans(s: State) returns (run: seq<State>)
      requires s.consumer.Idle? && s.pending && s.lock.Nobody?
      requires forall k :: 0 <= k < |s.channel| ==> s.channel[k] < |s.history|
      ensures IsConsumerRun(run) && run[0] == s
      ensures Rescans(s, s.owed + (set id | id in s.channel), run[|run| - 1])
    {
      var rest := PurgeOn(s.(consumer := Purging));
      StepThenRun(s, rest);
      run := [s] + rest;
    }

    /** One that does not returns the event at the head of the channel. */
    lemma NextCallReceives(s: State) returns (run: seq<State>)
      requires s.consumer.Idle? && !s.pending && s.channel != []
      ensures IsConsumerRun(run) && run[0] == s
      ensures run[|run| - 1] == s.(channel := s.channel[1..], delivered := s.delivered + [Event(s.channel[0])])
    {
      var receiving := s.(consumer := Receiving);
      run := [s, receiving, s.(channel := s.channel[1..], delivered := s.delivered + [Event(s.channel[0])])];
    }

    /** The channel never holds more than it has room for. */
    lemma {:induction false} ChannelIsBounded(run: seq<State>, i: nat)
      requires IsRun(run) && i < |run|
      ensures |run[i].channel| <= capacity
    {
      hide Observed, Widened, Containing, WalkFor;
      if i > 0 {
        ChannelIsBounded(run, i - 1);
        assert Step(run[i - 1], run[i]);
      }
    }

    function SentIds(delivered: seq<Delivery>): seq<nat> {
      if delivered == [] then []
      else
        var n := |delivered| - 1;
        SentIds(delivered[..n]) + if delivered[n].Event? then [delivered[n].id] else []
    }

    function HeldIds(ops: seq<Op>): seq<nat> {
      if ops == [] then []
      else (if ops[0].Send? || ops[0].Widen? || ops[0].LoseEverything? then [ops[0].id] else []) + HeldIds(ops[1..])
    }

    /** The observations in the order in which they are met, from those delivered as events
        to those the backend still holds. */
    function Line(s: State): seq<nat> {
      SentIds(s.delivered) + s.channel + HeldIds(s.backend)
    }

    ghost predicate Increasing(ids: seq<nat>, limit: nat) {
      && (forall j, k :: 0 <= j < k < |ids| ==> ids[j] < ids[k])
      && (forall k :: 0 <= k < |ids| ==> ids[k] < limit)
    }

    lemma IncreasingWithout(a: seq<nat>, id: nat, b: seq<nat>, limit: nat)
      requires Increasing(a + [id] + b, limit)
      ensures Increasing(a + b, limit)
    {
      var all, left := a + [id] + b, a + b;
      forall k | 0 <= k < |left|
        ensures left[k] == all[if k < |a| then k else k + 1]
      {
      }
    }

    lemma {:induction false} PlannedIds(ops: seq<Op>, seen: seq<Observation>, from: nat)
      requires |ops| == |seen| && forall i :: 0 <= i < |seen| ==> ops[i] == PlanOne(seen[i], from + i)
      ensures |HeldIds(ops)| == |seen| && forall i :: 0 <= i < |seen| ==> HeldIds(ops)[i] == from + i
    {
      if ops != [] {
        PlannedIds(ops[1..], seen[1..], from + 1);
      }
    }

    lemma HeldIdsOf(op: Op, rest: seq<Op>)
      ensures HeldIds([op] + rest) ==
        (if op.Send? || op.Widen? || op.LoseEverything? then [op.id] else []) + HeldIds(rest)
    {
      assert ([op] + rest)[1..] == rest;
    }

    lemma SentIdsOf(delivered: seq<Delivery>, delivery: Delivery)
      ensures SentIds(delivered + [delivery]) == SentIds(delivered) + if delivery.Event? then [delivery.id] else []
    {
      assert (delivered + [delivery])[..|delivered|] == delivered;
    }

    lemma ReportKeepsLine(s: State, s': State, event: NotifyEvent)
      requires Increasing(Line(s), |s.history|) && Report(s, s', event)
      ensures Increasing(Line(s'), |s'.history|)
    {
      hide Observed;
      PlannedIds(s'.backend, Observed(event), |s.history|);
      assert HeldIds(s.backend) == [];
      assert Line(s) == SentIds(s.delivered) + s.channel;
      assert Line(s') == Line(s) + HeldIds(s'.backend);
    }

    lemma BackendKeepsLine(s: State, s': State)
      requires Increasing(Line(s), |s.history|) && BackendStep(s, s')
      ensures Increasing(Line(s'), |s'.history|)
    {
      hide Widened, Containing, Increasing, HeldIds, SentIds;
      var op, rest := s.backend[0], s.backend[1..];
      var front := SentIds(s.delivered) + s.channel;
      assert s.backend == [op] + rest;
      HeldIdsOf(op, rest);
      match op {
        case Send(id) =>
          assert Line(s) == front + [id] + HeldIds(rest);
          if |s.channel| < capacity {
            assert Line(s') == front + [id] + HeldIds(rest);
          } else {
            HeldIdsOf(s'.backend[0], rest);
            assert Line(s') == front + [id] + HeldIds(rest);
          }
        case Widen(_, id) =>
          assert Line(s) == front + [id] + HeldIds(rest);
          HeldIdsOf(RaiseFlag, rest);
          IncreasingWithout(front, id, HeldIds(rest), |s.history|);
          assert Line(s') == front + HeldIds(rest);
        case LoseEverything(id) =>
          assert Line(s) == front + [id] + HeldIds(rest);
          HeldIdsOf(RaiseFlagFree, rest);
          IncreasingWithout(front, id, HeldIds(rest), |s.history|);
          assert Line(s') == front + HeldIds(rest);
        case _ =>
          assert Line(s') == Line(s);
      }
    }

    lemma ConsumerKeepsLine(s: State, s': State)
      requires Increasing(Line(s), |s.history|) && ConsumerStep(s, s')
      ensures Increasing(Line(s'), |s'.history|)
    {
      hide Widened, Containing, WalkFor, Increasing, HeldIds, SentIds;
      var sent, held := SentIds(s.delivered), HeldIds(s.backend);
      if s'.channel != s.channel {
        var id, left := s.channel[0], s.channel[1..];
        assert s.channel == [id] + left;
        assert Line(s) == sent + [id] + (left + held);
        if s.consumer.Receiving? {
          SentIdsOf(s.delivered, Event(id));
          assert Line(s') == sent + [id] + (left + held);
        } else {
          IncreasingWithout(sent, id, left + held, |s.history|);
          assert Line(s') == sent + (left + held);
        }
      } else if s.consumer.Taken? {
        SentIdsOf(s.delivered, Rescan(s.consumer.directory, s.consumer.ids));
        assert Line(s') == Line(s);
      }
    }

    lemma {:induction false} LineIsIncreasing(run: seq<State>, i: nat)
      requires IsRun(run) && i < |run|
      ensures Increasing(Line(run[i]), |run[i].history|)
    {
      hide BackendStep, ConsumerStep, Report, Increasing, Line;
      if i == 0 {
        StartsInLine();
      } else {
        LineIsIncreasing(run, i - 1);
        StepKeepsLine(run[i - 1], run[i]);
      }
    }

    lemma StepKeepsLine(s: State, s': State)
      requires Increasing(Line(s), |s.history|) && Step(s, s')
      ensures Increasing(Line(s'), |s'.history|)
    {
      hide BackendStep, ConsumerStep, Report, Increasing, Line;
      if event :| Report(s, s', event) {
        ReportKeepsLine(s, s', event);
      } else if BackendStep(s, s') {
        BackendKeepsLine(s, s');
      } else {
        ConsumerKeepsLine(s, s');
      }
    }

    lemma StartsInLine()
      ensures Increasing(Line(Start()), |Start().history|)
    {
    }

    /** What is delivered as events is delivered in the order in which it was observed,
        whatever was discarded in between. */
    lemma DeliveredInOrder(run: seq<State>, i: nat, j: nat, k: nat)
      requires IsRun(run) && i < |run| && j < k < |run[i].delivered|
      requires run[i].delivered[j].Event? && run[i].delivered[k].Event?
      ensures run[i].delivered[j].id < run[i].delivered[k].id
    {
      hide IsRun, SentIds;
      LineIsIncreasing(run, i);
      var p, q := SentInOrder(run[i].delivered, j, k);
      assert Line(run[i])[p] < Line(run[i])[q];
    }

    lemma {:induction false} SentAt(delivered: seq<Delivery>, k: nat) returns (p: nat)
      requires k < |delivered| && delivered[k].Event?
      ensures p < |SentIds(delivered)| && SentIds(delivered)[p] == delivered[k].id
    {
      var n := |delivered| - 1;
      if k < n {
        p := SentAt(delivered[..n], k);
      } else {
        p := |SentIds(delivered[..n])|;
      }
    }

    lemma {:induction false} SentInOrder(delivered: seq<Delivery>, j: nat, k: nat) returns (p: nat, q: nat)
      requires j < k < |delivered| && delivered[j].Event? && delivered[k].Event?
      ensures p < q < |SentIds(delivered)|
      ensures SentIds(delivered)[p] == delivered[j].id && SentIds(delivered)[q] == delivered[k].id
    {
      var n := |delivered| - 1;
      if k < n {
        p, q := SentInOrder(delivered[..n], j, k);
      } else {
        p := SentAt(delivered[..n], j);
        q := |SentIds(delivered[..n])|;
      }
    }

    /** No gap yet: nothing owed, and nothing on its way to being. */
    ghost predicate NoGap(s: State) {
      && s.scope == Clean && s.owed == {} && !s.pending
      && (forall k :: 0 <= k < |s.backend| ==> s.backend[k].Send?)
      && (s.consumer.Idle? || s.consumer.Receiving?)
      && (forall k :: 0 <= k < |s.delivered| ==> s.delivered[k].Event?)
    }

    lemma StepKeepsNoGap(s: State, s': State)
      requires NoGap(s) && Step(s, s') && |s.channel| < capacity
      requires forall id :: 0 <= id < |s'.history| ==> s'.history[id].Change?
      ensures NoGap(s')
    {
      hide Report, BackendStep, ConsumerStep, NoGap;
      if event :| Report(s, s', event) {
        ReportKeepsNoGap(s, s', event);
      } else if BackendStep(s, s') {
        BackendKeepsNoGap(s, s');
      } else {
        ConsumerKeepsNoGap(s, s');
      }
    }

    lemma ReportKeepsNoGap(s: State, s': State, event: NotifyEvent)
      requires NoGap(s) && Report(s, s', event)
      requires forall id :: 0 <= id < |s'.history| ==> s'.history[id].Change?
      ensures NoGap(s')
    {
      hide Observed, NoGap, PlanOne;
      forall k | 0 <= k < |s'.backend|
        ensures s'.backend[k].Send?
      {
        assert s'.history[|s.history| + k] == Observed(event)[k];
        ChangeIsSent(Observed(event)[k], |s.history| + k);
      }
      NoGapWith(s, s');
    }

    lemma ChangeIsSent(seen: Observation, id: nat)
      ensures seen.Change? ==> PlanOne(seen, id).Send?
    {
    }

    lemma NoGapWith(s: State, s': State)
      requires NoGap(s) && s' == s.(history := s'.history, backend := s'.backend)
      requires forall k :: 0 <= k < |s'.backend| ==> s'.backend[k].Send?
      ensures NoGap(s')
    {
    }

    lemma BackendKeepsNoGap(s: State, s': State)
      requires NoGap(s) && BackendStep(s, s') && |s.channel| < capacity
      ensures NoGap(s')
    {
      hide Widened, Containing;
    }

    lemma ConsumerKeepsNoGap(s: State, s': State)
      requires NoGap(s) && ConsumerStep(s, s')
      ensures NoGap(s')
    {
      hide Widened, Containing, WalkFor;
    }

    /** While there is room in the channel, and only changes are observed, no change is turned
        into a rescan: each is delivered as an event, queued, or about to be sent. */
    lemma {:induction false} NoGapNoRescan(run: seq<State>, i: nat)
      requires IsRun(run) && i < |run|
      requires forall k :: 0 <= k < i ==> |run[k].channel| < capacity
      requires forall id :: 0 <= id < |run[i].history| ==> run[i].history[id].Change?
      ensures NoGap(run[i])
      ensures forall id: nat :: id < |run[i].history| ==>
        Event(id) in run[i].delivered || id in run[i].channel || Send(id) in run[i].backend
    {
      hide Step, NoGap, Accounted;
      if i == 0 {
        StartHasNoGap();
      } else {
        HistoryGrows(run, i - 1, i);
        assert forall id :: 0 <= id < |run[i - 1].history| ==> run[i - 1].history[id] == run[i].history[id];
        NoGapNoRescan(run, i - 1);
        StepKeepsNoGap(run[i - 1], run[i]);
      }
      RunKeeps(run, i);
      forall id: nat | id < |run[i].history|
        ensures Event(id) in run[i].delivered || id in run[i].channel || Send(id) in run[i].backend
      {
        assert Accounted(run[i], id);
        NoGapAccounts(run[i], id);
      }
    }

    lemma StartHasNoGap()
      ensures NoGap(Start())
    {
    }

    lemma NoGapAccounts(s: State, id: nat)
      requires NoGap(s) && Accounted(s, id)
      ensures Event(id) in s.delivered || id in s.channel || Send(id) in s.backend
    {
      if InBackendsHand(s, id) {
        var k :| 0 <= k < |s.backend| && s.backend[k].Holds(id);
        assert s.backend[k] == Send(id);
      }
    }

    /** At rest: the backend has nothing left to do, the channel is empty, and the consumer
        is between calls or waiting for the channel. */
    predicate Quiet(s: State) {
      s.backend == [] && s.channel == [] && (s.consumer.Idle? || s.consumer.Receiving?)
    }

    /** At rest, an observation inside the root is settled exactly when the scope does not
        owe it. With the flag clear, nothing is owed, and so all are settled; a consumer
        that waits while the flag is set is missing precisely what is owed. */
    lemma QuietMeansSettled(run: seq<State>, i: nat, id: nat)
      requires IsRun(run) && i < |run| && Inside(run[i], id) && Quiet(run[i])
      ensures Settled(run[i], id) <==> id !in run[i].owed
      ensures !run[i].pending ==> Settled(run[i], id)
    {
      hide IsRun, Settled;
      NothingIsDropped(run, i, id);
      SettledIsNotOwed(run, i, id);
    }

    // -------------------------------------------------------------------------
    // Each observation is in one place
    // -------------------------------------------------------------------------

    function One(holds: bool): nat {
      if holds then 1 else 0
    }

    function HeldCount(ops: seq<Op>, id: nat): nat {
      if ops == [] then 0 else One(ops[0].Holds(id)) + HeldCount(ops[1..], id)
    }

    predicate InDelivery(delivery: Delivery, id: nat) {
      if delivery.Event? then delivery.id == id else id in delivery.ids
    }

    function DeliveredCount(delivered: seq<Delivery>, id: nat): nat {
      if delivered == [] then 0
      else
        var n := |delivered| - 1;
        DeliveredCount(delivered[..n], id) + One(InDelivery(delivered[n], id))
    }

    /** How many places an observation is in. */
    function Places(s: State, id: nat): nat {
      HeldCount(s.backend, id) + multiset(s.channel)[id] + One(InHand(s.consumer, id)) + One(id in s.owed)
      + DeliveredCount(s.delivered, id)
    }

    /** One place, once it has been observed. */
    ghost predicate OnePlace(s: State, id: nat) {
      Places(s, id) == One(id < |s.history|)
    }

    lemma {:induction false} PlannedCount(ops: seq<Op>, from: nat, id: nat)
      requires forall i :: 0 <= i < |ops| ==> (ops[i].Holds(id) <==> id == from + i)
      ensures HeldCount(ops, id) == One(from <= id < from + |ops|)
    {
      if ops != [] {
        PlannedCount(ops[1..], from + 1, id);
      }
    }

    lemma ReportKeepsPlace(s: State, s': State, event: NotifyEvent, id: nat)
      requires OnePlace(s, id) && Report(s, s', event)
      ensures OnePlace(s', id)
    {
      hide Observed, DeliveredCount;
      PlannedCount(s'.backend, |s.history|, id);
    }

    lemma HeadHeld(op: Op, rest: seq<Op>, id: nat)
      ensures HeldCount([op] + rest, id) == One(op.Holds(id)) + HeldCount(rest, id)
    {
      assert ([op] + rest)[1..] == rest;
    }

    lemma BackendKeepsPlace(s: State, s': State, id: nat)
      requires OnePlace(s, id) && BackendStep(s, s')
      ensures OnePlace(s', id)
    {
      hide Widened, Containing, DeliveredCount, HeldCount, InHand;
      var op, rest := s.backend[0], s.backend[1..];
      assert s.backend == [op] + rest;
      HeadHeld(op, rest, id);
      if |s'.backend| == |s.backend| {
        HeadHeld(s'.backend[0], rest, id);
      }
    }

    lemma DeliveredOneMore(delivered: seq<Delivery>, delivery: Delivery, id: nat)
      ensures DeliveredCount(delivered + [delivery], id)
           == DeliveredCount(delivered, id) + One(InDelivery(delivery, id))
    {
      assert (delivered + [delivery])[..|delivered|] == delivered;
    }

    lemma ConsumerKeepsPlace(s: State, s': State, id: nat)
      requires OnePlace(s, id) && ConsumerStep(s, s')
      ensures OnePlace(s', id)
    {
      hide Widened, Containing, WalkFor, HeldCount, DeliveredCount;
      if s.channel != [] {
        assert s.channel == [s.channel[0]] + s.channel[1..];
        DeliveredOneMore(s.delivered, Event(s.channel[0]), id);
      }
      if s.consumer.Taken? {
        DeliveredOneMore(s.delivered, Rescan(s.consumer.directory, s.consumer.ids), id);
      }
    }

    lemma StepKeepsPlace(s: State, s': State, id: nat)
      requires OnePlace(s, id) && Step(s, s')
      ensures OnePlace(s', id)
    {
      hide BackendStep, ConsumerStep, OnePlace;
      if event :| Report(s, s', event) {
        ReportKeepsPlace(s, s', event, id);
      } else if BackendStep(s, s') {
        BackendKeepsPlace(s, s', id);
      } else {
        ConsumerKeepsPlace(s, s', id);
      }
    }

    /** In every interleaving, each observation is in exactly one place, and there once. */
    lemma {:induction false} OnePlaceThroughout(run: seq<State>, i: nat, id: nat)
      requires IsRun(run) && i < |run|
      ensures OnePlace(run[i], id)
    {
      hide Step;
      if i > 0 {
        OnePlaceThroughout(run, i - 1, id);
        StepKeepsPlace(run[i - 1], run[i], id);
      }
    }

    lemma {:induction false} DeliveredCounts(delivered: seq<Delivery>, k: nat, id: nat)
      requires k < |delivered| && InDelivery(delivered[k], id)
      ensures DeliveredCount(delivered, id) > 0
    {
      var n := |delivered| - 1;
      if k < n {
        DeliveredCounts(delivered[..n], k, id);
      }
    }

    lemma SettledIsNotOwed(run: seq<State>, i: nat, id: nat)
      requires IsRun(run) && i < |run|
      ensures Settled(run[i], id) ==> id !in run[i].owed
    {
      hide IsRun, DeliveredCount;
      OnePlaceThroughout(run, i, id);
      var s := run[i];
      if Settled(s, id) {
        var k :| 0 <= k < |s.delivered| && InDelivery(s.delivered[k], id);
        DeliveredCounts(s.delivered, k, id);
      }
    }

    /** Whatever is delivered is delivered once: as an event or within one rescan. */
    lemma DeliveredOnce(run: seq<State>, i: nat, j: nat, k: nat, id: nat)
      requires IsRun(run) && i < |run| && j < k < |run[i].delivered| && InDelivery(run[i].delivered[j], id)
      ensures !InDelivery(run[i].delivered[k], id)
    {
      hide IsRun, DeliveredCount;
      OnePlaceThroughout(run, i, id);
      if InDelivery(run[i].delivered[k], id) {
        CountedTwice(run[i].delivered, j, k, id);
      }
    }

    lemma {:induction false} CountedTwice(delivered: seq<Delivery>, j: nat, k: nat, id: nat)
      requires j < k < |delivered| && InDelivery(delivered[j], id) && InDelivery(delivered[k], id)
      ensures DeliveredCount(delivered, id) > 1
    {
      var n := |delivered| - 1;
      if k < n {
        CountedTwice(delivered[..n], j, k, id);
      } else {
        DeliveredCounts(delivered[..n], j, id);
      }
    }

    /** Where an owed observation stands from then on: still owed, or swapped out, or in a
        rescan returned since. */
    ghost predicate OwedOrSince(s: State, from: nat, id: nat) {
      || id in s.owed
      || (from <= |s.delivered| && s.consumer.Taken? && id in s.consumer.ids)
      || Rescanned(s, from, id)
    }

    lemma StepKeepsOwed(s: State, s': State, from: nat, id: nat)
      requires Step(s, s') && OwedOrSince(s, from, id) && from <= |s.delivered|
      ensures OwedOrSince(s', from, id) && from <= |s'.delivered|
    {
      hide Widened, WalkFor, Containing, Observed;
      DeliveriesStay(s, s', from, id);
      if s.consumer.Taken? && ConsumerStep(s, s') {
        assert s'.delivered[|s.delivered|].Rescan?;
      }
    }

    /** Whatever the scope owes at one point of a run is still owed later, or is answered
        for by a rescan that was returned after that point. */
    lemma {:induction false} OwedIsRescannedAfter(run: seq<State>, i: nat, j: nat, id: nat)
      requires IsRun(run) && i <= j < |run| && id in run[i].owed
      ensures OwedOrSince(run[j], |run[i].delivered|, id) && |run[i].delivered| <= |run[j].delivered|
      decreases j
    {
      hide Step, Rescanned;
      if i < j {
        OwedIsRescannedAfter(run, i, j - 1, id);
        StepKeepsOwed(run[j - 1], run[j], |run[i].delivered|, id);
      }
    }

    /** What safety does not promise: a consumer that found no flag and went on to wait for
        the channel can be left waiting, with a rescan owed and its flag set. */
    lemma OverflowDoesNotWakeReceiver() returns (run: seq<State>)
      ensures IsRun(run)
      ensures var s := run[|run| - 1];
        && s.consumer.Receiving? && s.channel == [] && s.backend == []
        && s.scope == Everything && s.pending
    {
      var s0 := Start();
      var s1 := s0.(consumer := Receiving);
      var s2 := s1.(history := [Overflow], backend := [LoseEverything(0)]);
      var s3 := s2.(scope := Everything, owed := {0}, backend := [RaiseFlagFree]);
      var s4 := s3.(pending := true, backend := []);
      assert Step(s0, s1) by {
        assert ConsumerStep(s0, s1);
      }
      assert Step(s1, s2) by {
        assert PlanAll(Observed(BackendError), 0) == [LoseEverything(0)];
        assert Report(s1, s2, BackendError);
      }
      assert Step(s2, s3) by {
        assert BackendStep(s2, s3);
      }
      assert Step(s3, s4) by {
        assert BackendStep(s3, s4);
      }
      hide Step;
      run := [s0, s1, s2, s3, s4];
    }
  }
}
