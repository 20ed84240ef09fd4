/** The watcher's event stream, collapsed into batches of work. */
module EventQueue {
  import opened Basics
  import opened WatchEvents

  datatype WatchEvent = Fs(event: FsEvent) | Rescan(root: Path)

  datatype Rename = Rename(from: Path, to: Path)

  datatype Batch =
    | Changes(paths: seq<Path>, renames: seq<Rename>, openedAt: nat)
    | RescanBatch(root: Path)
  {
    /** The consumer will examine this path. */
    predicate Covers(path: Path) {
      if Changes? then path in paths else root <= path
    }
  }

  function PathsOf(window: seq<FsEvent>): set<Path> {
    set i | 0 <= i < |window| :: window[i].path
  }

  // ---------------------------------------------------------------------------
  // Which events of a window are halves of one rename
  // ---------------------------------------------------------------------------

  predicate IsHalf(event: FsEvent) {
    event.tracker.Some? && (event.kind.MovedFrom? || event.kind.MovedTo?)
  }

  /** `waiting` has, by cookie, the place of a half still without its partner; a pair has
      the places of the two halves, the old name first. */
  datatype Pairing = Pairing(waiting: map<nat, nat>, pairs: seq<(nat, nat)>)

  /** What one more event does to a pairing. */
  function PairNext(before: Pairing, window: seq<FsEvent>, event: FsEvent): Pairing
    requires forall cookie :: cookie in before.waiting ==> before.waiting[cookie] < |window|
  {
    var n := |window|;
    if !IsHalf(event) then before
    else
      var cookie := event.tracker.value;
      if cookie in before.waiting && window[before.waiting[cookie]].kind != event.kind then
        var i := before.waiting[cookie];
        Pairing(before.waiting - {cookie}, before.pairs + [if event.kind.MovedFrom? then (n, i) else (i, n)])
      else
        Pairing(before.waiting[cookie := n], before.pairs)
  }

  function PairUp(window: seq<FsEvent>): (r: Pairing)
    ensures forall cookie :: cookie in r.waiting ==>
      var i := r.waiting[cookie]; i < |window| && IsHalf(window[i]) && window[i].tracker.value == cookie
  {
    if window == [] then Pairing(map[], [])
    else
      var n := |window| - 1;
      PairNext(PairUp(window[..n]), window[..n], window[n])
  }

  lemma PairUpOneMore(window: seq<FsEvent>, event: FsEvent)
    ensures PairUp(window + [event]) == PairNext(PairUp(window), window, event)
  {
    hide PairNext;
    assert (window + [event])[..|window|] == window;
  }

  /** Two different events of a window are the halves of one rename. */
  predicate AreHalves(window: seq<FsEvent>, pair: (nat, nat)) {
    && pair.0 < |window| && pair.1 < |window|
    && window[pair.0].kind.MovedFrom? && window[pair.1].kind.MovedTo?
    && window[pair.0].tracker.Some? && window[pair.0].tracker == window[pair.1].tracker
  }

  predicate Uses(pair: (nat, nat), i: nat) {
    pair.0 == i || pair.1 == i
  }

  /** Every pair is the two halves of one rename, and no event is in two pairs, nor both
      in one and waiting. */
  ghost predicate PairsAreApart(window: seq<FsEvent>, r: Pairing) {
    && (forall k :: 0 <= k < |r.pairs| ==> AreHalves(window, r.pairs[k]))
    && (forall k, l, i :: 0 <= k < l < |r.pairs| && Uses(r.pairs[k], i) ==> !Uses(r.pairs[l], i))
    && (forall k, cookie :: 0 <= k < |r.pairs| && cookie in r.waiting ==> !Uses(r.pairs[k], r.waiting[cookie]))
  }

  lemma {:induction false} PairUpIsApart(window: seq<FsEvent>)
    ensures PairsAreApart(window, PairUp(window))
  {
    if window != [] {
      var n := |window| - 1;
      PairUpIsApart(window[..n]);
      StillApart(window, n, PairUp(window[..n]));
      if IsHalf(window[n]) {
        PairedApart(window, n, PairUp(window[..n]), window[n].tracker.value);
      }
    }
  }

  lemma StillApart(window: seq<FsEvent>, n: nat, before: Pairing)
    requires |window| == n + 1 && PairsAreApart(window[..n], before)
    ensures PairsAreApart(window, before)
    ensures forall k :: 0 <= k < |before.pairs| ==> !Uses(before.pairs[k], n)
  {
    forall k | 0 <= k < |before.pairs|
      ensures AreHalves(window, before.pairs[k]) && !Uses(before.pairs[k], n)
    {
      assert AreHalves(window[..n], before.pairs[k]);
    }
  }

  /** One more half either waits, or is paired with the one that waited for it. */
  lemma PairedApart(window: seq<FsEvent>, n: nat, before: Pairing, cookie: nat)
    requires |window| == n + 1 && PairsAreApart(window, before)
    requires IsHalf(window[n]) && window[n].tracker.value == cookie
    requires forall k :: 0 <= k < |before.pairs| ==> !Uses(before.pairs[k], n)
    requires forall c :: c in before.waiting ==>
      var i := before.waiting[c]; i < n && IsHalf(window[i]) && window[i].tracker.value == c
    ensures PairsAreApart(window, Pairing(before.waiting[cookie := n], before.pairs))
    ensures cookie in before.waiting && window[before.waiting[cookie]].kind != window[n].kind ==>
      var i := before.waiting[cookie];
      PairsAreApart(window, Pairing(before.waiting - {cookie},
        before.pairs + [if window[n].kind.MovedFrom? then (n, i) else (i, n)]))
  {
  }

  /** A moved-from and a moved-to that share a cookie with nothing else are paired,
      whichever came first. */
  lemma {:induction false} HalvesArePaired(window: seq<FsEvent>, i: nat, j: nat)
    requires AreHalves(window, (i, j))
    requires forall k :: 0 <= k < |window| && IsHalf(window[k]) && window[k].tracker == window[i].tracker ==>
      k == i || k == j
    ensures (i, j) in PairUp(window).pairs
  {
    var n := |window| - 1;
    if i < n && j < n {
      HalvesArePaired(window[..n], i, j);
    } else {
      var other := if i == n then j else i;
      OnlyHalfWaits(window[..n], other);
    }
  }

  lemma {:induction false} OnlyHalfWaits(window: seq<FsEvent>, i: nat)
    requires i < |window| && IsHalf(window[i])
    requires forall k :: 0 <= k < |window| && IsHalf(window[k]) && window[k].tracker == window[i].tracker ==> k == i
    ensures var waiting := PairUp(window).waiting;
      window[i].tracker.value in waiting && waiting[window[i].tracker.value] == i
  {
    var n := |window| - 1;
    if i < n {
      OnlyHalfWaits(window[..n], i);
    } else {
      NoHalfNoneWaits(window[..n], window[i].tracker.value);
    }
  }

  lemma {:induction false} NoHalfNoneWaits(window: seq<FsEvent>, cookie: nat)
    requires forall k :: 0 <= k < |window| && IsHalf(window[k]) ==> window[k].tracker.value != cookie
    ensures cookie !in PairUp(window).waiting
  {
  }

  function RenameOf(window: seq<FsEvent>, pair: (nat, nat)): Rename
    requires pair.0 < |window| && pair.1 < |window|
  {
    Rename(window[pair.0].path, window[pair.1].path)
  }

  ghost predicate AreRenamesOf(renames: seq<Rename>, window: seq<FsEvent>) {
    var pairs := PairUp(window).pairs;
    && |renames| == |pairs|
    && forall k :: 0 <= k < |pairs| ==> AreHalves(window, pairs[k]) && renames[k] == RenameOf(window, pairs[k])
  }

  /** Every rename runs from the path moved from to the path moved to, of one tracker. */
  lemma RenamesRunForward(renames: seq<Rename>, window: seq<FsEvent>, k: nat) returns (from: nat, to: nat)
    requires AreRenamesOf(renames, window) && k < |renames|
    ensures from < |window| && to < |window| && renames[k] == Rename(window[from].path, window[to].path)
    ensures window[from].kind == MovedFrom && window[to].kind == MovedTo
    ensures window[from].tracker == window[to].tracker && window[from].tracker.Some?
  {
    var pair := PairUp(window).pairs[k];
    assert AreHalves(window, pair);
    from, to := pair.0, pair.1;
  }

  /** A rename reported in one event, and no other with its tracker, comes out of the window
      as that rename, from the old path to the new. */
  lemma RenameInOneIsQueued(event: NotifyEvent, before: seq<FsEvent>, renames: seq<Rename>)
    requires event.NotifyEvent? && event.kind.RenamedBoth? && |event.paths| >= 2 && event.tracker.Some?
    requires forall k :: 0 <= k < |before| ==> before[k].tracker != event.tracker
    requires AreRenamesOf(renames, before + Translate(event))
    ensures Rename(event.paths[0], event.paths[1]) in renames
  {
    var window, n := before + Translate(event), |before|;
    RenameInOneRunsForward(event);
    HalvesArePaired(window, n, n + 1);
    var pairs := PairUp(window).pairs;
    var k :| 0 <= k < |pairs| && pairs[k] == (n, n + 1);
    assert renames[k] == RenameOf(window, pairs[k]);
  }

  /** Both ends of every rename are paths of the window. */
  lemma EndsAreListed(renames: seq<Rename>, window: seq<FsEvent>, k: nat)
    requires AreRenamesOf(renames, window) && k < |renames|
    ensures renames[k].from in PathsOf(window) && renames[k].to in PathsOf(window)
  {
  }

  function HalvesOf(window: seq<FsEvent>): map<nat, FsEvent> {
    var waiting := PairUp(window).waiting;
    map cookie | cookie in waiting :: window[waiting[cookie]]
  }

  /** Whether an event is the partner of a half that waits. */
  predicate FindsPartner(halves: map<nat, FsEvent>, event: FsEvent) {
    IsHalf(event) && event.tracker.value in halves && halves[event.tracker.value].kind != event.kind
  }

  /** The window's paths, each once and in no particular order, and its renames. */
  ghost predicate IsChangesOf(batch: Batch, window: seq<FsEvent>) {
    && batch.Changes? && window != []
    && (forall i, j :: 0 <= i < j < |batch.paths| ==> batch.paths[i] != batch.paths[j])
    && (forall path :: path in batch.paths <==> path in PathsOf(window))
    && |batch.paths| == |PathsOf(window)|
    && AreRenamesOf(batch.renames, window)
  }

  predicate AreEvents(taken: seq<WatchEvent>, window: seq<FsEvent>) {
    |taken| == |window| && forall k :: 0 <= k < |taken| ==> taken[k] == Fs(window[k])
  }

  /** What a batch stands for: the events since the last one, and those taken for this
      one, up to the rescan that cut the window short if one did. */
  ghost predicate Answers(batch: Batch, before: seq<FsEvent>, taken: seq<WatchEvent>, window: seq<FsEvent>) {
    && before <= window
    && match batch
       case Changes(_, _, _) => AreEvents(taken, window[|before|..]) && IsChangesOf(batch, window)
       case RescanBatch(root) =>
         && taken != [] && taken[|taken| - 1] == Rescan(root)
         && AreEvents(taken[..|taken| - 1], window[|before|..])
  }

  /** A batch covers every path of its window, except that a rescan, which discards them
      all, covers only those under its root. */
  lemma NothingLostIff(batch: Batch, before: seq<FsEvent>, taken: seq<WatchEvent>, window: seq<FsEvent>)
    requires Answers(batch, before, taken, window)
    ensures (forall path :: path in PathsOf(window) ==> batch.Covers(path)) <==>
      (batch.RescanBatch? ==> forall i :: 0 <= i < |window| ==> batch.root <= window[i].path)
  {
    forall i | 0 <= i < |window|
      ensures window[i].path in PathsOf(window)
    {
    }
  }

  /** One change, and then a rescan of some other directory: whatever batch stands for the
      two is that rescan, and does not cover the change. */
  lemma RescanElsewhereLosesPaths(event: FsEvent, root: Path, batch: Batch, window: seq<FsEvent>)
    requires !(root <= event.path) && Answers(batch, [], [Fs(event), Rescan(root)], window)
    ensures batch == RescanBatch(root) && window == [event]
    ensures event.path in PathsOf(window) && !batch.Covers(event.path)
  {
    var taken := [Fs(event), Rescan(root)];
    assert window[0..] == window && taken[..1] == [Fs(event)];
    assert taken[1] == Rescan(root);
    assert [event][0].path in PathsOf([event]);
  }

  // ---------------------------------------------------------------------------
  // The queue
  // ---------------------------------------------------------------------------

  /** What the watcher will ever report, how much of it has arrived, and how much of that
      has been taken, and when. The clock moves only while something is waited for. */
  class EventStream {
    const events: seq<WatchEvent>
    var arrived: nat
    var taken: nat
    var clock: nat
    ghost var times: seq<nat>

    ghost predicate Valid()
      reads this
    {
      taken == |times| <= arrived <= |events|
    }

    constructor (events: seq<WatchEvent>, arrived: nat, clock: nat)
      requires arrived <= |events|
      ensures Valid() && this.events == events && this.arrived == arrived && taken == 0 && this.clock == clock
    {
      this.events, this.arrived, this.clock, taken, times := events, arrived, clock, 0, [];
    }

    method Wait()
      modifies this`clock
      ensures old(clock) <= clock
    {
      var now: nat :| clock <= now;
      clock := now;
    }

    /** What one more taken event is recorded as. */
    twostate predicate Took(new event: Option<WatchEvent>)
      reads this
    {
      && Valid() && old(clock) <= clock
      && if event.Some? then taken == old(taken) + 1 && times == old(times) + [clock]
         else taken == old(taken) && times == old(times)
    }

    /** Gives the events in order, and none only when there will be no more. */
    method Recv() returns (event: Option<WatchEvent>)
      requires Valid()
      modifies this
      ensures Took(event)
      ensures event == if old(taken) < |events| then Some(events[old(taken)]) else None
    {
      Wait();
      if taken == |events| {
        return None;
      }
      if taken == arrived {
        var until: nat :| taken < until <= |events|;
        arrived := until;
      }
      taken, times := taken + 1, times + [clock];
      return Some(events[taken - 1]);
    }

    /** The next event, if it has arrived. */
    method TryRecv() returns (event: Option<WatchEvent>)
      requires Valid()
      modifies this`taken, this`clock, this`times
      ensures Took(event)
      ensures event == if old(taken) < arrived then Some(events[old(taken)]) else None
    {
      Wait();
      if taken == arrived {
        return None;
      }
      taken, times := taken + 1, times + [clock];
      return Some(events[taken - 1]);
    }
  }

  class EventQueue {
    const stream: EventStream
    const maxPending: nat
    const delay: nat
    var pending: set<Path>
    var halfMoves: map<nat, FsEvent>
    var renames: seq<Rename>
    /** When the first event of the window was merged. */
    var windowOpened: Option<nat>
    /** The events merged since the last batch. */
    ghost var window: seq<FsEvent>

    ghost predicate Valid()
      reads this, stream
    {
      && stream.Valid()
      && pending == PathsOf(window)
      && halfMoves == HalvesOf(window)
      && AreRenamesOf(renames, window)
      && (windowOpened.Some? <==> window != [])
    }

    constructor (stream: EventStream, maxPending: nat, delay: nat)
      requires stream.Valid()
      ensures Valid() && window == [] && this.stream == stream
      ensures this.maxPending == maxPending && this.delay == delay
    {
      this.stream, this.maxPending, this.delay := stream, maxPending, delay;
      pending, halfMoves, renames, windowOpened, window := {}, map[], [], None, [];
    }

    /** Records an event. */
    method Merge(event: FsEvent)
      requires Valid()
      modifies this
      ensures Valid() && window == old(window) + [event] && pending == old(pending) + {event.path}
      ensures windowOpened == if old(window) == [] then Some(stream.clock) else old(windowOpened)
    {
      hide PairUp, HalvesOf, AreRenamesOf, PathsOf;
      MergedPaths(window, event);
      MergedHalves(window, event);
      MergedRenames(window, event, renames);
      KindsAreHalves(window);
      if windowOpened.None? {
        windowOpened := Some(stream.clock);
      }
      pending := pending + {event.path};
      window := window + [event];
      if event.tracker.Some? {
        var cookie := event.tracker.value;
        match event.kind {
          case MovedFrom =>
            if cookie in halfMoves && halfMoves[cookie].kind.MovedTo? {
              renames := renames + [Rename(event.path, halfMoves[cookie].path)];
              halfMoves := halfMoves - {cookie};
            } else {
              halfMoves := halfMoves[cookie := event];
            }
          case MovedTo =>
            if cookie in halfMoves && halfMoves[cookie].kind.MovedFrom? {
              renames := renames + [Rename(halfMoves[cookie].path, event.path)];
              halfMoves := halfMoves - {cookie};
            } else {
              halfMoves := halfMoves[cookie := event];
            }
          case _ =>
        }
      }
    }

    /** The batch is of exactly the window's paths and renames, and a new window
        starts empty. */
    method Flush() returns (changes: Batch)
      requires Valid() && window != []
      modifies this
      ensures Valid() && window == [] && IsChangesOf(changes, old(window))
      ensures changes.Changes? && |changes.paths| == |old(pending)| && old(windowOpened) == Some(changes.openedAt)
    {
      hide AreRenamesOf, PathsOf, HalvesOf;
      NothingMerged();
      var paths: seq<Path> := [];
      var left := pending;
      while left != {}
        invariant left <= pending && |paths| + |left| == |pending|
        invariant forall i, j :: 0 <= i < j < |paths| ==> paths[i] != paths[j]
        invariant forall path :: path in paths <==> path in pending - left
        decreases |left|
      {
        var path :| path in left;
        assert path !in paths;
        left := left - {path};
        paths := paths + [path];
      }
      changes := Changes(paths, renames, windowOpened.value);
      pending, halfMoves, renames, windowOpened, window := {}, map[], [], None, [];
    }

    /** Nothing of the window outlives this; `NothingLostIff` says what that costs. */
    method TakeRescan(root: Path) returns (batch: Batch)
      requires Valid()
      modifies this
      ensures Valid() && window == [] && batch == RescanBatch(root)
    {
      NothingMerged();
      pending, halfMoves, renames, windowOpened, window := {}, map[], [], None, [];
      return RescanBatch(root);
    }

    /** When the first event was taken of a window that may have been open already. */
    twostate function OpenedBy(): Option<nat>
      reads this, stream
    {
      if old(window) != [] then old(windowOpened)
      else if old(stream.taken) < |stream.times| then Some(stream.times[old(stream.taken)])
      else None
    }

    /** Takes in one event: a rescan discards the window and answers for it, and anything
        else joins it. */
    method TakeIn(event: WatchEvent, ghost before: seq<FsEvent>, ghost from: nat)
      returns (rescan: Option<Batch>, ghost answered: seq<FsEvent>)
      requires Valid() && stream.taken > 0 && event == stream.events[stream.taken - 1]
      requires Gathered(stream.events, from, stream.taken - 1, before, window)
      modifies this
      ensures Valid() && rescan.Some? == event.Rescan?
      ensures rescan.Some? ==>
        && rescan.value.RescanBatch? && window == []
        && Answers(rescan.value, before, stream.events[from..stream.taken], answered)
      ensures rescan.None? ==>
        && Gathered(stream.events, from, stream.taken, before, window) && window != []
        && |pending| <= |old(pending)| + 1
        && windowOpened == if old(window) == [] then Some(stream.clock) else old(windowOpened)
    {
      hide AreRenamesOf, PathsOf, HalvesOf, IsChangesOf, AreEvents, Answers;
      answered := window;
      if event.Rescan? {
        RescanAnswers(stream.events, from, stream.taken, before, window, event.root);
        var batch := TakeRescan(event.root);
        return Some(batch), answered;
      }
      OneMoreTaken(stream.events, from, stream.taken - 1, before, window, event.event);
      Merge(event.event);
      return None, answered;
    }

    /** A batch answers for every event since the last one. Unless cut short by a rescan, its
        window is closed by its bound, by the end of the stream, or no sooner than `delay`
        after the first event taken; and it is dated by the first event in it. None is given
        only at the end of the stream, and leaves the window as it was. */
    method NextBatch() returns (batch: Option<Batch>, ghost answered: seq<FsEvent>)
      requires Valid()
      modifies this, stream
      ensures Valid()
      ensures batch.None? ==> stream.taken == old(stream.taken) == |stream.events| && window == old(window)
      ensures old(stream.times) <= stream.times
      ensures batch.Some? ==>
        && old(stream.taken) < stream.taken && window == []
        && Answers(batch.value, old(window), stream.events[old(stream.taken)..stream.taken], answered)
        && (batch.value.Changes? ==>
             && |batch.value.paths| <= Max(|old(pending)| + 1, maxPending)
             && (|| |batch.value.paths| >= maxPending || stream.taken == |stream.events|
                 || stream.times[old(stream.taken)] + delay <= stream.clock)
             && OpenedBy() == Some(batch.value.openedAt))
    {
      hide AreRenamesOf, PathsOf, HalvesOf, IsChangesOf, AreEvents, Answers, Gathered;
      ghost var from, before := stream.taken, window;
      NoneTaken(stream.events, from, before);
      var event := stream.Recv();
      if event.None? {
        return None, window;
      }
      batch, answered := TakeIn(event.value, before, from);
      if batch.Some? {
        return;
      }
      batch, answered := Collect(stream.clock + delay, before, from);
      if batch.Some? {
        return;
      }
      answered := window;
      var changes := Flush();
      ChangesAnswer(changes, before, stream.events, from, stream.taken, answered);
      return Some(changes), answered;
    }

    /** Goes on taking events in until the window closes, or a rescan cuts it short. */
    method Collect(deadline: nat, ghost before: seq<FsEvent>, ghost from: nat)
      returns (rescan: Option<Batch>, ghost answered: seq<FsEvent>)
      requires Valid() && window != [] && Gathered(stream.events, from, stream.taken, before, window)
      modifies this, stream
      ensures Valid() && old(stream.taken) <= stream.taken && old(stream.times) <= stream.times
      ensures rescan.Some? ==>
        && rescan.value.RescanBatch? && window == []
        && Answers(rescan.value, before, stream.events[from..stream.taken], answered)
      ensures rescan.None? ==>
        && Gathered(stream.events, from, stream.taken, before, window) && window != []
        && windowOpened == old(windowOpened) && |pending| <= Max(|old(pending)|, maxPending)
        && (|pending| >= maxPending || stream.taken == |stream.events| || deadline <= stream.clock)
    {
      hide AreRenamesOf, PathsOf, HalvesOf, IsChangesOf, AreEvents, Answers, Gathered;
      while |pending| < maxPending
        invariant Valid() && window != []
        invariant old(stream.taken) <= stream.taken && old(stream.times) <= stream.times
        invariant windowOpened == old(windowOpened) && |pending| <= Max(|old(pending)|, maxPending)
        invariant Gathered(stream.events, from, stream.taken, before, window)
        decreases |stream.events| - stream.taken
      {
        if * {
          stream.Wait();
          if stream.clock >= deadline {
            break;
          }
        }
        var event := stream.Recv();
        if event.None? {
          break;
        }
        rescan, answered := TakeIn(event.value, before, from);
        if rescan.Some? {
          return;
        }
      }
      return None, window;
    }

    /** As `NextBatch`, for the events that have arrived by now. */
    method Drain() returns (batch: Option<Batch>, ghost answered: seq<FsEvent>)
      requires Valid()
      modifies this, stream`taken, stream`clock, stream`times
      ensures Valid() && window == []
      ensures batch.None? ==> old(window) == [] && stream.taken == old(stream.taken)
      ensures stream.taken == stream.arrived || (batch.Some? && batch.value.RescanBatch?)
      ensures old(stream.times) <= stream.times
      ensures batch.Some? ==>
        && old(stream.taken) <= stream.taken
        && (batch.value.Changes? ==> OpenedBy() == Some(batch.value.openedAt))
        && Answers(batch.value, old(window), stream.events[old(stream.taken)..stream.taken], answered)
    {
      hide AreRenamesOf, PathsOf, HalvesOf, IsChangesOf, AreEvents, Answers, Gathered;
      ghost var from, before := stream.taken, window;
      NoneTaken(stream.events, from, before);
      while true
        invariant Valid() && from <= stream.taken
        invariant windowOpened == OpenedBy() && old(stream.times) <= stream.times
        invariant Gathered(stream.events, from, stream.taken, before, window)
        decreases |stream.events| - stream.taken
      {
        var event := stream.TryRecv();
        if event.None? {
          break;
        }
        batch, answered := TakeIn(event.value, before, from);
        if batch.Some? {
          return;
        }
      }
      answered := window;
      SomethingPending(window);
      if pending == {} {
        NoneMerged(stream.events, from, stream.taken, before, window);
        return None, answered;
      }
      var changes := Flush();
      ChangesAnswer(changes, before, stream.events, from, stream.taken, answered);
      return Some(changes), answered;
    }
  }

  /** The window is what it was before, and then the events taken since. */
  ghost predicate Gathered(events: seq<WatchEvent>, from: nat, to: nat, before: seq<FsEvent>, window: seq<FsEvent>) {
    from <= to <= |events| && before <= window && AreEvents(events[from..to], window[|before|..])
  }

  lemma NoneTaken(events: seq<WatchEvent>, from: nat, before: seq<FsEvent>)
    requires from <= |events|
    ensures Gathered(events, from, from, before, before)
  {
  }

  lemma NoneMerged(events: seq<WatchEvent>, from: nat, to: nat, before: seq<FsEvent>, window: seq<FsEvent>)
    requires window == [] && Gathered(events, from, to, before, window)
    ensures before == [] && from == to
  {
  }

  lemma ChangesAnswer(changes: Batch, before: seq<FsEvent>, events: seq<WatchEvent>, from: nat, to: nat,
                      window: seq<FsEvent>)
    requires Gathered(events, from, to, before, window) && IsChangesOf(changes, window)
    ensures Answers(changes, before, events[from..to], window)
  {
  }

  lemma RescanAnswers(events: seq<WatchEvent>, from: nat, to: nat,
                      before: seq<FsEvent>, window: seq<FsEvent>, root: Path)
    requires 0 < to <= |events| && events[to - 1] == Rescan(root)
    requires Gathered(events, from, to - 1, before, window)
    ensures Answers(RescanBatch(root), before, events[from..to], window)
  {
    var taken := events[from..to];
    assert taken[|taken| - 1] == events[to - 1] && taken[..|taken| - 1] == events[from..to - 1];
  }

  lemma OneMoreTaken(events: seq<WatchEvent>, from: nat, to: nat,
                     before: seq<FsEvent>, window: seq<FsEvent>, event: FsEvent)
    requires to < |events| && events[to] == Fs(event) && Gathered(events, from, to, before, window)
    ensures Gathered(events, from, to + 1, before, window + [event])
  {
    assert events[from..to + 1] == events[from..to] + [events[to]];
    assert (window + [event])[|before|..] == window[|before|..] + [event];
  }

  lemma NothingMerged()
    ensures PathsOf([]) == {} && HalvesOf([]) == map[] && AreRenamesOf([], [])
  {
  }

  lemma SomethingPending(window: seq<FsEvent>)
    ensures PathsOf(window) == {} <==> window == []
  {
    if window != [] {
      assert window[0].path in PathsOf(window);
    }
  }

  lemma KindsAreHalves(window: seq<FsEvent>)
    ensures forall cookie :: cookie in HalvesOf(window) ==> IsHalf(HalvesOf(window)[cookie])
  {
    hide PairUp;
  }

  lemma MergedPaths(window: seq<FsEvent>, event: FsEvent)
    ensures PathsOf(window + [event]) == PathsOf(window) + {event.path}
  {
    var more, n := window + [event], |window|;
    assert more[n] == event && forall k :: 0 <= k < n ==> more[k] == window[k];
    forall path | path in PathsOf(window) + {event.path}
      ensures path in PathsOf(more)
    {
      if path != event.path {
        var k :| 0 <= k < n && window[k].path == path;
        assert more[k].path == path;
      } else {
        assert more[n].path == path;
      }
    }
  }

  lemma MergedHalves(window: seq<FsEvent>, event: FsEvent)
    ensures HalvesOf(window + [event]) ==
      if FindsPartner(HalvesOf(window), event) then HalvesOf(window) - {event.tracker.value}
      else if IsHalf(event) then HalvesOf(window)[event.tracker.value := event]
      else HalvesOf(window)
  {
    hide PairUp;
    PairUpOneMore(window, event);
  }

  lemma MergedRenames(window: seq<FsEvent>, event: FsEvent, renames: seq<Rename>)
    requires AreRenamesOf(renames, window)
    ensures !FindsPartner(HalvesOf(window), event) ==> AreRenamesOf(renames, window + [event])
    ensures FindsPartner(HalvesOf(window), event) ==>
      var half := HalvesOf(window)[event.tracker.value];
      var rename := if event.kind.MovedFrom? then Rename(event.path, half.path) else Rename(half.path, event.path);
      AreRenamesOf(renames + [rename], window + [event])
  {
    hide PairUp;
    PairUpOneMore(window, event);
    var pairs := PairUp(window).pairs;
    forall k | 0 <= k < |pairs|
      ensures AreHalves(window + [event], pairs[k]) && renames[k] == RenameOf(window + [event], pairs[k])
    {
      assert AreHalves(window, pairs[k]);
    }
  }
}
