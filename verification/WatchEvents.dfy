/** Backend events, and what the watcher makes of them. */
module WatchEvents {
  import opened Basics

  datatype NotifyKind =
    | CreateFolder | CreateOther | Removed
    | RenamedFrom | RenamedTo | RenamedBoth
    | ModifiedMetadata | ModifiedOther | AnyKind
    | Access | OtherKind

  datatype NotifyEvent =
    | NotifyEvent(kind: NotifyKind, paths: seq<Path>, tracker: Option<nat>, needRescan: bool)
    | BackendError

  datatype EventKind = Create | Delete | MovedFrom | MovedTo | Attrib | Modify

  datatype FsEvent = FsEvent(kind: EventKind, path: Path, tracker: Option<nat>)

  function EachPath(kind: EventKind, paths: seq<Path>, tracker: Option<nat>): (events: seq<FsEvent>)
    ensures |events| == |paths|
    ensures forall i :: 0 <= i < |paths| ==> events[i] == FsEvent(kind, paths[i], tracker)
  {
    seq(|paths|, (i: nat) requires i < |paths| => FsEvent(kind, paths[i], tracker))
  }

  /** A rename reported in one becomes two events sharing its tracker. Reads and opens
      change nothing. */
  function Translate(event: NotifyEvent): seq<FsEvent>
    requires event.NotifyEvent?
  {
    match event.kind
    case CreateFolder => EachPath(Create, event.paths, event.tracker)
    case CreateOther => EachPath(Create, event.paths, event.tracker)
    case Removed => EachPath(Delete, event.paths, event.tracker)
    case RenamedFrom => EachPath(MovedFrom, event.paths, event.tracker)
    case RenamedTo => EachPath(MovedTo, event.paths, event.tracker)
    case RenamedBoth =>
      if |event.paths| < 2 then []
      else [FsEvent(MovedFrom, event.paths[0], event.tracker), FsEvent(MovedTo, event.paths[1], event.tracker)]
    case ModifiedMetadata => EachPath(Attrib, event.paths, event.tracker)
    case ModifiedOther => EachPath(Modify, event.paths, event.tracker)
    case AnyKind => EachPath(Modify, event.paths, event.tracker)
    case Access => []
    case OtherKind => []
  }

  /** A rename reported in one event comes to its old path moved from and then its new path
      moved to, under one tracker. */
  lemma RenameInOneRunsForward(event: NotifyEvent)
    requires event.NotifyEvent? && event.kind.RenamedBoth? && |event.paths| >= 2
    ensures var events := Translate(event);
      && |events| == 2
      && events[0].path == event.paths[0] && events[0].kind == MovedFrom
      && events[1].path == event.paths[1] && events[1].kind == MovedTo
      && events[0].tracker == events[1].tracker == event.tracker
  {
  }

  /** Where a report names one path, what the consumer sees of it is of the report's kind. */
  lemma KindsAreKept(event: NotifyEvent, i: nat)
    requires event.NotifyEvent? && i < |Translate(event)|
    ensures var seen := Translate(event)[i];
      && (seen.kind.Create? <==> event.kind.CreateFolder? || event.kind.CreateOther?)
      && (seen.kind.Delete? <==> event.kind.Removed?)
      && (seen.kind.Attrib? <==> event.kind.ModifiedMetadata?)
      && (seen.kind.Modify? <==> event.kind.ModifiedOther? || event.kind.AnyKind?)
      && (seen.kind.MovedFrom? <==> event.kind.RenamedFrom? || (event.kind.RenamedBoth? && i == 0))
      && (seen.kind.MovedTo? <==> event.kind.RenamedTo? || (event.kind.RenamedBoth? && i == 1))
      && seen.tracker == event.tracker
  {
  }

  predicate Names(events: seq<FsEvent>, path: Path) {
    exists i :: 0 <= i < |events| && events[i].path == path
  }

  /** A change loses none of the paths it names, unless it is a rename reported in one
      event with a path missing, which yields nothing, or with paths to spare, of which
      only the first two are kept. */
  lemma TranslateNamesAllIff(event: NotifyEvent)
    requires event.NotifyEvent? && !event.kind.Access? && !event.kind.OtherKind?
    ensures (forall path :: path in event.paths ==> Names(Translate(event), path)) <==>
      (event.kind.RenamedBoth? && event.paths != [] ==>
        |event.paths| >= 2 && forall path :: path in event.paths ==> path == event.paths[0] || path == event.paths[1])
  {
    var events := Translate(event);
    if event.kind.RenamedBoth? {
      if event.paths != [] {
        assert event.paths[0] in event.paths;
      }
      if |event.paths| >= 2 {
        assert events[0].path == event.paths[0] && events[1].path == event.paths[1];
      }
    } else {
      forall path | path in event.paths
        ensures Names(events, path)
      {
        var i :| 0 <= i < |event.paths| && event.paths[i] == path;
        assert events[i].path == path;
      }
    }
  }
}
