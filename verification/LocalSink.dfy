/** A target directory on this machine, and the operations a plan is carried out with. */
module LocalSink {
  import opened Basics
  import opened Reconcile

  datatype Node =
    | FileNode(content: Bytes, mtime: int, meta: Metadata)
    | DirNode(meta: Metadata)
    | LinkNode(target: Bytes)

  /** A directory on disk, its own root under the empty path. */
  type Tree = map<Path, Node>

  /** The metadata a new file or directory gets by itself. */
  datatype Defaults = Defaults(file: Metadata, dir: Metadata)

  /** Owner execute: permission to look anything up in a directory. */
  predicate MaySearch(mode: Mode) {
    mode & 0x40 == 0x40
  }

  function Parent(path: Path): Path
    requires path != []
  {
    path[..|path| - 1]
  }

  // ---------------------------------------------------------------------------
  // What the filesystem does
  // ---------------------------------------------------------------------------

  datatype Status = Worked | Denied | Absent | Broken

  /** Looking a path up: every directory on the way has to be there and searchable. */
  function Reach(tree: Tree, path: Path): Status
    decreases |path|
  {
    if path == [] then Worked
    else
      var above := Parent(path);
      if Reach(tree, above) != Worked then Reach(tree, above)
      else if above !in tree then Absent
      else if !tree[above].DirNode? then Broken
      else if !MaySearch(tree[above].meta.mode) then Denied
      else Worked
  }

  predicate IsDirAt(tree: Tree, path: Path) {
    Reach(tree, path) == Worked && path in tree && tree[path].DirNode?
  }

  predicate IsLinkAt(tree: Tree, path: Path) {
    path in tree && tree[path].LinkNode?
  }

  /** Whether entries may be made in, and removed from, the directory a path is in. */
  predicate ParentMayWrite(tree: Tree, path: Path)
    requires path != []
  {
    IsDirAt(tree, Parent(path)) && MayWrite(tree[Parent(path)].meta.mode)
  }

  function MakeOneDir(tree: Tree, path: Path, made: Metadata): (Status, Tree)
    requires path != []
  {
    if Reach(tree, path) != Worked then (Reach(tree, path), tree)
    else if path in tree then (Broken, tree)
    else if !ParentMayWrite(tree, path) then (Denied, tree)
    else (Worked, tree[path := DirNode(made)])
  }

  /** As `mkdir -p`: a directory that is there already counts as made. */
  function MakeDirs(tree: Tree, path: Path, made: Metadata): (Status, Tree)
    decreases |path|
  {
    if path == [] then (Worked, tree)
    else
      var first := MakeOneDir(tree, path, made);
      if first.0 == Worked then first
      else if first.0 != Absent then (if IsDirAt(tree, path) then Worked else first.0, tree)
      else
        var above := MakeDirs(tree, Parent(path), made);
        if above.0 != Worked then above
        else
          var again := MakeOneDir(above.1, path, made);
          if again.0 != Worked && IsDirAt(above.1, path) then (Worked, above.1) else again
  }

  predicate HasChildren(tree: Tree, path: Path) {
    exists below :: below in tree && below != [] && Parent(below) == path
  }

  predicate IsFullDir(tree: Tree, path: Path) {
    path in tree && tree[path].DirNode? && HasChildren(tree, path)
  }

  /** An unlink, or an `rmdir` that needs the directory to be empty; a missing path
      is no failure. */
  function Clear(tree: Tree, path: Path): (Status, Tree)
    requires path != []
  {
    var reach := Reach(tree, path);
    if reach == Absent || (reach == Worked && path !in tree) then (Worked, tree)
    else if reach != Worked then (reach, tree)
    else if !ParentMayWrite(tree, path) then (Denied, tree)
    else if IsFullDir(tree, path) then (Broken, tree)
    else (Worked, tree - {path})
  }

  /** A fresh file in the destination's directory, stamped with the source's time, then
      renamed over whatever the destination is. */
  function Publish(tree: Tree, path: Path, file: Node): (Status, Tree)
    requires path != []
  {
    if Reach(tree, path) != Worked then (Reach(tree, path), tree)
    else if !ParentMayWrite(tree, path) then (Denied, tree)
    else if path in tree && tree[path].DirNode? then (Broken, tree)
    else (Worked, tree[path := file])
  }

  function MakeLink(tree: Tree, path: Path, target: Bytes): (Status, Tree)
    requires path != []
  {
    if Reach(tree, path) != Worked then (Reach(tree, path), tree)
    else if path in tree then (Broken, tree)
    else if !ParentMayWrite(tree, path) then (Denied, tree)
    else (Worked, tree[path := LinkNode(target)])
  }

  /** Clearing, then linking, as linking alone needs the path to be free. */
  function ReplaceLink(tree: Tree, path: Path, target: Bytes): (Status, Tree)
    requires path != []
  {
    var cleared := Clear(tree, path);
    if cleared.0 != Worked then cleared else MakeLink(cleared.1, path, target)
  }

  function Stamp(current: Metadata, wanted: Metadata, preserve: Preserve): Metadata {
    Metadata(if preserve.mode then wanted.mode else current.mode,
             if preserve.ownership then wanted.uid else current.uid,
             if preserve.ownership then wanted.gid else current.gid)
  }

  function Stamped(node: Node, wanted: Metadata, preserve: Preserve): Node {
    if node.LinkNode? then node else node.(meta := Stamp(node.meta, wanted, preserve))
  }

  function WithMode(tree: Tree, directory: Path, mode: Mode): Tree {
    if directory in tree && tree[directory].DirNode? then
      tree[directory := DirNode(tree[directory].meta.(mode := mode))]
    else tree
  }

  // ---------------------------------------------------------------------------
  // What an operation leaves alone
  // ---------------------------------------------------------------------------

  /** Only the node at `path` may have changed; beyond it there are at most new
      directories above it. */
  ghost predicate OnlyAt(before: Tree, after: Tree, path: Path, made: Metadata) {
    && (forall p :: p in before && p != path ==> p in after && after[p] == before[p])
    && (forall p :: p in after && p !in before && p != path ==> p <= path && after[p] == DirNode(made))
  }

  lemma {:induction false} MakeDirsOnlyAdds(tree: Tree, path: Path, made: Metadata)
    ensures var after := MakeDirs(tree, path, made).1;
      && (forall p :: p in tree ==> p in after && after[p] == tree[p])
      && (forall p :: p in after && p !in tree ==> p <= path && after[p] == DirNode(made))
    decreases |path|
  {
    if path != [] {
      MakeDirsOnlyAdds(tree, Parent(path), made);
    }
  }

  lemma OnlyAtAgain(before: Tree, between: Tree, after: Tree, path: Path, made: Metadata)
    requires OnlyAt(before, between, path, made) && OnlyAt(between, after, path, made)
    ensures OnlyAt(before, after, path, made)
  {
  }

  lemma RestoredOnlyAt(before: Tree, after: Tree, path: Path, made: Metadata, mode: Mode)
    requires path != [] && IsDirAt(before, Parent(path))
    requires OnlyAt(WithMode(before, Parent(path), mode), after, path, made)
    ensures OnlyAt(before, WithMode(after, Parent(path), before[Parent(path)].meta.mode), path, made)
  {
    hide Reach;
  }

  // ---------------------------------------------------------------------------
  // What an operation does where its directory is there
  // ---------------------------------------------------------------------------

  /** A lookup does not depend on what is not on the way. */
  lemma {:induction false} ReachElsewhere(tree: Tree, after: Tree, changed: Path, path: Path)
    requires forall p :: p != changed ==> (p in tree <==> p in after) && (p in tree ==> tree[p] == after[p])
    requires !(changed <= path) || changed == path
    ensures Reach(tree, path) == Reach(after, path)
    decreases |path|
  {
    if path != [] {
      ReachElsewhere(tree, after, changed, Parent(path));
    }
  }

  lemma {:induction false} DirsAllTheWay(tree: Tree, path: Path, k: nat)
    requires IsDirAt(tree, path) && k <= |path|
    ensures path[..k] in tree && tree[path[..k]].DirNode?
    decreases |path|
  {
    if k == |path| {
      assert path[..k] == path;
    } else {
      assert path[..k] == Parent(path)[..k];
      DirsAllTheWay(tree, Parent(path), k);
    }
  }

  lemma WideIsSearchable(mode: Mode)
    ensures MayWrite(mode) ==> MaySearch(mode)
    ensures MayWrite(mode | OWNER_MAY_WRITE)
  {
  }

  /** In a widened directory nothing is denied. */
  lemma WidenedReaches(tree: Tree, path: Path, mode: Mode)
    requires path != [] && IsDirAt(tree, Parent(path)) && MayWrite(mode)
    ensures var wide := WithMode(tree, Parent(path), mode);
      && Reach(wide, path) == Worked && ParentMayWrite(wide, path)
      && (path in wide <==> path in tree) && (path in tree ==> wide[path] == tree[path])
      && (HasChildren(wide, path) <==> HasChildren(tree, path))
  {
    ReachElsewhere(tree, WithMode(tree, Parent(path), mode), Parent(path), Parent(path));
    WideIsSearchable(mode);
  }

  /** A lookup in a directory that is there works, or is denied. */
  lemma ReachesOrDenied(tree: Tree, path: Path)
    requires path != [] && IsDirAt(tree, Parent(path))
    ensures Reach(tree, path) == if MaySearch(tree[Parent(path)].meta.mode) then Worked else Denied
    ensures Reach(tree, path) == Denied ==> !MayWrite(tree[Parent(path)].meta.mode)
  {
    WideIsSearchable(tree[Parent(path)].meta.mode);
  }

  // ---------------------------------------------------------------------------
  // The four operations that need a writable directory
  // ---------------------------------------------------------------------------

  datatype Operation = MakingDirs(made: Metadata) | Publishing(file: Node) | Linking(target: Bytes) | Clearing

  function Attempt(op: Operation, tree: Tree, path: Path): (Status, Tree)
    requires path != []
  {
    match op
    case MakingDirs(made) => MakeDirs(tree, path, made)
    case Publishing(file) => Publish(tree, path, file)
    case Linking(target) => ReplaceLink(tree, path, target)
    case Clearing => Clear(tree, path)
  }

  /** Whether what is at a path now lets the operation through. */
  predicate Fits(op: Operation, tree: Tree, path: Path) {
    match op
    case MakingDirs(_) => path in tree ==> tree[path].DirNode?
    case Publishing(_) => path in tree ==> !tree[path].DirNode?
    case Linking(_) => !IsFullDir(tree, path)
    case Clearing => !IsFullDir(tree, path)
  }

  /** What the operation is for. */
  function Done(op: Operation, tree: Tree, path: Path): Tree {
    match op
    case MakingDirs(made) => if path in tree then tree else tree[path := DirNode(made)]
    case Publishing(file) => tree[path := file]
    case Linking(target) => tree[path := LinkNode(target)]
    case Clearing => tree - {path}
  }

  lemma AttemptOnlyAt(op: Operation, tree: Tree, path: Path, made: Metadata)
    requires path != [] && (op.MakingDirs? ==> op.made == made)
    ensures OnlyAt(tree, Attempt(op, tree, path).1, path, made)
  {
    hide Reach, HasChildren;
    if op.MakingDirs? {
      MakeDirsOnlyAdds(tree, path, made);
    }
  }

  /** In a directory that is there, an attempt succeeds or fails cleanly, unless the
      directory's mode is what stopped it. */
  lemma AttemptInPlace(op: Operation, tree: Tree, path: Path)
    requires path != [] && IsDirAt(tree, Parent(path))
    ensures var attempt := Attempt(op, tree, path);
      if attempt.0 == Denied then
        attempt.1 == tree && !MayWrite(tree[Parent(path)].meta.mode)
      else
        && (attempt.0 == Worked <==> Fits(op, tree, path))
        && attempt.1 == if Fits(op, tree, path) then Done(op, tree, path) else tree
  {
    hide HasChildren;
    ReachesOrDenied(tree, path);
    if op.Clearing? || op.Linking? {
      assert path !in tree ==> tree - {path} == tree;
    }
    if op.Linking? {
      ReachElsewhere(tree, tree - {path}, path, path);
      ReachElsewhere(tree, tree - {path}, path, Parent(path));
      assert (tree - {path})[path := LinkNode(op.target)] == tree[path := LinkNode(op.target)];
    }
  }

  /** Doing an operation again is safe: what it leaves lets it through, and is left as
      it is. */
  lemma OperationsAreIdempotent(op: Operation, tree: Tree, path: Path)
    requires path != [] && IsDirAt(tree, Parent(path)) && Fits(op, tree, path)
    requires op.Publishing? ==> op.file.FileNode?
    ensures var done := Done(op, tree, path);
      IsDirAt(done, Parent(path)) && Fits(op, done, path) && Done(op, done, path) == done
  {
    hide HasChildren, Reach;
    var done := Done(op, tree, path);
    ReachElsewhere(tree, done, path, Parent(path));
    match op {
      case MakingDirs(_) => assert Done(op, done, path) == done;
      case Publishing(file) => assert done[path := file] == done;
      case Linking(target) => assert done[path := LinkNode(target)] == done;
      case Clearing => assert done - {path} == done;
    }
  }

  /** An operation fits a widened directory when it fits the original, and what it
      leaves differs from that by the mode alone. */
  lemma WideningIsUndone(op: Operation, tree: Tree, path: Path, mode: Mode)
    requires path != [] && IsDirAt(tree, Parent(path)) && MayWrite(mode)
    ensures var wide := WithMode(tree, Parent(path), mode);
      var original := tree[Parent(path)].meta.mode;
      && IsDirAt(wide, Parent(path)) && MayWrite(wide[Parent(path)].meta.mode)
      && (Fits(op, wide, path) <==> Fits(op, tree, path))
      && WithMode(wide, Parent(path), original) == tree
      && WithMode(Done(op, wide, path), Parent(path), original) == Done(op, tree, path)
  {
    hide HasChildren;
    WidenedReaches(tree, path, mode);
  }

  /** A second attempt, in a widened directory, settles the matter. */
  lemma RetrySettles(op: Operation, tree: Tree, path: Path, made: Metadata)
    requires path != [] && IsDirAt(tree, Parent(path)) && (op.MakingDirs? ==> op.made == made)
    ensures var mode := tree[Parent(path)].meta.mode;
      var (again, redone) := Attempt(op, WithMode(tree, Parent(path), mode | OWNER_MAY_WRITE), path);
      var restored := WithMode(redone, Parent(path), mode);
      && OnlyAt(tree, restored, path, made)
      && (again == Worked <==> Fits(op, tree, path))
      && restored == if Fits(op, tree, path) then Done(op, tree, path) else tree
  {
    hide Attempt, Fits, Done, WithMode, OnlyAt, Reach, MayWrite;
    var mode := tree[Parent(path)].meta.mode;
    var wide := WithMode(tree, Parent(path), mode | OWNER_MAY_WRITE);
    WideIsSearchable(mode);
    WideningIsUndone(op, tree, path, mode | OWNER_MAY_WRITE);
    AttemptInPlace(op, wide, path);
    AttemptOnlyAt(op, wide, path, made);
    RestoredOnlyAt(tree, Attempt(op, wide, path).1, path, made, mode | OWNER_MAY_WRITE);
  }

  /** Whether an operation goes through in the end, and what it leaves: an attempt denied by
      the directory's mode comes down to what is in the way. */
  function Settles(op: Operation, tree: Tree, path: Path): (bool, Tree)
    requires path != []
  {
    var (status, done) := Attempt(op, tree, path);
    if status == Worked then (true, done)
    else if status == Denied && IsDirAt(done, Parent(path)) && !MayWrite(done[Parent(path)].meta.mode) then
      if Fits(op, done, path) then (true, Done(op, done, path)) else (false, done)
    else (false, done)
  }

  lemma SettlesBy(op: Operation, tree: Tree, path: Path)
    requires path != []
    ensures var (status, done) := Attempt(op, tree, path);
      var (passes, left) := Settles(op, tree, path);
      if status == Denied && IsDirAt(done, Parent(path)) && !MayWrite(done[Parent(path)].meta.mode) then
        passes == Fits(op, done, path) && left == if passes then Done(op, done, path) else done
      else passes == (status == Worked) && left == done
  {
    hide Attempt, Fits, Done, IsDirAt, MayWrite;
  }

  lemma SettlesInPlace(op: Operation, tree: Tree, path: Path)
    requires path != [] && IsDirAt(tree, Parent(path))
    ensures var (passes, left) := Settles(op, tree, path);
      passes == Fits(op, tree, path) && left == if passes then Done(op, tree, path) else tree
  {
    hide Attempt, Fits, Done, Reach, MayWrite;
    AttemptInPlace(op, tree, path);
  }

  lemma SettlesOnlyAt(op: Operation, tree: Tree, path: Path, made: Metadata)
    requires path != [] && (op.MakingDirs? ==> op.made == made)
    ensures OnlyAt(tree, Settles(op, tree, path).1, path, made)
  {
    hide Attempt, Fits, Reach, MayWrite, HasChildren;
    AttemptOnlyAt(op, tree, path, made);
    var done := Attempt(op, tree, path).1;
    DoneOnlyAt(op, done, path, made);
    OnlyAtAgain(tree, done, Done(op, done, path), path, made);
  }

  lemma DoneOnlyAt(op: Operation, tree: Tree, path: Path, made: Metadata)
    requires op.MakingDirs? ==> op.made == made
    ensures OnlyAt(tree, Done(op, tree, path), path, made)
  {
  }

  // ---------------------------------------------------------------------------
  // Missing parents
  // ---------------------------------------------------------------------------

  /** Whether a directory is there, or can be made along with its missing parents: the
      last one that is there can be written, and so can a new one if another is to go
      in it. */
  predicate CanMakeDirs(tree: Tree, path: Path, made: Metadata)
    decreases |path|
  {
    || IsDirAt(tree, path)
    || (path != [] && path !in tree && CanMakeDirs(tree, Parent(path), made)
        && MayWrite(if IsDirAt(tree, Parent(path)) then tree[Parent(path)].meta.mode else made.mode))
  }

  /** The tree with a directory there, and its parents. */
  function WithDirs(tree: Tree, path: Path, made: Metadata): Tree
    decreases |path|
  {
    if path == [] || IsDirAt(tree, path) then tree
    else WithDirs(tree, Parent(path), made)[path := DirNode(made)]
  }

  lemma {:induction false} WithDirsAdds(tree: Tree, path: Path, made: Metadata)
    ensures forall p :: p in tree && !(p <= path) ==> p in WithDirs(tree, path, made)
    ensures forall p :: p in WithDirs(tree, path, made) && p !in tree ==> p <= path
    decreases |path|
  {
    if path != [] && !IsDirAt(tree, path) {
      WithDirsAdds(tree, Parent(path), made);
    }
  }

  lemma {:induction false} ReachesWhatCanBeMade(tree: Tree, path: Path, made: Metadata)
    requires CanMakeDirs(tree, path, made)
    ensures Reach(tree, path) == Worked || (Reach(tree, path) == Absent && path !in tree)
    decreases |path|
  {
    if !IsDirAt(tree, path) {
      ReachesWhatCanBeMade(tree, Parent(path), made);
      if IsDirAt(tree, Parent(path)) {
        WideIsSearchable(tree[Parent(path)].meta.mode);
      }
    }
  }

  /** Such a directory is made, with exactly the parents that were missing. */
  lemma {:induction false} MakeDirsMakes(tree: Tree, path: Path, made: Metadata)
    requires CanMakeDirs(tree, path, made)
    ensures MakeDirs(tree, path, made) == (Worked, WithDirs(tree, path, made))
    ensures IsDirAt(WithDirs(tree, path, made), path)
    decreases |path|
  {
    if path != [] && !IsDirAt(tree, path) {
      var above := Parent(path);
      var higher := WithDirs(tree, above, made);
      MakeDirsMakes(tree, above, made);
      ReachesWhatCanBeMade(tree, above, made);
      WithDirsAdds(tree, above, made);
      if IsDirAt(tree, above) {
        WideIsSearchable(tree[above].meta.mode);
      } else {
        WideIsSearchable(made.mode);
        assert higher[above] == DirNode(made);
      }
      ReachElsewhere(higher, higher[path := DirNode(made)], path, path);
    }
  }

  /** On a disk, whatever is there is in a directory. */
  ghost predicate Rooted(tree: Tree) {
    && [] in tree && tree[[]].DirNode?
    && forall path :: path in tree && path != [] ==> Parent(path) in tree && tree[Parent(path)].DirNode?
  }

  lemma {:induction false} WhereMade(tree: Tree, path: Path, made: Metadata)
    requires path != [] && MakeDirs(tree, path, made).0 == Worked
    ensures IsDirAt(MakeDirs(tree, path, made).1, path)
    decreases |path|
  {
    var first := MakeOneDir(tree, path, made);
    if first.0 == Worked {
      ReachElsewhere(tree, first.1, path, path);
    } else if first.0 == Absent {
      var above := MakeDirs(tree, Parent(path), made);
      var again := MakeOneDir(above.1, path, made);
      if again.0 == Worked {
        ReachElsewhere(above.1, again.1, path, path);
      }
    }
  }

  /** On a disk, that is the only way a directory can be made. */
  lemma {:induction false} MakeDirsNeeds(tree: Tree, path: Path, made: Metadata)
    requires Rooted(tree)
    ensures MakeDirs(tree, path, made).0 == Worked <==> CanMakeDirs(tree, path, made)
    decreases |path|
  {
    if CanMakeDirs(tree, path, made) {
      MakeDirsMakes(tree, path, made);
    }
    if path != [] && MakeDirs(tree, path, made).0 == Worked && MakeOneDir(tree, path, made).0 == Absent {
      MakeDirsNeeds(tree, Parent(path), made);
      MakeDirsMakes(tree, Parent(path), made);
      NothingBelowAbsent(tree, path);
      MakeDirsOnlyAdds(tree, Parent(path), made);
    }
  }

  lemma {:induction false} NothingBelowAbsent(tree: Tree, path: Path)
    requires Rooted(tree) && Reach(tree, path) == Absent
    ensures path !in tree && path != [] && !IsDirAt(tree, Parent(path))
    decreases |path|
  {
    if Reach(tree, Parent(path)) != Worked {
      NothingBelowAbsent(tree, Parent(path));
    }
  }

  /** Where a directory can be made, nothing above it is a link. */
  lemma {:induction false} NoLinkAbove(tree: Tree, path: Path, made: Metadata, k: nat)
    requires CanMakeDirs(tree, path, made) && k <= |path|
    ensures !IsLinkAt(tree, path[..k])
    decreases |path|
  {
    if k == |path| {
      assert path[..k] == path;
    } else if IsDirAt(tree, path) {
      DirsAllTheWay(tree, path, k);
    } else {
      assert path[..k] == Parent(path)[..k];
      NoLinkAbove(tree, Parent(path), made, k);
    }
  }

  /** Whether a path gets past the check made before every operation: it is not empty, and
      no link is found above it. A link that cannot be looked up is not found. */
  predicate Resolves(tree: Tree, path: Path) {
    path != [] && forall k :: 0 < k < |path| ==> !(Reach(tree, path[..k]) == Worked && IsLinkAt(tree, path[..k]))
  }

  /** Whether the directory a path is in is there, or can be made. */
  predicate HasParents(tree: Tree, path: Path, made: Metadata)
    requires path != []
  {
    && MakeDirs(tree, Parent(path), made).0 == Worked
    && IsDirAt(MakeDirs(tree, Parent(path), made).1, Parent(path))
  }

  /** On a disk it is exactly where the last parent that is there can be written, or is the
      directory itself: not where that is a file, nor where it denies it. */
  lemma HasParentsIff(tree: Tree, path: Path, made: Metadata)
    requires Rooted(tree) && path != []
    ensures HasParents(tree, path, made) <==> CanMakeDirs(tree, Parent(path), made)
    ensures HasParents(tree, path, made) ==>
      Resolves(tree, path) && MakeDirs(tree, Parent(path), made).1 == WithDirs(tree, Parent(path), made)
  {
    hide MakeDirs, CanMakeDirs, WithDirs, Reach, Resolves;
    MakeDirsNeeds(tree, Parent(path), made);
    if CanMakeDirs(tree, Parent(path), made) {
      MakeDirsMakes(tree, Parent(path), made);
      ResolvesWhereItCanBeMade(tree, path, made);
    }
  }

  /** Nothing is put below a file. */
  lemma NothingBelowAFile(tree: Tree, path: Path, k: nat, made: Metadata)
    requires Rooted(tree) && 0 < k < |path| && path[..k] in tree && !tree[path[..k]].DirNode?
    ensures !HasParents(tree, path, made)
  {
    hide MakeDirs, Reach, Resolves;
    HasParentsIff(tree, path, made);
    assert Parent(path)[..k] == path[..k];
    NothingMadeBelow(tree, Parent(path), k, made);
  }

  lemma {:induction false} NothingMadeBelow(tree: Tree, path: Path, k: nat, made: Metadata)
    requires k <= |path| && path[..k] in tree && !tree[path[..k]].DirNode?
    ensures !CanMakeDirs(tree, path, made)
    decreases |path|
  {
    if IsDirAt(tree, path) {
      DirsAllTheWay(tree, path, k);
    }
    if k < |path| {
      assert Parent(path)[..k] == path[..k];
      NothingMadeBelow(tree, Parent(path), k, made);
    } else {
      assert path[..k] == path;
    }
  }

  lemma NowhereToPut(op: Operation, tree: Tree, path: Path)
    requires path != [] && (op.Publishing? || op.Linking?) && !IsDirAt(tree, Parent(path))
    ensures Settles(op, tree, path) == (false, tree)
  {
    hide HasChildren;
  }

  lemma ResolvesWhereItCanBeMade(tree: Tree, path: Path, made: Metadata)
    requires path != [] && CanMakeDirs(tree, Parent(path), made)
    ensures Resolves(tree, path)
  {
    forall k | 0 < k < |path|
      ensures !IsLinkAt(tree, path[..k])
    {
      assert path[..k] == Parent(path)[..k];
      NoLinkAbove(tree, Parent(path), made, k);
    }
  }

  class LocalSink {
    var tree: Tree
    const defaults: Defaults

    constructor (tree: Tree, defaults: Defaults)
      ensures this.tree == tree && this.defaults == defaults
    {
      this.tree, this.defaults := tree, defaults;
    }

    /** Looks for a link at each directory above the path in turn. */
    method Resolve(path: Path) returns (outcome: Outcome)
      ensures outcome.Pass? <==> Resolves(tree, path)
    {
      hide Reach;
      if path == [] {
        return Fail;
      }
      for k := 1 to |path|
        invariant forall j :: 0 < j < k ==> !(Reach(tree, path[..j]) == Worked && IsLinkAt(tree, path[..j]))
      {
        if Reach(tree, path[..k]) == Worked && IsLinkAt(tree, path[..k]) {
          return Fail;
        }
      }
      return Pass;
    }

    /** Afterwards the owner may write and search the directory. A mode is returned
        exactly when that took a change. */
    method RelaxDir(directory: Path) returns (original: Option<Mode>)
      modifies this
      ensures original.Some? <==> IsDirAt(old(tree), directory) && !MayWrite(old(tree)[directory].meta.mode)
      ensures original.None? ==> tree == old(tree)
      ensures original.Some? ==>
        && original.value == old(tree)[directory].meta.mode
        && tree == WithMode(old(tree), directory, original.value | OWNER_MAY_WRITE)
    {
      if !IsDirAt(tree, directory) || MayWrite(tree[directory].meta.mode) {
        return None;
      }
      var mode := tree[directory].meta.mode;
      tree := WithMode(tree, directory, mode | OWNER_MAY_WRITE);
      return Some(mode);
    }

    method RestoreMode(directory: Path, mode: Mode)
      modifies this
      ensures tree == WithMode(old(tree), directory, mode)
    {
      tree := WithMode(tree, directory, mode);
    }

    /** Settles an operation in at most two attempts: in a directory that is there it
        fails only for what is in its way, never for the directory's mode, which is
        the same afterwards. */
    method Perform(op: Operation, path: Path) returns (outcome: Outcome)
      requires path != [] && (op.MakingDirs? ==> op.made == defaults.dir)
      modifies this
      ensures OnlyAt(old(tree), tree, path, defaults.dir)
      ensures IsDirAt(old(tree), Parent(path)) ==>
        && (outcome.Pass? <==> Fits(op, old(tree), path))
        && tree == if outcome.Pass? then Done(op, old(tree), path) else old(tree)
      ensures outcome.Pass? == Settles(op, old(tree), path).0 && tree == Settles(op, old(tree), path).1
    {
      hide Attempt, Fits, Done, WithMode, OnlyAt, IsDirAt, Reach, MayWrite, Settles;
      SettlesOnlyAt(op, tree, path, defaults.dir);
      if IsDirAt(tree, Parent(path)) {
        SettlesInPlace(op, tree, path);
      }
      SettlesBy(op, tree, path);
      var (status, done) := Attempt(op, tree, path);
      tree := done;
      if status != Denied {
        return if status == Worked then Pass else Fail;
      }
      outcome := TryWidened(op, path);
    }

    /** After a denial: once more in a widened directory, if it is the mode that denied it. */
    method TryWidened(op: Operation, path: Path) returns (outcome: Outcome)
      requires path != [] && (op.MakingDirs? ==> op.made == defaults.dir)
      modifies this
      ensures if IsDirAt(old(tree), Parent(path)) && !MayWrite(old(tree)[Parent(path)].meta.mode) then
          && outcome.Pass? == Fits(op, old(tree), path)
          && tree == if outcome.Pass? then Done(op, old(tree), path) else old(tree)
        else outcome.Fail? && tree == old(tree)
    {
      hide Attempt, Fits, Done, WithMode, OnlyAt, IsDirAt, Reach, MayWrite;
      var original := RelaxDir(Parent(path));
      if original.None? {
        return Fail;
      }
      RetrySettles(op, old(tree), path, defaults.dir);
      var (again, redone) := Attempt(op, tree, path);
      tree := redone;
      RestoreMode(Parent(path), original.value);
      return if again == Worked then Pass else Fail;
    }

    /** Fails on a directory that still holds something, and otherwise leaves nothing at the
        path; a path whose directory is not there has nothing to remove. */
    method Remove(path: Path) returns (outcome: Outcome)
      modifies this
      ensures OnlyAt(old(tree), tree, path, defaults.dir)
      ensures !Resolves(old(tree), path) ==> outcome.Fail? && tree == old(tree)
      ensures path != [] && IsDirAt(old(tree), Parent(path)) ==>
        && (outcome.Pass? <==> !IsFullDir(old(tree), path))
        && tree == if outcome.Pass? then old(tree) - {path} else old(tree)
      ensures Resolves(old(tree), path) && !IsDirAt(old(tree), Parent(path)) ==>
        (outcome.Pass? <==> Reach(old(tree), path) == Absent) && tree == old(tree)
    {
      hide Attempt, OnlyAt, Reach, CanMakeDirs, Resolves;
      NothingIsOnlyAt(tree, path, defaults.dir);
      outcome := Resolve(path);
      if path != [] && IsDirAt(tree, Parent(path)) {
        InPlaceCanBeMade(tree, path, defaults.dir);
      }
      if outcome.Pass? {
        ResolvedIsNotEmpty(tree, path);
        if !IsDirAt(tree, Parent(path)) {
          ClearNowhere(tree, path);
        }
        outcome := Perform(Clearing, path);
      }
    }

    /** Makes the directory and its missing parents. One that is there will do, but not a
        link in its place. */
    method CreateDir(path: Path) returns (outcome: Outcome)
      modifies this
      ensures OnlyAt(old(tree), tree, path, defaults.dir)
      ensures !Resolves(old(tree), path) ==> outcome.Fail? && tree == old(tree)
      ensures path != [] && IsDirAt(old(tree), Parent(path)) ==>
        && (outcome.Pass? <==> (path in old(tree) ==> old(tree)[path].DirNode?))
        && tree == if path in old(tree) then old(tree) else old(tree)[path := DirNode(defaults.dir)]
      ensures path != [] && CanMakeDirs(old(tree), path, defaults.dir) ==>
        outcome.Pass? && tree == WithDirs(old(tree), path, defaults.dir)
      ensures Resolves(old(tree), path) ==>
        if Reach(old(tree), path) == Worked && IsLinkAt(old(tree), path) then outcome.Fail? && tree == old(tree)
        else
          var (passes, left) := Settles(MakingDirs(defaults.dir), old(tree), path);
          outcome.Pass? == passes && tree == left
    {
      hide OnlyAt, Reach, CanMakeDirs, Resolves, MakeDirs, WithDirs;
      NothingIsOnlyAt(tree, path, defaults.dir);
      outcome := Resolve(path);
      if path != [] && IsDirAt(tree, Parent(path)) {
        InPlaceCanBeMade(tree, path, defaults.dir);
      }
      if path != [] && CanMakeDirs(tree, path, defaults.dir) {
        MadeResolves(tree, path, defaults.dir);
        MakeDirsMakes(tree, path, defaults.dir);
        assert Attempt(MakingDirs(defaults.dir), tree, path) == MakeDirs(tree, path, defaults.dir);
      }
      if outcome.Pass? {
        ResolvedIsNotEmpty(tree, path);
        if Reach(tree, path) == Worked && IsLinkAt(tree, path) {
          return Fail;
        }
        outcome := Perform(MakingDirs(defaults.dir), path);
      }
    }

    /** The parents are made if they are missing; what is at the path is replaced in one
        step, unless it is a directory. */
    method WriteFile(content: Bytes, mtime: int, path: Path) returns (outcome: Outcome)
      modifies this
      ensures OnlyAt(old(tree), tree, path, defaults.dir)
      ensures !Resolves(old(tree), path) ==> outcome.Fail? && tree == old(tree)
      ensures Resolves(old(tree), path) ==>
        var base := MakeDirs(old(tree), Parent(path), defaults.dir).1;
        && (outcome.Pass? <==> HasParents(old(tree), path, defaults.dir) && (path in base ==> !base[path].DirNode?))
        && tree == if outcome.Pass? then base[path := FileNode(content, mtime, defaults.file)] else base
    {
      outcome := MakeParentAnd(Publishing(FileNode(content, mtime, defaults.file)), path);
    }

    /** The parents are made if they are missing; what is at the path is cleared first, a
        directory only if it is empty. */
    method CreateSymlink(path: Path, target: Bytes) returns (outcome: Outcome)
      modifies this
      ensures OnlyAt(old(tree), tree, path, defaults.dir)
      ensures !Resolves(old(tree), path) ==> outcome.Fail? && tree == old(tree)
      ensures Resolves(old(tree), path) ==>
        var base := MakeDirs(old(tree), Parent(path), defaults.dir).1;
        && (outcome.Pass? <==> HasParents(old(tree), path, defaults.dir) && !IsFullDir(base, path))
        && tree == if outcome.Pass? then base[path := LinkNode(target)] else base
    {
      outcome := MakeParentAnd(Linking(target), path);
    }

    /** Without its parents, made or there before, nothing goes through; with them, what is
        in the way decides. */
    method MakeParentAnd(op: Operation, path: Path) returns (outcome: Outcome)
      requires op.Publishing? || op.Linking?
      modifies this
      ensures OnlyAt(old(tree), tree, path, defaults.dir)
      ensures !Resolves(old(tree), path) ==> outcome.Fail? && tree == old(tree)
      ensures Resolves(old(tree), path) ==>
        var base := MakeDirs(old(tree), Parent(path), defaults.dir).1;
        && (outcome.Pass? <==> HasParents(old(tree), path, defaults.dir) && Fits(op, base, path))
        && tree == if outcome.Pass? then Done(op, base, path) else base
    {
      hide Attempt, OnlyAt, Fits, Done, Reach, Resolves, MakeDirs;
      NothingIsOnlyAt(tree, path, defaults.dir);
      outcome := Resolve(path);
      if outcome.Fail? {
        return;
      }
      ResolvedIsNotEmpty(tree, path);
      ParentIsMade(tree, path, defaults.dir);
      var (status, made) := MakeDirs(tree, Parent(path), defaults.dir);
      tree := made;
      if status != Worked {
        return Fail;
      }
      if !IsDirAt(tree, Parent(path)) {
        NowhereToPut(op, tree, path);
      }
      outcome := Perform(op, path);
      OnlyAtAgain(old(tree), made, tree, path, defaults.dir);
    }

    /** Sets what is mirrored of a path's metadata. Refuses a link, since setting it
        would change what the link points at. */
    method SetMetadata(path: Path, wanted: Metadata, preserve: Preserve) returns (outcome: Outcome)
      modifies this
      ensures OnlyAt(old(tree), tree, path, defaults.dir)
      ensures path != [] && Reach(old(tree), path) == Worked && path in old(tree) ==>
          && (outcome.Pass? <==> !old(tree)[path].LinkNode?)
          && tree == old(tree)[path := Stamped(old(tree)[path], wanted, preserve)]
      ensures !Resolves(old(tree), path) ==> outcome.Fail? && tree == old(tree)
      ensures Resolves(old(tree), path) && !(Reach(old(tree), path) == Worked && path in old(tree)) ==>
        (outcome.Pass? <==> preserve == Preserve(false, false)) && tree == old(tree)
    {
      if path != [] && Reach(tree, path) == Worked {
        InPlaceCanBeMade(tree, path, defaults.dir);
      }
      outcome := Resolve(path);
      if outcome.Fail? {
        return;
      }
      var found := Reach(tree, path) == Worked && path in tree;
      if found && tree[path].LinkNode? {
        return Fail;
      }
      if preserve.ownership {
        if !found {
          return Fail;
        }
        tree := tree[path := tree[path].(meta := tree[path].meta.(uid := wanted.uid, gid := wanted.gid))];
      }
      if preserve.mode {
        if !found {
          return Fail;
        }
        tree := tree[path := tree[path].(meta := tree[path].meta.(mode := wanted.mode))];
      }
      return Pass;
    }
  }

  lemma ResolvedIsNotEmpty(tree: Tree, path: Path)
    ensures Resolves(tree, path) ==> path != []
  {
  }

  lemma InPlaceCanBeMade(tree: Tree, path: Path, made: Metadata)
    requires path != [] && IsDirAt(tree, Parent(path))
    ensures CanMakeDirs(tree, Parent(path), made) && WithDirs(tree, Parent(path), made) == tree
    ensures Resolves(tree, path)
  {
    hide Reach;
    ResolvesWhereItCanBeMade(tree, path, made);
  }

  lemma MadeResolves(tree: Tree, path: Path, made: Metadata)
    requires path != [] && CanMakeDirs(tree, path, made)
    ensures Resolves(tree, path) && !IsLinkAt(tree, path)
  {
    forall k | 0 < k <= |path|
      ensures !IsLinkAt(tree, path[..k])
    {
      NoLinkAbove(tree, path, made, k);
    }
    assert path[..|path|] == path;
  }

  lemma ClearNowhere(tree: Tree, path: Path)
    requires path != [] && !IsDirAt(tree, Parent(path))
    ensures Attempt(Clearing, tree, path) == (if Reach(tree, path) == Absent then Worked else Reach(tree, path), tree)
    ensures Reach(tree, path) != Worked
  {
  }

  lemma NothingIsOnlyAt(tree: Tree, path: Path, made: Metadata)
    ensures OnlyAt(tree, tree, path, made)
  {
  }

  lemma ParentIsMade(tree: Tree, path: Path, made: Metadata)
    requires path != []
    ensures OnlyAt(tree, MakeDirs(tree, Parent(path), made).1, path, made)
    ensures IsDirAt(tree, Parent(path)) ==> MakeDirs(tree, Parent(path), made) == (Worked, tree)
  {
    MakeDirsOnlyAdds(tree, Parent(path), made);
  }
}
