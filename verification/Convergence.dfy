/** What a full pass makes of the target, what it leaves for a second, and why a
    third is never needed. */
module Convergence {
  import opened Basics
  import opened Ordering
  import opened Reconcile
  import opened PlanFacts
  import opened LocalSink

  // ---------------------------------------------------------------------------
  // Trees and their indexes
  // ---------------------------------------------------------------------------

  predicate IsSearchableDir(tree: Tree, path: Path) {
    path in tree && tree[path].DirNode? && MaySearch(tree[path].meta.mode)
  }

  /** A tree with a root, every node in a directory, and every directory searchable,
      as it has to be for the tree to have been indexed. */
  ghost predicate Good(tree: Tree) {
    && IsSearchableDir(tree, [])
    && (forall path :: path in tree && path != [] ==> IsSearchableDir(tree, Parent(path)))
    && (forall path :: path in tree && tree[path].DirNode? ==> IsSearchableDir(tree, path))
  }

  lemma {:induction false} GoodReaches(tree: Tree, path: Path)
    requires Good(tree) && (path in tree || (path != [] && IsSearchableDir(tree, Parent(path))))
    ensures Reach(tree, path) == Worked
    decreases |path|
  {
    if path != [] {
      GoodReaches(tree, Parent(path));
    }
  }

  function Look(tree: Tree, path: Path): Option<Node> {
    if path in tree then Some(tree[path]) else None
  }

  /** Hashed only when content verification was asked for. */
  function EntryOf(node: Node, hash: Option<Hash>): Entry {
    match node
    case FileNode(content, mtime, meta) =>
      File(|content|, mtime, if hash.Some? then Some(hash.value(content)) else None, meta)
    case DirNode(meta) => Dir(meta)
    case LinkNode(target) => Symlink(target)
  }

  /** Every path of the tree but the empty one. */
  function IndexOf(tree: Tree, hash: Option<Hash>): Index {
    map path | path in tree && path != [] :: EntryOf(tree[path], hash)
  }

  // ---------------------------------------------------------------------------
  // What one action should come to
  // ---------------------------------------------------------------------------

  function NewNode(node: Node, defaults: Defaults): Node {
    match node
    case FileNode(content, mtime, _) => FileNode(content, mtime, defaults.file)
    case DirNode(_) => DirNode(defaults.dir)
    case LinkNode(target) => LinkNode(target)
  }

  predicate SameKind(a: Node, b: Node) {
    match a
    case FileNode(_, _, _) => b.FileNode?
    case DirNode(_) => b.DirNode?
    case LinkNode(_) => b.LinkNode?
  }

  function WriteAt(source: Tree, path: Path): Action
    requires path in source
  {
    WriteOf(EntryOf(source[path], None), path)
  }

  function Ideal(tree: Tree, source: Tree, defaults: Defaults, preserve: Preserve, action: Action): Tree {
    var path := action.At();
    match action
    case Remove(_) => tree - {path}
    case SetMetadata(_, wanted) => if path in tree then tree[path := Stamped(tree[path], wanted, preserve)] else tree
    case _ => if path in source then tree[path := NewNode(source[path], defaults)] else tree
  }

  /** Where an action is sure to work. */
  ghost predicate Safe(tree: Tree, source: Tree, preserve: Preserve, action: Action) {
    var path := action.At();
    && path != [] && IsSearchableDir(tree, Parent(path))
    && match action
       case Remove(_) => path in tree && !HasChildren(tree, path)
       case CreateDir(_) => path in source && source[path].DirNode? && path !in tree
       case CopyFile(_) => path in source && source[path].FileNode? && (path in tree ==> !tree[path].DirNode?)
       case CreateSymlink(_, target) =>
         path in source && source[path] == LinkNode(target) && !IsFullDir(tree, path)
       case SetMetadata(_, wanted) =>
         && path in tree && !tree[path].LinkNode?
         && (tree[path].DirNode? && preserve.mode ==> MaySearch(wanted.mode))
       case Rename(_, _) => false
  }

  lemma IdealKeepsGood(tree: Tree, source: Tree, defaults: Defaults, preserve: Preserve, action: Action)
    requires Good(tree) && Safe(tree, source, preserve, action) && MaySearch(defaults.dir.mode)
    ensures Good(Ideal(tree, source, defaults, preserve, action))
  {
    hide MaySearch, Stamp;
    var after, path := Ideal(tree, source, defaults, preserve, action), action.At();
    if action.Remove? {
      GoodWithout(tree, path);
    } else if action.SetMetadata? {
      if tree[path].DirNode? {
        StampKeepsSearch(tree[path], action.metadata, preserve);
      }
      GoodWith(tree, path, after[path]);
    } else {
      GoodWith(tree, path, after[path]);
    }
  }

  lemma NoChildOfALink(tree: Tree, path: Path)
    requires Good(tree) && path != [] && Parent(path) in tree && tree[Parent(path)].LinkNode?
    ensures path !in tree
  {
  }

  lemma StampKeepsSearch(node: Node, wanted: Metadata, preserve: Preserve)
    requires node.DirNode? && MaySearch(node.meta.mode) && (preserve.mode ==> MaySearch(wanted.mode))
    ensures MaySearch(Stamped(node, wanted, preserve).meta.mode)
  {
  }

  lemma GoodWithout(tree: Tree, path: Path)
    requires Good(tree) && path != [] && path in tree && !HasChildren(tree, path)
    ensures Good(tree - {path})
  {
    hide MaySearch;
    forall p | p in tree && p != [] && p != path
      ensures IsSearchableDir(tree - {path}, Parent(p))
    {
      assert IsSearchableDir(tree, Parent(p)) && Parent(p) != path;
    }
  }

  /** A node may be put in a directory that is there, and may replace a directory that
      holds something only as a directory. */
  lemma GoodWith(tree: Tree, path: Path, node: Node)
    requires Good(tree) && path != [] && IsSearchableDir(tree, Parent(path))
    requires IsFullDir(tree, path) ==> node.DirNode?
    requires node.DirNode? ==> MaySearch(node.meta.mode)
    ensures Good(tree[path := node])
  {
    hide MaySearch;
    forall p | p in tree && p != []
      ensures IsSearchableDir(tree[path := node], Parent(p))
    {
      assert IsSearchableDir(tree, Parent(p));
    }
  }

  // ---------------------------------------------------------------------------
  // Carrying out a plan
  // ---------------------------------------------------------------------------

  datatype ActionCounts =
    ActionCounts(createDir: nat, copyFile: nat, createSymlink: nat, remove: nat, rename: nat, setMetadata: nat)
  {
    function Record(action: Action): (counts: ActionCounts)
      ensures counts.Total() == Total() + 1
    {
      match action
      case CreateDir(_) => this.(createDir := createDir + 1)
      case CopyFile(_) => this.(copyFile := copyFile + 1)
      case CreateSymlink(_, _) => this.(createSymlink := createSymlink + 1)
      case Remove(_) => this.(remove := remove + 1)
      case Rename(_, _) => this.(rename := rename + 1)
      case SetMetadata(_, _) => this.(setMetadata := setMetadata + 1)
    }

    function Total(): nat {
      createDir + copyFile + createSymlink + remove + rename + setMetadata
    }
  }

  function NoCounts(): (counts: ActionCounts)
    ensures counts.Total() == 0
  {
    ActionCounts(0, 0, 0, 0, 0, 0)
  }

  datatype Report = Report(applied: ActionCounts, failures: seq<Action>)

  // ---------------------------------------------------------------------------
  // What any action comes to, wherever it is done
  // ---------------------------------------------------------------------------

  /** Whether there is something at a path that can be looked up. */
  predicate Found(tree: Tree, path: Path) {
    Reach(tree, path) == Worked && path in tree
  }

  /** Where an action goes through: past links, into a directory that is there or can be
      made, and over what may be replaced without removing anything else. */
  ghost predicate Works(tree: Tree, source: Tree, defaults: Defaults, preserve: Preserve, action: Action) {
    var path := action.At();
    && path != [] && Resolves(tree, path)
    && match action
       case Remove(_) =>
         if IsDirAt(tree, Parent(path)) then !IsFullDir(tree, path) else Reach(tree, path) == Absent
       case CreateDir(_) =>
         !(Reach(tree, path) == Worked && IsLinkAt(tree, path)) && Settles(MakingDirs(defaults.dir), tree, path).0
       case CopyFile(_) =>
         && path in source && source[path].FileNode?
         && HasParents(tree, path, defaults.dir) && (path in tree ==> !tree[path].DirNode?)
       case CreateSymlink(_, _) => HasParents(tree, path, defaults.dir) && !IsFullDir(tree, path)
       case SetMetadata(_, _) =>
         if Found(tree, path) then !tree[path].LinkNode? else !preserve.mode && !preserve.ownership
       case Rename(_, _) => false
  }

  /** What an action is for. */
  ghost predicate Achieved(tree: Tree, source: Tree, defaults: Defaults, preserve: Preserve, action: Action) {
    match action
    case Remove(path) => !Found(tree, path)
    case CreateDir(path) => path in tree && tree[path].DirNode?
    case CopyFile(path) =>
      && path in source && source[path].FileNode? && path in tree
      && tree[path] == FileNode(source[path].content, source[path].mtime, defaults.file)
    case CreateSymlink(path, target) => path in tree && tree[path] == LinkNode(target)
    case SetMetadata(path, wanted) =>
      preserve.mode || preserve.ownership ==>
        && path in tree && !tree[path].LinkNode?
        && (preserve.mode ==> tree[path].meta.mode == wanted.mode)
        && (preserve.ownership ==> tree[path].meta.uid == wanted.uid && tree[path].meta.gid == wanted.gid)
    case Rename(_, _) => true
  }

  /** One action done: nothing but its path and missing parents is touched; it goes through
      exactly where it works; and then it does what it is for, and otherwise leaves its path
      as it was. */
  ghost predicate Stepped(before: Tree, after: Tree, passes: bool, source: Tree, defaults: Defaults,
                          preserve: Preserve, action: Action)
  {
    && OnlyAt(before, after, action.At(), defaults.dir)
    && (passes <==> Works(before, source, defaults, preserve, action))
    && (if passes then Achieved(after, source, defaults, preserve, action)
        else Look(after, action.At()) == Look(before, action.At()))
  }

  /** Making the missing parents changes nothing at the path or below it. */
  lemma ParentsAreElsewhere(tree: Tree, path: Path, made: Metadata)
    requires path != []
    ensures var base := MakeDirs(tree, Parent(path), made).1;
      && Look(base, path) == Look(tree, path) && (IsFullDir(base, path) <==> IsFullDir(tree, path))
  {
    hide MakeDirs, Reach;
    var base := MakeDirs(tree, Parent(path), made).1;
    MakeDirsOnlyAdds(tree, Parent(path), made);
    if IsFullDir(base, path) {
      var below :| below in base && below != [] && Parent(below) == path;
      assert below in tree;
    }
    if IsFullDir(tree, path) {
      var below :| below in tree && below != [] && Parent(below) == path;
      assert below in base;
    }
  }

  lemma RemoveSteps(before: Tree, after: Tree, passes: bool, source: Tree, defaults: Defaults,
                    preserve: Preserve, path: Path)
    requires OnlyAt(before, after, path, defaults.dir)
    requires !Resolves(before, path) ==> !passes && after == before
    requires path != [] && IsDirAt(before, Parent(path)) ==>
      passes == !IsFullDir(before, path) && after == if passes then before - {path} else before
    requires Resolves(before, path) && !IsDirAt(before, Parent(path)) ==>
      passes == (Reach(before, path) == Absent) && after == before
    ensures Stepped(before, after, passes, source, defaults, preserve, Remove(path))
  {
    hide OnlyAt, Reach, Resolves, HasChildren;
    if path != [] && !Resolves(before, path) && IsDirAt(before, Parent(path)) {
      InPlaceCanBeMade(before, path, defaults.dir);
    }
    ResolvedIsNotEmpty(before, path);
  }

  lemma CreateDirSteps(before: Tree, after: Tree, passes: bool, source: Tree, defaults: Defaults,
                       preserve: Preserve, path: Path)
    requires OnlyAt(before, after, path, defaults.dir)
    requires !Resolves(before, path) ==> !passes && after == before
    requires Resolves(before, path) ==>
      path != [] &&
      if Reach(before, path) == Worked && IsLinkAt(before, path) then !passes && after == before
      else
        && passes == Settles(MakingDirs(defaults.dir), before, path).0
        && after == Settles(MakingDirs(defaults.dir), before, path).1
    ensures Stepped(before, after, passes, source, defaults, preserve, CreateDir(path))
  {
    hide OnlyAt, Reach, Resolves, Settles;
    if path != [] {
      DirSettles(before, path, defaults.dir);
    }
  }

  /** A directory is there in the end, or the path is as it was. */
  lemma DirSettles(tree: Tree, path: Path, made: Metadata)
    requires path != []
    ensures var (passes, left) := Settles(MakingDirs(made), tree, path);
      if passes then path in left && left[path].DirNode? else Look(left, path) == Look(tree, path)
  {
    hide Reach;
    var (status, done) := MakeDirs(tree, path, made);
    if status == Worked {
      WhereMade(tree, path, made);
    } else {
      UnmadeIsElsewhere(tree, path, made);
    }
  }

  lemma UnmadeIsElsewhere(tree: Tree, path: Path, made: Metadata)
    requires path != [] && MakeDirs(tree, path, made).0 != Worked
    ensures Look(MakeDirs(tree, path, made).1, path) == Look(tree, path)
  {
    hide Reach;
    MakeDirsOnlyAdds(tree, Parent(path), made);
  }

  lemma CopySteps(before: Tree, after: Tree, passes: bool, source: Tree, defaults: Defaults,
                  preserve: Preserve, path: Path)
    requires OnlyAt(before, after, path, defaults.dir)
    requires path !in source || !source[path].FileNode? ==> !passes && after == before
    requires path in source && source[path].FileNode? ==>
      && (!Resolves(before, path) ==> !passes && after == before)
      && (Resolves(before, path) ==>
           && path != []
           && var base := MakeDirs(before, Parent(path), defaults.dir).1;
              && passes == (HasParents(before, path, defaults.dir) && (path in base ==> !base[path].DirNode?))
              && after == if passes then base[path := FileNode(source[path].content, source[path].mtime, defaults.file)]
                          else base)
    ensures Stepped(before, after, passes, source, defaults, preserve, CopyFile(path))
  {
    hide OnlyAt, Reach, Resolves, MakeDirs, HasParents;
    if path != [] {
      ParentsAreElsewhere(before, path, defaults.dir);
    }
  }

  lemma LinkSteps(before: Tree, after: Tree, passes: bool, source: Tree, defaults: Defaults,
                  preserve: Preserve, path: Path, target: Bytes)
    requires OnlyAt(before, after, path, defaults.dir)
    requires !Resolves(before, path) ==> !passes && after == before
    requires Resolves(before, path) ==>
      && path != []
      && var base := MakeDirs(before, Parent(path), defaults.dir).1;
         && passes == (HasParents(before, path, defaults.dir) && !IsFullDir(base, path))
         && after == if passes then base[path := LinkNode(target)] else base
    ensures Stepped(before, after, passes, source, defaults, preserve, CreateSymlink(path, target))
  {
    hide OnlyAt, Reach, Resolves, MakeDirs, HasParents, IsFullDir;
    if path != [] {
      ParentsAreElsewhere(before, path, defaults.dir);
    }
  }

  lemma MetadataSteps(before: Tree, after: Tree, passes: bool, source: Tree, defaults: Defaults,
                      preserve: Preserve, path: Path, wanted: Metadata)
    requires OnlyAt(before, after, path, defaults.dir)
    requires path != [] && Found(before, path) ==>
      passes == !before[path].LinkNode? && after == before[path := Stamped(before[path], wanted, preserve)]
    requires !Resolves(before, path) ==> !passes && after == before
    requires Resolves(before, path) && !Found(before, path) ==>
      passes == (preserve == Preserve(false, false)) && after == before
    ensures Stepped(before, after, passes, source, defaults, preserve, SetMetadata(path, wanted))
  {
    hide OnlyAt, Reach, Resolves;
    ResolvedIsNotEmpty(before, path);
  }

  lemma HistoryHasAll(trees: seq<Tree>, actions: seq<Action>, source: Tree, defaults: Defaults, preserve: Preserve)
    requires IsHistory(trees, actions, source, defaults, preserve)
    ensures |trees| == |actions| + 1
  {
  }

  /** No directory is made where something else is. */
  lemma DirOverNoDir(tree: Tree, path: Path, made: Metadata)
    requires path != [] && path in tree && !tree[path].DirNode?
    ensures !Settles(MakingDirs(made), tree, path).0
  {
    hide Reach;
    var (status, done) := MakeDirs(tree, path, made);
    MakeDirsOnlyAdds(tree, path, made);
    if status == Worked {
      WhereMade(tree, path, made);
    }
  }

  /** Where an action is sure to work, that leaves exactly what is intended. */
  lemma SafeWorks(tree: Tree, source: Tree, defaults: Defaults, preserve: Preserve, action: Action)
    requires Good(tree) && Safe(tree, source, preserve, action)
    ensures Works(tree, source, defaults, preserve, action)
    ensures var path := action.At();
      && Reach(tree, path) == Worked && Resolves(tree, path) && IsDirAt(tree, Parent(path))
      && MakeDirs(tree, Parent(path), defaults.dir).1 == tree && HasParents(tree, path, defaults.dir)
      && (action.Remove? || action.CreateSymlink? ==> !IsFullDir(tree, path))
      && (action.CreateDir? ==>
           && Settles(MakingDirs(defaults.dir), tree, path).0
           && Settles(MakingDirs(defaults.dir), tree, path).1 == Ideal(tree, source, defaults, preserve, action))
  {
    hide MaySearch, HasChildren, Resolves, Reach, Good, Stamp, Settles;
    var path := action.At();
    GoodReaches(tree, path);
    GoodReaches(tree, Parent(path));
    InPlaceCanBeMade(tree, path, defaults.dir);
    ParentIsMade(tree, path, defaults.dir);
    SettlesInPlace(MakingDirs(defaults.dir), tree, path);
  }

  /** One action, against a source that holds still. No plan contains a rename. */
  method ApplyOne(action: Action, source: Tree, sink: LocalSink, preserve: Preserve) returns (outcome: Outcome)
    requires !action.Rename?
    modifies sink
    ensures Stepped(old(sink.tree), sink.tree, outcome.Pass?, source, sink.defaults, preserve, action)
    ensures Good(old(sink.tree)) && Safe(old(sink.tree), source, preserve, action) ==>
      outcome.Pass? && sink.tree == Ideal(old(sink.tree), source, sink.defaults, preserve, action)
  {
    hide OnlyAt, Reach, MaySearch, Resolves, MakeDirs, HasParents, IsFullDir, Stepped, Works, Good, Settles;
    hide IsDirAt, Stamp;
    ghost var path, before, defaults := action.At(), sink.tree, sink.defaults;
    if Good(before) && Safe(before, source, preserve, action) {
      SafeWorks(before, source, defaults, preserve, action);
    }
    NothingIsOnlyAt(before, path, defaults.dir);
    ResolvedIsNotEmpty(before, path);
    match action {
      case CreateDir(path) =>
        outcome := sink.CreateDir(path);
        CreateDirSteps(before, sink.tree, outcome.Pass?, source, defaults, preserve, path);
      case CopyFile(path) =>
        outcome := Fail;
        if path in source && source[path].FileNode? {
          outcome := sink.WriteFile(source[path].content, source[path].mtime, path);
        }
        CopySteps(before, sink.tree, outcome.Pass?, source, defaults, preserve, path);
      case CreateSymlink(path, target) =>
        outcome := sink.CreateSymlink(path, target);
        LinkSteps(before, sink.tree, outcome.Pass?, source, defaults, preserve, path, target);
      case Remove(path) =>
        outcome := sink.Remove(path);
        RemoveSteps(before, sink.tree, outcome.Pass?, source, defaults, preserve, path);
      case SetMetadata(path, wanted) =>
        outcome := sink.SetMetadata(path, wanted, preserve);
        MetadataSteps(before, sink.tree, outcome.Pass?, source, defaults, preserve, path, wanted);
    }
  }

  // ---------------------------------------------------------------------------
  // Part of the way through a plan
  // ---------------------------------------------------------------------------

  /** Two trees and how the one is mirrored onto the other. */
  datatype Mirror = Mirror(source: Tree, target: Tree, defaults: Defaults, config: Config, hash: Option<Hash>) {
    /** Two good trees, and new directories that can be searched. */
    ghost predicate Sound() {
      Good(source) && Good(target) && MaySearch(defaults.dir.mode)
    }

    /** Something at a path gives way to the source's entry only by being removed: a
        directory to a file, a file or a link to a directory, and a directory that holds
        something to a link. */
    ghost predicate Clashes(path: Path) {
      && path != [] && path in source && path in target
      && source[path].DirNode? != target[path].DirNode?
      && (source[path].LinkNode? ==> HasChildren(target, path))
    }

    /** What lets a pass through: sound trees, and removals allowed or not needed. */
    ghost predicate Fit() {
      Sound() && (config.delete || forall path :: !Clashes(path))
    }

    ghost predicate Calls(action: Action) {
      Reconcile.Calls(IndexOf(source, hash), IndexOf(target, hash), config, action)
    }

    /** The actions done by the time `action` is reached in plan order. */
    ghost predicate Until(done: seq<Action>, action: Action) {
      forall b :: b in done <==> Calls(b) && b != action && PlanOrder()(b, action)
    }

    /** What is at a path once some of the plan is done. */
    function NodeAfter(done: seq<Action>, path: Path): Option<Node> {
      var kept := if Remove(path) in done then None else Look(target, path);
      if path !in source then kept
      else
        var written := if WriteAt(source, path) in done then Some(NewNode(source[path], defaults)) else kept;
        if written.Some? && !source[path].LinkNode? && SetMetadata(path, source[path].meta) in done then
          Some(Stamped(written.value, source[path].meta, config.preserve))
        else written
    }

    ghost predicate Reached(done: seq<Action>, tree: Tree) {
      && Good(tree) && Look(tree, []) == Look(target, [])
      && forall path :: path != [] ==> Look(tree, path) == NodeAfter(done, path)
    }

    lemma StartIsReached()
      requires Fit()
      ensures Reached([], target)
    {
    }

    /** What is called for at a path, in terms of the trees. */
    lemma CalledAt(action: Action)
      requires Calls(action)
      ensures action.At() != []
      ensures action.Remove? ==> config.delete && action.path in target
      ensures action.Group() == 1 ==> action.path in source && action == WriteAt(source, action.path)
      ensures action.SetMetadata? ==>
        action.path in source && !source[action.path].LinkNode? && action.metadata == source[action.path].meta
      ensures !action.Rename?
    {
    }

    /** A path that both trees have, of different kinds where one is a directory, is
        removed before it is written, if removals are allowed. */
    lemma KindChangeIsRemoved(path: Path)
      requires Fit() && config.delete && path != [] && path in target
      requires path in source ==> source[path].DirNode? != target[path].DirNode?
      ensures Calls(Remove(path))
    {
    }

    lemma RemovedOnlyIfReplaced(path: Path)
      requires path in source && path != [] && Calls(Remove(path))
      ensures Calls(WriteAt(source, path)) && source[path].DirNode? != target[path].DirNode?
    {
    }

    lemma MissingIsWritten(path: Path)
      requires path in source && path != []
      requires path in target ==> !SameKind(source[path], target[path])
      ensures Calls(WriteAt(source, path))
    {
    }

    lemma NotYet(done: seq<Action>, action: Action, b: Action)
      requires Until(done, action)
      requires b.Group() > action.Group() || b == action
        || (b.Group() == action.Group() == 1 && |b.At()| > |action.At()|)
        || (b.Group() == action.Group() != 1 && |b.At()| < |action.At()|)
      ensures b !in done
    {
    }

    lemma Already(done: seq<Action>, action: Action, b: Action)
      requires Until(done, action) && Calls(b)
      requires b.Group() < action.Group()
        || (b.Group() == action.Group() == 1 && |b.At()| < |action.At()|)
        || (b.Group() == action.Group() != 1 && |b.At()| > |action.At()|)
      ensures b in done
    {
    }

    /** Nothing but removals has been done while a removal is next. */
    lemma BeforeRemoval(done: seq<Action>, path: Path, p: Path)
      requires Until(done, Remove(path))
      ensures NodeAfter(done, p) == if Remove(p) in done then None else Look(target, p)
    {
      if p in source {
        NotYet(done, Remove(path), WriteAt(source, p));
        if !source[p].LinkNode? {
          NotYet(done, Remove(path), SetMetadata(p, source[p].meta));
        }
      }
    }

    lemma RemoveIsSafe(done: seq<Action>, tree: Tree, path: Path)
      requires Fit() && Calls(Remove(path)) && Until(done, Remove(path)) && Reached(done, tree)
      ensures Safe(tree, source, config.preserve, Remove(path))
    {
      hide Mirror.Calls, Mirror.NodeAfter, Mirror.Until, MaySearch, Mirror.Clashes;
      CalledAt(Remove(path));
      BeforeRemoval(done, path, path);
      NotYet(done, Remove(path), Remove(path));
      var above := Parent(path);
      if above != [] {
        BeforeRemoval(done, path, above);
        NotYet(done, Remove(path), Remove(above));
      }
      if HasChildren(tree, path) {
        var below :| below in tree && below != [] && Parent(below) == path;
        BeforeRemoval(done, path, below);
        if path in source {
          RemovedOnlyIfReplaced(path);
        }
        KindChangeIsRemoved(below);
        Already(done, Remove(path), Remove(below));
        assert false;
      }
    }

    /** Unless it is called for, the target's own node is of the source's kind, and stays. */
    lemma KeptIfNotWritten(done: seq<Action>, action: Action, path: Path)
      requires Fit() && Until(done, action) && path in source && path != [] && !Calls(WriteAt(source, path))
      ensures path in target && SameKind(source[path], target[path])
      ensures Remove(path) !in done && WriteAt(source, path) !in done
    {
      hide Good;
      if path !in target || !SameKind(source[path], target[path]) {
        MissingIsWritten(path);
      }
      if Calls(Remove(path)) {
        RemovedOnlyIfReplaced(path);
      }
    }

    /** Once writes have begun, every directory of the source above is there. */
    lemma SourceDirStands(done: seq<Action>, action: Action, above: Path)
      requires Fit() && Until(done, action) && action.Group() >= 1
      requires above != [] && above in source && source[above].DirNode? && |above| < |action.At()|
      ensures var node := NodeAfter(done, above);
        node.Some? && node.value.DirNode? && MaySearch(node.value.meta.mode)
    {
      hide Mirror.Calls, Mirror.Until, MaySearch;
      if Calls(WriteAt(source, above)) {
        Already(done, action, WriteAt(source, above));
      } else {
        KeptIfNotWritten(done, action, above);
      }
      NotYet(done, action, SetMetadata(above, source[above].meta));
    }

    lemma ParentStands(done: seq<Action>, tree: Tree, action: Action)
      requires Fit() && Calls(action) && Until(done, action) && Reached(done, tree) && action.Group() >= 1
      ensures action.At() != [] && IsSearchableDir(tree, Parent(action.At()))
    {
      hide Mirror.Calls, Mirror.NodeAfter, Mirror.Until, MaySearch;
      CalledAt(action);
      if Parent(action.At()) != [] {
        SourceDirStands(done, action, Parent(action.At()));
      }
    }

    /** Before a path is written, what gives way has given way. */
    lemma BeforeWrite(done: seq<Action>, path: Path)
      requires Fit() && path in source && Calls(WriteAt(source, path)) && Until(done, WriteAt(source, path))
      ensures NodeAfter(done, path).Some? ==>
        && !source[path].DirNode?
        && (NodeAfter(done, path).value.DirNode? ==> source[path].LinkNode? && !HasChildren(target, path))
    {
      hide Good, Mirror.Until, Stamp, HasChildren;
      assert !config.delete ==> !Clashes(path);
      CalledAt(WriteAt(source, path));
      NotYet(done, WriteAt(source, path), WriteAt(source, path));
      if !source[path].LinkNode? {
        NotYet(done, WriteAt(source, path), SetMetadata(path, source[path].meta));
      }
      if config.delete && path in target && source[path].DirNode? != target[path].DirNode? {
        KindChangeIsRemoved(path);
        Already(done, WriteAt(source, path), Remove(path));
      }
    }

    /** Nothing is put below a link. */
    lemma NothingBelowALink(done: seq<Action>, tree: Tree, path: Path)
      requires Good(source) && path in source && source[path].LinkNode? && Reached(done, tree)
      ensures HasChildren(tree, path) ==> HasChildren(target, path)
    {
      hide Stamp, MaySearch, Good;
      if HasChildren(tree, path) {
        var below :| below in tree && below != [] && Parent(below) == path;
        NoChildOfALink(source, below);
        assert Look(tree, below) == NodeAfter(done, below);
        assert below in target;
      }
    }

    lemma WriteIsSafe(done: seq<Action>, tree: Tree, path: Path)
      requires Fit() && path in source && Calls(WriteAt(source, path)) && Until(done, WriteAt(source, path))
      requires Reached(done, tree)
      ensures Safe(tree, source, config.preserve, WriteAt(source, path))
    {
      hide Mirror.Calls, Mirror.NodeAfter, Mirror.Until, Good, MaySearch;
      ParentStands(done, tree, WriteAt(source, path));
      BeforeWrite(done, path);
      if source[path].LinkNode? && path in tree && tree[path].DirNode? {
        NothingBelowALink(done, tree, path);
      }
    }

    /** Before metadata is set, the path holds a node of the source's kind. */
    lemma BeforeMetadata(done: seq<Action>, path: Path)
      requires Fit() && path in source && path != [] && !source[path].LinkNode?
      requires Until(done, SetMetadata(path, source[path].meta))
      ensures NodeAfter(done, path).Some? && SameKind(source[path], NodeAfter(done, path).value)
    {
      hide Good, Mirror.Calls, Mirror.Until, Stamp;
      var action := SetMetadata(path, source[path].meta);
      NotYet(done, action, action);
      if Calls(WriteAt(source, path)) {
        Already(done, action, WriteAt(source, path));
      } else {
        KeptIfNotWritten(done, action, path);
      }
    }

    lemma MetadataIsSafe(done: seq<Action>, tree: Tree, path: Path, wanted: Metadata)
      requires Fit() && Calls(SetMetadata(path, wanted)) && Until(done, SetMetadata(path, wanted))
      requires Reached(done, tree)
      ensures Safe(tree, source, config.preserve, SetMetadata(path, wanted))
    {
      hide Mirror.Calls, Mirror.NodeAfter, Mirror.Until, MaySearch;
      CalledAt(SetMetadata(path, wanted));
      ParentStands(done, tree, SetMetadata(path, wanted));
      BeforeMetadata(done, path);
    }

    /** Doing the next action takes what is there one step further, and no other path. */
    lemma NodeAfterOneMore(done: seq<Action>, tree: Tree, action: Action, path: Path)
      requires Fit() && Calls(action) && Until(done, action) && path != []
      requires Look(tree, path) == NodeAfter(done, path) && Safe(tree, source, config.preserve, action)
      ensures Look(Ideal(tree, source, defaults, config.preserve, action), path) == NodeAfter(done + [action], path)
    {
      hide Good, Mirror.Calls, Mirror.Until, Stamp, MaySearch;
      CalledAt(action);
      assert forall b :: b in done + [action] <==> b in done || b == action;
      if action.At() != path {
        assert path in source ==> WriteAt(source, path).At() == path;
      } else if action.Remove? {
        if path in source {
          NotYet(done, action, WriteAt(source, path));
        }
      } else if action.Group() == 1 {
        if !source[path].LinkNode? {
          NotYet(done, action, SetMetadata(path, source[path].meta));
        }
      } else {
        NotYet(done, action, action);
      }
    }

    /** The next action in plan order works, whatever it is. */
    lemma Advance(done: seq<Action>, tree: Tree, action: Action)
      requires Fit() && Calls(action) && Until(done, action) && Reached(done, tree)
      ensures Safe(tree, source, config.preserve, action)
      ensures Reached(done + [action], Ideal(tree, source, defaults, config.preserve, action))
    {
      hide Mirror.Calls, Mirror.NodeAfter, Mirror.Until, MaySearch, Safe, Good;
      CalledAt(action);
      match action.Group() {
        case 0 => RemoveIsSafe(done, tree, action.path);
        case 1 => WriteIsSafe(done, tree, action.path);
        case _ => MetadataIsSafe(done, tree, action.path, action.metadata);
      }
      IdealKeepsGood(tree, source, defaults, config.preserve, action);
      forall path: Path | path != []
        ensures Look(Ideal(tree, source, defaults, config.preserve, action), path) == NodeAfter(done + [action], path)
      {
        NodeAfterOneMore(done, tree, action, path);
      }
    }

    // -------------------------------------------------------------------------
    // The whole plan
    // -------------------------------------------------------------------------

    ghost predicate Plans(actions: seq<Action>) {
      IsPlan(actions, IndexOf(source, hash), IndexOf(target, hash), Subtree([]), config)
    }

    lemma PlansWhatIsCalled(actions: seq<Action>, action: Action)
      requires Plans(actions)
      ensures action in actions <==> Calls(action)
      ensures multiset(actions)[action] <= 1
    {
      hide Reconcile.Calls;
      PlannedIsCalled(actions, IndexOf(source, hash), IndexOf(target, hash), Subtree([]), config, action);
      CountedOnce(action.At());
    }

    lemma NothingPlanned(actions: seq<Action>)
      requires Plans(actions) && forall action :: !Calls(action)
      ensures actions == []
    {
      hide Mirror.Calls;
      if actions != [] {
        PlansWhatIsCalled(actions, actions[0]);
      }
    }

    lemma NoRepeats(actions: seq<Action>, k: nat, n: nat)
      requires Plans(actions) && k < n < |actions|
      ensures actions[k] != actions[n]
    {
      PlansWhatIsCalled(actions, actions[n]);
      assert actions == actions[..n] + actions[n..];
      assert actions[..n][k] in multiset(actions[..n]) && actions[n..][0] in multiset(actions[n..]);
    }

    /** In a plan, what comes before an action is what plan order puts before it. */
    lemma PlanReaches(actions: seq<Action>, n: nat)
      requires Plans(actions) && n < |actions|
      ensures Calls(actions[n]) && Until(actions[..n], actions[n])
    {
      hide Mirror.Calls, PlanOrder, Times;
      var action := actions[n];
      PlansWhatIsCalled(actions, action);
      forall b
        ensures b in actions[..n] <==> Calls(b) && b != action && PlanOrder()(b, action)
      {
        PlansWhatIsCalled(actions, b);
        if b in actions[..n] {
          var k :| 0 <= k < n && actions[k] == b;
          NoRepeats(actions, k, n);
        } else if Calls(b) && b != action && PlanOrder()(b, action) {
          var k :| 0 <= k < |actions| && actions[k] == b;
          TiesAreEqual(b, action);
        }
      }
    }

    lemma TiesAreEqual(a: Action, b: Action)
      requires Calls(a) && Calls(b) && PlanOrder()(a, b) && PlanOrder()(b, a)
      ensures a == b
    {
      hide Reconcile.Calls, PlanOrder;
      PlanOrderTies(a, b);
      CallsAreFunctional(IndexOf(source, hash), IndexOf(target, hash), config, a, b);
    }

    /** What a complete pass leaves at a path of the source. */
    function Settled(path: Path): Node
      requires path in source
    {
      if path == [] then (if [] in target then target[[]] else source[[]])
      else
        var entry := EntryOf(source[path], hash);
        var existing := if path in target then Some(EntryOf(target[path], hash)) else None;
        var replaced := path !in target || NeedsReplacing(entry, existing);
        var node := if replaced then NewNode(source[path], defaults) else target[path];
        if entry.Meta().Some? && NeedsMetadata(entry.Meta().value, existing, config.preserve) then
          Stamped(node, entry.Meta().value, config.preserve)
        else node
    }

    /** What a complete pass leaves: the source's paths and, unless they may be removed, the
        target's own. */
    function Result(): Tree {
      map path | path in source.Keys + (if config.delete then {} else target.Keys) ::
        if path in source then Settled(path) else target[path]
    }

    lemma CalledWhereNeeded(path: Path)
      requires path in source && path != []
      ensures var entry := EntryOf(source[path], hash);
        var existing := if path in target then Some(EntryOf(target[path], hash)) else None;
        && (Calls(WriteAt(source, path)) <==> path !in target || NeedsReplacing(entry, existing))
        && (!source[path].LinkNode? ==>
          (Calls(SetMetadata(path, source[path].meta)) <==>
            NeedsMetadata(source[path].meta, existing, config.preserve)))
    {
      hide NeedsMetadata;
      assert Lookup(IndexOf(target, hash), path) == if path in target then Some(EntryOf(target[path], hash)) else None;
    }

    lemma NextInPlan(actions: seq<Action>, n: nat, tree: Tree)
      requires Fit() && Plans(actions) && n < |actions| && Reached(actions[..n], tree)
      ensures Good(tree) && Safe(tree, source, config.preserve, actions[n])
      ensures Reached(actions[..n + 1], Ideal(tree, source, defaults, config.preserve, actions[n]))
    {
      hide Mirror.Fit, Mirror.Plans, Mirror.Calls, Mirror.Until, Mirror.NodeAfter, Safe, Good, Ideal;
      PlanReaches(actions, n);
      Advance(actions[..n], tree, actions[n]);
      assert actions[..n + 1] == actions[..n] + [actions[n]];
    }

    lemma EndAt(actions: seq<Action>, path: Path)
      requires Fit() && Plans(actions) && path != []
      ensures NodeAfter(actions, path) == Look(Result(), path)
    {
      hide Good, Stamp, Mirror.Calls, Mirror.Plans, NeedsMetadata, NeedsReplacing, Mirror.Clashes;
      PlansWhatIsCalled(actions, Remove(path));
      if Calls(Remove(path)) {
        CalledAt(Remove(path));
      }
      if path in source {
        PlansWhatIsCalled(actions, WriteAt(source, path));
        CalledWhereNeeded(path);
        if !source[path].LinkNode? {
          PlansWhatIsCalled(actions, SetMetadata(path, source[path].meta));
        }
        if !Calls(WriteAt(source, path)) && Calls(Remove(path)) {
          RemovedOnlyIfReplaced(path);
        }
      } else if path in target && config.delete {
        KindChangeIsRemoved(path);
      }
    }

    lemma EndIsResult(actions: seq<Action>, tree: Tree)
      requires Fit() && Plans(actions) && Reached(actions, tree)
      ensures tree == Result() && Good(tree)
    {
      hide Good, Mirror.NodeAfter, Mirror.Settled;
      forall path
        ensures path in tree <==> path in Result()
        ensures path in tree ==> tree[path] == Result()[path]
      {
        if path != [] {
          EndAt(actions, path);
        } else {
          RootSettles();
        }
      }
    }

    /** Without removals, what clashes makes its write fail, whatever else happens. */
    lemma ClashFails(actions: seq<Action>, trees: seq<Tree>)
      requires Sound() && !Fit() && Plans(actions)
      requires IsHistory(trees, actions, source, defaults, config.preserve) && trees[0] == target
      ensures Came(false, trees, actions, source, defaults, config.preserve) != []
    {
      hide Sound, Plans, Calls, Works, Stepped, IsHistory, Came, Clashes;
      var path :| Clashes(path);
      ClashIsWritten(path);
      var write := WriteAt(source, path);
      PlansWhatIsCalled(actions, write);
      var n :| 0 <= n < |actions| && actions[n] == write;
      ClashStands(actions, trees, n, path, n);
      HistoryHasAll(trees, actions, source, defaults, config.preserve);
      ClashIsAt(path);
      ClashIsNoWork(trees[n], path);
      CameIn(trees, actions, source, defaults, config.preserve, n);
    }

    lemma ClashIsAt(path: Path)
      requires Clashes(path)
      ensures path != [] && path in source
    {
    }

    lemma ClashIsWritten(path: Path)
      requires Sound() && Clashes(path)
      ensures Calls(WriteAt(source, path)) && path in source
    {
      hide Good;
      MissingIsWritten(path);
    }

    /** Up to then nothing has touched what is in the way. */
    lemma {:induction false} ClashStands(actions: seq<Action>, trees: seq<Tree>, n: nat, path: Path, k: nat)
      requires Sound() && !config.delete && Plans(actions) && Clashes(path) && k <= n < |actions|
      requires actions[n] == WriteAt(source, path)
      requires IsHistory(trees, actions, source, defaults, config.preserve) && trees[0] == target
      ensures Look(trees[k], path) == Look(target, path)
      ensures source[path].LinkNode? ==> HasChildren(trees[k], path)
    {
      hide Plans, Calls, Works, Achieved, Good, HasChildren;
      if k > 0 {
        ClashStands(actions, trees, n, path, k - 1);
        PlanReaches(actions, n);
        PlanReaches(actions, k - 1);
        ClashUntouched(trees[k - 1], trees[k], actions[k - 1], actions[..n], path);
      }
    }

    lemma ClashUntouched(before: Tree, after: Tree, action: Action, done: seq<Action>, path: Path)
      requires Sound() && !config.delete && Clashes(path)
      requires Calls(action) && action in done && Until(done, WriteAt(source, path))
      requires OnlyAt(before, after, action.At(), defaults.dir) && Look(before, path) == Look(target, path)
      requires source[path].LinkNode? ==> HasChildren(before, path)
      ensures Look(after, path) == Look(target, path)
      ensures source[path].LinkNode? ==> HasChildren(after, path)
    {
      hide Good;
      CalledAt(action);
      if source[path].LinkNode? {
        var below :| below in before && below != [] && Parent(below) == path;
        NoChildOfALink(source, below);
        assert action.At() != below;
        assert below in after;
      } else {
        NotYet(done, WriteAt(source, path), SetMetadata(path, source[path].meta));
      }
    }

    lemma ClashIsNoWork(tree: Tree, path: Path)
      requires path != [] && path in source && Look(tree, path) == Look(target, path) && Clashes(path)
      requires source[path].LinkNode? ==> HasChildren(tree, path)
      ensures !Works(tree, source, defaults, config.preserve, WriteAt(source, path))
    {
      hide Reach, Resolves, HasParents, HasChildren;
      if source[path].DirNode? {
        DirOverNoDir(tree, path, defaults.dir);
      }
    }

    lemma RootSettles()
      requires Fit()
      ensures Look(Result(), []) == Look(target, [])
    {
    }
  }

  // ---------------------------------------------------------------------------
  // Carrying out a list of actions
  // ---------------------------------------------------------------------------

  /** The trees an action list leads through, one step for each action. */
  ghost predicate IsHistory(trees: seq<Tree>, actions: seq<Action>, source: Tree, defaults: Defaults,
                            preserve: Preserve)
  {
    && |trees| == |actions| + 1
    && forall n :: 0 <= n < |actions| ==>
         Stepped(trees[n], trees[n + 1], Works(trees[n], source, defaults, preserve, actions[n]),
                 source, defaults, preserve, actions[n])
  }

  /** The actions that worked, or those that did not, where each was done. */
  ghost function Came(works: bool, trees: seq<Tree>, actions: seq<Action>, source: Tree, defaults: Defaults,
                      preserve: Preserve): seq<Action>
    requires |trees| > |actions|
  {
    if actions == [] then []
    else
      var n := |actions| - 1;
      Came(works, trees, actions[..n], source, defaults, preserve)
      + if Works(trees[n], source, defaults, preserve, actions[n]) == works then [actions[n]] else []
  }

  datatype Kind = DirKind | FileKind | LinkKind | RemovalKind | RenameKind | MetadataKind

  predicate IsOf(action: Action, kind: Kind) {
    match kind
    case DirKind => action.CreateDir?
    case FileKind => action.CopyFile?
    case LinkKind => action.CreateSymlink?
    case RemovalKind => action.Remove?
    case RenameKind => action.Rename?
    case MetadataKind => action.SetMetadata?
  }

  function CountOf(actions: seq<Action>, kind: Kind): nat {
    if actions == [] then 0
    else
      var n := |actions| - 1;
      CountOf(actions[..n], kind) + if IsOf(actions[n], kind) then 1 else 0
  }

  /** Each counter is of the actions of its own kind. */
  ghost predicate Counted(counts: ActionCounts, actions: seq<Action>) {
    && counts.createDir == CountOf(actions, DirKind) && counts.copyFile == CountOf(actions, FileKind)
    && counts.createSymlink == CountOf(actions, LinkKind) && counts.remove == CountOf(actions, RemovalKind)
    && counts.rename == CountOf(actions, RenameKind) && counts.setMetadata == CountOf(actions, MetadataKind)
  }

  lemma RecordedIsCounted(counts: ActionCounts, actions: seq<Action>, action: Action)
    requires Counted(counts, actions)
    ensures Counted(counts.Record(action), actions + [action])
  {
    hide CountOf, IsOf;
    CountOneMore(actions, action, DirKind);
    CountOneMore(actions, action, FileKind);
    CountOneMore(actions, action, LinkKind);
    CountOneMore(actions, action, RemovalKind);
    CountOneMore(actions, action, RenameKind);
    CountOneMore(actions, action, MetadataKind);
    IsOfItsKind(action);
  }

  lemma IsOfItsKind(action: Action)
    ensures IsOf(action, DirKind) == action.CreateDir? && IsOf(action, FileKind) == action.CopyFile?
    ensures IsOf(action, LinkKind) == action.CreateSymlink? && IsOf(action, RemovalKind) == action.Remove?
    ensures IsOf(action, RenameKind) == action.Rename? && IsOf(action, MetadataKind) == action.SetMetadata?
  {
  }

  lemma CountOneMore(actions: seq<Action>, action: Action, kind: Kind)
    ensures CountOf(actions + [action], kind) == CountOf(actions, kind) + if IsOf(action, kind) then 1 else 0
  {
    assert (actions + [action])[..|actions|] == actions;
  }

  lemma CameOneMore(works: bool, trees: seq<Tree>, tree: Tree, actions: seq<Action>, action: Action, source: Tree,
                    defaults: Defaults, preserve: Preserve)
    requires |trees| == |actions| + 1
    ensures Came(works, trees + [tree], actions + [action], source, defaults, preserve)
         == Came(works, trees, actions, source, defaults, preserve)
            + if Works(trees[|actions|], source, defaults, preserve, action) == works then [action] else []
    ensures Works(trees[|actions|], source, defaults, preserve, action) != works ==>
      Came(works, trees + [tree], actions + [action], source, defaults, preserve)
      == Came(works, trees, actions, source, defaults, preserve)
  {
    hide Works;
    assert (actions + [action])[..|actions|] == actions;
    CameSoFar(works, trees, [tree], actions, source, defaults, preserve);
  }

  lemma {:induction false} CameSoFar(works: bool, trees: seq<Tree>, more: seq<Tree>, actions: seq<Action>,
                                     source: Tree, defaults: Defaults, preserve: Preserve)
    requires |trees| > |actions|
    ensures Came(works, trees + more, actions, source, defaults, preserve)
         == Came(works, trees, actions, source, defaults, preserve)
  {
    hide Works;
    if actions != [] {
      CameSoFar(works, trees, more, actions[..|actions| - 1], source, defaults, preserve);
    }
  }

  lemma {:induction false} CameIn(trees: seq<Tree>, actions: seq<Action>, source: Tree, defaults: Defaults,
                                  preserve: Preserve, n: nat)
    requires |trees| > |actions| && n < |actions| && !Works(trees[n], source, defaults, preserve, actions[n])
    ensures Came(false, trees, actions, source, defaults, preserve) != []
  {
    hide Works;
    if n < |actions| - 1 {
      CameIn(trees, actions[..|actions| - 1], source, defaults, preserve, n);
    }
  }

  lemma HistoryOneMore(trees: seq<Tree>, tree: Tree, actions: seq<Action>, action: Action, source: Tree,
                       defaults: Defaults, preserve: Preserve)
    requires IsHistory(trees, actions, source, defaults, preserve)
    requires Stepped(trees[|actions|], tree, Works(trees[|actions|], source, defaults, preserve, action),
                     source, defaults, preserve, action)
    ensures IsHistory(trees + [tree], actions + [action], source, defaults, preserve)
  {
    hide Works, Stepped;
    var more, all := trees + [tree], actions + [action];
    forall n | 0 <= n < |all|
      ensures Stepped(more[n], more[n + 1], Works(more[n], source, defaults, preserve, all[n]),
                      source, defaults, preserve, all[n])
    {
      assert more[n] == trees[n];
    }
  }

  lemma SteppedAsWorks(before: Tree, after: Tree, passes: bool, source: Tree, defaults: Defaults,
                       preserve: Preserve, action: Action)
    requires Stepped(before, after, passes, source, defaults, preserve, action)
    ensures passes == Works(before, source, defaults, preserve, action)
  {
    hide Works, Achieved, OnlyAt;
  }

  /** Reports, in order, exactly the actions that did not work where each was done, and
      counts the others by their kinds. A whole plan between sound trees fails nothing
      exactly when removals are allowed or nothing clashes, and then leaves `Result()`. */
  method Apply(actions: seq<Action>, source: Tree, sink: LocalSink, preserve: Preserve, ghost mirror: Mirror)
    returns (report: Report, ghost trees: seq<Tree>)
    requires forall i :: 0 <= i < |actions| ==> !actions[i].Rename?
    requires mirror.source == source && mirror.target == sink.tree && mirror.defaults == sink.defaults
    requires mirror.config.preserve == preserve
    modifies sink
    ensures IsHistory(trees, actions, source, sink.defaults, preserve)
    ensures trees[0] == old(sink.tree) && trees[|actions|] == sink.tree
    ensures report.failures == Came(false, trees, actions, source, sink.defaults, preserve)
    ensures Counted(report.applied, Came(true, trees, actions, source, sink.defaults, preserve))
    ensures report.applied.Total() + |report.failures| == |actions|
    ensures mirror.Sound() && mirror.Plans(actions) ==> (report.failures == [] <==> mirror.Fit())
    ensures mirror.Fit() && mirror.Plans(actions) ==> sink.tree == mirror.Result() && Good(sink.tree)
  {
    hide Mirror.Fit, Mirror.Sound, Mirror.Plans, Mirror.Reached, Mirror.Calls, Mirror.Until, Mirror.Result, Safe, Good,
      OnlyAt, Ideal, ActionCounts.Record, ActionCounts.Total, Counted, Works, Stepped, Came, IsHistory;
    report := Report(NoCounts(), []);
    trees := [sink.tree];
    NothingYet(sink.tree, source, sink.defaults, preserve);
    NothingCounted();
    if mirror.Fit() {
      mirror.StartIsReached();
    }
    for n := 0 to |actions|
      invariant |trees| == n + 1 && trees[0] == old(sink.tree) && trees[n] == sink.tree
      invariant IsHistory(trees, actions[..n], source, sink.defaults, preserve)
      invariant report.failures == Came(false, trees, actions[..n], source, sink.defaults, preserve)
      invariant Counted(report.applied, Came(true, trees, actions[..n], source, sink.defaults, preserve))
      invariant report.applied.Total() + |report.failures| == n
      invariant mirror.Fit() && mirror.Plans(actions) ==>
        report.failures == [] && mirror.Reached(actions[..n], sink.tree)
    {
      if mirror.Fit() && mirror.Plans(actions) {
        mirror.NextInPlan(actions, n, sink.tree);
      }
      ghost var before := sink.tree;
      var outcome := ApplyOne(actions[n], source, sink, preserve);
      SteppedAsWorks(before, sink.tree, outcome.Pass?, source, sink.defaults, preserve, actions[n]);
      HistoryOneMore(trees, sink.tree, actions[..n], actions[n], source, sink.defaults, preserve);
      CameOneMore(true, trees, sink.tree, actions[..n], actions[n], source, sink.defaults, preserve);
      CameOneMore(false, trees, sink.tree, actions[..n], actions[n], source, sink.defaults, preserve);
      assert actions[..n + 1] == actions[..n] + [actions[n]];
      if outcome.Pass? {
        RecordedIsCounted(report.applied, Came(true, trees, actions[..n], source, sink.defaults, preserve), actions[n]);
        report := report.(applied := report.applied.Record(actions[n]));
      } else {
        report := report.(failures := report.failures + [actions[n]]);
      }
      trees := trees + [sink.tree];
    }
    assert actions[..|actions|] == actions;
    if mirror.Fit() && mirror.Plans(actions) {
      mirror.EndIsResult(actions, sink.tree);
    } else if mirror.Sound() && mirror.Plans(actions) {
      mirror.ClashFails(actions, trees);
    }
  }

  lemma NothingYet(tree: Tree, source: Tree, defaults: Defaults, preserve: Preserve)
    ensures IsHistory([tree], [], source, defaults, preserve)
    ensures Came(true, [tree], [], source, defaults, preserve) == []
    ensures Came(false, [tree], [], source, defaults, preserve) == []
  {
    hide Stepped, Works;
  }

  lemma NothingCounted()
    ensures Counted(NoCounts(), [])
  {
    hide ActionCounts.Total;
  }

  /** One full pass: both trees are indexed, a plan is made and carried out. */
  method Synchronise(source: Tree, sink: LocalSink, config: Config, hash: Option<Hash>)
    returns (report: Report, ghost trees: seq<Tree>)
    modifies sink
    ensures var mirror := Mirror(source, old(sink.tree), sink.defaults, config, hash);
      && (mirror.Sound() ==> (report.failures == [] <==> mirror.Fit()))
      && (mirror.Fit() ==> sink.tree == mirror.Result() && Good(sink.tree))
  {
    hide Mirror.Fit, Mirror.Sound, Mirror.Result, Good;
    ghost var mirror := Mirror(source, sink.tree, sink.defaults, config, hash);
    var plan := MakePlan(IndexOf(source, hash), IndexOf(sink.tree, hash), Subtree([]), config);
    forall action | action in plan.actions
      ensures !action.Rename?
    {
      mirror.PlansWhatIsCalled(plan.actions, action);
      mirror.CalledAt(action);
    }
    report, trees := Apply(plan.actions, source, sink, config.preserve, mirror);
  }

  // ---------------------------------------------------------------------------
  // What a pass leaves for the next
  // ---------------------------------------------------------------------------

  /** The same kind of node with, short of its metadata, what can be told of it: where a
      link leads, a file's length and time, or its hash if there is one. */
  ghost predicate Agree(a: Node, b: Node, hash: Option<Hash>) {
    match (a, b)
    case (DirNode(_), DirNode(_)) => true
    case (LinkNode(target), LinkNode(target')) => target == target'
    case (FileNode(content, mtime, _), FileNode(content', mtime', _)) =>
      if hash.Some? then hash.value(content) == hash.value(content')
      else |content| == |content'| && mtime == mtime'
    case _ => false
  }

  /** One pass leaves exactly the source's paths, each agreeing with the source's; and, where
      nothing may be removed, beside them the target's own paths as they were. */
  lemma PassConverges(mirror: Mirror, path: Path)
    requires mirror.Fit() && path != []
    ensures path in mirror.source ==>
      path in mirror.Result() && Agree(mirror.source[path], mirror.Result()[path], mirror.hash)
    ensures path !in mirror.source ==>
      Look(mirror.Result(), path) == if mirror.config.delete then None else Look(mirror.target, path)
  {
    hide NeedsMetadata, Stamp, Good, Mirror.Clashes;
  }

  /** Agreeing is exactly what is compared. */
  lemma AgreeIsNoDifference(a: Node, b: Node, hash: Option<Hash>)
    ensures Agree(a, b, hash) <==> !EntryOf(a, hash).DiffersFrom(EntryOf(b, hash))
  {
  }

  /** With content verification, and no two contents sharing a hash, every file holds the
      source's bytes. */
  lemma ContentConverges(mirror: Mirror, path: Path)
    requires mirror.Fit() && mirror.hash.Some? && CollisionFree(mirror.hash.value)
    requires path in mirror.source && mirror.source[path].FileNode?
    ensures mirror.Result()[path].FileNode? && mirror.Result()[path].content == mirror.source[path].content
  {
    hide NeedsMetadata, Stamp, Mirror.Clashes, Mirror.Result;
    assert path != [];
    PassConverges(mirror, path);
  }

  /** The pass over what a pass leaves. */
  function Again(mirror: Mirror): Mirror {
    mirror.(target := mirror.Result())
  }

  lemma DirsSettle(mirror: Mirror, path: Path)
    requires mirror.Fit() && path in mirror.source
    ensures mirror.Settled(path).DirNode? <==> mirror.source[path].DirNode?
    ensures mirror.source[path].DirNode? ==> MaySearch(mirror.Settled(path).meta.mode)
  {
    hide NeedsMetadata;
    if path in mirror.source && mirror.source[path].DirNode? {
      assert IsSearchableDir(mirror.source, path);
    }
  }

  /** What stands after a pass stands in a directory. */
  lemma ResultStands(mirror: Mirror, path: Path)
    requires mirror.Fit() && path in mirror.Result()
    ensures mirror.Result()[path].DirNode? ==> IsSearchableDir(mirror.Result(), path)
    ensures path != [] ==> IsSearchableDir(mirror.Result(), Parent(path))
  {
    hide MaySearch, Mirror.Settled;
    if path in mirror.source {
      DirsSettle(mirror, path);
    }
    if path != [] {
      var above := Parent(path);
      if path !in mirror.source {
        assert !mirror.Clashes(above);
        assert HasChildren(mirror.target, above);
      }
      if above in mirror.source {
        DirsSettle(mirror, above);
      }
    }
  }

  /** Passes can follow one another: what one leaves is a good tree, and nothing clashes. */
  lemma AgainIsFit(mirror: Mirror)
    requires mirror.Fit()
    ensures Again(mirror).Fit()
  {
    hide MaySearch, Mirror.Settled, Mirror.Result, IsSearchableDir, HasChildren;
    forall path | path in mirror.Result()
      ensures mirror.Result()[path].DirNode? ==> IsSearchableDir(mirror.Result(), path)
      ensures path != [] ==> IsSearchableDir(mirror.Result(), Parent(path))
    {
      ResultStands(mirror, path);
    }
    RootStands(mirror);
    forall path
      ensures !Again(mirror).Clashes(path)
    {
      if path != [] && path in mirror.source {
        PassConverges(mirror, path);
      }
    }
  }

  lemma RootStands(mirror: Mirror)
    requires mirror.Fit()
    ensures IsSearchableDir(mirror.Result(), [])
  {
    hide Mirror.Clashes;
    assert IsSearchableDir(mirror.target, []);
  }

  /** A path that a pass replaces while its metadata needs nothing, although a new node
      would not have that metadata by itself. */
  predicate LosesMetadata(mirror: Mirror, path: Path) {
    && path in mirror.source && path != [] && !mirror.source[path].LinkNode?
    && path in mirror.target && !mirror.target[path].LinkNode?
    && EntryOf(mirror.source[path], mirror.hash).DiffersFrom(EntryOf(mirror.target[path], mirror.hash))
    && !mirror.source[path].meta.DiffersFrom(mirror.target[path].meta, mirror.config.preserve)
    && mirror.source[path].meta.DiffersFrom(NewNode(mirror.source[path], mirror.defaults).meta, mirror.config.preserve)
  }

  /** What is mirrored of the metadata is the source's. */
  ghost predicate MetadataAgrees(a: Node, b: Node, preserve: Preserve) {
    !a.LinkNode? ==>
      && !b.LinkNode?
      && (preserve.mode ==> a.meta.mode == b.meta.mode)
      && (preserve.ownership ==> a.meta.uid == b.meta.uid && a.meta.gid == b.meta.gid)
  }

  /** After one pass the metadata is the source's wherever it was not lost; after two it is
      everywhere, and what agreed goes on agreeing. */
  lemma MetadataConverges(mirror: Mirror, path: Path)
    requires mirror.Fit() && path != [] && path in mirror.source
    ensures var preserve := mirror.config.preserve;
      && (MetadataAgrees(mirror.source[path], mirror.Result()[path], preserve) <==> !LosesMetadata(mirror, path))
      && Agree(mirror.source[path], Again(mirror).Result()[path], mirror.hash)
      && MetadataAgrees(mirror.source[path], Again(mirror).Result()[path], preserve)
  {
    hide Good, Mirror.Clashes, Mirror.Fit, Mirror.Result, Agree, MetadataAgrees, LosesMetadata, Mirror.Settled;
    AgainIsFit(mirror);
    PassConverges(Again(mirror), path);
    NothingLostAgain(mirror, path);
    KeptUnlessLost(mirror, path);
    KeptUnlessLost(Again(mirror), path);
  }

  lemma KeptUnlessLost(mirror: Mirror, path: Path)
    requires mirror.Fit() && path != [] && path in mirror.source
    ensures path in mirror.Result()
    ensures MetadataAgrees(mirror.source[path], mirror.Result()[path], mirror.config.preserve) <==>
      !LosesMetadata(mirror, path)
  {
    hide Good, Mirror.Clashes;
  }

  /** Only removals need to be allowed: without them no plan holds one, and with them one is
      planned only where the source has nothing, or a directory for something else or
      something else for a directory. */
  lemma RemovalsInPlan(mirror: Mirror, actions: seq<Action>, path: Path)
    requires mirror.Plans(actions) && Remove(path) in actions
    ensures mirror.config.delete && path in mirror.target && path != []
    ensures path in mirror.source ==> mirror.source[path].DirNode? != mirror.target[path].DirNode?
  {
    hide Mirror.Plans;
    mirror.PlansWhatIsCalled(actions, Remove(path));
  }

  /** What the next pass is called on to do: set the metadata that this one lost. */
  lemma NextPassCalls(mirror: Mirror, action: Action)
    requires mirror.Fit()
    ensures Again(mirror).Calls(action) <==>
      && action.SetMetadata? && LosesMetadata(mirror, action.path)
      && action.metadata == mirror.source[action.path].meta
  {
    hide Good, Mirror.Clashes, Agree;
    if action.At() != [] {
      PassConverges(mirror, action.At());
      if action.At() in mirror.source {
        AgreeIsNoDifference(mirror.source[action.At()], mirror.Result()[action.At()], mirror.hash);
      }
    }
  }

  /** The second plan sets metadata and does nothing else. It is empty exactly when the
      first pass lost none, as when none is mirrored, and the plan after it always is. */
  lemma SecondAndThirdPlans(mirror: Mirror, second: seq<Action>, third: seq<Action>)
    requires mirror.Fit() && Again(mirror).Plans(second) && Again(Again(mirror)).Plans(third)
    ensures forall action :: action in second ==> action.SetMetadata?
    ensures second == [] <==> forall path :: !LosesMetadata(mirror, path)
    ensures mirror.config.preserve == Preserve(false, false) ==> second == []
    ensures third == []
  {
    hide Mirror.Fit, Mirror.Plans, Mirror.Calls, Mirror.Result, Metadata.DiffersFrom, Entry.DiffersFrom, NewNode;
    AgainIsFit(mirror);
    forall action
      ensures action in second <==>
        action.SetMetadata? && LosesMetadata(mirror, action.path) && action.metadata == mirror.source[action.path].meta
      ensures !Again(Again(mirror)).Calls(action)
    {
      Again(mirror).PlansWhatIsCalled(second, action);
      NextPassCalls(mirror, action);
      NextPassCalls(Again(mirror), action);
      if action.SetMetadata? {
        NothingLostAgain(mirror, action.path);
      }
    }
    forall path
      ensures LosesMetadata(mirror, path) ==> second != []
    {
      if LosesMetadata(mirror, path) {
        assert SetMetadata(path, mirror.source[path].meta) in second;
      }
    }
    if second != [] {
      assert second[0] in second;
    }
    Again(Again(mirror)).NothingPlanned(third);
    NothingMirroredNothingLost(mirror);
  }

  lemma NothingLostAgain(mirror: Mirror, path: Path)
    requires mirror.Fit()
    ensures !LosesMetadata(Again(mirror), path)
  {
    if path in mirror.source && path != [] {
      PassConverges(mirror, path);
    }
  }

  lemma NothingMirroredNothingLost(mirror: Mirror)
    ensures mirror.config.preserve == Preserve(false, false) ==> forall path :: !LosesMetadata(mirror, path)
  {
  }

  /** A file rewritten on the source, its mode the same on both sides but not the one a
      new file gets: the copy publishes a new file, and the pass leaves it with the
      wrong mode. */
  lemma RewrittenFileLosesItsMode(mirror: Mirror, path: Path)
    requires mirror.Fit() && mirror.config.preserve.mode && path != []
    requires path in mirror.source && mirror.source[path].FileNode?
    requires path in mirror.target && mirror.target[path].FileNode?
    requires mirror.source[path].meta == mirror.target[path].meta
    requires mirror.source[path].meta.mode != mirror.defaults.file.mode
    requires |mirror.source[path].content| != |mirror.target[path].content| && mirror.hash.None?
    ensures mirror.Result()[path].meta == mirror.defaults.file
    ensures mirror.Result()[path].meta.mode != mirror.source[path].meta.mode
    ensures LosesMetadata(mirror, path)
  {
  }
}
