/** Facts about every plan: that it is one list however the maps are walked, that its
    order can be carried out, and that scoped plans agree with full ones. */
module PlanFacts {
  import opened Basics
  import opened Ordering
  import opened Reconcile

  // ---------------------------------------------------------------------------
  // One plan
  // ---------------------------------------------------------------------------

  lemma PlannedIsCalled(actions: seq<Action>, source: Index, target: Index, scope: Scope, config: Config,
                        action: Action)
    requires IsPlan(actions, source, target, scope, config)
    ensures action in actions <==>
      Calls(source, target, config, action) && CountUnder(scope.Prefixes(), action.At()) > 0
  {
    hide Calls, CountUnder, SortedBy;
    assert action in actions <==> multiset(actions)[action] > 0;
  }

  /** Two plans of the same comparison are the same list, repeats and all. */
  lemma PlanIsUnique(xs: seq<Action>, ys: seq<Action>, source: Index, target: Index, scope: Scope, config: Config)
    requires IsPlan(xs, source, target, scope, config) && IsPlan(ys, source, target, scope, config)
    ensures xs == ys
  {
    hide Calls, SortedBy, PlanOrder;
    forall x, y | x in xs && y in xs && PlanOrder()(x, y) && PlanOrder()(y, x)
      ensures x == y
    {
      PlanOrderTies(x, y);
      PlannedIsCalled(xs, source, target, scope, config, x);
      PlannedIsCalled(xs, source, target, scope, config, y);
      CallsAreFunctional(source, target, config, x, y);
    }
    assert multiset(xs) == multiset(ys);
    SortedIsUnique(PlanOrder(), xs, ys);
  }

  // ---------------------------------------------------------------------------
  // Carrying a plan out top to bottom
  // ---------------------------------------------------------------------------

  /** `below` lies strictly beneath `path`. */
  predicate StrictlyBelow(below: Path, path: Path) {
    path <= below && path != below
  }

  lemma DeeperThanAncestor(below: Path, path: Path)
    requires StrictlyBelow(below, path)
    ensures |path| < |below|
  {
    assert below[..|below|] == below;
  }

  /** In plan order: no removal follows a write, a directory's removal follows those of
      what it holds, a write follows those of its parents, and metadata comes after
      every action on or strictly beneath its path. */
  lemma PlanIsExecutable(actions: seq<Action>, i: nat, j: nat)
    requires SortedBy(PlanOrder(), actions) && i < |actions| && j < |actions|
    ensures actions[i].Remove? && !actions[j].Remove? ==> i < j
    ensures actions[i].Remove? && actions[j].Remove? && StrictlyBelow(actions[i].At(), actions[j].At()) ==> i < j
    ensures actions[i].Group() == actions[j].Group() == 1 && StrictlyBelow(actions[j].At(), actions[i].At()) ==> i < j
    ensures actions[j].SetMetadata? && StrictlyBelow(actions[i].At(), actions[j].At()) ==> i < j
    ensures actions[j].SetMetadata? && !actions[i].SetMetadata? ==> i < j
  {
    hide PathOrder;
    if StrictlyBelow(actions[i].At(), actions[j].At()) {
      DeeperThanAncestor(actions[i].At(), actions[j].At());
    }
    if StrictlyBelow(actions[j].At(), actions[i].At()) {
      DeeperThanAncestor(actions[j].At(), actions[i].At());
    }
    if j < i {
      assert PlanOrder()(actions[j], actions[i]);
    }
  }

  /** Among actions of a group at one depth, writes come in the order of their paths, and
      removals and metadata in the reverse of it. */
  lemma SiblingsAreOrdered(actions: seq<Action>, i: nat, j: nat)
    requires SortedBy(PlanOrder(), actions) && i < j < |actions|
    requires actions[i].Group() == actions[j].Group() && |actions[i].At()| == |actions[j].At()|
    ensures if actions[i].Remove? || actions[i].SetMetadata? then PathOrder()(actions[j].At(), actions[i].At())
            else PathOrder()(actions[i].At(), actions[j].At())
  {
    hide PathOrder;
    assert PlanOrder()(actions[i], actions[j]);
  }

  // ---------------------------------------------------------------------------
  // Scopes
  // ---------------------------------------------------------------------------

  predicate Covered(prefixes: seq<Path>, path: Path) {
    exists i :: 0 <= i < |prefixes| && prefixes[i] <= path
  }

  lemma {:induction false} CountedIffCovered(prefixes: seq<Path>, path: Path)
    ensures CountUnder(prefixes, path) > 0 <==> Covered(prefixes, path)
  {
    var n := |prefixes| - 1;
    if n >= 0 {
      CountedIffCovered(prefixes[..n], path);
      assert forall i :: 0 <= i < n ==> prefixes[..n][i] == prefixes[i];
      if Covered(prefixes, path) && !(prefixes[n] <= path) {
        var i :| 0 <= i < |prefixes| && prefixes[i] <= path;
        assert prefixes[..n][i] <= path;
      }
    }
  }

  /** No scoped plan names a path outside its scope. */
  lemma PlanStaysInScope(actions: seq<Action>, source: Index, target: Index, scope: Scope, config: Config, i: nat)
    requires IsPlan(actions, source, target, scope, config) && i < |actions|
    ensures Covered(scope.Prefixes(), actions[i].At())
    ensures match scope
            case Subtree(prefix) => prefix <= actions[i].At()
            case Paths(paths) => exists k :: 0 <= k < |paths| && paths[k] <= actions[i].At()
  {
    PlannedIsCalled(actions, source, target, scope, config, actions[i]);
    CountedIffCovered(scope.Prefixes(), actions[i].At());
  }

  /** The entries at or below some named path. */
  function Restrict(index: Index, prefixes: seq<Path>): Index {
    map path | path in index && Covered(prefixes, path) :: index[path]
  }

  /** Every entry's ancestors are there, and are directories. */
  ghost predicate WellFormed(index: Index) {
    forall path, k :: path in index && 0 < k < |path| ==> path[..k] in index && index[path[..k]].Dir?
  }

  lemma AncestorsAreDirs(index: Index, path: Path, below: Path)
    requires WellFormed(index) && below in index && StrictlyBelow(below, path) && path != []
    ensures path in index && index[path].Dir?
  {
    DeeperThanAncestor(below, path);
    assert below[..|path|] == path;
  }

  /** A named path lies below a regular file, so that looking it up is an error. */
  predicate BelowFile(disk: Index, path: Path) {
    exists k :: 0 < k < |path| && path[..k] in disk && disk[path[..k]].File?
  }

  /** A named path lies below a symlink, so that looking it up follows the link. */
  predicate BelowLink(disk: Index, path: Path) {
    exists k :: 0 < k < |path| && path[..k] in disk && disk[path[..k]].Symlink?
  }

  predicate BelowNonDir(disk: Index, path: Path) {
    exists k :: 0 < k < |path| && path[..k] in disk && !disk[path[..k]].Dir?
  }

  predicate SomeBelowFile(disk: Index, names: seq<Path>) {
    exists i :: 0 <= i < |names| && BelowFile(disk, names[i])
  }

  predicate SomeBelowNonDir(disk: Index, names: seq<Path>) {
    exists i :: 0 <= i < |names| && BelowNonDir(disk, names[i])
  }

  predicate NamedThroughLink(disk: Index, names: seq<Path>, path: Path) {
    exists i :: 0 <= i < |names| && BelowLink(disk, names[i]) && names[i] <= path
  }

  /** What indexing named paths may come to. It fails where one lies below a file. Below a
      link it may fail, or find anything, as a link may lead anywhere; all else found is
      what the disk holds at or below a name. */
  ghost predicate MayIndex(disk: Index, names: seq<Path>, r: Result<Index>) {
    match r
    case Failure => SomeBelowNonDir(disk, names)
    case Success(index) =>
      && !SomeBelowFile(disk, names)
      && (forall path :: path in disk && Covered(names, path) ==> path in index && index[path] == disk[path])
      && (forall path :: path in index ==>
           (path in disk && Covered(names, path)) || NamedThroughLink(disk, names, path))
  }

  datatype Met = OnlyDirs | Missing | AFile | ALink

  /** What a lookup meets on its way to a path, before the path itself. */
  method WalkTo(disk: Index, path: Path) returns (met: Met)
    requires WellFormed(disk)
    ensures met.AFile? <==> BelowFile(disk, path)
    ensures met.ALink? <==> BelowLink(disk, path)
    ensures met.Missing? ==> path !in disk
  {
    var k := 1;
    while k < |path|
      invariant 1 <= k
      invariant forall j :: 0 < j < k && j < |path| ==> path[..j] in disk && disk[path[..j]].Dir?
    {
      if path[..k] !in disk {
        NothingBeyond(disk, path, k);
        return Missing;
      }
      if !disk[path[..k]].Dir? {
        NothingBeyond(disk, path, k);
        return if disk[path[..k]].File? then AFile else ALink;
      }
      k := k + 1;
    }
    return OnlyDirs;
  }

  lemma NothingBeyond(disk: Index, path: Path, k: nat)
    requires WellFormed(disk) && 0 < k < |path| && !(path[..k] in disk && disk[path[..k]].Dir?)
    ensures forall below :: path <= below ==> below !in disk
    ensures forall j :: k < j < |path| ==> path[..j] !in disk
  {
    forall below | path <= below
      ensures below !in disk
    {
      assert below[..k] == below[..|path|][..k] == path[..k];
    }
    forall j | k < j < |path|
      ensures path[..j] !in disk
    {
      assert path[..j][..k] == path[..k];
    }
  }

  function Under(disk: Index, name: Path): Index {
    map path | path in disk && name <= path :: disk[path]
  }

  lemma UnderNonDir(disk: Index, name: Path)
    requires WellFormed(disk) && name != [] && (name in disk ==> !disk[name].Dir?)
    ensures Under(disk, name) == if name in disk then map[name := disk[name]] else map[]
  {
    forall path
      ensures path in disk && name <= path ==> path == name
    {
      if path in disk && StrictlyBelow(path, name) {
        AncestorsAreDirs(disk, name, path);
      }
    }
  }

  /** Builds the index of the named paths: a directory's is its whole subtree, anything
      else's is the path alone, and what is not there has none. */
  method IndexScope(disk: Index, scope: Scope) returns (r: Result<Index>)
    requires WellFormed(disk)
    ensures MayIndex(disk, scope.Prefixes(), r)
  {
    hide BelowFile, BelowLink, BelowNonDir, Covered, MayIndex, WellFormed;
    var index: Index := map[];
    var names := scope.Prefixes();
    NothingNamed(disk);
    for i := 0 to |names|
      invariant MayIndex(disk, names[..i], Success(index))
    {
      var name := names[i];
      var met := WalkTo(disk, name);
      FailsBelowNonDirs(disk, names, i);
      var found: Index := map[];
      if met.AFile? {
        return Failure;
      } else if met.ALink? {
        var opens: bool, there: Index := *, *;
        if !opens {
          return Failure;
        }
        found := map path | path in there && name <= path :: there[path];
      } else if name == [] || (name in disk && disk[name].Dir?) {
        found := Under(disk, name);
      } else {
        UnderNonDir(disk, name);
        if name in disk {
          found := map[name := disk[name]];
        }
      }
      OneMoreName(disk, names, i, index, found);
      index := index + found;
    }
    assert names[..|names|] == names;
    return Success(index);
  }

  lemma NothingNamed(disk: Index)
    ensures MayIndex(disk, [], Success(map[])) && forall names: seq<Path> :: names[..0] == []
  {
  }

  lemma FailsBelowNonDirs(disk: Index, names: seq<Path>, i: nat)
    requires i < |names|
    ensures BelowFile(disk, names[i]) || BelowLink(disk, names[i]) ==> MayIndex(disk, names, Failure)
  {
  }

  lemma LinkedIsNotOnDisk(disk: Index, name: Path, path: Path)
    requires WellFormed(disk) && BelowLink(disk, name) && name <= path
    ensures path !in disk
  {
    var k :| 0 < k < |name| && name[..k] in disk && disk[name[..k]].Symlink?;
    NothingBeyond(disk, name, k);
  }

  lemma OneMoreName(disk: Index, names: seq<Path>, i: nat, before: Index, found: Index)
    requires WellFormed(disk) && i < |names| && MayIndex(disk, names[..i], Success(before))
    requires !BelowFile(disk, names[i])
    requires if BelowLink(disk, names[i]) then forall path :: path in found ==> names[i] <= path
      else found == Under(disk, names[i])
    ensures MayIndex(disk, names[..i + 1], Success(before + found))
  {
    hide BelowFile, BelowLink, WellFormed, Covered;
    var more := names[..i + 1];
    assert more[i] == names[i] && forall k :: 0 <= k < i ==> more[k] == names[..i][k];
    forall path
      ensures Covered(more, path) <==> Covered(names[..i], path) || names[i] <= path
      ensures NamedThroughLink(disk, names[..i], path) ==> NamedThroughLink(disk, more, path) && path !in disk
      ensures BelowLink(disk, names[i]) && names[i] <= path ==> NamedThroughLink(disk, more, path) && path !in disk
    {
      CoveredByOneMore(names, i, path);
      if NamedThroughLink(disk, names[..i], path) {
        var k :| 0 <= k < i && BelowLink(disk, names[..i][k]) && names[..i][k] <= path;
        assert more[k] == names[..i][k];
        LinkedIsNotOnDisk(disk, names[k], path);
      }
      if BelowLink(disk, names[i]) && names[i] <= path {
        LinkedIsNotOnDisk(disk, names[i], path);
      }
    }
  }

  lemma CoveredByOneMore(prefixes: seq<Path>, i: nat, path: Path)
    requires i < |prefixes|
    ensures Covered(prefixes[..i + 1], path) <==> Covered(prefixes[..i], path) || prefixes[i] <= path
  {
    var more := prefixes[..i + 1];
    assert more[i] == prefixes[i] && forall k :: 0 <= k < i ==> more[k] == prefixes[..i][k];
  }

  /** Indexing is sure to succeed, with exactly the disk's entries at or below the names,
      if and only if no name lies below anything but directories. */
  lemma IndexIsSureIff(disk: Index, names: seq<Path>)
    ensures (forall r :: MayIndex(disk, names, r) ==> r == Success(Restrict(disk, names))) <==>
      forall i :: 0 <= i < |names| ==> !BelowNonDir(disk, names[i])
  {
    if forall i :: 0 <= i < |names| ==> !BelowNonDir(disk, names[i]) {
      forall r | MayIndex(disk, names, r)
        ensures r == Success(Restrict(disk, names))
      {
        NoneIsLinked(disk, names);
        assert r.Success?;
        assert forall path :: path in r.value <==> path in disk && Covered(names, path);
        assert r.value == Restrict(disk, names);
      }
    } else {
      assert MayIndex(disk, names, Failure);
    }
  }

  lemma NoneIsLinked(disk: Index, names: seq<Path>)
    requires forall i :: 0 <= i < |names| ==> !BelowNonDir(disk, names[i])
    ensures forall path :: !NamedThroughLink(disk, names, path)
  {
    forall i | 0 <= i < |names|
      ensures !BelowLink(disk, names[i])
    {
      assert !BelowNonDir(disk, names[i]);
    }
  }

  /** One name below a file, and the whole index is lost, however many names there are. */
  lemma FileAboveLosesTheIndex(disk: Index, names: seq<Path>, i: nat, r: Result<Index>)
    requires i < |names| && BelowFile(disk, names[i]) && MayIndex(disk, names, r)
    ensures r.Failure?
  {
  }

  /** A directory replaced by a file, reported together with a path it held. */
  lemma ReplacedDirectoryLosesTheIndex(a: Bytes, b: Bytes, file: Entry, r: Result<Index>)
    requires file.File? && MayIndex(map[[a] := file], [[a], [a, b]], r)
    ensures r.Failure? && Restrict(map[[a] := file], [[a], [a, b]]) == map[[a] := file]
  {
    var disk, names := map[[a] := file], [[a], [a, b]];
    assert [a, b][..1] == [a];
    assert BelowFile(disk, names[1]);
    assert names[0] <= [a];
    assert Covered(names, [a]);
  }

  // ---------------------------------------------------------------------------
  // Incremental plans agree with full ones
  // ---------------------------------------------------------------------------

  /** A list without its adjacent repeats. */
  function WithoutRepeats(actions: seq<Action>): seq<Action> {
    if actions == [] then []
    else
      var n := |actions| - 1;
      if n > 0 && actions[n - 1] == actions[n] then WithoutRepeats(actions[..n])
      else WithoutRepeats(actions[..n]) + [actions[n]]
  }

  /** The named paths cover every place where the two trees differ. */
  ghost predicate CoversDifferences(source: Index, target: Index, prefixes: seq<Path>) {
    forall path :: Lookup(source, path) != Lookup(target, path) ==> Covered(prefixes, path)
  }

  lemma CalledWhereDifferent(source: Index, target: Index, config: Config, action: Action)
    requires Calls(source, target, config, action)
    ensures Lookup(source, action.At()) != Lookup(target, action.At())
  {
  }

  /** What is called for at a path depends on that path's entries alone. */
  lemma CallsAreLocal(source: Index, target: Index, source': Index, target': Index, config: Config, action: Action)
    requires Lookup(source, action.At()) == Lookup(source', action.At())
    requires Lookup(target, action.At()) == Lookup(target', action.At())
    ensures Calls(source, target, config, action) == Calls(source', target', config, action)
  {
    hide NeedsReplacing, NeedsMetadata;
    var path := action.At();
    assert path in source <==> path in source';
    assert path in target <==> path in target';
  }

  /** Sorted, and sorted so that only equal actions tie. */
  ghost predicate SortedUpToTies(actions: seq<Action>) {
    && SortedBy(PlanOrder(), actions)
    && forall x, y :: x in actions && y in actions && PlanOrder()(x, y) && PlanOrder()(y, x) ==> x == y
  }

  lemma LastIsNew(actions: seq<Action>, n: nat)
    requires SortedUpToTies(actions) && |actions| == n + 1 && n > 0 && actions[n - 1] != actions[n]
    ensures actions[n] !in actions[..n]
  {
    hide PlanOrder;
    assert PlanOrder()(actions[n - 1], actions[n]);
    assert forall k :: 0 <= k < n - 1 ==> PlanOrder()(actions[k], actions[n - 1]);
  }

  lemma StillSorted(kept: seq<Action>, before: seq<Action>, last: Action)
    requires SortedBy(PlanOrder(), kept) && SortedBy(PlanOrder(), before + [last])
    requires forall action :: action in kept ==> action in before
    ensures SortedBy(PlanOrder(), kept + [last])
  {
    hide PlanOrder;
    forall i | 0 <= i < |kept|
      ensures PlanOrder()(kept[i], last)
    {
      assert kept[i] in kept;
      var k :| 0 <= k < |before| && before[k] == kept[i];
      assert PlanOrder()((before + [last])[k], (before + [last])[|before|]);
    }
  }

  lemma OneMoreCounted(kept: seq<Action>, before: seq<Action>, last: Action)
    requires forall action :: multiset(kept)[action] == OneIf(action in before)
    ensures forall action :: action in kept ==> action in before
    ensures last in before ==> forall action :: multiset(kept)[action] == OneIf(action in before + [last])
    ensures last !in before ==> forall action :: multiset(kept + [last])[action] == OneIf(action in before + [last])
  {
    assert forall action :: action in kept <==> multiset(kept)[action] > 0;
  }

  lemma {:induction false} WithoutRepeatsKeeps(actions: seq<Action>)
    requires SortedUpToTies(actions)
    ensures SortedBy(PlanOrder(), WithoutRepeats(actions))
    ensures forall action :: multiset(WithoutRepeats(actions))[action] == OneIf(action in actions)
  {
    hide PlanOrder, OneIf;
    var n := |actions| - 1;
    if n < 0 {
      NothingCounted();
    } else {
      var before, last := actions[..n], actions[n];
      WithoutRepeatsKeeps(before);
      assert actions == before + [last];
      var kept := WithoutRepeats(before);
      OneMoreCounted(kept, before, last);
      if n > 0 && actions[n - 1] == last {
        assert before[n - 1] == last;
      } else {
        StillSorted(kept, before, last);
        if n > 0 {
          LastIsNew(actions, n);
        }
      }
    }
  }

  lemma NothingCounted()
    ensures forall action: Action :: multiset([])[action] == OneIf(action in [])
  {
  }

  /** When the named paths cover every place the trees differ, and each index holds
      exactly the entries at or below them, the incremental plan without its repeats
      is the full-tree plan, action for action and in order. */
  lemma IncrementalPlanIsFullPlan(xs: seq<Action>, ys: seq<Action>,
                                  source: Index, target: Index, scope: Scope, config: Config)
    requires CoversDifferences(source, target, scope.Prefixes())
    requires IsPlan(xs, Restrict(source, scope.Prefixes()), Restrict(target, scope.Prefixes()), scope, config)
    requires IsPlan(ys, source, target, Subtree([]), config)
    ensures WithoutRepeats(xs) == ys
  {
    hide Calls, SortedBy, PlanOrder, WithoutRepeats, CountUnder, Covered;
    var prefixes := scope.Prefixes();
    var source', target' := Restrict(source, prefixes), Restrict(target, prefixes);
    forall x, y | x in xs && y in xs && PlanOrder()(x, y) && PlanOrder()(y, x)
      ensures x == y
    {
      PlanOrderTies(x, y);
      PlannedIsCalled(xs, source', target', scope, config, x);
      PlannedIsCalled(xs, source', target', scope, config, y);
      CallsAreFunctional(source', target', config, x, y);
    }
    WithoutRepeatsKeeps(xs);
    forall action
      ensures multiset(WithoutRepeats(xs))[action] == multiset(ys)[action]
    {
      PlannedIsCalled(xs, source', target', scope, config, action);
      CountedIffCovered(prefixes, action.At());
      CountedOnce(action.At());
      if Covered(prefixes, action.At()) {
        CallsAreLocal(source, target, source', target', config, action);
      } else if Calls(source, target, config, action) {
        CalledWhereDifferent(source, target, config, action);
      }
    }
    assert multiset(WithoutRepeats(xs)) == multiset(ys);
    forall x, y | x in WithoutRepeats(xs) && y in WithoutRepeats(xs) && PlanOrder()(x, y) && PlanOrder()(y, x)
      ensures x == y
    {
      assert x in multiset(WithoutRepeats(xs)) && y in multiset(WithoutRepeats(xs));
    }
    SortedIsUnique(PlanOrder(), WithoutRepeats(xs), ys);
  }

  lemma CountedOnce(path: Path)
    ensures CountUnder(Subtree([]).Prefixes(), path) == 1
  {
    assert CountUnder([], path) == 0;
    assert Subtree([]).Prefixes()[..0] == [];
  }
}
