/** Two indexes compared, and the ordered list of actions that comes of it. */
module Reconcile {
  import opened Basics
  import opened Ordering

  datatype Metadata = Metadata(mode: Mode, uid: U32, gid: U32) {
    predicate DiffersFrom(other: Metadata, preserve: Preserve) {
      || (preserve.mode && mode != other.mode)
      || (preserve.ownership && (uid != other.uid || gid != other.gid))
    }
  }

  datatype Preserve = Preserve(mode: bool, ownership: bool)

  /** `mtime` is in nanoseconds from the epoch. A hash is present only when content
      verification was asked for. */
  datatype Entry =
    | File(size: nat, mtime: int, hash: Option<Digest>, meta: Metadata)
    | Dir(meta: Metadata)
    | Symlink(target: Bytes)
  {
    predicate DiffersFrom(other: Entry) {
      match (this, other)
      case (File(size, mtime, hash, _), File(size', mtime', hash', _)) =>
        if hash.Some? && hash'.Some? then hash != hash' else size != size' || mtime != mtime'
      case (Dir(_), Dir(_)) => false
      case (Symlink(target), Symlink(target')) => target != target'
      case _ => true
    }

    function Meta(): Option<Metadata> {
      if Symlink? then None else Some(meta)
    }
  }

  /** What indexing a tree yields, by relative path. */
  type Index = map<Path, Entry>

  function Lookup(index: Index, path: Path): Option<Entry> {
    if path in index then Some(index[path]) else None
  }

  datatype Action =
    | CreateDir(path: Path)
    | CopyFile(path: Path)
    | CreateSymlink(path: Path, target: Bytes)
    | Remove(path: Path)
    | Rename(from: Path, to: Path)
    | SetMetadata(path: Path, metadata: Metadata)
  {
    function At(): Path {
      if Rename? then to else path
    }

    /** Removals, then writes, then metadata. */
    function Group(): nat {
      if Remove? then 0 else if SetMetadata? then 2 else 1
    }
  }

  datatype Scope = Paths(paths: seq<Path>) | Subtree(prefix: Path) {
    function Prefixes(): seq<Path> {
      if Paths? then paths else [prefix]
    }
  }

  datatype Config = Config(delete: bool, preserve: Preserve)

  // ---------------------------------------------------------------------------
  // What the comparison of a path calls for
  // ---------------------------------------------------------------------------

  predicate NeedsReplacing(entry: Entry, existing: Option<Entry>) {
    existing.None? || entry.DiffersFrom(existing.value)
  }

  predicate NeedsMetadata(wanted: Metadata, existing: Option<Entry>, preserve: Preserve) {
    && (preserve.mode || preserve.ownership)
    && var current := if existing.Some? then existing.value.Meta() else None;
       current.None? || wanted.DiffersFrom(current.value, preserve)
  }

  /** The actions called for, one by one: a path the source lost, or whose kind has to
      give way; the source's entry where the target's is missing or differs; and its
      metadata where that is missing or differs. */
  predicate Calls(source: Index, target: Index, config: Config, action: Action) {
    match action
    case Remove(path) =>
      && config.delete && path in target
      && (path in source ==> source[path].DiffersFrom(target[path]) && source[path].Dir? != target[path].Dir?)
    case CreateDir(path) =>
      path in source && source[path].Dir? && NeedsReplacing(source[path], Lookup(target, path))
    case CopyFile(path) =>
      path in source && source[path].File? && NeedsReplacing(source[path], Lookup(target, path))
    case CreateSymlink(path, link) =>
      path in source && source[path] == Symlink(link) && NeedsReplacing(source[path], Lookup(target, path))
    case SetMetadata(path, metadata) =>
      && path in source && source[path].Meta() == Some(metadata)
      && NeedsMetadata(metadata, Lookup(target, path), config.preserve)
    case Rename(_, _) => false
  }

  /** Nothing is called for twice: an action is settled by its group and path. */
  lemma CallsAreFunctional(source: Index, target: Index, config: Config, a: Action, b: Action)
    requires Calls(source, target, config, a) && Calls(source, target, config, b)
    requires a.Group() == b.Group() && a.At() == b.At()
    ensures a == b
  {
  }

  // ---------------------------------------------------------------------------
  // The order of a plan
  // ---------------------------------------------------------------------------

  /** Shallower paths first, and paths of one depth in their own order. */
  predicate Shallower(a: Path, b: Path) {
    if |a| != |b| then |a| < |b| else PathOrder()(a, b)
  }

  lemma ShallowerIsTotalOrder(a: Path, b: Path, c: Path)
    ensures Shallower(a, b) || Shallower(b, a)
    ensures Shallower(a, b) && Shallower(b, a) ==> a == b
    ensures Shallower(a, b) && Shallower(b, c) ==> Shallower(a, c)
  {
    hide PathOrder;
    PathsAreOrdered();
    var leq := PathOrder();
    assert leq(a, b) || leq(b, a);
  }

  function ShallowestFirst(): Relation<Action> {
    (a: Action, b: Action) => Shallower(a.At(), b.At())
  }

  function DeepestFirst(): Relation<Action> {
    (a: Action, b: Action) => Shallower(b.At(), a.At())
  }

  /** One group after another, each in its own order. */
  function PlanOrder(): Relation<Action> {
    (a: Action, b: Action) =>
      if a.Group() != b.Group() then a.Group() < b.Group()
      else if a.Group() == 1 then Shallower(a.At(), b.At())
      else Shallower(b.At(), a.At())
  }

  lemma OrdersAreTotal()
    ensures TotalPreorder(ShallowestFirst()) && TotalPreorder(DeepestFirst()) && TotalPreorder(PlanOrder())
  {
    hide Shallower;
    forall a: Path, b: Path, c: Path
      ensures Shallower(a, b) || Shallower(b, a)
      ensures Shallower(a, b) && Shallower(b, c) ==> Shallower(a, c)
    {
      ShallowerIsTotalOrder(a, b, c);
    }
  }

  lemma PlanOrderTies(a: Action, b: Action)
    requires PlanOrder()(a, b) && PlanOrder()(b, a)
    ensures a.Group() == b.Group() && a.At() == b.At()
  {
    hide Shallower;
    ShallowerIsTotalOrder(a.At(), b.At(), b.At());
  }

  function OfGroup(actions: seq<Action>, group: nat): (r: seq<Action>)
    ensures forall action :: multiset(r)[action] == if action.Group() == group then multiset(actions)[action] else 0
  {
    if actions == [] then []
    else
      var n := |actions| - 1;
      assert actions == actions[..n] + [actions[n]];
      OfGroup(actions[..n], group) + if actions[n].Group() == group then [actions[n]] else []
  }

  /** Removals children-first, then writes parents-first, then metadata
      children-first, each sorted stably. */
  function Ordered(actions: seq<Action>): seq<Action> {
    StableSort(DeepestFirst(), OfGroup(actions, 0))
    + StableSort(ShallowestFirst(), OfGroup(actions, 1))
    + StableSort(DeepestFirst(), OfGroup(actions, 2))
  }

  lemma OnlyOfGroup(actions: seq<Action>, sorted: seq<Action>, group: nat)
    requires multiset(sorted) == multiset(OfGroup(actions, group))
    ensures forall i :: 0 <= i < |sorted| ==> sorted[i].Group() == group
  {
    forall i | 0 <= i < |sorted|
      ensures sorted[i].Group() == group
    {
      assert sorted[i] in multiset(sorted);
    }
  }

  /** Ordering loses nothing, adds nothing, and leaves the actions in plan order. */
  lemma OrderedIsSorted(actions: seq<Action>)
    ensures multiset(Ordered(actions)) == multiset(actions)
    ensures SortedBy(PlanOrder(), Ordered(actions))
  {
    hide StableSort, OfGroup, Shallower;
    OrdersAreTotal();
    var removals := StableSort(DeepestFirst(), OfGroup(actions, 0));
    var writes := StableSort(ShallowestFirst(), OfGroup(actions, 1));
    var metadata := StableSort(DeepestFirst(), OfGroup(actions, 2));
    StableSortSorts(DeepestFirst(), OfGroup(actions, 0));
    StableSortSorts(ShallowestFirst(), OfGroup(actions, 1));
    StableSortSorts(DeepestFirst(), OfGroup(actions, 2));
    OnlyOfGroup(actions, removals, 0);
    OnlyOfGroup(actions, writes, 1);
    OnlyOfGroup(actions, metadata, 2);
    forall action
      ensures multiset(Ordered(actions))[action] == multiset(actions)[action]
    {
      assert action.Group() <= 2;
    }
    GroupsInOrder(removals, writes, metadata);
  }

  lemma GroupsInOrder(removals: seq<Action>, writes: seq<Action>, metadata: seq<Action>)
    requires SortedBy(DeepestFirst(), removals) && SortedBy(ShallowestFirst(), writes)
    requires SortedBy(DeepestFirst(), metadata)
    requires forall i :: 0 <= i < |removals| ==> removals[i].Group() == 0
    requires forall i :: 0 <= i < |writes| ==> writes[i].Group() == 1
    requires forall i :: 0 <= i < |metadata| ==> metadata[i].Group() == 2
    ensures SortedBy(PlanOrder(), removals + writes + metadata)
  {
    hide Shallower;
    var all, r, w := removals + writes + metadata, |removals|, |writes|;
    forall i, j | 0 <= i < j < |all|
      ensures PlanOrder()(all[i], all[j])
    {
      var group := if j < r then 0 else if j < r + w then 1 else 2;
      assert all[j].Group() == group;
      if j < r {
        assert DeepestFirst()(removals[i], removals[j]);
      } else if r <= i && j < r + w {
        assert ShallowestFirst()(writes[i - r], writes[j - r]);
      } else if r + w <= i {
        assert DeepestFirst()(metadata[i - r - w], metadata[j - r - w]);
      }
    }
  }

  // ---------------------------------------------------------------------------
  // Planning
  // ---------------------------------------------------------------------------

  function OneIf(holds: bool): nat {
    if holds then 1 else 0
  }

  function CountUnder(prefixes: seq<Path>, path: Path): nat {
    if prefixes == [] then 0
    else
      var n := |prefixes| - 1;
      CountUnder(prefixes[..n], path) + if prefixes[n] <= path then 1 else 0
  }

  /** How often an action is planned: once for each named prefix its path lies at or
      below, if it is called for at all. */
  function Times(source: Index, target: Index, scope: Scope, config: Config, action: Action): nat {
    if Calls(source, target, config, action) then CountUnder(scope.Prefixes(), action.At()) else 0
  }

  ghost predicate IsPlan(actions: seq<Action>, source: Index, target: Index, scope: Scope, config: Config) {
    && (forall action :: multiset(actions)[action] == Times(source, target, scope, config, action))
    && SortedBy(PlanOrder(), actions)
  }

  function WantedMetadata(wanted: Option<Entry>, existing: Option<Entry>, path: Path, preserve: Preserve): seq<Action> {
    if wanted.Some? && wanted.value.Meta().Some? && NeedsMetadata(wanted.value.Meta().value, existing, preserve) then
      [SetMetadata(path, wanted.value.Meta().value)]
    else
      []
  }

  /** The write a source entry calls for. */
  function WriteOf(entry: Entry, path: Path): Action {
    match entry
    case Dir(_) => CreateDir(path)
    case File(_, _, _, _) => CopyFile(path)
    case Symlink(link) => CreateSymlink(path, link)
  }

  ghost predicate IsContent(source: Index, target: Index, path: Path, config: Config, content: seq<Action>) {
    var writes := path in source && NeedsReplacing(source[path], Lookup(target, path));
    var removes := config.delete && path in target
      && (path in source ==> writes && source[path].Dir? != target[path].Dir?);
    content == (if removes then [Remove(path)] else []) + (if writes then [WriteOf(source[path], path)] else [])
  }

  /** What is pushed for a path is what is called for there, each once. */
  lemma PushedOnce(source: Index, target: Index, path: Path, config: Config,
                   content: seq<Action>, metadata: seq<Action>)
    requires IsContent(source, target, path, config, content)
    requires metadata == WantedMetadata(Lookup(source, path), Lookup(target, path), path, config.preserve)
    ensures forall action :: (multiset(content + metadata)[action] ==
      OneIf(Calls(source, target, config, action) && action.At() == path))
  {
    hide NeedsMetadata, NeedsReplacing, Calls;
    var all := content + metadata;
    forall i, j | 0 <= i < j < |all|
      ensures all[i] != all[j]
    {
      assert all[i].Group() < all[j].Group();
    }
    CountsOfDistinct(all);
    forall action
      ensures action in all <==> Calls(source, target, config, action) && action.At() == path
    {
      ContentIsCalled(source, target, path, config, content, action);
      MetadataIsCalled(source, target, path, config, action);
    }
  }

  lemma ContentIsCalled(source: Index, target: Index, path: Path, config: Config, content: seq<Action>, action: Action)
    requires IsContent(source, target, path, config, content)
    ensures action in content <==> Calls(source, target, config, action) && action.At() == path && !action.SetMetadata?
  {
    hide NeedsMetadata;
  }

  lemma MetadataIsCalled(source: Index, target: Index, path: Path, config: Config, action: Action)
    ensures action in WantedMetadata(Lookup(source, path), Lookup(target, path), path, config.preserve)
       <==> Calls(source, target, config, action) && action.At() == path && action.SetMetadata?
  {
    hide NeedsMetadata;
  }

  lemma {:induction false} CountsOfDistinct(actions: seq<Action>)
    requires forall i, j :: 0 <= i < j < |actions| ==> actions[i] != actions[j]
    ensures forall action :: multiset(actions)[action] == OneIf(action in actions)
  {
    var n := |actions| - 1;
    if n >= 0 {
      CountsOfDistinct(actions[..n]);
      assert actions == actions[..n] + [actions[n]];
      assert actions[n] !in actions[..n];
    }
  }

  class Plan {
    var actions: seq<Action>

    constructor ()
      ensures actions == []
    {
      actions := [];
    }

    /** The list is replaced by its `Ordered` form, of which `OrderedIsSorted` says
        the rest. */
    method Order()
      modifies this
      ensures actions == Ordered(old(actions))
    {
      hide StableSort;
      var removals, writes, metadata := [], [], [];
      for i := 0 to |actions|
        invariant actions == old(actions)
        invariant removals == OfGroup(actions[..i], 0)
        invariant writes == OfGroup(actions[..i], 1)
        invariant metadata == OfGroup(actions[..i], 2)
      {
        assert actions[..i + 1][..i] == actions[..i];
        match actions[i].Group() {
          case 0 => removals := removals + [actions[i]];
          case 2 => metadata := metadata + [actions[i]];
          case _ => writes := writes + [actions[i]];
        }
      }
      assert actions[..|actions|] == actions;
      actions := StableSort(DeepestFirst(), removals)
               + StableSort(ShallowestFirst(), writes)
               + StableSort(DeepestFirst(), metadata);
    }

    /** Adds the actions that `Calls` has for this path, each once, and no others. */
    method PushComparison(source: Index, target: Index, path: Path, config: Config)
      modifies this
      ensures forall action :: (multiset(actions)[action] ==
        old(multiset(actions))[action] + OneIf(Calls(source, target, config, action) && action.At() == path))
    {
      hide Calls, WantedMetadata, IsContent, WriteOf;
      ghost var before := actions;
      ghost var content := PushContent(source, target, path, config);
      ghost var metadata := WantedMetadata(Lookup(source, path), Lookup(target, path), path, config.preserve);
      PushMetadata(Lookup(source, path), Lookup(target, path), path, config);
      assert actions == before + (content + metadata);
      PushedOnce(source, target, path, config, content, metadata);
    }

    method PushContent(source: Index, target: Index, path: Path, config: Config) returns (ghost content: seq<Action>)
      modifies this
      ensures IsContent(source, target, path, config, content) && actions == old(actions) + content
    {
      hide NeedsReplacing;
      var existing := Lookup(target, path);
      content := [];
      if path !in source {
        if existing.Some? && config.delete {
          actions := actions + [Remove(path)];
          content := [Remove(path)];
        }
      } else if NeedsReplacing(source[path], existing) {
        var entry := source[path];
        if existing.Some? && existing.value.Dir? != entry.Dir? && config.delete {
          actions := actions + [Remove(path)];
          content := [Remove(path)];
        }
        actions := actions + [WriteOf(entry, path)];
        content := content + [WriteOf(entry, path)];
      }
    }

    /** Adds at most one action, exactly where `NeedsMetadata` says. */
    method PushMetadata(wanted: Option<Entry>, existing: Option<Entry>, path: Path, config: Config)
      modifies this
      ensures actions == old(actions) + WantedMetadata(wanted, existing, path, config.preserve)
    {
      if !config.preserve.mode && !config.preserve.ownership {
        return;
      }
      if wanted.None? || wanted.value.Meta().None? {
        return;
      }
      var metadata := wanted.value.Meta().value;
      var current := if existing.Some? then existing.value.Meta() else None;
      if current.None? || metadata.DiffersFrom(current.value, config.preserve) {
        actions := actions + [SetMetadata(path, metadata)];
      }
    }

    /** Everything at or below one prefix, in whatever order the maps are walked. */
    method PushUnder(source: Index, target: Index, prefix: Path, config: Config)
      modifies this
      ensures forall action :: (multiset(actions)[action] ==
        old(multiset(actions))[action] + OneIf(Calls(source, target, config, action) && prefix <= action.At()))
    {
      hide Calls;
      ghost var before := multiset(actions);
      var left := source.Keys;
      while left != {}
        invariant left <= source.Keys
        invariant forall action :: multiset(actions)[action] == before[action] + OneIf(
          Calls(source, target, config, action) && prefix <= action.At() && action.At() in source.Keys - left)
        decreases |left|
      {
        var path :| path in left;
        left := left - {path};
        if prefix <= path {
          PushComparison(source, target, path, config);
        }
      }
      if config.delete {
        left := target.Keys;
        while left != {}
          invariant left <= target.Keys
          invariant forall action :: multiset(actions)[action] == before[action] + OneIf(
            Calls(source, target, config, action) && prefix <= action.At()
            && (action.At() in source || action.At() in target.Keys - left))
          decreases |left|
        {
          var path :| path in left;
          left := left - {path};
          if prefix <= path && path !in source {
            OnlyARemoval(source, target, config, path);
            actions := actions + [Remove(path)];
          }
        }
      }
      CalledForSomewhere(source, target, config);
    }
  }

  lemma OnlyARemoval(source: Index, target: Index, config: Config, path: Path)
    requires path in target && path !in source && config.delete
    ensures forall action :: Calls(source, target, config, action) && action.At() == path <==> action == Remove(path)
  {
  }

  lemma CalledForSomewhere(source: Index, target: Index, config: Config)
    ensures forall action :: Calls(source, target, config, action) ==>
      action.At() in source || (config.delete && action.At() in target)
  {
  }

  /** The plan of a comparison, whatever order the maps are walked in. */
  method MakePlan(source: Index, target: Index, scope: Scope, config: Config) returns (plan: Plan)
    ensures fresh(plan) && IsPlan(plan.actions, source, target, scope, config)
  {
    hide Calls, Ordered, SortedBy, PlanOrder;
    plan := new Plan();
    var prefixes := scope.Prefixes();
    for i := 0 to |prefixes|
      invariant fresh(plan)
      invariant forall action :: (multiset(plan.actions)[action] ==
        if Calls(source, target, config, action) then CountUnder(prefixes[..i], action.At()) else 0)
    {
      plan.PushUnder(source, target, prefixes[i], config);
      assert prefixes[..i + 1][..i] == prefixes[..i];
    }
    assert prefixes[..|prefixes|] == prefixes;
    OrderedIsSorted(plan.actions);
    plan.Order();
  }
}
