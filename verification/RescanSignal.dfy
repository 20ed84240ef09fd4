/** The scope of what has been lost, and when it is owed. Paths here are absolute:
    `[]` is the filesystem's root. */
module RescanSignal {
  import opened Basics

  datatype Scope = Clean | Subtree(directory: Path) | Everything

  /** What was lost: something inside one directory, or nobody knows what. */
  datatype Loss = Within(directory: Path) | Unbounded

  function CommonPrefix(a: Path, b: Path): Path {
    if a != [] && b != [] && a[0] == b[0] then [a[0]] + CommonPrefix(a[1..], b[1..]) else []
  }

  lemma PrefixOfCons(p: Path, head: Bytes, tail: Path)
    ensures p <= [head] + tail <==> p == [] || (p[0] == head && p[1..] <= tail)
  {
    if p != [] && p[0] == head && p[1..] <= tail {
      assert p == [p[0]] + p[1..];
    }
    if p != [] && p <= [head] + tail {
      assert p[1..] == ([head] + tail)[1..|p|];
    }
  }

  /** The directories containing both paths are those containing their common prefix,
      so it is the deepest of them. */
  lemma {:induction false} CommonPrefixIsMeet(a: Path, b: Path, p: Path)
    ensures p <= CommonPrefix(a, b) <==> p <= a && p <= b
  {
    if a != [] && b != [] && a[0] == b[0] {
      if p != [] {
        CommonPrefixIsMeet(a[1..], b[1..], p[1..]);
      }
      assert a == [a[0]] + a[1..] && b == [b[0]] + b[1..];
      PrefixOfCons(p, a[0], a[1..]);
      PrefixOfCons(p, a[0], b[1..]);
      PrefixOfCons(p, a[0], CommonPrefix(a[1..], b[1..]));
    }
  }

  /** Finds the common prefix component by component. */
  method CommonAncestor(a: Path, b: Path) returns (shared: Path)
    ensures shared == CommonPrefix(a, b)
  {
    shared := [];
    var k := 0;
    while k < |a| && k < |b|
      invariant k <= |a| && k <= |b|
      invariant CommonPrefix(a, b) == shared + CommonPrefix(a[k..], b[k..])
    {
      if a[k] != b[k] {
        break;
      }
      assert a[k..][1..] == a[k + 1..] && b[k..][1..] == b[k + 1..];
      shared := shared + [a[k]];
      k := k + 1;
    }
  }

  function Widened(scope: Scope, directory: Path): Scope {
    match scope
    case Clean => Subtree(directory)
    case Subtree(existing) => Subtree(CommonPrefix(existing, directory))
    case Everything => Everything
  }

  /** The directory a path is in; the filesystem's root is in itself. */
  function Containing(path: Path): Path {
    if path == [] then path else path[..|path| - 1]
  }

  /** The directory to walk for a scope, never outside `root`. */
  function WalkFor(scope: Scope, root: Path): Path {
    if scope.Subtree? && root <= scope.directory then scope.directory else root
  }

  // ---------------------------------------------------------------------------
  // What the scope stands for
  // ---------------------------------------------------------------------------

  /** Every directory lost in lies at or below `p`. */
  ghost predicate AllBelow(losses: seq<Loss>, p: Path) {
    forall i :: 0 <= i < |losses| ==> losses[i].Within? && p <= losses[i].directory
  }

  /** The scope owed for some losses: none for none, everything if one is unbounded, and
      otherwise the longest common prefix of the directories. */
  ghost predicate Covers(scope: Scope, losses: seq<Loss>) {
    if losses == [] then scope == Clean
    else if Unbounded in losses then scope == Everything
    else scope.Subtree? && forall p :: p <= scope.directory <==> AllBelow(losses, p)
  }

  /** The scope owed does not depend on the order of the losses, nor on repeats. */
  lemma OrderDoesNotMatter(scope: Scope, losses: seq<Loss>, scope': Scope, losses': seq<Loss>)
    requires Covers(scope, losses) && Covers(scope', losses')
    requires forall loss :: loss in losses <==> loss in losses'
    ensures scope == scope'
  {
    SomeInBoth(losses, losses');
    SomeInBoth(losses', losses);
    if scope.Subtree? {
      SameBelow(losses, losses', scope.directory);
      SameBelow(losses, losses', scope'.directory);
      assert scope.directory <= scope'.directory && scope'.directory <= scope.directory;
    }
  }

  lemma SomeInBoth(losses: seq<Loss>, losses': seq<Loss>)
    requires forall loss :: loss in losses <==> loss in losses'
    ensures losses != [] ==> losses' != []
  {
    if losses != [] {
      assert losses[0] in losses;
    }
  }

  lemma SameBelow(losses: seq<Loss>, losses': seq<Loss>, p: Path)
    requires forall loss :: loss in losses <==> loss in losses'
    ensures AllBelow(losses, p) <==> AllBelow(losses', p)
  {
    assert AllBelow(losses, p) <==> forall loss :: loss in losses ==> loss.Within? && p <= loss.directory;
    assert AllBelow(losses', p) <==> forall loss :: loss in losses' ==> loss.Within? && p <= loss.directory;
  }

  lemma WidenedCovers(scope: Scope, losses: seq<Loss>, directory: Path)
    requires Covers(scope, losses)
    ensures Covers(Widened(scope, directory), losses + [Within(directory)])
  {
    var more := losses + [Within(directory)];
    assert forall loss :: loss in more <==> loss in losses || loss == Within(directory);
    if Unbounded !in losses {
      forall p
        ensures p <= Widened(scope, directory).directory <==> AllBelow(more, p)
      {
        assert AllBelow(more, p) <==> AllBelow(losses, p) && p <= directory by {
          assert more[|losses|] == Within(directory);
          assert forall i :: 0 <= i < |losses| ==> more[i] == losses[i];
        }
        if scope.Subtree? {
          CommonPrefixIsMeet(scope.directory, directory, p);
        }
      }
    }
  }

  /** The walk reaches everything that was lost inside the root. */
  lemma WalkReachesLosses(scope: Scope, losses: seq<Loss>, root: Path, loss: Loss)
    requires Covers(scope, losses) && loss in losses
    ensures root <= WalkFor(scope, root)
    ensures loss.Unbounded? ==> WalkFor(scope, root) == root
    ensures loss.Within? && root <= loss.directory ==> WalkFor(scope, root) <= loss.directory
  {
    if scope.Subtree? && loss.Within? {
      assert scope.directory <= scope.directory;
      assert AllBelow(losses, scope.directory);
    }
  }

  class RescanSignal {
    var pending: bool
    var scope: Scope
    /** What has been lost since the signal was last taken. */
    ghost var losses: seq<Loss>

    ghost predicate Valid()
      reads this
    {
      Covers(scope, losses) && (pending <==> losses != [])
    }

    constructor ()
      ensures Valid() && losses == []
    {
      pending, scope, losses := false, Clean, [];
    }

    /** Adds the loss of whatever else is in the path's directory, too: that is what
        can still be listed. */
    method Lost(path: Path)
      requires Valid()
      modifies this
      ensures Valid() && losses == old(losses) + [Within(if path == [] then [] else path[..|path| - 1])]
      ensures scope == Widened(old(scope), Containing(path))
    {
      Widen(Containing(path));
    }

    /** Adds a loss in this very directory. */
    method LostUnder(directory: Path)
      requires Valid()
      modifies this
      ensures Valid() && losses == old(losses) + [Within(directory)]
      ensures scope == Widened(old(scope), directory)
    {
      Widen(directory);
    }

    method Widen(directory: Path)
      requires Valid()
      modifies this
      ensures Valid() && losses == old(losses) + [Within(directory)]
      ensures scope == Widened(old(scope), directory)
    {
      WidenedCovers(scope, losses, directory);
      match scope {
        case Clean => scope := Subtree(directory);
        case Subtree(existing) =>
          var shared := CommonAncestor(existing, directory);
          scope := Subtree(shared);
        case Everything =>
      }
      losses := losses + [Within(directory)];
      pending := true;
    }

    /** Adds a loss that no directory bounds. */
    method LostEverything()
      requires Valid()
      modifies this
      ensures Valid() && losses == old(losses) + [Unbounded]
      ensures scope == Everything
    {
      losses := losses + [Unbounded];
      scope := Everything;
      pending := true;
    }

    /** Settles all losses at once: the result contains every one of them inside `root`, and
        is the deepest directory that does. */
    method Take(root: Path) returns (directory: Path)
      requires Valid()
      modifies this
      ensures Valid() && losses == []
      ensures directory == WalkFor(old(scope), root) && root <= directory
      ensures forall loss :: loss in old(losses) && loss.Within? && root <= loss.directory ==>
        directory <= loss.directory
      ensures Unbounded in old(losses) ==> directory == root
      ensures old(losses) != [] ==>
        forall p :: AllBelow(old(losses), p) && root <= p ==> p <= directory
    {
      forall loss | loss in losses
        ensures loss.Unbounded? ==> WalkFor(scope, root) == root
        ensures loss.Within? && root <= loss.directory ==> WalkFor(scope, root) <= loss.directory
      {
        WalkReachesLosses(scope, losses, root, loss);
      }
      var taken := scope;
      scope, pending, losses := Clean, false, [];
      match taken {
        case Subtree(path) => directory := if root <= path then path else root;
        case _ => directory := root;
      }
    }
  }
}
