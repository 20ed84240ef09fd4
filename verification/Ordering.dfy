/** Orders and stable sorting, as the plan uses them. */
module Ordering {
  import opened Basics

  type Relation<!T> = (T, T) -> bool

  /** Every two elements compare, and comparing is transitive. */
  ghost predicate TotalPreorder<T(!new)>(leq: Relation<T>) {
    && (forall x, y :: leq(x, y) || leq(y, x))
    && (forall x, y, z :: leq(x, y) && leq(y, z) ==> leq(x, z))
  }

  ghost predicate TotalOrder<T(!new)>(leq: Relation<T>) {
    TotalPreorder(leq) && forall x, y :: leq(x, y) && leq(y, x) ==> x == y
  }

  // ---------------------------------------------------------------------------
  // Lexicographic order
  // ---------------------------------------------------------------------------

  predicate LexLeq<T(==)>(leq: Relation<T>, a: seq<T>, b: seq<T>) {
    || a == []
    || (b != [] && if a[0] == b[0] then LexLeq(leq, a[1..], b[1..]) else leq(a[0], b[0]))
  }

  lemma {:induction false} LexTotal<T(!new)>(leq: Relation<T>, a: seq<T>, b: seq<T>)
    requires TotalOrder(leq)
    ensures LexLeq(leq, a, b) || LexLeq(leq, b, a)
  {
    if a != [] && b != [] && a[0] == b[0] {
      LexTotal(leq, a[1..], b[1..]);
    }
  }

  lemma {:induction false} LexTransitive<T(!new)>(leq: Relation<T>, a: seq<T>, b: seq<T>, c: seq<T>)
    requires TotalOrder(leq) && LexLeq(leq, a, b) && LexLeq(leq, b, c)
    ensures LexLeq(leq, a, c)
  {
    if a != [] && a[0] == b[0] == c[0] {
      LexTransitive(leq, a[1..], b[1..], c[1..]);
    }
  }

  lemma {:induction false} LexAntisymmetric<T(!new)>(leq: Relation<T>, a: seq<T>, b: seq<T>)
    requires TotalOrder(leq) && LexLeq(leq, a, b) && LexLeq(leq, b, a)
    ensures a == b
  {
    if a != [] {
      LexAntisymmetric(leq, a[1..], b[1..]);
      assert a == [a[0]] + a[1..] && b == [b[0]] + b[1..];
    }
  }

  /** The lexicographic order over a total order is one itself. */
  lemma LexIsTotalOrder<T(!new)>(leq: Relation<T>, lex: Relation<seq<T>>)
    requires TotalOrder(leq) && forall a, b :: lex(a, b) == LexLeq(leq, a, b)
    ensures TotalOrder(lex)
  {
    forall a, b
      ensures lex(a, b) || lex(b, a)
      ensures lex(a, b) && lex(b, a) ==> a == b
    {
      LexTotal(leq, a, b);
      if lex(a, b) && lex(b, a) {
        LexAntisymmetric(leq, a, b);
      }
    }
    forall a, b, c | lex(a, b) && lex(b, c)
      ensures lex(a, c)
    {
      LexTransitive(leq, a, b, c);
    }
  }

  /** Up to some place the two agree, and there the one has the lesser item. */
  ghost predicate LessAt<T>(leq: Relation<T>, a: seq<T>, b: seq<T>, k: nat) {
    k < |a| && k < |b| && a[..k] == b[..k] && a[k] != b[k] && leq(a[k], b[k])
  }

  lemma AgreeFromTheFirst<T>(a: seq<T>, b: seq<T>)
    requires a != [] && b != []
    ensures forall k :: 0 < k <= |a| && k <= |b| && a[..k] == b[..k] ==> a[0] == b[0]
  {
    forall k | 0 < k <= |a| && k <= |b| && a[..k] == b[..k]
      ensures a[0] == b[0]
    {
      assert a[..k][0] == b[..k][0];
    }
  }

  /** The lexicographic order: the beginning of the other, or less where they first part. */
  lemma {:induction false} LexIff<T(!new)>(leq: Relation<T>, a: seq<T>, b: seq<T>)
    ensures LexLeq(leq, a, b) <==> a <= b || exists k: nat :: LessAt(leq, a, b, k)
  {
    if a == [] || b == [] {
    } else if a[0] != b[0] {
      AgreeFromTheFirst(a, b);
      if leq(a[0], b[0]) {
        assert LessAt(leq, a, b, 0);
      }
    } else {
      LexIff(leq, a[1..], b[1..]);
      assert a == [a[0]] + a[1..] && b == [b[0]] + b[1..];
      if k: nat :| LessAt(leq, a[1..], b[1..], k) {
        assert a[..k + 1] == [a[0]] + a[1..][..k] && b[..k + 1] == [b[0]] + b[1..][..k];
        assert LessAt(leq, a, b, k + 1);
      }
      if k: nat :| LessAt(leq, a, b, k) {
        assert k > 0;
        assert a[..k][1..] == a[1..][..k - 1] && b[..k][1..] == b[1..][..k - 1];
        assert LessAt(leq, a[1..], b[1..], k - 1);
      }
    }
  }

  // ---------------------------------------------------------------------------
  // Paths
  // ---------------------------------------------------------------------------

  function ByteOrder(): Relation<Byte> {
    (a: Byte, b: Byte) => a <= b
  }

  function NameOrder(): Relation<Bytes> {
    (a: Bytes, b: Bytes) => LexLeq(ByteOrder(), a, b)
  }

  /** Paths compare component by component, and components byte by byte. */
  function PathOrder(): Relation<Path> {
    (a: Path, b: Path) => LexLeq(NameOrder(), a, b)
  }

  lemma PathsAreOrdered()
    ensures TotalOrder(PathOrder())
  {
    assert TotalOrder(ByteOrder());
    LexIsTotalOrder(ByteOrder(), NameOrder());
    LexIsTotalOrder(NameOrder(), PathOrder());
  }

  /** One name before another: its beginning, or less at the first byte in which they part. */
  ghost predicate NameBefore(a: Bytes, b: Bytes) {
    a <= b || exists k: nat :: k < |a| && k < |b| && a[..k] == b[..k] && a[k] < b[k]
  }

  /** One path comes before another as a directory above it, or where they part by the name
      that does. */
  lemma PathOrderIff(a: Path, b: Path)
    ensures PathOrder()(a, b) <==>
      a <= b || exists k: nat :: k < |a| && k < |b| && a[..k] == b[..k] && a[k] != b[k] && NameBefore(a[k], b[k])
  {
    hide NameBefore, LexLeq;
    LexIff(NameOrder(), a, b);
    forall k: nat | k < |a| && k < |b|
      ensures NameOrder()(a[k], b[k]) <==> NameBefore(a[k], b[k])
    {
      NameOrderIff(a[k], b[k]);
    }
    if k: nat :| LessAt(NameOrder(), a, b, k) {
      assert NameBefore(a[k], b[k]);
    }
    if k: nat :| k < |a| && k < |b| && a[..k] == b[..k] && a[k] != b[k] && NameBefore(a[k], b[k]) {
      assert LessAt(NameOrder(), a, b, k);
    }
  }

  lemma NameOrderIff(a: Bytes, b: Bytes)
    ensures NameOrder()(a, b) <==> NameBefore(a, b)
  {
    hide LexLeq;
    LexIff(ByteOrder(), a, b);
    if k: nat :| LessAt(ByteOrder(), a, b, k) {
      assert a[k] < b[k];
    }
    if k: nat :| k < |a| && k < |b| && a[..k] == b[..k] && a[k] < b[k] {
      assert LessAt(ByteOrder(), a, b, k);
    }
  }

  // ---------------------------------------------------------------------------
  // Stable sorting
  // ---------------------------------------------------------------------------

  ghost predicate SortedBy<T>(leq: Relation<T>, items: seq<T>) {
    forall i, j :: 0 <= i < j < |items| ==> leq(items[i], items[j])
  }

  /** Puts an item after everything it does not precede strictly. */
  function InsertStably<T>(leq: Relation<T>, items: seq<T>, item: T): seq<T> {
    if items == [] then [item]
    else
      var n := |items| - 1;
      if leq(items[n], item) then items + [item]
      else InsertStably(leq, items[..n], item) + [items[n]]
  }

  function StableSort<T>(leq: Relation<T>, items: seq<T>): seq<T> {
    if items == [] then []
    else InsertStably(leq, StableSort(leq, items[..|items| - 1]), items[|items| - 1])
  }

  lemma {:induction false} InsertKeepsItems<T>(leq: Relation<T>, items: seq<T>, item: T)
    ensures multiset(InsertStably(leq, items, item)) == multiset(items) + multiset{item}
  {
    var n := |items| - 1;
    if n >= 0 {
      assert items == items[..n] + [items[n]];
      if !leq(items[n], item) {
        InsertKeepsItems(leq, items[..n], item);
      }
    }
  }

  lemma {:induction false} InsertKeepsOrder<T(!new)>(leq: Relation<T>, items: seq<T>, item: T)
    requires TotalPreorder(leq) && SortedBy(leq, items)
    ensures SortedBy(leq, InsertStably(leq, items, item))
  {
    var n := |items| - 1;
    if n >= 0 {
      if leq(items[n], item) {
        assert forall i :: 0 <= i < n ==> leq(items[i], items[n]);
      } else {
        InsertKeepsOrder(leq, items[..n], item);
        InsertKeepsItems(leq, items[..n], item);
        var inserted := InsertStably(leq, items[..n], item);
        forall i | 0 <= i < |inserted|
          ensures leq(inserted[i], items[n])
        {
          assert inserted[i] in multiset(inserted);
          assert inserted[i] in multiset(items[..n]) || inserted[i] == item;
        }
      }
    }
  }

  lemma {:induction false} StableSortSorts<T(!new)>(leq: Relation<T>, items: seq<T>)
    requires TotalPreorder(leq)
    ensures SortedBy(leq, StableSort(leq, items))
    ensures multiset(StableSort(leq, items)) == multiset(items)
  {
    var n := |items| - 1;
    if n >= 0 {
      StableSortSorts(leq, items[..n]);
      InsertKeepsOrder(leq, StableSort(leq, items[..n]), items[n]);
      InsertKeepsItems(leq, StableSort(leq, items[..n]), items[n]);
      assert items == items[..n] + [items[n]];
    }
  }

  lemma TailItems<T>(items: seq<T>)
    requires items != []
    ensures multiset(items[1..]) == multiset(items) - multiset{items[0]}
  {
    assert items == [items[0]] + items[1..];
  }

  lemma HeadLeads<T>(leq: Relation<T>, items: seq<T>, item: T)
    requires SortedBy(leq, items) && item in items
    ensures item == items[0] || leq(items[0], item)
  {
    var i :| 0 <= i < |items| && items[i] == item;
  }

  /** A list sorted by an order in which ties are equal is settled by what it holds. */
  lemma {:induction false} SortedIsUnique<T(!new)>(leq: Relation<T>, xs: seq<T>, ys: seq<T>)
    requires SortedBy(leq, xs) && SortedBy(leq, ys) && multiset(xs) == multiset(ys)
    requires forall x, y :: x in xs && y in xs && leq(x, y) && leq(y, x) ==> x == y
    ensures xs == ys
  {
    assert |multiset(xs)| == |xs| == |ys| == |multiset(ys)|;
    if xs != [] {
      assert xs[0] in multiset(ys) && ys[0] in multiset(xs);
      HeadLeads(leq, xs, ys[0]);
      HeadLeads(leq, ys, xs[0]);
      TailItems(xs);
      TailItems(ys);
      SortedIsUnique(leq, xs[1..], ys[1..]);
      assert xs == [xs[0]] + xs[1..] && ys == [ys[0]] + ys[1..];
    }
  }
}
