/** What the matcher's token stream should be, said without a buffer, a rolling
    checksum or a read size: slide a window over the source, reuse the first block
    that matches, otherwise keep one byte and move on. */
module GreedyScan {
  import opened Basics
  import opened Rolling
  import opened Signature
  import opened Tokens

  /** The lowest index below `n` at which `holds`. */
  function First(n: nat, holds: nat -> bool): (r: Option<nat>)
    ensures r.Some? ==> r.value < n && holds(r.value) && forall i: nat :: i < r.value ==> !holds(i)
    ensures r.None? ==> forall i: nat :: i < n ==> !holds(i)
  {
    if n == 0 then None
    else
      var before := First(n - 1, holds);
      if before.Some? then before else if holds(n - 1) then Some(n - 1) else None
  }

  /** How a window is looked up: the block of the target it reproduces, if any. */
  type Lookup = Bytes -> Option<nat>

  /** A hit under both checksums. */
  predicate Hit(signature: Signature, window: Bytes, strong: Hash, i: nat) {
    && i < |signature.blocks|
    && signature.blocks[i] == SigOf(window, strong)
  }

  /** The lookup the matcher makes, in the target's signature. */
  function BySignature(signature: Signature, strong: Hash): Lookup {
    window => First(|signature.blocks|, (i: nat) => Hit(signature, window, strong, i))
  }

  /** The signature lookup names the lowest index hit under both checksums. */
  lemma LowestHit(signature: Signature, strong: Hash, window: Bytes)
    ensures var found := BySignature(signature, strong)(window);
            if found.Some? then
              && Hit(signature, window, strong, found.value)
              && forall i: nat :: i < found.value ==> !Hit(signature, window, strong, i)
            else
              forall i: nat :: i < |signature.blocks| ==> !Hit(signature, window, strong, i)
  {
    var holds := (i: nat) => Hit(signature, window, strong, i);
    assert forall i: nat :: holds(i) == Hit(signature, window, strong, i);
  }

  predicate SameBlock(existing: Bytes, blockSize: nat, window: Bytes, i: nat) {
    (i + 1) * blockSize <= |existing| && Block(existing, blockSize, i) == window
  }

  /** The naive lookup: compare the window with every block of the target. */
  function ByContent(existing: Bytes, blockSize: nat): Lookup
    requires blockSize > 0
  {
    window => First(|existing| / blockSize, (i: nat) => SameBlock(existing, blockSize, window, i))
  }

  /** Appends a reused block, extending the last copy when the two are adjacent in
      the target. */
  function PushBlock(tokens: seq<Token>, blockSize: nat, i: nat): seq<Token> {
    var n := |tokens| - 1;
    if n >= 0 && tokens[n].Copy? && tokens[n].offset + tokens[n].len == i * blockSize then
      tokens[..n] + [Copy(tokens[n].offset, tokens[n].len + blockSize)]
    else
      tokens + [Copy(i * blockSize, blockSize)]
  }

  function Window(source: Bytes, at: nat, blockSize: nat): Bytes
    requires at + blockSize <= |source|
  {
    source[at..at + blockSize]
  }

  function ScanFrom(tokens: seq<Token>, source: Bytes, at: nat, blockSize: nat, lookup: Lookup): seq<Token>
    requires blockSize > 0 && at <= |source|
    decreases |source| - at
  {
    if |source| - at < blockSize then
      if at < |source| then Push(tokens, Literal(source[at..])) else tokens
    else
      var found := lookup(Window(source, at, blockSize));
      if found.Some? then
        ScanFrom(PushBlock(tokens, blockSize, found.value), source, at + blockSize, blockSize, lookup)
      else
        ScanFrom(Push(tokens, Literal([source[at]])), source, at + 1, blockSize, lookup)
  }

  /** The whole greedy scan. */
  function Scan(source: Bytes, blockSize: nat, lookup: Lookup): seq<Token>
    requires blockSize > 0
  {
    ScanFrom([], source, 0, blockSize, lookup)
  }

  // ---------------------------------------------------------------------------
  // The scan rebuilds the source
  // ---------------------------------------------------------------------------

  ghost predicate SoundFor(lookup: Lookup, window: Bytes, existing: Bytes, blockSize: nat) {
    lookup(window).Some? ==> SameBlock(existing, blockSize, window, lookup(window).value)
  }

  /** A lookup that only ever names a block equal to the window. */
  ghost predicate Sound(lookup: Lookup, source: Bytes, existing: Bytes, blockSize: nat) {
    forall at: nat :: at + blockSize <= |source| ==>
      SoundFor(lookup, Window(source, at, blockSize), existing, blockSize)
  }

  lemma SliceJoins(bytes: Bytes, i: nat, j: nat, k: nat)
    requires i <= j <= k <= |bytes|
    ensures bytes[i..j] + bytes[j..k] == bytes[i..k]
  {
  }

  lemma CopyExtends(copy: Token, blockSize: nat, i: nat, window: Bytes, existing: Bytes)
    requires copy.Copy? && copy.offset + copy.len == i * blockSize && SameBlock(existing, blockSize, window, i)
    ensures Copy(copy.offset, copy.len + blockSize).Produce(existing) == Plus(copy.Produce(existing), Some(window))
  {
    BlockFits(existing, blockSize, i);
    SliceJoins(existing, copy.offset, copy.offset + copy.len, copy.offset + copy.len + blockSize);
  }

  lemma PushBlockKeepsMeaning(tokens: seq<Token>, blockSize: nat, i: nat, window: Bytes, existing: Bytes)
    requires SameBlock(existing, blockSize, window, i)
    ensures Rebuild(PushBlock(tokens, blockSize, i), existing) == Plus(Rebuild(tokens, existing), Some(window))
  {
    var n := |tokens| - 1;
    if n >= 0 && tokens[n].Copy? && tokens[n].offset + tokens[n].len == i * blockSize {
      CopyExtends(tokens[n], blockSize, i, window, existing);
      RebuildOneMore(tokens[..n], Copy(tokens[n].offset, tokens[n].len + blockSize), existing);
      PlusAssociates(Rebuild(tokens[..n], existing), tokens[n].Produce(existing), Some(window));
    } else {
      BlockFits(existing, blockSize, i);
      RebuildOneMore(tokens, Copy(i * blockSize, blockSize), existing);
    }
  }

  /** A token that stands for the next `width` bytes carries the rebuilt prefix on. */
  lemma LiteralTurn(tokens: seq<Token>, source: Bytes, at: nat, width: nat, existing: Bytes)
    requires at + width <= |source| && Rebuild(tokens, existing) == Some(source[..at])
    ensures Rebuild(Push(tokens, Literal(source[at..at + width])), existing) == Some(source[..at + width])
  {
    PushKeepsMeaning(tokens, Literal(source[at..at + width]), existing);
    assert source[..at] + source[at..at + width] == source[..at + width];
  }

  lemma BlockTurn(tokens: seq<Token>, source: Bytes, at: nat, blockSize: nat, i: nat, existing: Bytes)
    requires at + blockSize <= |source| && Rebuild(tokens, existing) == Some(source[..at])
    requires SameBlock(existing, blockSize, Window(source, at, blockSize), i)
    ensures Rebuild(PushBlock(tokens, blockSize, i), existing) == Some(source[..at + blockSize])
  {
    PushBlockKeepsMeaning(tokens, blockSize, i, Window(source, at, blockSize), existing);
    assert source[..at] + source[at..at + blockSize] == source[..at + blockSize];
  }

  lemma TailTurn(tokens: seq<Token>, source: Bytes, at: nat, blockSize: nat, lookup: Lookup, existing: Bytes)
    requires at <= |source| < at + blockSize && Rebuild(tokens, existing) == Some(source[..at])
    ensures Rebuild(ScanFrom(tokens, source, at, blockSize, lookup), existing) == Some(source)
  {
    LiteralTurn(tokens, source, at, |source| - at, existing);
    assert source[..|source|] == source && source[at..|source|] == source[at..];
  }

  lemma {:induction false} ScanFromRebuilds(
      tokens: seq<Token>, source: Bytes, at: nat, blockSize: nat, lookup: Lookup, existing: Bytes)
    requires blockSize > 0 && at <= |source| && Sound(lookup, source, existing, blockSize)
    requires Rebuild(tokens, existing) == Some(source[..at])
    ensures Rebuild(ScanFrom(tokens, source, at, blockSize, lookup), existing) == Some(source)
    decreases |source| - at
  {
    hide Rebuild, Push, PushBlock, SameBlock, Window;
    if |source| - at < blockSize {
      TailTurn(tokens, source, at, blockSize, lookup, existing);
    } else {
      var found := lookup(Window(source, at, blockSize));
      if found.Some? {
        assert SoundFor(lookup, Window(source, at, blockSize), existing, blockSize);
        BlockTurn(tokens, source, at, blockSize, found.value, existing);
        var next := PushBlock(tokens, blockSize, found.value);
        ScanFromRebuilds(next, source, at + blockSize, blockSize, lookup, existing);
      } else {
        LiteralTurn(tokens, source, at, 1, existing);
        assert source[at..at + 1] == [source[at]];
        ScanFromRebuilds(Push(tokens, Literal([source[at]])), source, at + 1, blockSize, lookup, existing);
      }
    }
  }

  // ---------------------------------------------------------------------------
  // The scan only ever adds
  // ---------------------------------------------------------------------------

  /** The same tokens as far as they go, except that the last may have grown since. */
  ghost predicate Grows(front: seq<Token>, whole: seq<Token>) {
    var n := |front| - 1;
    && |front| <= |whole|
    && (forall i :: 0 <= i < n ==> front[i] == whole[i])
    && (n >= 0 ==> GrowsInto(front[n], whole[n]))
  }

  predicate GrowsInto(part: Token, token: Token) {
    || part == token || CutShort(part, token)
    || (part.Copy? && token.Copy? && part.offset == token.offset && part.len <= token.len)
  }

  lemma GrowsOn(a: seq<Token>, b: seq<Token>, c: seq<Token>)
    requires Grows(a, b) && Grows(b, c)
    ensures Grows(a, c)
  {
  }

  lemma TurnGrows(tokens: seq<Token>, token: Token, blockSize: nat, i: nat)
    ensures Grows(tokens, Push(tokens, token)) && Grows(tokens, PushBlock(tokens, blockSize, i))
  {
  }

  lemma {:induction false} ScanGrows(tokens: seq<Token>, source: Bytes, at: nat, blockSize: nat, lookup: Lookup)
    requires blockSize > 0 && at <= |source|
    ensures Grows(tokens, ScanFrom(tokens, source, at, blockSize, lookup))
    decreases |source| - at
  {
    hide Grows, Push, PushBlock;
    if |source| - at < blockSize {
      TurnGrows(tokens, Literal(source[at..]), blockSize, 0);
      GrowsAsIs(tokens);
    } else {
      var found := lookup(Window(source, at, blockSize));
      var turn, passed :=
        if found.Some? then PushBlock(tokens, blockSize, found.value) else Push(tokens, Literal([source[at]])),
        if found.Some? then blockSize else 1;
      TurnGrows(tokens, Literal([source[at]]), blockSize, if found.Some? then found.value else 0);
      ScanGrows(turn, source, at + passed, blockSize, lookup);
      GrowsOn(tokens, turn, ScanFrom(tokens, source, at, blockSize, lookup));
    }
  }

  lemma GrowsAsIs(tokens: seq<Token>)
    ensures Grows(tokens, tokens)
  {
  }

  // ---------------------------------------------------------------------------
  // Looking up checksums finds what comparing content would find
  // ---------------------------------------------------------------------------

  /** No window of the source has the strong hash of a block it differs from. This
      is all the collision-freedom the sixteen-byte hash is asked for. */
  ghost predicate NoBlockCollision(source: Bytes, existing: Bytes, blockSize: nat, strong: Hash) {
    forall at: nat, i: nat ::
      at + blockSize <= |source| && (i + 1) * blockSize <= |existing|
      && strong(Window(source, at, blockSize)) == strong(Block(existing, blockSize, i))
      ==> Window(source, at, blockSize) == Block(existing, blockSize, i)
  }

  lemma BlockCount(signature: Signature, existing: Bytes, strong: Hash)
    requires Describes(signature, existing, strong)
    ensures |signature.blocks| == |existing| / signature.blockSize
  {
    hide Block, SigOf;
    var n, size := |signature.blocks|, signature.blockSize;
    if n > 0 {
      assert DescribesBlock(signature.blocks[n - 1], existing, size, n - 1, strong);
    }
    QuotientIs(|existing|, size, n);
  }

  lemma QuotientIs(total: nat, size: nat, n: nat)
    requires size > 0 && n * size <= total < (n + 1) * size
    ensures total / size == n
  {
    var q, r := total / size, total % size;
    assert total == q * size + r;
    Distinct(q, r, n, total - n * size, size);
  }

  /** A number is a multiple and a smaller rest in one way only. */
  lemma Distinct(q: nat, r: int, n: nat, rest: int, size: nat)
    requires 0 <= r < size && 0 <= rest < size && q * size + r == n * size + rest
    ensures q == n
  {
    if q < n {
      MulMonotone(q + 1, n, size);
    } else if n < q {
      MulMonotone(n + 1, q, size);
    }
  }

  lemma FirstAgrees(n: nat, p: nat -> bool, q: nat -> bool)
    requires forall i: nat :: i < n ==> p(i) == q(i)
    ensures First(n, p) == First(n, q)
  {
  }

  lemma LookupsAgree(signature: Signature, source: Bytes, existing: Bytes, strong: Hash, at: nat)
    requires Describes(signature, existing, strong)
    requires NoBlockCollision(source, existing, signature.blockSize, strong)
    requires at + signature.blockSize <= |source|
    ensures var window := Window(source, at, signature.blockSize);
            BySignature(signature, strong)(window) == ByContent(existing, signature.blockSize)(window)
  {
    var size := signature.blockSize;
    var window := Window(source, at, size);
    BlockCount(signature, existing, strong);
    forall i: nat | i < |signature.blocks|
      ensures Hit(signature, window, strong, i) == SameBlock(existing, size, window, i)
    {
      assert DescribesBlock(signature.blocks[i], existing, size, i, strong);
      if Hit(signature, window, strong, i) {
        assert strong(window) == strong(Block(existing, size, i));
      }
    }
    FirstAgrees(|signature.blocks|, (i: nat) => Hit(signature, window, strong, i),
                (i: nat) => SameBlock(existing, size, window, i));
  }

  lemma {:induction false} ScanFromAgrees(
      tokens: seq<Token>, source: Bytes, at: nat, blockSize: nat, one: Lookup, other: Lookup)
    requires blockSize > 0 && at <= |source|
    requires forall at: nat :: at + blockSize <= |source| ==>
      one(Window(source, at, blockSize)) == other(Window(source, at, blockSize))
    ensures ScanFrom(tokens, source, at, blockSize, one) == ScanFrom(tokens, source, at, blockSize, other)
    decreases |source| - at
  {
    if at + blockSize <= |source| {
      var found := one(Window(source, at, blockSize));
      assert other(Window(source, at, blockSize)) == found;
      if found.Some? {
        ScanFromAgrees(PushBlock(tokens, blockSize, found.value), source, at + blockSize, blockSize, one, other);
      } else {
        ScanFromAgrees(Push(tokens, Literal([source[at]])), source, at + 1, blockSize, one, other);
      }
    }
  }

  /** With no block collision, scanning by checksum is the naive greedy scan. */
  lemma ScanIsNaive(source: Bytes, existing: Bytes, signature: Signature, strong: Hash)
    requires Describes(signature, existing, strong)
    requires NoBlockCollision(source, existing, signature.blockSize, strong)
    ensures Scan(source, signature.blockSize, BySignature(signature, strong))
         == Scan(source, signature.blockSize, ByContent(existing, signature.blockSize))
  {
    forall at: nat | at + signature.blockSize <= |source|
      ensures BySignature(signature, strong)(Window(source, at, signature.blockSize))
           == ByContent(existing, signature.blockSize)(Window(source, at, signature.blockSize))
    {
      LookupsAgree(signature, source, existing, strong, at);
    }
    ScanFromAgrees([], source, 0, signature.blockSize,
                   BySignature(signature, strong), ByContent(existing, signature.blockSize));
  }

  /** The naive scan reuses only ranges inside the target and rebuilds the source. */
  lemma NaiveScanRebuilds(source: Bytes, existing: Bytes, blockSize: nat)
    requires blockSize > 0
    ensures Rebuild(Scan(source, blockSize, ByContent(existing, blockSize)), existing) == Some(source)
  {
    ScanFromRebuilds([], source, 0, blockSize, ByContent(existing, blockSize), existing);
  }
}
