/** The frames of a delta transfer, and what a run of them rebuilds. */
module Tokens {
  import opened Basics

  datatype Token =
    | Copy(offset: nat, len: nat)
    | Literal(bytes: Bytes)
    | Commit(mtime: int, hash: Digest)
    | Abort
  {
    /** How many bytes of the rebuilt file the token stands for. */
    function Length(): nat {
      match this
      case Copy(_, len) => len
      case Literal(bytes) => |bytes|
      case _ => 0
    }

    predicate Ends() {
      Commit? || Abort?
    }

    /** The bytes the token stands for, or nothing when it reuses a range the
        existing file does not have. */
    function Produce(existing: Bytes): (bytes: Option<Bytes>)
      ensures bytes.Some? ==> |bytes.value| == Length()
    {
      match this
      case Copy(offset, len) => if offset + len <= |existing| then Some(existing[offset..offset + len]) else None
      case Literal(bytes) => Some(bytes)
      case _ => Some([])
    }
  }

  function Plus(front: Option<Bytes>, back: Option<Bytes>): Option<Bytes> {
    if front.Some? && back.Some? then Some(front.value + back.value) else None
  }

  lemma PlusAssociates(a: Option<Bytes>, b: Option<Bytes>, c: Option<Bytes>)
    ensures Plus(Plus(a, b), c) == Plus(a, Plus(b, c))
  {
    if a.Some? && b.Some? && c.Some? {
      assert a.value + b.value + c.value == a.value + (b.value + c.value);
    }
  }

  /** What a stream rebuilds next to an existing file; nothing when any of its
      copies reaches outside that file. */
  function Rebuild(tokens: seq<Token>, existing: Bytes): Option<Bytes> {
    if tokens == [] then Some([])
    else Plus(Rebuild(tokens[..|tokens| - 1], existing), tokens[|tokens| - 1].Produce(existing))
  }

  /** Appends a token, joining it to the last one when both are literals. */
  function Push(tokens: seq<Token>, token: Token): seq<Token> {
    if tokens != [] && tokens[|tokens| - 1].Literal? && token.Literal? then
      tokens[..|tokens| - 1] + [Literal(tokens[|tokens| - 1].bytes + token.bytes)]
    else
      tokens + [token]
  }

  /** A token stream with its adjacent literals joined. */
  function Joined(tokens: seq<Token>): seq<Token> {
    if tokens == [] then [] else Push(Joined(tokens[..|tokens| - 1]), tokens[|tokens| - 1])
  }

  lemma JoinedOneMore(tokens: seq<Token>, token: Token)
    ensures Joined(tokens + [token]) == Push(Joined(tokens), token)
  {
    assert (tokens + [token])[..|tokens|] == tokens;
  }

  lemma RebuildOneMore(tokens: seq<Token>, token: Token, existing: Bytes)
    ensures Rebuild(tokens + [token], existing) == Plus(Rebuild(tokens, existing), token.Produce(existing))
  {
    assert (tokens + [token])[..|tokens|] == tokens;
  }

  lemma PushKeepsMeaning(tokens: seq<Token>, token: Token, existing: Bytes)
    ensures Rebuild(Push(tokens, token), existing) == Plus(Rebuild(tokens, existing), token.Produce(existing))
  {
    var n := |tokens| - 1;
    if n >= 0 && tokens[n].Literal? && token.Literal? {
      RebuildOneMore(tokens[..n], Literal(tokens[n].bytes + token.bytes), existing);
      PlusAssociates(Rebuild(tokens[..n], existing), Some(tokens[n].bytes), Some(token.bytes));
    } else {
      RebuildOneMore(tokens, token, existing);
    }
  }

  /** Joining literals changes nothing about what a stream rebuilds. */
  lemma {:induction false} JoinedKeepsMeaning(tokens: seq<Token>, existing: Bytes)
    ensures Rebuild(Joined(tokens), existing) == Rebuild(tokens, existing)
  {
    var n := |tokens| - 1;
    if n >= 0 {
      JoinedKeepsMeaning(tokens[..n], existing);
      PushKeepsMeaning(Joined(tokens[..n]), tokens[n], existing);
    }
  }

  lemma PushAssociates(tokens: seq<Token>, first: Bytes, second: Bytes)
    ensures Push(Push(tokens, Literal(first)), Literal(second)) == Push(tokens, Literal(first + second))
  {
    var n := |tokens| - 1;
    if n >= 0 && tokens[n].Literal? {
      assert tokens[n].bytes + first + second == tokens[n].bytes + (first + second);
    }
  }

  lemma {:induction false} RebuildConcat(front: seq<Token>, back: seq<Token>, existing: Bytes)
    ensures Rebuild(front + back, existing) == Plus(Rebuild(front, existing), Rebuild(back, existing))
  {
    var n := |back| - 1;
    if n < 0 {
      assert front + back == front;
      assert Rebuild(front, existing).Some? ==> Rebuild(front, existing).value + [] == Rebuild(front, existing).value;
    } else {
      RebuildConcat(front, back[..n], existing);
      RebuildOneMore(front + back[..n], back[n], existing);
      assert front + back == front + back[..n] + [back[n]];
      PlusAssociates(Rebuild(front, existing), Rebuild(back[..n], existing), back[n].Produce(existing));
    }
  }

  // ---------------------------------------------------------------------------
  // Streams cut short
  // ---------------------------------------------------------------------------

  /** The same tokens as far as they go, except that the last literal may be cut short. */
  ghost predicate Begins(front: seq<Token>, whole: seq<Token>) {
    var n := |front| - 1;
    && |front| <= |whole|
    && (forall i :: 0 <= i < n ==> front[i] == whole[i])
    && (n >= 0 ==> front[n] == whole[n] || CutShort(front[n], whole[n]))
  }

  predicate CutShort(part: Token, token: Token) {
    part.Literal? && token.Literal? && part.bytes <= token.bytes
  }

  lemma BeginsOn(a: seq<Token>, b: seq<Token>, c: seq<Token>)
    requires Begins(a, b) && Begins(b, c)
    ensures Begins(a, c)
  {
  }

  lemma PushBegins(tokens: seq<Token>, token: Token)
    ensures Begins(tokens, Push(tokens, token))
  {
  }

  /** What has been sent of a stream, joined, begins all of it joined. */
  lemma {:induction false} JoinedPrefixBegins(tokens: seq<Token>, k: nat)
    requires k <= |tokens|
    ensures Begins(Joined(tokens[..k]), Joined(tokens))
  {
    var n := |tokens| - 1;
    if k == |tokens| {
      assert tokens[..k] == tokens;
    } else {
      hide Begins, Push;
      JoinedPrefixBegins(tokens[..n], k);
      assert tokens[..n][..k] == tokens[..k];
      PushBegins(Joined(tokens[..n]), tokens[n]);
      BeginsOn(Joined(tokens[..k]), Joined(tokens[..n]), Joined(tokens));
    }
  }

  /** A stream cut short rebuilds the beginning of what the whole of it does. */
  lemma BeginningRebuilds(front: seq<Token>, whole: seq<Token>, existing: Bytes)
    requires Begins(front, whole) && Rebuild(whole, existing).Some?
    ensures Rebuild(front, existing).Some? && Rebuild(front, existing).value <= Rebuild(whole, existing).value
  {
    hide Rebuild;
    var n := |front| - 1;
    if n < 0 {
      RebuildNothing(existing);
    } else {
      assert front == whole[..n] + [front[n]];
      RebuildUpTo(whole, n, existing);
      RebuildOneMore(whole[..n], front[n], existing);
      PartProduces(front[n], whole[n], existing);
      PlusPart(Rebuild(whole[..n], existing), front[n].Produce(existing), whole[n].Produce(existing),
               Rebuild(whole, existing).value);
    }
  }

  lemma RebuildNothing(existing: Bytes)
    ensures Rebuild([], existing) == Some([])
  {
  }

  /** The tokens up to and with the one at `n` rebuild, and rebuild a prefix. */
  lemma RebuildUpTo(tokens: seq<Token>, n: nat, existing: Bytes)
    requires n < |tokens| && Rebuild(tokens, existing).Some?
    ensures var part := Plus(Rebuild(tokens[..n], existing), tokens[n].Produce(existing));
            part.Some? && part.value <= Rebuild(tokens, existing).value
  {
    hide Rebuild;
    assert tokens[..n + 1] == tokens[..n] + [tokens[n]];
    assert tokens == tokens[..n + 1] + tokens[n + 1..];
    RebuildConcat(tokens[..n + 1], tokens[n + 1..], existing);
    RebuildOneMore(tokens[..n], tokens[n], existing);
  }

  lemma PartProduces(part: Token, token: Token, existing: Bytes)
    requires part == token || CutShort(part, token)
    requires token.Produce(existing).Some?
    ensures part.Produce(existing).Some? && part.Produce(existing).value <= token.Produce(existing).value
  {
  }

  lemma PlusPart(front: Option<Bytes>, part: Option<Bytes>, piece: Option<Bytes>, whole: Bytes)
    requires Plus(front, piece).Some? && Plus(front, piece).value <= whole
    requires part.Some? && part.value <= piece.value
    ensures Plus(front, part).Some? && Plus(front, part).value <= whole
  {
    assert front.value + part.value <= front.value + piece.value;
  }

  lemma PrefixBegins(tokens: seq<Token>, k: nat)
    requires k <= |tokens|
    ensures Begins(tokens[..k], tokens)
  {
  }
}
