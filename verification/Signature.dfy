/** A file described by its blocks' two checksums, and how that description is made. */
module Signature {
  import opened Basics
  import opened Reader
  import opened Rolling

  datatype BlockSig = BlockSig(weak: nat, strong: Digest)

  datatype Signature = Signature(blockSize: nat, blocks: seq<BlockSig>)

  /** Block `i` of a file, for a block that lies wholly inside it. */
  function Block(content: Bytes, blockSize: nat, i: nat): Bytes
    requires (i + 1) * blockSize <= |content|
  {
    BlockFits(content, blockSize, i);
    content[i * blockSize..(i + 1) * blockSize]
  }

  lemma BlockFits(content: Bytes, blockSize: nat, i: nat)
    requires (i + 1) * blockSize <= |content|
    ensures 0 <= i * blockSize <= (i + 1) * blockSize == i * blockSize + blockSize
  {
  }

  function SigOf(block: Bytes, strong: Hash): BlockSig {
    BlockSig(Weak(block), strong(block))
  }

  ghost predicate DescribesBlock(sig: BlockSig, content: Bytes, blockSize: nat, i: nat, strong: Hash) {
    (i + 1) * blockSize <= |content| && sig == SigOf(Block(content, blockSize, i), strong)
  }

  /** Every whole block of `content` is described, in order, and nothing else is:
      a trailing partial block never is. */
  ghost predicate Describes(signature: Signature, content: Bytes, strong: Hash) {
    && signature.blockSize > 0
    && |content| < (|signature.blocks| + 1) * signature.blockSize
    && forall i :: 0 <= i < |signature.blocks| ==>
         DescribesBlock(signature.blocks[i], content, signature.blockSize, i, strong)
  }

  lemma MulMonotone(a: nat, b: nat, size: nat)
    requires a <= b
    ensures a * size <= b * size
  {
  }

  lemma NoLonger(s: Signature, t: Signature, content: Bytes, strong: Hash)
    requires Describes(s, content, strong) && Describes(t, content, strong)
    requires s.blockSize == t.blockSize
    ensures |t.blocks| <= |s.blocks|
  {
    if |s.blocks| < |t.blocks| {
      var last := |t.blocks| - 1;
      assert DescribesBlock(t.blocks[last], content, t.blockSize, last, strong);
      MulMonotone(|s.blocks| + 1, |t.blocks|, s.blockSize);
    }
  }

  /** A file has exactly one signature at a given block size. */
  lemma SignatureIsUnique(s: Signature, t: Signature, content: Bytes, strong: Hash)
    requires Describes(s, content, strong) && Describes(t, content, strong)
    requires s.blockSize == t.blockSize
    ensures s == t
  {
    NoLonger(s, t, content, strong);
    NoLonger(t, s, content, strong);
    forall i | 0 <= i < |s.blocks|
      ensures s.blocks[i] == t.blocks[i]
    {
      assert DescribesBlock(s.blocks[i], content, s.blockSize, i, strong);
      assert DescribesBlock(t.blocks[i], content, t.blockSize, i, strong);
    }
  }

  /** Fills `block` from its start, or as far as the file goes. */
  method FillBlock(reader: Reader, block: array<Byte>) returns (r: Result<nat>)
    requires reader.Valid()
    modifies reader, block
    ensures reader.Valid() && old(reader.at) <= reader.at
    ensures reader.failed == (old(reader.failed) || r.Failure?)
    ensures r.Success? ==>
      && r.value <= block.Length
      && reader.at == old(reader.at) + r.value
      && block[..r.value] == reader.content[old(reader.at)..reader.at]
      && (r.value < block.Length ==> reader.at == |reader.content|)
  {
    var filled: nat, ended := 0, false;
    while filled < block.Length && !ended
      invariant filled <= block.Length && reader.Valid() && reader.at == old(reader.at) + filled
      invariant reader.failed == old(reader.failed)
      invariant block[..filled] == reader.content[old(reader.at)..reader.at]
      invariant ended ==> reader.at == |reader.content|
      decreases !ended, block.Length - filled
    {
      ghost var kept := block[..filled];
      var read := reader.Read(block, filled);
      if read.Failure? {
        return Failure;
      }
      assert block[..filled + read.value] == kept + reader.content[old(reader.at) + filled..reader.at];
      ended := read.value == 0;
      filled := filled + read.value;
    }
    return Success(filled);
  }

  /** Describes a file without holding it: one block buffer, refilled in place. A
      block size of zero is refused before this is reached, as it would never end. */
  method SignatureOf(reader: Reader, blockSize: nat, strong: Hash) returns (r: Result<Signature>)
    requires reader.Valid() && reader.at == 0
    requires 0 < blockSize < 0x1_0000_0000
    modifies reader
    ensures reader.Valid() && reader.failed == (old(reader.failed) || r.Failure?)
    ensures r.Success? ==> Describes(r.value, reader.content, strong) && r.value.blockSize == blockSize
  {
    var blocks: seq<BlockSig> := [];
    var block := new Byte[blockSize];
    while true
      invariant reader.Valid() && reader.at == |blocks| * blockSize && reader.failed == old(reader.failed)
      invariant forall i :: 0 <= i < |blocks| ==> DescribesBlock(blocks[i], reader.content, blockSize, i, strong)
      decreases |reader.content| - reader.at
    {
      var filled := FillBlock(reader, block);
      if filled.Failure? {
        return Failure;
      }
      if filled.value < block.Length {
        return Success(Signature(blockSize, blocks));
      }
      BlockFits(reader.content, blockSize, |blocks|);
      assert block[..] == block[..filled.value] == Block(reader.content, blockSize, |blocks|);
      var rolling := new Rolling(block[..]);
      blocks := blocks + [BlockSig(rolling.Digest(), strong(block[..]))];
    }
  }

  datatype SignatureReply = Described(signature: Signature) | Refused

  /** What opening the file at a path came to. */
  datatype Opened = Absent | Unreadable | Readable(reader: Reader)

  /** The agent's answer to a signature request. A zero block size is refused, an
      absent file is an empty signature, and an unreadable one is an error. */
  method Answer(file: Opened, blockSize: nat, strong: Hash) returns (reply: SignatureReply)
    requires blockSize < 0x1_0000_0000
    requires file.Readable? ==> file.reader.Valid() && file.reader.at == 0 && !file.reader.failed
    modifies if file.Readable? then {file.reader} else {}
    ensures reply.Refused? <==> blockSize == 0 || file.Unreadable? || (file.Readable? && file.reader.failed)
    ensures reply.Described? ==>
      && reply.signature.blockSize == blockSize
      && (file.Readable? ==> Describes(reply.signature, file.reader.content, strong))
      && (file.Absent? ==> reply.signature.blocks == [])
  {
    if blockSize == 0 || file.Unreadable? {
      return Refused;
    }
    if file.Absent? {
      return Described(Signature(blockSize, []));
    }
    var r := SignatureOf(file.reader, blockSize, strong);
    return if r.Success? then Described(r.value) else Refused;
  }
}
