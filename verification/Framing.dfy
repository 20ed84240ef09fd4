/** The wire format: four bytes of header, little-endian, with 31 bits of length and
    one for compression; then a body. */
module Framing {
  import opened Basics

  const MAX_FRAME: nat := 0x400_0000

  const COMPRESS_THRESHOLD: nat := 0x1000

  /** The serializer and the compressor, which are other libraries' business.
      `decompress` is told `MAX_FRAME` as the most it may produce. */
  datatype Codec<!T> = Codec(
    encode: T -> Option<Bytes>,
    decode: Bytes -> Option<T>,
    zstd: Bytes -> Option<Bytes>,
    unzstd: (Bytes, nat) -> Option<Bytes>)

  /** What is asked of them: each undoes the other. */
  ghost predicate Faithful<T(!new)>(codec: Codec<T>) {
    && (forall value :: codec.encode(value).Some? ==> codec.decode(codec.encode(value).value) == Some(value))
    && (forall payload, most :: codec.zstd(payload).Some? && |payload| <= most ==>
          codec.unzstd(codec.zstd(payload).value, most) == Some(payload))
  }

  // ---------------------------------------------------------------------------
  // The header
  // ---------------------------------------------------------------------------

  function ToLe(word: U32): (bytes: Bytes)
    ensures |bytes| == 4
  {
    [word % 0x100, word / 0x100 % 0x100, word / 0x1_0000 % 0x100, word / 0x100_0000]
  }

  function FromLe(bytes: Bytes): U32
    requires |bytes| == 4
  {
    (bytes[0] as int) + 0x100 * (bytes[1] as int) + 0x1_0000 * (bytes[2] as int) + 0x100_0000 * (bytes[3] as int)
  }

  lemma LeRoundTrip(word: U32)
    ensures FromLe(ToLe(word)) == word
  {
    var second := word / 0x100;
    var third := second / 0x100;
    NextByte(word, 0x100);
    NextByte(word, 0x1_0000);
    assert word == 0x100 * second + word % 0x100;
    assert second == 0x100 * third + second % 0x100;
    assert third == 0x100 * (third / 0x100) + third % 0x100;
  }

  lemma NextByte(word: U32, unit: nat)
    requires unit == 0x100 || unit == 0x1_0000
    ensures word / unit / 0x100 == word / (unit * 0x100)
  {
  }

  // ---------------------------------------------------------------------------
  // Encoding
  // ---------------------------------------------------------------------------

  /** A smaller body, if the payload is worth compressing and the compressor makes it
      smaller. */
  function Compress<T>(codec: Codec<T>, payload: Bytes): (r: Option<Bytes>)
    ensures r.Some? ==> |r.value| < |payload| && codec.zstd(payload) == r
    ensures |payload| < COMPRESS_THRESHOLD ==> r.None?
    ensures r.None? && |payload| >= COMPRESS_THRESHOLD ==>
      codec.zstd(payload).None? || |codec.zstd(payload).value| >= |payload|
  {
    if |payload| < COMPRESS_THRESHOLD then None
    else
      var compressed := codec.zstd(payload);
      if compressed.Some? && |compressed.value| < |payload| then compressed else None
  }

  /** A value's header and body; there are none if it has no encoding, or too long a
      one. */
  function Framed<T>(codec: Codec<T>, value: T): Option<Bytes> {
    var payload := codec.encode(value);
    if payload.None? || |payload.value| > MAX_FRAME then None
    else
      var smaller := Compress(codec, payload.value);
      Some(if smaller.Some? then ToLe(|smaller.value| + 0x8000_0000) + smaller.value
           else ToLe(|payload.value|) + payload.value)
  }

  /** What is on the wire: the low byte of the header first; its 31 low bits the length of
      what follows; its top bit set exactly when that is not the payload itself, as it is
      below the threshold. */
  lemma FrameLayout<T>(codec: Codec<T>, value: T)
    requires Framed(codec, value).Some?
    ensures var payload, frame := codec.encode(value).value, Framed(codec, value).value;
      && codec.encode(value).Some? && 4 <= |frame|
      && var word :=
           (frame[0] as int) + (frame[1] as int) * 0x100
           + (frame[2] as int) * 0x1_0000 + (frame[3] as int) * 0x100_0000;
         && word % 0x8000_0000 == |frame| - 4
         && (word >= 0x8000_0000 <==> Compress(codec, payload).Some?)
         && frame[4..] == (if word >= 0x8000_0000 then Compress(codec, payload).value else payload)
         && (|payload| < COMPRESS_THRESHOLD ==> frame[4..] == payload && word == |payload|)
  {
    hide ToLe;
    var payload := codec.encode(value).value;
    var smaller := Compress(codec, payload);
    var body := if smaller.Some? then smaller.value else payload;
    var word: U32 := |body| + if smaller.Some? then 0x8000_0000 else 0;
    LeIsPositional(word);
    assert Framed(codec, value).value == ToLe(word) + body;
    assert (ToLe(word) + body)[4..] == body;
  }

  lemma LeIsPositional(word: U32)
    ensures var bytes := ToLe(word);
      (bytes[0] as int) + (bytes[1] as int) * 0x100 + (bytes[2] as int) * 0x1_0000 + (bytes[3] as int) * 0x100_0000
        == word
  {
    LeRoundTrip(word);
  }

  method EncodeFrame<T>(codec: Codec<T>, value: T) returns (r: Result<Bytes>)
    ensures r == if Framed(codec, value).Some? then Success(Framed(codec, value).value) else Failure
  {
    var payload := codec.encode(value);
    if payload.None? || |payload.value| > MAX_FRAME {
      return Failure;
    }
    var body, flag := payload.value, 0;
    var smaller := Compress(codec, payload.value);
    if smaller.Some? {
      body, flag := smaller.value, 0x8000_0000;
    }
    var framed := ToLe(|body| + flag);
    framed := framed + body;
    return Success(framed);
  }

  // ---------------------------------------------------------------------------
  // Reading
  // ---------------------------------------------------------------------------

  datatype Read<+T> = End | Broken | Value(value: T, next: nat)

  /** What a read at position `at` finds. */
  function ReadAt<T>(codec: Codec<T>, bytes: Bytes, at: nat): (r: Read<T>)
    requires at <= |bytes|
    ensures r.Value? ==> at + 4 <= r.next <= |bytes|
  {
    if |bytes| - at < 4 then End
    else
      var header := FromLe(bytes[at..at + 4]);
      var length := header % 0x8000_0000;
      if length > MAX_FRAME || |bytes| - (at + 4) < length then Broken
      else
        var body := bytes[at + 4..at + 4 + length];
        var payload := if header >= 0x8000_0000 then codec.unzstd(body, MAX_FRAME) else Some(body);
        if payload.None? || codec.decode(payload.value).None? then Broken
        else Value(codec.decode(payload.value).value, at + 4 + length)
  }

  class ByteStream {
    const bytes: Bytes
    var at: nat

    ghost predicate Valid()
      reads this
    {
      at <= |bytes|
    }

    constructor (bytes: Bytes)
      ensures this.bytes == bytes && at == 0
    {
      this.bytes := bytes;
      at := 0;
    }

    /** Exactly this many bytes, or nothing, with the stream used up. */
    method ReadExact(count: nat) returns (r: Option<Bytes>)
      requires Valid()
      modifies this
      ensures Valid()
      ensures if count <= |bytes| - old(at) then at == old(at) + count && r == Some(bytes[old(at)..at])
              else at == |bytes| && r.None?
    {
      if |bytes| - at < count {
        at := |bytes|;
        return None;
      }
      at := at + count;
      return Some(bytes[at - count..at]);
    }
  }

  /** The outcome is what `ReadAt` finds where the stream stands, and a value leaves
      the stream just past its body. */
  method ReadFrame<T>(codec: Codec<T>, stream: ByteStream) returns (r: Result<Option<T>>)
    requires stream.Valid()
    modifies stream
    ensures stream.Valid()
    ensures match ReadAt(codec, stream.bytes, old(stream.at))
            case End => r == Success(None)
            case Broken => r == Failure
            case Value(value, next) => r == Success(Some(value)) && stream.at == next
  {
    var header := stream.ReadExact(4);
    if header.None? {
      return Success(None);
    }
    var word := FromLe(header.value);
    var compressed, length := word >= 0x8000_0000, word % 0x8000_0000;
    if length > MAX_FRAME {
      return Failure;
    }
    var body := stream.ReadExact(length);
    if body.None? {
      return Failure;
    }
    var payload := body;
    if compressed {
      payload := codec.unzstd(body.value, MAX_FRAME);
    }
    if payload.None? {
      return Failure;
    }
    var value := codec.decode(payload.value);
    return if value.Some? then Success(value) else Failure;
  }

  // ---------------------------------------------------------------------------
  // Streams
  // ---------------------------------------------------------------------------

  datatype Contents<+T> = Contents(values: seq<T>, clean: bool)

  /** Everything a stream yields, and whether it then ended cleanly. */
  function ReadAll<T>(codec: Codec<T>, bytes: Bytes, at: nat): Contents<T>
    requires at <= |bytes|
    decreases |bytes| - at
  {
    match ReadAt(codec, bytes, at)
    case End => Contents([], true)
    case Broken => Contents([], false)
    case Value(value, next) =>
      var rest := ReadAll(codec, bytes, next);
      Contents([value] + rest.values, rest.clean)
  }

  ghost predicate AllFramed<T>(codec: Codec<T>, values: seq<T>) {
    forall i :: 0 <= i < |values| ==> Framed(codec, values[i]).Some?
  }

  function Concatenated<T>(codec: Codec<T>, values: seq<T>): Bytes
    requires forall i :: 0 <= i < |values| ==> Framed(codec, values[i]).Some?
  {
    if values == [] then [] else Framed(codec, values[0]).value + Concatenated(codec, values[1..])
  }

  /** How many frames of a stream lie wholly within its first `cut` bytes. */
  function CompleteWithin<T>(codec: Codec<T>, values: seq<T>, cut: nat): (n: nat)
    requires forall i :: 0 <= i < |values| ==> Framed(codec, values[i]).Some?
    ensures n <= |values|
  {
    if values == [] || |Framed(codec, values[0]).value| > cut then 0
    else 1 + CompleteWithin(codec, values[1..], cut - |Framed(codec, values[0]).value|)
  }

  /** The two parts of a frame: its header word, and the body it announces. */
  lemma FrameParts<T(!new)>(codec: Codec<T>, value: T) returns (word: U32, body: Bytes)
    requires Framed(codec, value).Some?
    ensures Framed(codec, value).value == ToLe(word) + body
    ensures FromLe(ToLe(word)) == word && word % 0x8000_0000 == |body| <= MAX_FRAME
    ensures Faithful(codec) ==>
      var payload := if word >= 0x8000_0000 then codec.unzstd(body, MAX_FRAME) else Some(body);
      payload.Some? && codec.decode(payload.value) == Some(value)
  {
    hide ToLe, FromLe;
    var payload := codec.encode(value).value;
    var smaller := Compress(codec, payload);
    body := if smaller.Some? then smaller.value else payload;
    word := if smaller.Some? then |smaller.value| + 0x8000_0000 else |payload|;
    LeRoundTrip(word);
  }

  /** A frame read back is its value, whatever precedes and follows it, and the read
      consumes exactly its bytes. */
  lemma FrameReadsBack<T(!new)>(codec: Codec<T>, before: Bytes, value: T, after: Bytes)
    requires Faithful(codec) && Framed(codec, value).Some?
    ensures var frame := Framed(codec, value).value;
            ReadAt(codec, before + frame + after, |before|) == Value(value, |before| + |frame|)
  {
    hide ToLe, FromLe, Framed, Faithful, Compress;
    var word, body := FrameParts(codec, value);
    var bytes, at := before + Framed(codec, value).value + after, |before|;
    assert bytes == before + ToLe(word) + body + after;
    assert bytes[at..at + 4] == ToLe(word);
    assert bytes[at + 4..at + 4 + |body|] == body;
  }

  /** A frame cut short: no header left is a clean end, anything more is an error. */
  lemma CutFrame<T(!new)>(codec: Codec<T>, before: Bytes, value: T, cut: nat)
    requires Framed(codec, value).Some? && cut < |Framed(codec, value).value|
    ensures ReadAt(codec, before + Framed(codec, value).value[..cut], |before|) == if cut < 4 then End else Broken
  {
    hide ToLe, FromLe, Framed, Faithful, Compress;
    if cut >= 4 {
      var word, body := FrameParts(codec, value);
      var bytes, at := before + Framed(codec, value).value[..cut], |before|;
      assert bytes[at..at + 4] == ToLe(word);
    }
  }

  /** Reading a stream of frames cut off at any byte yields the frames that are whole,
      in order; then a clean end if fewer than four bytes remain, else an error. */
  lemma {:induction false} CutStreamReadsBack<T(!new)>(codec: Codec<T>, before: Bytes, values: seq<T>, cut: nat)
    requires Faithful(codec) && AllFramed(codec, values)
    requires cut <= |Concatenated(codec, values)|
    ensures var n := CompleteWithin(codec, values, cut);
      ReadAll(codec, before + Concatenated(codec, values)[..cut], |before|)
        == Contents(values[..n], cut - |Concatenated(codec, values[..n])| < 4)
    decreases |values|
  {
    hide Framed, Faithful, ReadAt;
    if values == [] {
      EmptyStream(codec, before);
    } else {
      var frame, rest := Framed(codec, values[0]).value, Concatenated(codec, values[1..]);
      if |frame| <= cut {
        var left := cut - |frame|;
        assert before + (frame + rest)[..cut] == before + frame + rest[..left];
        FrameReadsBack(codec, before, values[0], rest[..left]);
        CutStreamReadsBack(codec, before + frame, values[1..], left);
        FirstOnes(codec, values, CompleteWithin(codec, values[1..], left));
      } else {
        assert before + (frame + rest)[..cut] == before + frame[..cut];
        CutFrame(codec, before, values[0], cut);
      }
    }
  }

  lemma EmptyStream<T>(codec: Codec<T>, before: Bytes)
    ensures ReadAll(codec, before + [], |before|) == Contents([], true)
  {
  }

  lemma FirstOnes<T>(codec: Codec<T>, values: seq<T>, n: nat)
    requires values != [] && n < |values| && AllFramed(codec, values)
    ensures values[..n + 1] == [values[0]] + values[1..][..n]
    ensures Concatenated(codec, values[..n + 1])
         == Framed(codec, values[0]).value + Concatenated(codec, values[1..][..n])
  {
    assert values[..n + 1][1..] == values[1..][..n];
  }

  /** A whole stream of frames yields all its values and ends cleanly. */
  lemma StreamReadsBack<T(!new)>(codec: Codec<T>, values: seq<T>)
    requires Faithful(codec) && AllFramed(codec, values)
    ensures ReadAll(codec, Concatenated(codec, values), 0) == Contents(values, true)
  {
    var whole := Concatenated(codec, values);
    CutStreamReadsBack(codec, [], values, |whole|);
    assert [] + whole[..|whole|] == whole;
    AllComplete(codec, values);
    assert values[..|values|] == values;
  }

  lemma {:induction false} AllComplete<T>(codec: Codec<T>, values: seq<T>)
    requires AllFramed(codec, values)
    ensures CompleteWithin(codec, values, |Concatenated(codec, values)|) == |values|
  {
    if values != [] {
      AllComplete(codec, values[1..]);
    }
  }
}
