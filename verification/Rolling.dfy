/** A checksum of a window that can be brought from one window to the next in
    constant time. */
module Rolling {
  import opened Basics

  /** The plain sum of a window. */
  function Sum(window: Bytes): nat {
    if window == [] then 0 else Sum(window[..|window| - 1]) + window[|window| - 1]
  }

  /** The position-weighted sum of a window: the first byte weighs the window's
      length and the last weighs one. */
  function Weighted(window: Bytes): nat {
    if window == [] then 0 else Weighted(window[..|window| - 1]) + Sum(window)
  }

  /** The checksum a window has, with no reference to how it was reached. */
  function Weak(window: Bytes): nat {
    Sum(window) % 0x1_0000 + Weighted(window) % 0x1_0000 * 0x1_0000
  }

  // The machine word operations of the source, on 32 bits.

  function WrappingAdd(x: U32, y: U32): U32 {
    (x + y) % 0x1_0000_0000
  }

  function WrappingSub(x: U32, y: U32): U32 {
    (x - y) % 0x1_0000_0000
  }

  function WrappingMul(x: U32, y: U32): U32 {
    x * y % 0x1_0000_0000
  }

  /** `x & 0xffff`. */
  function Mask(x: U32): U32 {
    x % 0x1_0000
  }

  /** The three words of a checksum, as a value. */
  datatype Words = Words(a: U32, b: U32, len: U32) {
    ghost predicate Describe(window: Bytes) {
      && len == |window|
      && a == Sum(window) % 0x1_0000
      && b == Weighted(window) % 0x1_0000
    }

    /** One constant-time step, in the source's own arithmetic. */
    function Rolled(out: Byte, inbound: Byte): Words {
      Less(out, WrappingMul(len, out), inbound)
    }

    /** The step, with the outgoing byte's weighted share worked out. */
    function Less(out: Byte, share: U32, inbound: Byte): Words {
      var a' := Mask(WrappingAdd(WrappingSub(a, out), inbound));
      Words(a', Mask(WrappingAdd(WrappingSub(b, share), a')), len)
    }

    /** `a | (b << 16)`: both halves are masked, so the bits never overlap. */
    function Digest(): nat {
      a + b * 0x1_0000
    }
  }

  class Rolling {
    var a: U32
    var b: U32
    const len: U32

    ghost function View(): Words
      reads this
    {
      Words(a, b, len)
    }

    /** The words of any window; its length fits a `u32`, as a block's does. */
    constructor (window: Bytes)
      requires |window| < 0x1_0000_0000
      ensures View().Describe(window)
    {
      var n := |window|;
      var x: U32, y: U32 := 0, 0;
      for offset := 0 to n
        invariant Summed(window, offset, x, y)
      {
        SummedStep(window, offset, x, y);
        x, y := WrappingAdd(x, window[offset]), WrappingAdd(y, WrappingMul(n - offset, window[offset]));
      }
      SummedAll(window, x, y);
      a, b, len := Mask(x), Mask(y), n;
    }

    method Roll(out: Byte, inbound: Byte)
      modifies this
      ensures View() == old(View()).Rolled(out, inbound)
      ensures forall window :: window != [] && window[0] == out && old(View()).Describe(window) ==>
        View().Describe(window[1..] + [inbound])
    {
      hide Words.Describe;
      forall window | window != [] && window[0] == out && View().Describe(window)
        ensures View().Rolled(out, inbound).Describe(window[1..] + [inbound])
      {
        RollStep(View(), window, inbound);
      }
      a := Mask(WrappingAdd(WrappingSub(a, out), inbound));
      b := Mask(WrappingAdd(WrappingSub(b, WrappingMul(len, out)), a));
    }

    function Digest(): (d: nat)
      reads this
      ensures forall window :: View().Describe(window) ==> d == Weak(window)
    {
      a + b * 0x1_0000
    }
  }

  // Arithmetic used by the proofs below.

  /** What the words hold once `offset` bytes are summed: the second counts each
      byte with its final weight, as if the rest of the window were zero. */
  ghost predicate Summed(window: Bytes, offset: nat, x: U32, y: U32)
    requires offset <= |window|
  {
    && x == Sum(window[..offset]) % 0x1_0000_0000
    && y == (Weighted(window[..offset]) + (|window| - offset) * Sum(window[..offset])) % 0x1_0000_0000
  }

  lemma SummedStep(window: Bytes, offset: nat, x: U32, y: U32)
    requires offset < |window| < 0x1_0000_0000 && Summed(window, offset, x, y)
    ensures Summed(window, offset + 1, WrappingAdd(x, window[offset]),
                   WrappingAdd(y, WrappingMul(|window| - offset, window[offset])))
  {
    assert window[..offset + 1][..offset] == window[..offset];
    NewStep(x, y, Sum(window[..offset]), Weighted(window[..offset]), |window| - offset, window[offset]);
  }

  lemma SummedAll(window: Bytes, x: U32, y: U32)
    requires |window| < 0x1_0000_0000 && Summed(window, |window|, x, y)
    ensures Words(Mask(x), Mask(y), |window|).Describe(window)
  {
    assert window[..|window|] == window;
    MaskIsExact(Sum(window));
    MaskIsExact(Weighted(window));
  }

  /** One turn of the summing loop: both words gain the byte, the second by weight. */
  lemma NewStep(x: U32, y: U32, sum: nat, weighted: nat, weight: U32, byte: Byte)
    requires weight > 0
    requires x == sum % 0x1_0000_0000 && y == (weighted + weight * sum) % 0x1_0000_0000
    ensures WrappingAdd(x, byte) == (sum + byte) % 0x1_0000_0000
    ensures WrappingAdd(y, WrappingMul(weight, byte))
         == (weighted + (sum + byte) + (weight - 1) * (sum + byte)) % 0x1_0000_0000
  {
    hide WrappingAdd;
    AddExact(x, sum, byte);
    AddExact(y, weighted + weight * sum, weight * byte);
    Spread(weight, sum, byte);
    assert weighted + (sum + byte) + (weight - 1) * (sum + byte) == weighted + weight * sum + weight * byte;
  }

  lemma AddExact(x: U32, whole: int, added: int)
    requires x == whole % 0x1_0000_0000
    ensures WrappingAdd(x, added % 0x1_0000_0000) == (whole + added) % 0x1_0000_0000
  {
    ModSum(whole, added);
  }

  lemma Spread(weight: int, sum: int, byte: int)
    ensures (weight - 1) * (sum + byte) == weight * sum + weight * byte - (sum + byte)
  {
  }

  lemma ModSum(x: int, y: int)
    ensures (x % 0x1_0000_0000 + y % 0x1_0000_0000) % 0x1_0000_0000 == (x + y) % 0x1_0000_0000
  {
  }

  /** Masking to sixteen bits commutes with wrapping at thirty-two. */
  lemma MaskIsExact(x: int)
    ensures x % 0x1_0000_0000 % 0x1_0000 == x % 0x1_0000
  {
  }

  /** Peels the weighted sum at its front, where the summation peels its back. */
  lemma {:induction false} PeelFront(window: Bytes)
    requires window != []
    ensures Sum(window) == window[0] + Sum(window[1..])
    ensures Weighted(window) == |window| * window[0] + Weighted(window[1..])
  {
    var n := |window|;
    if n == 1 {
      assert window[..0] == [] && window[1..] == [];
    } else {
      PeelFront(window[..n - 1]);
      assert window[1..][..n - 2] == window[..n - 1][1..];
    }
  }

  /** Sliding a window by one byte changes the two sums by exactly these amounts. */
  lemma Slide(window: Bytes, inbound: Byte)
    requires window != []
    ensures Sum(window[1..] + [inbound]) == Sum(window) - window[0] + inbound
    ensures Weighted(window[1..] + [inbound])
         == Weighted(window) - |window| * window[0] + Sum(window[1..] + [inbound])
  {
    PeelFront(window);
    assert (window[1..] + [inbound])[..|window| - 1] == window[1..];
  }

  /** One roll keeps the checksum exact, in wrapping 32-bit words masked to 16. */
  lemma RollStep(words: Words, window: Bytes, inbound: Byte)
    requires window != [] && words.Describe(window)
    ensures words.Rolled(window[0], inbound).Describe(window[1..] + [inbound])
  {
    Slide(window, inbound);
    var next := window[1..] + [inbound];
    var share := words.len * window[0];
    LessIsExact(words, window[0], share, inbound, Sum(window), Weighted(window), Sum(next), Weighted(next));
    assert words.Rolled(window[0], inbound) == words.Less(window[0], share % 0x1_0000_0000, inbound);
  }

  lemma LessIsExact(words: Words, out: Byte, share: nat, inbound: Byte,
                    sum: int, weighted: int, sum': int, weighted': int)
    requires words.a == sum % 0x1_0000 && words.b == weighted % 0x1_0000
    requires sum' == sum - out + inbound && weighted' == weighted - share + sum'
    ensures words.Less(out, share % 0x1_0000_0000, inbound) == Words(sum' % 0x1_0000, weighted' % 0x1_0000, words.len)
  {
    hide Mask, WrappingAdd, WrappingSub;
    HalfStep(words.a, sum, out, inbound, inbound);
    var a' := words.Less(out, share % 0x1_0000_0000, inbound).a;
    HalfStep(words.b, weighted, share, a', sum');
  }

  /** Wrapping at 32 bits and masking to 16 leaves a 16-bit difference exact. */
  lemma HalfStep(half: U32, whole: int, minus: int, plus: U32, added: int)
    requires half == whole % 0x1_0000
    requires plus == added || plus == added % 0x1_0000
    ensures Mask(WrappingAdd(WrappingSub(half, minus % 0x1_0000_0000), plus)) == (whole - minus + added) % 0x1_0000
  {
    var m := minus / 0x1_0000_0000;
    var d := (half - minus % 0x1_0000_0000) / 0x1_0000_0000;
    var total := WrappingSub(half, minus % 0x1_0000_0000) + plus;
    var goal := whole - minus + added;
    LowHalf(total % 0x1_0000_0000,
            goal / 0x1_0000 - whole / 0x1_0000 - (if plus == added then 0 else added / 0x1_0000)
              + 0x1_0000 * (m - d - total / 0x1_0000_0000),
            goal % 0x1_0000);
  }

  lemma LowHalf(x: int, k: int, r: int)
    requires 0 <= r < 0x1_0000 && x == 0x1_0000 * k + r
    ensures x % 0x1_0000 == r
  {
  }

  function RolledOver(words: Words, source: Bytes, width: nat, steps: nat): Words
    requires steps + width <= |source|
    requires width > 0
  {
    if steps == 0 then words
    else RolledOver(words, source, width, steps - 1).Rolled(source[steps - 1], source[steps + width - 1])
  }

  /** After any number of rolls the words are those of the window reached. */
  lemma {:induction false} RollingIsExact(words: Words, source: Bytes, width: nat, steps: nat)
    requires 0 < width && steps + width <= |source|
    requires words.Describe(source[..width])
    ensures RolledOver(words, source, width, steps).Describe(source[steps..steps + width])
    ensures RolledOver(words, source, width, steps).Digest() == Weak(source[steps..steps + width])
  {
    hide Words.Describe, Words.Rolled, Words.Digest, Weak;
    if steps > 0 {
      RollingIsExact(words, source, width, steps - 1);
      var before := source[steps - 1..steps - 1 + width];
      RollStep(RolledOver(words, source, width, steps - 1), before, source[steps + width - 1]);
      assert before[1..] + [source[steps + width - 1]] == source[steps..steps + width];
    }
    DescribedDigest(RolledOver(words, source, width, steps), source[steps..steps + width]);
  }

  lemma DescribedDigest(words: Words, window: Bytes)
    requires words.Describe(window)
    ensures words.Digest() == Weak(window)
  {
  }
}
