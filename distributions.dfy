/**
  The integer skeleton of the noise sampler in `src/distributions.h`: the byte cursor of the
  secure random generator, the geometric count of leading zero bits, the bit assembly of a
  uniform double, and the binary search of the geometric distribution's sampler.

  Random bytes, random words, the outcomes of floating-point comparisons and the
  floating-point split point of the search are inputs of the model (oracles); only the
  integer control flow around them is modelled.
 */
module NoiseSampler {

  /** `uint64_t`. */
  const WordLimit: nat := 0x1_0000_0000_0000_0000
  type Word = x: int | 0 <= x < 0x1_0000_0000_0000_0000

  /** `int64_t`. */
  const Int64Max: int := 0x7FFF_FFFF_FFFF_FFFF
  type Int64 = x: int | -0x8000_0000_0000_0000 <= x <= 0x7FFF_FFFF_FFFF_FFFF

  /** `kMantDigits`: `DBL_MANT_DIG - 1` with the binary64 format's 53 digits. */
  const MantDigits: nat := 52

  /** `1 << kMantDigits`; `kMantissaMask` is one less. */
  const MantissaLimit: nat := 0x10_0000_0000_0000

  /** `kBufferSize`: the bytes fetched from the system generator at a time. */
  const BufferSize: nat := 65536

  /** `sizeof(result_type)`: the bytes of one `uint64_t`. */
  const WordBytes: nat := 8

  function Pow2(k: nat): (p: nat)
    ensures p >= 1
  {
    if k == 0 then 1 else 2 * Pow2(k - 1)
  }

  lemma Pow2Values()
    ensures Pow2(12) == 0x1000 && Pow2(52) == 0x10_0000_0000_0000 && Pow2(64) == WordLimit
  {
    assert Pow2(4) == 16;
    assert Pow2(8) == 256;
    assert Pow2(12) == 0x1000;
    assert Pow2(16) == 0x1_0000;
    assert Pow2(24) == 0x100_0000;
    assert Pow2(32) == 0x1_0000_0000;
    assert Pow2(40) == 0x100_0000_0000;
    assert Pow2(48) == 0x1_0000_0000_0000;
    assert Pow2(52) == 0x10_0000_0000_0000;
    assert Pow2(56) == 0x100_0000_0000_0000;
    assert Pow2(60) == 0x1000_0000_0000_0000;
  }

  /**
    `absl::countl_zero` on a `width`-bit value: the number of zero bits above the highest
    set bit, `width` for zero.
   */
  function CountlZero(x: nat, width: nat): (r: nat)
    requires x < Pow2(width)
    ensures r <= width
    ensures r == width <==> x == 0
    ensures x < Pow2(width - r)
    ensures r < width ==> x >= Pow2(width - r - 1)
  {
    if width == 0 then 0
    else if x >= Pow2(width - 1) then 0
    else 1 + CountlZero(x, width - 1)
  }

  /** `countl_zero` on a `uint64_t`. */
  function Clz64(x: Word): (r: nat)
    ensures r <= 64 && (r == 64 <==> x == 0)
  {
    Pow2Values();
    CountlZero(x, 64)
  }

  // ---------------------------------------------------------------------------
  // `SecureURBG`
  // ---------------------------------------------------------------------------

  /** The bytes of a `uint64_t` as `memcpy` reads them on a little-endian machine. */
  function LittleEndian(bytes: seq<bv8>): (r: nat)
    ensures r < Pow256(|bytes|)
  {
    if bytes == [] then 0 else bytes[0] as nat + 256 * LittleEndian(bytes[1..])
  }

  function Pow256(k: nat): (p: nat)
    ensures p >= 1
  {
    if k == 0 then 1 else 256 * Pow256(k - 1)
  }

  lemma WordBytesFit()
    ensures Pow256(WordBytes) == WordLimit
  {
    assert Pow256(2) == 0x1_0000;
    assert Pow256(4) == 0x1_0000_0000;
    assert Pow256(6) == 0x1_0000_0000_0000;
  }

  /** The word `memcpy` builds from eight bytes. */
  function WordOf(bytes: seq<bv8>): (w: Word)
    requires |bytes| == WordBytes
  {
    WordBytesFit();
    LittleEndian(bytes)
  }

  /**
    `SecureURBG`: a buffer of random bytes and the cursor of the next unread byte. The
    cursor starts at the end of the buffer so that the first draw refreshes it.
   */
  class SecureURBG {
    var buffer: array<bv8>
    var currentIndex: int

    /** The buffer has its fixed size and the cursor, a multiple of 8, lies within it. */
    ghost predicate Valid()
      reads this
    {
      buffer.Length == BufferSize && 0 <= currentIndex <= BufferSize && currentIndex % WordBytes == 0
    }

    constructor ()
      ensures Valid() && fresh(buffer) && currentIndex == BufferSize
    {
      buffer := new bv8[BufferSize];
      currentIndex := BufferSize;
    }

    /**
      `RefreshBuffer()`: `RAND_bytes` fills the buffer (its bytes are given here as
      `randomBytes`; a failure is only reported) and the cursor returns to the start.
     */
    method RefreshBuffer(randomBytes: seq<bv8>)
      requires Valid() && |randomBytes| == BufferSize
      modifies buffer, this`currentIndex
      ensures Valid() && buffer[..] == randomBytes && currentIndex == 0
    {
      forall i | 0 <= i < buffer.Length {
        buffer[i] := randomBytes[i];
      }
      currentIndex := 0;
    }

    /**
      `operator()()`: refresh when fewer than eight bytes remain, then return the eight
      bytes at the cursor and advance it past them. `randomBytes` is what a refresh would
      fetch.
     */
    method Next(randomBytes: seq<bv8>) returns (result: Word)
      requires Valid() && |randomBytes| == BufferSize
      modifies buffer, this`currentIndex
      ensures Valid()
      ensures old(currentIndex) + WordBytes > BufferSize <==> old(currentIndex) == BufferSize
      ensures old(currentIndex) + WordBytes > BufferSize ==> buffer[..] == randomBytes && currentIndex == WordBytes
      ensures old(currentIndex) + WordBytes <= BufferSize ==>
                buffer[..] == old(buffer[..]) && currentIndex == old(currentIndex) + WordBytes
      ensures result == WordOf(buffer[currentIndex - WordBytes..currentIndex])
    {
      if currentIndex + WordBytes > BufferSize {
        RefreshBuffer(randomBytes);
      }
      var oldIndex := currentIndex;
      currentIndex := currentIndex + WordBytes;
      result := WordOf(buffer[oldIndex..oldIndex + WordBytes]);
    }
  }

  // ---------------------------------------------------------------------------
  // `Geometric()`
  // ---------------------------------------------------------------------------

  /**
    What `Geometric()` returns when its loop is entered with `result == acc` and its next
    word is `draw(k)`: every zero word adds 64 and continues while the count is below 1023;
    the first non-zero word adds its leading zeros and stops.
   */
  function GeometricFrom(draw: nat -> Word, k: nat, acc: nat): nat
    decreases 1023 - acc
  {
    if acc >= 1023 then acc
    else if draw(k) == 0 then GeometricFrom(draw, k + 1, acc + 64)
    else acc + Clz64(draw(k))
  }

  /**
    The count stays in `[1, 1025]`: starting from 1 it moves in steps of 64 through zero
    words (at most 16 of them) and ends with at most 63 more.
   */
  lemma {:induction false} GeometricFromRange(draw: nat -> Word, k: nat, acc: nat)
    requires 1 <= acc <= 1025 && acc % 64 == 1
    ensures 1 <= GeometricFrom(draw, k, acc) <= 1025
    decreases 1023 - acc
  {
    if acc < 1023 && draw(k) == 0 {
      GeometricFromRange(draw, k + 1, acc + 64);
    }
  }

  lemma StepKeepsResidue(acc: nat)
    requires acc % 64 == 1 && acc < 1023
    ensures (acc + 64) % 64 == 1 && acc <= 961
  {
  }

  /**
    `Geometric()`: the number of leading zero bits of a stream of random words, plus one,
    cut off once it reaches 1023 (the words are `draw(0), draw(1), ...`).
   */
  method Geometric(draw: nat -> Word) returns (result: nat)
    ensures result == GeometricFrom(draw, 0, 1)
    ensures 1 <= result <= 1025
  {
    result := 1;
    var r: Word := 0;
    var k: nat := 0;
    while r == 0 && result < 1023
      invariant 1 <= result <= 1025
      invariant r == 0 ==> result % 64 == 1 && GeometricFrom(draw, k, result) == GeometricFrom(draw, 0, 1)
      invariant r != 0 ==> result == GeometricFrom(draw, 0, 1)
      decreases 1100 - result + (if r == 0 then 1 else 0)
    {
      StepKeepsResidue(result);
      r := draw(k);
      result := result + Clz64(r);
      k := k + 1;
    }
    GeometricFromRange(draw, 0, 1);
  }

  // ---------------------------------------------------------------------------
  // `UniformDouble()`
  // ---------------------------------------------------------------------------

  /** The IEEE 754 binary64 bit pattern of `1.0`. */
  const OneBits: nat := 1023 * MantissaLimit

  /**
    `UniformDouble()`, up to the final `memcpy`: the low 52 bits of the word `w` are the
    mantissa, the leading zeros of its top 12 bits (continued by `Geometric()` over `draw`
    when they are all zero) give the exponent below the bias, and the result is the bit
    pattern of the double, with `0.0` replaced by `1.0`.
   */
  method UniformDouble(w: Word, draw: nat -> Word) returns (bits: Word, mantissa: nat, exponent: nat)
    ensures mantissa == w % MantissaLimit && mantissa < MantissaLimit
    ensures exponent >= 1
    ensures w >= MantissaLimit ==> exponent <= 12 && exponent == Clz64(w / MantissaLimit) - MantDigits + 1
    ensures w < MantissaLimit ==> exponent == 12 + GeometricFrom(draw, 0, 1)
    ensures var raw := if exponent < 1023 then (1023 - exponent) * MantissaLimit + mantissa else mantissa;
            bits == if raw == 0 then OneBits else raw
    ensures 0 < bits <= OneBits
  {
    SplitWord(w);
    var i: nat := w % MantissaLimit;
    mantissa := i;
    var j: nat := w / MantissaLimit;
    exponent := ExponentOf(j, draw);
    var shifted: nat := 0;
    if exponent < 1023 {
      shifted := ((1023 - exponent) % WordLimit) * MantissaLimit % WordLimit;
    }
    AssembleFits(i, exponent, shifted);
    var sum := i + shifted;
    bits := if sum == 0 then OneBits else sum;
  }

  /**
    The exponent below the bias that `UniformDouble()` reads off the top 12 bits `j` of its word:
    the leading zeros of `j` in 64 bits, less 51, and `Geometric()` more when `j` is zero.
   */
  method ExponentOf(j: nat, draw: nat -> Word) returns (exponent: nat)
    requires j < Pow2(12)
    ensures j != 0 ==> 1 <= exponent <= 12 && exponent == Clz64(j) - MantDigits + 1
    ensures j == 0 ==> exponent == 12 + GeometricFrom(draw, 0, 1)
  {
    Pow2Values();
    var clz := Clz64(j);
    assert clz >= 52 by {
      CountlZeroSmall(j, 12, 64);
    }
    exponent := clz - MantDigits + 1;
    if j == 0 {
      var g := Geometric(draw);
      exponent := exponent + g - 1;
    }
  }

  /** The top 12 bits of a word are zero exactly when the word is below `2^52`. */
  lemma SplitWord(w: Word)
    ensures MantissaLimit > 0 && w % MantissaLimit < MantissaLimit
    ensures 0 <= w / MantissaLimit < Pow2(12)
    ensures w >= MantissaLimit <==> w / MantissaLimit != 0
  {
    Pow2Values();
    var p := MantissaLimit;
    var q := w / p;
    assert w == q * p + w % p;
    assert q * p == q * 0x10_0000_0000_0000;
  }

  /** The mantissa plus the shifted exponent is the bit pattern of a double in `[0, 1]`, with no 64-bit wrap. */
  lemma AssembleFits(mantissa: nat, exponent: nat, shifted: nat)
    requires mantissa < MantissaLimit && exponent >= 1
    requires shifted == if exponent < 1023 then ((1023 - exponent) % WordLimit) * MantissaLimit % WordLimit else 0
    ensures mantissa + shifted == if exponent < 1023 then (1023 - exponent) * MantissaLimit + mantissa else mantissa
    ensures mantissa + shifted <= OneBits < WordLimit
  {
    Pow2Values();
    if exponent < 1023 {
      ShiftFits(exponent);
    }
  }

  lemma ModOfSmall(x: nat, y: nat)
    requires x < y
    ensures x % y == x
  {
  }

  /** Below the bias, the biased exponent shifted into place fits in a word, so the 64-bit arithmetic does not wrap. */
  lemma ShiftFits(exponent: nat)
    requires exponent < 1023
    ensures ((1023 - exponent) % WordLimit) * MantissaLimit % WordLimit == (1023 - exponent) * MantissaLimit
    ensures exponent >= 1 ==> (1023 - exponent) * MantissaLimit + MantissaLimit <= OneBits
  {
    Pow2Values();
    var m := 1023 - exponent;
    var p := MantissaLimit;
    ModOfSmall(m, WordLimit);
    assert m * p == m * 0x10_0000_0000_0000;
    assert m * 0x10_0000_0000_0000 <= OneBits < WordLimit;
    assert exponent >= 1 ==> m * 0x10_0000_0000_0000 + 0x10_0000_0000_0000 <= OneBits;
    ModOfSmall(m * p, WordLimit);
  }

  /** A value below `2^small` has at least `width - small` leading zeros in a `width`-bit word. */
  lemma {:induction false} CountlZeroSmall(x: nat, small: nat, width: nat)
    requires small <= width && x < Pow2(small)
    ensures x < Pow2(width) && CountlZero(x, width) >= width - small
    decreases width
  {
    Pow2Monotone(small, width);
    if width > small {
      Pow2Monotone(small, width - 1);
      CountlZeroSmall(x, small, width - 1);
    }
  }

  lemma {:induction false} Pow2Monotone(a: nat, b: nat)
    requires a <= b
    ensures Pow2(a) <= Pow2(b)
    decreases b
  {
    if a < b {
      Pow2Monotone(a, b - 1);
    }
  }

  // ---------------------------------------------------------------------------
  // `GeometricDistribution::Sample()`
  // ---------------------------------------------------------------------------

  function Clamp(x: int, lo: int, hi: int): (r: int)
    requires lo <= hi
    ensures lo <= r <= hi
    ensures lo <= x <= hi ==> r == x
  {
    if x < lo then lo else if x > hi then hi else x
  }

  /**
    The binary search of `Sample()` from the interval `(lo, hi]`: `proposal(lo, hi)` stands
    for the floating-point split point, clamped into `[lo + 1, hi - 1]`, and `goLeft(k)` for
    the outcome of the `k`-th comparison of a uniform double with `q`. Whatever the oracles
    answer, the search ends inside the interval it started from.
   */
  function Search(lo: int, hi: int, k: nat, proposal: (int, int) -> Int64, goLeft: nat -> bool): (r: int)
    requires 0 <= lo < hi <= Int64Max
    ensures lo <= r < hi
    decreases hi - lo
  {
    if hi - lo <= 1 then hi - 1
    else
      var mid := Clamp(proposal(lo, hi), lo + 1, hi - 1);
      if goLeft(k) then Search(lo, mid, k + 1, proposal, goLeft) else Search(mid, hi, k + 1, proposal, goLeft)
  }

  /**
    `GeometricDistribution::Sample()`. `lambdaIsInfinite` is the test `lambda_ == infinity`,
    `saturates` the outcome of the first comparison of a uniform double with the probability
    of exceeding `INT64_MAX`.
   */
  method Sample(lambdaIsInfinite: bool, saturates: bool, proposal: (int, int) -> Int64, goLeft: nat -> bool)
      returns (s: Int64)
    ensures lambdaIsInfinite ==> s == 0
    ensures !lambdaIsInfinite && saturates ==> s == Int64Max
    ensures !lambdaIsInfinite && !saturates ==> s == Search(0, Int64Max, 0, proposal, goLeft) && 0 <= s < Int64Max
  {
    if lambdaIsInfinite {
      return 0;
    }
    if saturates {
      return Int64Max;
    }
    var lo: Int64 := 0;
    var hi: Int64 := Int64Max;
    var k: nat := 0;
    while hi - lo > 1
      invariant 0 <= lo < hi <= Int64Max
      invariant Search(lo, hi, k, proposal, goLeft) == Search(0, Int64Max, 0, proposal, goLeft)
      decreases hi - lo
    {
      var mid := proposal(lo, hi);
      mid := Clamp(mid, lo + 1, hi - 1);
      if goLeft(k) {
        hi := mid;
      } else {
        lo := mid;
      }
      k := k + 1;
    }
    s := hi - 1;
  }
}
