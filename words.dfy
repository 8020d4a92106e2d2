/**
 * Fixed-width machine values of the reader firmware.
 *
 * The firmware runs on a 32-bit target: `unsigned long` and `unsigned int`
 * are 32 bits wide, `unsigned char` is 8 bits wide. The shift registers
 * (`bitHolder1`, `bitHolder2`) and the canonical chunks (`cardChunk1`,
 * `cardChunk2`) are only ever shifted and read or written bit by bit, so
 * they are modelled as their 32 bits: a `Word` is a sequence of 32 booleans
 * where index i is the bit of weight 2^i.
 */
module Words {

  /** Two to the power k. */
  function Pow2(k: nat): (r: nat)
    ensures r >= 1
  {
    if k == 0 then 1 else 2 * Pow2(k - 1)
  }

  /** 2^32: every `unsigned long` and `unsigned int` computation is modulo this. */
  const Modulus: nat := 0x1_0000_0000

  type UInt32 = x: int | 0 <= x < 0x1_0000_0000
  type Byte = x: int | 0 <= x < 0x100

  const WordBits: nat := 32

  /** A 32-bit register, bit i at index i. */
  type Word = s: seq<bool> | |s| == 32 witness seq(32, i => false)

  /** The register holding 0. */
  function Zero(): Word { seq(32, i => false) }

  function Min(a: int, b: int): int
  {
    if a < b then a else b
  }

  function BitValue(b: bool): nat
  {
    if b then 1 else 0
  }

  /** The unsigned number whose little-endian bits are `s` (s[0] has weight 1). */
  function Value(s: seq<bool>): nat
  {
    if s == [] then 0 else BitValue(s[0]) + 2 * Value(s[1..])
  }

  /** `(x << 1) | b` on a 32-bit register: the top bit is shifted out. */
  function ShiftIn(x: Word, b: bool): Word
  {
    [b] + x[..31]
  }

  /** The big-endian value of a sequence of bits stored one per byte (first bit most significant). */
  function BigEndian(bits: seq<Byte>): nat
  {
    if bits == [] then 0 else 2 * BigEndian(bits[..|bits| - 1]) + bits[|bits| - 1]
  }

  /** A sequence of bytes each of which is 0 or 1. */
  predicate IsBitString(bits: seq<Byte>)
  {
    forall i :: 0 <= i < |bits| ==> bits[i] <= 1
  }

  /** A frame of bits (true = 1) stored one per byte, as the capture buffer holds it. */
  function ToBytes(w: seq<bool>): (r: seq<Byte>)
    ensures |r| == |w| && IsBitString(r)
    ensures forall i :: 0 <= i < |w| ==> r[i] == BitValue(w[i])
  {
    seq(|w|, i requires 0 <= i < |w| => BitValue(w[i]))
  }

  lemma {:induction false} Pow2Add(a: nat, b: nat)
    ensures Pow2(a + b) == Pow2(a) * Pow2(b)
    decreases a
  {
    if a > 0 {
      Pow2Add(a - 1, b);
    }
  }

  lemma {:induction false} Pow2Monotone(a: nat, b: nat)
    requires a <= b
    ensures Pow2(a) <= Pow2(b)
    decreases b
  {
    if a < b {
      Pow2Monotone(a, b - 1);
    }
  }

  /** A value of k bits is below 2^k. */
  lemma {:induction false} ValueBound(s: seq<bool>)
    ensures Value(s) < Pow2(|s|)
  {
    if s != [] {
      ValueBound(s[1..]);
    }
  }

  /** Concatenating bits above `a` adds their value times 2^|a|. */
  lemma {:induction false} ValueAppend(a: seq<bool>, b: seq<bool>)
    ensures Value(a + b) == Value(a) + Pow2(|a|) * Value(b)
  {
    if a != [] {
      assert (a + b)[1..] == a[1..] + b;
      ValueAppend(a[1..], b);
      AppendStep(BitValue(a[0]), Value(a[1..]), Pow2(|a| - 1), Value(b));
    } else {
      assert a + b == b;
    }
  }

  lemma {:induction false} AppendStep(d: int, x: int, p: int, v: int)
    ensures d + 2 * (x + p * v) == (d + 2 * x) + (2 * p) * v
  {
  }

  /** Bits that are all clear have value 0. */
  lemma {:induction false} ValueAllClear(s: seq<bool>)
    requires forall i :: 0 <= i < |s| ==> !s[i]
    ensures Value(s) == 0
  {
    if s != [] {
      ValueAllClear(s[1..]);
    }
  }

  lemma {:induction false} ValueOfPrefix(s: seq<bool>, k: nat)
    requires k <= |s|
    ensures Value(s[..k]) == Value(s) % Pow2(k)
    ensures Value(s[k..]) == Value(s) / Pow2(k)
  {
    var lo, hi := s[..k], s[k..];
    assert s == lo + hi;
    ValueAppend(lo, hi);
    ValueBound(lo);
    DivModSplit(Value(s), Pow2(k), Value(lo), Value(hi));
  }

  /** `x == b * p + a` with `0 <= a < p` determines `x / p` and `x % p`. */
  lemma {:induction false} QuotientAbove(x: nat, p: nat, b: nat, a: nat)
    requires a < p && x == b * p + a
    ensures x / p == b && x % p == a
  {
    DivModUnique(x, p, b, a);
  }

  /** `x == a + p * b` with `0 <= a < p` determines `x % p` and `x / p`. */
  lemma {:induction false} DivModSplit(x: nat, p: nat, a: nat, b: nat)
    requires 0 <= a < p && x == a + p * b
    ensures x % p == a && x / p == b
  {
    DivModUnique(x, p, b, a);
  }

  /** The value of the bits at positions [lo, lo + k): `(x >> lo) mod 2^k`. */
  lemma {:induction false} ValueOfSlice(s: seq<bool>, lo: nat, k: nat)
    requires lo + k <= |s|
    ensures Value(s[lo..lo + k]) == (Value(s) / Pow2(lo)) % Pow2(k)
  {
    ValueOfPrefix(s, lo);
    ValueOfPrefix(s[lo..], k);
    assert s[lo..][..k] == s[lo..lo + k];
  }

  lemma {:induction false} MulAtLeast(k: int, d: nat)
    requires k >= 1
    ensures k * d >= d
  {
    assert k * d == (k - 1) * d + d;
    assert (k - 1) * d >= 0;
  }

  /** Quotient and remainder are determined by `x == q * d + r` with `0 <= r < d`. */
  lemma {:induction false} DivModUnique(x: nat, d: nat, q: nat, r: nat)
    requires d > 0 && r < d && x == q * d + r
    ensures x / d == q && x % d == r
  {
    var q', r' := x / d, x % d;
    assert x == q' * d + r';
    assert (q - q') * d == r' - r;
    if q > q' {
      MulAtLeast(q - q', d);
    } else if q < q' {
      MulAtLeast(q' - q, d);
    }
  }

  lemma {:induction false} Pow2Of31()
    ensures Pow2(31) == 0x8000_0000
  {
    Pow2Add(16, 15);
    Pow2Add(8, 8);
    Pow2Add(8, 7);
    assert Pow2(8) == 256 && Pow2(7) == 128;
  }

  /**
   * Shifting a bit into a register is `(2x + b) mod 2^32` on its value:
   * the Word model of `(x << 1) | b` agrees with 32-bit arithmetic.
   */
  lemma {:induction false} ShiftInValue(x: Word, b: bool)
    ensures Value(ShiftIn(x, b)) == (2 * Value(x) + BitValue(b)) % Modulus
  {
    var y := ShiftIn(x, b);
    assert y[1..] == x[..31];
    ValueOfPrefix(x, 31);
    Pow2Of31();
    var lo := Value(x[..31]);
    var hi := Value(x[31..]);
    assert x[31..] == [x[31]];
    assert hi == BitValue(x[31]);
    ValueBound(x[..31]);
    assert Value(x) == lo + 0x8000_0000 * hi;
    assert Value(y) == BitValue(b) + 2 * lo;
    DivModUnique(2 * Value(x) + BitValue(b), Modulus, hi, BitValue(b) + 2 * lo);
  }

  /**
   * A register whose low |w| bits hold the frame `w` in reverse (the last bit
   * received in bit 0) and whose other bits are clear has the big-endian value
   * of the frame.
   */
  lemma {:induction false} ValueOfReversed(s: seq<bool>, w: seq<bool>)
    requires |w| <= |s|
    requires forall j :: 0 <= j < |s| ==> s[j] == (j < |w| && w[|w| - 1 - j])
    ensures Value(s) == BigEndian(ToBytes(w))
  {
    if w == [] {
      ValueAllClear(s);
    } else {
      var w' := w[..|w| - 1];
      assert ToBytes(w)[..|w| - 1] == ToBytes(w');
      ValueOfReversed(s[1..], w');
    }
  }

  /** Concatenating bit strings: the left part is worth 2^|right| times its value. */
  lemma {:induction false} BigEndianAppend(a: seq<Byte>, b: seq<Byte>)
    ensures BigEndian(a + b) == BigEndian(a) * Pow2(|b|) + BigEndian(b)
  {
    if b == [] {
      assert a + b == a;
    } else {
      var b' := b[..|b| - 1];
      assert (a + b)[..|a + b| - 1] == a + b';
      BigEndianAppend(a, b');
      DoubleStep(BigEndian(a), Pow2(|b'|), BigEndian(b'), b[|b| - 1]);
    }
  }

  lemma {:induction false} DoubleStep(x: int, p: int, y: int, d: int)
    ensures 2 * (x * p + y) + d == x * (2 * p) + (2 * y + d)
  {
  }

  /** Two bit strings of the same length with the same big-endian value are equal. */
  lemma {:induction false} BigEndianInjective(a: seq<Byte>, b: seq<Byte>)
    requires IsBitString(a) && IsBitString(b) && |a| == |b|
    requires BigEndian(a) == BigEndian(b)
    ensures a == b
  {
    if a != [] {
      var a', b' := a[..|a| - 1], b[..|b| - 1];
      assert a[|a| - 1] == b[|b| - 1] by {
        DivModUnique(BigEndian(a), 2, BigEndian(a'), a[|a| - 1]);
        DivModUnique(BigEndian(b), 2, BigEndian(b'), b[|b| - 1]);
      }
      BigEndianInjective(a', b');
      assert a == a' + [a[|a| - 1]];
      assert b == b' + [b[|b| - 1]];
    }
  }

  /** Splitting a bit string at k: the first k bits are the quotient and the rest the remainder by 2^(|s| - k). */
  lemma {:induction false} BigEndianSplit(s: seq<Byte>, k: nat)
    requires IsBitString(s) && k <= |s|
    ensures BigEndian(s[..k]) == BigEndian(s) / Pow2(|s| - k)
    ensures BigEndian(s[k..]) == BigEndian(s) % Pow2(|s| - k)
  {
    BigEndianAt(s, k);
    var lo := s[k..];
    assert IsBitString(lo);
    BigEndianBound(lo);
    QuotientAbove(BigEndian(s), Pow2(|s| - k), BigEndian(s[..k]), BigEndian(lo));
  }

  /** A bit string is its first k bits shifted up past the rest, plus the rest. */
  lemma {:induction false} BigEndianAt(s: seq<Byte>, k: nat)
    requires k <= |s|
    ensures BigEndian(s) == BigEndian(s[..k]) * Pow2(|s| - k) + BigEndian(s[k..])
  {
    assert s == s[..k] + s[k..];
    BigEndianAppend(s[..k], s[k..]);
  }

  /** The big-endian value of k bits each 0 or 1 is below 2^k. */
  lemma {:induction false} BigEndianBound(bits: seq<Byte>)
    requires IsBitString(bits)
    ensures BigEndian(bits) < Pow2(|bits|)
  {
    if bits != [] {
      BigEndianBound(bits[..|bits| - 1]);
    }
  }
}

/** An optional value: a table lookup that may miss, a search that may find nothing. */
module Optional {
  datatype Option<T> = None | Some(value: T)
}
