/**
 * The HID frame formats and the canonical hexadecimal re-encoding.
 *
 * A frame's bit count selects one of ten decode plans: where the facility
 * code and the card number lie in the frame, and three offsets with which
 * `setCardChunkBits` re-packs the two shift accumulators into two chunks,
 * walking over 20 bit positions: chunk 1 (14 bits, below 0x4000) and
 * chunk 2 (24 bits). `hexCardData` is chunk 1 in hexadecimal followed by chunk 2 in
 * hexadecimal zero-padded to six digits.
 */
module Formats {
  import opened Words
  import opened Optional
  import opened Text

  /** Facility-code range [fcStart, fcEnd), card-number range [cnStart, cnEnd), and the packing offsets. */
  datatype Plan = Plan(
    fcStart: nat, fcEnd: nat,
    cnStart: nat, cnEnd: nat,
    chunk1Offset: nat, bitHolderOffset: nat, chunk2Offset: nat)

  /**
   * The switch of processHIDCard: a plan per supported bit count.
   *
   * The table's shape: exactly the ten supported lengths have a plan; in
   * every row chunk1Offset + bitHolderOffset = 22 and chunk2Offset +
   * bitHolderOffset = 24, chunk1Offset = n - 24 lies below the marker bit,
   * chunk2Offset = n - 22, and both ranges are non-empty, lie inside the
   * frame and are at most 24 bits wide (so a 32-bit decode never truncates
   * them).
   */
  function PlanFor(bitCount: nat): (r: Option<Plan>)
    ensures r.Some? <==> bitCount in Supported
    ensures r.Some? ==>
      var p := r.value;
      && p.chunk1Offset + p.bitHolderOffset == 22
      && p.chunk2Offset + p.bitHolderOffset == 24
      && p.chunk1Offset == bitCount - 24 && p.chunk2Offset == bitCount - 22
      && 0 < p.chunk1Offset < MarkerBit && p.bitHolderOffset <= ChunkBits
      && p.fcStart < p.fcEnd <= bitCount && p.fcEnd - p.fcStart <= 24
      && p.cnStart < p.cnEnd <= bitCount && p.cnEnd - p.cnStart <= 24
      && InWord(p.chunk1Offset, p.bitHolderOffset, p.chunk2Offset)
  {
    match bitCount
    case 26 => Some(Plan(1, 9, 9, 25, 2, 20, 4))
    case 27 => Some(Plan(1, 13, 13, 27, 3, 19, 5))
    case 29 => Some(Plan(1, 13, 13, 29, 5, 17, 7))
    case 30 => Some(Plan(1, 13, 13, 29, 6, 16, 8))
    case 31 => Some(Plan(1, 5, 5, 28, 7, 15, 9))
    case 32 => Some(Plan(5, 16, 17, 32, 8, 14, 10))
    case 33 => Some(Plan(1, 8, 8, 32, 9, 13, 11))
    case 34 => Some(Plan(1, 17, 17, 33, 10, 12, 12))
    case 35 => Some(Plan(2, 14, 14, 34, 11, 11, 13))
    case 36 => Some(Plan(21, 33, 1, 17, 12, 10, 14))
    case _ => None
  }

  const Supported: set<nat> := {26, 27, 29, 30, 31, 32, 33, 34, 35, 36}

  /** The fixed framing bit of chunk 1. */
  const MarkerBit: nat := 13
  /** setCardChunkBits walks bit positions 19 down to 0. */
  const ChunkBits: nat := 20

  /**
   * Every bit position setCardChunkBits reads or writes lies inside a
   * 32-bit word (shifting by 32 or more is undefined in C).
   */
  predicate InWord(off1: nat, bho: nat, off2: nat)
  {
    (off1 > 0 ==> Min(off1, ChunkBits) + bho <= WordBits)
    && (bho > 0 ==> off2 + Min(bho, ChunkBits) <= WordBits)
  }

  /** The bit setCardChunkBits writes at position i < 20 of cardChunk1. */
  function Chunk1Bit(h1: Word, off1: nat, bho: nat, i: nat): bool
    requires i < ChunkBits && InWord(off1, bho, 0)
  {
    if i == MarkerBit || i == off1 then true
    else if i > off1 then false
    else h1[i + bho]
  }

  /** cardChunk1 after setCardChunkBits(off1, bho, _): bits 0..19 rewritten, the rest kept. */
  function PackChunk1(c1: Word, h1: Word, off1: nat, bho: nat): Word
    requires InWord(off1, bho, 0)
  {
    seq(WordBits, j requires 0 <= j < WordBits => if j < ChunkBits then Chunk1Bit(h1, off1, bho, j) else c1[j])
  }

  /**
   * cardChunk2 after setCardChunkBits(_, bho, off2): bit i of bitHolder2
   * goes to bit i for i < off2, bit i of bitHolder1 goes to bit i + off2 for
   * i < bho (both for i < 20 only), every other bit is kept.
   */
  function PackChunk2(c2: Word, h1: Word, h2: Word, bho: nat, off2: nat): Word
    requires InWord(0, bho, off2)
  {
    seq(WordBits, j requires 0 <= j < WordBits =>
      if j < Min(off2, ChunkBits) then h2[j]
      else if off2 <= j && j - off2 < Min(bho, ChunkBits) then h1[j - off2]
      else c2[j])
  }

  /**
   * cardChunk1 part-way through setCardChunkBits: positions lo..19 already
   * rewritten, the rest as before.
   */
  function Chunk1From(c1: Word, h1: Word, off1: nat, bho: nat, lo: nat): Word
    requires InWord(off1, bho, 0)
  {
    seq(WordBits, j requires 0 <= j < WordBits => if lo <= j < ChunkBits then Chunk1Bit(h1, off1, bho, j) else c1[j])
  }

  /** cardChunk2 part-way through setCardChunkBits: the writes of positions lo..19 done. */
  function Chunk2From(c2: Word, h1: Word, h2: Word, bho: nat, off2: nat, lo: nat): Word
    requires InWord(0, bho, off2)
  {
    seq(WordBits, j requires 0 <= j < WordBits =>
      if lo <= j < Min(off2, ChunkBits) then h2[j]
      else if off2 <= j && lo <= j - off2 < Min(bho, ChunkBits) then h1[j - off2]
      else c2[j])
  }

  /** Before the first step nothing is rewritten; after the last, the chunks are packed. */
  lemma {:induction false} ChunkWalkEnds(c1: Word, c2: Word, h1: Word, h2: Word, off1: nat, bho: nat, off2: nat)
    requires InWord(off1, bho, off2)
    ensures Chunk1From(c1, h1, off1, bho, ChunkBits) == c1
    ensures Chunk2From(c2, h1, h2, bho, off2, ChunkBits) == c2
    ensures Chunk1From(c1, h1, off1, bho, 0) == PackChunk1(c1, h1, off1, bho)
    ensures Chunk2From(c2, h1, h2, bho, off2, 0) == PackChunk2(c2, h1, h2, bho, off2)
  {
    var c := Chunk2From(c2, h1, h2, bho, off2, ChunkBits);
    assert Min(off2, ChunkBits) <= ChunkBits && Min(bho, ChunkBits) <= ChunkBits;
    forall j | 0 <= j < WordBits
      ensures c[j] == c2[j]
    {
    }
  }

  /** One step of setCardChunkBits on cardChunk1: position i gets its bit. */
  lemma {:induction false} Chunk1Step(c1: Word, h1: Word, off1: nat, bho: nat, i: nat)
    requires InWord(off1, bho, 0) && i < ChunkBits
    ensures Chunk1From(c1, h1, off1, bho, i) == Chunk1From(c1, h1, off1, bho, i + 1)[i := Chunk1Bit(h1, off1, bho, i)]
  {
  }

  /**
   * One step of setCardChunkBits on cardChunk2: bit i of bitHolder1 goes to
   * i + off2 when i < bho, then bit i of bitHolder2 goes to i when i < off2.
   */
  lemma {:induction false} Chunk2Step(c2: Word, h1: Word, h2: Word, bho: nat, off2: nat, i: nat)
    requires InWord(0, bho, off2) && i < ChunkBits
    ensures var prev := Chunk2From(c2, h1, h2, bho, off2, i + 1);
      var mid := if i < bho then prev[i + off2 := h1[i]] else prev;
      Chunk2From(c2, h1, h2, bho, off2, i) == if i < off2 then mid[i := h2[i]] else mid
  {
    var prev := Chunk2From(c2, h1, h2, bho, off2, i + 1);
    var mid := if i < bho then prev[i + off2 := h1[i]] else prev;
    var next := if i < off2 then mid[i := h2[i]] else mid;
    var c := Chunk2From(c2, h1, h2, bho, off2, i);
    forall j | 0 <= j < WordBits
      ensures c[j] == next[j]
    {
      var m2, mb := Min(off2, ChunkBits), Min(bho, ChunkBits);
      assert c[j] == if i <= j < m2 then h2[j] else if off2 <= j && i <= j - off2 < mb then h1[j - off2] else c2[j];
      assert prev[j] == if i + 1 <= j < m2 then h2[j] else if off2 <= j && i + 1 <= j - off2 < mb then h1[j - off2] else c2[j];
      if j == i && i < off2 {
        assert next[j] == h2[i];
      } else if j == i + off2 && i < bho {
        assert next[j] == h1[i];
      } else {
        assert next[j] == prev[j];
      }
    }
  }

  /** `String(cardChunk1, HEX) + prefixPad(String(cardChunk2, HEX), '0', 6)`. */
  function HexCardData(c1: Word, c2: Word): string
  {
    HexString(Value(c1)) + Padded(HexString(Value(c2)), '0', 6)
  }

  lemma {:induction false} Pow2Of13()
    ensures Pow2(13) == 0x2000
  {
  }

  /** A sequence whose only set bit is at position a has value 2^a. */
  lemma {:induction false} ValueOneBit(s: seq<bool>, a: nat)
    requires a < |s|
    requires forall j :: 0 <= j < |s| ==> s[j] == (j == a)
    ensures Value(s) == Pow2(a)
  {
    if a == 0 {
      ValueAllClear(s[1..]);
    } else {
      ValueOneBit(s[1..], a - 1);
    }
  }

  /** Splitting a sequence of bits at k: the upper part is worth 2^k times its value. */
  lemma {:induction false} ValueSplit(s: seq<bool>, k: nat)
    requires k <= |s|
    ensures Value(s) == Value(s[..k]) + Pow2(k) * Value(s[k..])
  {
    assert s == s[..k] + s[k..];
    ValueAppend(s[..k], s[k..]);
  }

  /** The upper part of chunk 1, from bit off1 on: set at off1 and at 13, clear elsewhere. */
  lemma {:induction false} Chunk1Upper(u: seq<bool>, m: nat)
    requires 0 < m < |u|
    requires forall j :: 0 <= j < |u| ==> u[j] == (j == 0 || j == m)
    ensures Value(u) == 1 + Pow2(m)
  {
    ValueSplit(u, 1);
    assert Value(u[..1]) == 1;
    ValueOneBit(u[1..], m - 1);
  }

  /** The bits setCardChunkBits leaves in a zero cardChunk1, split at off1. */
  lemma {:induction false} Chunk1Parts(h1: Word, off1: nat, bho: nat)
    requires 0 < off1 < MarkerBit && off1 + bho <= WordBits
    ensures var c := PackChunk1(Zero(), h1, off1, bho);
      && c[..off1] == h1[bho..bho + off1]
      && forall j :: 0 <= j < |c[off1..]| ==> c[off1..][j] == (j == 0 || j == MarkerBit - off1)
  {
    var c := PackChunk1(Zero(), h1, off1, bho);
    assert Min(off1, ChunkBits) == off1;
    forall j | 0 <= j < off1
      ensures c[..off1][j] == h1[bho..bho + off1][j]
    {
      assert c[j] == Chunk1Bit(h1, off1, bho, j);
    }
    assert c[..off1] == h1[bho..bho + off1];
  }

  /**
   * Packed from a zero chunk with the marker above off1, cardChunk1 is
   * 0x2000 + 2^off1 + ((bitHolder1 >> bho) mod 2^off1).
   */
  lemma {:induction false} Chunk1Value(h1: Word, off1: nat, bho: nat)
    requires 0 < off1 < MarkerBit && off1 + bho <= WordBits
    ensures Value(PackChunk1(Zero(), h1, off1, bho)) == 0x2000 + Pow2(off1) + (Value(h1) / Pow2(bho)) % Pow2(off1)
  {
    var c := PackChunk1(Zero(), h1, off1, bho);
    Chunk1Parts(h1, off1, bho);
    ValueSplit(c, off1);
    ValueOfSlice(h1, bho, off1);
    Chunk1Upper(c[off1..], MarkerBit - off1);
    Pow2Add(off1, MarkerBit - off1);
    Pow2Of13();
    TopBits(Pow2(off1), Pow2(MarkerBit - off1));
  }

  lemma {:induction false} TopBits(p: int, q: int)
    ensures p * (1 + q) == p + p * q
  {
  }

  /** The bits setCardChunkBits leaves in a zero cardChunk2, split at off2 and off2 + bho. */
  lemma {:induction false} Chunk2Parts(h1: Word, h2: Word, bho: nat, off2: nat)
    requires bho <= ChunkBits && off2 <= ChunkBits && off2 + bho <= WordBits
    ensures var c := PackChunk2(Zero(), h1, h2, bho, off2);
      && c[..off2] == h2[..off2]
      && c[off2..][..bho] == h1[..bho]
      && forall j :: 0 <= j < |c[off2..][bho..]| ==> !c[off2..][bho..][j]
  {
    var c := PackChunk2(Zero(), h1, h2, bho, off2);
    assert Min(off2, ChunkBits) == off2 && Min(bho, ChunkBits) == bho;
    forall j | 0 <= j < off2
      ensures c[..off2][j] == h2[..off2][j]
    {
      assert c[j] == h2[j];
    }
    assert c[..off2] == h2[..off2];
    var u := c[off2..];
    forall j | 0 <= j < bho
      ensures u[..bho][j] == h1[..bho][j]
    {
      assert u[j] == c[j + off2];
    }
    assert u[..bho] == h1[..bho];
    forall j | 0 <= j < |u[bho..]|
      ensures !u[bho..][j]
    {
      assert u[bho..][j] == c[j + bho + off2];
    }
  }

  /**
   * Packed from a zero chunk, cardChunk2 is
   * (bitHolder1 mod 2^bho) * 2^off2 + (bitHolder2 mod 2^off2).
   */
  lemma {:induction false} Chunk2Value(h1: Word, h2: Word, bho: nat, off2: nat)
    requires bho <= ChunkBits && off2 <= ChunkBits && off2 + bho <= WordBits
    ensures Value(PackChunk2(Zero(), h1, h2, bho, off2)) == (Value(h1) % Pow2(bho)) * Pow2(off2) + Value(h2) % Pow2(off2)
  {
    var c := PackChunk2(Zero(), h1, h2, bho, off2);
    Chunk2Parts(h1, h2, bho, off2);
    var u := c[off2..];
    ValueAllClear(u[bho..]);
    ValueSplit(u, bho);
    ValueOfPrefix(h1, bho);
    assert Value(u) == Value(h1) % Pow2(bho);
    ValueSplit(c, off2);
    ValueOfPrefix(h2, off2);
  }

  /** For every supported format, packing into zero chunks puts cardChunk1 in [0x2000, 0x4000). */
  lemma {:induction false} Chunk1Range(n: nat, h1: Word)
    requires n in Supported
    ensures var p := PlanFor(n).value;
      0x2000 <= Value(PackChunk1(Zero(), h1, p.chunk1Offset, p.bitHolderOffset)) < 0x4000
  {
    var p := PlanFor(n).value;
    var off1, bho := p.chunk1Offset, p.bitHolderOffset;
    Chunk1Value(h1, off1, bho);
    Pow2Monotone(off1, 12);
    assert Pow2(12) == 0x1000;
  }

  /** For every supported format, packing into a zero chunk puts cardChunk2 below 2^24. */
  lemma {:induction false} Chunk2Range(n: nat, h1: Word, h2: Word)
    requires n in Supported
    ensures var p := PlanFor(n).value;
      Value(PackChunk2(Zero(), h1, h2, p.bitHolderOffset, p.chunk2Offset)) < 0x100_0000
  {
    var p := PlanFor(n).value;
    var bho, off2 := p.bitHolderOffset, p.chunk2Offset;
    Chunk2Value(h1, h2, bho, off2);
    Pow2Add(bho, off2);
    PackedBelow(Value(h1) % Pow2(bho), Value(h2) % Pow2(off2), Pow2(bho), Pow2(off2));
    assert Pow2(24) == 0x100_0000 by {
      Pow2Add(12, 12);
      assert Pow2(12) == 0x1000;
    }
  }

  /** A number below h placed above a number below l is below h * l. */
  lemma {:induction false} PackedBelow(hi: nat, lo: nat, h: nat, l: nat)
    requires hi < h && lo < l
    ensures hi * l + lo < h * l
  {
    assert hi * l <= (h - 1) * l;
  }

  /**
   * hexCardData of two chunks with cardChunk1 in [0x1000, 0x10000) and
   * cardChunk2 below 2^24 has ten digits and denotes cardChunk1 * 2^24 + cardChunk2.
   */
  lemma {:induction false} HexCardDataValue(c1: Word, c2: Word)
    requires 0x1000 <= Value(c1) < 0x1_0000 && Value(c2) < 0x100_0000
    ensures |HexCardData(c1, c2)| == 10 && IsHexString(HexCardData(c1, c2))
    ensures HexValue(HexCardData(c1, c2)) == Value(c1) * 0x100_0000 + Value(c2)
  {
    assert Pow16(3) == 0x1000 && Pow16(4) == 0x1_0000;
    assert Pow16(6) == 0x100_0000;
    HexLength(Value(c1), 4);
    HexLengthAtMost(Value(c2), 6);
    var s1 := HexString(Value(c1));
    var s2 := HexString(Value(c2));
    var padded := Padded(s2, '0', 6);
    assert |padded| == 6;
    PaddedValue(s2, 6);
    HexRoundTrip(Value(c1));
    HexRoundTrip(Value(c2));
    HexValueAppend(s1, padded);
  }

  /**
   * For every supported format, packing into zero chunks gives a hexCardData
   * of exactly ten hexadecimal digits, four for chunk 1 and chunk 2
   * zero-padded to six, denoting cardChunk1 * 2^24 + cardChunk2.
   */
  lemma {:induction false} HexCardDataShape(n: nat, h1: Word, h2: Word)
    requires n in Supported
    ensures var p := PlanFor(n).value;
      var c1 := PackChunk1(Zero(), h1, p.chunk1Offset, p.bitHolderOffset);
      var c2 := PackChunk2(Zero(), h1, h2, p.bitHolderOffset, p.chunk2Offset);
      && |HexCardData(c1, c2)| == 10 && IsHexString(HexCardData(c1, c2))
      && HexValue(HexCardData(c1, c2)) == Value(c1) * 0x100_0000 + Value(c2)
  {
    Chunk1Range(n, h1);
    Chunk2Range(n, h1, h2);
    var p := PlanFor(n).value;
    HexCardDataValue(PackChunk1(Zero(), h1, p.chunk1Offset, p.bitHolderOffset),
                     PackChunk2(Zero(), h1, h2, p.bitHolderOffset, p.chunk2Offset));
  }

  /** Leading zeros do not change the number a hexadecimal string denotes. */
  lemma {:induction false} PaddedValue(s: string, len: nat)
    requires IsHexString(s)
    ensures IsHexString(Padded(s, '0', len)) && HexValue(Padded(s, '0', len)) == HexValue(s)
  {
    if |s| < len {
      var zeros := Repeat('0', len - |s|);
      ZerosValue(len - |s|);
      HexValueAppend(zeros, s);
    }
  }

  lemma {:induction false} ZerosValue(k: nat)
    ensures IsHexString(Repeat('0', k)) && HexValue(Repeat('0', k)) == 0
  {
    if k > 0 {
      assert Repeat('0', k)[..k - 1] == Repeat('0', k - 1);
      ZerosValue(k - 1);
    }
  }

  lemma {:induction false} ShiftDigit(x: int, p: int, y: int, d: int)
    ensures 16 * (x * p + y) + d == x * (16 * p) + (16 * y + d)
  {
  }

  /** Concatenating hexadecimal strings: the left part is worth 16^|right| times its value. */
  lemma {:induction false} HexValueAppend(a: string, b: string)
    requires IsHexString(a) && IsHexString(b)
    ensures IsHexString(a + b) && HexValue(a + b) == HexValue(a) * Pow16(|b|) + HexValue(b)
  {
    var ab := a + b;
    assert IsHexString(ab) by {
      forall i | 0 <= i < |ab|
        ensures HexDigitValue(ab[i]) >= 0
      {
        if i < |a| {
          assert ab[i] == a[i];
        } else {
          assert ab[i] == b[i - |a|];
        }
      }
    }
    if b == [] {
      assert ab == a;
    } else {
      var b' := b[..|b| - 1];
      var d := HexDigitValue(b[|b| - 1]);
      assert ab[..|ab| - 1] == a + b';
      assert ab[|ab| - 1] == b[|b| - 1];
      HexValueAppend(a, b');
      assert HexValue(ab) == 16 * HexValue(a + b') + d;
      assert HexValue(b) == 16 * HexValue(b') + d;
      assert Pow16(|b|) == 16 * Pow16(|b'|);
      ShiftDigit(HexValue(a), Pow16(|b'|), HexValue(b'), d);
    }
  }
}
