/**
 * The reader pipeline of the door simulator: the main loop's countdown and
 * drain, frame processing (raw bit string, HID decode, canonical hex),
 * the access verdict and the read log.
 *
 * The card fields (`facilityCode`, `cardNumber`, `cardChunk1/2`,
 * `hexCardData`, `rawCardData`, `status`, `details`) are written only while
 * a frame is drained, and every drain ends with `cleanupCardData`; so
 * between two passes of the main loop they are always at their reset
 * values, and the record logged for a frame is a function of the settled
 * capture state, the mode and the credential list (`FrameRecord`).
 */
module DoorSim {
  import opened Words
  import opened Optional
  import opened Text
  import opened Capture
  import opened Formats
  import opened Credentials
  import opened ReadLog

  /** The device mode: `MODE == "CTF"` checks credentials, any other mode just reports reads. */
  datatype Mode = CTF | Debug

  /** The card fields, as one value. */
  datatype CardFields = CardFields(
    facilityCode: UInt32,
    cardNumber: UInt32,
    chunk1: Word,
    chunk2: Word,
    hex: string,
    raw: string,
    status: string,
    details: string)

  /** The card fields after cleanupCardData. */
  function IdleCard(): CardFields
  {
    CardFields(0, 0, Zero(), Zero(), "", "", "", "")
  }

  /** `String(databits[i])` for each captured bit, concatenated. */
  function RawString(bits: seq<Byte>): string
  {
    if bits == [] then "" else RawString(bits[..|bits| - 1]) + DecString(bits[|bits| - 1])
  }

  /** processCardData hands a frame to processHIDCard only for 26 to 96 bits. */
  predicate HIDGate(n: nat)
  {
    26 <= n <= 96
  }

  /** The main loop prints (and logs) a frame of 26 to 36 bits, or of exactly 96 bits. */
  predicate PrintGate(n: nat)
  {
    26 <= n <= 36 || n == 96
  }

  /**
   * What processHIDCard does to the card fields: for a supported length,
   * decode the facility code and card number from the buffer, pack the
   * accumulators into the chunks and render hexCardData; otherwise nothing.
   */
  function HIDUpdate(c: CardFields, s: CaptureState): CardFields
    requires |s.bits| == MaxBits
  {
    match PlanFor(s.bitCount)
    case None => c
    case Some(p) =>
      var c1 := PackChunk1(c.chunk1, s.holder1, p.chunk1Offset, p.bitHolderOffset);
      var c2 := PackChunk2(c.chunk2, s.holder1, s.holder2, p.bitHolderOffset, p.chunk2Offset);
      c.(facilityCode := BigEndian(s.bits[p.fcStart..p.fcEnd]) % Modulus,
         cardNumber := BigEndian(s.bits[p.cnStart..p.cnEnd]) % Modulus,
         chunk1 := c1, chunk2 := c2, hex := HexCardData(c1, c2))
  }

  /** What processCardData does: the raw string of the in-bounds bits, then the HID decode if gated in. */
  function ProcessUpdate(c: CardFields, s: CaptureState): CardFields
    requires |s.bits| == MaxBits
  {
    var withRaw := c.(raw := RawString(s.bits[..Min(s.bitCount, MaxBits)]));
    if HIDGate(s.bitCount) then HIDUpdate(withRaw, s) else withRaw
  }

  /**
   * The status part of printCardData. In CTF mode: "Authorized" with the
   * matching credential's name, or "Unauthorized" with the decimal facility
   * code and card number. In any other mode, for 21 to 119 bits: hexCardData
   * is upper-cased and reported as "Read".
   */
  function PrintUpdate(c: CardFields, mode: Mode, n: nat, creds: seq<Credential>): CardFields
  {
    match mode
    case CTF =>
      (match FirstMatch(creds, ToUInt16(c.facilityCode), ToUInt16(c.cardNumber))
       case Some(i) => c.(status := "Authorized", details := creds[i].name)
       case None => c.(status := "Unauthorized", details := "FC: " + DecString(c.facilityCode) + ", CN: " + DecString(c.cardNumber)))
    case Debug =>
      if 20 < n < 120 then
        var upper := ToUpper(c.hex);
        c.(hex := upper, status := "Read", details := "Hex: " + upper)
      else c
  }

  /** The log record printCardData stores. */
  function Record(c: CardFields, n: UInt32): CardData
  {
    CardData(n, c.facilityCode, c.cardNumber, c.hex, c.raw, c.status, c.details)
  }

  /** The record logged for the settled frame `s`, when the print gate admits it. */
  function FrameRecord(s: CaptureState, mode: Mode, creds: seq<Credential>): CardData
    requires |s.bits| == MaxBits
  {
    Record(PrintUpdate(ProcessUpdate(IdleCard(), s), mode, s.bitCount, creds), s.bitCount)
  }

  /** The whole simulator state that the reader pipeline touches. */
  class Simulator {
    const reader: Reader
    const store: CredentialStore
    const log: CardLog
    const mode: Mode

    var facilityCode: UInt32
    var cardNumber: UInt32
    var cardChunk1: Word
    var cardChunk2: Word
    var hexCardData: string
    var rawCardData: string
    var status: string
    var details: string

    function Card(): CardFields
      reads this
    {
      CardFields(facilityCode, cardNumber, cardChunk1, cardChunk2, hexCardData, rawCardData, status, details)
    }

    /** Every component is consistent and the card fields are at their reset values. */
    ghost predicate Valid()
      reads this, reader, reader.databits, store, log
    {
      reader.Valid() && store.Valid() && log.Valid() && Card() == IdleCard()
    }

    constructor (m: Mode)
      ensures Valid() && mode == m
      ensures reader.State() == PowerOn && store.Contents() == [] && log.Entries() == []
      ensures fresh(reader) && fresh(reader.databits) && fresh(store) && fresh(store.credentials) && fresh(log) && fresh(log.cardDataArray)
    {
      reader := new Reader();
      store := new CredentialStore();
      log := new CardLog();
      mode := m;
      facilityCode, cardNumber := 0, 0;
      cardChunk1, cardChunk2 := Zero(), Zero();
      hexCardData, rawCardData, status, details := "", "", "", "";
    }

    /**
     * setCardChunkBits: bit positions 19 down to 0 of cardChunk1 are set
     * (the marker at 13 and at off1), cleared (above off1) or copied from
     * bitHolder1 (below off1, shifted down by bho); bitHolder1's low bho bits
     * go to cardChunk2 at off2 and bitHolder2's low off2 bits to cardChunk2's
     * bottom (positions below 20 only).
     */
    method SetCardChunkBits(off1: nat, bho: nat, off2: nat)
      requires InWord(off1, bho, off2)
      modifies this
      ensures Card() == old(Card()).(
        chunk1 := PackChunk1(old(cardChunk1), reader.bitHolder1, off1, bho),
        chunk2 := PackChunk2(old(cardChunk2), reader.bitHolder1, reader.bitHolder2, bho, off2))
    {
      var h1, h2 := reader.bitHolder1, reader.bitHolder2;
      ChunkWalkEnds(cardChunk1, cardChunk2, h1, h2, off1, bho, off2);
      var i: int := ChunkBits - 1;
      while i >= 0
        invariant -1 <= i < ChunkBits
        invariant Card() == old(Card()).(chunk1 := cardChunk1, chunk2 := cardChunk2)
        invariant cardChunk1 == Chunk1From(old(cardChunk1), h1, off1, bho, i + 1)
        invariant cardChunk2 == Chunk2From(old(cardChunk2), h1, h2, bho, off2, i + 1)
      {
        Chunk1Step(old(cardChunk1), h1, off1, bho, i);
        Chunk2Step(old(cardChunk2), h1, h2, bho, off2, i);
        if i == MarkerBit || i == off1 {
          cardChunk1 := cardChunk1[i := true];
        } else if i > off1 {
          cardChunk1 := cardChunk1[i := false];
        } else {
          cardChunk1 := cardChunk1[i := h1[i + bho]];
        }
        if i < bho {
          cardChunk2 := cardChunk2[i + off2 := h1[i]];
        }
        if i < off2 {
          cardChunk2 := cardChunk2[i := h2[i]];
        }
        i := i - 1;
      }
    }

    /**
     * processHIDCard: look the bit count up in the format table; for an
     * unsupported length change nothing, otherwise decode both ranges, pack
     * the chunks and render hexCardData.
     */
    method ProcessHIDCard()
      requires reader.Valid()
      modifies this
      ensures Card() == HIDUpdate(old(Card()), reader.State())
    {
      var plan := PlanFor(reader.bitCount);
      if plan.None? {
        return;
      }
      var p := plan.value;
      facilityCode := reader.DecodeRange(p.fcStart, p.fcEnd);
      cardNumber := reader.DecodeRange(p.cnStart, p.cnEnd);
      SetCardChunkBits(p.chunk1Offset, p.bitHolderOffset, p.chunk2Offset);
      var low := PrefixPad(HexString(Value(cardChunk2)), '0', 6);
      hexCardData := HexString(Value(cardChunk1)) + low;
    }

    /**
     * processCardData: rawCardData is the captured bits as '0'/'1'
     * characters, then frames of 26 to 96 bits go to processHIDCard. The
     * source reads databits[i] for every i < bitCount; the model reads only
     * the 100 entries that exist and reports (`inBounds` false) a count
     * beyond them, for which the source reads past the buffer.
     */
    method ProcessCardData() returns (inBounds: bool)
      requires reader.Valid()
      modifies this
      ensures inBounds <==> reader.bitCount <= MaxBits
      ensures Card() == ProcessUpdate(old(Card()), reader.State())
    {
      rawCardData := "";
      var i := 0;
      while i < reader.bitCount && i < MaxBits
        invariant 0 <= i <= Min(reader.bitCount, MaxBits)
        invariant rawCardData == RawString(reader.databits[..i])
        invariant Card() == old(Card()).(raw := rawCardData)
      {
        assert reader.databits[..i + 1][..i] == reader.databits[..i];
        rawCardData := rawCardData + DecString(reader.databits[i]);
        i := i + 1;
      }
      inBounds := reader.bitCount <= MaxBits;
      if HIDGate(reader.bitCount) {
        ProcessHIDCard();
      }
    }

    /**
     * The status and log part of printCardData: compute status and details
     * (upper-casing hexCardData in non-CTF mode), then offer the record to
     * the read log.
     */
    method PrintCardData()
      requires reader.Valid() && store.Valid() && log.Valid()
      modifies this, log, log.cardDataArray
      ensures Card() == PrintUpdate(old(Card()), mode, reader.bitCount, store.Contents())
      ensures log.Valid() && log.Entries() == Logged(old(log.Entries()), Record(Card(), reader.bitCount))
    {
      if mode == CTF {
        var found := store.CheckCredential(ToUInt16(facilityCode), ToUInt16(cardNumber));
        if found.Some? {
          status := "Authorized";
          details := store.credentials[found.value].name;
        } else {
          status := "Unauthorized";
          details := "FC: " + DecString(facilityCode) + ", CN: " + DecString(cardNumber);
        }
      } else if 20 < reader.bitCount < 120 {
        hexCardData := ToUpper(hexCardData);
        status := "Read";
        details := "Hex: " + hexCardData;
      }
      var _ := log.Store(Record(Card(), reader.bitCount));
    }

    /** cleanupCardData: reset the card fields, the bit count and both accumulators. */
    method CleanupCardData()
      requires reader.Valid()
      modifies this, reader
      ensures reader.Valid() && Card() == IdleCard()
      ensures reader.State() == old(reader.State()).(bitCount := 0, holder1 := Zero(), holder2 := Zero())
    {
      rawCardData := "";
      hexCardData := "";
      reader.bitCount := 0;
      facilityCode := 0;
      cardNumber := 0;
      reader.bitHolder1 := Zero();
      reader.bitHolder2 := Zero();
      cardChunk1 := Zero();
      cardChunk2 := Zero();
      status := "";
      details := "";
    }

    /**
     * The reader part of one loop() pass: run the countdown; if bits arrived
     * and the frame has settled, process it (the all-0xFF noise rule aside),
     * print and log it when the print gate admits its length, then reset the
     * capture state. `overrun` reports a drained frame longer than the
     * buffer.
     */
    method Loop() returns (overrun: bool)
      requires Valid()
      modifies this, reader, reader.databits, log, log.cardDataArray
      ensures Valid()
      ensures var t := TickStep(old(reader.State()));
        && reader.State() == Pass(old(reader.State()))
        && (overrun <==> FrameReady(t) && t.bitCount > MaxBits)
        && log.Entries() == if FrameReady(t) && PrintGate(t.bitCount)
          then Logged(old(log.Entries()), FrameRecord(t, mode, store.Contents()))
          else old(log.Entries())
    {
      reader.Tick();
      overrun := false;
      if reader.bitCount > 0 && reader.flagDone {
        NoiseRuleNeverFires(reader.databits[..]);
        var noise := reader.AllBitsAreOnes();
        if !noise {
          var inBounds := ProcessCardData();
          overrun := !inBounds;
          if PrintGate(reader.bitCount) {
            PrintCardData();
          }
        }
        CleanupCardData();
        reader.ClearDatabits();
      }
    }
  }

  /** The raw string spells the captured bits, one '0' or '1' per bit. */
  lemma {:induction false} RawStringSpellsBits(bits: seq<Byte>)
    requires IsBitString(bits)
    ensures |RawString(bits)| == |bits|
    ensures forall i :: 0 <= i < |bits| ==> RawString(bits)[i] == if bits[i] == 1 then '1' else '0'
  {
    if bits != [] {
      var init := bits[..|bits| - 1];
      assert IsBitString(init);
      RawStringSpellsBits(init);
      assert DecString(bits[|bits| - 1]) == [DecDigit(bits[|bits| - 1])];
    }
  }

  /**
   * After a whole frame of 22 to 54 bits, bitHolder1 holds the big-endian
   * value of its first 22 bits and bitHolder2 that of the rest.
   */
  lemma {:induction false} HoldersOfFrame(r: CaptureState, w: seq<bool>)
    requires HoldsFrame(r, w) && Holder1Limit - 1 <= |w| <= Holder1Limit - 1 + WordBits
    ensures Value(r.holder1) == BigEndian(ToBytes(w)[..Holder1Limit - 1])
    ensures Value(r.holder2) == BigEndian(ToBytes(w)[Holder1Limit - 1..])
  {
    Holder1Value(r.holder1, w);
    Holder2Value(r.holder2, w);
  }

  lemma {:induction false} Holder1Value(h: Word, w: seq<bool>)
    requires Holder1Holds(h, w) && Holder1Limit - 1 <= |w|
    ensures Value(h) == BigEndian(ToBytes(w)[..Holder1Limit - 1])
  {
    var k := Holder1Limit - 1;
    var w1 := w[..k];
    assert Min(|w|, k) == k;
    forall j | 0 <= j < WordBits
      ensures h[j] == (j < k && w1[k - 1 - j])
    {
      if j < k {
        assert w1[k - 1 - j] == w[k - 1 - j];
      }
    }
    ValueOfReversed(h, w1);
    assert ToBytes(w1) == ToBytes(w)[..k];
  }

  lemma {:induction false} Holder2Value(h: Word, w: seq<bool>)
    requires Holder2Holds(h, w) && Holder1Limit - 1 <= |w| <= Holder1Limit - 1 + WordBits
    ensures Value(h) == BigEndian(ToBytes(w)[Holder1Limit - 1..])
  {
    var k := Holder1Limit - 1;
    var w2 := w[k..];
    forall j | 0 <= j < WordBits
      ensures h[j] == (j < |w2| && w2[|w2| - 1 - j])
    {
      if j < |w2| {
        assert w2[|w2| - 1 - j] == w[|w| - 1 - j];
      }
    }
    ValueOfReversed(h, w2);
    assert ToBytes(w2) == ToBytes(w)[k..];
  }

  /**
   * For a frame `bs` of a supported length n whose first 22 bits are in
   * bitHolder1 and the rest in bitHolder2, the packed chunks are
   * cardChunk1 = 0x2000 + 2^off1 + (the first off1 = n - 24 bits) and
   * cardChunk2 = (the last 24 bits).
   */
  lemma {:induction false} FrameChunks(bs: seq<Byte>, h1: Word, h2: Word, n: nat)
    requires n in Supported && |bs| == n && IsBitString(bs)
    requires Value(h1) == BigEndian(bs[..Holder1Limit - 1]) && Value(h2) == BigEndian(bs[Holder1Limit - 1..])
    ensures var p := PlanFor(n).value;
      && Value(PackChunk1(Zero(), h1, p.chunk1Offset, p.bitHolderOffset)) == 0x2000 + Pow2(p.chunk1Offset) + BigEndian(bs[..p.chunk1Offset])
      && Value(PackChunk2(Zero(), h1, h2, p.bitHolderOffset, p.chunk2Offset)) == BigEndian(bs[p.chunk1Offset..])
  {
    var p := PlanFor(n).value;
    FrameChunk1(bs, h1, p.chunk1Offset, p.bitHolderOffset);
    FrameChunk2(bs, h1, h2, p.chunk1Offset, p.bitHolderOffset, p.chunk2Offset);
  }

  /** bitHolder1 holds the first 22 bits; `(bitHolder1 >> bho)` is the first off1 = 22 - bho of them. */
  lemma {:induction false} HolderHigh(bs: seq<Byte>, h1: Word, off1: nat, bho: nat)
    requires |bs| >= 22 && IsBitString(bs) && off1 + bho == 22
    requires Value(h1) == BigEndian(bs[..22])
    ensures Value(h1) / Pow2(bho) == BigEndian(bs[..off1])
    ensures Value(h1) % Pow2(bho) == BigEndian(bs[off1..22])
  {
    var first := bs[..22];
    assert IsBitString(first);
    BigEndianSplit(first, off1);
    assert first[..off1] == bs[..off1] && first[off1..] == bs[off1..22];
  }

  /** cardChunk1 of a frame: the marker, the bit above the first off1 frame bits, and those bits. */
  lemma {:induction false} FrameChunk1(bs: seq<Byte>, h1: Word, off1: nat, bho: nat)
    requires |bs| >= 22 && IsBitString(bs) && 0 < off1 < MarkerBit && off1 + bho == 22
    requires Value(h1) == BigEndian(bs[..22])
    ensures Value(PackChunk1(Zero(), h1, off1, bho)) == 0x2000 + Pow2(off1) + BigEndian(bs[..off1])
  {
    Chunk1Value(h1, off1, bho);
    HolderHigh(bs, h1, off1, bho);
    var hi := bs[..off1];
    assert IsBitString(hi);
    BigEndianBound(hi);
    DivModSplit(BigEndian(hi), Pow2(off1), BigEndian(hi), 0);
  }

  /** cardChunk2 of a frame: its last 24 bits. */
  lemma {:induction false} FrameChunk2(bs: seq<Byte>, h1: Word, h2: Word, off1: nat, bho: nat, off2: nat)
    requires |bs| == 22 + off2 && IsBitString(bs) && off1 + bho == 22
    requires bho <= ChunkBits && off2 <= ChunkBits && off2 + bho <= WordBits
    requires Value(h1) == BigEndian(bs[..22]) && Value(h2) == BigEndian(bs[22..])
    ensures Value(PackChunk2(Zero(), h1, h2, bho, off2)) == BigEndian(bs[off1..])
  {
    Chunk2Value(h1, h2, bho, off2);
    HolderHigh(bs, h1, off1, bho);
    var mid, lo := bs[off1..22], bs[22..];
    assert IsBitString(lo);
    BigEndianBound(lo);
    DivModSplit(Value(h2), Pow2(off2), Value(h2), 0);
    assert bs[off1..] == mid + lo;
    BigEndianAppend(mid, lo);
  }

  /** The sum behind HexArithmetic, on plain integers. */
  lemma {:induction false} HexSum(v1: int, v2: int, q: int, top: int, lead: int, whole: int, p: int, hi: int, lo: int)
    requires top == 0x2000 * q && lead == p * q && whole == hi * q + lo
    requires v1 == 0x2000 + p + hi && v2 == lo
    ensures v1 * q + v2 == top + lead + whole
  {
    assert v1 * q == 0x2000 * q + p * q + hi * q;
  }

  /** The value the canonical hex takes for a frame: 2^37 + 2^n + the frame's bits. */
  lemma {:induction false} HexArithmetic(bs: seq<Byte>, off1: nat, v1: nat, v2: nat)
    requires off1 + 24 == |bs|
    requires v1 == 0x2000 + Pow2(off1) + BigEndian(bs[..off1]) && v2 == BigEndian(bs[off1..])
    ensures v1 * 0x100_0000 + v2 == Pow2(37) + Pow2(|bs|) + BigEndian(bs)
  {
    BigEndianAt(bs, off1);
    Pow2Of24();
    Pow2Add(13, 24);
    Pow2Of13();
    Pow2Add(off1, 24);
    HexSum(v1, v2, Pow2(24), Pow2(37), Pow2(|bs|), BigEndian(bs), Pow2(off1), BigEndian(bs[..off1]), BigEndian(bs[off1..]));
  }

  lemma {:induction false} Pow2Of24()
    ensures Pow2(24) == 0x100_0000
  {
    Pow2Add(12, 12);
    assert Pow2(12) == 0x1000;
  }

  /**
   * The canonical hex of a frame of supported length n: ten digits that
   * denote 2^37 + 2^n + (the frame's bits read as one big-endian number).
   */
  lemma {:induction false} FrameHex(bs: seq<Byte>, h1: Word, h2: Word, n: nat)
    requires n in Supported && |bs| == n && IsBitString(bs)
    requires Value(h1) == BigEndian(bs[..Holder1Limit - 1]) && Value(h2) == BigEndian(bs[Holder1Limit - 1..])
    ensures var p := PlanFor(n).value;
      var hex := HexCardData(PackChunk1(Zero(), h1, p.chunk1Offset, p.bitHolderOffset),
                             PackChunk2(Zero(), h1, h2, p.bitHolderOffset, p.chunk2Offset));
      |hex| == 10 && IsHexString(hex) && HexValue(hex) == Pow2(37) + Pow2(n) + BigEndian(bs)
  {
    var p := PlanFor(n).value;
    var c1 := PackChunk1(Zero(), h1, p.chunk1Offset, p.bitHolderOffset);
    var c2 := PackChunk2(Zero(), h1, h2, p.bitHolderOffset, p.chunk2Offset);
    HexCardDataShape(n, h1, h2);
    FrameChunks(bs, h1, h2, n);
    HexArithmetic(bs, p.chunk1Offset, Value(c1), Value(c2));
  }

  /**
   * A frame captured into cleared variables and followed by 3000 silent
   * loop passes is settled, and the capture state holds it.
   */
  lemma {:induction false} SettledFrame(s: CaptureState, w: seq<bool>)
    requires Cleared(s) && 0 < |w| <= MaxBits
    ensures var t := Ticks(Feed(s, w), WaitTime);
      && FrameReady(t) && HoldsFrame(t, w)
      && IsBitString(t.bits) && t.bits[..|w|] == ToBytes(w)
  {
    CaptureFrame(s, w);
    var f := Feed(s, w);
    CountdownExpires(f, WaitTime);
    var t := Ticks(f, WaitTime);
    assert t == f.(counter := 0, done := true);
    assert t.bits[..|w|] == ToBytes(w);
  }

  /**
   * The decode of a settled frame of supported length: the facility code
   * and card number are the big-endian values of their ranges of the frame,
   * and hexCardData has ten digits denoting 2^37 + 2^n + the frame's value.
   */
  lemma {:induction false} DecodedFrame(t: CaptureState, w: seq<bool>, c: CardFields)
    requires HoldsFrame(t, w) && |w| in Supported && IsBitString(t.bits) && t.bits[..|w|] == ToBytes(w)
    requires c.chunk1 == Zero() && c.chunk2 == Zero()
    ensures var p := PlanFor(|w|).value;
      var d := HIDUpdate(c, t);
      && d.facilityCode == BigEndian(ToBytes(w)[p.fcStart..p.fcEnd])
      && d.cardNumber == BigEndian(ToBytes(w)[p.cnStart..p.cnEnd])
      && |d.hex| == 10 && IsHexString(d.hex)
      && HexValue(d.hex) == Pow2(37) + Pow2(|w|) + BigEndian(ToBytes(w))
      && d.raw == c.raw
  {
    var n := |w|;
    var p := PlanFor(n).value;
    DecodedRange(t, w, p.fcStart, p.fcEnd);
    DecodedRange(t, w, p.cnStart, p.cnEnd);
    HoldersOfFrame(t, w);
    FrameHex(ToBytes(w), t.holder1, t.holder2, n);
  }

  /** A range of at most 24 bits inside the frame decodes to its big-endian value (no 32-bit wrap). */
  lemma {:induction false} DecodedRange(t: CaptureState, w: seq<bool>, start: nat, end: nat)
    requires |t.bits| == MaxBits && |w| <= MaxBits && IsBitString(t.bits) && t.bits[..|w|] == ToBytes(w)
    requires start <= end <= |w| && end - start <= 24
    ensures BigEndian(t.bits[start..end]) % Modulus == BigEndian(ToBytes(w)[start..end])
  {
    forall i | start <= i < end
      ensures t.bits[i] == ToBytes(w)[i]
    {
      assert t.bits[..|w|][i] == t.bits[i];
    }
    assert t.bits[start..end] == ToBytes(w)[start..end];
    DecodedFits(t.bits, start, end);
  }

  /** processCardData on a settled frame of supported length, from reset card fields. */
  lemma {:induction false} ProcessedFrame(t: CaptureState, w: seq<bool>, p: Plan)
    requires HoldsFrame(t, w) && IsBitString(t.bits) && t.bits[..|w|] == ToBytes(w)
    requires |w| in Supported && PlanFor(|w|) == Some(p)
    requires p.fcStart <= p.fcEnd <= |w| && p.cnStart <= p.cnEnd <= |w|
    ensures var d := ProcessUpdate(IdleCard(), t);
      && d.facilityCode == BigEndian(ToBytes(w)[p.fcStart..p.fcEnd])
      && d.cardNumber == BigEndian(ToBytes(w)[p.cnStart..p.cnEnd])
      && |d.hex| == 10 && IsHexString(d.hex)
      && HexValue(d.hex) == Pow2(37) + Pow2(|w|) + BigEndian(ToBytes(w))
      && |d.raw| == |w| && (forall i :: 0 <= i < |w| ==> d.raw[i] == if w[i] then '1' else '0')
  {
    RawStringSpellsBits(ToBytes(w));
    assert Min(t.bitCount, MaxBits) == |w| && HIDGate(t.bitCount);
    var c := IdleCard().(raw := RawString(t.bits[..|w|]));
    assert c.raw == RawString(ToBytes(w));
    assert ProcessUpdate(IdleCard(), t) == HIDUpdate(c, t);
    DecodedFrame(t, w, c);
  }

  /** printCardData keeps the decoded numbers and the raw string, and at most upper-cases the hex. */
  lemma {:induction false} PrintKeepsDecode(c: CardFields, mode: Mode, n: nat, creds: seq<Credential>)
    requires IsHexString(c.hex)
    ensures var r := PrintUpdate(c, mode, n, creds);
      && r.facilityCode == c.facilityCode && r.cardNumber == c.cardNumber && r.raw == c.raw
      && |r.hex| == |c.hex| && IsHexString(r.hex) && HexValue(r.hex) == HexValue(c.hex)
  {
    ToUpperKeepsHexValue(c.hex);
  }

  /**
   * End to end: a frame of a supported length whose edges arrive after a
   * drain, with any number of loop passes before the first edge and fewer
   * than 3000 between the others, is not drained before its countdown
   * expires; the 3000th silent pass after its last edge drains it, and the
   * record that pass logs carries its length, the facility code and card
   * number of its format, a raw string that spells its bits, and a
   * ten-digit hexCardData denoting 2^37 + 2^n + the frame's value
   * (upper-cased outside CTF mode, which keeps that value).
   */
  lemma {:induction false} FrameIsLogged(s: CaptureState, w: seq<bool>, gaps: seq<nat>, mode: Mode, creds: seq<Credential>)
    requires Cleared(s) && |w| in Supported && |gaps| == |w| && Steady(gaps)
    ensures forall i, j :: 0 <= i < |w| && 0 <= j <= gaps[i] ==> !FrameReady(Ticks(Paced(s, w[..i], gaps[..i]), j))
    ensures var f := Paced(s, w, gaps);
      var t := Ticks(f, WaitTime);
      var p := PlanFor(|w|).value;
      var rec := FrameRecord(t, mode, creds);
      && (forall j :: 0 <= j < WaitTime ==> !FrameReady(Ticks(f, j)))
      && Passes(f, WaitTime - 1) == Ticks(f, WaitTime - 1)
      && FrameReady(t) && PrintGate(t.bitCount)
      && rec.bitCount == |w|
      && rec.facilityCode == BigEndian(ToBytes(w)[p.fcStart..p.fcEnd])
      && rec.cardNumber == BigEndian(ToBytes(w)[p.cnStart..p.cnEnd])
      && |rec.rawCardData| == |w|
      && (forall i :: 0 <= i < |w| ==> rec.rawCardData[i] == if w[i] then '1' else '0')
      && |rec.hexCardData| == 10 && IsHexString(rec.hexCardData)
      && HexValue(rec.hexCardData) == Pow2(37) + Pow2(|w|) + BigEndian(ToBytes(w))
  {
    FrameSettles(s, w, gaps);
    var t := Ticks(Feed(s, w), WaitTime);
    SettledFrame(s, w);
    ProcessedFrame(t, w, PlanFor(|w|).value);
    PrintKeepsDecode(ProcessUpdate(IdleCard(), t), mode, t.bitCount, creds);
  }

  /**
   * The canonical hex identifies the read: two frames of supported lengths
   * whose hex values agree are the same frame (same length, same bits).
   */
  lemma {:induction false} HexIdentifiesFrame(w1: seq<bool>, w2: seq<bool>)
    requires |w1| in Supported && |w2| in Supported
    requires Pow2(37) + Pow2(|w1|) + BigEndian(ToBytes(w1)) == Pow2(37) + Pow2(|w2|) + BigEndian(ToBytes(w2))
    ensures w1 == w2
  {
    var b1, b2 := ToBytes(w1), ToBytes(w2);
    BigEndianBound(b1);
    BigEndianBound(b2);
    LeadingBit(|w1|, BigEndian(b1), |w2|, BigEndian(b2));
    BigEndianInjective(b1, b2);
    forall i | 0 <= i < |w1|
      ensures w1[i] == w2[i]
    {
      assert ToBytes(w1)[i] == ToBytes(w2)[i];
    }
  }

  /** A value below 2^n with a bit added at 2^n determines n and the value. */
  lemma {:induction false} LeadingBit(n1: nat, v1: nat, n2: nat, v2: nat)
    requires v1 < Pow2(n1) && v2 < Pow2(n2) && Pow2(n1) + v1 == Pow2(n2) + v2
    ensures n1 == n2 && v1 == v2
  {
    if n1 < n2 {
      Pow2Monotone(n1 + 1, n2);
      assert false;
    } else if n2 < n1 {
      Pow2Monotone(n2 + 1, n1);
      assert false;
    }
  }

  /**
   * Two different frames of supported lengths, each clocked in after a
   * drain with loop passes between its edges and then settled, are logged
   * with hexCardData strings of different value: the log tells every
   * supported card apart.
   */
  lemma {:induction false} DistinctFramesDistinctHex(s1: CaptureState, w1: seq<bool>, g1: seq<nat>, s2: CaptureState, w2: seq<bool>, g2: seq<nat>, mode: Mode, creds: seq<Credential>)
    requires Cleared(s1) && |w1| in Supported && |g1| == |w1| && Steady(g1)
    requires Cleared(s2) && |w2| in Supported && |g2| == |w2| && Steady(g2)
    requires w1 != w2
    ensures var r1 := FrameRecord(Ticks(Paced(s1, w1, g1), WaitTime), mode, creds);
      var r2 := FrameRecord(Ticks(Paced(s2, w2, g2), WaitTime), mode, creds);
      IsHexString(r1.hexCardData) && IsHexString(r2.hexCardData) && HexValue(r1.hexCardData) != HexValue(r2.hexCardData)
  {
    FrameIsLogged(s1, w1, g1, mode, creds);
    FrameIsLogged(s2, w2, g2, mode, creds);
    var r1 := FrameRecord(Ticks(Paced(s1, w1, g1), WaitTime), mode, creds);
    var r2 := FrameRecord(Ticks(Paced(s2, w2, g2), WaitTime), mode, creds);
    if HexValue(r1.hexCardData) == HexValue(r2.hexCardData) {
      HexIdentifiesFrame(w1, w2);
    }
  }

  /**
   * The print gate admits exactly two lengths that the format table does
   * not know, 28 and 96; such a frame is logged with facility code 0, card
   * number 0 and an empty hexCardData, and in CTF mode it is authorized
   * exactly when a credential (0, 0) is on the list.
   */
  lemma {:induction false} UnsupportedFrameRecord(t: CaptureState, mode: Mode, creds: seq<Credential>)
    requires |t.bits| == MaxBits && PrintGate(t.bitCount) && PlanFor(t.bitCount).None?
    ensures t.bitCount == 28 || t.bitCount == 96
    ensures PrintGate(28) && PlanFor(28).None? && PrintGate(96) && PlanFor(96).None?
    ensures var rec := FrameRecord(t, mode, creds);
      && rec.facilityCode == 0 && rec.cardNumber == 0 && rec.hexCardData == ""
      && (mode == CTF ==> (rec.status == "Authorized" <==> exists i :: 0 <= i < |creds| && Matches(creds[i], 0, 0)))
      && (mode == Debug ==> rec.status == "Read" && rec.details == "Hex: ")
  {
    var c := ProcessUpdate(IdleCard(), t);
    assert c.facilityCode == 0 && c.cardNumber == 0 && c.hex == "";
    assert ToUInt16(0) == 0;
  }

  /**
   * In CTF mode the verdict is "Authorized" with the first matching
   * credential's name exactly when a credential matches the decoded
   * numbers truncated to 16 bits, and "Unauthorized" with both numbers in
   * decimal otherwise; hexCardData is left as it is.
   */
  lemma {:induction false} CTFVerdict(c: CardFields, n: nat, creds: seq<Credential>)
    ensures var r := PrintUpdate(c, CTF, n, creds);
      var fc, cn := ToUInt16(c.facilityCode), ToUInt16(c.cardNumber);
      && r.hex == c.hex && (r.status == "Authorized" || r.status == "Unauthorized")
      && (r.status == "Authorized" <==> exists i :: 0 <= i < |creds| && Matches(creds[i], fc, cn))
      && (r.status == "Authorized" ==> r.details == creds[FirstMatch(creds, fc, cn).value].name)
      && (r.status == "Unauthorized" ==> r.details == "FC: " + DecString(c.facilityCode) + ", CN: " + DecString(c.cardNumber))
  {
  }
}
