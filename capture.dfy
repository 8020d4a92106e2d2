/**
 * Bit capture and the frame timer.
 *
 * Two falling-edge interrupt handlers, one per reader line (DATA0 carries a
 * 0 bit, DATA1 a 1 bit), count the bit, shift it into one of two 32-bit
 * accumulators and restart a countdown. Only the DATA1 handler writes the
 * 100-byte capture buffer (a 1, while there is room); a 0 is the entry
 * `clearDatabits` left behind. The main loop decrements the countdown once
 * per pass; when it reaches zero the frame is declared complete
 * (`flagDone`). The protocol has no end-of-frame marker: silence is the
 * only delimiter.
 *
 * The handlers are modelled as atomic methods of `Reader`; each is proved
 * against a step function on the value `CaptureState`, and what several
 * steps do (a whole frame, a whole countdown) is proved about those
 * functions.
 */
module Capture {
  import opened Words

  /** MAX_BITS: capacity of the capture buffer. */
  const MaxBits: nat := 100
  /** WEIGAND_WAIT_TIME: loop passes of silence that end a frame. */
  const WaitTime: nat := 3000
  /** An edge whose post-increment bit count is below this shifts into bitHolder1. */
  const Holder1Limit: nat := 23

  /** The shared capture variables, as one value. */
  datatype CaptureState = CaptureState(
    bits: seq<Byte>,     // databits[MAX_BITS]
    bitCount: UInt32,    // bitCount
    holder1: Word,       // bitHolder1
    holder2: Word,       // bitHolder2
    counter: UInt32,     // weigandCounter
    done: bool)          // flagDone

  /** The state at power-on: zero-initialised globals, and setup() loads the countdown. */
  const PowerOn: CaptureState := CaptureState(seq(MaxBits, i => 0), 0, Zero(), Zero(), WaitTime, false)

  /** Shift one bit into bitHolder1 while the bit count is below 23, otherwise into bitHolder2. */
  function ShiftHolders(s: CaptureState, b: bool): CaptureState
  {
    if s.bitCount < Holder1Limit then s.(holder1 := ShiftIn(s.holder1, b))
    else s.(holder2 := ShiftIn(s.holder2, b))
  }

  /** ISR_INT0 (DATA0, a 0 bit): count it without any capacity check; the buffer is not written. */
  function Int0Step(s: CaptureState): CaptureState
  {
    var counted := s.(bitCount := (s.bitCount + 1) % Modulus, done := false);
    ShiftHolders(counted, false).(counter := WaitTime)
  }

  /** ISR_INT1 (DATA1, a 1 bit): store a 1 and count it only while the buffer has room. */
  function Int1Step(s: CaptureState): CaptureState
    requires |s.bits| == MaxBits
  {
    var stored := if s.bitCount < MaxBits then s.(bits := s.bits[s.bitCount := 1], bitCount := s.bitCount + 1) else s;
    ShiftHolders(stored.(done := false), true).(counter := WaitTime)
  }

  /** One falling edge: on DATA1 when `b`, on DATA0 otherwise. */
  function Edge(s: CaptureState, b: bool): (r: CaptureState)
    requires |s.bits| == MaxBits
    ensures |r.bits| == MaxBits
  {
    if b then Int1Step(s) else Int0Step(s)
  }

  /** The edges of `w`, in order, one per bit. */
  function Feed(s: CaptureState, w: seq<bool>): (r: CaptureState)
    requires |s.bits| == MaxBits
    ensures |r.bits| == MaxBits
  {
    if w == [] then s else Edge(Feed(s, w[..|w| - 1]), w[|w| - 1])
  }

  /** The countdown part of one main-loop pass: `if (!flagDone) if (--weigandCounter == 0) flagDone = 1;` */
  function TickStep(s: CaptureState): (r: CaptureState)
    ensures r == s.(counter := r.counter, done := r.done)
  {
    if s.done then s
    else
      var c := (s.counter - 1) % Modulus;
      s.(counter := c, done := c == 0)
  }

  /** k main-loop passes without edges. */
  function Ticks(s: CaptureState, k: nat): (r: CaptureState)
    ensures r == s.(counter := r.counter, done := r.done)
  {
    if k == 0 then s else TickStep(Ticks(s, k - 1))
  }

  /** The main loop drains a frame only when bits arrived and the countdown expired. */
  predicate FrameReady(s: CaptureState)
  {
    s.bitCount > 0 && s.done
  }

  /** The capture variables after a drain (cleanupCardData and clearDatabits). */
  predicate Cleared(s: CaptureState)
  {
    |s.bits| == MaxBits && (forall i :: 0 <= i < MaxBits ==> s.bits[i] == 0)
    && s.bitCount == 0 && s.holder1 == Zero() && s.holder2 == Zero()
  }

  function Drained(s: CaptureState): (r: CaptureState)
  {
    s.(bits := seq(MaxBits, i => 0), bitCount := 0, holder1 := Zero(), holder2 := Zero())
  }

  /**
   * What one edge does. DATA1 stores a 1 at `bitCount` and counts it only
   * while `bitCount < 100`; DATA0 always counts and never writes the buffer.
   * Both shift bitHolder1 while the new count is below 23 (else bitHolder2),
   * only DATA1 shifting in a 1, and both restart the countdown.
   */
  lemma {:induction false} EdgeEffects(s: CaptureState, b: bool)
    requires |s.bits| == MaxBits
    ensures var r := Edge(s, b);
      var n := if b && s.bitCount >= MaxBits then s.bitCount else (s.bitCount + 1) % Modulus;
      && r.bitCount == n
      && r.bits == (if b && s.bitCount < MaxBits then s.bits[s.bitCount := 1] else s.bits)
      && (n < Holder1Limit ==> r.holder1 == ShiftIn(s.holder1, b) && r.holder2 == s.holder2)
      && (n >= Holder1Limit ==> r.holder2 == ShiftIn(s.holder2, b) && r.holder1 == s.holder1)
      && r.counter == WaitTime && !r.done
  {
  }

  /**
   * Without further edges, a running countdown of c passes ends after
   * exactly c passes: the frame is not settled before, and is settled (with
   * the counter at zero, nothing else changed) from then on.
   */
  lemma {:induction false} CountdownExpires(s: CaptureState, k: nat)
    requires !s.done && s.counter > 0
    ensures Ticks(s, k) == if k < s.counter then s.(counter := s.counter - k) else s.(counter := 0, done := true)
  {
    if k > 0 {
      CountdownExpires(s, k - 1);
    }
  }

  /**
   * The capture variables hold the frame `w` (of at most 100 bits): the
   * count is its length, the buffer holds its bits (0 or 1) followed by
   * zeros, bitHolder1 holds its first min(n, 22) bits and bitHolder2 the
   * remaining ones, the last bit received in bit 0 (only the last 32 kept).
   */
  ghost predicate HoldsFrame(r: CaptureState, w: seq<bool>)
  {
    && |r.bits| == MaxBits && |w| <= MaxBits
    && r.bitCount == |w|
    && BufferHolds(r.bits, w)
    && Holder1Holds(r.holder1, w)
    && Holder2Holds(r.holder2, w)
  }

  /** The buffer holds the bits of `w` (0 or 1) followed by zeros. */
  ghost predicate BufferHolds(bits: seq<Byte>, w: seq<bool>)
    requires |bits| == MaxBits
  {
    forall i :: 0 <= i < MaxBits ==> bits[i] == if i < |w| then BitValue(w[i]) else 0
  }

  /** bitHolder1 holds the first min(|w|, 22) bits of `w`, the last of them in bit 0. */
  ghost predicate Holder1Holds(h: Word, w: seq<bool>)
  {
    var k := Min(|w|, Holder1Limit - 1);
    forall j :: 0 <= j < WordBits ==> h[j] == (j < k && w[k - 1 - j])
  }

  /** bitHolder2 holds the bits of `w` after the 22nd, the last of them in bit 0. */
  ghost predicate Holder2Holds(h: Word, w: seq<bool>)
  {
    forall j :: 0 <= j < WordBits ==> h[j] == (j < |w| - (Holder1Limit - 1) && w[|w| - 1 - j])
  }

  lemma {:induction false} EdgeKeepsFrameBits(p: CaptureState, w: seq<bool>, b: bool)
    requires HoldsFrame(p, w) && |w| < MaxBits
    ensures Edge(p, b).bitCount == |w| + 1
    ensures BufferHolds(Edge(p, b).bits, w + [b])
  {
    var r := Edge(p, b);
    var w2 := w + [b];
    forall i | 0 <= i < MaxBits
      ensures r.bits[i] == if i < |w2| then BitValue(w2[i]) else 0
    {
      if i < |w| {
        assert w2[i] == w[i];
      }
    }
  }

  lemma {:induction false} EdgeShiftsHolder1(p: CaptureState, w: seq<bool>, b: bool)
    requires HoldsFrame(p, w) && |w| < Holder1Limit - 1
    ensures Holder1Holds(Edge(p, b).holder1, w + [b])
    ensures Edge(p, b).holder2 == p.holder2
  {
    var r := Edge(p, b);
    var w2 := w + [b];
    assert r.holder1 == ShiftIn(p.holder1, b);
    forall j | 0 <= j < WordBits
      ensures r.holder1[j] == (j < |w2| && w2[|w2| - 1 - j])
    {
      if 0 < j < |w2| {
        assert w2[|w2| - 1 - j] == w[|w| - 1 - (j - 1)];
      }
    }
  }

  lemma {:induction false} EdgeShiftsHolder2(p: CaptureState, w: seq<bool>, b: bool)
    requires HoldsFrame(p, w) && Holder1Limit - 1 <= |w| < MaxBits
    ensures Holder2Holds(Edge(p, b).holder2, w + [b])
    ensures Edge(p, b).holder1 == p.holder1
  {
    var r := Edge(p, b);
    var w2 := w + [b];
    assert r.holder2 == ShiftIn(p.holder2, b);
    forall j | 0 <= j < WordBits
      ensures r.holder2[j] == (j < |w2| - (Holder1Limit - 1) && w2[|w2| - 1 - j])
    {
      if 0 < j < |w2| - (Holder1Limit - 1) {
        assert w2[|w2| - 1 - j] == w[|w| - 1 - (j - 1)];
      }
    }
  }

  /** Past the 22nd bit, bitHolder1 no longer changes and still holds the first 22 bits. */
  lemma {:induction false} Holder1Settled(h: Word, w: seq<bool>, b: bool)
    requires Holder1Holds(h, w) && Holder1Limit - 1 <= |w|
    ensures Holder1Holds(h, w + [b])
  {
    var w2 := w + [b];
    forall j | 0 <= j < WordBits
      ensures h[j] == (j < Holder1Limit - 1 && w2[Holder1Limit - 2 - j])
    {
      if j < Holder1Limit - 1 {
        assert w2[Holder1Limit - 2 - j] == w[Holder1Limit - 2 - j];
      }
    }
  }

  /** Before the 22nd bit, bitHolder2 stays clear. */
  lemma {:induction false} Holder2Clear(h: Word, w: seq<bool>, b: bool)
    requires Holder2Holds(h, w) && |w| < Holder1Limit - 1
    ensures Holder2Holds(h, w + [b])
  {
  }

  lemma {:induction false} EdgeExtendsFrame(p: CaptureState, w: seq<bool>, b: bool)
    requires HoldsFrame(p, w) && |w| < MaxBits
    ensures HoldsFrame(Edge(p, b), w + [b])
  {
    EdgeKeepsFrameBits(p, w, b);
    if |w| < Holder1Limit - 1 {
      EdgeShiftsHolder1(p, w, b);
      Holder2Clear(p.holder2, w, b);
    } else {
      EdgeShiftsHolder2(p, w, b);
      Holder1Settled(p.holder1, w, b);
    }
  }

  /**
   * Capturing a frame of at most 100 bits into cleared variables
   * reconstructs it (HoldsFrame), and leaves the countdown running.
   */
  lemma {:induction false} CaptureFrame(s: CaptureState, w: seq<bool>)
    requires Cleared(s) && |w| <= MaxBits
    ensures HoldsFrame(Feed(s, w), w)
    ensures w != [] ==> Feed(s, w).counter == WaitTime && !Feed(s, w).done
  {
    if w != [] {
      var w' := w[..|w| - 1];
      CaptureFrame(s, w');
      assert w' + [w[|w| - 1]] == w;
      EdgeExtendsFrame(Feed(s, w'), w', w[|w| - 1]);
    }
  }

  /** One main-loop pass on the capture variables: the countdown, then the drain of a settled frame. */
  function Pass(s: CaptureState): (r: CaptureState)
    ensures |s.bits| == MaxBits ==> |r.bits| == MaxBits
    ensures FrameReady(TickStep(s)) ==> Cleared(r) && r.done
  {
    var t := TickStep(s);
    if FrameReady(t) then Drained(t) else t
  }

  /** k main-loop passes. */
  function Passes(s: CaptureState, k: nat): (r: CaptureState)
    ensures |s.bits| == MaxBits ==> |r.bits| == MaxBits
  {
    if k == 0 then s else Pass(Passes(s, k - 1))
  }

  /**
   * The edges of `w` with main-loop passes in between, as the firmware sees
   * them: gaps[i] passes run before edge i.
   */
  function Paced(s: CaptureState, w: seq<bool>, gaps: seq<nat>): (r: CaptureState)
    requires |s.bits| == MaxBits && |gaps| == |w|
    ensures |r.bits| == MaxBits
  {
    if w == [] then s
    else
      var k := |w| - 1;
      Edge(Passes(Paced(s, w[..k], gaps[..k]), gaps[k]), w[k])
  }

  /** Every gap after the first edge is shorter than the countdown, so the frame does not settle early. */
  predicate Steady(gaps: seq<nat>)
  {
    forall i :: 0 < i < |gaps| ==> gaps[i] < WaitTime
  }

  /** Silent passes before an edge do not change what the edge leaves behind. */
  lemma {:induction false} TicksThenEdge(s: CaptureState, k: nat, b: bool)
    requires |s.bits| == MaxBits
    ensures Edge(Ticks(s, k), b) == Edge(s, b)
  {
    var t := Ticks(s, k);
    assert t == s.(counter := t.counter, done := t.done);
  }

  /**
   * Loop passes that find no settled frame: with no bits captured, or with
   * a countdown that does not expire within them, none of k passes drains,
   * and they only run the countdown.
   */
  lemma {:induction false} QuietPasses(s: CaptureState, k: nat)
    requires |s.bits| == MaxBits
    requires s.bitCount == 0 || (!s.done && k < s.counter)
    ensures forall j :: 0 <= j <= k ==> !FrameReady(Ticks(s, j))
    ensures Passes(s, k) == Ticks(s, k)
  {
    forall j | 0 <= j <= k
      ensures !FrameReady(Ticks(s, j))
    {
      if s.bitCount != 0 {
        CountdownExpires(s, j);
      }
    }
    if k > 0 {
      QuietPasses(s, k - 1);
    }
  }

  /**
   * A frame whose edges are separated by fewer than 3000 loop passes, and
   * which starts with nothing captured, is captured as if its edges had come
   * back to back: no pass in between drains it, and the capture variables
   * end up as Feed leaves them.
   */
  lemma {:induction false} PacedIsFeed(s: CaptureState, w: seq<bool>, gaps: seq<nat>)
    requires |s.bits| == MaxBits && s.bitCount == 0
    requires |gaps| == |w| && Steady(gaps)
    ensures Paced(s, w, gaps) == Feed(s, w)
    ensures forall i, j :: 0 <= i < |w| && 0 <= j <= gaps[i] ==> !FrameReady(Ticks(Paced(s, w[..i], gaps[..i]), j))
  {
    if w != [] {
      var k := |w| - 1;
      var w', g' := w[..k], gaps[..k];
      assert Steady(g');
      PacedIsFeed(s, w', g');
      var p := Feed(s, w');
      if w' != [] {
        EdgeEffects(Feed(s, w'[..|w'| - 1]), w'[|w'| - 1]);
      }
      QuietPasses(p, gaps[k]);
      TicksThenEdge(p, gaps[k], w[k]);
      forall i, j | 0 <= i < |w| && 0 <= j <= gaps[i]
        ensures !FrameReady(Ticks(Paced(s, w[..i], gaps[..i]), j))
      {
        if i < k {
          assert w'[..i] == w[..i] && g'[..i] == gaps[..i] && g'[i] == gaps[i];
        } else {
          assert w[..i] == w' && gaps[..i] == g';
        }
      }
    }
  }

  /**
   * The main loop leaves a paced frame alone until it has settled: no pass
   * between its edges finds it ready, nor do the first 2999 silent passes
   * after its last edge, which only run the countdown.
   */
  lemma {:induction false} FrameSettles(s: CaptureState, w: seq<bool>, gaps: seq<nat>)
    requires Cleared(s) && w != [] && |gaps| == |w| && Steady(gaps)
    ensures Paced(s, w, gaps) == Feed(s, w)
    ensures forall i, j :: 0 <= i < |w| && 0 <= j <= gaps[i] ==> !FrameReady(Ticks(Paced(s, w[..i], gaps[..i]), j))
    ensures var f := Feed(s, w);
      && (forall j :: 0 <= j < WaitTime ==> !FrameReady(Ticks(f, j)))
      && Passes(f, WaitTime - 1) == Ticks(f, WaitTime - 1)
  {
    PacedIsFeed(s, w, gaps);
    var f := Feed(s, w);
    EdgeEffects(Feed(s, w[..|w| - 1]), w[|w| - 1]);
    QuietPasses(f, WaitTime - 1);
  }

  /** k zero bits in a row. */
  function Zeros(k: nat): (w: seq<bool>)
    ensures |w| == k && forall i :: 0 <= i < k ==> !w[i]
  {
    seq(k, i => false)
  }

  /** DATA0 edges keep counting past the buffer's capacity. */
  lemma {:induction false} Int0CountsPastCapacity(s: CaptureState, k: nat)
    requires |s.bits| == MaxBits && s.bitCount + k < Modulus
    ensures Feed(s, Zeros(k)).bitCount == s.bitCount + k
  {
    if k > 0 {
      assert Zeros(k)[..k - 1] == Zeros(k - 1);
      Int0CountsPastCapacity(s, k - 1);
    }
  }

  /**
   * A frame longer than the buffer is reachable: 101 DATA0 edges after
   * power-on, then silence, give a settled frame whose bit count (101)
   * exceeds the buffer's 100 entries. Draining it reads databits[100].
   */
  lemma {:induction false} OverlongFrameReachable()
    ensures var r := Ticks(Feed(PowerOn, Zeros(MaxBits + 1)), WaitTime);
      FrameReady(r) && r.bitCount == MaxBits + 1 > |r.bits|
  {
    Int0CountsPastCapacity(PowerOn, MaxBits + 1);
    var f := Feed(PowerOn, Zeros(MaxBits + 1));
    assert f == Edge(Feed(PowerOn, Zeros(MaxBits)), false) by {
      assert Zeros(MaxBits + 1)[..MaxBits] == Zeros(MaxBits);
    }
    CountdownExpires(f, WaitTime);
  }

  /** All 100 bytes hold the 0xFF pattern that `allBitsAreOnes` looks for. */
  predicate AllOnes(bits: seq<Byte>)
  {
    forall i :: 0 <= i < |bits| ==> bits[i] == 0xFF
  }

  /**
   * The noise rule never fires: the buffer only ever holds 0 or 1, so it
   * never consists of 0xFF bytes.
   */
  lemma {:induction false} NoiseRuleNeverFires(bits: seq<Byte>)
    requires |bits| == MaxBits && IsBitString(bits)
    ensures !AllOnes(bits)
  {
    assert bits[0] <= 1;
  }

  /** The capture globals, updated in place by the interrupt handlers and the main loop. */
  class Reader {
    const databits: array<Byte>
    var bitCount: UInt32
    var bitHolder1: Word
    var bitHolder2: Word
    var weigandCounter: UInt32
    var flagDone: bool

    /**
     * The buffer has MAX_BITS entries, each 0 or 1, and a countdown in
     * progress has not reached zero (so `--weigandCounter` never wraps).
     */
    ghost predicate Valid()
      reads this, databits
    {
      databits.Length == MaxBits && IsBitString(databits[..]) && (!flagDone ==> weigandCounter > 0)
    }

    function State(): CaptureState
      reads this, databits
    {
      CaptureState(databits[..], bitCount, bitHolder1, bitHolder2, weigandCounter, flagDone)
    }

    /** Power-on and the capture part of setup(). */
    constructor ()
      ensures Valid() && State() == PowerOn && fresh(databits)
    {
      databits := new Byte[MaxBits](i => 0);
      bitCount := 0;
      bitHolder1 := Zero();
      bitHolder2 := Zero();
      weigandCounter := WaitTime;
      flagDone := false;
    }

    /** ISR_INT0. */
    method Int0()
      requires Valid()
      modifies this
      ensures Valid() && State() == Int0Step(old(State()))
    {
      bitCount := (bitCount + 1) % Modulus;
      flagDone := false;
      if bitCount < Holder1Limit {
        bitHolder1 := ShiftIn(bitHolder1, false);
      } else {
        bitHolder2 := ShiftIn(bitHolder2, false);
      }
      weigandCounter := WaitTime;
    }

    /** ISR_INT1. */
    method Int1()
      requires Valid()
      modifies this, databits
      ensures Valid() && State() == Int1Step(old(State()))
    {
      if bitCount < MaxBits {
        databits[bitCount] := 1;
        bitCount := bitCount + 1;
      }
      flagDone := false;
      if bitCount < Holder1Limit {
        bitHolder1 := ShiftIn(bitHolder1, true);
      } else {
        bitHolder2 := ShiftIn(bitHolder2, true);
      }
      weigandCounter := WaitTime;
    }

    /** The countdown part of loop(). */
    method Tick()
      requires Valid()
      modifies this
      ensures Valid() && State() == TickStep(old(State()))
      ensures !old(flagDone) ==> weigandCounter == old(weigandCounter) - 1
    {
      if !flagDone {
        weigandCounter := (weigandCounter - 1) % Modulus;
        if weigandCounter == 0 {
          flagDone := true;
        }
      }
    }

    /** clearDatabits. */
    method ClearDatabits()
      requires Valid()
      modifies databits
      ensures Valid() && databits[..] == seq(MaxBits, i => 0)
    {
      var i := 0;
      while i < MaxBits
        invariant 0 <= i <= MaxBits
        invariant forall k :: 0 <= k < i ==> databits[k] == 0
        invariant forall k :: i <= k < MaxBits ==> databits[k] == old(databits[k])
      {
        databits[i] := 0;
        i := i + 1;
      }
    }

    /** allBitsAreOnes: is every byte of the buffer 0xFF? */
    method AllBitsAreOnes() returns (r: bool)
      requires databits.Length == MaxBits
      ensures r <==> AllOnes(databits[..])
    {
      var i := 0;
      while i < MaxBits
        invariant 0 <= i <= MaxBits
        invariant forall k :: 0 <= k < i ==> databits[k] == 0xFF
      {
        if databits[i] != 0xFF {
          return false;
        }
        i := i + 1;
      }
      return true;
    }

    /**
     * decodeHIDFacilityCode / decodeHIDCardNumber: the buffer range
     * [start, end) read as a big-endian number, `v = (v << 1) | databits[i]`
     * in 32 bits (the OR adds the bit, since the shifted value is even and
     * the bit is 0 or 1).
     */
    method DecodeRange(start: UInt32, end: UInt32) returns (v: UInt32)
      requires Valid() && end <= MaxBits
      ensures start >= end ==> v == 0
      ensures start <= end ==> v == BigEndian(databits[start..end]) % Modulus
      ensures start <= end <= start + WordBits ==> v == BigEndian(databits[start..end]) < Pow2(end - start)
    {
      v := 0;
      var i := start;
      while i < end
        invariant start <= i && (i <= end || i == start)
        invariant i <= end ==> v == BigEndian(databits[start..i]) % Modulus
        invariant end < i ==> v == 0
      {
        DecodeStep(databits[..], start, i, v);
        v := (v * 2) % Modulus + databits[i];
        i := i + 1;
      }
      if start <= end <= start + WordBits {
        DecodedFits(databits[..], start, end);
      }
    }
  }

  lemma {:induction false} BigEndianSnoc(bits: seq<Byte>, start: nat, i: nat)
    requires start <= i < |bits|
    ensures BigEndian(bits[start..i + 1]) == 2 * BigEndian(bits[start..i]) + bits[i]
  {
    assert bits[start..i + 1][..i - start] == bits[start..i];
  }

  /** One pass of the decode loop keeps `v` equal to the bits read so far, modulo 2^32. */
  lemma {:induction false} DecodeStep(bits: seq<Byte>, start: nat, i: nat, v: int)
    requires IsBitString(bits) && start <= i < |bits|
    requires v == BigEndian(bits[start..i]) % Modulus
    ensures (v * 2) % Modulus + bits[i] == BigEndian(bits[start..i + 1]) % Modulus
  {
    BigEndianSnoc(bits, start, i);
    ShiftOrStep(BigEndian(bits[start..i]), bits[i]);
  }

  lemma {:induction false} DecodedFits(bits: seq<Byte>, start: nat, end: nat)
    requires IsBitString(bits) && start <= end <= |bits| && end - start <= WordBits
    ensures BigEndian(bits[start..end]) < Pow2(end - start) <= Modulus
  {
    assert IsBitString(bits[start..end]);
    BigEndianBound(bits[start..end]);
    Pow2Monotone(end - start, WordBits);
    Pow2Of32();
  }

  lemma {:induction false} Pow2Of32()
    ensures Pow2(32) == Modulus
  {
    Pow2Of31();
  }

  /** One accumulation step modulo 2^32: `((x mod 2^32) << 1) | b == (2x + b) mod 2^32` for a 0/1 bit. */
  lemma {:induction false} ShiftOrStep(x: nat, b: Byte)
    requires b <= 1
    ensures ((x % Modulus) * 2) % Modulus + b == (2 * x + b) % Modulus
  {
    var q, r := x / Modulus, x % Modulus;
    assert 2 * x + b == (2 * q) * Modulus + (2 * r + b);
    if 2 * r + b < Modulus {
      DivModUnique(2 * x + b, Modulus, 2 * q, 2 * r + b);
      DivModUnique(2 * r, Modulus, 0, 2 * r);
    } else {
      assert 2 * r + b - Modulus < Modulus;
      DivModUnique(2 * x + b, Modulus, 2 * q + 1, 2 * r + b - Modulus);
      DivModUnique(2 * r, Modulus, 1, 2 * r - Modulus);
    }
  }
}
