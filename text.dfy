/**
 * The string helpers of the firmware: the Arduino `String(x, HEX)` and
 * `String(x)` renderings of an unsigned number, `String::toUpperCase`,
 * `prefixPad` and `centerText`.
 */
module Text {

  /** Lower-case hexadecimal digit of d, as `String(x, HEX)` prints it. */
  function HexDigit(d: nat): (c: char)
    requires d < 16
  {
    if d < 10 then ('0' as int + d) as char else ('a' as int + d - 10) as char
  }

  /** The value of one hexadecimal digit, either case; -1 for any other character. */
  function HexDigitValue(c: char): int
  {
    if '0' <= c <= '9' then c as int - '0' as int
    else if 'a' <= c <= 'f' then c as int - 'a' as int + 10
    else if 'A' <= c <= 'F' then c as int - 'A' as int + 10
    else -1
  }

  predicate IsHexString(s: string)
  {
    forall i :: 0 <= i < |s| ==> HexDigitValue(s[i]) >= 0
  }

  /** The number a string of hexadecimal digits denotes. */
  function HexValue(s: string): nat
    requires IsHexString(s)
  {
    if s == [] then 0 else 16 * HexValue(s[..|s| - 1]) + HexDigitValue(s[|s| - 1])
  }

  /** `String(n, HEX)`: lower-case hexadecimal, no leading zeros, "0" for zero. */
  function HexString(n: nat): (r: string)
    ensures |r| >= 1 && IsHexString(r)
    ensures |r| > 1 ==> r[0] != '0'
    ensures forall i :: 0 <= i < |r| ==> '0' <= r[i] <= '9' || 'a' <= r[i] <= 'f'
  {
    if n < 16 then [HexDigit(n)] else HexString(n / 16) + [HexDigit(n % 16)]
  }

  /** Decimal digit of d. */
  function DecDigit(d: nat): (c: char)
    requires d < 10
  {
    ('0' as int + d) as char
  }

  predicate IsDecString(s: string)
  {
    forall i :: 0 <= i < |s| ==> '0' <= s[i] <= '9'
  }

  /** The number a string of decimal digits denotes. */
  function DecValue(s: string): nat
    requires IsDecString(s)
  {
    if s == [] then 0 else 10 * DecValue(s[..|s| - 1]) + (s[|s| - 1] as int - '0' as int)
  }

  /** `String(n)` for an unsigned number: decimal, no leading zeros, "0" for zero. */
  function DecString(n: nat): (r: string)
    ensures |r| >= 1 && IsDecString(r)
    ensures |r| > 1 ==> r[0] != '0'
  {
    if n < 10 then [DecDigit(n)] else DecString(n / 10) + [DecDigit(n % 10)]
  }

  /** Reading back the hexadecimal rendering gives the number. */
  lemma {:induction false} HexRoundTrip(n: nat)
    ensures HexValue(HexString(n)) == n
  {
    if n >= 16 {
      var s := HexString(n);
      assert s[..|s| - 1] == HexString(n / 16);
      HexRoundTrip(n / 16);
    }
  }

  /** Reading back the decimal rendering gives the number. */
  lemma {:induction false} DecRoundTrip(n: nat)
    ensures DecValue(DecString(n)) == n
  {
    if n >= 10 {
      var s := DecString(n);
      assert s[..|s| - 1] == DecString(n / 10);
      DecRoundTrip(n / 10);
    }
  }

  function Pow16(k: nat): nat
  {
    if k == 0 then 1 else 16 * Pow16(k - 1)
  }

  /**
   * The number of hexadecimal digits: n needs exactly k digits when
   * 16^(k-1) <= n < 16^k (and zero needs one).
   */
  lemma {:induction false} HexLength(n: nat, k: nat)
    requires k >= 1 && n < Pow16(k)
    requires k > 1 ==> Pow16(k - 1) <= n
    ensures |HexString(n)| == k
  {
    if k > 1 {
      assert n >= 16 by {
        assert Pow16(k - 1) >= 16 by { Pow16AtLeast(k - 1); }
      }
      HexLength(n / 16, k - 1);
    }
  }

  lemma {:induction false} Pow16AtLeast(k: nat)
    requires k >= 1
    ensures Pow16(k) >= 16
  {
    if k > 1 {
      Pow16AtLeast(k - 1);
    }
  }

  /** A number below 16^k has at most k hexadecimal digits. */
  lemma {:induction false} HexLengthAtMost(n: nat, k: nat)
    requires k >= 1 && n < Pow16(k)
    ensures |HexString(n)| <= k
  {
    if n >= 16 {
      assert k > 1;
      HexLengthAtMost(n / 16, k - 1);
    }
  }

  /** `toupper` on one character (ASCII). */
  function UpperChar(c: char): char
  {
    if 'a' <= c <= 'z' then (c as int - 32) as char else c
  }

  /** `String::toUpperCase`. */
  function ToUpper(s: string): (r: string)
    ensures |r| == |s|
    ensures forall i :: 0 <= i < |s| ==> r[i] == UpperChar(s[i])
  {
    seq(|s|, i requires 0 <= i < |s| => UpperChar(s[i]))
  }

  /** Upper-casing a hexadecimal string keeps the number it denotes. */
  lemma {:induction false} ToUpperKeepsHexValue(s: string)
    requires IsHexString(s)
    ensures IsHexString(ToUpper(s)) && HexValue(ToUpper(s)) == HexValue(s)
  {
    if s != [] {
      assert ToUpper(s)[..|s| - 1] == ToUpper(s[..|s| - 1]);
      ToUpperKeepsHexValue(s[..|s| - 1]);
    }
  }

  function Max(a: int, b: int): int
  {
    if a < b then b else a
  }

  /** `n` copies of `c`. */
  function Repeat(c: char, n: nat): (r: string)
    ensures |r| == n && forall i :: 0 <= i < n ==> r[i] == c
  {
    seq(n, i => c)
  }

  /** `in` left-padded with `c` to at least `len` characters. */
  function Padded(s: string, c: char, len: nat): (r: string)
    ensures |r| == Max(|s|, len)
    ensures r[|r| - |s|..] == s
    ensures forall i :: 0 <= i < |r| - |s| ==> r[i] == c
  {
    if |s| >= len then s else Repeat(c, len - |s|) + s
  }

  /** `prefixPad`: prepend `c` one character at a time until the string has `len` characters. */
  method PrefixPad(s: string, c: char, len: nat) returns (r: string)
    ensures r == Padded(s, c, len)
  {
    r := s;
    while |r| < len
      invariant |s| <= |r| <= Max(|s|, len)
      invariant r == Repeat(c, |r| - |s|) + s
      decreases len - |r|
    {
      PrependPad(c, |r| - |s|, s);
      r := [c] + r;
    }
  }

  /** Prepending one more pad character to k pad characters and `s` gives k + 1 of them. */
  lemma {:induction false} PrependPad(c: char, k: nat, s: string)
    ensures [c] + (Repeat(c, k) + s) == Repeat(c, k + 1) + s
  {
    assert [c] + Repeat(c, k) == Repeat(c, k + 1);
  }

  /** The number of bytes the UTF-8 encoding of `c` takes. */
  function Utf8Width(c: char): (n: nat)
    ensures 1 <= n <= 4
    ensures n == 1 <==> (c as int) < 0x80
  {
    if (c as int) < 0x80 then 1
    else if (c as int) < 0x800 then 2
    else if (c as int) < 0x1_0000 then 3
    else 4
  }

  /** `String::length()`: the number of bytes of the string's UTF-8 encoding. */
  function ByteLength(s: string): (n: nat)
    ensures |s| <= n <= 4 * |s|
  {
    if s == [] then 0 else ByteLength(s[..|s| - 1]) + Utf8Width(s[|s| - 1])
  }

  /** The byte length of a concatenation is the sum of the byte lengths. */
  lemma {:induction false} ByteLengthAppend(a: string, b: string)
    ensures ByteLength(a + b) == ByteLength(a) + ByteLength(b)
    decreases |b|
  {
    if b == [] {
      assert a + b == a;
    } else {
      var b' := b[..|b| - 1];
      assert (a + b)[..|a + b| - 1] == a + b';
      ByteLengthAppend(a, b');
    }
  }

  /** A string counts one byte per character exactly when it is all ASCII. */
  lemma {:induction false} ByteLengthAscii(s: string)
    ensures ByteLength(s) == |s| <==> forall i :: 0 <= i < |s| ==> (s[i] as int) < 0x80
  {
    if s != [] {
      var s' := s[..|s| - 1];
      ByteLengthAscii(s');
      assert forall i :: 0 <= i < |s'| ==> s'[i] == s[i];
    }
  }

  lemma {:induction false} RepeatBytes(c: char, n: nat)
    requires (c as int) < 0x80
    ensures ByteLength(Repeat(c, n)) == n
  {
    ByteLengthAscii(Repeat(c, n));
  }

  /**
   * `centerText`: prefix `text` with half the missing width in spaces
   * (rounded down), or return it unchanged when it already fills `width`.
   * Lengths are `String::length()`, which counts UTF-8 bytes.
   */
  method CenterText(text: string, width: int) returns (r: string)
    ensures ByteLength(text) >= width ==> r == text
    ensures ByteLength(text) < width ==> r == Repeat(' ', (width - ByteLength(text)) / 2) + text
    ensures ByteLength(text) < width ==>
      ByteLength(r) <= width && 0 <= (width - ByteLength(r)) - (ByteLength(r) - ByteLength(text)) <= 1
  {
    var len := ByteLength(text);
    if len >= width {
      return text;
    }
    var padding := (width - len) / 2;
    var spaces := "";
    var i := 0;
    while i < padding
      invariant 0 <= i <= padding
      invariant spaces == Repeat(' ', i)
    {
      spaces := spaces + " ";
      i := i + 1;
    }
    r := spaces + text;
    RepeatBytes(' ', padding);
    ByteLengthAppend(spaces, text);
  }
}
