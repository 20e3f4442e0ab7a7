/** The byte-level encodings the IMA measurement lists use: 32-bit
    little-endian words for the binary list, "%02x" lower-case hex for
    digests and "%2d" decimal for PCR numbers in the ASCII list. Each
    encoder comes with the decoder that inverts it. */
module ImaEncoding {
  import opened Wrappers

  type byte = x: int | 0 <= x < 0x100
  type u32 = x: int | 0 <= x < 0x1_0000_0000
  type i32 = x: int | -0x8000_0000 <= x < 0x8000_0000

  const SPACE: byte := 0x20
  const NEWLINE: byte := 0x0a
  const MINUS: byte := 0x2d
  const DIGIT_ZERO: byte := 0x30
  const LOWER_A: byte := 0x61

  /** The bytes of an ASCII string literal. */
  function Ascii(s: string): (r: seq<byte>)
    requires forall i :: 0 <= i < |s| ==> s[i] as int < 0x100
    ensures |r| == |s| && forall i :: 0 <= i < |s| ==> r[i] == s[i] as int
  {
    if s == [] then [] else [s[0] as int] + Ascii(s[1..])
  }

  /** C's conversion of a 32-bit `int` (or a `size_t`) to `u32`: the
      value modulo 2^32. */
  function U32(x: int): (r: u32)
    ensures 0 <= x < 0x1_0000_0000 ==> r == x
    ensures -0x1_0000_0000 <= x < 0 ==> r == x + 0x1_0000_0000
  {
    x % 0x1_0000_0000
  }

  // ---------------------------------------------------------------------
  // 32-bit little-endian words (cpu_to_le32 on a little-endian host)

  function Le32(x: u32): (r: seq<byte>)
    ensures |r| == 4
  {
    [x % 0x100, x / 0x100 % 0x100, x / 0x100 / 0x100 % 0x100, x / 0x100 / 0x100 / 0x100]
  }

  function FromLe32(b: seq<byte>): (x: u32)
    requires |b| == 4
  {
    b[0] as int + 0x100 * b[1] as int + 0x1_0000 * b[2] as int + 0x100_0000 * b[3] as int
  }

  lemma Le32RoundTrip(x: u32)
    ensures FromLe32(Le32(x)) == x
  {
  }

  lemma FromLe32RoundTrip(b: seq<byte>)
    requires |b| == 4
    ensures Le32(FromLe32(b)) == b
  {
    var q2 := b[2] as int + 0x100 * b[3] as int;
    var q1 := b[1] as int + 0x100 * q2;
    var x := b[0] as int + 0x100 * q1;
    assert x == FromLe32(b);
    SplitByte(b[0], q1);
    SplitByte(b[1], q2);
    SplitByte(b[2], b[3]);
  }

  lemma SplitByte(lo: byte, hi: int)
    ensures (lo + 0x100 * hi) % 0x100 == lo && (lo + 0x100 * hi) / 0x100 == hi
  {
  }

  // ---------------------------------------------------------------------
  // Lower-case hexadecimal ("%02x" per byte)

  predicate IsHexDigit(c: byte) {
    DIGIT_ZERO <= c < DIGIT_ZERO + 10 || LOWER_A <= c < LOWER_A + 6
  }

  function HexDigit(n: int): (c: byte)
    requires 0 <= n < 16
    ensures IsHexDigit(c)
  {
    if n < 10 then DIGIT_ZERO + n else LOWER_A + (n - 10)
  }

  /** The value of a hex digit; 0 for any other byte. */
  function HexValue(c: byte): (n: int)
    ensures 0 <= n < 16
    ensures IsHexDigit(c) ==> HexDigit(n) == c
  {
    if DIGIT_ZERO <= c < DIGIT_ZERO + 10 then c - DIGIT_ZERO
    else if LOWER_A <= c < LOWER_A + 6 then c - LOWER_A + 10
    else 0
  }

  /** "%02x" of one byte: always two digits, the high nibble first. */
  function HexByte(b: byte): (r: seq<byte>)
    ensures |r| == 2 && IsHexDigit(r[0]) && IsHexDigit(r[1])
    ensures 16 * HexValue(r[0]) + HexValue(r[1]) == b
  {
    [HexDigit(b / 16), HexDigit(b % 16)]
  }

  /** The hex text of a byte string, built from the last byte backwards so
      that printing byte `i` extends the text of bytes `0..i`. */
  function Hex(d: seq<byte>): (r: seq<byte>)
    ensures |r| == 2 * |d|
    ensures forall k :: 0 <= k < |r| ==> IsHexDigit(r[k])
  {
    if d == [] then [] else Hex(d[..|d| - 1]) + HexByte(d[|d| - 1])
  }

  /** Reads back a string of hex digit pairs. */
  function UnHex(s: seq<byte>): (d: seq<byte>)
    requires |s| % 2 == 0
    ensures 2 * |d| == |s|
  {
    if s == [] then []
    else UnHex(s[..|s| - 2]) + [16 * HexValue(s[|s| - 2]) + HexValue(s[|s| - 1])]
  }

  /** Reads back hex text: `None` unless it is an even number of hex
      digits. */
  function ParseHex(s: seq<byte>): (r: Option<seq<byte>>)
    ensures r.Some? <==> |s| % 2 == 0 && forall k :: 0 <= k < |s| ==> IsHexDigit(s[k])
    ensures r.Some? ==> 2 * |r.value| == |s|
  {
    if |s| % 2 == 0 && forall k :: 0 <= k < |s| ==> IsHexDigit(s[k]) then Some(UnHex(s)) else None
  }

  lemma HexRoundTrip(d: seq<byte>)
    ensures ParseHex(Hex(d)) == Some(d)
  {
    UnHexHex(d);
  }

  lemma {:induction false} UnHexHex(d: seq<byte>)
    ensures UnHex(Hex(d)) == d
  {
    if d != [] {
      var init := d[..|d| - 1];
      var last := d[|d| - 1];
      assert Hex(d) == Hex(init) + HexByte(last);
      UnHexSnoc(Hex(init), HexByte(last));
      UnHexHex(init);
      assert d == init + [last];
    }
  }

  /** Reading back text that ends in a digit pair reads the pair last. */
  lemma UnHexSnoc(s: seq<byte>, pair: seq<byte>)
    requires |s| % 2 == 0 && |pair| == 2
    ensures UnHex(s + pair) == UnHex(s) + [16 * HexValue(pair[0]) + HexValue(pair[1])]
  {
    var t := s + pair;
    assert t[..|t| - 2] == s;
  }

  /** Byte `i` of `d` is printed at text positions 2i and 2i+1. */
  lemma {:induction false} HexAt(d: seq<byte>, i: nat)
    requires i < |d|
    ensures Hex(d)[2 * i..2 * i + 2] == HexByte(d[i])
  {
    if i < |d| - 1 {
      HexAt(d[..|d| - 1], i);
      assert Hex(d)[..2 * (|d| - 1)] == Hex(d[..|d| - 1]);
    }
  }

  // ---------------------------------------------------------------------
  // Decimal ("%d" and "%2d")

  predicate IsDecimalDigit(c: byte) {
    DIGIT_ZERO <= c < DIGIT_ZERO + 10
  }

  /** The decimal digits of `n`, without leading zeros. */
  function Digits(n: nat): (r: seq<byte>)
    ensures 1 <= |r|
    ensures forall k :: 0 <= k < |r| ==> IsDecimalDigit(r[k])
    ensures n > 0 ==> r[0] != DIGIT_ZERO
  {
    if n < 10 then [DIGIT_ZERO + n] else Digits(n / 10) + [DIGIT_ZERO + n % 10]
  }

  function DigitsValue(s: seq<byte>): nat
    requires forall k :: 0 <= k < |s| ==> IsDecimalDigit(s[k])
  {
    if s == [] then 0
    else
      var c := s[|s| - 1];
      assert IsDecimalDigit(c);
      var last: nat := c as int - DIGIT_ZERO as int;
      10 * DigitsValue(s[..|s| - 1]) + last
  }

  lemma {:induction false} DigitsRoundTrip(n: nat)
    ensures DigitsValue(Digits(n)) == n
  {
    if n >= 10 {
      var r := Digits(n);
      assert r[..|r| - 1] == Digits(n / 10);
      DigitsRoundTrip(n / 10);
    }
  }

  /** "%d": a minus sign for negative numbers, then the digits. */
  function FormatDecimal(n: int): (r: seq<byte>)
    ensures 1 <= |r| && r[0] != SPACE
  {
    if n < 0 then [MINUS] + Digits(-n) else Digits(n)
  }

  function Spaces(k: nat): (r: seq<byte>)
    ensures |r| == k && forall i :: 0 <= i < k ==> r[i] == SPACE
  {
    if k == 0 then [] else [SPACE] + Spaces(k - 1)
  }

  /** "%2d": "%d" right-aligned in a field of at least two characters. */
  function FormatWidth2(n: int): (r: seq<byte>)
    ensures |r| >= 2
    ensures 0 <= n < 10 ==> r == [SPACE, DIGIT_ZERO + n]
    ensures n >= 10 || n < 0 ==> r == FormatDecimal(n)
  {
    var s := FormatDecimal(n);
    if |s| < 2 then Spaces(2 - |s|) + s else s
  }

  function TrimLeadingSpaces(s: seq<byte>): (t: seq<byte>)
    ensures t == [] || t[0] != SPACE
  {
    if s != [] && s[0] == SPACE then TrimLeadingSpaces(s[1..]) else s
  }

  /** Reads back an optionally space-padded, optionally signed decimal. */
  function ParseDecimal(s: seq<byte>): (r: Option<int>)
  {
    ParseSigned(TrimLeadingSpaces(s))
  }

  /** Reads back "%d": an optional minus sign and at least one digit. */
  function ParseSigned(t: seq<byte>): (r: Option<int>)
  {
    if t != [] && t[0] == MINUS then
      var ds := t[1..];
      if ds != [] && forall k :: 0 <= k < |ds| ==> IsDecimalDigit(ds[k]) then Some(-(DigitsValue(ds) as int)) else None
    else
      if t != [] && forall k :: 0 <= k < |t| ==> IsDecimalDigit(t[k]) then Some(DigitsValue(t)) else None
  }

  lemma {:induction false} TrimPadding(k: nat, t: seq<byte>)
    requires t != [] && t[0] != SPACE
    ensures TrimLeadingSpaces(Spaces(k) + t) == t
  {
    var s := Spaces(k) + t;
    if k == 0 {
      assert s == t;
    } else {
      assert s == [SPACE] + (Spaces(k - 1) + t);
      TrimPadding(k - 1, t);
    }
  }

  /** "%d" reads back as the number printed. */
  lemma FormatDecimalRoundTrip(n: int)
    ensures ParseSigned(FormatDecimal(n)) == Some(n)
  {
    if n < 0 {
      assert FormatDecimal(n)[1..] == Digits(-n);
      DigitsRoundTrip(-n);
    } else {
      DigitsRoundTrip(n);
    }
  }

  /** The padding of "%2d" is only spaces before "%d". */
  lemma TrimWidth2(n: int)
    ensures TrimLeadingSpaces(FormatWidth2(n)) == FormatDecimal(n)
  {
    var s := FormatDecimal(n);
    if |s| < 2 {
      TrimPadding(2 - |s|, s);
    } else {
      TrimPadding(0, s);
      assert Spaces(0) + s == s;
    }
  }

  /** The PCR column of the ASCII list reads back as the PCR number. */
  lemma FormatWidth2RoundTrip(n: int)
    ensures ParseDecimal(FormatWidth2(n)) == Some(n)
  {
    TrimWidth2(n);
    FormatDecimalRoundTrip(n);
  }
}
