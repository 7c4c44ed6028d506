/**
 * Decoding of the colour strings of a theme file: six (RGB) or eight (RGBA)
 * hexadecimal digits, packed into one unsigned 32-bit RGBA value.
 */
module ColorCodec {
  import opened Wrappers

  type uint32 = x: int | 0 <= x < 0x1_0000_0000

  /** What `getHexColor` throws, with the offending string where it names one. */
  datatype ColorError =
    | EmptyColor             // a null string
    | BadLength(text: string) // neither 6 nor 8 characters
    | NotHex(text: string)    // a character that is not a hexadecimal digit

  predicate IsHexDigit(c: char)
  {
    ('0' <= c <= '9') || ('a' <= c <= 'f') || ('A' <= c <= 'F')
  }

  predicate AllHex(s: string)
  {
    forall i :: 0 <= i < |s| ==> IsHexDigit(s[i])
  }

  function DigitValue(c: char): (v: nat)
    requires IsHexDigit(c)
    ensures v < 16
  {
    if '0' <= c <= '9' then c as int - '0' as int
    else if 'a' <= c <= 'f' then c as int - 'a' as int + 10
    else c as int - 'A' as int + 10
  }

  function Pow16(n: nat): (p: nat)
    ensures p >= 1
  {
    if n == 0 then 1 else 16 * Pow16(n - 1)
  }

  /** The value of a string of hexadecimal digits, most significant first. */
  function HexValue(s: string): (v: nat)
    requires AllHex(s)
    ensures v < Pow16(|s|)
  {
    if s == [] then 0 else HexValue(s[..|s| - 1]) * 16 + DigitValue(s[|s| - 1])
  }

  /**
   * `getHexColor`: a null string is EmptyColor, a length other than 6 or 8
   * is BadLength (so the empty string is BadLength), a non-digit is NotHex.
   * Six digits are RGB: the value moves up one byte and alpha is 0xFF.
   * Eight digits are RGBA and are taken as they are.
   */
  function GetHexColor(s: Option<string>): (r: Result<uint32, ColorError>)
    ensures s.None? ==> r == Failure(EmptyColor)
    ensures s.Some? && |s.value| != 6 && |s.value| != 8 ==> r == Failure(BadLength(s.value))
    ensures s.Some? && (|s.value| == 6 || |s.value| == 8) && !AllHex(s.value) ==> r == Failure(NotHex(s.value))
    ensures r.Success? <==> s.Some? && (|s.value| == 6 || |s.value| == 8) && AllHex(s.value)
    ensures r.Success? && |s.value| == 6 ==> r.value % 0x100 == 0xFF && r.value / 0x100 == HexValue(s.value)
    ensures r.Success? && |s.value| == 8 ==> r.value == HexValue(s.value)
  {
    if s.None? then Failure(EmptyColor)
    else if |s.value| != 6 && |s.value| != 8 then Failure(BadLength(s.value))
    else if !AllHex(s.value) then Failure(NotHex(s.value))
    else
      SixteenPowers();
      var v := HexValue(s.value);
      // (v << 8) | 0xFF: v has at most 24 bits, so nothing is shifted out.
      if |s.value| == 6 then Success(v * 0x100 + 0xFF) else Success(v)
  }

  lemma SixteenPowers()
    ensures Pow16(6) == 0x100_0000 && Pow16(8) == 0x1_0000_0000
  {
    assert Pow16(2) == 0x100;
    assert Pow16(4) == 0x1_0000;
  }

  /** The digit written for a value below 16. */
  function HexChar(d: nat): (c: char)
    requires d < 16
    ensures IsHexDigit(c) && DigitValue(c) == d
  {
    "0123456789ABCDEF"[d]
  }

  /** `v` written with exactly `n` upper-case hexadecimal digits. */
  function ToHex(v: nat, n: nat): (s: string)
    requires v < Pow16(n)
    ensures |s| == n && AllHex(s)
  {
    if n == 0 then "" else ToHex(v / 16, n - 1) + [HexChar(v % 16)]
  }

  /** Reading back what ToHex wrote gives the value written. */
  lemma {:induction false} HexRoundTrip(v: nat, n: nat)
    requires v < Pow16(n)
    ensures HexValue(ToHex(v, n)) == v
  {
    if n > 0 {
      var s := ToHex(v, n);
      assert s[..|s| - 1] == ToHex(v / 16, n - 1);
      HexRoundTrip(v / 16, n - 1);
    }
  }

  /** Every packed RGBA value survives being written as eight digits. */
  lemma DecodeEncodedRgba(v: uint32)
    ensures GetHexColor(Some(ToHex(v, 8))) == Success(v)
  {
    SixteenPowers();
    HexRoundTrip(v, 8);
  }

  /** Six digits of RGB decode to that RGB with an opaque alpha byte. */
  lemma DecodeEncodedRgb(rgb: nat)
    requires rgb < 0x100_0000
    ensures GetHexColor(Some(ToHex(rgb, 6))) == Success(rgb * 0x100 + 0xFF)
  {
    SixteenPowers();
    HexRoundTrip(rgb, 6);
  }

  /** A six-digit colour is the eight-digit colour with alpha "FF" appended. */
  lemma RgbIsRgbaWithOpaqueAlpha(s: string)
    requires |s| == 6 && AllHex(s)
    ensures GetHexColor(Some(s)) == GetHexColor(Some(s + "FF"))
  {
    HexSnoc(s, 'F');
    HexSnoc(s + "F", 'F');
    assert s + "F" + "F" == s + "FF";
  }

  /** Appending one digit multiplies by sixteen and adds the digit. */
  lemma HexSnoc(s: string, c: char)
    requires AllHex(s) && IsHexDigit(c)
    ensures AllHex(s + [c]) && HexValue(s + [c]) == HexValue(s) * 16 + DigitValue(c)
  {
    assert (s + [c])[..|s|] == s;
  }

  lemma DecodeExamples()
    ensures GetHexColor(Some("FF0000")) == Success(0xFF0000FF)
    ensures GetHexColor(Some("FF0000AA")) == Success(0xFF0000AA)
    ensures GetHexColor(Some("")) == Failure(BadLength(""))
    ensures GetHexColor(Some("ABC")) == Failure(BadLength("ABC"))
    ensures GetHexColor(None) == Failure(EmptyColor)
  {
    RedDigits();
  }

  /** The digit values behind the red examples, one appended digit at a time. */
  lemma RedDigits()
    ensures AllHex("FF0000") && HexValue("FF0000") == 0xFF0000
    ensures AllHex("FF0000AA") && HexValue("FF0000AA") == 0xFF0000AA
  {
    HexSnoc("", 'F');
    assert "" + ['F'] == "F";
    HexSnoc("F", 'F');
    assert "F" + ['F'] == "FF";
    HexSnoc("FF", '0');
    assert "FF" + ['0'] == "FF0";
    HexSnoc("FF0", '0');
    assert "FF0" + ['0'] == "FF00";
    HexSnoc("FF00", '0');
    assert "FF00" + ['0'] == "FF000";
    HexSnoc("FF000", '0');
    assert "FF000" + ['0'] == "FF0000";
    HexSnoc("FF0000", 'A');
    assert "FF0000" + ['A'] == "FF0000A";
    HexSnoc("FF0000A", 'A');
    assert "FF0000A" + ['A'] == "FF0000AA";
    assert HexValue("FF0000") == 0xFF0000;
  }
}
