/** `Color.init(hex:)` (Foodi/ViewExtensions/ColorExtension.swift), integer
    part: remove every `#`, scan hexadecimal digits into a `UInt64`, and
    take bits 16-23, 8-15 and 0-7 of the result as red, green and blue. The
    division of each channel by 255 into a `Double` is not modelled; the
    channels are kept as the integers 0..255. */
module HexColor {
  const UInt64Max: nat := 0xffff_ffff_ffff_ffff

  predicate IsHexDigit(c: char) {
    '0' <= c <= '9' || 'a' <= c <= 'f' || 'A' <= c <= 'F'
  }

  function HexDigitValue(c: char): (d: nat)
    requires IsHexDigit(c)
    ensures d < 16
  {
    if '0' <= c <= '9' then c as int - '0' as int
    else if 'a' <= c <= 'f' then c as int - 'a' as int + 10
    else c as int - 'A' as int + 10
  }

  predicate AllHex(s: string) {
    forall i :: 0 <= i < |s| ==> IsHexDigit(s[i])
  }

  /** The value of a string of hex digits, most significant first. */
  function HexValue(s: string): nat
    requires AllHex(s)
  {
    if s == [] then 0 else HexValue(s[..|s| - 1]) * 16 + HexDigitValue(s[|s| - 1])
  }

  /** `s` with every `#` removed, order kept. */
  function WithoutHashes(s: string): string {
    if s == [] then []
    else WithoutHashes(s[..|s| - 1]) + (if s[|s| - 1] == '#' then [] else [s[|s| - 1]])
  }

  /** The hex digits the scanner consumes: the longest all-hex prefix. */
  function LeadingHexDigits(s: string): (digits: string)
    ensures AllHex(digits) && |digits| <= |s| && digits == s[..|digits|]
  {
    if s == [] || !IsHexDigit(s[0]) then []
    else [s[0]] + LeadingHexDigits(s[1..])
  }

  /** A scanned value that does not fit in 64 bits reads as `UInt64.max`. */
  function Clamp(v: nat): (c: nat)
    ensures c <= UInt64Max
  {
    if v <= UInt64Max then v else UInt64Max
  }

  /** What `scanHexInt64` leaves in a variable that starts at 0. */
  function ScanValue(s: string): nat {
    Clamp(HexValue(LeadingHexDigits(s)))
  }

  datatype Rgb = Rgb(red: nat, green: nat, blue: nat, opacity: nat)

  /** `(v & 0xff0000) >> 16`, `(v & 0x00ff00) >> 8` and `v & 0x0000ff`. */
  function Channels(v: nat): Rgb {
    Rgb((v / 0x1_0000) % 0x100, (v / 0x100) % 0x100, v % 0x100, 1)
  }

  /** The colour for `hex`. */
  function ColorOf(hex: string): Rgb {
    Channels(ScanValue(WithoutHashes(hex)))
  }

  /** `Color.init(hex:)`. */
  method ColorFromHex(hex: string) returns (color: Rgb)
    ensures color == ColorOf(hex)
    ensures color.red < 256 && color.green < 256 && color.blue < 256 && color.opacity == 1
  {
    var stripped: string := [];
    for i := 0 to |hex|
      invariant stripped == WithoutHashes(hex[..i])
    {
      assert hex[..i + 1][..i] == hex[..i];
      if hex[i] != '#' {
        stripped := stripped + [hex[i]];
      }
    }
    assert hex[..|hex|] == hex;

    var rgbValue: nat := 0;
    var i := 0;
    while i < |stripped| && IsHexDigit(stripped[i])
      invariant 0 <= i <= |stripped| && AllHex(stripped[..i])
      invariant LeadingHexDigits(stripped) == stripped[..i] + LeadingHexDigits(stripped[i..])
      invariant rgbValue == Clamp(HexValue(stripped[..i]))
    {
      LeadingHexDigitsStep(stripped, i);
      assert stripped[..i + 1][..i] == stripped[..i];
      rgbValue := Clamp(rgbValue * 16 + HexDigitValue(stripped[i]));
      i := i + 1;
    }
    assert LeadingHexDigits(stripped[i..]) == [];
    assert stripped[..i] + [] == stripped[..i];

    color := Rgb((rgbValue / 0x1_0000) % 0x100, (rgbValue / 0x100) % 0x100, rgbValue % 0x100, 1);
  }

  lemma LeadingHexDigitsStep(s: string, i: nat)
    requires i < |s| && IsHexDigit(s[i])
    ensures s[..i] + LeadingHexDigits(s[i..]) == s[..i + 1] + LeadingHexDigits(s[i + 1..])
  {
    assert s[i..][1..] == s[i + 1..];
    assert s[..i + 1] == s[..i] + [s[i]];
  }

  // ---------------------------------------------------------------------
  // Properties

  /** No `#` survives, and every other character is kept with its
      multiplicity. */
  lemma {:induction false} WithoutHashesContents(s: string)
    ensures '#' !in WithoutHashes(s)
    ensures multiset(WithoutHashes(s)) == multiset(s)['#' := 0]
  {
    if s != [] {
      var init := s[..|s| - 1];
      WithoutHashesContents(init);
      assert s == init + [s[|s| - 1]];
      assert multiset(s) == multiset(init) + multiset{s[|s| - 1]};
    }
  }

  lemma {:induction false} WithoutHashesUnchanged(s: string)
    requires '#' !in s
    ensures WithoutHashes(s) == s
  {
    if s != [] {
      WithoutHashesUnchanged(s[..|s| - 1]);
    }
  }

  lemma {:induction false} WithoutHashesLeading(s: string)
    ensures WithoutHashes("#" + s) == WithoutHashes(s)
  {
    if s != [] {
      var t := "#" + s;
      assert t[..|t| - 1] == "#" + s[..|s| - 1];
      WithoutHashesLeading(s[..|s| - 1]);
    } else {
      assert ("#" + s)[..0] == [];
    }
  }

  /** Each channel is a byte. */
  lemma ChannelsAreBytes(v: nat)
    ensures Channels(v).red < 256 && Channels(v).green < 256 && Channels(v).blue < 256
    ensures Channels(v).opacity == 1
  {
  }

  /** Bits above 23 do not affect the colour. */
  lemma HighBitsIgnored(v: nat, high: nat)
    ensures Channels(v + high * 0x100_0000) == Channels(v)
  {
    var w := v + high * 0x100_0000;
    DivByTwoBytes(w, v / 0x1_0000 + high * 0x100, v % 0x1_0000);
    ByteUnchanged(v / 0x1_0000, high);
    DivByByte(w, v / 0x100 + high * 0x1_0000, v % 0x100);
    ByteUnchanged(v / 0x100, high * 0x100);
    ByteUnchanged(v, high * 0x1_0000);
  }

  lemma ByteUnchanged(a: nat, k: nat)
    ensures (a + k * 0x100) % 0x100 == a % 0x100
  {
    DivByByte(a + k * 0x100, a / 0x100 + k, a % 0x100);
  }

  /** The three channels reassemble the low 24 bits of the value. */
  lemma ChannelsReassemble(v: nat)
    ensures Channels(v).red * 0x1_0000 + Channels(v).green * 0x100 + Channels(v).blue == v % 0x100_0000
  {
    var q, b := v / 0x100, v % 0x100;
    var q2, g := q / 0x100, q % 0x100;
    var top, r := q2 / 0x100, q2 % 0x100;
    assert v == q2 * 0x1_0000 + (g * 0x100 + b);
    DivByTwoBytes(v, q2, g * 0x100 + b);
    assert v == top * 0x100_0000 + (r * 0x1_0000 + g * 0x100 + b);
    DivByThreeBytes(v, top, r * 0x1_0000 + g * 0x100 + b);
  }

  lemma DivByByte(v: nat, q: nat, rem: nat)
    requires rem < 0x100 && v == q * 0x100 + rem
    ensures v / 0x100 == q && v % 0x100 == rem
  {
  }

  lemma DivByTwoBytes(v: nat, q: nat, rem: nat)
    requires rem < 0x1_0000 && v == q * 0x1_0000 + rem
    ensures v / 0x1_0000 == q
  {
  }

  lemma DivByThreeBytes(v: nat, q: nat, rem: nat)
    requires rem < 0x100_0000 && v == q * 0x100_0000 + rem
    ensures v % 0x100_0000 == rem
  {
  }

  /** Three bytes laid out as `0xRRGGBB` come back out as the channels. */
  lemma BytesToChannels(r: nat, g: nat, b: nat)
    requires r < 256 && g < 256 && b < 256
    ensures Channels(r * 0x1_0000 + g * 0x100 + b) == Rgb(r, g, b, 1)
  {
    var v := r * 0x1_0000 + g * 0x100 + b;
    DivByTwoBytes(v, r, g * 0x100 + b);
    DivByByte(r, 0, r);
    DivByByte(v, r * 0x100 + g, b);
    DivByByte(r * 0x100 + g, r, g);
  }

  /** Appending two hex digits shifts the value by one byte. */
  lemma HexValueTwoMore(a: string, b: string)
    requires AllHex(a) && AllHex(b) && |b| == 2
    ensures AllHex(a + b)
    ensures HexValue(a + b) == HexValue(a) * 0x100 + HexValue(b)
    ensures HexValue(b) < 256
  {
    var ab := a + b;
    var a1 := a + [b[0]];
    assert ab[..|ab| - 1] == a1 && ab[|ab| - 1] == b[1];
    assert a1[..|a1| - 1] == a && a1[|a1| - 1] == b[0];
    assert HexValue(a1) == HexValue(a) * 16 + HexDigitValue(b[0]);
    assert HexValue(ab) == HexValue(a1) * 16 + HexDigitValue(b[1]);
    assert b[..|b| - 1] == [b[0]] && [b[0]][..0] == [];
    assert HexValue([b[0]]) == HexDigitValue(b[0]);
    assert HexValue(b) == HexDigitValue(b[0]) * 16 + HexDigitValue(b[1]);
  }

  /** Six hex digits `RRGGBB` give the bytes `RR`, `GG` and `BB`. */
  lemma SixDigitChannels(s: string)
    requires |s| == 6 && AllHex(s)
    ensures ScanValue(s) == HexValue(s)
    ensures ColorOf(s) == Rgb(HexValue(s[..2]), HexValue(s[2..4]), HexValue(s[4..]), 1)
  {
    WithoutHashesUnchanged(s);
    LeadingAllHex(s);
    var r, g, b := s[..2], s[2..4], s[4..];
    assert s == r + g + b;
    assert r == [] + r;
    HexValueTwoMore([], r);
    HexValueTwoMore(r, g);
    HexValueTwoMore(r + g, b);
    BytesToChannels(HexValue(r), HexValue(g), HexValue(b));
  }

  lemma {:induction false} LeadingAllHex(s: string)
    requires AllHex(s)
    ensures LeadingHexDigits(s) == s
  {
    if s != [] {
      LeadingAllHex(s[1..]);
    }
  }

  /** The scan stops at the first character that is not a hex digit, and
      reads 0 when there is none. */
  lemma ScanStops(s: string, t: string)
    requires AllHex(s)
    requires t == [] || !IsHexDigit(t[0])
    ensures LeadingHexDigits(s + t) == s
    ensures ScanValue(s + t) == Clamp(HexValue(s))
    ensures s == [] ==> ScanValue(s + t) == 0
  {
    ScanStopsInduct(s, t);
  }

  lemma {:induction false} ScanStopsInduct(s: string, t: string)
    requires AllHex(s)
    requires t == [] || !IsHexDigit(t[0])
    ensures LeadingHexDigits(s + t) == s
  {
    if s != [] {
      assert (s + t)[1..] == s[1..] + t;
      ScanStopsInduct(s[1..], t);
    } else {
      assert s + t == t;
    }
  }

  lemma HexPair(hi: char, lo: char)
    requires IsHexDigit(hi) && IsHexDigit(lo)
    ensures HexValue([hi, lo]) == HexDigitValue(hi) * 16 + HexDigitValue(lo)
  {
    var s := [hi, lo];
    assert s[..|s| - 1] == [hi];
    assert HexValue([hi]) == HexDigitValue(hi) by {
      assert [hi][..0] == [];
    }
  }

  /** The colour the detail screens use as a tint. */
  lemma TintExample(hex: string)
    requires hex == "F6E8AC"
    ensures ColorOf(hex) == Rgb(246, 232, 172, 1)
  {
    var r, g, b := ['F', '6'], ['E', '8'], ['A', 'C'];
    assert hex == r + g + b;
    assert AllHex(hex) by {
      forall i | 0 <= i < 6
        ensures IsHexDigit(hex[i])
      {
      }
    }
    SixDigitChannels(hex);
    assert hex[..2] == r && hex[2..4] == g && hex[4..] == b;
    HexPair('F', '6');
    HexPair('E', '8');
    HexPair('A', 'C');
  }

  /** A leading `#` makes no difference. */
  lemma TintWithHashExample(hex: string)
    requires hex == "#F6E8AC"
    ensures ColorOf(hex) == Rgb(246, 232, 172, 1)
  {
    var digits := "F6E8AC";
    WithoutHashesLeading(digits);
    assert hex == "#" + digits;
    TintExample(digits);
  }
}
