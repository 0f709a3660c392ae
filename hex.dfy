/** Text forms of byte strings: `binascii.hexlify` of one byte, the
    `bytearray.fromhex` parser, `str.replace(c, "")` for separators, and the
    joined renderings used for MAC addresses, stream ids and system ids. */
module Hex {
  import opened Bytes
  import opened Wrappers

  predicate IsLowerHex(c: char) {
    '0' <= c <= '9' || 'a' <= c <= 'f'
  }

  predicate IsHexDigit(c: char) {
    IsLowerHex(c) || 'A' <= c <= 'F'
  }

  /** The lower-case digit hexlify writes for a nibble. */
  function HexDigit(n: nat): (c: char)
    requires n < 16
    ensures IsLowerHex(c)
  {
    if n < 10 then ('0' as int + n) as char else ('a' as int + n - 10) as char
  }

  /** The value `bytearray.fromhex` gives a digit; it accepts both cases. */
  function DigitValue(c: char): (r: Option<nat>)
    ensures r.Some? <==> IsHexDigit(c)
    ensures r.Some? ==> r.value < 16
    ensures IsLowerHex(c) ==> r.Some? && HexDigit(r.value) == c
  {
    if '0' <= c <= '9' then Some(c as int - '0' as int)
    else if 'a' <= c <= 'f' then Some(c as int - 'a' as int + 10)
    else if 'A' <= c <= 'F' then Some(c as int - 'A' as int + 10)
    else None
  }

  /** `binascii.hexlify(bytearray([b])).decode()`: two lower-case digits
      that read back as b. */
  function HexByte(b: Byte): (r: string)
    ensures |r| == 2 && IsLowerHex(r[0]) && IsLowerHex(r[1])
    ensures DigitValue(r[0]).value * 16 + DigitValue(r[1]).value == b
  {
    [HexDigit(b / 16), HexDigit(b % 16)]
  }

  /** `bytearray.fromhex(s)`: pairs of hex digits, None where Python raises
      ValueError (an odd length or a character that is not a hex digit). */
  function FromHex(s: string): (r: Option<Bytes>)
    ensures r.Some? ==> |r.value| * 2 == |s|
  {
    if s == [] then Some([])
    else if |s| == 1 || !IsHexDigit(s[0]) || !IsHexDigit(s[1]) then None
    else
      var rest := FromHex(s[2..]);
      if rest.None? then None
      else Some([DigitValue(s[0]).value * 16 + DigitValue(s[1]).value] + rest.value)
  }

  /** Every character of s that is in cs removed, as successive
      `s.replace(c, "")` calls do for the characters of cs. */
  function Strip(s: string, cs: set<char>): (r: string)
    ensures |r| <= |s|
  {
    if s == [] then [] else (if s[0] in cs then [] else [s[0]]) + Strip(s[1..], cs)
  }

  /** `bytearray.fromhex(s.replace('-', ''))`, how MAC address and resource
      set id strings are read. */
  function ParseDashed(s: string): Option<Bytes> {
    FromHex(Strip(s, {'-'}))
  }

  /** `bytearray.fromhex(s.replace(':', '').replace('-', ''))`, how stream id
      strings are read. */
  function ParseStreamIdText(s: string): Option<Bytes> {
    FromHex(Strip(s, {':', '-'}))
  }

  /** The hexlified bytes joined with seps[i] between bs[i] and bs[i + 1]. */
  function Render(bs: Bytes, seps: string): (r: string)
    requires |bs| == |seps| + 1
    ensures |r| == 3 * |seps| + 2
    decreases seps
  {
    if seps == [] then HexByte(bs[0])
    else HexByte(bs[0]) + [seps[0]] + Render(bs[1..], seps[1..])
  }

  /** s has the shape Render gives: lower-case digit pairs with exactly the
      separators seps between them. */
  predicate Canonical(s: string, seps: string)
    decreases seps
  {
    if seps == [] then |s| == 2 && IsLowerHex(s[0]) && IsLowerHex(s[1])
    else |s| >= 3 && IsLowerHex(s[0]) && IsLowerHex(s[1]) && s[2] == seps[0]
         && Canonical(s[3..], seps[1..])
  }

  /** The separators are removed by the parser and no hex digit is. */
  predicate Separators(seps: string, cs: set<char>) {
    (forall i :: 0 <= i < |seps| ==> seps[i] in cs) && (forall c :: c in cs ==> !IsHexDigit(c))
  }

  /** Rendering one more byte in front adds its digits and a separator. */
  lemma RenderCons(b: Byte, bs: Bytes, sep: char, seps: string)
    requires |bs| == |seps| + 1
    ensures Render([b] + bs, [sep] + seps) == HexByte(b) + [sep] + Render(bs, seps)
  {
    assert ([b] + bs)[1..] == bs;
    assert ([sep] + seps)[1..] == seps;
  }

  const MacSeps: string := "-----"
  const StreamIdSeps: string := "-----:-"
  const SystemIdSeps: string := "-------"
  const ResourceSetIdSeps: string := "---"

  lemma {:induction false} StripAppend(a: string, b: string, cs: set<char>)
    ensures Strip(a + b, cs) == Strip(a, cs) + Strip(b, cs)
  {
    if a == [] {
      assert a + b == b;
    } else {
      var ab := a + b;
      assert ab[0] == a[0];
      assert ab[1..] == a[1..] + b;
      StripAppend(a[1..], b, cs);
      var h := if a[0] in cs then [] else [a[0]];
      assert Strip(ab, cs) == h + Strip(a[1..] + b, cs);
      assert Strip(a, cs) == h + Strip(a[1..], cs);
      ConcatAssoc(h, Strip(a[1..], cs), Strip(b, cs));
    }
  }

  /** A digit pair survives Strip when no digit is stripped. */
  lemma StripPair(c0: char, c1: char, cs: set<char>)
    requires IsHexDigit(c0) && IsHexDigit(c1) && forall c :: c in cs ==> !IsHexDigit(c)
    ensures Strip([c0, c1], cs) == [c0, c1]
  {
    assert [c0, c1][1..] == [c1];
    assert Strip([c1], cs) == [c1];
  }

  /** Stripping a pair, a separator and a tail keeps the pair and the tail. */
  lemma StripPairSep(c0: char, c1: char, sep: char, t: string, cs: set<char>)
    requires IsHexDigit(c0) && IsHexDigit(c1) && sep in cs
    requires forall c :: c in cs ==> !IsHexDigit(c)
    ensures Strip([c0, c1, sep] + t, cs) == [c0, c1] + Strip(t, cs)
  {
    StripAppend([c0, c1], [sep] + t, cs);
    assert [c0, c1] + ([sep] + t) == [c0, c1, sep] + t;
    StripPair(c0, c1, cs);
    assert ([sep] + t)[1..] == t;
  }

  lemma FromHexPair(c0: char, c1: char, t: string)
    requires IsHexDigit(c0) && IsHexDigit(c1) && FromHex(t).Some?
    ensures FromHex([c0, c1] + t) == Some([DigitValue(c0).value * 16 + DigitValue(c1).value] + FromHex(t).value)
  {
    assert ([c0, c1] + t)[2..] == t;
  }

  /** Every rendering has the canonical shape. */
  lemma {:induction false} RenderCanonical(bs: Bytes, seps: string)
    requires |bs| == |seps| + 1
    ensures Canonical(Render(bs, seps), seps)
    decreases seps
  {
    if seps != [] {
      RenderCanonical(bs[1..], seps[1..]);
      var r := Render(bs, seps);
      assert r[3..] == Render(bs[1..], seps[1..]);
    }
  }

  /** Parsing a rendering gives the bytes back. */
  lemma {:induction false} ParseRender(bs: Bytes, seps: string, cs: set<char>)
    requires |bs| == |seps| + 1 && Separators(seps, cs)
    ensures FromHex(Strip(Render(bs, seps), cs)) == Some(bs)
    decreases seps
  {
    var h := HexByte(bs[0]);
    if seps == [] {
      StripPair(h[0], h[1], cs);
      assert [h[0], h[1]] == h == Render(bs, seps);
      FromHexPair(h[0], h[1], []);
      assert [h[0], h[1]] + [] == h;
      assert [bs[0]] + [] == bs;
    } else {
      var tail := Render(bs[1..], seps[1..]);
      assert Separators(seps[1..], cs);
      ParseRender(bs[1..], seps[1..], cs);
      assert Render(bs, seps) == [h[0], h[1], seps[0]] + tail;
      StripPairSep(h[0], h[1], seps[0], tail, cs);
      FromHexPair(h[0], h[1], Strip(tail, cs));
      assert [bs[0]] + bs[1..] == bs;
    }
  }

  /** Rendering what a canonical string parses to gives the string back. */
  lemma {:induction false} RenderParse(s: string, seps: string, cs: set<char>)
    requires Canonical(s, seps) && Separators(seps, cs)
    ensures FromHex(Strip(s, cs)).Some?
    ensures |FromHex(Strip(s, cs)).value| == |seps| + 1
    ensures Render(FromHex(Strip(s, cs)).value, seps) == s
    decreases seps
  {
    if seps == [] {
      RenderParsePair(s, cs);
    } else {
      assert Separators(seps[1..], cs);
      RenderParse(s[3..], seps[1..], cs);
      var tail := FromHex(Strip(s[3..], cs)).value;
      ParseStep(s, cs, tail);
      HexBytePair(s[0], s[1]);
      RenderStep(s, seps, tail, DigitValue(s[0]).value * 16 + DigitValue(s[1]).value);
    }
  }

  lemma RenderParsePair(s: string, cs: set<char>)
    requires |s| == 2 && IsLowerHex(s[0]) && IsLowerHex(s[1]) && forall c :: c in cs ==> !IsHexDigit(c)
    ensures FromHex(Strip(s, cs)).Some? && |FromHex(Strip(s, cs)).value| == 1
    ensures Render(FromHex(Strip(s, cs)).value, []) == s
  {
    HexBytePair(s[0], s[1]);
    assert s == [s[0], s[1]] + [];
    StripPair(s[0], s[1], cs);
    FromHexPair(s[0], s[1], []);
  }

  /** A leading digit pair and separator parse to one more byte in front. */
  lemma ParseStep(s: string, cs: set<char>, tailBytes: Bytes)
    requires |s| >= 3 && IsLowerHex(s[0]) && IsLowerHex(s[1]) && s[2] in cs
    requires forall c :: c in cs ==> !IsHexDigit(c)
    requires FromHex(Strip(s[3..], cs)) == Some(tailBytes)
    ensures FromHex(Strip(s, cs)) == Some([DigitValue(s[0]).value * 16 + DigitValue(s[1]).value] + tailBytes)
  {
    StripThree(s, cs);
    FromHexPair(s[0], s[1], Strip(s[3..], cs));
  }

  /** The byte a leading digit pair denotes renders as that pair. */
  lemma RenderStep(s: string, seps: string, tailBytes: Bytes, b: Byte)
    requires |s| >= 3 && IsLowerHex(s[0]) && IsLowerHex(s[1]) && seps != [] && s[2] == seps[0]
    requires b == DigitValue(s[0]).value * 16 + DigitValue(s[1]).value
    requires |tailBytes| == |seps| && Render(tailBytes, seps[1..]) == s[3..]
    ensures Render([b] + tailBytes, seps) == s
  {
    var bs := [b] + tailBytes;
    assert bs[0] == b && bs[1..] == tailBytes;
    assert Render(bs, seps) == HexByte(b) + [s[2]] + s[3..];
    HexBytePair(s[0], s[1]);
    SplitThree(s);
  }

  lemma SplitThree(s: string)
    requires |s| >= 3
    ensures [s[0], s[1]] + [s[2]] + s[3..] == s
  {
    assert s == s[..3] + s[3..];
  }

  /** Two lower-case digits are what hexlify writes for the byte they denote. */
  lemma HexBytePair(c0: char, c1: char)
    requires IsLowerHex(c0) && IsLowerHex(c1)
    ensures DigitValue(c0).value * 16 + DigitValue(c1).value < 256
    ensures HexByte(DigitValue(c0).value * 16 + DigitValue(c1).value) == [c0, c1]
  {
    DivMod16(DigitValue(c0).value, DigitValue(c1).value);
  }

  lemma DivMod16(d0: nat, d1: nat)
    requires d0 < 16 && d1 < 16
    ensures (d0 * 16 + d1) / 16 == d0 && (d0 * 16 + d1) % 16 == d1
  {
  }

  /** A digit pair and a separator at the front of s: Strip keeps the pair
      and drops the separator. */
  lemma StripThree(s: string, cs: set<char>)
    requires |s| >= 3 && IsLowerHex(s[0]) && IsLowerHex(s[1]) && s[2] in cs
    requires forall c :: c in cs ==> !IsHexDigit(c)
    ensures Strip(s, cs) == [s[0], s[1]] + Strip(s[3..], cs)
  {
    assert s[1..][1..] == s[2..];
    assert s[2..][1..] == s[3..];
    assert Strip(s[2..], cs) == Strip(s[3..], cs);
    assert Strip(s[1..], cs) == [s[1]] + Strip(s[3..], cs);
  }

  /** The first k + 1 bytes render as the front of the whole rendering. */
  lemma {:induction false} RenderPrefix(bs: Bytes, seps: string, k: nat)
    requires |bs| == |seps| + 1 && k <= |seps|
    ensures Render(bs[..k + 1], seps[..k]) == Render(bs, seps)[..3 * k + 2]
    decreases k
  {
    var r := Render(bs, seps);
    if k == 0 {
      assert bs[..1][0] == bs[0];
    } else {
      RenderPrefix(bs[1..], seps[1..], k - 1);
      assert bs[..k + 1][1..] == bs[1..][..k];
      assert seps[..k][1..] == seps[1..][..k - 1];
      assert r[..3 * k + 2] == HexByte(bs[0]) + [seps[0]] + Render(bs[1..], seps[1..])[..3 * (k - 1) + 2];
    }
  }

  lemma MacSeparators()
    ensures Separators(MacSeps, {'-'}) && Separators(StreamIdSeps, {':', '-'})
    ensures Separators(ResourceSetIdSeps, {'-'}) && Separators(SystemIdSeps, {'-'})
  {
  }

  predicate AllDigits(s: string) {
    forall i :: 0 <= i < |s| ==> '0' <= s[i] <= '9'
  }

  /** `str(n)`: decimal digits without leading zeros. */
  function Decimal(n: nat): (r: string)
    ensures |r| >= 1 && AllDigits(r)
  {
    if n < 10 then [('0' as int + n) as char]
    else Decimal(n / 10) + [('0' as int + n % 10) as char]
  }

  /** `int(s)` for a string of decimal digits. */
  function DecimalValue(s: string): nat
    requires AllDigits(s)
  {
    if s == [] then 0 else DecimalValue(s[..|s| - 1]) * 10 + (s[|s| - 1] as int - '0' as int)
  }

  /** Reading a decimal rendering gives the number back. */
  lemma {:induction false} DecimalValueDecimal(n: nat)
    ensures DecimalValue(Decimal(n)) == n
  {
    if n >= 10 {
      DecimalValueDecimal(n / 10);
      var s := Decimal(n);
      assert s[..|s| - 1] == Decimal(n / 10);
    }
  }

  /** `str(bs[0]) + "-" + ... + "-" + str(bs[k])`. */
  function RenderDecimal(bs: Bytes): (r: string)
    requires |bs| >= 1
  {
    if |bs| == 1 then Decimal(bs[0]) else Decimal(bs[0]) + "-" + RenderDecimal(bs[1..])
  }

  /** `s.split("-")`. */
  function SplitDashes(s: string): (r: seq<string>)
    ensures |r| >= 1
  {
    if s == [] then [[]]
    else
      var tail := SplitDashes(s[1..]);
      if s[0] == '-' then [[]] + tail else [[s[0]] + tail[0]] + tail[1..]
  }

  /** Digits in front of a string join its first dash-separated field. */
  lemma {:induction false} SplitDigits(a: string, b: string)
    requires AllDigits(a)
    ensures SplitDashes(a + b) == [a + SplitDashes(b)[0]] + SplitDashes(b)[1..]
  {
    var tail := SplitDashes(b);
    if a == [] {
      assert a + b == b && a + tail[0] == tail[0];
    } else {
      assert (a + b)[0] == a[0] && (a + b)[1..] == a[1..] + b;
      SplitDigits(a[1..], b);
      assert [a[0]] + (a[1..] + tail[0]) == a + tail[0];
    }
  }

  /** Splitting a decimal rendering at its dashes and reading each field
      gives the bytes back. */
  lemma {:induction false} SplitRenderDecimal(bs: Bytes)
    requires |bs| >= 1
    ensures |SplitDashes(RenderDecimal(bs))| == |bs|
    ensures forall i :: 0 <= i < |bs| ==> SplitDashes(RenderDecimal(bs))[i] == Decimal(bs[i])
    decreases |bs|
  {
    var d := Decimal(bs[0]);
    if |bs| == 1 {
      SplitDigits(d, []);
      assert d + [] == d;
    } else {
      var rest := RenderDecimal(bs[1..]);
      SplitRenderDecimal(bs[1..]);
      assert d + "-" + rest == d + ("-" + rest);
      SplitDigits(d, "-" + rest);
      assert ("-" + rest)[1..] == rest;
      assert SplitDashes("-" + rest) == [[]] + SplitDashes(rest);
      assert d + [] == d;
    }
  }

  lemma RenderDecimalInverse(bs: Bytes)
    requires |bs| >= 1
    ensures var fields := SplitDashes(RenderDecimal(bs));
      && |fields| == |bs|
      && forall i :: 0 <= i < |bs| ==> AllDigits(fields[i]) && DecimalValue(fields[i]) == bs[i]
  {
    SplitRenderDecimal(bs);
    forall i | 0 <= i < |bs|
      ensures DecimalValue(Decimal(bs[i])) == bs[i]
    {
      DecimalValueDecimal(bs[i]);
    }
  }
}
