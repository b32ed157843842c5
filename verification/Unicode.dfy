/** Unicode escapes of 3rd/cjson/cJSON.c: a \uXXXX literal, or a pair of them, becomes UTF-8.  Characters
    are bytes; bit operations are written as arithmetic. */
module Unicode {
  import opened Wrappers

  // ---------------------------------------------------------------- hexadecimal digits

  function HexValue(c: char): Option<int> {
    if '0' <= c <= '9' then Some(c as int - '0' as int)
    else if 'A' <= c <= 'F' then Some(10 + c as int - 'A' as int)
    else if 'a' <= c <= 'f' then Some(10 + c as int - 'a' as int)
    else None
  }

  predicate AllHex(s: string) { forall i :: 0 <= i < |s| ==> HexValue(s[i]).Some? }

  /** The number that hexadecimal digits stand for. */
  function HexNumber(s: string): (n: nat)
    requires AllHex(s)
  {
    if s == [] then 0 else 16 * HexNumber(s[..|s| - 1]) + HexValue(s[|s| - 1]).value
  }

  /** parse_hex4: 0 stands for invalid digits, too. */
  function ParseHex4(s: string): (h: nat)
    requires |s| == 4
    ensures h < 0x10000
    ensures h > 0 ==> AllHex(s)
  {
    if AllHex(s) then Hex4Bound(s); HexNumber(s) else 0
  }

  lemma Hex4Bound(s: string)
    requires |s| == 4 && AllHex(s)
    ensures HexNumber(s) == 0x1000 * HexValue(s[0]).value + 0x100 * HexValue(s[1]).value + 0x10 * HexValue(s[2]).value + HexValue(s[3]).value
    ensures HexNumber(s) < 0x10000
  {
    hide HexNumber, HexValue;
    var a, b, c := s[..3], s[..2], s[..1];
    assert a[..2] == b && b[..1] == c && c[..0] == [];
    HexStep(s);
    HexStep(a);
    HexStep(b);
    HexStep(c);
  }

  lemma HexStep(s: string)
    requires AllHex(s)
    ensures s == [] ==> HexNumber(s) == 0
    ensures s != [] ==>
              var n := |s| - 1;
              && AllHex(s[..n]) && 0 <= HexValue(s[n]).value < 16 && HexNumber(s) == 16 * HexNumber(s[..n]) + HexValue(s[n]).value
    ensures |s| == 1 ==> HexNumber(s[..0]) == 0
  {
  }

  method ParseHex4Loop(input: string, at: nat) returns (h: nat)
    requires at + 4 <= |input|
    ensures h == ParseHex4(input[at..at + 4])
  {
    h := 0;
    var s := input[at..at + 4];
    var i := 0;
    while i < 4
      invariant 0 <= i <= 4 && AllHex(s[..i])
      invariant h == (if i < 4 then 16 else 1) * HexNumber(s[..i])
    {
      var c := input[at + i];
      assert c == s[i] && s[..i + 1][..i] == s[..i];
      if '0' <= c <= '9' {
        h := h + (c as int - '0' as int);
      } else if 'A' <= c <= 'F' {
        h := h + (10 + c as int - 'A' as int);
      } else if 'a' <= c <= 'f' {
        h := h + (10 + c as int - 'a' as int);
      } else {
        return 0;
      }
      assert HexNumber(s[..i + 1]) == 16 * HexNumber(s[..i]) + HexValue(c).value;
      if i < 3 {
        h := h * 16;
      }
      i := i + 1;
    }
    assert s[..4] == s;
  }

  // ---------------------------------------------------------------- section 3 of RFC 3629

  predicate IsScalar(cp: int) { 0 <= cp < 0xD800 || 0xE000 <= cp <= 0x10FFFF }

  predicate IsTail(c: char) { 0x80 <= c as int <= 0xBF }

  function Low6(c: char): int { c as int - 0x80 }

  /** The scalar value that well-formed bytes encode: the shortest form, and no surrogates. */
  function DecodeUtf8(s: string): Option<int> {
    if |s| == 1 && s[0] as int < 0x80 then Some(s[0] as int)
    else if |s| == 2 && 0xC2 <= s[0] as int <= 0xDF && IsTail(s[1]) then
      Some((s[0] as int - 0xC0) * 0x40 + Low6(s[1]))
    else if |s| == 3 && 0xE0 <= s[0] as int <= 0xEF && IsTail(s[1]) && IsTail(s[2])
            && (s[0] as int == 0xE0 ==> 0xA0 <= s[1] as int) && (s[0] as int == 0xED ==> s[1] as int <= 0x9F) then
      Some((s[0] as int - 0xE0) * 0x1000 + Low6(s[1]) * 0x40 + Low6(s[2]))
    else if |s| == 4 && 0xF0 <= s[0] as int <= 0xF4 && IsTail(s[1]) && IsTail(s[2]) && IsTail(s[3])
            && (s[0] as int == 0xF0 ==> 0x90 <= s[1] as int) && (s[0] as int == 0xF4 ==> s[1] as int <= 0x8F) then
      Some((s[0] as int - 0xF0) * 0x40000 + Low6(s[1]) * 0x1000 + Low6(s[2]) * 0x40 + Low6(s[3]))
    else None
  }

  // ---------------------------------------------------------------- the encoding

  function Utf8Length(cp: nat): (n: nat)
    ensures 1 <= n <= 4
  {
    if cp < 0x80 then 1 else if cp < 0x800 then 2 else if cp < 0x10000 then 3 else 4
  }

  /** The last n bytes for cp, from the last to the first: six bits each. */
  function Tail(cp: nat, n: nat): (s: string)
    ensures |s| == n
  {
    if n == 0 then [] else Tail(cp / 0x40, n - 1) + [(0x80 + cp % 0x40) as char]
  }

  function Mark(n: nat): nat { if n == 2 then 0xC0 else if n == 3 then 0xE0 else if n == 4 then 0xF0 else 0 }

  function Shifted(cp: nat, n: nat): (r: nat)
    ensures r <= cp
  {
    if n == 0 then cp else Shifted(cp / 0x40, n - 1)
  }

  /** What utf16_literal_to_utf8 writes for a code point. */
  function Utf8(cp: nat): (s: string)
    requires cp <= 0x10FFFF
    ensures |s| == Utf8Length(cp)
  {
    var n := Utf8Length(cp);
    FirstByte(cp);
    [(Mark(n) + Shifted(cp, n - 1)) as char] + Tail(cp, n - 1)
  }

  lemma FirstByte(cp: nat)
    requires cp <= 0x10FFFF
    ensures var n := Utf8Length(cp); Mark(n) + Shifted(cp, n - 1) < 0x100
    ensures var n := Utf8Length(cp); n == 1 ==> Shifted(cp, n - 1) == cp
    ensures var n := Utf8Length(cp); n == 2 ==> Shifted(cp, n - 1) == cp / 0x40 < 0x20
    ensures var n := Utf8Length(cp); n == 3 ==> Shifted(cp, n - 1) == cp / 0x40 / 0x40 < 0x10
    ensures var n := Utf8Length(cp); n == 4 ==> Shifted(cp, n - 1) == cp / 0x40 / 0x40 / 0x40 < 0x08
  {
    var a, b, c := cp / 0x40, cp / 0x40 / 0x40, cp / 0x40 / 0x40 / 0x40;
    assert Shifted(c, 0) == c && Shifted(b, 1) == Shifted(b / 0x40, 0) && Shifted(b, 0) == b && Shifted(a, 0) == a;
    assert Shifted(a, 1) == Shifted(a / 0x40, 0) && Shifted(a, 2) == Shifted(a / 0x40, 1);
  }

  /** Every scalar value is encoded as the standard says. */
  lemma EncodesScalar(cp: nat)
    requires IsScalar(cp)
    ensures DecodeUtf8(Utf8(cp)) == Some(cp)
  {
    var n := Utf8Length(cp);
    var s := Utf8(cp);
    var a, b, c := cp / 0x40, cp / 0x40 / 0x40, cp / 0x40 / 0x40 / 0x40;
    FirstByte(cp);
    if n == 1 {
    } else if n == 2 {
      TailOne(cp);
    } else if n == 3 {
      TailOne(a);
      assert Tail(cp, 2) == Tail(a, 1) + [(0x80 + cp % 0x40) as char];
    } else {
      TailOne(b);
      assert Tail(a, 2) == Tail(b, 1) + [(0x80 + a % 0x40) as char];
      assert Tail(cp, 3) == Tail(a, 2) + [(0x80 + cp % 0x40) as char];
    }
  }

  lemma TailOne(cp: nat)
    ensures Tail(cp, 1) == [(0x80 + cp % 0x40) as char]
  {
    assert Tail(cp / 0x40, 0) == [];
  }

  // ---------------------------------------------------------------- literals

  predicate IsLow(n: int) { 0xDC00 <= n <= 0xDFFF }

  predicate IsHigh(n: int) { 0xD800 <= n <= 0xDBFF }

  /** The code point of a surrogate pair. */
  function FromPair(high: nat, low: nat): nat {
    0x10000 + ((high % 0x400) * 0x400 + low % 0x400)
  }

  /** What a literal is turned into, and how many characters of the input it takes. */
  datatype Converted = Converted(bytes: string, length: nat)

  /** utf16_literal_to_utf8; the input begins with a backslash and a u. */
  function Convert(input: string): (r: Option<Converted>)
    ensures r.Some? ==> r.value.length in {6, 12} && r.value.length <= |input|
  {
    if |input| < 6 then None
    else
      var first := ParseHex4(input[2..6]);
      if IsLow(first) then None
      else if !IsHigh(first) then Some(Converted(Utf8(first), 6))
      else if |input| < 12 || input[6] != '\\' || input[7] != 'u' then None
      else
        var second := ParseHex4(input[8..12]);
        if !IsLow(second) then None else Some(Converted(Utf8(FromPair(first, second)), 12))
  }

  /** The code unit written out, with digits of either case. */
  predicate IsUnit(s: string, unit: nat) {
    |s| == 6 && s[0] == '\\' && s[1] == 'u' && AllHex(s[2..]) && HexNumber(s[2..]) == unit
  }

  /** Section 7 of RFC 8259: one unit, or a surrogate pair above the basic plane. */
  predicate IsLiteral(s: string, cp: nat) {
    if cp < 0x10000 then IsUnit(s, cp)
    else |s| == 12 && IsUnit(s[..6], 0xD800 + (cp - 0x10000) / 0x400) && IsUnit(s[6..], 0xDC00 + (cp - 0x10000) % 0x400)
  }

  /** Every scalar value, in any spelling and whatever follows, becomes its UTF-8 encoding. */
  lemma LiteralBecomesUtf8(cp: nat, s: string, rest: string)
    requires IsScalar(cp) && IsLiteral(s, cp)
    ensures Convert(s + rest) == Some(Converted(Utf8(cp), |s|)) && DecodeUtf8(Utf8(cp)) == Some(cp)
  {
    EncodesScalar(cp);
    var input := s + rest;
    if cp < 0x10000 {
      assert input[2..6] == s[2..];
    } else {
      assert input[2..6] == s[..6][2..] && input[8..12] == s[6..][2..];
      assert input[6] == s[6..][0] && input[7] == s[6..][1];
      PairBack(cp);
    }
  }

  lemma PairBack(cp: nat)
    requires 0x10000 <= cp <= 0x10FFFF
    ensures var high, low := 0xD800 + (cp - 0x10000) / 0x400, 0xDC00 + (cp - 0x10000) % 0x400;
            IsHigh(high) && IsLow(low) && FromPair(high, low) == cp
  {
  }

  /** Nothing else is accepted: a literal is taken just if its first unit is no surrogate, invalid digits
      counting as 0, or if a high surrogate is followed by a low one. */
  lemma SurrogatesMustPair(input: string)
    ensures Convert(input).Some? <==>
              && |input| >= 6
              && var first := ParseHex4(input[2..6]);
                 || (!IsLow(first) && !IsHigh(first))
                 || (IsHigh(first) && |input| >= 12 && input[6..8] == "\\u" && IsLow(ParseHex4(input[8..12])))
  {
    if |input| >= 12 { assert input[6..8] == [input[6], input[7]]; }
  }

  lemma SliceOfSlice(s: string, a: nat, b: nat, i: nat, j: nat)
    requires a <= b <= |s| && i <= j <= b - a
    ensures s[a..b][i..j] == s[a + i..a + j]
  {
    var u, v := s[a..b], s[a + i..a + j];
    forall k | 0 <= k < j - i
      ensures u[i..j][k] == v[k]
    {
      assert u[i..j][k] == u[i + k] == s[a + (i + k)];
    }
  }

  /** utf16_literal_to_utf8: reads at position at, not beyond end; writes the bytes at position out. */
  method Utf16LiteralToUtf8(content: string, at: nat, end: nat, output: array<char>, out: nat) returns (length: nat, out': nat)
    requires at <= end <= |content|
    requires Convert(content[at..end]).Some? ==> out + |Convert(content[at..end]).value.bytes| <= output.Length
    modifies output
    ensures Convert(content[at..end]).None? ==> length == 0 && out' == out && output[..] == old(output[..])
    ensures Convert(content[at..end]).Some? ==>
              var r := Convert(content[at..end]).value;
              length == r.length && out' == out + |r.bytes| && output[..out'] == old(output[..out]) + r.bytes
  {
    ghost var input := content[at..end];
    length, out' := 0, out;
    if end - at < 6 {
      return;
    }
    SliceOfSlice(content, at, end, 2, 6);
    var first := ParseHex4Loop(content, at + 2);
    if IsLow(first) {
      return;
    }
    var codepoint := first;
    var taken := 6;
    if IsHigh(first) {
      if end - at < 12 || content[at + 6] != '\\' || content[at + 7] != 'u' {
        return;
      }
      SliceOfSlice(content, at, end, 8, 12);
      var second := ParseHex4Loop(content, at + 8);
      if !IsLow(second) {
        return;
      }
      codepoint := FromPair(first, second);
      taken := 12;
    }
    assert Convert(input) == Some(Converted(Utf8(codepoint), taken));
    out' := WriteUtf8(codepoint, output, out);
    length := taken;
  }

  /** Encodes a code point. */
  method WriteUtf8(codepoint: nat, output: array<char>, out: nat) returns (out': nat)
    requires codepoint <= 0x10FFFF && out + Utf8Length(codepoint) <= output.Length
    modifies output
    ensures out' == out + Utf8Length(codepoint) && output[..out'] == old(output[..out]) + Utf8(codepoint)
  {
    hide Tail, Shifted, Mark, Utf8Length;
    var n := Utf8Length(codepoint);
    ghost var before := output[..out];
    var cp := WriteTail(codepoint, n, output, out);
    FirstByte(codepoint);
    output[out] := (Mark(n) + cp) as char;
    out' := out + n;
    ThreeParts(output[..], out, n);
    assert output[..][..out] == before && output[..][out + 1..out + n] == Tail(codepoint, n - 1);
  }

  /** The bytes but the first, from the last one on; the result is what is left of the code point. */
  method WriteTail(codepoint: nat, n: nat, output: array<char>, out: nat) returns (cp: nat)
    requires n > 0 && out + n <= output.Length
    modifies output
    ensures cp == Shifted(codepoint, n - 1)
    ensures output[..out] == old(output[..out]) && output[out + 1..out + n] == Tail(codepoint, n - 1)
  {
    hide Tail, Shifted;
    cp := codepoint;
    var position := n - 1;
    ghost var done: string := [];
    assert Tail(codepoint, n - 1) + [] == Tail(codepoint, n - 1);
    while position > 0
      invariant 0 <= position < n && Shifted(cp, position) == Shifted(codepoint, n - 1)
      invariant output[..out] == old(output[..out]) && |done| == n - position - 1
      invariant forall k :: 0 <= k < |done| ==> output[out + position + 1 + k] == done[k]
      invariant Tail(cp, position) + done == Tail(codepoint, n - 1)
    {
      TailStep(cp, position, done);
      output[out + position] := (0x80 + cp % 0x40) as char;
      done := [output[out + position]] + done;
      cp := cp / 0x40;
      position := position - 1;
    }
    TailEnd(cp, done);
  }

  lemma ThreeParts(s: string, out: nat, n: nat)
    requires n > 0 && out + n <= |s|
    ensures s[..out + n] == s[..out] + ([s[out]] + s[out + 1..out + n])
  {
  }

  lemma TailStep(cp: nat, n: nat, done: string)
    requires n > 0
    ensures Tail(cp / 0x40, n - 1) + ([(0x80 + cp % 0x40) as char] + done) == Tail(cp, n) + done
    ensures Shifted(cp, n) == Shifted(cp / 0x40, n - 1)
  {
    assert Tail(cp, n) == Tail(cp / 0x40, n - 1) + [(0x80 + cp % 0x40) as char];
  }

  lemma TailEnd(cp: nat, done: string)
    ensures Tail(cp, 0) + done == done && Shifted(cp, 0) == cp
  {
  }
}
