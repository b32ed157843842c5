/** String literals as section 7 of RFC 8259 writes them, and that parse_string of 3rd/cjson/cJSON.c reads them: every spelling
    of every string, what is refused, and what is taken besides. */
module JsonLiterals {
  import opened Wrappers
  import opened Unicode
  import opened JsonStrings

  // ---------------------------------------------------------------- the grammar

  const LOWER := "0123456789abcdef"
  const UPPER := "0123456789ABCDEF"

  predicate IsDigitOf(c: char, d: nat)
    requires d < 16
  {
    c == LOWER[d] || c == UPPER[d]
  }

  /** Four hexadecimal digits, of either case. */
  predicate Spells(s: string, n: nat) {
    && |s| == 4 && n < 0x10000
    && IsDigitOf(s[0], n / 0x1000) && IsDigitOf(s[1], n / 0x100 % 16) && IsDigitOf(s[2], n / 0x10 % 16) && IsDigitOf(s[3], n % 16)
  }

  /** What a literal is made of: a character, a backslash and a character, a code unit, or a surrogate pair. */
  datatype Token = Bare(x: char) | Short(x: char) | Unit(cp: nat, digits: string) | Pair(cp: nat, high: string, low: string)

  function TokenText(t: Token): (s: string)
    ensures s != []
  {
    match t
    case Bare(x) => [x]
    case Short(x) => [BACKSLASH, x]
    case Unit(_, digits) => [BACKSLASH, 'u'] + digits
    case Pair(_, high, low) => ([BACKSLASH, 'u'] + high) + ([BACKSLASH, 'u'] + low)
  }

  predicate IsShort(x: char) { x in {'\"', '\\', '/', 'b', 'f', 'n', 'r', 't'} }

  /** The byte that a short escape stands for. */
  function Means(x: char): int {
    match x
    case '\"' => 0x22
    case '\\' => 0x5C
    case '/' => 0x2F
    case 'b' => 0x08
    case 'f' => 0x0C
    case 'n' => 0x0A
    case 'r' => 0x0D
    case 't' => 0x09
    case _ => 0
  }

  predicate IsToken(t: Token) {
    match t
    case Bare(x) => 0x20 <= x as int && x != '\"' && x != '\\'
    case Short(x) => IsShort(x)
    case Unit(cp, digits) => IsScalar(cp) && Spells(digits, cp)
    case Pair(cp, high, low) =>
      0x10000 <= cp <= 0x10FFFF && Spells(high, 0xD800 + (cp - 0x10000) / 0x400) && Spells(low, 0xDC00 + (cp - 0x10000) % 0x400)
  }

  function TokenBytes(t: Token): string
    requires IsToken(t)
  {
    match t
    case Bare(x) => [x]
    case Short(x) => [Means(x) as char]
    case Unit(cp, _) => Utf8(cp)
    case Pair(cp, _, _) => Utf8(cp)
  }

  ghost predicate AreTokens(ts: seq<Token>) { forall i :: 0 <= i < |ts| ==> IsToken(ts[i]) }

  function TokensText(ts: seq<Token>): string {
    if ts == [] then [] else TokenText(ts[0]) + TokensText(ts[1..])
  }

  ghost function TokensBytes(ts: seq<Token>): string
    requires AreTokens(ts)
  {
    if ts == [] then [] else TokenBytes(ts[0]) + TokensBytes(ts[1..])
  }

  function LiteralText(ts: seq<Token>): string { [QUOTE] + (TokensText(ts) + [QUOTE]) }

  // ---------------------------------------------------------------- escapes one by one

  /** The eight short escapes, each with its byte. */
  lemma ShortDecodes(c: string, p: nat, end: nat)
    requires p < end < |c| && c[p] == BACKSLASH && IsShort(c[p + 1])
    ensures DecodeFrom(c, p, end) == Prepend([Means(c[p + 1]) as char], DecodeFrom(c, p + 2, end))
  {
  }

  /** A backslash before anything else but u. */
  lemma OthersRefused(c: string, p: nat, end: nat)
    requires p < end < |c| && c[p] == BACKSLASH && !IsShort(c[p + 1]) && c[p + 1] != 'u'
    ensures DecodeFrom(c, p, end) == None
  {
  }

  lemma DigitValue(c: char, d: nat)
    requires d < 16 && IsDigitOf(c, d)
    ensures HexValue(c) == Some(d)
  {
    if d < 8 { if d < 4 {} else {} } else {}
  }

  lemma DigitsOf(n: nat)
    requires n < 0x10000
    ensures n / 0x1000 < 16 && n == 0x1000 * (n / 0x1000) + 0x100 * (n / 0x100 % 16) + 0x10 * (n / 0x10 % 16) + n % 16
  {
    var x, y := n / 0x10, n / 0x100;
    assert x / 0x10 == y && y / 0x10 == n / 0x1000;
    assert n == 0x10 * x + n % 16 && x == 0x10 * y + x % 16 && y == 0x10 * (n / 0x1000) + y % 16;
  }

  lemma DigitsAre(a: nat, b: nat, c: nat, d: nat, n: nat)
    requires a < 16 && b < 16 && c < 16 && d < 16 && n == 0x1000 * a + 0x100 * b + 0x10 * c + d
    ensures n < 0x10000 && n / 0x1000 == a && n / 0x100 % 16 == b && n / 0x10 % 16 == c && n % 16 == d
  {
    assert n / 0x10 == 0x100 * a + 0x10 * b + c;
    assert n / 0x100 == 0x10 * a + b;
  }

  lemma SpelledUnit(s: string, n: nat)
    requires Spells(s, n)
    ensures AllHex(s) && HexNumber(s) == n
  {
    hide HexNumber, HexValue, IsDigitOf;
    var a, b, c, d := n / 0x1000, n / 0x100 % 16, n / 0x10 % 16, n % 16;
    DigitValue(s[0], a);
    DigitValue(s[1], b);
    DigitValue(s[2], c);
    DigitValue(s[3], d);
    DigitsOf(n);
    hide Spells;
    assert AllHex(s);
    Hex4Bound(s);
  }

  lemma UnitLiteral(t: Token)
    requires IsToken(t) && (t.Unit? || t.Pair?)
    ensures IsScalar(t.cp) && IsLiteral(TokenText(t), t.cp) && |TokenText(t)| == if t.Unit? then 6 else 12
  {
    hide HexNumber, HexValue, AllHex, Spells;
    if t.Unit? {
      UnitWritten(t.digits, t.cp);
    } else {
      UnitWritten(t.high, 0xD800 + (t.cp - 0x10000) / 0x400);
      UnitWritten(t.low, 0xDC00 + (t.cp - 0x10000) % 0x400);
      var a, b := [BACKSLASH, 'u'] + t.high, [BACKSLASH, 'u'] + t.low;
      assert (a + b)[..6] == a && (a + b)[6..] == b;
    }
  }

  lemma UnitWritten(digits: string, n: nat)
    requires Spells(digits, n)
    ensures |digits| == 4 && n < 0x10000 && IsUnit([BACKSLASH, 'u'] + digits, n)
  {
    SpelledUnit(digits, n);
    assert ([BACKSLASH, 'u'] + digits)[2..] == digits;
  }

  /** One token is decoded to its bytes. */
  lemma TokenDecodes(c: string, p: nat, end: nat, t: Token)
    requires IsToken(t) && p + |TokenText(t)| <= end < |c| && c[p..p + |TokenText(t)|] == TokenText(t)
    ensures DecodeFrom(c, p, end) == Prepend(TokenBytes(t), DecodeFrom(c, p + |TokenText(t)|, end))
  {
    var s := TokenText(t);
    assert c[p] == s[0] by { assert c[p..p + |s|][0] == c[p]; }
    if |s| > 1 { assert c[p + 1] == s[1] by { assert c[p..p + |s|][1] == c[p + 1]; } }
    if t.Unit? || t.Pair? {
      UnitLiteral(t);
      var rest := c[p + |s|..end];
      assert c[p..end] == s + rest;
      LiteralBecomesUtf8(t.cp, s, rest);
      hide Convert, IsLiteral, IsToken, TokenText;
    }
  }

  // ---------------------------------------------------------------- whole literals

  lemma TokensParts(c: string, p: nat, end: nat, ts: seq<Token>)
    requires p <= end <= |c| && c[p..end] == TokensText(ts) && ts != []
    ensures var n := |TokenText(ts[0])|;
            0 < n && p + n <= end && c[p..p + n] == TokenText(ts[0]) && c[p + n..end] == TokensText(ts[1..])
  {
    CutInTwo(c, p, end, TokenText(ts[0]), TokensText(ts[1..]));
  }

  lemma NoTokens(c: string, p: nat, end: nat)
    requires p <= end <= |c| && c[p..end] == TokensText([])
    ensures p == end
  {
  }

  lemma TokensTail(ts: seq<Token>)
    requires AreTokens(ts) && ts != []
    ensures IsToken(ts[0]) && AreTokens(ts[1..])
  {
  }

  /** Tokens up to p, and what follows. */
  lemma {:induction false} TokensDecode(c: string, start: nat, p: nat, end: nat, ts: seq<Token>)
    requires AreTokens(ts) && start <= p <= end < |c| && c[start..p] == TokensText(ts)
    ensures DecodeFrom(c, start, end) == Prepend(TokensBytes(ts), DecodeFrom(c, p, end))
    decreases |ts|
  {
    hide TokenText, IsToken, TokenBytes, DecodeFrom, AreTokens;
    if ts == [] {
      NoTokens(c, start, p);
      if DecodeFrom(c, p, end).Some? { assert [] + DecodeFrom(c, p, end).value == DecodeFrom(c, p, end).value; }
    } else {
      TokensTail(ts);
      TokensParts(c, start, p, ts);
      var q := start + |TokenText(ts[0])|;
      TokenDecodes(c, start, end, ts[0]);
      TokensDecode(c, q, p, end, ts[1..]);
      if DecodeFrom(c, p, end).Some? {
        var a, b, r := TokenBytes(ts[0]), TokensBytes(ts[1..]), DecodeFrom(c, p, end).value;
        assert a + (b + r) == (a + b) + r;
      }
    }
  }

  /** The scan for the closing quote passes over a token. */
  lemma SkipsToken(c: string, p: nat, t: Token)
    requires IsToken(t) && p + |TokenText(t)| <= |c| && c[p..p + |TokenText(t)|] == TokenText(t)
    ensures StringEnd(c, p) == StringEnd(c, p + |TokenText(t)|)
  {
    hide StringEnd, Spells;
    if t.Unit? { SpelledLength(t.digits, t.cp); }
    if t.Pair? {
      SpelledLength(t.high, 0xD800 + (t.cp - 0x10000) / 0x400);
      SpelledLength(t.low, 0xDC00 + (t.cp - 0x10000) % 0x400);
    }
    match t
    case Bare(x) => SkipsBare(c, p, x);
    case Short(x) => SkipsShort(c, p, x);
    case Unit(cp, digits) => SkipsUnit(c, p, digits, cp);
    case Pair(cp, high, low) => SkipsPair(c, p, high, 0xD800 + (cp - 0x10000) / 0x400, low, 0xDC00 + (cp - 0x10000) % 0x400);
  }

  lemma SkipsBare(c: string, p: nat, x: char)
    requires p + 1 <= |c| && c[p..p + 1] == [x] && x != QUOTE && x != BACKSLASH
    ensures StringEnd(c, p) == StringEnd(c, p + 1)
  {
    assert c[p..p + 1][0] == c[p];
  }

  lemma SkipsShort(c: string, p: nat, x: char)
    requires p + 2 <= |c| && c[p..p + 2] == [BACKSLASH, x]
    ensures StringEnd(c, p) == StringEnd(c, p + 2)
  {
    assert c[p..p + 2][0] == c[p];
  }

  lemma SkipsPair(c: string, p: nat, high: string, m: nat, low: string, n: nat)
    requires Spells(high, m) && Spells(low, n) && p + 12 <= |c|
    requires c[p..p + 12] == ([BACKSLASH, 'u'] + high) + ([BACKSLASH, 'u'] + low)
    ensures |high| == |low| == 4 && StringEnd(c, p) == StringEnd(c, p + 12)
  {
    hide Spells, StringEnd;
    SpelledLength(high, m);
    SpelledLength(low, n);
    CutInTwo(c, p, p + 12, [BACKSLASH, 'u'] + high, [BACKSLASH, 'u'] + low);
    SkipsUnit(c, p, high, m);
    SkipsUnit(c, p + 6, low, n);
  }

  lemma SpelledLength(s: string, n: nat)
    requires Spells(s, n)
    ensures |s| == 4
  {
  }

  lemma DigitsPlain(s: string, n: nat)
    requires Spells(s, n)
    ensures forall i :: 0 <= i < |s| ==> s[i] != QUOTE && s[i] != BACKSLASH
  {
    SpelledUnit(s, n);
    hide HexNumber, Spells;
  }

  lemma SkipsUnit(c: string, p: nat, digits: string, n: nat)
    requires p + 6 <= |c| && Spells(digits, n) && c[p..p + 6] == [BACKSLASH, 'u'] + digits
    ensures StringEnd(c, p) == StringEnd(c, p + 6)
  {
    DigitsPlain(digits, n);
    SpelledLength(digits, n);
    hide Spells;
    var s := [BACKSLASH, 'u'] + digits;
    forall i | 0 <= i < 6
      ensures c[p + i] == s[i]
    {
      assert c[p..p + 6][i] == c[p + i];
    }
    assert c[p + 0] == s[0] && c[p + 2] == s[2] && c[p + 3] == s[3] && c[p + 4] == s[4] && c[p + 5] == s[5];
    assert s[2] == digits[0] && s[3] == digits[1] && s[4] == digits[2] && s[5] == digits[3];
    assert StringEnd(c, p) == StringEnd(c, p + 2);
    assert StringEnd(c, p + 2) == StringEnd(c, p + 3);
    assert StringEnd(c, p + 3) == StringEnd(c, p + 4);
    assert StringEnd(c, p + 4) == StringEnd(c, p + 5);
  }

  lemma {:induction false} SkipsTokens(c: string, start: nat, p: nat, ts: seq<Token>)
    requires AreTokens(ts) && start <= p <= |c| && c[start..p] == TokensText(ts)
    ensures StringEnd(c, start) == StringEnd(c, p)
    decreases |ts|
  {
    hide TokenText, IsToken, StringEnd, AreTokens;
    if ts == [] {
      NoTokens(c, start, p);
    } else {
      TokensTail(ts);
      TokensParts(c, start, p, ts);
      SkipsToken(c, start, ts[0]);
      SkipsTokens(c, start + |TokenText(ts[0])|, p, ts[1..]);
    }
  }

  /** Every literal of the grammar, whatever is before and behind it, is parsed to the string it stands for. */
  lemma LiteralParsed(c: string, o: nat, ts: seq<Token>)
    requires AreTokens(ts) && o + |LiteralText(ts)| <= |c| && c[o..o + |LiteralText(ts)|] == LiteralText(ts)
    ensures ParseStringAt(c, o) == Some(Parsed(TokensBytes(ts), o + |LiteralText(ts)|))
  {
    hide TokensText, TokensBytes, AreTokens, ParseStringAt;
    var t := TokensText(ts);
    var end := o + 1 + |t|;
    LiteralParts(c, o, end, t);
    TokensBetween(c, o, end, ts);
  }

  lemma TokensBetween(c: string, o: nat, end: nat, ts: seq<Token>)
    requires o < end < |c| && c[o] == QUOTE && c[end] == QUOTE && AreTokens(ts) && c[o + 1..end] == TokensText(ts)
    ensures ParseStringAt(c, o) == Some(Parsed(TokensBytes(ts), end + 1))
  {
    hide TokensText, TokensBytes, DecodeFrom, AreTokens, StringEnd, ParseStringAt;
    SkipsTokens(c, o + 1, end, ts);
    TokensDecode(c, o + 1, end, end, ts);
    AtQuote(c, end);
    assert TokensBytes(ts) + [] == TokensBytes(ts);
    FromQuoteToQuote(c, o, end, TokensBytes(ts));
  }

  lemma FromQuoteToQuote(c: string, o: nat, end: nat, s: string)
    requires o < end < |c| && c[o] == QUOTE && StringEnd(c, o + 1) == Some(end) && DecodeFrom(c, o + 1, end) == Some(s)
    ensures ParseStringAt(c, o) == Some(Parsed(s, end + 1))
  {
    hide StringEnd, DecodeFrom;
  }

  lemma LiteralParts(c: string, o: nat, end: nat, t: string)
    requires end == o + 1 + |t| && end < |c| && c[o..end + 1] == [QUOTE] + (t + [QUOTE])
    ensures c[o] == QUOTE && c[end] == QUOTE && c[o + 1..end] == t
  {
    CutInTwo(c, o, end + 1, [QUOTE], t + [QUOTE]);
    CutInTwo(c, o + 1, end + 1, t, [QUOTE]);
    assert c[o..o + 1][0] == c[o] && c[end..end + 1][0] == c[end];
  }

  lemma AtQuote(c: string, end: nat)
    requires end < |c| && c[end] == QUOTE
    ensures DecodeFrom(c, end, end) == Some([]) && StringEnd(c, end) == Some(end)
  {
  }

  /** Behind any tokens, a backslash before a character that is none of the eight, nor u, has the literal refused. */
  lemma BadEscapeRefused(c: string, o: nat, p: nat, ts: seq<Token>)
    requires o < p < |c| && c[o] == QUOTE && AreTokens(ts) && c[o + 1..p] == TokensText(ts)
    requires c[p] == BACKSLASH && (p + 1 < |c| ==> !IsShort(c[p + 1]) && c[p + 1] != 'u')
    ensures ParseStringAt(c, o) == None
  {
    SkipsTokens(c, o + 1, p, ts);
    if StringEnd(c, p).Some? {
      var end := StringEnd(c, p).value;
      TokensDecode(c, o + 1, p, end, ts);
      OthersRefused(c, p, end);
    }
    hide DecodeFrom, TokensBytes, TokensText;
  }

  // ---------------------------------------------------------------- what is taken besides

  /** Tokens as the program takes them: any byte but a backslash stands for itself, and four characters that are no digits for
      the code unit 0. */
  predicate IsTaken(t: Token) {
    match t
    case Bare(x) => x != '\\'
    case Unit(cp, digits) => (IsScalar(cp) && Spells(digits, cp)) || (cp == 0 && |digits| == 4 && !AllHex(digits))
    case _ => IsToken(t)
  }

  function TakenBytes(t: Token): string
    requires IsTaken(t)
  {
    match t
    case Bare(x) => [x]
    case Short(x) => [Means(x) as char]
    case Unit(cp, _) => Utf8(cp)
    case Pair(cp, _, _) => Utf8(cp)
  }

  ghost predicate AreTaken(ts: seq<Token>) { forall i :: 0 <= i < |ts| ==> IsTaken(ts[i]) }

  ghost function AllTakenBytes(ts: seq<Token>): string
    requires AreTaken(ts)
  {
    if ts == [] then [] else TakenBytes(ts[0]) + AllTakenBytes(ts[1..])
  }

  lemma DigitSpelled(c: char)
    requires HexValue(c).Some?
    ensures var d := HexValue(c).value; 0 <= d < 16 && IsDigitOf(c, d)
  {
  }

  lemma SpelledBack(s: string)
    requires |s| == 4 && AllHex(s)
    ensures Spells(s, HexNumber(s))
  {
    Hex4Bound(s);
    DigitSpelled(s[0]);
    DigitSpelled(s[1]);
    DigitSpelled(s[2]);
    DigitSpelled(s[3]);
    hide HexNumber, HexValue, IsDigitOf;
    assert forall i :: 0 <= i < 4 ==> HexValue(s[i]).Some?;
    DigitsAre(HexValue(s[0]).value, HexValue(s[1]).value, HexValue(s[2]).value, HexValue(s[3]).value, HexNumber(s));
  }

  /** A converted unit or pair, as a token. */
  lemma UnitTaken(input: string) returns (t: Token)
    requires |input| >= 2 && input[0] == BACKSLASH && input[1] == 'u' && Convert(input).Some?
    ensures IsTaken(t) && Convert(input) == Some(Converted(TakenBytes(t), |TokenText(t)|))
    ensures |TokenText(t)| <= |input| && input[..|TokenText(t)|] == TokenText(t)
  {
    hide HexNumber, HexValue, Spells, Utf8, AllHex;
    var first := ParseHex4(input[2..6]);
    if IsHigh(first) { t := PairTaken(input); } else { t := OneTaken(input); }
  }

  lemma OneTaken(input: string) returns (t: Token)
    requires |input| >= 6 && input[0] == BACKSLASH && input[1] == 'u' && Convert(input).Some? && !IsHigh(ParseHex4(input[2..6]))
    ensures IsTaken(t) && Convert(input) == Some(Converted(TakenBytes(t), |TokenText(t)|))
    ensures |TokenText(t)| <= |input| && input[..|TokenText(t)|] == TokenText(t)
  {
    hide HexNumber, HexValue, Spells, Utf8, AllHex;
    var digits := input[2..6];
    if AllHex(digits) { SpelledBack(digits); }
    t := Unit(ParseHex4(digits), digits);
    assert input[..6] == [BACKSLASH, 'u'] + digits;
  }

  lemma PairTaken(input: string) returns (t: Token)
    requires |input| >= 6 && input[0] == BACKSLASH && input[1] == 'u' && Convert(input).Some? && IsHigh(ParseHex4(input[2..6]))
    ensures IsTaken(t) && Convert(input) == Some(Converted(TakenBytes(t), |TokenText(t)|))
    ensures |TokenText(t)| <= |input| && input[..|TokenText(t)|] == TokenText(t)
  {
    hide HexNumber, HexValue, Spells, Utf8, AllHex;
    var high, low := input[2..6], input[8..12];
    SpelledBack(high);
    SpelledBack(low);
    var first, second := ParseHex4(high), ParseHex4(low);
    t := Pair(FromPair(first, second), high, low);
    PairParts(first, second);
    assert input[..12] == ([BACKSLASH, 'u'] + high) + ([BACKSLASH, 'u'] + low);
  }

  lemma PairParts(high: nat, low: nat)
    requires IsHigh(high) && IsLow(low)
    ensures var cp := FromPair(high, low);
            0x10000 <= cp <= 0x10FFFF && 0xD800 + (cp - 0x10000) / 0x400 == high && 0xDC00 + (cp - 0x10000) % 0x400 == low
  {
  }

  /** What is decoded is the meaning of such tokens.  They end at the closing quote, or take it for the second character of an
      escape. */
  lemma {:induction false} DecodedTokens(c: string, p: nat, end: nat) returns (ts: seq<Token>, e: nat)
    requires p <= end + 1 && end < |c| && DecodeFrom(c, p, end).Some?
    ensures AreTaken(ts) && p <= e && (e == end || e == end + 1) && (p <= end || e == p)
    ensures c[p..e] == TokensText(ts) && DecodeFrom(c, p, end).value == AllTakenBytes(ts)
    decreases end + 1 - p
  {
    hide DecodeFrom, TokenText, IsTaken, TakenBytes, AreTaken, AllTakenBytes, TokensText;
    if p >= end {
      ts, e := [], p;
      NothingDecoded(c, p, end);
    } else {
      var t := FirstTaken(c, p, end);
      var n := |TokenText(t)|;
      var rest;
      rest, e := DecodedTokens(c, p + n, end);
      ts := [t] + rest;
      TakenCons(t, rest);
      assert c[p..e] == c[p..p + n] + c[p + n..e];
    }
  }

  lemma NothingDecoded(c: string, p: nat, end: nat)
    requires p >= end && end < |c|
    ensures DecodeFrom(c, p, end) == Some([]) && AreTaken([]) && TokensText([]) == "" && AllTakenBytes([]) == ""
  {
  }

  lemma TakenCons(t: Token, rest: seq<Token>)
    requires IsTaken(t) && AreTaken(rest)
    ensures var ts := [t] + rest;
            AreTaken(ts) && TokensText(ts) == TokenText(t) + TokensText(rest) && AllTakenBytes(ts) == TakenBytes(t) + AllTakenBytes(rest)
  {
    hide IsTaken, TokenText, TakenBytes;
    assert ([t] + rest)[1..] == rest;
  }

  lemma FirstTaken(c: string, p: nat, end: nat) returns (t: Token)
    requires p < end < |c| && DecodeFrom(c, p, end).Some?
    ensures IsTaken(t) && p + |TokenText(t)| <= end + 1 && c[p..p + |TokenText(t)|] == TokenText(t)
    ensures DecodeFrom(c, p, end) == Prepend(TakenBytes(t), DecodeFrom(c, p + |TokenText(t)|, end))
  {
    if c[p] != BACKSLASH {
      t := Bare(c[p]);
      assert c[p..p + 1] == [c[p]];
    } else if c[p + 1] == 'u' {
      hide TokenText, IsTaken, TakenBytes, DecodeFrom, Convert;
      UnitDecoded(c, p, end);
      t := UnitTaken(c[p..end]);
      var n := |TokenText(t)|;
      assert c[p..p + n] == c[p..end][..n];
    } else {
      t := Short(c[p + 1]);
      if !IsShort(c[p + 1]) { OthersRefused(c, p, end); }
      assert c[p..p + 2] == [c[p], c[p + 1]];
    }
  }

  lemma UnitDecoded(c: string, p: nat, end: nat)
    requires p < end < |c| && c[p] == BACKSLASH && c[p + 1] == 'u' && DecodeFrom(c, p, end).Some?
    ensures var input := c[p..end];
            && Convert(input).Some? && |input| >= 2 && input[0] == BACKSLASH && input[1] == 'u'
            && DecodeFrom(c, p, end) == Prepend(Convert(input).value.bytes, DecodeFrom(c, p + Convert(input).value.length, end))
  {
    assert Convert(c[p..end]).Some?;
    hide Convert;
  }

  // ---------------------------------------------------------------- printed strings

  /** What a character is printed as is a token for it. */
  function PrintedToken(x: char): (t: Token)
  {
    if x as int > 31 && x != QUOTE && x != BACKSLASH then Bare(x)
    else if x == QUOTE || x == BACKSLASH then Short(x)
    else if x == '\U{08}' then Short('b')
    else if x == '\U{0C}' then Short('f')
    else if x == '\n' then Short('n')
    else if x == '\r' then Short('r')
    else if x == '\t' then Short('t')
    else Unit(x as int, ['0', '0', HexDigit(x as int / 16), HexDigit(x as int % 16)])
  }

  lemma PrintedIsToken(x: char)
    ensures IsToken(PrintedToken(x)) && TokenText(PrintedToken(x)) == EscapeChar(x) && TokenBytes(PrintedToken(x)) == [x]
  {
    hide Utf8, Spells, HexDigit;
    var t := PrintedToken(x);
    if t.Unit? {
      ControlSpelled(x as int);
      ControlUtf8(x as int);
    }
  }

  lemma ControlSpelled(n: nat)
    requires n < 32
    ensures Spells(['0', '0', HexDigit(n / 16), HexDigit(n % 16)], n)
  {
    hide IsDigitOf, HexDigit;
    HexDigitIs(n / 16);
    HexDigitIs(n % 16);
    ZeroIs();
    assert n / 0x1000 == 0 && n / 0x100 % 16 == 0 && n / 0x10 % 16 == n / 16;
  }

  /** Nothing is escaped without need: control characters, quotes and backslashes are, shortly where that is possible. */
  lemma EscapedIfNeeded(x: char)
    ensures EscapeChar(x) == [x] <==> x as int >= 0x20 && x != '\"' && x != '\\'
    ensures |EscapeChar(x)| == 2 <==> x as int in {0x22, 0x5C, 0x08, 0x0C, 0x0A, 0x0D, 0x09}
    ensures |EscapeChar(x)| in {1, 2, 6}
  {
  }

  lemma HexDigitIs(n: nat)
    requires n < 16
    ensures IsDigitOf(HexDigit(n), n)
  {
  }

  lemma ZeroIs()
    ensures IsDigitOf('0', 0)
  {
  }

  function PrintedTokens(s: string): seq<Token> {
    if s == [] then [] else [PrintedToken(s[0])] + PrintedTokens(s[1..])
  }

  lemma {:induction false} PrintedAreTokens(s: string)
    ensures AreTokens(PrintedTokens(s)) && TokensText(PrintedTokens(s)) == Escaped(s) && TokensBytes(PrintedTokens(s)) == s
  {
    hide PrintedToken, IsToken, TokenText, TokenBytes, EscapeChar;
    if s != [] {
      var ts := PrintedTokens(s);
      PrintedAreTokens(s[1..]);
      PrintedIsToken(s[0]);
      assert ts[1..] == PrintedTokens(s[1..]);
      assert s == [s[0]] + s[1..];
    }
  }

  lemma PrintedLiteral(s: string)
    ensures AreTokens(PrintedTokens(s)) && LiteralText(PrintedTokens(s)) == PrintString(s) && TokensBytes(PrintedTokens(s)) == s
  {
    PrintedAreTokens(s);
    assert [QUOTE] + Escaped(s) + [QUOTE] == [QUOTE] + (Escaped(s) + [QUOTE]);
  }

  /** A printed string, whatever is before and behind it, is parsed to the string, up to its closing quote. */
  lemma StringRoundTrip(before: string, s: string, after: string)
    ensures var c := before + PrintString(s) + after;
            ParseStringAt(c, |before|) == Some(Parsed(s, |before| + |PrintString(s)|))
  {
    var c, o, t := before + PrintString(s) + after, |before|, PrintString(s);
    PrintedLiteral(s);
    hide PrintString;
    assert c[o..o + |t|] == t;
    LiteralParsed(c, o, PrintedTokens(s));
  }
}
