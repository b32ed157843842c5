/** String literals of 3rd/cjson/cJSON.c: parse_string sizes its memory in one scan and decodes in another;
    print_string_ptr counts in one pass and writes in another. */
module JsonStrings {
  import opened Wrappers
  import opened CStrings
  import opened Unicode

  const QUOTE := '\"'
  const BACKSLASH := '\\'

  // ---------------------------------------------------------------- what parse_string computes

  /** The scan for the closing quote, past escaped characters; the position of the quote. */
  function StringEnd(c: string, e: nat): (r: Option<nat>)
    ensures r.Some? ==> e <= r.value < |c| && c[r.value] == QUOTE
    decreases |c| - e
  {
    if e >= |c| then None
    else if c[e] == QUOTE then Some(e)
    else if c[e] == BACKSLASH then (if e + 1 >= |c| then None else StringEnd(c, e + 2))
    else StringEnd(c, e + 1)
  }

  /** A one-character escape. */
  function Unescaped(x: char): Option<char> {
    match x
    case 'b' => Some('\U{08}')
    case 'f' => Some('\U{0C}')
    case 'n' => Some('\n')
    case 'r' => Some('\r')
    case 't' => Some('\t')
    case '\"' => Some(x)
    case '\\' => Some(x)
    case '/' => Some(x)
    case _ => None
  }

  /** The decoding scan, from p up to end; c[end] may be read. */
  function DecodeFrom(c: string, p: nat, end: nat): Option<string>
    requires end < |c|
    decreases end - p
  {
    if p >= end then Some([])
    else if c[p] != BACKSLASH then Prepend([c[p]], DecodeFrom(c, p + 1, end))
    else if c[p + 1] == 'u' then
      var r := Convert(c[p..end]);
      if r.None? then None else Prepend(r.value.bytes, DecodeFrom(c, p + r.value.length, end))
    else if Unescaped(c[p + 1]).Some? then Prepend([Unescaped(c[p + 1]).value], DecodeFrom(c, p + 2, end))
    else None
  }

  function Prepend(s: string, r: Option<string>): Option<string> {
    if r.None? then None else Some(s + r.value)
  }

  datatype Parsed<T> = Parsed(value: T, offset: nat)

  /** parse_string: the value of the literal at o, and where it ends. */
  function ParseStringAt(c: string, o: nat): (r: Option<Parsed<string>>)
    ensures r.Some? ==> o + 2 <= r.value.offset <= |c|
  {
    if o >= |c| || c[o] != QUOTE then None
    else
      var end := StringEnd(c, o + 1);
      if end.None? then None
      else
        var s := DecodeFrom(c, o + 1, end.value);
        if s.None? then None else Some(Parsed(s.value, end.value + 1))
  }

  // ---------------------------------------------------------------- the memory is large enough

  /** How many tokens of the sizing scan begin in [q, p), the first one at q. */
  function Tokens(c: string, q: nat, p: nat): nat
    requires p <= |c|
    decreases p - q
  {
    if q >= p then 0 else 1 + Tokens(c, q + (if c[q] == BACKSLASH then 2 else 1), p)
  }

  /** p is inside a token of that scan. */
  predicate Inside(c: string, q: nat, p: nat)
    requires p <= |c|
    decreases p - q
  {
    if q >= p then q > p else Inside(c, q + (if c[q] == BACKSLASH then 2 else 1), p)
  }

  /** The room for what has been decoded before p. */
  function Room(c: string, e: nat, p: nat): int
    requires p <= |c|
  {
    Tokens(c, e, p) - (if Inside(c, e, p) then 1 else 0)
  }

  lemma {:induction false} TokenStep(c: string, q: nat, p: nat)
    requires q <= p < |c|
    ensures if Inside(c, q, p) then Tokens(c, q, p + 1) == Tokens(c, q, p) && !Inside(c, q, p + 1)
            else Tokens(c, q, p + 1) == Tokens(c, q, p) + 1 && (Inside(c, q, p + 1) <==> c[p] == BACKSLASH)
    decreases p - q
  {
    var next := q + if c[q] == BACKSLASH then 2 else 1;
    TokenFirst(c, q, p);
    TokenFirst(c, q, p + 1);
    if next <= p {
      TokenStep(c, next, p);
    } else {
      TokenFirst(c, next, p);
      TokenFirst(c, next, p + 1);
      hide Tokens, Inside;
    }
  }

  lemma TokenFirst(c: string, q: nat, p: nat)
    requires p <= |c|
    ensures q >= p ==> Tokens(c, q, p) == 0 && (Inside(c, q, p) <==> q > p)
    ensures q < p ==>
              var next := q + if c[q] == BACKSLASH then 2 else 1;
              Tokens(c, q, p) == 1 + Tokens(c, next, p) && (Inside(c, q, p) <==> Inside(c, next, p))
  {
  }

  /** Each character adds room, but for a backslash that begins a token. */
  lemma RoomStep(c: string, e: nat, p: nat)
    requires e <= p < |c|
    ensures Room(c, e, p) <= Room(c, e, p + 1) <= Room(c, e, p) + 1
    ensures c[p] != BACKSLASH || Inside(c, e, p) ==> Room(c, e, p + 1) == Room(c, e, p) + 1
    ensures Inside(c, e, p + 1) <==> !Inside(c, e, p) && c[p] == BACKSLASH
  {
    TokenStep(c, e, p);
  }

  lemma {:induction false} RoomGrows(c: string, e: nat, p: nat, n: nat)
    requires e <= p && p + n <= |c|
    ensures Room(c, e, p) + n / 2 <= Room(c, e, p + n)
    decreases n
  {
    if n == 1 {
      RoomStep(c, e, p);
    } else if n >= 2 {
      RoomStep(c, e, p);
      RoomStep(c, e, p + 1);
      RoomGrows(c, e, p + 2, n - 2);
    }
  }

  /** An escape with u adds room for at least half its characters. */
  lemma RoomForUnit(c: string, e: nat, p: nat, n: nat)
    requires e <= p && 2 <= n && p + n <= |c| && c[p + 1] != BACKSLASH
    ensures Room(c, e, p) + 1 + (n - 2) / 2 <= Room(c, e, p + n)
  {
    RoomStep(c, e, p);
    RoomStep(c, e, p + 1);
    RoomGrows(c, e, p + 2, n - 2);
  }

  /** What is decoded before any position fits in the room of that position; at the closing quote, and even
      if the last escape takes the quote for its second character, in the room at the quote. */
  lemma {:induction false} DecodedFits(c: string, e: nat, p: nat, end: nat)
    requires e <= p && end < |c| && (p <= end || p == end + 1) && !Inside(c, e, end)
    requires DecodeFrom(c, p, end).Some?
    ensures p <= end ==> Room(c, e, p) + |DecodeFrom(c, p, end).value| <= Room(c, e, end)
    decreases end - p
  {
    if p < end {
      if c[p] != BACKSLASH {
        RoomStep(c, e, p);
        DecodedFits(c, e, p + 1, end);
      } else if c[p + 1] == 'u' {
        var r := Convert(c[p..end]).value;
        UnitBytes(c[p..end]);
        RoomForUnit(c, e, p, r.length);
        DecodedFits(c, e, p + r.length, end);
      } else {
        RoomStep(c, e, p);
        if p + 1 == end {
          assert DecodeFrom(c, p + 2, end) == Some([]);
        } else {
          RoomStep(c, e, p + 1);
          DecodedFits(c, e, p + 2, end);
        }
      }
    }
  }

  lemma UnitBytes(input: string)
    requires Convert(input).Some?
    ensures var r := Convert(input).value; |r.bytes| <= 1 + (r.length - 2) / 2
  {
  }

  lemma {:induction false} EndIsNotInside(c: string, e: nat)
    requires StringEnd(c, e).Some?
    ensures !Inside(c, e, StringEnd(c, e).value)
    decreases |c| - e
  {
    if c[e] != QUOTE {
      var next := e + if c[e] == BACKSLASH then 2 else 1;
      EndIsNotInside(c, next);
    }
  }

  /** For every input, however malformed its escapes, the decoded bytes fit in what the sizing scan asked for. */
  lemma DecodedFitsMemory(c: string, e: nat)
    requires StringEnd(c, e).Some? && DecodeFrom(c, e, StringEnd(c, e).value).Some?
    ensures |DecodeFrom(c, e, StringEnd(c, e).value).value| <= Tokens(c, e, StringEnd(c, e).value)
  {
    var end := StringEnd(c, e).value;
    EndIsNotInside(c, e);
    DecodedFits(c, e, e, end);
  }

  // ---------------------------------------------------------------- what print_string_ptr computes

  function HexDigit(n: nat): char
    requires n < 16
  {
    if n < 10 then ('0' as int + n) as char else ('a' as int + (n - 10)) as char
  }

  /** What a character is printed as. */
  function EscapeChar(x: char): string {
    if x as int > 31 && x != QUOTE && x != BACKSLASH then [x]
    else if x == QUOTE || x == BACKSLASH then [BACKSLASH, x]
    else if x == '\U{08}' then [BACKSLASH, 'b']
    else if x == '\U{0C}' then [BACKSLASH, 'f']
    else if x == '\n' then [BACKSLASH, 'n']
    else if x == '\r' then [BACKSLASH, 'r']
    else if x == '\t' then [BACKSLASH, 't']
    else [BACKSLASH, 'u', '0', '0', HexDigit(x as int / 16), HexDigit(x as int % 16)]
  }

  function Escaped(s: string): string {
    if s == [] then [] else EscapeChar(s[0]) + Escaped(s[1..])
  }

  /** print_string_ptr */
  function PrintString(s: string): string { [QUOTE] + Escaped(s) + [QUOTE] }

  /** The counting pass: characters that an escape adds. */
  function ExtraChars(x: char): nat {
    if x == QUOTE || x == BACKSLASH || x == '\U{08}' || x == '\U{0C}' || x == '\n' || x == '\r' || x == '\t' then 1 else if x as int < 32 then 5 else 0
  }

  function CountExtra(s: string): nat {
    if s == [] then 0 else ExtraChars(s[0]) + CountExtra(s[1..])
  }

  /** The counting pass finds the length that the writing pass needs; without an escape the text is copied. */
  lemma {:induction false} CountIsExact(s: string)
    ensures |Escaped(s)| == |s| + CountExtra(s)
    ensures CountExtra(s) == 0 ==> Escaped(s) == s
  {
    if s != [] {
      CountIsExact(s[1..]);
      assert s == [s[0]] + s[1..];
    }
  }

  lemma ControlUtf8(n: nat)
    requires n < 0x80
    ensures Utf8(n) == [n as char]
  {
    FirstByte(n);
    TailEnd(n, []);
  }

  lemma CutInTwo(c: string, p: nat, end: nat, a: string, b: string)
    requires p <= end <= |c| && c[p..end] == a + b
    ensures p + |a| <= end && c[p..p + |a|] == a && c[p + |a|..end] == b
  {
    var t := c[p..end];
    assert |t| == |a| + |b|;
    forall i | 0 <= i < |a|
      ensures c[p + i] == a[i]
    {
      assert t[i] == (a + b)[i];
    }
    forall i | 0 <= i < |b|
      ensures c[p + |a| + i] == b[i]
    {
      assert t[|a| + i] == (a + b)[|a| + i];
    }
  }
}
