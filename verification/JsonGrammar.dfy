/** The grammar of RFC 8259 as syntax trees, and that 3rd/cjson/cJSON.c parses every text of it to what it means, unless it is
    nested too deeply.  JsonAccepted says what is parsed besides. */
module JsonGrammar {
  import opened Wrappers
  import opened Json
  import opened JsonStrings
  import opened JsonLiterals
  import opened JsonText

  // ---------------------------------------------------------------- texts

  /** A text with all its white space and spelling: before and after surround an element or a member, between and behind
      surround the colon, space is what an empty container holds. */
  datatype Syntax =
    | Scalar(text: string, value: Json)
    | List(space: string, elements: seq<Element>)
    | Record(space: string, entries: seq<Entry>)

  datatype Element = Element(before: string, value: Syntax, after: string)

  datatype Entry = Entry(before: string, name: string, key: string, between: string, behind: string, value: Syntax, after: string)

  function Text(s: Syntax): string
    decreases s
  {
    match s
    case Scalar(text, _) => text
    case List(space, es) => "[" + (if es == [] then space + "]" else ElementsText(es))
    case Record(space, es) => "{" + (if es == [] then space + "}" else EntriesText(es))
  }

  function ElementsText(es: seq<Element>): string
    decreases es
  {
    if es == [] then "]" else es[0].before + (Text(es[0].value) + (es[0].after + ElementsTail(es)))
  }

  function ElementsTail(es: seq<Element>): string
    decreases es, 0
  {
    if |es| <= 1 then "]" else "," + ElementsText(es[1..])
  }

  function EntriesText(es: seq<Entry>): string
    decreases es
  {
    if es == [] then "}" else es[0].before + (es[0].name + (es[0].between + (":" + EntryRest(es))))
  }

  /** From behind the first colon on. */
  function EntryRest(es: seq<Entry>): string
    requires es != []
    decreases es, 1
  {
    es[0].behind + (Text(es[0].value) + (es[0].after + EntriesTail(es)))
  }

  function EntriesTail(es: seq<Entry>): string
    decreases es, 0
  {
    if |es| <= 1 then "}" else "," + EntriesText(es[1..])
  }

  /** What a text means. */
  function Meaning(s: Syntax): Json
    decreases s
  {
    match s
    case Scalar(_, v) => v
    case List(_, es) => Array(ItemsOf(es))
    case Record(_, es) => Object(MembersOf(es))
  }

  function ItemsOf(es: seq<Element>): seq<Item>
    decreases es
  {
    if es == [] then [] else [Item("", Meaning(es[0].value))] + ItemsOf(es[1..])
  }

  function MembersOf(es: seq<Entry>): seq<Item>
    decreases es
  {
    if es == [] then [] else [Item(es[0].key, Meaning(es[0].value))] + MembersOf(es[1..])
  }

  /** How deep containers are nested. */
  function Height(s: Syntax): nat
    decreases s
  {
    match s
    case Scalar(_, _) => 0
    case List(_, es) => 1 + ElementsHeight(es)
    case Record(_, es) => 1 + EntriesHeight(es)
  }

  function ElementsHeight(es: seq<Element>): nat
    decreases es
  {
    if es == [] then 0 else Higher(Height(es[0].value), ElementsHeight(es[1..]))
  }

  function EntriesHeight(es: seq<Entry>): nat
    decreases es
  {
    if es == [] then 0 else Higher(Height(es[0].value), EntriesHeight(es[1..]))
  }

  function Higher(a: nat, b: nat): nat { if a > b then a else b }

  // ---------------------------------------------------------------- which texts are legal

  /** Section 2 of RFC 8259; the program takes every control character for white space. */
  predicate Space(w: string, strict: bool) {
    forall i :: 0 <= i < |w| ==> if strict then w[i] in {' ', '\t', '\n', '\r'} else w[i] as int <= 32
  }

  predicate AllDigits(s: string) { s != [] && forall i :: 0 <= i < |s| ==> '0' <= s[i] <= '9' }

  /** Section 6: a number is a sign, an integer without leading zeros, a fraction and an exponent. */
  predicate NumberParts(t: string, minus: string, whole: string, fraction: string, exponent: string) {
    && t == minus + (whole + (fraction + exponent))
    && (minus == "" || minus == "-")
    && (whole == "0" || (AllDigits(whole) && whole[0] != '0'))
    && (fraction == "" || (fraction[0] == '.' && AllDigits(fraction[1..])))
    && (exponent == "" || ((exponent[0] == 'e' || exponent[0] == 'E') && Signed(exponent[1..])))
  }

  predicate Signed(s: string) { AllDigits(s) || (s != [] && (s[0] == '+' || s[0] == '-') && AllDigits(s[1..])) }

  ghost predicate IsNumber(t: string) { exists m, w, f, e :: NumberParts(t, m, w, f, e) }

  predicate IsSignOrDigit(x: char) { x == '-' || x in {'0', '1', '2', '3', '4', '5', '6', '7', '8', '9'} }

  predicate InNumbers(x: char) { IsSignOrDigit(x) || x in {'+', 'e', 'E', '.'} }

  /** Such characters are copied out of the text. */
  lemma {:induction false} NumberCharacters(x: char)
    ensures StartsNumber(x) <==> IsSignOrDigit(x)
    ensures IsNumeric(x) <==> InNumbers(x)
  {
  }

  lemma {:induction false} AllNumberCharacters(s: string)
    ensures (forall i :: 0 <= i < |s| ==> IsNumeric(s[i])) <==> (forall i :: 0 <= i < |s| ==> InNumbers(s[i]))
    ensures s != [] ==> (StartsNumber(s[0]) <==> IsSignOrDigit(s[0]))
  {
    forall i | 0 <= i < |s|
      ensures IsNumeric(s[i]) <==> InNumbers(s[i])
    {
      NumberCharacters(s[i]);
    }
    if s != [] { NumberCharacters(s[0]); }
    hide InNumbers, IsSignOrDigit;
  }

  /** A number in the characters of numbers, read to its end, that fits the buffer of parse_number. */
  ghost predicate Readable(num: Numerals, text: string, n: int) {
    && text != [] && |text| <= 63 && IsSignOrDigit(text[0]) && (forall i :: 0 <= i < |text| ==> InNumbers(text[i]))
    && num.read(text) == (n, |text|)
  }

  /** A number that the program takes from the beginning of a longer run. */
  ghost predicate Taken(num: Numerals, run: string, text: string, n: int) {
    && text != [] && |run| <= 63 && text <= run && IsSignOrDigit(text[0]) && (forall i :: 0 <= i < |run| ==> InNumbers(run[i]))
    && num.read(run) == (n, |text|)
  }

  /** A string literal of section 7. */
  ghost predicate IsLiteral(text: string, s: string) {
    exists ts :: AreTokens(ts) && LiteralText(ts) == text && TokensBytes(ts) == s
  }

  /** A literal as the program takes it; the last escape may have swallowed the closing quote. */
  ghost predicate IsTakenLiteral(text: string, s: string) {
    exists ts :: AreTaken(ts) && AllTakenBytes(ts) == s && (text == LiteralText(ts) || text == [QUOTE] + TokensText(ts))
  }

  ghost predicate LegalName(text: string, s: string, strict: bool) { if strict then IsLiteral(text, s) else IsTakenLiteral(text, s) }

  ghost predicate LegalScalar(num: Numerals, text: string, v: Json, strict: bool) {
    match v
    case Null => text == "null"
    case False => text == "false"
    case True => text == "true"
    case Number(n) => if strict then Readable(num, text, n) else exists run :: Taken(num, run, text, n)
    case String(s) => LegalName(text, s, strict)
    case _ => false
  }

  ghost predicate Legal(num: Numerals, s: Syntax, strict: bool)
    decreases s
  {
    match s
    case Scalar(text, v) => LegalScalar(num, text, v, strict)
    case List(space, es) => Space(space, strict) && LegalElements(num, es, strict)
    case Record(space, es) => Space(space, strict) && LegalEntries(num, es, strict)
  }

  ghost predicate LegalElements(num: Numerals, es: seq<Element>, strict: bool)
    decreases es
  {
    es != [] ==>
      && Space(es[0].before, strict) && Legal(num, es[0].value, strict) && Space(es[0].after, strict)
      && LegalElements(num, es[1..], strict)
  }

  ghost predicate LegalEntries(num: Numerals, es: seq<Entry>, strict: bool)
    decreases es
  {
    es != [] ==>
      && Space(es[0].before, strict) && LegalName(es[0].name, es[0].key, strict) && Space(es[0].between, strict)
      && Space(es[0].behind, strict) && Legal(num, es[0].value, strict) && Space(es[0].after, strict)
      && LegalEntries(num, es[1..], strict)
  }

  /** The numbers of the standard are made of such characters. */
  lemma {:induction false} NumbersAreNumeric(t: string)
    requires IsNumber(t)
    ensures t != [] && IsSignOrDigit(t[0]) && forall i :: 0 <= i < |t| ==> InNumbers(t[i])
  {
    NumericCharacters(t);
    AllNumberCharacters(t);
  }

  lemma {:induction false} NumericCharacters(t: string)
    requires IsNumber(t)
    ensures t != [] && StartsNumber(t[0]) && forall i :: 0 <= i < |t| ==> IsNumeric(t[i])
  {
    var m, w, f, e :| NumberParts(t, m, w, f, e);
    FractionNumeric(f);
    ExponentNumeric(e);
    hide IsNumeric;
    assert AllNumeric(m) && AllNumeric(w) by { WholeNumeric(m, w); }
    forall i | 0 <= i < |t|
      ensures IsNumeric(t[i])
    {
      var k := |m| + |w|;
      if i >= k + |f| { assert t[i] == e[i - k - |f|]; } else if i >= k { assert t[i] == f[i - k]; } else if i >= |m| { assert t[i] == w[i - |m|]; }
    }
  }

  predicate AllNumeric(s: string) { forall i :: 0 <= i < |s| ==> IsNumeric(s[i]) }

  lemma {:induction false} WholeNumeric(m: string, w: string)
    requires (m == "" || m == "-") && (w == "0" || AllDigits(w))
    ensures AllNumeric(m) && AllNumeric(w)
  {
  }

  lemma {:induction false} FractionNumeric(f: string)
    requires f == "" || (f[0] == '.' && AllDigits(f[1..]))
    ensures AllNumeric(f)
  {
    forall i | 0 <= i < |f|
      ensures IsNumeric(f[i])
    {
      if i > 0 { assert f[1..][i - 1] == f[i]; }
    }
  }

  lemma {:induction false} ExponentNumeric(e: string)
    requires e == "" || ((e[0] == 'e' || e[0] == 'E') && Signed(e[1..]))
    ensures AllNumeric(e)
  {
    forall i | 0 <= i < |e|
      ensures IsNumeric(e[i])
    {
      if i > 0 { assert e[1..][i - 1] == e[i]; }
      if i > 1 { assert e[1..][1..][i - 2] == e[i]; }
    }
  }

  // ---------------------------------------------------------------- texts of the grammar are parsed

  /** What comes of a value that ends at end. */
  function Outcome(s: Syntax, depth: nat, end: nat): Option<Parsed<Json>> {
    if Height(s) + depth <= NESTING_LIMIT then Some(Parsed(Meaning(s), end)) else None
  }

  lemma {:induction false} StrictSpace(w: string)
    requires Space(w, true)
    ensures IsSpace(w)
  {
  }

  lemma {:induction false} NameStarts(text: string, s: string)
    requires IsLiteral(text, s)
    ensures text != [] && text[0] == QUOTE
  {
  }

  lemma {:induction false} NameParsed(c: string, o: nat, text: string, s: string)
    requires IsLiteral(text, s) && StandsAt(c, o, text)
    ensures ParseStringAt(c, o) == Some(Parsed(s, o + |text|)) && c[o] == QUOTE
  {
    hide ParseStringAt, LiteralText, AreTokens, TokensBytes;
    var ts :| AreTokens(ts) && LiteralText(ts) == text && TokensBytes(ts) == s;
    LiteralParsed(c, o, ts);
    NameStarts(text, s);
    FirstStands(c, o, text);
  }

  lemma {:induction false} ScalarParsed(num: Numerals, c: string, o: nat, text: string, v: Json, depth: nat)
    requires LegalScalar(num, text, v, true) && StandsAt(c, o, text) && !IsNumeric(c[o + |text|])
    ensures ParseValue(num, c, o, depth) == Some(Parsed(v, o + |text|))
  {
    hide ParseValue, ParseStringAt, IsLiteral, IsNumeric, StartsNumber;
    match v
    case String(s) =>
      NameParsed(c, o, text, s);
      ParseScalarIs(num, c, o, depth);
    case Number(n) =>
      AllNumberCharacters(text);
      RunIs(c, o, text, 63);
      FirstStands(c, o, text);
      ParseScalarIs(num, c, o, depth);
    case _ =>
      ParseWordIs(num, c, o, depth);
  }

  /** A legal text begins with none of these. */
  lemma {:induction false} TextStarts(num: Numerals, s: Syntax)
    requires Legal(num, s, true)
    ensures var t := Text(s); t != [] && t[0] as int > 32 && t[0] !in {']', '}', '\U{EF}'}
  {
    if s.Scalar? && s.value.String? { NameStarts(s.text, s.value.s); }
    if s.Scalar? && s.value.Number? { NumberCharacters(s.text[0]); }
  }

  /** White space and what may stand behind a value is no part of a number. */
  lemma {:induction false} SpaceNotNumeric(w: string, x: char)
    requires Space(w, true) && x in {',', ']', '}'}
    ensures !IsNumeric((w + [x])[0])
  {
  }

  lemma {:induction false} ElementIs(num: Numerals, es: seq<Element>)
    requires es != [] && LegalElements(num, es, true)
    ensures Space(es[0].before, true) && Legal(num, es[0].value, true) && Space(es[0].after, true)
    ensures ElementsText(es) == es[0].before + (Text(es[0].value) + (es[0].after + ElementsTail(es)))
    ensures ElementsTail(es) != [] && ElementsTail(es)[0] == if |es| == 1 then ']' else ','
  {
    hide Legal, Text, Space;
  }

  lemma {:induction false} EntryIs(num: Numerals, es: seq<Entry>)
    requires es != [] && LegalEntries(num, es, true)
    ensures Space(es[0].before, true) && IsLiteral(es[0].name, es[0].key) && Space(es[0].between, true)
    ensures Space(es[0].behind, true) && Legal(num, es[0].value, true) && Space(es[0].after, true)
    ensures EntriesText(es) == es[0].before + (es[0].name + (es[0].between + (":" + EntryRest(es))))
    ensures EntryRest(es) == es[0].behind + (Text(es[0].value) + (es[0].after + EntriesTail(es)))
    ensures EntriesTail(es) != [] && EntriesTail(es)[0] == if |es| == 1 then '}' else ','
  {
    hide Legal, Text, Space, IsLiteral;
  }

  /** Where the parts of the first element are. */
  lemma {:induction false} ElementStands(num: Numerals, c: string, q: nat, es: seq<Element>) returns (at: nat, end: nat, p: nat)
    requires es != [] && LegalElements(num, es, true) && StandsAt(c, q, ElementsText(es))
    ensures IsText(c) && q < |c| && at == SkipSpace(c, q) && at < |c| && c[at] != ']' && StandsAt(c, at, Text(es[0].value))
    ensures end == at + |Text(es[0].value)| && end < |c| && !IsNumeric(c[end])
    ensures p == SkipSpace(c, end) && p < |c| && c[p] == (if |es| == 1 then ']' else ',')
    ensures StandsAt(c, p, ElementsTail(es)) && p + |ElementsTail(es)| == q + |ElementsText(es)|
  {
    hide SkipSpace, IsNumeric, StandsAt, Legal, LegalElements, Text, ElementsText, ElementsTail, Space, IsSpace;
    var e := es[0];
    var t, tail := Text(e.value), ElementsTail(es);
    ElementIs(num, es);
    TextStarts(num, e.value);
    StrictSpace(e.before);
    StrictSpace(e.after);
    SpaceNotNumeric(e.after, tail[0]);
    assert (e.after + tail)[0] == (e.after + [tail[0]])[0];
    at, end, p := ValueStands(c, q, e.before, t, e.after, tail);
  }

  /** White space, a value, white space, and what follows. */
  lemma {:induction false} ValueStands(c: string, q: nat, before: string, t: string, after: string, tail: string)
      returns (at: nat, end: nat, p: nat)
    requires StandsAt(c, q, before + (t + (after + tail))) && IsSpace(before) && IsSpace(after)
    requires t != [] && t[0] as int > 32 && tail != [] && tail[0] as int > 32
    ensures IsText(c) && q < |c| && at == q + |before| == SkipSpace(c, q) && at < |c| && c[at] == t[0] && StandsAt(c, at, t)
    ensures end == at + |t| && end < |c| && c[end] == (after + tail)[0] && p == end + |after| == SkipSpace(c, end)
    ensures p < |c| && c[p] == tail[0] && StandsAt(c, p, tail)
  {
    hide SkipSpace, StandsAt, IsSpace;
    StandsWithin(c, q, before + (t + (after + tail)));
    at := q + |before|;
    assert (t + (after + tail))[0] == t[0];
    SpaceThenText(c, q, before, t + (after + tail));
    StandsParts(c, at, t, after + tail);
    end := at + |t|;
    FirstStands(c, end, after + tail);
    SpaceThenText(c, end, after, tail);
    p := end + |after|;
  }

  /** The first of several, and what comes of the others. */
  lemma {:induction false} BehindOutcome(item: seq<Item>, ms: seq<Item>, h: nat, hs: nat, depth: nat, end: nat)
    ensures var r := if hs + depth <= NESTING_LIMIT then Some(Parsed(ms, end)) else None;
            h + depth <= NESTING_LIMIT ==>
              Behind(item, r) == if Higher(h, hs) + depth <= NESTING_LIMIT then Some(Parsed(item + ms, end)) else None
  {
  }

  lemma {:induction false} BehindSome(a: seq<Item>, b: seq<Item>, end: nat)
    ensures Behind(a, Some(Parsed(b, end))) == Some(Parsed(a + b, end))
  {
  }

  lemma {:induction false} StandsWithin(c: string, o: nat, t: string)
    requires StandsAt(c, o, t)
    ensures IsText(c) && o + |t| < |c|
  {
  }

  /** Every value of the grammar is parsed to what it means, if containers are nested at most 1000 deep, and refused otherwise. */
  lemma {:induction false} ValueParsed(num: Numerals, c: string, o: nat, s: Syntax, depth: nat)
    requires Legal(num, s, true) && depth <= NESTING_LIMIT && StandsAt(c, o, Text(s)) && !IsNumeric(c[o + |Text(s)|])
    ensures ParseValue(num, c, o, depth) == Outcome(s, depth, o + |Text(s)|)
    decreases s, 1
  {
    match s
    case Scalar(text, v) => ScalarParsed(num, c, o, text, v, depth);
    case List(space, es) => ListParsed(num, c, o, s, depth);
    case Record(space, es) => RecordParsed(num, c, o, s, depth);
  }

  lemma {:induction false} ListParts(num: Numerals, s: Syntax)
    requires s.List? && Legal(num, s, true)
    ensures Space(s.space, true) && LegalElements(num, s.elements, true)
    ensures Text(s) == "[" + (if s.elements == [] then s.space + "]" else ElementsText(s.elements))
    ensures Height(s) == 1 + ElementsHeight(s.elements) && Meaning(s) == Array(ItemsOf(s.elements))
    ensures s.elements == [] ==> ItemsOf(s.elements) == [] && ElementsHeight(s.elements) == 0
  {
  }

  lemma {:induction false} ListParsed(num: Numerals, c: string, o: nat, s: Syntax, depth: nat)
    requires s.List? && Legal(num, s, true) && depth <= NESTING_LIMIT && StandsAt(c, o, Text(s))
    ensures ParseValue(num, c, o, depth) == Outcome(s, depth, o + |Text(s)|)
    decreases s, 0
  {
    hide ParseValue, ParseItems, SkipSpace, StandsAt, Space, IsSpace, Text, ElementsText, Legal, LegalElements, Height,
         ElementsHeight, Meaning, ItemsOf;
    var es := s.elements;
    var rest := if es == [] then s.space + "]" else ElementsText(es);
    ListParts(num, s);
    StandsParts(c, o, "[", rest);
    FirstStands(c, o, "[");
    StandsWithin(c, o + 1, rest);
    if depth == NESTING_LIMIT {
      RefusesContainer(num, c, o, depth);
      return;
    }
    var p := SkipSpace(c, o + 1);
    ParseContainerIs(num, c, o, depth);
    if es == [] {
      StrictSpace(s.space);
      SpaceThenText(c, o + 1, s.space, "]");
    } else {
      SkippedAlready(c, o + 1);
      ElementsParsed(num, c, p, o + 1, es, depth + 1);
    }
  }

  lemma {:induction false} FirstElement(num: Numerals, es: seq<Element>)
    requires es != [] && LegalElements(num, es, true)
    ensures Legal(num, es[0].value, true) && LegalElements(num, es[1..], true)
    ensures Height(es[0].value) <= ElementsHeight(es) == Higher(Height(es[0].value), ElementsHeight(es[1..]))
    ensures ItemsOf(es) == [Item("", Meaning(es[0].value))] + ItemsOf(es[1..])
    ensures if |es| == 1 then |ElementsTail(es)| == 1 && ElementsHeight(es) == Height(es[0].value) && ItemsOf(es[1..]) == []
            else es[1..] != [] && ElementsTail(es) == "," + ElementsText(es[1..])
  {
    hide Legal, Height, Meaning, Text;
  }

  /** The elements are read from start, which may be behind some of the white space. */
  lemma {:induction false} ElementsParsed(num: Numerals, c: string, start: nat, q: nat, es: seq<Element>, depth: nat)
    requires es != [] && LegalElements(num, es, true) && depth <= NESTING_LIMIT && StandsAt(c, q, ElementsText(es))
    requires IsText(c) && start < |c| && q < |c| && SkipSpace(c, start) == SkipSpace(c, q)
    ensures c[SkipSpace(c, q)] != ']'
    ensures ParseItems(num, c, start, depth) ==
              if ElementsHeight(es) + depth <= NESTING_LIMIT then Some(Parsed(ItemsOf(es), q + |ElementsText(es)|)) else None
    decreases es
  {
    hide ParseValue, ParseItems, SkipSpace, StandsAt, Text, Legal, LegalElements, ElementsText, ElementsTail, Height, Meaning,
         ElementsHeight,
         ItemsOf, Behind, Higher;
    var at, end, p := ElementStands(num, c, q, es);
    FirstElement(num, es);
    ValueParsed(num, c, at, es[0].value, depth);
    ItemsStep(num, c, start, depth);
    var item := [Item("", Meaning(es[0].value))];
    if |es| > 1 {
      var rest := ElementsText(es[1..]);
      StandsParts(c, p, ",", rest);
      StandsWithin(c, p + 1, rest);
      ElementsParsed(num, c, p + 1, p + 1, es[1..], depth);
      BehindOutcome(item, ItemsOf(es[1..]), Height(es[0].value), ElementsHeight(es[1..]), depth, p + 1 + |rest|);
    } else {
      assert item + [] == item;
    }
  }

  /** Where the parts of the first member are. */
  lemma {:induction false} EntryStands(num: Numerals, c: string, q: nat, es: seq<Entry>) returns (n: nat, colon: nat, o: nat)
    requires es != [] && LegalEntries(num, es, true) && StandsAt(c, q, EntriesText(es))
    ensures IsText(c) && q < |c| && n == SkipSpace(c, q) && n < |c| && c[n] == QUOTE
    ensures ParseStringAt(c, n) == Some(Parsed(es[0].key, n + |es[0].name|)) && n + |es[0].name| < |c|
    ensures colon == SkipSpace(c, n + |es[0].name|) && colon < |c| && c[colon] == ':' && o == colon + 1 && o < |c|
    ensures StandsAt(c, o, EntryRest(es)) && o + |EntryRest(es)| == q + |EntriesText(es)|
  {
    hide SkipSpace, StandsAt, Legal, LegalEntries, Text, EntriesText, EntriesTail, EntryRest, Space, IsSpace, IsLiteral, ParseStringAt;
    var e := es[0];
    var rest := EntryRest(es);
    EntryIs(num, es);
    NameStarts(e.name, e.key);
    StrictSpace(e.before);
    StrictSpace(e.between);
    var end;
    n, end, colon := ValueStands(c, q, e.before, e.name, e.between, ":" + rest);
    NameParsed(c, n, e.name, e.key);
    StandsParts(c, colon, ":", rest);
    StandsWithin(c, colon, ":" + rest);
    o := colon + 1;
  }

  /** And its value. */
  lemma {:induction false} EntryValueStands(num: Numerals, c: string, o: nat, es: seq<Entry>) returns (at: nat, end: nat, p: nat)
    requires es != [] && LegalEntries(num, es, true)
    requires StandsAt(c, o, EntryRest(es))
    ensures IsText(c) && o < |c| && at == SkipSpace(c, o) && at < |c| && StandsAt(c, at, Text(es[0].value))
    ensures end == at + |Text(es[0].value)| && end < |c| && !IsNumeric(c[end])
    ensures p == SkipSpace(c, end) && p < |c| && c[p] == (if |es| == 1 then '}' else ',')
    ensures StandsAt(c, p, EntriesTail(es)) && p + |EntriesTail(es)| == o + |EntryRest(es)|
  {
    hide SkipSpace, IsNumeric, StandsAt, Legal, LegalEntries, Text, EntriesText, EntriesTail, EntryRest, Space, IsSpace, IsLiteral;
    var e := es[0];
    var t, tail := Text(e.value), EntriesTail(es);
    EntryIs(num, es);
    TextStarts(num, e.value);
    StrictSpace(e.behind);
    StrictSpace(e.after);
    SpaceNotNumeric(e.after, tail[0]);
    assert (e.after + tail)[0] == (e.after + [tail[0]])[0];
    at, end, p := ValueStands(c, o, e.behind, t, e.after, tail);
  }

  lemma {:induction false} RecordParts(num: Numerals, s: Syntax)
    requires s.Record? && Legal(num, s, true)
    ensures Space(s.space, true) && LegalEntries(num, s.entries, true)
    ensures Text(s) == "{" + (if s.entries == [] then s.space + "}" else EntriesText(s.entries))
    ensures Height(s) == 1 + EntriesHeight(s.entries) && Meaning(s) == Object(MembersOf(s.entries))
    ensures s.entries == [] ==> MembersOf(s.entries) == [] && EntriesHeight(s.entries) == 0
  {
  }

  lemma {:induction false} RecordParsed(num: Numerals, c: string, o: nat, s: Syntax, depth: nat)
    requires s.Record? && Legal(num, s, true) && depth <= NESTING_LIMIT && StandsAt(c, o, Text(s))
    ensures ParseValue(num, c, o, depth) == Outcome(s, depth, o + |Text(s)|)
    decreases s, 0
  {
    hide ParseValue, ParseMembers, SkipSpace, StandsAt, Space, IsSpace, Text, EntriesText, Legal, LegalEntries, Height, EntriesHeight,
         Meaning, MembersOf;
    var es := s.entries;
    var rest := if es == [] then s.space + "}" else EntriesText(es);
    RecordParts(num, s);
    StandsParts(c, o, "{", rest);
    FirstStands(c, o, "{");
    StandsWithin(c, o + 1, rest);
    if depth == NESTING_LIMIT {
      RefusesContainer(num, c, o, depth);
      return;
    }
    var p := SkipSpace(c, o + 1);
    ParseContainerIs(num, c, o, depth);
    if es == [] {
      StrictSpace(s.space);
      SpaceThenText(c, o + 1, s.space, "}");
    } else {
      SkippedAlready(c, o + 1);
      EntriesParsed(num, c, p, o + 1, es, depth + 1);
    }
  }

  lemma {:induction false} FirstEntry(num: Numerals, es: seq<Entry>)
    requires es != [] && LegalEntries(num, es, true)
    ensures Legal(num, es[0].value, true) && LegalEntries(num, es[1..], true)
    ensures Height(es[0].value) <= EntriesHeight(es) == Higher(Height(es[0].value), EntriesHeight(es[1..]))
    ensures MembersOf(es) == [Item(es[0].key, Meaning(es[0].value))] + MembersOf(es[1..])
    ensures if |es| == 1 then |EntriesTail(es)| == 1 && EntriesHeight(es) == Height(es[0].value) && MembersOf(es[1..]) == []
            else es[1..] != [] && EntriesTail(es) == "," + EntriesText(es[1..])
  {
    hide Legal, Height, Meaning, Text;
  }

  /** A member whose name and colon have been found. */
  lemma {:induction false} EntryStep(num: Numerals, c: string, start: nat, n: nat, key: Parsed<string>, colon: nat, at: nat, depth: nat)
    requires IsText(c) && start < |c| && n == SkipSpace(c, start) && ParseStringAt(c, n) == Some(key) && key.offset < |c|
    requires colon == SkipSpace(c, key.offset) && c[colon] == ':' && colon + 1 < |c| && at == SkipSpace(c, colon + 1)
    ensures var v := ParseValue(num, c, at, depth);
            if v.None? then ParseMembers(num, c, start, depth) == None
            else
              var p := SkipSpace(c, v.value.offset);
              var item := [Item(key.value, v.value.value)];
              if c[p] == ',' then
                p + 1 < |c| && ParseMembers(num, c, start, depth) == Behind(item, ParseMembers(num, c, p + 1, depth))
              else ParseMembers(num, c, start, depth) == if c[p] == '}' then Some(Parsed(item, p + 1)) else None
  {
    hide ParseValue, ParseMembers, SkipSpace, Behind, ParseStringAt, AfterColon;
    MembersStep(num, c, start, depth);
    AfterColonIs(num, c, key.value, colon + 1, depth);
  }

  /** The first member has been read, up to the comma or brace behind it. */
  lemma {:induction false} EntryRead(num: Numerals, c: string, start: nat, q: nat, es: seq<Entry>, depth: nat)
      returns (at: nat, end: nat, p: nat)
    requires es != [] && LegalEntries(num, es, true) && StandsAt(c, q, EntriesText(es))
    requires IsText(c) && start < |c| && q < |c| && SkipSpace(c, start) == SkipSpace(c, q)
    ensures c[SkipSpace(c, q)] == QUOTE && at < |c| && StandsAt(c, at, Text(es[0].value))
    ensures end == at + |Text(es[0].value)| && end < |c| && !IsNumeric(c[end])
    ensures p == SkipSpace(c, end) && p < |c| && c[p] == (if |es| == 1 then '}' else ',')
    ensures StandsAt(c, p, EntriesTail(es)) && p + |EntriesTail(es)| == q + |EntriesText(es)|
    ensures ParseValue(num, c, at, depth) == None ==> ParseMembers(num, c, start, depth) == None
    ensures forall v :: ParseValue(num, c, at, depth) == Some(Parsed(v, end)) ==>
              var item := [Item(es[0].key, v)];
              if |es| > 1 then p + 1 < |c| && ParseMembers(num, c, start, depth) == Behind(item, ParseMembers(num, c, p + 1, depth))
              else ParseMembers(num, c, start, depth) == Some(Parsed(item, p + 1))
  {
    hide ParseValue, ParseMembers, SkipSpace, StandsAt, Text, Legal, LegalEntries, EntriesText, EntriesTail, EntryRest, Behind,
         ParseStringAt,
         IsNumeric;
    var n, colon, o := EntryStands(num, c, q, es);
    at, end, p := EntryValueStands(num, c, o, es);
    EntryStep(num, c, start, n, Parsed(es[0].key, n + |es[0].name|), colon, at, depth);
  }

  lemma {:induction false} EntriesParsed(num: Numerals, c: string, start: nat, q: nat, es: seq<Entry>, depth: nat)
    requires es != [] && LegalEntries(num, es, true) && depth <= NESTING_LIMIT && StandsAt(c, q, EntriesText(es))
    requires IsText(c) && start < |c| && q < |c| && SkipSpace(c, start) == SkipSpace(c, q)
    ensures c[SkipSpace(c, q)] != '}'
    ensures ParseMembers(num, c, start, depth) ==
              if EntriesHeight(es) + depth <= NESTING_LIMIT then Some(Parsed(MembersOf(es), q + |EntriesText(es)|)) else None
    decreases es
  {
    hide ParseValue, ParseMembers, SkipSpace, StandsAt, Text, Legal, LegalEntries, EntriesText, EntriesTail, EntryRest, Height, Meaning,
         EntriesHeight, MembersOf, Behind, Higher, IsNumeric;
    var at, end, p := EntryRead(num, c, start, q, es, depth);
    FirstEntry(num, es);
    ValueParsed(num, c, at, es[0].value, depth);
    var item := [Item(es[0].key, Meaning(es[0].value))];
    if |es| > 1 {
      var rest := EntriesText(es[1..]);
      StandsParts(c, p, ",", rest);
      StandsWithin(c, p + 1, rest);
      EntriesParsed(num, c, p + 1, p + 1, es[1..], depth);
      BehindOutcome(item, MembersOf(es[1..]), Height(es[0].value), EntriesHeight(es[1..]), depth, p + 1 + |rest|);
    } else {
      assert item + [] == item;
    }
  }

  /** A document: perhaps a byte order mark (section 8.1), white space, a value, white space. */
  function Document(bom: bool, before: string, s: Syntax, after: string): (t: string)
    ensures IsText(t)
  {
    (if bom then BOM else []) + (before + (Text(s) + (after + ['\0'])))
  }

  const BOM: string := ['\U{EF}', '\U{BB}', '\U{BF}']

  /** Every document of the grammar is parsed to what it means, whether it is asked to end there or not, unless it is nested too
      deeply: then it is refused. */
  lemma {:induction false} DocumentParsed(num: Numerals, bom: bool, before: string, s: Syntax, after: string, toEnd: bool)
    requires Legal(num, s, true) && Space(before, true) && Space(after, true)
    ensures ParseText(num, Document(bom, before, s, after), toEnd) == if Height(s) <= NESTING_LIMIT then Some(Meaning(s)) else None
  {
    hide Text, Legal, Space, Height, Meaning, ParseText, BomLength;
    TextStarts(num, s);
    BomIs(bom, before, Text(s), after);
    ParsedFrom(num, Document(bom, before, s, after), if bom then 3 else 0, before, s, after, toEnd);
  }

  lemma {:induction false} ParsedFrom(num: Numerals, c: string, o: nat, before: string, s: Syntax, after: string, toEnd: bool)
    requires IsText(c) && o <= |c| && BomLength(c) == o && c[o..] == before + (Text(s) + (after + ['\0']))
    requires Legal(num, s, true) && Space(before, true) && Space(after, true)
    ensures ParseText(num, c, toEnd) == if Height(s) <= NESTING_LIMIT then Some(Meaning(s)) else None
  {
    hide Text, Legal, ParseValue, SkipSpace, Space, IsSpace, Height, Meaning, BomLength, StandsAt, IsNumeric;
    var t := Text(s);
    TextStarts(num, s);
    StrictSpace(before);
    StrictSpace(after);
    DocumentStands(c, o, before, t, after);
    var at := o + |before|;
    SpaceThenText(c, o, before, t);
    ValueParsed(num, c, at, s, 0);
    EndOfText(c, at + |t|, after);
    hide IsText;
  }

  lemma {:induction false} BomIs(bom: bool, before: string, t: string, after: string)
    requires Space(before, true) && t != [] && t[0] != '\U{EF}'
    ensures var c := (if bom then BOM else []) + (before + (t + (after + ['\0']))); var o := if bom then 3 else 0;
            BomLength(c) == o && o <= |c| && c[o..] == before + (t + (after + ['\0']))
  {
    var rest := before + (t + (after + ['\0']));
    if bom {
      assert (BOM + rest)[..3] == BOM && (BOM + rest)[3..] == rest;
    } else {
      assert [] + rest == rest && rest[0] == if before == [] then t[0] else before[0];
      assert |rest| > 4 ==> rest[..3][0] == rest[0];
    }
  }

  lemma {:induction false} DocumentStands(c: string, o: nat, before: string, t: string, after: string)
    requires o <= |c| && c[o..] == before + (t + (after + ['\0'])) && IsText(c) && Space(after, true)
    ensures StandsAt(c, o, before + t) && o + |before| + |t| + |after| + 1 == |c|
    ensures !IsNumeric(c[o + |before| + |t|]) && c[o + |before| + |t|..] == after + ['\0']
  {
    var n := |before + t|;
    assert c[o..o + n] == c[o..][..n] && c[o..][..n] == before + t;
    assert c[o + n..] == c[o..][n..] && c[o..][n..] == after + ['\0'];
    assert c[o + n] == c[o + n..][0];
  }

  /** Only white space up to the terminator. */
  lemma {:induction false} EndOfText(c: string, o: nat, after: string)
    requires o < |c| && c[o..] == after + ['\0'] && IsSpace(after) && IsText(c)
    ensures SkipSpace(c, o) == |c| - 1 && c[|c| - 1] == '\0'
  {
    forall i | o <= i < |c|
      ensures c[i] as int <= 32
    {
      assert c[i] == c[o..][i - o];
    }
  }
}
