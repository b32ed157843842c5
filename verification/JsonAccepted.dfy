/** Whatever 3rd/cjson/cJSON.c parses is a text of the grammar of RFC 8259, but for a few liberties. */
module JsonAccepted {
  import opened Wrappers
  import opened Json
  import opened JsonStrings
  import opened JsonLiterals
  import opened JsonText
  import opened JsonGrammar

  lemma {:induction false} SkippedIsSpace(c: string, o: nat)
    requires IsText(c) && o < |c|
    ensures Space(c[o..SkipSpace(c, o)], false)
  {
  }

  lemma {:induction false} StringParts(c: string, o: nat)
    requires ParseStringAt(c, o).Some?
    ensures o < |c| && c[o] == QUOTE && StringEnd(c, o + 1).Some?
    ensures var end, r := StringEnd(c, o + 1).value, ParseStringAt(c, o).value;
            o < end < |c| && c[end] == QUOTE && DecodeFrom(c, o + 1, end) == Some(r.value) && r.offset == end + 1
  {
    hide StringEnd, DecodeFrom;
  }

  lemma {:induction false} NameSound(c: string, o: nat)
    requires ParseStringAt(c, o).Some?
    ensures var r := ParseStringAt(c, o).value; o < r.offset <= |c| && IsTakenLiteral(c[o..r.offset], r.value)
  {
    hide StringEnd, DecodeFrom, ParseStringAt, AreTaken, AllTakenBytes, TokensText;
    StringParts(c, o);
    var end := StringEnd(c, o + 1).value;
    var ts, e := DecodedTokens(c, o + 1, end);
    Split(c, o, o + 1, end + 1);
    assert c[o..o + 1] == [QUOTE];
    if e == end {
      Split(c, o + 1, end, end + 1);
      assert c[end..end + 1] == [QUOTE];
    }
  }

  lemma {:induction false} Split(c: string, a: nat, m: nat, b: nat)
    requires a <= m <= b <= |c|
    ensures c[a..b] == c[a..m] + c[m..b]
  {
  }

  lemma {:induction false} NumberSound(num: Numerals, c: string, o: nat)
    requires o < |c| && StartsNumber(c[o]) && ParseNumber(num, c, o).Some?
    ensures var r := ParseNumber(num, c, o).value; r.offset <= |c| && exists run :: Taken(num, run, c[o..r.offset], r.value)
  {
    var n := NumberRun(c, o, 63);
    var run := c[o..o + n];
    var r := ParseNumber(num, c, o).value;
    assert c[o..r.offset] == run[..r.offset - o];
    AllNumberCharacters(run);
    NumberCharacters(c[o]);
    assert Taken(num, run, c[o..r.offset], r.value);
  }

  /** A word, string or number. */
  lemma {:induction false} ScalarSound(num: Numerals, c: string, o: nat, depth: nat) returns (s: Syntax)
    requires IsText(c) && o < |c| && c[o] != '[' && c[o] != '{' && ParseValue(num, c, o, depth).Some?
    ensures s.Scalar? && Stands(num, c, o, s, ParseValue(num, c, o, depth).value)
  {
    hide ParseStringAt, IsTakenLiteral, ParseNumber, StartsNumber, ParseItems, ParseMembers;
    var r := ParseValue(num, c, o, depth).value;
    s := Scalar(c[o..r.offset], r.value);
    ParseWordIs(num, c, o, depth);
    if !Reads(c, o, "null") && !Reads(c, o, "false") && !Reads(c, o, "true") {
      if c[o] == QUOTE {
        NameSound(c, o);
      } else if StartsNumber(c[o]) {
        NumberSound(num, c, o);
      }
    }
  }

  /** s is a legal tree for what was parsed from o on. */
  ghost predicate Stands(num: Numerals, c: string, o: nat, s: Syntax, r: Parsed<Json>) {
    Legal(num, s, false) && Meaning(s) == r.value && o <= r.offset <= |c| && c[o..r.offset] == Text(s)
  }

  /** Whatever is parsed, is parsed from a text of the grammar, apart from control characters as white space or in strings, the
      numbers that strtod takes, digits that are none, and a swallowed quote. */
  lemma {:induction false} ValueSound(num: Numerals, c: string, o: nat, depth: nat) returns (s: Syntax)
    requires IsText(c) && o < |c| && depth <= NESTING_LIMIT && ParseValue(num, c, o, depth).Some?
    ensures Stands(num, c, o, s, ParseValue(num, c, o, depth).value) && Height(s) + depth <= NESTING_LIMIT
    decreases |c| - o, 1
  {
    if c[o] == '[' {
      s := ListSound(num, c, o, depth);
    } else if c[o] == '{' {
      s := RecordSound(num, c, o, depth);
    } else {
      s := ScalarSound(num, c, o, depth);
    }
  }

  lemma {:induction false} ListSound(num: Numerals, c: string, o: nat, depth: nat) returns (s: Syntax)
    requires IsText(c) && o < |c| && c[o] == '[' && depth <= NESTING_LIMIT && ParseValue(num, c, o, depth).Some?
    ensures Stands(num, c, o, s, ParseValue(num, c, o, depth).value) && Height(s) + depth <= NESTING_LIMIT
    decreases |c| - o, 0
  {
    hide ParseValue, ParseItems, SkipSpace, Space, Text, ElementsText, Legal, LegalElements, Height, ElementsHeight, Meaning, ItemsOf,
         Stands;
    BracketIsNotLast(c, o);
    if depth == NESTING_LIMIT { RefusesContainer(num, c, o, depth); }
    ParseContainerIs(num, c, o, depth);
    var p := SkipSpace(c, o + 1);
    SkippedIsSpace(c, o + 1);
    var w := c[o + 1..p];
    if c[p] == ']' {
      s := List(w, []);
      EmptyStands(num, c, o, p, s);
    } else {
      var es := ElementsSound(num, c, p, depth + 1);
      s := List("", [es[0].(before := w + es[0].before)] + es[1..]);
      ListStands(num, c, o, p, w, es, s, ParseItems(num, c, p, depth + 1).value);
    }
  }

  lemma {:induction false} BracketIsNotLast(c: string, o: nat)
    requires IsText(c) && o < |c| && c[o] != '\0'
    ensures o + 1 < |c|
  {
  }

  lemma {:induction false} EmptyStands(num: Numerals, c: string, o: nat, p: nat, s: Syntax)
    requires o < p < |c| && Space(c[o + 1..p], false)
    requires (s == List(c[o + 1..p], []) && c[o] == '[' && c[p] == ']') || (s == Record(c[o + 1..p], []) && c[o] == '{' && c[p] == '}')
    ensures Stands(num, c, o, s, Parsed(if s.List? then Array([]) else Object([]), p + 1)) && Height(s) == 1
  {
    hide Space;
    Split(c, o, o + 1, p + 1);
    Split(c, o + 1, p, p + 1);
    assert c[p..p + 1] == [c[p]] && c[o..o + 1] == [c[o]];
    if s.List? {
      assert Text(s) == "[" + (s.space + "]");
      assert LegalElements(num, [], false) && Meaning(s) == Array([]);
    } else {
      assert Text(s) == "{" + (s.space + "}");
      assert LegalEntries(num, [], false) && Meaning(s) == Object([]);
    }
  }

  lemma {:induction false} ListStands(num: Numerals, c: string, o: nat, p: nat, w: string, es: seq<Element>, s: Syntax, r: Parsed<seq<Item>>)
    requires o < p < r.offset <= |c| && c[o] == '[' && w == c[o + 1..p] && Space(w, false) && ElementsStand(num, c, p, es, r)
    requires s == List("", [es[0].(before := w + es[0].before)] + es[1..])
    ensures Stands(num, c, o, s, Parsed(Array(r.value), r.offset)) && Height(s) == 1 + ElementsHeight(es)
  {
    hide Text, ElementsText, Meaning, ItemsOf, Height, ElementsHeight, Space, Legal, LegalElements, LegalName;
    ListTextIs(num, es, w, s.elements);
    ListIs(num, s);
    Split(c, o, o + 1, r.offset);
    Split(c, o + 1, p, r.offset);
    assert c[o..o + 1] == "[";
  }

  lemma {:induction false} ListIs(num: Numerals, s: Syntax)
    requires s.List? && s.space == "" && s.elements != [] && LegalElements(num, s.elements, false)
    ensures Legal(num, s, false) && Text(s) == "[" + ElementsText(s.elements) && Meaning(s) == Array(ItemsOf(s.elements))
    ensures Height(s) == 1 + ElementsHeight(s.elements)
  {
    hide LegalElements, ElementsText, ItemsOf, ElementsHeight;
  }

  lemma {:induction false} ListTextIs(num: Numerals, es: seq<Element>, w: string, es': seq<Element>)
    requires es != [] && es' == [es[0].(before := w + es[0].before)] + es[1..]
    ensures ElementsText(es') == w + ElementsText(es) && ItemsOf(es') == ItemsOf(es) && ElementsHeight(es') == ElementsHeight(es)
    ensures Space(w, false) && LegalElements(num, es, false) ==> LegalElements(num, es', false)
  {
    hide Text, Meaning, Height, Legal, LegalName, Space;
    assert es'[1..] == es[1..];
    if Space(w, false) && LegalElements(num, es, false) { SpaceBoth(w, es[0].before); }
    var rest := Text(es[0].value) + (es[0].after + ElementsTail(es));
    assert ElementsTail(es') == ElementsTail(es);
    hide ElementsTail;
    assert (w + es[0].before) + rest == w + (es[0].before + rest);
  }

  lemma {:induction false} SpaceBoth(a: string, b: string)
    requires Space(a, false) && Space(b, false)
    ensures Space(a + b, false) && Space("", false)
  {
  }

  ghost predicate ElementsStand(num: Numerals, c: string, q: nat, es: seq<Element>, r: Parsed<seq<Item>>) {
    && es != [] && LegalElements(num, es, false) && ItemsOf(es) == r.value
    && q <= r.offset <= |c| && c[q..r.offset] == ElementsText(es)
  }

  lemma {:induction false} ElementsSound(num: Numerals, c: string, q: nat, depth: nat) returns (es: seq<Element>)
    requires IsText(c) && q < |c| && depth <= NESTING_LIMIT && ParseItems(num, c, q, depth).Some?
    ensures ElementsStand(num, c, q, es, ParseItems(num, c, q, depth).value) && ElementsHeight(es) + depth <= NESTING_LIMIT
    decreases |c| - q, 2
  {
    hide ParseValue, ParseItems, SkipSpace, Space, Text, ElementsText, Legal, LegalElements, Height, ElementsHeight, Meaning, ItemsOf,
         Stands,
         ElementsStand, Behind;
    ItemsStep(num, c, q, depth);
    var at := SkipSpace(c, q);
    SkippedIsSpace(c, q);
    var x := ValueSound(num, c, at, depth);
    var v := ParseValue(num, c, at, depth).value;
    var p := SkipSpace(c, v.offset);
    SkippedIsSpace(c, v.offset);
    var e := Element(c[q..at], x, c[v.offset..p]);
    var item := [Item("", v.value)];
    if c[p] == ',' {
      BehindBoth(item, [], None);
      var rest := ElementsSound(num, c, p + 1, depth);
      var r := ParseItems(num, c, p + 1, depth).value;
      es := [e] + rest;
      BehindSome(item, r.value, r.offset);
      MoreElements(num, c, q, at, x, v, p, rest, r);
    } else {
      es := [e];
      LastElement(num, c, q, at, x, v, p);
    }
  }

  lemma {:induction false} LastElement(num: Numerals, c: string, q: nat, at: nat, x: Syntax, v: Parsed<Json>, p: nat)
    requires q <= at <= v.offset <= p < |c| && Space(c[q..at], false) && Space(c[v.offset..p], false) && Stands(num, c, at, x, v)
    requires c[p] == ']'
    ensures var es := [Element(c[q..at], x, c[v.offset..p])];
            ElementsStand(num, c, q, es, Parsed([Item("", v.value)], p + 1)) && ElementsHeight(es) == Height(x)
  {
    hide Text, ElementsText, Meaning, ItemsOf, Height, ElementsHeight, Legal, LegalElements, Space;
    OneElement(num, Element(c[q..at], x, c[v.offset..p]));
    ElementText(c, q, at, v.offset, p, p + 1);
    assert c[p..p + 1] == "]";
  }

  lemma {:induction false} OneElement(num: Numerals, e: Element)
    ensures ElementsText([e]) == e.before + (Text(e.value) + (e.after + "]")) && ItemsOf([e]) == [Item("", Meaning(e.value))]
    ensures ElementsHeight([e]) == Height(e.value)
    ensures LegalElements(num, [e], false) <==> Space(e.before, false) && Legal(num, e.value, false) && Space(e.after, false)
  {
    hide Text, Meaning, Height, Legal, Space;
    assert [e][1..] == [];
    assert ItemsOf([e]) == [Item("", Meaning(e.value))] + [];
  }

  lemma {:induction false} ElementText(c: string, q: nat, at: nat, n: nat, p: nat, end: nat)
    requires q <= at <= n <= p <= end <= |c|
    ensures c[q..end] == c[q..at] + (c[at..n] + (c[n..p] + c[p..end]))
  {
    Split(c, q, at, end);
    Split(c, at, n, end);
    Split(c, n, p, end);
  }

  lemma {:induction false} MoreElements(num: Numerals, c: string, q: nat, at: nat, x: Syntax, v: Parsed<Json>, p: nat, rest: seq<Element>,
                                         r: Parsed<seq<Item>>)
    requires q <= at <= v.offset <= p < |c| && Space(c[q..at], false) && Space(c[v.offset..p], false) && Stands(num, c, at, x, v)
    requires c[p] == ','
    requires ElementsStand(num, c, p + 1, rest, r)
    ensures var es := [Element(c[q..at], x, c[v.offset..p])] + rest;
            && ElementsStand(num, c, q, es, Parsed([Item("", v.value)] + r.value, r.offset))
            && ElementsHeight(es) == Higher(Height(x), ElementsHeight(rest))
  {
    hide Text, Meaning, Height, Legal, Space;
    var es := [Element(c[q..at], x, c[v.offset..p])] + rest;
    assert es[1..] == rest;
    assert ElementsTail(es) == "," + ElementsText(rest);
    hide ElementsTail;
    ElementText(c, q, at, v.offset, p, r.offset);
    Split(c, p, p + 1, r.offset);
    assert c[p..p + 1] == ",";
  }

  lemma {:induction false} RecordSound(num: Numerals, c: string, o: nat, depth: nat) returns (s: Syntax)
    requires IsText(c) && o < |c| && c[o] == '{' && depth <= NESTING_LIMIT && ParseValue(num, c, o, depth).Some?
    ensures Stands(num, c, o, s, ParseValue(num, c, o, depth).value) && Height(s) + depth <= NESTING_LIMIT
    decreases |c| - o, 0
  {
    hide ParseValue, ParseMembers, SkipSpace, Space, Text, EntriesText, Legal, LegalEntries, Height, EntriesHeight, Meaning,
         MembersOf, Stands;
    BracketIsNotLast(c, o);
    if depth == NESTING_LIMIT { RefusesContainer(num, c, o, depth); }
    ParseContainerIs(num, c, o, depth);
    var p := SkipSpace(c, o + 1);
    SkippedIsSpace(c, o + 1);
    var w := c[o + 1..p];
    if c[p] == '}' {
      s := Record(w, []);
      EmptyStands(num, c, o, p, s);
    } else {
      var es := EntriesSound(num, c, p, depth + 1);
      s := Record("", [es[0].(before := w + es[0].before)] + es[1..]);
      RecordStands(num, c, o, p, w, es, s, ParseMembers(num, c, p, depth + 1).value);
    }
  }

  lemma {:induction false} RecordStands(num: Numerals, c: string, o: nat, p: nat, w: string, es: seq<Entry>, s: Syntax, r: Parsed<seq<Item>>)
    requires o < p < r.offset <= |c| && c[o] == '{' && w == c[o + 1..p] && Space(w, false) && EntriesStand(num, c, p, es, r)
    requires s == Record("", [es[0].(before := w + es[0].before)] + es[1..])
    ensures Stands(num, c, o, s, Parsed(Object(r.value), r.offset)) && Height(s) == 1 + EntriesHeight(es)
  {
    hide Text, EntriesText, Meaning, MembersOf, Height, EntriesHeight, Space, Legal, LegalEntries, LegalName;
    RecordTextIs(num, es, w, s.entries);
    RecordIs(num, s);
    Split(c, o, o + 1, r.offset);
    Split(c, o + 1, p, r.offset);
    assert c[o..o + 1] == "{";
  }

  lemma {:induction false} RecordIs(num: Numerals, s: Syntax)
    requires s.Record? && s.space == "" && s.entries != [] && LegalEntries(num, s.entries, false)
    ensures Legal(num, s, false) && Text(s) == "{" + EntriesText(s.entries) && Meaning(s) == Object(MembersOf(s.entries))
    ensures Height(s) == 1 + EntriesHeight(s.entries)
  {
    hide LegalEntries, EntriesText, MembersOf, EntriesHeight;
  }

  lemma {:induction false} RecordTextIs(num: Numerals, es: seq<Entry>, w: string, es': seq<Entry>)
    requires es != [] && es' == [es[0].(before := w + es[0].before)] + es[1..]
    ensures EntriesText(es') == w + EntriesText(es) && MembersOf(es') == MembersOf(es) && EntriesHeight(es') == EntriesHeight(es)
    ensures Space(w, false) && LegalEntries(num, es, false) ==> LegalEntries(num, es', false)
  {
    hide Text, Meaning, Height, Legal, LegalName, Space;
    assert es'[1..] == es[1..];
    if Space(w, false) && LegalEntries(num, es, false) { SpaceBoth(w, es[0].before); }
    var rest := es[0].name + (es[0].between + (":" + (es[0].behind + (Text(es[0].value) + (es[0].after + EntriesTail(es))))));
    assert EntriesTail(es') == EntriesTail(es);
    hide EntriesTail;
    assert (w + es[0].before) + rest == w + (es[0].before + rest);
  }

  ghost predicate EntriesStand(num: Numerals, c: string, q: nat, es: seq<Entry>, r: Parsed<seq<Item>>) {
    && es != [] && LegalEntries(num, es, false) && MembersOf(es) == r.value
    && q <= r.offset <= |c| && c[q..r.offset] == EntriesText(es)
  }

  /** Where a member was found: its name at n, the colon, its value at at, and what comes behind at p. */
  ghost predicate EntryFound(num: Numerals, c: string, q: nat, n: nat, key: Parsed<string>, colon: nat, at: nat, x: Syntax, v: Parsed<Json>,
                             p: nat) {
    && q <= n < key.offset <= colon < at <= v.offset <= p < |c| && Space(c[q..n], false) && IsTakenLiteral(c[n..key.offset], key.value)
    && Space(c[key.offset..colon], false) && c[colon] == ':' && Space(c[colon + 1..at], false) && Stands(num, c, at, x, v)
    && Space(c[v.offset..p], false)
  }

  function EntryFrom(c: string, q: nat, n: nat, key: Parsed<string>, colon: nat, at: nat, x: Syntax, v: Parsed<Json>, p: nat): Entry
    requires q <= n <= key.offset <= colon < at <= v.offset <= p < |c|
  {
    Entry(c[q..n], c[n..key.offset], key.value, c[key.offset..colon], c[colon + 1..at], x, c[v.offset..p])
  }

  lemma {:induction false} EntriesSound(num: Numerals, c: string, q: nat, depth: nat) returns (es: seq<Entry>)
    requires IsText(c) && q < |c| && depth <= NESTING_LIMIT && ParseMembers(num, c, q, depth).Some?
    ensures EntriesStand(num, c, q, es, ParseMembers(num, c, q, depth).value) && EntriesHeight(es) + depth <= NESTING_LIMIT
    decreases |c| - q, 2
  {
    hide ParseValue, ParseMembers, SkipSpace, Space, Text, EntriesText, Legal, LegalEntries, Height, EntriesHeight, Meaning,
         MembersOf, Stands,
         EntriesStand, Behind, ParseStringAt, AfterColon, IsTakenLiteral;
    MembersStep(num, c, q, depth);
    var n := SkipSpace(c, q);
    SkippedIsSpace(c, q);
    NameSound(c, n);
    var key := ParseStringAt(c, n).value;
    var colon := SkipSpace(c, key.offset);
    SkippedIsSpace(c, key.offset);
    AfterColonIs(num, c, key.value, colon + 1, depth);
    var at := SkipSpace(c, colon + 1);
    SkippedIsSpace(c, colon + 1);
    var x := ValueSound(num, c, at, depth);
    var v := ParseValue(num, c, at, depth).value;
    var p := SkipSpace(c, v.offset);
    SkippedIsSpace(c, v.offset);
    assert EntryFound(num, c, q, n, key, colon, at, x, v, p);
    var e := EntryFrom(c, q, n, key, colon, at, x, v, p);
    var item := [Item(key.value, v.value)];
    if c[p] == ',' {
      BehindBoth(item, [], None);
      var rest := EntriesSound(num, c, p + 1, depth);
      var r := ParseMembers(num, c, p + 1, depth).value;
      es := [e] + rest;
      BehindSome(item, r.value, r.offset);
      MoreEntries(num, c, q, n, key, colon, at, x, v, p, rest, r);
    } else {
      es := [e];
      LastEntry(num, c, q, n, key, colon, at, x, v, p);
    }
  }

  lemma {:induction false} EntryText(c: string, q: nat, n: nat, e: nat, colon: nat, at: nat, m: nat, p: nat, end: nat)
    requires q <= n <= e <= colon < at <= m <= p <= end <= |c| && c[colon] == ':'
    ensures c[q..end] == c[q..n] + (c[n..e] + (c[e..colon] + (":" + (c[colon + 1..at] + (c[at..m] + (c[m..p] + c[p..end]))))))
  {
    Split(c, q, n, end);
    Split(c, n, e, end);
    Split(c, e, colon, end);
    Split(c, colon, colon + 1, end);
    assert c[colon..colon + 1] == ":";
    ElementText(c, colon + 1, at, m, p, end);
  }

  lemma {:induction false} LastEntry(num: Numerals, c: string, q: nat, n: nat, key: Parsed<string>, colon: nat, at: nat, x: Syntax,
                                      v: Parsed<Json>, p: nat)
    requires EntryFound(num, c, q, n, key, colon, at, x, v, p) && c[p] == '}'
    ensures var es := [EntryFrom(c, q, n, key, colon, at, x, v, p)];
            EntriesStand(num, c, q, es, Parsed([Item(key.value, v.value)], p + 1)) && EntriesHeight(es) == Height(x)
  {
    hide Text, EntriesText, Meaning, MembersOf, Height, EntriesHeight, Legal, LegalEntries, Space, IsTakenLiteral;
    OneEntry(num, EntryFrom(c, q, n, key, colon, at, x, v, p));
    EntryText(c, q, n, key.offset, colon, at, v.offset, p, p + 1);
    assert c[p..p + 1] == "}";
  }

  lemma {:induction false} OneEntry(num: Numerals, e: Entry)
    ensures EntriesText([e]) == e.before + (e.name + (e.between + (":" + (e.behind + (Text(e.value) + (e.after + "}"))))))
    ensures MembersOf([e]) == [Item(e.key, Meaning(e.value))] && EntriesHeight([e]) == Height(e.value)
    ensures LegalEntries(num, [e], false) <==>
              && Space(e.before, false) && LegalName(e.name, e.key, false) && Space(e.between, false) && Space(e.behind, false)
              && Legal(num, e.value, false) && Space(e.after, false)
  {
    hide Text, Meaning, Height, Legal, Space, LegalName;
    assert [e][1..] == [];
    assert EntryRest([e]) == e.behind + (Text(e.value) + (e.after + "}"));
    assert MembersOf([e]) == [Item(e.key, Meaning(e.value))] + [];
  }

  lemma {:induction false} MoreEntries(num: Numerals, c: string, q: nat, n: nat, key: Parsed<string>, colon: nat, at: nat, x: Syntax,
                                        v: Parsed<Json>, p: nat, rest: seq<Entry>, r: Parsed<seq<Item>>)
    requires EntryFound(num, c, q, n, key, colon, at, x, v, p) && c[p] == ',' && EntriesStand(num, c, p + 1, rest, r)
    ensures var es := [EntryFrom(c, q, n, key, colon, at, x, v, p)] + rest;
            && EntriesStand(num, c, q, es, Parsed([Item(key.value, v.value)] + r.value, r.offset))
            && EntriesHeight(es) == Higher(Height(x), EntriesHeight(rest))
  {
    hide Text, Meaning, Height, Legal, Space, IsTakenLiteral;
    var es := [EntryFrom(c, q, n, key, colon, at, x, v, p)] + rest;
    assert es[1..] == rest;
    assert EntriesTail(es) == "," + EntriesText(rest);
    assert EntryRest(es) == c[colon + 1..at] + (Text(x) + (c[v.offset..p] + EntriesTail(es)));
    hide EntriesTail, EntryRest;
    EntryText(c, q, n, key.offset, colon, at, v.offset, p, r.offset);
    Split(c, p, p + 1, r.offset);
    assert c[p..p + 1] == ",";
  }

  /** What is parsed begins with such a text; if it is asked to end there, only white space follows it. */
  lemma {:induction false} DocumentSound(num: Numerals, c: string, toEnd: bool)
      returns (bom: bool, before: string, s: Syntax, after: string)
    requires IsText(c) && ParseText(num, c, toEnd).Some?
    ensures Legal(num, s, false) && Space(before, false) && Meaning(s) == ParseText(num, c, toEnd).value && Height(s) <= NESTING_LIMIT
    ensures c == (if bom then BOM else []) + (before + (Text(s) + after))
    ensures toEnd ==> after != [] && after[|after| - 1] == '\0' && Space(after[..|after| - 1], false)
  {
    hide ParseValue, SkipSpace, Space, Text, Legal, Height, Meaning;
    var o := BomLength(c);
    bom := o == 3;
    assert c[..o] == if bom then BOM else [];
    var at := SkipSpace(c, o);
    before := c[o..at];
    SkippedIsSpace(c, o);
    s := ValueSound(num, c, at, 0);
    var v := ParseValue(num, c, at, 0).value;
    after := c[v.offset..];
    ElementText(c, 0, o, at, v.offset, |c|);
    assert c[0..|c|] == c && c[0..o] == c[..o] && c[v.offset..|c|] == after;
    if toEnd {
      var p := SkipSpace(c, v.offset);
      SkippedIsSpace(c, v.offset);
      assert p == |c| - 1;
      assert after[..|after| - 1] == c[v.offset..p];
    }
  }
}
