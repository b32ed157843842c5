/** JSON text of 3rd/cjson/cJSON.c: what parse_value reads and what print_value writes, and the proof that
    parsing undoes printing.  The text of numbers is left to a pair of functions. */
module JsonText {
  import opened Wrappers
  import opened CStrings
  import opened Json
  import opened JsonStrings

  /** CJSON_NESTING_LIMIT */
  const NESTING_LIMIT := 1000

  /** The text ends with the NUL that ends a C string. */
  predicate IsText(c: string) { c != [] && c[|c| - 1] == '\0' }

  // ---------------------------------------------------------------- numbers

  /** What sprintf and strtod do: read gives the number and how many characters it took, 0 if there is none. */
  datatype Numerals = Numerals(write: int -> string, read: string -> (int, nat))

  predicate IsNumeric(x: char) { '0' <= x <= '9' || x == '+' || x == '-' || x == 'e' || x == 'E' || x == '.' }

  predicate StartsNumber(x: char) { x == '-' || '0' <= x <= '9' }

  /** How many characters parse_number copies. */
  function NumberRun(c: string, o: nat, limit: nat): (n: nat)
    requires o <= |c|
    ensures n <= limit && o + n <= |c| && forall i :: o <= i < o + n ==> IsNumeric(c[i])
    decreases limit
  {
    if limit == 0 || o == |c| || !IsNumeric(c[o]) then 0 else 1 + NumberRun(c, o + 1, limit - 1)
  }

  /** A printed number is short, made of the characters of numbers, and read back. */
  ghost predicate Inverse(num: Numerals) {
    forall n: int :: ReadsBack(num, num.write(n), n)
  }

  ghost predicate ReadsBack(num: Numerals, text: string, n: int) {
    0 < |text| <= 25 && StartsNumber(text[0]) && (forall i :: 0 <= i < |text| ==> IsNumeric(text[i])) && num.read(text) == (n, |text|)
  }

  function ParseNumber(num: Numerals, c: string, o: nat): (r: Option<Parsed<int>>)
    requires o <= |c|
    ensures r.Some? ==> o < r.value.offset <= |c| && forall i :: o <= i < r.value.offset ==> IsNumeric(c[i])
  {
    var n := NumberRun(c, o, 63);
    var (value, taken) := num.read(c[o..o + n]);
    if taken == 0 || taken > n then None else Some(Parsed(value, o + taken))
  }

  // ---------------------------------------------------------------- parsing

  /** buffer_skip_whitespace: at the end it steps back on the NUL. */
  function SkipSpace(c: string, o: nat): (p: nat)
    requires IsText(c) && o < |c|
    ensures o <= p < |c| && (forall i :: o <= i < p ==> c[i] as int <= 32) && (c[p] as int > 32 || p == |c| - 1)
    decreases |c| - o
  {
    if c[o] as int > 32 || o == |c| - 1 then o else SkipSpace(c, o + 1)
  }

  predicate Reads(c: string, o: nat, word: string) { o + |word| <= |c| && c[o..o + |word|] == word }

  /** parse_value */
  function ParseValue(num: Numerals, c: string, o: nat, depth: nat): (r: Option<Parsed<Json>>)
    requires IsText(c) && o < |c|
    ensures r.Some? ==> o < r.value.offset < |c|
    decreases |c| - o, 1
  {
    if Reads(c, o, "null") then WordEnds(c, o, "null"); Some(Parsed(Null, o + 4))
    else if Reads(c, o, "false") then WordEnds(c, o, "false"); Some(Parsed(False, o + 5))
    else if Reads(c, o, "true") then WordEnds(c, o, "true"); Some(Parsed(True, o + 4))
    else if c[o] == QUOTE then
      var s := ParseStringAt(c, o);
      if s.None? then None else Some(Parsed(String(s.value.value), s.value.offset))
    else if StartsNumber(c[o]) then
      var n := ParseNumber(num, c, o);
      if n.None? then None else Some(Parsed(Number(n.value.value), n.value.offset))
    else if c[o] == '[' then
      if depth >= NESTING_LIMIT then None
      else
        var p := SkipSpace(c, o + 1);
        if c[p] == ']' then Some(Parsed(Array([]), p + 1))
        else
          var items := ParseItems(num, c, p, depth + 1);
          if items.None? then None else Some(Parsed(Array(items.value.value), items.value.offset))
    else if c[o] == '{' then
      if depth >= NESTING_LIMIT then None
      else
        var p := SkipSpace(c, o + 1);
        if c[p] == '}' then Some(Parsed(Object([]), p + 1))
        else
          var items := ParseMembers(num, c, p, depth + 1);
          if items.None? then None else Some(Parsed(Object(items.value.value), items.value.offset))
    else None
  }

  lemma WordEnds(c: string, o: nat, word: string)
    requires IsText(c) && Reads(c, o, word) && word != [] && word[|word| - 1] != '\0'
    ensures o + |word| < |c|
  {
    assert c[o..o + |word|][|word| - 1] == c[o + |word| - 1];
  }

  /** The values of an array from q on, and its closing bracket. */
  function ParseItems(num: Numerals, c: string, q: nat, depth: nat): (r: Option<Parsed<seq<Item>>>)
    requires IsText(c) && q < |c|
    ensures r.Some? ==> q < r.value.offset < |c|
    decreases |c| - q, 2
  {
    var v := ParseValue(num, c, SkipSpace(c, q), depth);
    if v.None? then None
    else
      var p := SkipSpace(c, v.value.offset);
      var item := Item("", v.value.value);
      if c[p] == ',' then
        var rest := ParseItems(num, c, p + 1, depth);
        if rest.None? then None else Some(Parsed([item] + rest.value.value, rest.value.offset))
      else if c[p] == ']' then Some(Parsed([item], p + 1))
      else None
  }

  /** The members of an object from q on, and its closing brace. */
  function ParseMembers(num: Numerals, c: string, q: nat, depth: nat): (r: Option<Parsed<seq<Item>>>)
    requires IsText(c) && q < |c|
    ensures r.Some? ==> q < r.value.offset < |c|
    decreases |c| - q, 2
  {
    var s := ParseStringAt(c, SkipSpace(c, q));
    if s.None? then None
    else
      QuoteEnds(c, SkipSpace(c, q));
      var colon := SkipSpace(c, s.value.offset);
      if c[colon] != ':' then None
      else
        var v := ParseValue(num, c, SkipSpace(c, colon + 1), depth);
        if v.None? then None
        else
          var p := SkipSpace(c, v.value.offset);
          var item := Item(s.value.value, v.value.value);
          if c[p] == ',' then
            var rest := ParseMembers(num, c, p + 1, depth);
            if rest.None? then None else Some(Parsed([item] + rest.value.value, rest.value.offset))
          else if c[p] == '}' then Some(Parsed([item], p + 1))
          else None
  }

  lemma QuoteEnds(c: string, o: nat)
    requires IsText(c) && ParseStringAt(c, o).Some?
    ensures ParseStringAt(c, o).value.offset < |c|
  {
  }

  /** What was read already, in front of the rest. */
  function Behind(items: seq<Item>, r: Option<Parsed<seq<Item>>>): Option<Parsed<seq<Item>>> {
    if r.None? then None else Some(Parsed(items + r.value.value, r.value.offset))
  }

  lemma BehindBoth(a: seq<Item>, b: seq<Item>, r: Option<Parsed<seq<Item>>>)
    ensures Behind(a, Behind(b, r)) == Behind(a + b, r)
    ensures Behind([], r) == r && Behind(a, None) == None
  {
    if r.Some? {
      assert a + (b + r.value.value) == (a + b) + r.value.value;
      assert [] + r.value.value == r.value.value;
    }
  }

  /** One step of the loop of parse_array. */
  lemma ItemsStep(num: Numerals, c: string, q: nat, depth: nat)
    requires IsText(c) && q < |c|
    ensures var v := ParseValue(num, c, SkipSpace(c, q), depth);
            if v.None? then ParseItems(num, c, q, depth).None?
            else
              var p := SkipSpace(c, v.value.offset);
              var item := [Item("", v.value.value)];
              if c[p] == ',' then p + 1 < |c| && ParseItems(num, c, q, depth) == Behind(item, ParseItems(num, c, p + 1, depth))
              else ParseItems(num, c, q, depth) == if c[p] == ']' then Some(Parsed(item, p + 1)) else None
  {
    hide ParseValue, SkipSpace;
  }

  /** One step of the loop of parse_object. */
  lemma MembersStep(num: Numerals, c: string, q: nat, depth: nat)
    requires IsText(c) && q < |c|
    ensures var s := ParseStringAt(c, SkipSpace(c, q));
            if s.None? || c[SkipSpace(c, s.value.offset)] != ':' then ParseMembers(num, c, q, depth).None?
            else
              var colon := SkipSpace(c, s.value.offset);
              colon + 1 < |c| && ParseMembers(num, c, q, depth) == AfterColon(num, c, s.value.value, colon + 1, depth)
    ensures ParseStringAt(c, SkipSpace(c, q)).Some? ==> ParseStringAt(c, SkipSpace(c, q)).value.offset < |c|
  {
    hide ParseValue, SkipSpace, ParseStringAt;
    if ParseStringAt(c, SkipSpace(c, q)).Some? { QuoteEnds(c, SkipSpace(c, q)); }
  }

  /** The value of a member, and what comes behind it. */
  function AfterColon(num: Numerals, c: string, name: string, o: nat, depth: nat): Option<Parsed<seq<Item>>>
    requires IsText(c) && o < |c|
  {
    var v := ParseValue(num, c, SkipSpace(c, o), depth);
    if v.None? then None
    else
      var p := SkipSpace(c, v.value.offset);
      var item := [Item(name, v.value.value)];
      if c[p] == ',' then Behind(item, ParseMembers(num, c, p + 1, depth))
      else if c[p] == '}' then Some(Parsed(item, p + 1))
      else None
  }

  lemma AfterColonIs(num: Numerals, c: string, name: string, o: nat, depth: nat)
    requires IsText(c) && o < |c|
    ensures var v := ParseValue(num, c, SkipSpace(c, o), depth);
            if v.None? then AfterColon(num, c, name, o, depth) == None
            else
              var p := SkipSpace(c, v.value.offset);
              var item := [Item(name, v.value.value)];
              if c[p] == ',' then p + 1 < |c| && AfterColon(num, c, name, o, depth) == Behind(item, ParseMembers(num, c, p + 1, depth))
              else AfterColon(num, c, name, o, depth) == if c[p] == '}' then Some(Parsed(item, p + 1)) else None
  {
    hide ParseValue, ParseMembers, SkipSpace;
  }

  // ---------------------------------------------------------------- printing

  function Tabs(n: nat): (s: string)
    ensures |s| == n && forall i :: 0 <= i < n ==> s[i] == '\t'
  {
    seq(n, _ => '\t')
  }

  function NewLine(format: bool): string { if format then "\n" else "" }

  function Indent(format: bool, n: nat): string { if format then Tabs(n) else "" }

  /** print_value of something that is not Invalid; depth is how deep it is nested. */
  function PrintValue(num: Numerals, v: Json, format: bool, depth: nat): string
    decreases v, 1, 0
  {
    match v
    case Invalid => ""
    case Null => "null"
    case False => "false"
    case True => "true"
    case Number(n) => num.write(n)
    case String(s) => PrintString(s)
    case Array(c) => "[" + PrintItems(num, v, 0, format, depth)
    case Object(c) => "{" + (NewLine(format) + PrintMembers(num, v, 0, format, depth))
  }

  /** The items from i on and the closing bracket. */
  function PrintItems(num: Numerals, v: Json, i: nat, format: bool, depth: nat): string
    requires v.Array? && i <= |v.child|
    decreases v, 0, |v.child| - i
  {
    if i == |v.child| then "]"
    else
      PrintValue(num, v.child[i].value, format, depth + 1)
      + ((if i + 1 < |v.child| then (if format then ", " else ",") else "") + PrintItems(num, v, i + 1, format, depth))
  }

  /** The members from i on and the closing brace. */
  function PrintMembers(num: Numerals, v: Json, i: nat, format: bool, depth: nat): string
    requires v.Object? && i <= |v.child|
    decreases v, 0, |v.child| - i
  {
    if i == |v.child| then Indent(format, depth) + "}"
    else
      Indent(format, depth + 1)
      + (PrintString(v.child[i].key)
      + ((if format then ":\t" else ":")
      + (PrintValue(num, v.child[i].value, format, depth + 1)
      + (((if i + 1 < |v.child| then "," else "") + NewLine(format)) + PrintMembers(num, v, i + 1, format, depth)))))
  }

  // ---------------------------------------------------------------- what stands in a text

  /** The text of v stands at o, and nothing that could belong to a number follows. */
  predicate StandsAt(c: string, o: nat, text: string) {
    IsText(c) && o + |text| < |c| && c[o..o + |text|] == text
  }

  lemma StandsParts(c: string, o: nat, a: string, b: string)
    requires StandsAt(c, o, a + b)
    ensures StandsAt(c, o, a) && StandsAt(c, o + |a|, b)
  {
    CutInTwo(c, o, o + |a + b|, a, b);
  }

  lemma FirstStands(c: string, o: nat, a: string)
    requires StandsAt(c, o, a) && a != []
    ensures c[o] == a[0]
  {
    assert c[o..o + |a|][0] == c[o];
  }

  /** White space is skipped up to what follows it. */
  lemma {:induction false} SkipsSpace(c: string, o: nat, w: string)
    requires StandsAt(c, o, w) && (forall i :: 0 <= i < |w| ==> w[i] as int <= 32) && c[o + |w|] as int > 32
    ensures SkipSpace(c, o) == o + |w|
    decreases |w|
  {
    if w != [] {
      FirstStands(c, o, w);
      assert w == [w[0]] + w[1..];
      StandsParts(c, o, [w[0]], w[1..]);
      SkipsSpace(c, o + 1, w[1..]);
    }
  }

  lemma {:induction false} RunIs(c: string, o: nat, text: string, limit: nat)
    requires StandsAt(c, o, text) && |text| <= limit && (forall i :: 0 <= i < |text| ==> IsNumeric(text[i])) && !IsNumeric(c[o + |text|])
    ensures NumberRun(c, o, limit) == |text|
    decreases |text|
  {
    if text != [] {
      FirstStands(c, o, text);
      assert text == [text[0]] + text[1..];
      StandsParts(c, o, [text[0]], text[1..]);
      RunIs(c, o + 1, text[1..], limit - 1);
    }
  }

  lemma WordFirst(c: string, o: nat, word: string)
    requires o < |c| && word != []
    ensures Reads(c, o, word) ==> c[o] == word[0]
  {
    if Reads(c, o, word) { assert c[o..o + |word|][0] == c[o]; }
  }

  /** Words are recognised by their first letter. */
  lemma NotAWord(c: string, o: nat)
    requires o < |c| && c[o] !in ['n', 'f', 't']
    ensures !Reads(c, o, "null") && !Reads(c, o, "false") && !Reads(c, o, "true")
  {
    WordFirst(c, o, "null");
    WordFirst(c, o, "false");
    WordFirst(c, o, "true");
  }

  lemma ParseWordIs(num: Numerals, c: string, o: nat, depth: nat)
    requires IsText(c) && o < |c|
    ensures Reads(c, o, "null") ==> ParseValue(num, c, o, depth) == Some(Parsed(Null, o + 4))
    ensures Reads(c, o, "false") ==> ParseValue(num, c, o, depth) == Some(Parsed(False, o + 5))
    ensures Reads(c, o, "true") ==> ParseValue(num, c, o, depth) == Some(Parsed(True, o + 4))
  {
    hide ParseItems, ParseMembers, ParseStringAt, ParseNumber, SkipSpace;
    WordFirst(c, o, "null");
    WordFirst(c, o, "false");
    WordFirst(c, o, "true");
  }

  lemma ParseScalarIs(num: Numerals, c: string, o: nat, depth: nat)
    requires IsText(c) && o < |c|
    ensures c[o] == QUOTE ==>
              var s := ParseStringAt(c, o);
              ParseValue(num, c, o, depth) == if s.None? then None else Some(Parsed(String(s.value.value), s.value.offset))
    ensures StartsNumber(c[o]) ==>
              var n := ParseNumber(num, c, o);
              ParseValue(num, c, o, depth) == if n.None? then None else Some(Parsed(Number(n.value.value), n.value.offset))
  {
    hide ParseItems, ParseMembers, ParseStringAt, ParseNumber, SkipSpace, Reads;
    if c[o] !in ['n', 'f', 't'] { NotAWord(c, o); }
  }

  lemma ParseContainerIs(num: Numerals, c: string, o: nat, depth: nat)
    requires IsText(c) && o + 1 < |c| && depth < NESTING_LIMIT
    ensures c[o] == '[' ==>
              var p := SkipSpace(c, o + 1); var items := ParseItems(num, c, p, depth + 1);
              ParseValue(num, c, o, depth) ==
                if c[p] == ']' then Some(Parsed(Array([]), p + 1))
                else if items.None? then None else Some(Parsed(Array(items.value.value), items.value.offset))
    ensures c[o] == '{' ==>
              var p := SkipSpace(c, o + 1); var items := ParseMembers(num, c, p, depth + 1);
              ParseValue(num, c, o, depth) ==
                if c[p] == '}' then Some(Parsed(Object([]), p + 1))
                else if items.None? then None else Some(Parsed(Object(items.value.value), items.value.offset))
  {
    hide ParseItems, ParseMembers, ParseStringAt, ParseNumber, SkipSpace, Reads;
    if c[o] !in ['n', 'f', 't'] { NotAWord(c, o); }
  }

  lemma NoSpace(c: string, o: nat)
    requires IsText(c) && o < |c| && c[o] as int > 32
    ensures SkipSpace(c, o) == o
  {
  }

  predicate IsSpace(w: string) { forall i :: 0 <= i < |w| ==> w[i] as int <= 32 }

  /** White space w, then text that does not begin with any. */
  lemma SpaceThenText(c: string, q: nat, w: string, text: string)
    requires StandsAt(c, q, w + text) && IsSpace(w) && text != [] && text[0] as int > 32
    ensures SkipSpace(c, q) == q + |w| && StandsAt(c, q + |w|, text) && c[q + |w|] == text[0]
  {
    StandsParts(c, q, w, text);
    FirstStands(c, q + |w|, text);
    SkipsSpace(c, q, w);
  }

  lemma SkippedAlready(c: string, q: nat)
    requires IsText(c) && q < |c|
    ensures SkipSpace(c, SkipSpace(c, q)) == SkipSpace(c, q)
  {
    var p := SkipSpace(c, q);
    assert c[p] as int > 32 || p == |c| - 1;
  }

  lemma RefusesContainer(num: Numerals, c: string, o: nat, depth: nat)
    requires IsText(c) && o < |c| && (c[o] == '[' || c[o] == '{') && depth >= NESTING_LIMIT
    ensures ParseValue(num, c, o, depth) == None
  {
    hide ParseItems, ParseMembers, ParseStringAt, ParseNumber, SkipSpace, Reads;
    NotAWord(c, o);
  }

  // ---------------------------------------------------------------- documents

  /** skip_utf8_bom */
  function BomLength(c: string): nat {
    if |c| > 4 && c[..3] == ['\U{EF}', '\U{BB}', '\U{BF}'] then 3 else 0
  }

  /** cJSON_ParseWithOpts; toEnd asks that nothing but white space follows the value. */
  function ParseText(num: Numerals, c: string, toEnd: bool): Option<Json>
    requires IsText(c)
  {
    var v := ParseValue(num, c, SkipSpace(c, BomLength(c)), 0);
    if v.None? || (toEnd && c[SkipSpace(c, v.value.offset)] != '\0') then None else Some(v.value.value)
  }

  // ---------------------------------------------------------------- printed trees

  /** How deep containers are nested. */
  function Nest(v: Json): nat
    decreases v, 1, 0
  {
    if v.IsContainer() then 1 + NestFrom(v, 0) else 0
  }

  function NestFrom(v: Json, i: nat): nat
    requires v.IsContainer() && i <= |v.child|
    decreases v, 0, |v.child| - i
  {
    if i == |v.child| then 0
    else
      var a, b := Nest(v.child[i].value), NestFrom(v, i + 1);
      if a > b then a else b
  }

  /** Trees as the parser builds them: items of an array have no name. */
  ghost predicate Printable(v: Json) {
    match v
    case Invalid => false
    case Array(c) => forall i :: 0 <= i < |c| ==> c[i].key == "" && Printable(c[i].value)
    case Object(c) => forall i :: 0 <= i < |c| ==> Printable(c[i].value)
    case _ => true
  }
}
