/** A printed value of 3rd/cjson/cJSON.c is a text of the grammar, so that parsing undoes printing. */
module JsonRoundTrip {
  import opened Wrappers
  import opened Json
  import opened JsonStrings
  import opened JsonLiterals
  import opened JsonText
  import opened JsonGrammar

  /** The tree of a printed value. */
  function Printed(num: Numerals, v: Json, format: bool, level: nat): Syntax
    decreases v, 1, 0
  {
    match v
    case Array(_) => List("", PrintedItems(num, v, 0, format, level))
    case Object(_) => Record(NewLine(format) + Indent(format, level), PrintedMembers(num, v, 0, format, level))
    case _ => Scalar(PrintValue(num, v, format, level), v)
  }

  function PrintedItems(num: Numerals, v: Json, i: nat, format: bool, level: nat): seq<Element>
    requires v.Array? && i <= |v.child|
    decreases v, 0, |v.child| - i
  {
    if i == |v.child| then []
    else
      [Element(if format && i > 0 then " " else "", Printed(num, v.child[i].value, format, level + 1), "")]
      + PrintedItems(num, v, i + 1, format, level)
  }

  function PrintedMembers(num: Numerals, v: Json, i: nat, format: bool, level: nat): seq<Entry>
    requires v.Object? && i <= |v.child|
    decreases v, 0, |v.child| - i
  {
    if i == |v.child| then []
    else
      var x := v.child[i];
      [Entry(NewLine(format) + Indent(format, level + 1), PrintString(x.key), x.key, "", if format then "\t" else "",
             Printed(num, x.value, format, level + 1), if i + 1 < |v.child| then "" else NewLine(format) + Indent(format, level))]
      + PrintedMembers(num, v, i + 1, format, level)
  }

  /** Such a tree is legal, its text is the printed one, and it means the value. */
  ghost predicate IsPrinted(num: Numerals, v: Json, format: bool, level: nat) {
    var s := Printed(num, v, format, level);
    Legal(num, s, true) && Text(s) == PrintValue(num, v, format, level) && Meaning(s) == v && Height(s) == Nest(v)
  }

  lemma {:induction false} ValuePrinted(num: Numerals, v: Json, format: bool, level: nat)
    requires Inverse(num) && Printable(v)
    ensures IsPrinted(num, v, format, level)
    decreases v, 1, 0
  {
    match v
    case Array(_) =>
      ItemsPrinted(num, v, 0, format, level);
      ArrayIsPrinted(num, v, format, level);
    case Object(_) =>
      MembersPrinted(num, v, 0, format, level);
      ObjectIsPrinted(num, v, format, level);
    case _ =>
      ScalarIsPrinted(num, v, format, level);
  }

  lemma {:induction false} ScalarIsPrinted(num: Numerals, v: Json, format: bool, level: nat)
    requires Inverse(num) && Printable(v) && !v.IsContainer()
    ensures IsPrinted(num, v, format, level)
  {
    if v.String? { PrintedName(v.s); }
    if v.Number? {
      assert ReadsBack(num, num.write(v.n), v.n);
      AllNumberCharacters(num.write(v.n));
    }
    hide InNumbers, IsSignOrDigit, StartsNumber, IsNumeric;
    hide IsLiteral, PrintString;
  }

  lemma {:induction false} ArrayIsPrinted(num: Numerals, v: Json, format: bool, level: nat)
    requires v.Array? && ItemsArePrinted(num, v, 0, format, level)
    ensures IsPrinted(num, v, format, level)
  {
    hide PrintedItems, PrintItems, LegalElements, ItemsOf, ElementsText, ElementsHeight, NestFrom;
    assert v.child[0..] == v.child;
    FormatSpace(format, level);
    var es := PrintedItems(num, v, 0, format, level);
    if es == [] { NoElements(num, v, format, level); }
    assert "" + PrintItems(num, v, 0, format, level) == PrintItems(num, v, 0, format, level);
  }

  lemma {:induction false} NoElements(num: Numerals, v: Json, format: bool, level: nat)
    requires v.Array? && v.child == []
    ensures PrintItems(num, v, 0, format, level) == "" + "]"
  {
  }

  lemma {:induction false} ObjectIsPrinted(num: Numerals, v: Json, format: bool, level: nat)
    requires v.Object? && MembersArePrinted(num, v, 0, format, level)
    ensures IsPrinted(num, v, format, level)
  {
    hide PrintedMembers, PrintMembers, LegalEntries, MembersOf, EntriesText, EntriesHeight, NestFrom, NewLine, Indent;
    assert v.child[0..] == v.child;
    FormatSpace(format, level);
    var es := PrintedMembers(num, v, 0, format, level);
    if es == [] { NoEntries(num, v, format, level); }
  }

  lemma {:induction false} NoEntries(num: Numerals, v: Json, format: bool, level: nat)
    requires v.Object? && v.child == []
    ensures NewLine(format) + PrintMembers(num, v, 0, format, level) == (NewLine(format) + Indent(format, level)) + "}"
  {
  }

  ghost predicate ItemsArePrinted(num: Numerals, v: Json, i: nat, format: bool, level: nat)
    requires v.Array? && i <= |v.child|
  {
    var es := PrintedItems(num, v, i, format, level);
    && |es| == |v.child| - i && LegalElements(num, es, true) && ItemsOf(es) == v.child[i..] && ElementsHeight(es) == NestFrom(v, i)
    && ElementsText(es) == (if format && 0 < i < |v.child| then " " else "") + PrintItems(num, v, i, format, level)
  }

  ghost predicate MembersArePrinted(num: Numerals, v: Json, i: nat, format: bool, level: nat)
    requires v.Object? && i <= |v.child|
  {
    var es := PrintedMembers(num, v, i, format, level);
    && |es| == |v.child| - i && LegalEntries(num, es, true) && MembersOf(es) == v.child[i..] && EntriesHeight(es) == NestFrom(v, i)
    && (i < |v.child| ==> EntriesText(es) == NewLine(format) + PrintMembers(num, v, i, format, level))
  }

  lemma {:induction false} PrintedName(s: string)
    ensures IsLiteral(PrintString(s), s)
  {
    PrintedLiteral(s);
  }

  lemma {:induction false} FormatSpace(format: bool, n: nat)
    ensures Space(NewLine(format) + Indent(format, n), true) && Space(if format then "\t" else "", true)
    ensures Space(if format then " " else "", true)
    ensures Space("", true)
  {
  }

  lemma {:induction false} ItemsPrinted(num: Numerals, v: Json, i: nat, format: bool, level: nat)
    requires Inverse(num) && Printable(v) && v.Array? && i <= |v.child|
    ensures ItemsArePrinted(num, v, i, format, level)
    decreases v, 0, |v.child| - i
  {
    hide Inverse, Legal, Text, Meaning, Height, Printed, PrintValue, Nest, Space;
    var es := PrintedItems(num, v, i, format, level);
    if i < |v.child| {
      var x := v.child[i];
      ItemIsPrintable(v, i);
      ValuePrinted(num, x.value, format, level + 1);
      ItemsPrinted(num, v, i + 1, format, level);
      var rest := PrintedItems(num, v, i + 1, format, level);
      assert es[1..] == rest;
      assert v.child[i..] == [x] + v.child[i + 1..];
      FormatSpace(format, level);
      hide Printable;
      ItemTextIs(num, v, i, format, level, es, rest);
    } else {
      assert "" + "]" == "]";
    }
  }

  lemma {:induction false} ItemIsPrintable(v: Json, i: nat)
    requires Printable(v) && v.IsContainer() && i < |v.child|
    ensures Printable(v.child[i].value) && (v.Array? ==> v.child[i] == Item("", v.child[i].value))
  {
  }

  lemma {:induction false} ItemTextIs(num: Numerals, v: Json, i: nat, format: bool, level: nat, es: seq<Element>, rest: seq<Element>)
    requires v.Array? && i < |v.child| && es == PrintedItems(num, v, i, format, level) && rest == PrintedItems(num, v, i + 1, format, level)
    requires |es| == |v.child| - i && |rest| == |v.child| - i - 1 && es[1..] == rest
    requires Text(es[0].value) == PrintValue(num, v.child[i].value, format, level + 1)
    requires ElementsText(rest) == (if format && i + 1 < |v.child| then " " else "") + PrintItems(num, v, i + 1, format, level)
    ensures ElementsText(es) == (if format && i > 0 then " " else "") + PrintItems(num, v, i, format, level)
  {
    hide Text, PrintValue, Printed;
    var t, more := Text(es[0].value), PrintItems(num, v, i + 1, format, level);
    var w := if format && i > 0 then " " else "";
    assert es[0].before == w && es[0].after == "";
    if i + 1 < |v.child| {
      assert ElementsTail(es) == "," + ((if format then " " else "") + more);
      assert PrintItems(num, v, i, format, level) == t + ((if format then ", " else ",") + more);
      assert (if format then ", " else ",") + more == "," + ((if format then " " else "") + more);
    } else {
      assert ElementsTail(es) == "]" && more == "]";
      assert PrintItems(num, v, i, format, level) == t + ("" + "]");
    }
    hide PrintItems, ElementsTail;
    assert w + (t + ("" + ElementsTail(es))) == w + (t + ElementsTail(es));
  }

  lemma {:induction false} MembersPrinted(num: Numerals, v: Json, i: nat, format: bool, level: nat)
    requires Inverse(num) && Printable(v) && v.Object? && i <= |v.child|
    ensures MembersArePrinted(num, v, i, format, level)
    decreases v, 0, |v.child| - i
  {
    hide Inverse, Legal, Text, Meaning, Height, Printed, PrintValue, Nest, Space, NewLine, Indent, PrintString, PrintMembers, IsLiteral;
    var es := PrintedMembers(num, v, i, format, level);
    if i < |v.child| {
      var x := v.child[i];
      ItemIsPrintable(v, i);
      ValuePrinted(num, x.value, format, level + 1);
      MembersPrinted(num, v, i + 1, format, level);
      PrintedName(x.key);
      var rest := PrintedMembers(num, v, i + 1, format, level);
      assert es[1..] == rest;
      assert v.child[i..] == [x] + v.child[i + 1..];
      FormatSpace(format, level);
      FormatSpace(format, level + 1);
      hide Printable;
      MemberTextIs(num, v, i, format, level, es, rest);
    }
  }

  lemma {:induction false} MemberTextIs(num: Numerals, v: Json, i: nat, format: bool, level: nat, es: seq<Entry>, rest: seq<Entry>)
    requires v.Object? && i < |v.child| && es == PrintedMembers(num, v, i, format, level)
    requires rest == PrintedMembers(num, v, i + 1, format, level)
    requires |es| == |v.child| - i && |rest| == |v.child| - i - 1 && es[1..] == rest
    requires Text(es[0].value) == PrintValue(num, v.child[i].value, format, level + 1)
    requires i + 1 < |v.child| ==> EntriesText(rest) == NewLine(format) + PrintMembers(num, v, i + 1, format, level)
    ensures EntriesText(es) == NewLine(format) + PrintMembers(num, v, i, format, level)
  {
    hide Text, PrintValue, Printed, PrintString, NewLine, Indent;
    var x := v.child[i];
    var nl, ind, t := NewLine(format), Indent(format, level + 1), Text(es[0].value);
    var more := PrintMembers(num, v, i + 1, format, level);
    var colon := if format then ":\t" else ":";
    var behind := if format then "\t" else "";
    var tail := es[0].after + EntriesTail(es);
    assert PrintMembers(num, v, i, format, level)
        == ind + (PrintString(x.key) + (colon + (t + (((if i + 1 < |v.child| then "," else "") + nl) + more))));
    assert ((if i + 1 < |v.child| then "," else "") + nl) + more == tail by {
      if i + 1 < |v.child| {
        assert EntriesTail(es) == "," + (nl + more);
      } else {
        assert EntriesTail(es) == "}" && more == Indent(format, level) + "}";
      }
    }
    hide PrintMembers, EntriesTail;
    assert EntriesText(es) == (nl + ind) + (PrintString(x.key) + ("" + (":" + (behind + (t + tail)))));
    assert colon + (t + tail) == "" + (":" + (behind + (t + tail)));
  }

  // ---------------------------------------------------------------- the layout of formatted text

  /** A new line that begins with n tabs. */
  predicate IsNewLine(w: string, n: nat) { |w| == n + 1 && w[0] == '\n' && forall i :: 1 <= i <= n ==> w[i] == '\t' }

  predicate Breaks(w: string, format: bool, n: nat) { if format then IsNewLine(w, n) else w == "" }

  /** Formatted, the members of an object stand one below the other, indented by one tab more than the object, a tab behind the
      colon and the brace on a line of its own; the items of an array are separated by a blank.  Otherwise there is no white
      space at all. */
  ghost predicate LaidOut(s: Syntax, format: bool, level: nat)
    decreases s
  {
    match s
    case Scalar(_, _) => true
    case List(space, es) => space == "" && ElementsLaidOut(es, format, level, true)
    case Record(space, es) => Breaks(space, format, level) && EntriesLaidOut(es, format, level)
  }

  ghost predicate ElementsLaidOut(es: seq<Element>, format: bool, level: nat, first: bool)
    decreases es
  {
    es != [] ==>
      && es[0].before == (if format && !first then " " else "") && es[0].after == "" && LaidOut(es[0].value, format, level + 1)
      && ElementsLaidOut(es[1..], format, level, false)
  }

  ghost predicate EntriesLaidOut(es: seq<Entry>, format: bool, level: nat)
    decreases es
  {
    es != [] ==>
      && Breaks(es[0].before, format, level + 1) && es[0].between == "" && es[0].behind == (if format then "\t" else "")
      && (if |es| == 1 then Breaks(es[0].after, format, level) else es[0].after == "") && LaidOut(es[0].value, format, level + 1)
      && EntriesLaidOut(es[1..], format, level)
  }

  /** The white space of a printed value. */
  lemma {:induction false} PrintedLayout(num: Numerals, v: Json, format: bool, level: nat)
    ensures LaidOut(Printed(num, v, format, level), format, level)
    decreases v, 1, 0
  {
    if v.Array? { ItemsLayout(num, v, 0, format, level); }
    if v.Object? {
      MembersLayout(num, v, 0, format, level);
      LineIndented(format, level);
    }
    hide PrintedItems, PrintedMembers, ElementsLaidOut, EntriesLaidOut, NewLine, Indent, Breaks;
  }

  lemma {:induction false} LineIndented(format: bool, n: nat)
    ensures Breaks(NewLine(format) + Indent(format, n), format, n)
  {
  }

  lemma {:induction false} ItemsLayout(num: Numerals, v: Json, i: nat, format: bool, level: nat)
    requires v.Array? && i <= |v.child|
    ensures ElementsLaidOut(PrintedItems(num, v, i, format, level), format, level, i == 0)
    decreases v, 0, |v.child| - i
  {
    hide Printed, LaidOut;
    if i < |v.child| {
      PrintedLayout(num, v.child[i].value, format, level + 1);
      ItemsLayout(num, v, i + 1, format, level);
      assert PrintedItems(num, v, i, format, level)[1..] == PrintedItems(num, v, i + 1, format, level);
    }
  }

  lemma {:induction false} MembersLayout(num: Numerals, v: Json, i: nat, format: bool, level: nat)
    requires v.Object? && i <= |v.child|
    ensures |PrintedMembers(num, v, i, format, level)| == |v.child| - i
    ensures EntriesLaidOut(PrintedMembers(num, v, i, format, level), format, level)
    decreases v, 0, |v.child| - i
  {
    hide Printed, LaidOut, NewLine, Indent, Breaks, PrintString;
    if i < |v.child| {
      PrintedLayout(num, v.child[i].value, format, level + 1);
      MembersLayout(num, v, i + 1, format, level);
      LineIndented(format, level + 1);
      LineIndented(format, level);
      LineIndented(false, level);
      assert PrintedMembers(num, v, i, format, level)[1..] == PrintedMembers(num, v, i + 1, format, level);
    }
  }

  /** The printed text is a text of the grammar, laid out in this way, that means the value. */
  lemma {:induction false} PrintedText(num: Numerals, v: Json, format: bool)
    requires Inverse(num) && Printable(v)
    ensures var s := Printed(num, v, format, 0);
            Text(s) == PrintValue(num, v, format, 0) && Legal(num, s, true) && LaidOut(s, format, 0) && Meaning(s) == v && Height(s) == Nest(v)
  {
    ValuePrinted(num, v, format, 0);
    PrintedLayout(num, v, format, 0);
    hide Printed, PrintValue, Text, Legal, Height, Meaning, Nest;
  }

  /** cJSON_Parse of what cJSON_Print gives, formatted or not, is the tree again, unless it is nested too
      deeply: then it is refused. */
  lemma {:induction false} TextRoundTrip(num: Numerals, v: Json, format: bool, toEnd: bool)
    requires Inverse(num) && Printable(v)
    ensures ParseText(num, PrintValue(num, v, format, 0) + ['\0'], toEnd) == if Nest(v) <= NESTING_LIMIT then Some(v) else None
  {
    ValuePrinted(num, v, format, 0);
    FormatSpace(format, 0);
    var s := Printed(num, v, format, 0);
    hide Printed, PrintValue, Text, Legal, Height, Meaning, Nest, ParseText;
    assert Document(false, "", s, "") == Text(s) + ['\0'];
    DocumentParsed(num, false, "", s, "", toEnd);
  }
}
