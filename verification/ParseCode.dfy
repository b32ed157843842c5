/** The parser of 3rd/cjson/cJSON.c on its buffer: offset and depth change step by step, strings are decoded
    into memory of the size computed before.  JsonText and JsonStrings say what it computes. */
module ParseCode {
  import opened Wrappers
  import opened Json
  import opened Unicode
  import opened JsonStrings
  import opened JsonText

  /** parse_buffer; a successful parse leaves depth as it was. */
  class ParseBuffer {
    const content: string
    const num: Numerals
    var offset: nat
    var depth: nat

    constructor (content: string, num: Numerals)
      ensures this.content == content && this.num == num && offset == 0 && depth == 0
    {
      this.content := content;
      this.num := num;
      offset := 0;
      depth := 0;
    }

    predicate Valid()
      reads this
    {
      IsText(content) && offset < |content|
    }

    /** buffer_skip_whitespace */
    method SkipWhitespace()
      requires Valid()
      modifies `offset
      ensures Valid() && offset == SkipSpace(content, old(offset))
    {
      while offset < |content| && content[offset] as int <= 32
        invariant offset <= |content| && (offset < |content| ==> SkipSpace(content, offset) == SkipSpace(content, old(offset)))
        invariant offset == |content| ==> SkipSpace(content, old(offset)) == |content| - 1
        decreases |content| - offset
      {
        offset := offset + 1;
      }
      if offset == |content| {
        offset := offset - 1;
      }
    }

    /** The sizing scan of parse_string: the closing quote, and how many backslashes it skipped. */
    method FindEnd(start: nat) returns (end: Option<nat>, skipped: nat)
      requires start <= |content|
      ensures end == StringEnd(content, start)
      ensures end.Some? ==> end.value - start - skipped == Tokens(content, start, end.value) && !Inside(content, start, end.value)
    {
      skipped := 0;
      var e := start;
      while e < |content| && content[e] != QUOTE
        invariant start <= e <= |content| && StringEnd(content, e) == StringEnd(content, start)
        invariant e - start - skipped == Tokens(content, start, e) && !Inside(content, start, e)
        decreases |content| - e
      {
        TokenStep(content, start, e);
        if content[e] == BACKSLASH {
          if e + 1 >= |content| {
            return None, skipped;
          }
          TokenStep(content, start, e + 1);
          skipped := skipped + 1;
          e := e + 1;
        }
        e := e + 1;
      }
      return if e >= |content| then None else Some(e), skipped;
    }

    /** parse_string.  The output has room for what the sizing scan counted and the terminator; every write
        stays inside, and before the terminator, for every input. */
    method ParseString() returns (r: Option<string>)
      requires Valid()
      modifies `offset
      ensures r.None? <==> ParseStringAt(content, old(offset)).None?
      ensures r.Some? ==> Valid() && ParseStringAt(content, old(offset)) == Some(Parsed(r.value, offset))
    {
      var start := offset + 1;
      if content[offset] != QUOTE {
        offset := start;
        return None;
      }
      var inputEnd, skipped := FindEnd(start);
      if inputEnd.None? {
        offset := start;
        return None;
      }
      var end := inputEnd.value;
      var allocationLength := end - offset - skipped;
      var output := new char[allocationLength + 1];
      assert allocationLength == Tokens(content, start, end) + 1;
      var p;
      r, p := Decode(start, end, output);
      offset := if r.Some? then end + 1 else p;
    }

    /** The decoding scan of parse_string; p is where it stops. */
    method Decode(start: nat, end: nat, output: array<char>) returns (r: Option<string>, p: nat)
      requires start <= end < |content| && !Inside(content, start, end) && output.Length == Tokens(content, start, end) + 2
      modifies output
      ensures r == DecodeFrom(content, start, end)
    {
      hide DecodeFrom, Room, Tokens, Inside, Convert;
      var out := 0;
      p := start;
      RoomStarts(start);
      assert Prepend([], DecodeFrom(content, start, end)) == DecodeFrom(content, start, end) by { PrependNothing(DecodeFrom(content, start, end)); }
      assert output[..0] == [];
      while p < end
        invariant start <= p && 0 <= out < output.Length && Fits(start, end, p, out)
        invariant Prepend(output[..out], DecodeFrom(content, p, end)) == DecodeFrom(content, start, end)
        decreases end - p
      {
        DecodeIs(p, end);
        FitsWithin(start, end, p, out);
        if content[p] != BACKSLASH {
          FitsNormal(start, end, p, out);
          PrependBoth(output[..out], [content[p]], DecodeFrom(content, p + 1, end));
          output[out] := content[p];
          assert output[..out + 1] == output[..out] + [content[p]];
          out, p := out + 1, p + 1;
        } else if content[p + 1] == 'u' {
          if Convert(content[p..end]).Some? { FitsUnit(start, end, p, out); }
          ghost var before := output[..out];
          var length, out' := Utf16LiteralToUtf8(content, p, end, output, out);
          if length == 0 {
            return None, p;
          }
          PrependBoth(before, Convert(content[p..end]).value.bytes, DecodeFrom(content, p + length, end));
          out, p := out', p + length;
        } else {
          var x := Unescaped(content[p + 1]);
          if x.None? {
            return None, p;
          }
          FitsEscape(start, end, p, out);
          PrependBoth(output[..out], [x.value], DecodeFrom(content, p + 2, end));
          output[out] := x.value;
          assert output[..out + 1] == output[..out] + [x.value];
          out, p := out + 1, p + 2;
        }
      }
      DecodeIs(p, end);
      assert output[..out] + [] == output[..out];
      r := Some(output[..out]);
      output[out] := '\0';
    }

    /** What is written so far fits in the room of the position reached. */
    ghost predicate Fits(start: nat, end: nat, p: nat, out: nat)
      requires end < |content|
    {
      && (p <= end ==> out <= Room(content, start, p)) && (p > end ==> p == end + 1 && out <= Tokens(content, start, end))
      && start <= end && !Inside(content, start, end)
    }

    lemma RoomStarts(start: nat)
      requires start <= |content|
      ensures Room(content, start, start) == 0
    {
    }

    lemma PrependNothing(r: Option<string>)
      ensures Prepend([], r) == r
    {
      if r.Some? { assert [] + r.value == r.value; }
    }

    lemma PrependBoth(a: string, b: string, r: Option<string>)
      ensures Prepend(a, Prepend(b, r)) == Prepend(a + b, r)
      ensures Prepend(a, None) == None
    {
      if r.Some? { assert a + (b + r.value) == (a + b) + r.value; }
    }

    lemma DecodeIs(p: nat, end: nat)
      requires end < |content|
      ensures DecodeFrom(content, p, end) ==
                if p >= end then Some([])
                else if content[p] != BACKSLASH then Prepend([content[p]], DecodeFrom(content, p + 1, end))
                else if content[p + 1] == 'u' then
                  var r := Convert(content[p..end]);
                  if r.None? then None else Prepend(r.value.bytes, DecodeFrom(content, p + r.value.length, end))
                else if Unescaped(content[p + 1]).Some? then Prepend([Unescaped(content[p + 1]).value], DecodeFrom(content, p + 2, end))
                else None
    {
      hide Convert, Unescaped;
    }

    lemma FitsWithin(start: nat, end: nat, p: nat, out: nat)
      requires end < |content| && start <= p < end && Fits(start, end, p, out)
      ensures out <= Tokens(content, start, end)
    {
      RoomGrows(content, start, p, end - p);
    }

    lemma FitsNormal(start: nat, end: nat, p: nat, out: nat)
      requires end < |content| && start <= p < end && Fits(start, end, p, out) && content[p] != BACKSLASH
      ensures Fits(start, end, p + 1, out + 1) && out + 1 <= Tokens(content, start, end)
    {
      RoomStep(content, start, p);
      RoomGrows(content, start, p + 1, end - (p + 1));
    }

    lemma FitsEscape(start: nat, end: nat, p: nat, out: nat)
      requires end < |content| && start <= p < end && Fits(start, end, p, out) && content[p] == BACKSLASH
      ensures Fits(start, end, p + 2, out + 1) && out + 1 <= Tokens(content, start, end)
    {
      RoomStep(content, start, p);
      if p + 1 < end {
        RoomStep(content, start, p + 1);
        RoomGrows(content, start, p + 2, end - (p + 2));
      }
    }

    lemma FitsUnit(start: nat, end: nat, p: nat, out: nat)
      requires end < |content| && start <= p && p + 1 < end && Fits(start, end, p, out) && content[p + 1] == 'u'
      requires Convert(content[p..end]).Some?
      ensures var r := Convert(content[p..end]).value;
              && p + r.length <= end && Fits(start, end, p + r.length, out + |r.bytes|)
              && out + |r.bytes| <= Tokens(content, start, end)
    {
      var r := Convert(content[p..end]).value;
      UnitBytes(content[p..end]);
      RoomForUnit(content, start, p, r.length);
      RoomGrows(content, start, p + r.length, end - (p + r.length));
    }

    /** parse_number: what may belong to the number is copied out first. */
    method ParseNumberText() returns (r: Option<int>)
      requires Valid()
      modifies `offset
      ensures r.None? <==> ParseNumber(num, content, old(offset)).None?
      ensures r.Some? ==> Valid() && ParseNumber(num, content, old(offset)) == Some(Parsed(r.value, offset))
    {
      hide NumberRun, IsNumeric;
      var copy := new char[64];
      var i := CopyNumber(copy);
      var (value, taken) := num.read(copy[..i]);
      if taken == 0 || taken > i {
        return None;
      }
      NumbersEnd(i);
      offset := offset + taken;
      return Some(value);
    }

    method CopyNumber(copy: array<char>) returns (i: nat)
      requires Valid() && copy.Length == 64
      modifies copy
      ensures i == NumberRun(content, offset, 63) && copy[..i] == content[offset..offset + i]
    {
      hide NumberRun, IsNumeric;
      var c, o := content, offset;
      ghost var run := NumberRun(c, o, 63);
      i := 0;
      RunNext(o, 63, 0);
      while i < copy.Length - 1 && o + i < |c| && IsNumeric(c[o + i])
        invariant 0 <= i < copy.Length && o + i <= |c| && i <= run
        invariant i < run <==> i < 63 && o + i < |c| && IsNumeric(c[o + i])
        invariant Copied(copy[..], c, o, i)
      {
        CopiedNext(copy[..], c, o, i);
        copy[i] := c[o + i];
        i := i + 1;
        RunNext(o, 63, i);
      }
      CopiedAll(copy[..], c, o, i);
      CopiedNext(copy[..], c, o, i);
      copy[i] := '\0';
      assert copy[..i] == copy[..][..i];
    }

    ghost predicate Copied(a: string, c: string, o: nat, n: nat)
    {
      n <= |a| && o + n <= |c| && forall k {:trigger a[k]} :: 0 <= k < n ==> a[k] == c[o + k]
    }

    lemma CopiedNext(a: string, c: string, o: nat, n: nat)
      requires Copied(a, c, o, n) && n < |a|
      ensures o + n < |c| ==> Copied(a[n := c[o + n]], c, o, n + 1)
      ensures a[n := '\0'][..n] == a[..n]
    {
    }

    lemma CopiedAll(a: string, c: string, o: nat, n: nat)
      requires Copied(a, c, o, n)
      ensures a[..n] == c[o..o + n]
    {
    }

    lemma {:induction false} RunNext(o: nat, limit: nat, i: nat)
      requires o <= |content| && i <= NumberRun(content, o, limit)
      ensures o + i <= |content|
      ensures i < NumberRun(content, o, limit) <==> i < limit && o + i < |content| && IsNumeric(content[o + i])
      decreases i
    {
      if i > 0 { RunNext(o + 1, limit - 1, i - 1); }
    }

    lemma NumbersEnd(i: nat)
      requires Valid() && offset + i <= |content| && i <= NumberRun(content, offset, 63)
      ensures offset + i < |content|
    {
      assert content[|content| - 1] == '\0';
    }

    /** parse_value */
    method Parse() returns (r: Option<Json>)
      requires Valid()
      modifies `offset, `depth
      ensures r.None? <==> ParseValue(num, content, old(offset), old(depth)).None?
      ensures r.Some? ==> Valid() && depth == old(depth) && ParseValue(num, content, old(offset), depth) == Some(Parsed(r.value, offset))
      decreases |content| - offset, 1
    {
      hide ParseValue, ParseItems, ParseMembers, ParseNumber, ParseStringAt, SkipSpace, StartsNumber;
      ParseWordIs(num, content, offset, depth);
      ParseScalarIs(num, content, offset, depth);
      if Reads(content, offset, "null") {
        WordEnds(content, offset, "null");
        offset := offset + 4;
        return Some(Null);
      }
      if Reads(content, offset, "false") {
        WordEnds(content, offset, "false");
        offset := offset + 5;
        return Some(False);
      }
      if Reads(content, offset, "true") {
        WordEnds(content, offset, "true");
        offset := offset + 4;
        return Some(True);
      }
      if content[offset] == QUOTE {
        var s := ParseString();
        return if s.None? then None else Some(String(s.value));
      }
      if StartsNumber(content[offset]) {
        var n := ParseNumberText();
        return if n.None? then None else Some(Number(n.value));
      }
      if content[offset] == '[' {
        r := ParseArray();
      } else if content[offset] == '{' {
        r := ParseObject();
      } else {
        NothingElse(offset, depth);
        r := None;
      }
    }

    lemma NothingElse(o: nat, depth: nat)
      requires Valid() && o < |content|
      requires !Reads(content, o, "null") && !Reads(content, o, "false") && !Reads(content, o, "true")
      requires content[o] != QUOTE && !StartsNumber(content[o]) && content[o] != '[' && content[o] != '{'
      ensures ParseValue(num, content, o, depth).None?
    {
      hide ParseItems, ParseMembers, SkipSpace, ParseStringAt, Reads, ParseNumber;
    }

    /** parse_array */
    method ParseArray() returns (r: Option<Json>)
      requires Valid() && content[offset] == '['
      modifies `offset, `depth
      ensures r.None? <==> ParseValue(num, content, old(offset), old(depth)).None?
      ensures r.Some? ==> Valid() && depth == old(depth) && ParseValue(num, content, old(offset), depth) == Some(Parsed(r.value, offset))
      decreases |content| - offset, 0
    {
      hide ParseValue, ParseItems, ParseMembers, ParseStringAt, SkipSpace, Behind;
      TooDeep(offset, depth);
      if depth >= NESTING_LIMIT {
        return None;
      }
      ParseContainerIs(num, content, offset, depth);
      depth := depth + 1;
      offset := offset + 1;
      SkipWhitespace();
      if content[offset] == ']' {
        NotTheEnd(offset);
        depth := depth - 1;
        offset := offset + 1;
        return Some(Array([]));
      }
      ghost var total := ParseItems(num, content, offset, depth);
      offset := offset - 1;
      var items: seq<Item> := [];
      BehindBoth([], [], total);
      while true
        invariant offset + 1 < |content| && IsText(content) && old(offset) <= offset && depth == old(depth) + 1
        invariant Behind(items, ParseItems(num, content, offset + 1, depth)) == total
        decreases |content| - offset
      {
        offset := offset + 1;
        var item := ParseItem();
        BehindBoth(items, [], None);
        if item.None? {
          return None;
        }
        BehindBoth(items, [item.value], if content[offset] == ',' then ParseItems(num, content, offset + 1, depth) else None);
        BehindOne(items, [item.value], offset + 1);
        items := items + [item.value];
        if content[offset] != ',' {
          break;
        }
      }
      if content[offset] != ']' {
        return None;
      }
      NotTheEnd(offset);
      depth := depth - 1;
      offset := offset + 1;
      return Some(Array(items));
    }

    /** The body of the loop: a value and the white space around it. */
    method ParseItem() returns (r: Option<Item>)
      requires Valid()
      modifies `offset, `depth
      ensures r.None? ==> ParseItems(num, content, old(offset), old(depth)) == None
      ensures r.Some? ==>
                && Valid() && depth == old(depth) && old(offset) < offset && (content[offset] == ',' ==> offset + 1 < |content|)
                && ParseItems(num, content, old(offset), depth) ==
                     if content[offset] == ',' then Behind([r.value], ParseItems(num, content, offset + 1, depth))
                     else if content[offset] == ']' then Some(Parsed([r.value], offset + 1)) else None
      decreases |content| - offset, 2
    {
      hide ParseValue, ParseItems, ParseMembers, ParseStringAt, Behind;
      ItemsStep(num, content, offset, depth);
      SkipWhitespace();
      var v := Parse();
      if v.None? {
        return None;
      }
      SkipWhitespace();
      return Some(Item("", v.value));
    }

    lemma TooDeep(o: nat, depth: nat)
      requires IsText(content) && o < |content| && (content[o] == '[' || content[o] == '{')
      ensures o + 1 < |content|
      ensures depth >= NESTING_LIMIT ==> ParseValue(num, content, o, depth).None?
    {
      hide ParseItems, ParseMembers, SkipSpace, ParseStringAt, Reads, ParseNumber;
      NotAWord(content, o);
    }

    lemma NotTheEnd(o: nat)
      requires IsText(content) && o < |content| && content[o] != '\0'
      ensures o + 1 < |content|
    {
    }

    lemma BehindOne(items: seq<Item>, item: seq<Item>, end: nat)
      ensures Behind(items, Some(Parsed(item, end))) == Some(Parsed(items + item, end))
    {
    }

    /** parse_object */
    method ParseObject() returns (r: Option<Json>)
      requires Valid() && content[offset] == '{'
      modifies `offset, `depth
      ensures r.None? <==> ParseValue(num, content, old(offset), old(depth)).None?
      ensures r.Some? ==> Valid() && depth == old(depth) && ParseValue(num, content, old(offset), depth) == Some(Parsed(r.value, offset))
      decreases |content| - offset, 0
    {
      hide ParseValue, ParseItems, ParseMembers, ParseStringAt, SkipSpace, Behind, AfterColon;
      TooDeep(offset, depth);
      if depth >= NESTING_LIMIT {
        return None;
      }
      ParseContainerIs(num, content, offset, depth);
      depth := depth + 1;
      offset := offset + 1;
      SkipWhitespace();
      if content[offset] == '}' {
        NotTheEnd(offset);
        depth := depth - 1;
        offset := offset + 1;
        return Some(Object([]));
      }
      ghost var total := ParseMembers(num, content, offset, depth);
      offset := offset - 1;
      var items: seq<Item> := [];
      BehindBoth([], [], total);
      while true
        invariant offset + 1 < |content| && IsText(content) && old(offset) <= offset && depth == old(depth) + 1
        invariant Behind(items, ParseMembers(num, content, offset + 1, depth)) == total
        decreases |content| - offset
      {
        offset := offset + 1;
        var item := ParseMember();
        BehindBoth(items, [], None);
        if item.None? {
          return None;
        }
        BehindBoth(items, [item.value], if content[offset] == ',' then ParseMembers(num, content, offset + 1, depth) else None);
        BehindOne(items, [item.value], offset + 1);
        items := items + [item.value];
        if content[offset] != ',' {
          break;
        }
      }
      if content[offset] != '}' {
        return None;
      }
      NotTheEnd(offset);
      depth := depth - 1;
      offset := offset + 1;
      return Some(Object(items));
    }

    /** The body of the loop: a name, a colon, a value and the white space around them. */
    method ParseMember() returns (r: Option<Item>)
      requires Valid()
      modifies `offset, `depth
      ensures r.None? ==> ParseMembers(num, content, old(offset), old(depth)) == None
      ensures r.Some? ==>
                && Valid() && depth == old(depth) && old(offset) < offset && (content[offset] == ',' ==> offset + 1 < |content|)
                && ParseMembers(num, content, old(offset), depth) ==
                     if content[offset] == ',' then Behind([r.value], ParseMembers(num, content, offset + 1, depth))
                     else if content[offset] == '}' then Some(Parsed([r.value], offset + 1)) else None
      decreases |content| - offset, 2
    {
      hide ParseValue, ParseItems, ParseMembers, ParseStringAt, Behind, AfterColon, SkipSpace;
      MembersStep(num, content, offset, depth);
      SkipWhitespace();
      var name := ParseString();
      if name.None? {
        return None;
      }
      SkipWhitespace();
      if content[offset] != ':' {
        return None;
      }
      offset := offset + 1;
      r := ParseMemberValue(name.value);
    }

    method ParseMemberValue(name: string) returns (r: Option<Item>)
      requires Valid()
      modifies `offset, `depth
      ensures r.None? ==> AfterColon(num, content, name, old(offset), old(depth)) == None
      ensures r.Some? ==>
                && Valid() && depth == old(depth) && old(offset) < offset && (content[offset] == ',' ==> offset + 1 < |content|)
                && AfterColon(num, content, name, old(offset), depth) ==
                     if content[offset] == ',' then Behind([r.value], ParseMembers(num, content, offset + 1, depth))
                     else if content[offset] == '}' then Some(Parsed([r.value], offset + 1)) else None
      decreases |content| - offset, 2
    {
      hide ParseValue, ParseMembers, Behind, AfterColon;
      AfterColonIs(num, content, name, offset, depth);
      SkipWhitespace();
      var v := Parse();
      if v.None? {
        return None;
      }
      SkipWhitespace();
      return Some(Item(name, v.value));
    }
  }

  /** cJSON_ParseWithOpts and cJSON_Parse */
  method ParseDocument(text: string, num: Numerals, toEnd: bool) returns (r: Option<Json>)
    requires IsText(text)
    ensures r == ParseText(num, text, toEnd)
  {
    hide ParseValue, SkipSpace;
    var buffer := new ParseBuffer(text, num);
    if |text| > 4 && text[..3] == ['\U{EF}', '\U{BB}', '\U{BF}'] {
      buffer.offset := buffer.offset + 3;
    }
    buffer.SkipWhitespace();
    r := buffer.Parse();
    if r.None? {
      return None;
    }
    if toEnd {
      buffer.SkipWhitespace();
      if text[buffer.offset] != '\0' {
        return None;
      }
    }
  }
}
