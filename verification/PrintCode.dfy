/** The printer of 3rd/cjson/cJSON.c on its growing buffer.  JsonText says what it writes; every write stays
    inside the length that ensure has made sure of. */
module PrintCode {
  import opened Wrappers
  import opened CStrings
  import opened Json
  import opened JsonStrings
  import opened JsonText

  const INT_MAX := 0x7fff_ffff

  // ---------------------------------------------------------------- printed text holds no NUL

  lemma EscapedNulFree(s: string)
    ensures NulFree(Escaped(s))
  {
    if s != [] {
      EscapedNulFree(s[1..]);
      NulFreeBoth(EscapeChar(s[0]), Escaped(s[1..]));
    }
  }

  lemma NulFreeBoth(a: string, b: string)
    requires NulFree(a) && NulFree(b)
    ensures NulFree(a + b)
  {
  }

  lemma StringNulFree(s: string)
    ensures NulFree(PrintString(s))
  {
    EscapedNulFree(s);
  }

  lemma {:induction false} ValueNulFree(num: Numerals, v: Json, format: bool, depth: nat)
    requires Inverse(num)
    ensures NulFree(PrintValue(num, v, format, depth))
    decreases v, 1, 0
  {
    match v
    case Number(n) => assert ReadsBack(num, num.write(n), n);
    case String(s) => StringNulFree(s);
    case Array(c) =>
      ItemsNulFree(num, v, 0, format, depth);
    case Object(c) =>
      MembersNulFree(num, v, 0, format, depth);
    case _ =>
  }

  lemma {:induction false} ItemsNulFree(num: Numerals, v: Json, i: nat, format: bool, depth: nat)
    requires Inverse(num) && v.Array? && i <= |v.child|
    ensures NulFree(PrintItems(num, v, i, format, depth))
    decreases v, 0, |v.child| - i
  {
    hide Inverse, PrintValue;
    if i < |v.child| {
      ValueNulFree(num, v.child[i].value, format, depth + 1);
      ItemsNulFree(num, v, i + 1, format, depth);
    }
  }

  lemma {:induction false} MembersNulFree(num: Numerals, v: Json, i: nat, format: bool, depth: nat)
    requires Inverse(num) && v.Object? && i <= |v.child|
    ensures NulFree(PrintMembers(num, v, i, format, depth))
    decreases v, 0, |v.child| - i
  {
    hide Inverse, PrintValue, PrintString;
    if i < |v.child| {
      StringNulFree(v.child[i].key);
      ValueNulFree(num, v.child[i].value, format, depth + 1);
      MembersNulFree(num, v, i + 1, format, depth);
      var tail := ((if i + 1 < |v.child| then "," else "") + NewLine(format)) + PrintMembers(num, v, i + 1, format, depth);
      NulFreeBoth(PrintValue(num, v.child[i].value, format, depth + 1), tail);
      NulFreeBoth(if format then ":\t" else ":", PrintValue(num, v.child[i].value, format, depth + 1) + tail);
      NulFreeBoth(PrintString(v.child[i].key), (if format then ":\t" else ":") + (PrintValue(num, v.child[i].value, format, depth + 1) + tail));
    }
  }

  /** No Invalid anywhere. */
  ghost predicate Real(v: Json) {
    !v.Invalid? && (v.IsContainer() ==> forall i :: 0 <= i < |v.child| ==> Real(v.child[i].value))
  }

  // ---------------------------------------------------------------- the buffer

  /** printbuffer; its length is that of the array. */
  class PrintBuffer {
    var buffer: array<char>
    var offset: nat
    var depth: nat
    const noalloc: bool
    const format: bool
    const hasRealloc: bool
    const num: Numerals

    constructor (size: nat, noalloc: bool, format: bool, hasRealloc: bool, num: Numerals)
      ensures offset == 0 && depth == 0 && fresh(buffer) && buffer.Length == size
      ensures this.noalloc == noalloc && this.format == format && this.num == num
    {
      buffer := new char[size];
      offset := 0;
      depth := 0;
      this.noalloc := noalloc;
      this.format := format;
      this.hasRealloc := hasRealloc;
      this.num := num;
    }

    /** What is written and accounted for. */
    ghost predicate Holds(text: string)
      reads this`buffer, this`offset, buffer
    {
      offset <= buffer.Length && buffer[..offset] == text
    }

    /** A value has been written behind what was there, with a terminator; the offset may lag behind. */
    ghost predicate Printed(before: string, text: string)
      reads this`buffer, this`offset, buffer
    {
      && |before| <= offset <= |before| + |text| < buffer.Length
      && buffer[..|before| + |text|] == before + text && buffer[|before| + |text|] == '\0'
    }

    /** Nothing has been written beyond the buffer. */
    predicate Ready()
      reads this`buffer, this`offset
    {
      offset < buffer.Length || buffer.Length == 0
    }

    /** The buffer may grow, and size is not too large. */
    predicate Enough(size: int) { !noalloc && size <= INT_MAX }

    /** ensure: room for needed more characters and one more, or nothing changes.  What was written stays. */
    method Ensure(needed: nat, ghost text: string) returns (ok: bool)
      requires Holds(text)
      modifies this`buffer
      ensures buffer == old(buffer) || fresh(buffer)
      ensures Holds(text) && (ok ==> offset + needed < buffer.Length)
      ensures !ok ==> buffer == old(buffer)
      ensures ok <==> old(Ready()) && needed <= INT_MAX && (offset + needed < old(buffer.Length) || Enough(offset + needed + 1))
    {
      if buffer.Length > 0 && offset >= buffer.Length {
        return false;
      }
      if needed > INT_MAX {
        return false;
      }
      var total := needed + offset + 1;
      if total <= buffer.Length {
        return true;
      }
      if noalloc {
        return false;
      }
      var newsize := total * 2;
      if total > INT_MAX / 2 {
        if total > INT_MAX {
          return false;
        }
        newsize := INT_MAX;
      }
      // realloc keeps everything; without it what is in use is copied
      var kept := if hasRealloc || buffer.Length <= offset then buffer.Length else offset + 1;
      var newbuffer := new char[newsize];
      forall k | 0 <= k < kept { newbuffer[k] := buffer[k]; }
      assert newbuffer[..offset] == buffer[..offset];
      buffer := newbuffer;
      return true;
    }

    /** Writes at a position of the room that was ensured. */
    method Put(at: nat, text: string, ghost before: string)
      requires at + |text| <= buffer.Length && at == |before| && buffer[..at] == before
      modifies buffer
      ensures buffer[..at + |text|] == before + text
      ensures buffer[at + |text|..] == old(buffer[at + |text|..])
    {
      var i := 0;
      while i < |text|
        invariant 0 <= i <= |text| && buffer[..at + i] == before + text[..i]
        invariant buffer[at + |text|..] == old(buffer[at + |text|..])
      {
        buffer[at + i] := text[i];
        assert text[..i + 1] == text[..i] + [text[i]];
        i := i + 1;
      }
      assert text[..i] == text;
    }

    /** A piece of text behind what is there; needed is what the code asks room for. */
    method Append(text: string, needed: nat, ghost before: string) returns (ok: bool)
      requires Holds(before) && |text| <= needed
      modifies this`buffer, this`offset, buffer
      ensures buffer == old(buffer) || fresh(buffer)
      ensures ok ==> Holds(before + text) && Ready()
      ensures old(Ready()) && Enough(|before| + needed + 1) ==> ok
    {
      ok := Ensure(needed, before);
      if ok {
        Put(offset, text, before);
        offset := offset + |text|;
      }
    }

    /** The last piece of a value, with the terminator; the offset stays where it is. */
    method Finish(text: string, needed: nat, ghost before: string) returns (ok: bool)
      requires Holds(before) && |text| < needed + 1
      modifies this`buffer, buffer
      ensures buffer == old(buffer) || fresh(buffer)
      ensures ok ==> Printed(before, text) && offset == |before|
      ensures old(Ready()) && Enough(|before| + needed + 1) ==> ok
    {
      ok := Ensure(needed, before);
      if ok {
        Put(offset, text, before);
        buffer[offset + |text|] := '\0';
        assert buffer[..offset + |text|] == before + text;
      }
    }

    /** update_offset: the offset goes to the terminator. */
    method UpdateOffset(ghost before: string, ghost text: string)
      requires Printed(before, text) && NulFree(text)
      modifies this`offset
      ensures Holds(before + text) && Ready()
    {
      ghost var all := before + text;
      assert forall k :: offset <= k < |all| ==> buffer[k] == buffer[..|all|][k] == all[k] == text[k - |before|];
      while buffer[offset] != '\0'
        invariant |before| <= offset <= |all|
        decreases |all| - offset
      {
        offset := offset + 1;
      }
    }

    /** print_string_ptr: one pass counts, the other one writes; without an escape the text is copied. */
    method PrintStringPtr(s: string, ghost before: string) returns (ok: bool)
      requires Holds(before)
      modifies this`buffer, buffer
      ensures buffer == old(buffer) || fresh(buffer)
      ensures ok ==> Printed(before, PrintString(s)) && offset == |before|
      ensures old(Ready()) && Enough(|before| + |PrintString(s)| + 2) ==> ok
    {
      hide PrintString, Escaped, ExtraChars, CountExtra, Printed;
      var escapes := CountEscapes(s);
      CountIsExact(s);
      StringParts(s);
      ok := Ensure(|s| + escapes + 3, before);
      if ok {
        WriteLiteral(s, escapes, before);
      }
    }

    /** The quotes, the text between them and the terminator. */
    method WriteLiteral(s: string, escapes: nat, ghost before: string)
      requires Holds(before) && offset + |s| + escapes + 3 < buffer.Length
      requires |Escaped(s)| == |s| + escapes && (escapes == 0 ==> Escaped(s) == s)
      modifies buffer
      ensures Printed(before, PrintString(s))
    {
      hide PrintString, Escaped;
      var length := |s| + escapes;
      StringParts(s);
      Put(offset, [QUOTE], before);
      if escapes == 0 {
        Put(offset + 1, s, before + [QUOTE]);
      } else {
        WriteEscaped(offset + 1, s, before + [QUOTE]);
      }
      Put(offset + length + 1, [QUOTE], (before + [QUOTE]) + Escaped(s));
      buffer[offset + length + 2] := '\0';
      Assemble(before, [QUOTE], Escaped(s), [QUOTE]);
      assert buffer[..offset + length + 2] == before + PrintString(s);
    }

    lemma StringParts(s: string)
      ensures PrintString(s) == ([QUOTE] + Escaped(s)) + [QUOTE]
    {
    }

    lemma Assemble(before: string, a: string, b: string, c: string)
      ensures ((before + a) + b) + c == before + ((a + b) + c)
    {
    }

    /** The counting pass. */
    method CountEscapes(s: string) returns (n: nat)
      ensures n == CountExtra(s)
    {
      hide ExtraChars;
      n := 0;
      var i := 0;
      while i < |s|
        invariant 0 <= i <= |s| && n + CountExtra(s[i..]) == CountExtra(s)
      {
        assert s[i..][0] == s[i] && s[i..][1..] == s[i + 1..];
        n := n + ExtraChars(s[i]);
        i := i + 1;
      }
    }

    /** The writing pass. */
    method WriteEscaped(at: nat, s: string, ghost before: string)
      requires at + |Escaped(s)| <= buffer.Length && at == |before| && buffer[..at] == before
      modifies buffer
      ensures buffer[..at + |Escaped(s)|] == before + Escaped(s)
    {
      hide EscapeChar, Escaped;
      var pointer, i := at, 0;
      ghost var done: string := [];
      assert before + [] == before && [] + Escaped(s[0..]) == Escaped(s) by { assert s[0..] == s; }
      while i < |s|
        invariant 0 <= i <= |s| && pointer == at + |done| <= at + |Escaped(s)| && buffer[..pointer] == before + done
        invariant done + Escaped(s[i..]) == Escaped(s)
      {
        EscapedStep(s, i, done);
        Put(pointer, EscapeChar(s[i]), before + done);
        assert (before + done) + EscapeChar(s[i]) == before + (done + EscapeChar(s[i]));
        pointer := pointer + |EscapeChar(s[i])|;
        done := done + EscapeChar(s[i]);
        i := i + 1;
      }
      EscapedDone(s[i..], done);
    }

    lemma EscapedStep(s: string, i: nat, done: string)
      requires i < |s| && done + Escaped(s[i..]) == Escaped(s)
      ensures (done + EscapeChar(s[i])) + Escaped(s[i + 1..]) == Escaped(s)
      ensures |done| + |EscapeChar(s[i])| <= |Escaped(s)|
    {
      hide EscapeChar;
      assert s[i..][0] == s[i] && s[i..][1..] == s[i + 1..];
      assert done + (EscapeChar(s[i]) + Escaped(s[i + 1..])) == (done + EscapeChar(s[i])) + Escaped(s[i + 1..]);
    }

    lemma EscapedDone(s: string, done: string)
      requires s == []
      ensures done + Escaped(s) == done
    {
    }

    /** print_number; more digits than the temporary buffer holds are an error. */
    method PrintNumber(n: int, ghost before: string) returns (ok: bool)
      requires Inverse(num) && Holds(before)
      modifies this`buffer, this`offset, buffer
      ensures buffer == old(buffer) || fresh(buffer)
      ensures ok ==> Printed(before, num.write(n))
      ensures old(Ready()) && Enough(|before| + |num.write(n)| + 2) ==> ok
    {
      var text := num.write(n);
      assert ReadsBack(num, text, n);
      ok := |text| <= 25;
      if !ok {
        return;
      }
      ok := Finish(text, |text| + 1, before);
      if ok {
        offset := offset + |text|;
      }
    }

    /** print_value: when it succeeds the text of the value is behind what was there, which has not changed. */
    method Print(v: Json, ghost before: string) returns (ok: bool)
      requires Inverse(num) && Holds(before)
      modifies this`buffer, this`offset, this`depth, buffer
      ensures buffer == old(buffer) || fresh(buffer)
      ensures ok ==> Printed(before, PrintValue(num, v, format, old(depth))) && depth == old(depth)
      ensures v.Invalid? ==> !ok
      ensures old(Ready()) && Real(v) && Enough(|before| + |PrintValue(num, v, format, old(depth))| + 2) ==> ok
      decreases v, 1
    {
      hide Inverse, Printed, Holds;
      match v
      case Null => ok := Finish("null", 5, before);
      case False => ok := Finish("false", 6, before);
      case True => ok := Finish("true", 5, before);
      case Number(n) => ok := PrintNumber(n, before);
      case String(s) => ok := PrintStringPtr(s, before);
      case Array(c) => ok := PrintArray(v, before);
      case Object(c) => ok := PrintObject(v, before);
      case Invalid => ok := false;
    }

    /** print_array */
    method PrintArray(v: Json, ghost before: string) returns (ok: bool)
      requires Inverse(num) && Holds(before) && v.Array?
      modifies this`buffer, this`offset, this`depth, buffer
      ensures buffer == old(buffer) || fresh(buffer)
      ensures ok ==> Printed(before, PrintValue(num, v, format, old(depth))) && depth == old(depth)
      ensures old(Ready()) && Real(v) && Enough(|before| + |PrintValue(num, v, format, old(depth))| + 2) ==> ok
      decreases v, 0
    {
      hide Inverse, PrintItems, Holds, Printed, PrintValue, ItemPiece;
      ghost var level := depth;
      ItemsEnd(v, |v.child|, level);
      ok := Append("[", 1, before);
      if !ok {
        return;
      }
      depth := depth + 1;
      var i := 0;
      ghost var done := "[";
      while i < |v.child|
        invariant 0 <= i <= |v.child| && depth == level + 1 && Holds(before + done) && Ready()
        invariant buffer == old(buffer) || fresh(buffer)
        invariant done + PrintItems(num, v, i, format, level) == "[" + PrintItems(num, v, 0, format, level)
      {
        ghost var piece := ItemPiece(v, i, depth);
        ItemsUnfold(v, i, level, done);
        ok := PrintItem(v, i, before + done);
        if !ok {
          return;
        }
        Regroup3(before, done, piece, "");
        done := done + piece;
        i := i + 1;
      }
      ItemsEnd(v, i, level);
      ok := Finish("]", 2, before + done);
      if ok {
        depth := depth - 1;
        Extend(before, done, "]");
      }
    }

    /** An item and the comma behind it. */
    function ItemPiece(v: Json, i: nat, depth: nat): string
      requires v.Array? && i < |v.child|
    {
      PrintValue(num, v.child[i].value, format, depth) + (if i + 1 < |v.child| then (if format then ", " else ",") else "")
    }

    /** The body of the loop of print_array. */
    method PrintItem(v: Json, i: nat, ghost before: string) returns (ok: bool)
      requires Inverse(num) && Holds(before) && v.Array? && i < |v.child|
      modifies this`buffer, this`offset, this`depth, buffer
      ensures buffer == old(buffer) || fresh(buffer)
      ensures ok ==> Holds(before + ItemPiece(v, i, old(depth))) && Ready() && depth == old(depth)
      ensures old(Ready()) && Real(v) && Enough(|before| + |ItemPiece(v, i, old(depth))| + 3) ==> ok
      decreases v, 0, i
    {
      hide Inverse, PrintValue, Holds, Printed;
      ghost var value := PrintValue(num, v.child[i].value, format, depth);
      ok := Print(v.child[i].value, before);
      if !ok {
        return;
      }
      ValueNulFree(num, v.child[i].value, format, depth);
      UpdateOffset(before, value);
      var comma := if i + 1 < |v.child| then (if format then ", " else ",") else "";
      if i + 1 < |v.child| {
        ok := Append(comma, |comma| + 1, before + value);
        assert (before + value) + comma == before + (value + comma);
      } else {
        assert value + "" == value;
      }
    }

    lemma Regroup3(a: string, b: string, c: string, d: string)
      ensures ((a + b) + c) + d == a + ((b + c) + d)
      ensures (a + b) + c == a + (b + c)
      ensures c + "" == c && (b + c) + "" == b + c
    {
    }

    lemma ItemsUnfold(v: Json, i: nat, level: nat, done: string)
      requires v.Array? && i < |v.child|
      ensures |PrintItems(num, v, i + 1, format, level)| >= 1
      ensures done + PrintItems(num, v, i, format, level) ==
                (done + ItemPiece(v, i, level + 1)) + PrintItems(num, v, i + 1, format, level)
    {
      hide PrintValue;
      var comma := if i + 1 < |v.child| then (if format then ", " else ",") else "";
      var value, rest := PrintValue(num, v.child[i].value, format, level + 1), PrintItems(num, v, i + 1, format, level);
      assert done + (value + (comma + rest)) == (done + (value + comma)) + rest;
    }

    lemma ItemsEnd(v: Json, i: nat, level: nat)
      requires v.Array? && i == |v.child|
      ensures PrintItems(num, v, i, format, level) == "]"
      ensures PrintValue(num, v, format, level) == "[" + PrintItems(num, v, 0, format, level)
    {
    }

    /** The last piece completes the text of the value. */
    lemma Extend(before: string, done: string, last: string)
      requires Printed(before + done, last)
      ensures Printed(before, done + last)
    {
      assert (before + done) + last == before + (done + last);
    }

    /** print_object */
    method PrintObject(v: Json, ghost before: string) returns (ok: bool)
      requires Inverse(num) && Holds(before) && v.Object?
      modifies this`buffer, this`offset, this`depth, buffer
      ensures buffer == old(buffer) || fresh(buffer)
      ensures ok ==> Printed(before, PrintValue(num, v, format, old(depth))) && depth == old(depth)
      ensures old(Ready()) && Real(v) && Enough(|before| + |PrintValue(num, v, format, old(depth))| + 2) ==> ok
      decreases v, 0
    {
      hide Inverse, PrintMembers, Holds, Indent, Printed, PrintValue, MemberPiece;
      ghost var level := depth;
      var open := "{" + NewLine(format);
      MembersEnd(v, |v.child|, level);
      ok := Append(open, |open| + 1, before);
      if !ok {
        return;
      }
      depth := depth + 1;
      var i := 0;
      ghost var done := open;
      MembersEnd(v, |v.child|, level);
      while i < |v.child|
        invariant 0 <= i <= |v.child| && depth == level + 1 && Holds(before + done) && Ready()
        invariant buffer == old(buffer) || fresh(buffer)
        invariant done + PrintMembers(num, v, i, format, level) == open + PrintMembers(num, v, 0, format, level)
      {
        ghost var piece := MemberPiece(v, i, depth);
        MembersUnfold(v, i, level, done);
        ok := PrintMember(v, i, before + done);
        if !ok {
          return;
        }
        Regroup3(before, done, piece, "");
        done := done + piece;
        i := i + 1;
      }
      MembersEnd(v, i, level);
      var close := Indent(format, depth - 1) + "}";
      IndentLength(depth - 1);
      ok := Finish(close, if format then depth + 1 else 2, before + done);
      if ok {
        depth := depth - 1;
        Extend(before, done, close);
      }
    }

    /** A member with its name, the colon, its value and the comma. */
    function MemberPiece(v: Json, i: nat, depth: nat): string
      requires v.Object? && i < |v.child|
    {
      (((Indent(format, depth) + PrintString(v.child[i].key)) + (if format then ":\t" else ":"))
       + PrintValue(num, v.child[i].value, format, depth)) + ((if i + 1 < |v.child| then "," else "") + NewLine(format))
    }

    lemma MembersUnfold(v: Json, i: nat, level: nat, done: string)
      requires v.Object? && i < |v.child|
      ensures |PrintMembers(num, v, i + 1, format, level)| >= 1
      ensures done + PrintMembers(num, v, i, format, level) ==
                (done + MemberPiece(v, i, level + 1)) + PrintMembers(num, v, i + 1, format, level)
    {
      hide PrintValue, PrintString, Indent, NewLine;
      var a, b, c := Indent(format, level + 1), PrintString(v.child[i].key), if format then ":\t" else ":";
      var d, e := PrintValue(num, v.child[i].value, format, level + 1), (if i + 1 < |v.child| then "," else "") + NewLine(format);
      Concatenate(done, a, b, c, d, e, PrintMembers(num, v, i + 1, format, level));
    }

    lemma Concatenate(x: string, a: string, b: string, c: string, d: string, e: string, y: string)
      ensures x + (a + (b + (c + (d + (e + y))))) == (x + ((((a + b) + c) + d) + e)) + y
    {
      assert a + (b + (c + (d + (e + y)))) == ((((a + b) + c) + d) + e) + y by {
        assert d + (e + y) == (d + e) + y;
        assert c + ((d + e) + y) == ((c + d) + e) + y;
        assert b + (((c + d) + e) + y) == (((b + c) + d) + e) + y;
        assert a + ((((b + c) + d) + e) + y) == ((((a + b) + c) + d) + e) + y;
      }
      assert x + (((((a + b) + c) + d) + e) + y) == (x + ((((a + b) + c) + d) + e)) + y;
    }

    lemma MembersEnd(v: Json, i: nat, level: nat)
      requires v.Object? && i == |v.child|
      ensures PrintMembers(num, v, i, format, level) == Indent(format, level) + "}"
      ensures PrintValue(num, v, format, level) == ("{" + NewLine(format)) + PrintMembers(num, v, 0, format, level)
    {
      hide Indent;
      assert "{" + (NewLine(format) + PrintMembers(num, v, 0, format, level)) == ("{" + NewLine(format)) + PrintMembers(num, v, 0, format, level);
    }

    lemma IndentLength(n: nat)
      ensures |Indent(format, n)| == if format then n else 0
    {
    }

    /** The name of a member, after its indentation and with the colon behind it. */
    method PrintName(name: string, ghost before: string) returns (ok: bool)
      requires Holds(before)
      modifies this`buffer, this`offset, buffer
      ensures buffer == old(buffer) || fresh(buffer)
      ensures ok ==> Holds(((before + Indent(format, depth)) + PrintString(name)) + (if format then ":\t" else ":")) && Ready()
      ensures old(Ready()) && Enough(|before| + |Indent(format, depth)| + |PrintString(name)| + 4) ==> ok
    {
      hide PrintString, Holds, Printed;
      if format {
        ok := Append(Tabs(depth), depth, before);
        if !ok {
          return;
        }
      }
      ghost var indent := Indent(format, depth);
      assert Holds(before + indent) by { assert before + "" == before; }
      ok := PrintStringPtr(name, before + indent);
      if !ok {
        return;
      }
      StringNulFree(name);
      UpdateOffset(before + indent, PrintString(name));
      var colon := if format then ":\t" else ":";
      ok := Append(colon, |colon|, (before + indent) + PrintString(name));
    }

    /** The body of the loop of print_object. */
    method PrintMember(v: Json, i: nat, ghost before: string) returns (ok: bool)
      requires Inverse(num) && Holds(before) && v.Object? && i < |v.child|
      modifies this`buffer, this`offset, this`depth, buffer
      ensures buffer == old(buffer) || fresh(buffer)
      ensures ok ==> Holds(before + MemberPiece(v, i, old(depth))) && Ready() && depth == old(depth)
      ensures old(Ready()) && Real(v) && Enough(|before| + |MemberPiece(v, i, old(depth))| + 3) ==> ok
      decreases v, 0, i
    {
      hide Inverse, PrintValue, PrintString, Holds, Printed, Indent;
      var x := v.child[i];
      PieceLength(v, i);
      ok := PrintName(x.key, before);
      if !ok {
        return;
      }
      ghost var indent, colon := Indent(format, depth), if format then ":\t" else ":";
      ghost var text := ((before + indent) + PrintString(x.key)) + colon;
      ok := Print(x.value, text);
      if !ok {
        return;
      }
      ghost var value := PrintValue(num, x.value, format, depth);
      ValueNulFree(num, x.value, format, depth);
      UpdateOffset(text, value);
      var end := (if i + 1 < |v.child| then "," else "") + NewLine(format);
      ok := Append(end, |end| + 1, text + value);
      PieceIs(before, indent, PrintString(x.key), colon, value, end);
    }

    lemma PieceLength(v: Json, i: nat)
      requires v.Object? && i < |v.child|
      ensures |MemberPiece(v, i, depth)| ==
                |Indent(format, depth)| + |PrintString(v.child[i].key)| + (if format then 2 else 1)
                + |PrintValue(num, v.child[i].value, format, depth)| + (if i + 1 < |v.child| then 1 else 0) + |NewLine(format)|
    {
    }

    lemma PieceIs(before: string, a: string, b: string, c: string, d: string, e: string)
      ensures ((((before + a) + b) + c) + d) + e == before + ((((a + b) + c) + d) + e)
    {
      assert (before + a) + b == before + (a + b);
      assert (before + (a + b)) + c == before + ((a + b) + c);
      assert (before + ((a + b) + c)) + d == before + (((a + b) + c) + d);
      assert (before + (((a + b) + c) + d)) + e == before + ((((a + b) + c) + d) + e);
    }
  }

  /** cJSON_Print, cJSON_PrintUnformatted and cJSON_PrintBuffered: the printed text with its terminator. */
  method PrintText(v: Json, size: nat, format: bool, hasRealloc: bool, num: Numerals) returns (r: Option<string>)
    requires Inverse(num)
    ensures r.Some? ==> r.value == PrintValue(num, v, format, 0) + ['\0']
    ensures v.Invalid? ==> r.None?
    ensures Real(v) && |PrintValue(num, v, format, 0)| + 2 <= INT_MAX ==> r.Some?
  {
    hide PrintValue, Inverse;
    var p := new PrintBuffer(size, false, format, hasRealloc, num);
    var ok := p.Print(v, []);
    if !ok {
      return None;
    }
    ValueNulFree(num, v, format, 0);
    p.UpdateOffset([], PrintValue(num, v, format, 0));
    assert [] + PrintValue(num, v, format, 0) == PrintValue(num, v, format, 0);
    return Some(p.buffer[..p.offset] + ['\0']);
  }
}
