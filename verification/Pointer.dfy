/** JSON pointers of 3rd/cjson/cJSON_Utils.c.  A node of a tree is given by its route, the positions of
    the children on the way to it.  Strings are C strings: no character of them is NUL. */
module Pointer {
  import opened Wrappers
  import opened CStrings
  import opened Json

  // ---------------------------------------------------------------- section 4 of RFC 6901

  function FirstToken(p: string): string {
    if p == [] || p[0] == '/' then [] else [p[0]] + FirstToken(p[1..])
  }

  function SkipToken(p: string): (r: string)
    ensures |r| <= |p| && (r == [] || r[0] == '/')
  {
    if p == [] || p[0] == '/' then p else SkipToken(p[1..])
  }

  /** The reference token with its escapes undone, if they are valid. */
  function Unescape(t: string): Option<string>
    decreases |t|
  {
    if t == [] then Some([])
    else if t[0] == '~' then
      if |t| > 1 && t[1] in ['0', '1'] && Unescape(t[2..]).Some? then
        Some([if t[1] == '0' then '~' else '/'] + Unescape(t[2..]).value)
      else None
    else if Unescape(t[1..]).Some? then Some([t[0]] + Unescape(t[1..]).value)
    else None
  }

  function Escape(t: string): string {
    if t == [] then [] else (if t[0] == '~' then "~0" else if t[0] == '/' then "~1" else [t[0]]) + Escape(t[1..])
  }

  // ---------------------------------------------------------------- compare_pointers

  predicate SameChar(a: char, b: char, cs: bool) { if cs then a == b else Lower(a) == Lower(b) }

  /** compare_pointers, step by step. */
  function ComparePointers(name: string, pointer: string, cs: bool): bool
    decreases |name|
  {
    if name == [] || pointer == [] || pointer[0] == '/' then
      (pointer != [] && pointer[0] != '/') == (name != [])
    else if pointer[0] == '~' then
      && |pointer| > 1 && ((pointer[1] == '0' && name[0] == '~') || (pointer[1] == '1' && name[0] == '/'))
      && ComparePointers(name[1..], pointer[2..], cs)
    else SameChar(name[0], pointer[0], cs) && ComparePointers(name[1..], pointer[1..], cs)
  }

  /** compare_pointers follows the standard: name is the first token of the pointer with its escapes undone. */
  lemma {:induction false} ComparePointersExact(name: string, pointer: string)
    ensures ComparePointers(name, pointer, true) <==> Unescape(FirstToken(pointer)) == Some(name)
    decreases |name|
  {
    var t := FirstToken(pointer);
    if pointer != [] && pointer[0] != '/' {
      assert t[0] == pointer[0] && t[1..] == FirstToken(pointer[1..]);
      if pointer[0] == '~' && |pointer| > 1 && pointer[1] != '/' {
        assert pointer[1..][1..] == pointer[2..] && t[1..][0] == pointer[1] && t[2..] == FirstToken(pointer[2..]);
      }
      if name != [] {
        if pointer[0] == '~' {
          if |pointer| > 1 { ComparePointersExact(name[1..], pointer[2..]); }
        } else {
          ComparePointersExact(name[1..], pointer[1..]);
        }
        assert name == [name[0]] + name[1..];
      }
    }
  }

  method ComparePointersLoop(name: string, pointer: string, cs: bool) returns (same: bool)
    ensures same == ComparePointers(name, pointer, cs)
  {
    var i, j := 0, 0;
    while i < |name| && j < |pointer| && pointer[j] != '/'
      invariant 0 <= i <= |name| && 0 <= j <= |pointer|
      invariant ComparePointers(name[i..], pointer[j..], cs) == ComparePointers(name, pointer, cs)
      decreases |name| - i
    {
      assert name[i..][1..] == name[i + 1..] && pointer[j..][1..] == pointer[j + 1..];
      if pointer[j] == '~' {
        var next := if j + 1 < |pointer| then pointer[j + 1] else '\0';
        if (next != '0' || name[i] != '~') && (next != '1' || name[i] != '/') {
          return false;
        }
        assert pointer[j..][2..] == pointer[j + 2..];
        j := j + 1;
      } else if !SameChar(name[i], pointer[j], cs) {
        return false;
      }
      i, j := i + 1, j + 1;
    }
    same := (j < |pointer| && pointer[j] != '/') == (i < |name|);
  }

  // ---------------------------------------------------------------- array indices

  /** size_t */
  const SIZE := 0x1_0000_0000_0000_0000

  /** How far the loop over the digits runs: it asks of the first character only that it is not above '9'. */
  function DigitRun(p: string): (n: nat)
    ensures n <= |p|
  {
    if p == [] || p[0] > '9' then 0 else AtLeastZero(p)
  }

  function AtLeastZero(p: string): (n: nat)
    ensures n <= |p| && (forall i :: 0 <= i < n ==> p[i] >= '0') && (n < |p| ==> p[n] < '0')
  {
    if p == [] || p[0] < '0' then 0 else AtLeastZero(p[1..]) + 1
  }

  /** The number read from characters that are at least '0', modulo the size of size_t. */
  function ReadDigits(p: string): (n: nat)
    requires forall i :: 0 <= i < |p| ==> p[i] >= '0'
  {
    if p == [] then 0 else (10 * ReadDigits(p[..|p| - 1]) + (p[|p| - 1] as int - '0' as int)) % SIZE
  }

  /** decode_array_index_from_pointer */
  function DecodeIndex(p: string): Option<nat> {
    if |p| > 1 && p[0] == '0' && p[1] != '/' then None
    else
      var n := DigitRun(p);
      if n < |p| && p[n] != '/' then None else Some(ReadDigits(p[..n]))
  }

  method DecodeIndexLoop(p: string) returns (index: Option<nat>)
    ensures index == DecodeIndex(p)
  {
    if |p| > 1 && p[0] == '0' && p[1] != '/' {
      return None;
    }
    var parsed, position := 0, 0;
    while position < |p| && p[position] >= '0' && p[0] <= '9'
      invariant 0 <= position <= |p| && (position > 0 ==> p[0] <= '9')
      invariant (forall i :: 0 <= i < position ==> p[i] >= '0') && parsed == ReadDigits(p[..position])
    {
      assert p[..position + 1][..position] == p[..position];
      parsed := (10 * parsed + (p[position] as int - '0' as int)) % SIZE;
      position := position + 1;
    }
    assert position == DigitRun(p) by { RunEnds(p, position); }
    if position < |p| && p[position] != '/' {
      return None;
    }
    return Some(parsed);
  }

  lemma {:induction false} RunEnds(p: string, n: nat)
    requires n <= |p| && (forall i :: 0 <= i < n ==> p[i] >= '0') && (n < |p| ==> p[n] < '0' || p[0] > '9')
    requires n > 0 ==> p[0] <= '9'
    ensures n == DigitRun(p)
  {
  }

  /** Decimal digits, as printed by %lu. */
  function Digits(n: nat): (s: string)
    ensures s != [] && forall i :: 0 <= i < |s| ==> '0' <= s[i] <= '9'
    ensures n > 0 ==> s[0] != '0'
    ensures n == 0 ==> s == "0"
  {
    (if n < 10 then [] else Digits(n / 10)) + [('0' as int + n % 10) as char]
  }

  /** A printed index is read back, whatever token follows. */
  lemma {:induction false} IndexRoundTrip(n: nat, rest: string)
    requires n < SIZE && (rest == [] || rest[0] == '/')
    ensures DecodeIndex(Digits(n) + rest) == Some(n)
  {
    var p := Digits(n) + rest;
    var k := |Digits(n)|;
    RunEnds(p, k);
    assert p[..k] == Digits(n);
    ReadsBack(n);
    if |p| > 1 && p[0] == '0' { assert n == 0; }
  }

  lemma {:induction false} ReadsBack(n: nat)
    requires n < SIZE
    ensures ReadDigits(Digits(n)) == n
  {
    var s := Digits(n);
    if n >= 10 {
      ReadsBack(n / 10);
      assert s[..|s| - 1] == Digits(n / 10);
    }
    assert s[|s| - 1] as int - '0' as int == n % 10;
  }

  /** What the standard allows as an index. */
  predicate IsIndex(t: string) {
    t != [] && (forall i :: 0 <= i < |t| ==> '0' <= t[i] <= '9') && (t[0] == '0' ==> |t| == 1)
  }

  /** The code takes more for an index than the standard does: an empty token, and characters above '9'
      behind the first digit. */
  lemma IndexAccepted(p: string)
    ensures DecodeIndex(p).Some? <==>
              var t := FirstToken(p);
              t == [] || t == "0" || ('1' <= t[0] <= '9' && forall i :: 0 <= i < |t| ==> t[i] >= '0')
  {
    TokenIsPrefix(p);
    var t := FirstToken(p);
    var n := DigitRun(p);
    if t != [] {
      assert t[0] == p[0];
      if '1' <= t[0] <= '9' && (forall i :: 0 <= i < |t| ==> t[i] >= '0') {
        assert forall i :: 0 <= i < |t| ==> p[i] >= '0';
        RunEnds(p, |t|);
      }
    }
  }

  lemma {:induction false} TokenIsPrefix(p: string)
    ensures var t := FirstToken(p);
            && |t| <= |p| && p[..|t|] == t && (forall i :: 0 <= i < |t| ==> t[i] != '/')
            && (|t| < |p| ==> p[|t|] == '/') && SkipToken(p) == p[|t|..]
  {
    if p != [] && p[0] != '/' {
      TokenIsPrefix(p[1..]);
      assert p == [p[0]] + p[1..];
    }
  }

  lemma LaxIndices()
    ensures DecodeIndex("") == Some(0) && !IsIndex("")
    ensures DecodeIndex("1a") == Some(59) && !IsIndex("1a")
  {
    assert "1a"[..1] == "1" && "1a"[1..] == "a" && "1a"[..2] == "1a" && "1"[..0] == "";
    assert AtLeastZero("a") == 1 && AtLeastZero("1a") == 2;
    assert ReadDigits("1") == 1;
  }

  // ---------------------------------------------------------------- escaping

  /** pointer_encoded_length */
  function EncodedLength(s: string): (n: nat) {
    if s == [] then 0 else EncodedLength(s[1..]) + (if s[0] == '~' || s[0] == '/' then 2 else 1)
  }

  /** encode_string_as_pointer: what the memory that held mem holds then. */
  function EncodedOver(s: string, mem: seq<char>): (r: seq<char>)
    requires |mem| >= EncodedLength(s)
    ensures |r| == EncodedLength(s)
  {
    if s == [] then []
    else if s[0] == '/' then [mem[0], '1'] + EncodedOver(s[1..], mem[2..])
    else if s[0] == '~' then ['~', '1'] + EncodedOver(s[1..], mem[2..])
    else [s[0]] + EncodedOver(s[1..], mem[1..])
  }

  /** The escaping is that of the standard, whatever the memory held before, just where nothing needs an escape. */
  lemma {:induction false} EncodeExact(s: string)
    ensures (forall mem: seq<char> :: |mem| >= EncodedLength(s) ==> EncodedOver(s, mem) == Escape(s))
            <==> '~' !in s && '/' !in s
  {
    if '~' !in s && '/' !in s {
      forall mem: seq<char> | |mem| >= EncodedLength(s)
        ensures EncodedOver(s, mem) == Escape(s)
      {
        EncodePlain(s, mem);
      }
    } else {
      var mem := EncodeWrong(s);
      assert EncodedOver(s, mem) != Escape(s);
    }
  }

  lemma {:induction false} EncodePlain(s: string, mem: seq<char>)
    requires |mem| >= EncodedLength(s) && '~' !in s && '/' !in s
    ensures EncodedOver(s, mem) == s == Escape(s) && EncodedLength(s) == |s|
  {
    if s != [] {
      EncodePlain(s[1..], mem[1..]);
      assert s == [s[0]] + s[1..];
    }
  }

  lemma {:induction false} EncodeWrong(s: string) returns (mem: seq<char>)
    requires '~' in s || '/' in s
    ensures |mem| >= EncodedLength(s) && EncodedOver(s, mem) != Escape(s)
  {
    if s[0] == '~' || s[0] == '/' {
      mem := seq(EncodedLength(s), _ => 'x');
      assert EncodedOver(s, mem)[..2] == [if s[0] == '~' then '~' else 'x', '1'];
      assert Escape(s)[..2] == (if s[0] == '~' then "~0" else "~1");
    } else {
      var rest := EncodeWrong(s[1..]);
      mem := ['x'] + rest;
      assert mem[1..] == rest;
      assert EncodedOver(s, mem)[1..] == EncodedOver(s[1..], rest) && Escape(s)[1..] == Escape(s[1..]);
    }
  }

  /** What the first character becomes. */
  function EncodedHead(s: string, mem: seq<char>): (h: seq<char>)
    requires s != [] && mem != []
  {
    if s[0] == '/' then [mem[0], '1'] else if s[0] == '~' then ['~', '1'] else [s[0]]
  }

  lemma EncodedStep(s: string, mem: seq<char>)
    requires s != [] && |mem| >= EncodedLength(s)
    ensures |EncodedHead(s, mem)| + EncodedLength(s[1..]) == EncodedLength(s)
    ensures EncodedOver(s, mem) == EncodedHead(s, mem) + EncodedOver(s[1..], mem[|EncodedHead(s, mem)|..])
  {
  }

  /** The loop of encode_string_as_pointer, from position at on. */
  method EncodeStringAsPointer(destination: array<char>, at: nat, source: string)
    requires at + EncodedLength(source) <= destination.Length
    modifies destination
    ensures var end := at + EncodedLength(source);
            destination[..] == old(destination[..at]) + EncodedOver(source, old(destination[at..])) + old(destination[end..])
  {
    hide EncodedOver, EncodedLength, EncodedHead;
    var d, i := at, 0;
    ghost var mem := destination[..];
    ghost var out: seq<char> := [];
    assert source[0..] == source && [] + EncodedOver(source, mem[at..]) == EncodedOver(source, mem[at..]);
    assert mem == mem[..at] + [] + mem[at..];
    while i < |source|
      invariant 0 <= i <= |source| && d == at + |out| && d + EncodedLength(source[i..]) == at + EncodedLength(source)
      invariant destination[..] == mem[..at] + out + mem[d..]
      invariant out + EncodedOver(source[i..], mem[d..]) == EncodedOver(source, mem[at..])
    {
      EncodedRest(source, i, mem, d, out);
      ghost var head := EncodedHead(source[i..], mem[d..]);
      d := EncodeChar(destination, d, source[i], mem, at, out, head);
      out := out + head;
      i := i + 1;
    }
    EncodedEnd(source[i..], mem[d..]);
    assert out + [] == out;
  }

  lemma EncodedEnd(s: string, mem: seq<char>)
    requires s == []
    ensures EncodedLength(s) == 0 && EncodedOver(s, mem) == []
  {
  }

  lemma EncodedRest(source: string, i: nat, mem: seq<char>, d: nat, out: seq<char>)
    requires i < |source| && d + EncodedLength(source[i..]) <= |mem|
    ensures d < |mem| && source[i..] != [] && mem[d..] != []
    ensures var head := EncodedHead(source[i..], mem[d..]);
            && head == EncodedHead([source[i]], [mem[d]]) && d + |head| <= |mem|
            && |head| + EncodedLength(source[i + 1..]) == EncodedLength(source[i..])
            && (out + head) + EncodedOver(source[i + 1..], mem[d + |head|..]) == out + EncodedOver(source[i..], mem[d..])
  {
    assert source[i..][0] == source[i] && source[i..][1..] == source[i + 1..];
    assert EncodedLength(source[i..]) > 0;
    EncodedStep(source[i..], mem[d..]);
    var head := EncodedHead(source[i..], mem[d..]);
    assert mem[d..][|head|..] == mem[d + |head|..] && mem[d..][0] == mem[d];
    hide EncodedOver;
    var rest := EncodedOver(source[i + 1..], mem[d + |head|..]);
    assert out + (head + rest) == (out + head) + rest;
  }

  method EncodeChar(destination: array<char>, d: nat, c: char, ghost mem: seq<char>, ghost at: nat, ghost out: seq<char>, ghost head: seq<char>)
      returns (next: nat)
    requires d + |head| <= destination.Length == |mem| && at <= d == at + |out| < |mem| && head == EncodedHead([c], [mem[d]])
    requires destination[..] == mem[..at] + out + mem[d..]
    modifies destination
    ensures next == d + |head| && destination[..] == mem[..at] + (out + head) + mem[d + |head|..]
  {
    assert destination[d] == destination[..][d] == mem[d];
    next := d;
    if c == '/' {
      destination[next + 1] := '1';
      next := next + 1;
    } else if c == '~' {
      destination[next] := '~';
      destination[next + 1] := '1';
      next := next + 1;
    } else {
      destination[next] := c;
    }
    next := next + 1;
  }

  // ---------------------------------------------------------------- routes

  ghost predicate HasRoute(j: Json, route: seq<nat>) {
    route == [] || (j.IsContainer() && route[0] < |j.child| && HasRoute(j.child[route[0]].value, route[1..]))
  }

  function At(j: Json, route: seq<nat>): Json
    requires HasRoute(j, route)
  {
    if route == [] then j else At(j.child[route[0]].value, route[1..])
  }

  // ---------------------------------------------------------------- get_item_from_pointer

  /** The first member whose name the pointer begins with. */
  function FirstMatch(c: seq<Item>, pointer: string, cs: bool): (r: Option<nat>)
    ensures r.Some? ==> r.value < |c| && ComparePointers(c[r.value].key, pointer, cs)
    ensures forall i :: 0 <= i < (if r.Some? then r.value else |c|) ==> !ComparePointers(c[i].key, pointer, cs)
  {
    if c == [] then None
    else if ComparePointers(c[0].key, pointer, cs) then Some(0)
    else
      var r := FirstMatch(c[1..], pointer, cs);
      if r.None? then None else Some(r.value + 1)
  }

  /** The child that the first token of pointer names. */
  function Child(j: Json, pointer: string, cs: bool): (r: Option<nat>)
    ensures r.Some? ==> j.IsContainer() && r.value < |j.child|
  {
    match j
    case Array(c) =>
      var i := DecodeIndex(pointer);
      if i.Some? && i.value < |c| then i else None
    case Object(c) => FirstMatch(c, pointer, cs)
    case _ => None
  }

  /** get_item_from_pointer; a pointer that does not begin with a slash names the whole. */
  function Find(j: Json, pointer: string, cs: bool): (r: Option<seq<nat>>)
    ensures r.Some? ==> HasRoute(j, r.value)
    decreases |pointer|
  {
    if pointer == [] || pointer[0] != '/' then Some([])
    else
      var i := Child(j, pointer[1..], cs);
      if i.None? then None
      else
        var rest := Find(j.child[i.value].value, SkipToken(pointer[1..]), cs);
        if rest.None? then None else Some([i.value] + rest.value)
  }

  lemma FindUnfold(j: Json, p: string, cs: bool)
    ensures if p == [] || p[0] != '/' then Find(j, p, cs) == Some([])
            else
              var i := Child(j, p[1..], cs);
              i.Some? ==> Find(j, p, cs) == Behind([i.value], Find(j.child[i.value].value, SkipToken(p[1..]), cs))
    ensures p != [] && p[0] == '/' && Child(j, p[1..], cs).None? ==> Find(j, p, cs) == None
  {
    hide Child, SkipToken;
  }

  function Behind(done: seq<nat>, r: Option<seq<nat>>): Option<seq<nat>> {
    if r.None? then None else Some(done + r.value)
  }

  lemma BehindBoth(a: seq<nat>, b: seq<nat>, r: Option<seq<nat>>)
    ensures Behind(a, Behind(b, r)) == Behind(a + b, r)
  {
    if r.Some? { assert a + (b + r.value) == (a + b) + r.value; }
  }

  /** The loop of get_item_from_pointer. */
  method FindLoop(root: Json, pointer: string, cs: bool) returns (route: Option<seq<nat>>)
    ensures route == Find(root, pointer, cs)
  {
    hide Find, Child, Behind, DecodeIndex, FirstMatch;
    var current, p := root, pointer;
    var done: seq<nat> := [];
    assert Find(root, pointer, cs) == Behind([], Find(root, pointer, cs)) by { BehindNothing(Find(root, pointer, cs)); }
    while p != [] && p[0] == '/'
      invariant Find(root, pointer, cs) == Behind(done, Find(current, p, cs))
      decreases |p|
    {
      FindUnfold(current, p, cs);
      p := p[1..];
      var index := ChildLoop(current, p, cs);
      if index.None? {
        BehindNone(done);
        return None;
      }
      current := current.child[index.value].value;
      p := SkipLoop(p);
      BehindBoth(done, [index.value], Find(current, p, cs));
      done := done + [index.value];
    }
    FindUnfold(current, p, cs);
    assert Behind(done, Some([])) == Some(done) by { BehindEmpty(done); }
    return Some(done);
  }

  lemma BehindNothing(r: Option<seq<nat>>)
    ensures Behind([], r) == r
  {
    if r.Some? { assert [] + r.value == r.value; }
  }

  lemma BehindNone(done: seq<nat>)
    ensures Behind(done, None) == None
  {
  }

  lemma BehindEmpty(done: seq<nat>)
    ensures Behind(done, Some([])) == Some(done)
  {
    assert done + [] == done;
  }

  /** One step of the loop: an array is indexed, an object searched. */
  method ChildLoop(current: Json, p: string, cs: bool) returns (index: Option<nat>)
    ensures index == Child(current, p, cs)
  {
    index := None;
    if current.Array? {
      index := DecodeIndexLoop(p);
      if index.Some? && index.value >= |current.child| { index := None; }
    } else if current.Object? {
      index := FirstMatchLoop(current.child, p, cs);
    }
  }

  method FirstMatchLoop(c: seq<Item>, pointer: string, cs: bool) returns (r: Option<nat>)
    ensures r == FirstMatch(c, pointer, cs)
  {
    var i := 0;
    while i < |c|
      invariant 0 <= i <= |c| && forall k :: 0 <= k < i ==> !ComparePointers(c[k].key, pointer, cs)
    {
      var same := ComparePointersLoop(c[i].key, pointer, cs);
      if same {
        return Some(i);
      }
      i := i + 1;
    }
    return None;
  }

  method SkipLoop(p: string) returns (r: string)
    ensures r == SkipToken(p)
  {
    r := p;
    while r != [] && r[0] != '/'
      invariant SkipToken(r) == SkipToken(p)
      decreases |r|
    {
      r := r[1..];
    }
  }

  // ---------------------------------------------------------------- cJSONUtils_FindPointerFromObjectTo

  /** No array is longer than its indices can tell. */
  ghost predicate Countable(j: Json) {
    j.IsContainer() ==> (j.Array? ==> |j.child| < SIZE) && forall i :: 0 <= i < |j.child| ==> Countable(j.child[i].value)
  }

  function Token(j: Json, i: nat): string
    requires j.IsContainer() && i < |j.child|
  {
    if j.Array? then Digits(i) else j.child[i].key
  }

  /** The pointer to a node of a plain tree. */
  function PathTo(j: Json, route: seq<nat>): string
    requires HasRoute(j, route)
  {
    if route == [] then "" else "/" + Token(j, route[0]) + PathTo(j.child[route[0]].value, route[1..])
  }

  lemma {:induction false} SkipsPlain(t: string, rest: string)
    requires '/' !in t && (rest == [] || rest[0] == '/')
    ensures FirstToken(t + rest) == t && SkipToken(t + rest) == rest
  {
    var p := t + rest;
    if t == [] {
      assert p == rest;
    } else {
      var u := t[1..];
      assert '/' !in u && t[0] != '/';
      SkipsPlain(u, rest);
      assert p[0] == t[0] && p[1..] == u + rest;
      assert t == [t[0]] + u;
    }
  }

  lemma {:induction false} UnescapesPlain(t: string)
    requires '~' !in t
    ensures Unescape(t) == Some(t)
  {
    if t != [] {
      UnescapesPlain(t[1..]);
      assert t == [t[0]] + t[1..];
    }
  }

  /** For plain names and tokens, case does not matter to compare_pointers, and it compares for equality. */
  lemma PlainCompare(name: string, t: string, rest: string, cs: bool)
    requires PlainKey(name) && PlainKey(t) && (rest == [] || rest[0] == '/')
    ensures ComparePointers(name, t + rest, cs) <==> name == t
  {
    SkipsPlain(t, rest);
    UnescapesPlain(t);
    ComparePointersExact(name, t + rest);
    if !cs { CaseLess(name, t + rest, |t|); }
  }

  lemma {:induction false} CaseLess(name: string, p: string, n: nat)
    requires NoUpper(name) && n <= |p| && NoUpper(p[..n]) && (n < |p| ==> p[n] == '/') && '~' !in p[..n]
    ensures ComparePointers(name, p, false) == ComparePointers(name, p, true)
    decreases |name|
  {
    if name != [] && n > 0 {
      assert p[..n][0] == p[0] && p[..n][1..] == p[1..][..n - 1];
      if p[0] != '/' { CaseLess(name[1..], p[1..], n - 1); }
    }
  }

  /** The child that a token of a plain tree was taken from is found by it. */
  lemma ChildByToken(j: Json, i: nat, rest: string, cs: bool)
    requires Plain(j) && Countable(j) && j.IsContainer() && i < |j.child| && (rest == [] || rest[0] == '/')
    ensures Child(j, Token(j, i) + rest, cs) == Some(i) && '/' !in Token(j, i)
  {
    if j.Array? {
      IndexRoundTrip(i, rest);
    } else {
      forall k | 0 <= k < |j.child|
        ensures ComparePointers(j.child[k].key, Token(j, i) + rest, cs) <==> k == i
      {
        PlainCompare(j.child[k].key, j.child[i].key, rest, cs);
        assert Unique(j.child);
      }
    }
  }

  /** For every node of a plain tree, its pointer leads back to that very node. */
  lemma {:induction false} PointerInversion(j: Json, route: seq<nat>, cs: bool)
    requires Plain(j) && Countable(j) && HasRoute(j, route)
    ensures Find(j, PathTo(j, route), cs) == Some(route)
    decreases |route|
  {
    hide Plain, Countable, Token, Child, PathTo;
    if route == [] {
      assert PathTo(j, route) == "" by { PathStep(j, route); }
    } else {
      var i := route[0];
      var child := j.child[i].value;
      var rest := PathTo(child, route[1..]);
      PlainChild(j, i);
      PointerInversion(child, route[1..], cs);
      PathStep(j, route);
      PathStep(child, route[1..]);
      ChildByToken(j, i, rest, cs);
      SkipsPlain(Token(j, i), rest);
      assert PathTo(j, route)[1..] == Token(j, i) + rest;
      assert route == [i] + route[1..];
    }
  }

  lemma PathStep(j: Json, route: seq<nat>)
    requires HasRoute(j, route)
    ensures PathTo(j, route) ==
            if route == [] then "" else "/" + (Token(j, route[0]) + PathTo(j.child[route[0]].value, route[1..]))
    ensures route != [] ==> PathTo(j, route)[0] == '/'
  {
    hide Token;
    if route != [] {
      var rest := PathTo(j.child[route[0]].value, route[1..]);
      assert "/" + Token(j, route[0]) + rest == "/" + (Token(j, route[0]) + rest);
    }
  }

  lemma PlainChild(j: Json, i: nat)
    requires Plain(j) && Countable(j) && j.IsContainer() && i < |j.child|
    ensures Plain(j.child[i].value) && Countable(j.child[i].value)
  {
  }

  /** cJSONUtils_FindPointerFromObjectTo: a depth-first search for the node with route target, below the
      node with route here. */
  method FindPointerTo(node: Json, here: seq<nat>, target: seq<nat>) returns (pointer: Option<string>)
    requires Plain(node)
    ensures pointer == if here <= target && HasRoute(node, target[|here|..]) then Some(PathTo(node, target[|here|..])) else None
    decreases node
  {
    hide Plain, PathTo;
    if here == target {
      assert target[|here|..] == [];
      PathStep(node, []);
      return Some("");
    }
    if node.IsContainer() {
      var i := 0;
      while i < |node.child|
        invariant 0 <= i <= |node.child|
        invariant forall k :: 0 <= k < i ==> !(here + [k] <= target && HasRoute(node.child[k].value, target[|here| + 1..]))
      {
        PlainItem(node, i);
        var below := FindPointerTo(node.child[i].value, here + [i], target);
        assert |here + [i]| == |here| + 1;
        if below.Some? {
          RouteThrough(node, here, target, i);
          assert "/" + (Token(node, i) + below.value) == "/" + Token(node, i) + below.value;
          PathStep(node, target[|here|..]);
          if node.Array? {
            return Some("/" + (Digits(i) + below.value));
          }
          var name := EncodeKey(node.child[i].key);
          return Some(name + below.value);
        }
        i := i + 1;
      }
    }
    return None;
  }

  /** The memory for a name is as it comes from malloc. */
  method EncodeKey(key: string) returns (s: string)
    ensures PlainKey(key) ==> s == "/" + key
  {
    var length := EncodedLength(key);
    var full := new char[1 + length];
    full[0] := '/';
    ghost var mem := full[1..];
    EncodeStringAsPointer(full, 1, key);
    s := full[..];
    assert full[1 + length..] == [];
    if PlainKey(key) { EncodePlain(key, mem); }
  }

  lemma PlainItem(j: Json, i: nat)
    requires Plain(j) && j.IsContainer() && i < |j.child|
    ensures Plain(j.child[i].value) && (j.Object? ==> PlainKey(j.child[i].key))
  {
  }

  lemma RouteThrough(j: Json, here: seq<nat>, target: seq<nat>, i: nat)
    requires j.IsContainer() && i < |j.child|
    requires here + [i] <= target && HasRoute(j.child[i].value, target[|here| + 1..])
    ensures here <= target && |here| < |target| && HasRoute(j, target[|here|..]) && target[|here|..][0] == i
    ensures target[|here|..][1..] == target[|here| + 1..]
  {
    assert target[|here|] == (here + [i])[|here|] == i;
    assert target[..|here|] == (here + [i])[..|here|] == here;
  }
}
