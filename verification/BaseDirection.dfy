/** Paragraph direction, 3rd/fribidi/fribidi-bidi.c: rules P2 and P3, by one counter; BD9 says with
    matching initiators and PDIs which characters P2 must skip. */
module BaseDirection {
  import opened BidiTypes
  import opened Wrappers
  import opened RunList
  import opened ExplicitRules
  import opened Explicit
  import ExplicitText
  import IsolateLevels

  // ---------------------------------------------------------------- the rules

  /** PDIs less initiators in [a, b). */
  function Net(types: seq<CharType>, a: int, b: int): int
    requires 0 <= a && b <= |types|
    decreases b - a
  {
    if b <= a then 0
    else Net(types, a, b - 1) + (if types[b - 1].PDI? then 1 else if IsInitiator(types[b - 1]) then -1 else 0)
  }

  /** Not more is closed than opened between y and z. */
  predicate NotClosed(types: seq<CharType>, y: int, z: int)
    requires 0 <= y && z <= |types|
  {
    Net(types, y + 1, z) <= 0
  }

  /** BD9: initiator y has no matching PDI before x. */
  ghost predicate OpenAt(types: seq<CharType>, y: int, x: int)
    requires x <= |types|
  {
    0 <= y < x && IsInitiator(types[y]) && forall z :: y < z <= x ==> NotClosed(types, y, z)
  }

  /** P2: x is between an initiator and its matching PDI, or behind an initiator without one. */
  ghost predicate InIsolate(types: seq<CharType>, x: int)
    requires x <= |types|
  {
    exists y :: OpenAt(types, y, x)
  }

  /** The characters P2 looks for: types L, R and AL. */
  predicate IsStrongLetter(t: CharType) { t == LTR || t == RTL || t == AL }

  /** P2: x is such a character that no isolate holds. */
  ghost predicate Counts(types: seq<CharType>, x: int)
    requires x <= |types|
  {
    0 <= x < |types| && IsStrongLetter(types[x]) && !InIsolate(types, x)
  }

  ghost predicate FirstStrongAt(types: seq<CharType>, x: int)
    requires x <= |types|
  {
    Counts(types, x) && forall y :: 0 <= y < x ==> !Counts(types, y)
  }

  /** P3: level 1 for an R or AL, level 0 for an L. */
  predicate LetterGives(t: CharType, level: int, dir: CharType) {
    if t == RTL || t == AL then level == 1 && dir == RTL else level == 0 && dir == LTR
  }

  /** A direction of the caller's that P2 and P3 do not change, LTR or RTL; the others are given for completeness. */
  predicate IsFixed(wanted: CharType) { wanted in {LTR, RTL, AL, LRE, RLE, LRO, RLO} }

  /** The level of the caller's direction: of those there are 1 for RTL and the weak RTL, 0 for LTR, the weak LTR and ON. */
  function WantedLevel(wanted: CharType): int { if wanted in {RTL, WRTL, AL, RLE, RLO, RLI} then 1 else 0 }

  /** P2 and P3: the base level and the direction passed back. */
  ghost predicate IsBase(types: seq<CharType>, wanted: CharType, level: int, dir: CharType) {
    if !IsFixed(wanted) && exists x :: FirstStrongIn(types, x) then
      exists x :: FirstStrongIn(types, x) && LetterGives(types[x], level, dir)
    else level == WantedLevel(wanted) && dir == wanted
  }

  ghost predicate FirstStrongIn(types: seq<CharType>, x: int) { 0 <= x < |types| && FirstStrongAt(types, x) }

  // ---------------------------------------------------------------- the counter

  /** The initiators that are open before n, innermost last. */
  ghost predicate AreOpen(types: seq<CharType>, open: seq<int>, n: int)
    requires n <= |types|
  {
    && (forall k, l :: 0 <= k < l < |open| ==> open[k] < open[l])
    && (forall y :: y in open <==> OpenAt(types, y, n))
  }

  lemma NetNext(types: seq<CharType>, y: int, n: nat)
    requires n < |types| && 0 <= y < n
    ensures Net(types, y + 1, n + 1) == Net(types, y + 1, n) + (if types[n].PDI? then 1 else if IsInitiator(types[n]) then -1 else 0)
  {
  }

  lemma {:induction false} NetSplit(types: seq<CharType>, a: int, b: int, c: int)
    requires 0 <= a <= b <= c <= |types|
    ensures Net(types, a, c) == Net(types, a, b) + Net(types, b, c)
    decreases c - b
  {
    if b < c { NetSplit(types, a, b, c - 1); }
  }

  lemma OpenNext(types: seq<CharType>, y: int, n: nat)
    requires n < |types|
    ensures OpenAt(types, y, n + 1) <==>
              (y == n && IsInitiator(types[n]))
              || (OpenAt(types, y, n) && Net(types, y + 1, n + 1) <= 0)
  {
    hide Net;
    if OpenAt(types, y, n + 1) { assert NotClosed(types, y, n + 1); }
    if y == n && IsInitiator(types[n]) {
      assert Net(types, n + 1, n + 1) == 0 by { NetEmpty(types, n + 1); }
    } else if OpenAt(types, y, n) && Net(types, y + 1, n + 1) <= 0 {
      assert NotClosed(types, y, n + 1);
      forall z | y < z <= n + 1
        ensures NotClosed(types, y, z)
      {
        if z != n + 1 { assert z <= n; }
      }
    }
  }

  lemma NetEmpty(types: seq<CharType>, a: nat)
    requires a <= |types|
    ensures Net(types, a, a) == 0
  {
  }

  /** What a character that is neither an initiator nor a PDI leaves as it is. */
  lemma OpenSame(types: seq<CharType>, open: seq<int>, n: nat)
    requires n < |types| && AreOpen(types, open, n) && !types[n].IsIsolate()
    ensures AreOpen(types, open, n + 1)
  {
    hide Net, OpenAt;
    forall y
      ensures OpenAt(types, y, n + 1) <==> OpenAt(types, y, n)
    {
      OpenNext(types, y, n);
      OpenMeans(types, y, n);
      if OpenAt(types, y, n) { NetNext(types, y, n); }
    }
  }

  lemma OpenMeans(types: seq<CharType>, y: int, n: nat)
    requires n <= |types|
    ensures OpenAt(types, y, n) ==> 0 <= y < n && IsInitiator(types[y]) && Net(types, y + 1, n) <= 0
  {
    if OpenAt(types, y, n) { assert NotClosed(types, y, n); }
  }

  lemma OpenPush(types: seq<CharType>, open: seq<int>, n: nat)
    requires n < |types| && AreOpen(types, open, n) && IsInitiator(types[n])
    ensures AreOpen(types, open + [n], n + 1)
  {
    hide Net, OpenAt;
    forall y
      ensures OpenAt(types, y, n + 1) <==> y == n || OpenAt(types, y, n)
    {
      OpenNext(types, y, n);
      OpenMeans(types, y, n);
      if OpenAt(types, y, n) { NetNext(types, y, n); }
    }
    forall k | 0 <= k < |open|
      ensures open[k] < n
    {
      assert open[k] in open;
      OpenMeans(types, open[k], n);
    }
    var more := open + [n];
    assert forall y :: y in more <==> y == n || y in open;
    assert forall k, l :: 0 <= k < l < |more| ==> more[k] < more[l];
  }

  /** A PDI closes the innermost initiator, and no other. */
  lemma OpenPop(types: seq<CharType>, open: seq<int>, n: nat)
    requires n < |types| && AreOpen(types, open, n) && types[n].PDI?
    ensures AreOpen(types, if open == [] then [] else open[..|open| - 1], n + 1)
  {
    hide Net, OpenAt;
    forall y
      ensures OpenAt(types, y, n + 1) ==> OpenAt(types, y, n)
    {
      OpenNext(types, y, n);
    }
    if open != [] {
      var last := open[|open| - 1];
      assert last in open;
      OpenMeans(types, last, n);
      InnermostIsBalanced(types, open, n);
      NetNext(types, last, n);
      OpenNext(types, last, n);
      assert !OpenAt(types, last, n + 1);
      var rest := open[..|open| - 1];
      forall y
        ensures y in rest <==> OpenAt(types, y, n + 1)
      {
        if y in rest {
          var k :| 0 <= k < |rest| && rest[k] == y;
          assert open[k] == y;
          OuterStaysOpen(types, y, last, n);
        }
        assert y in open ==> y == last || y in rest by { InFront(open, y); }
      }
    }
  }

  lemma InFront(s: seq<int>, y: int)
    requires s != []
    ensures y in s ==> y == s[|s| - 1] || y in s[..|s| - 1]
  {
    assert s == s[..|s| - 1] + [s[|s| - 1]];
  }

  /** Behind the innermost open initiator as many isolates were closed as opened. */
  lemma InnermostIsBalanced(types: seq<CharType>, open: seq<int>, n: nat)
    requires n <= |types| && AreOpen(types, open, n) && open != []
    ensures open[|open| - 1] in open && open[|open| - 1] >= 0
    ensures Net(types, open[|open| - 1] + 1, n) == 0
  {
    var last := open[|open| - 1];
    assert last in open;
    OpenMeans(types, last, n);
    if Net(types, last + 1, n) < 0 {
      var y := FindOpen(types, last + 1, n);
      assert false;
    }
  }

  /** Where more is opened than closed, something stays open. */
  lemma {:induction false} FindOpen(types: seq<CharType>, a: nat, n: nat) returns (y: int)
    requires a <= n <= |types| && Net(types, a, n) < 0
    ensures a <= y && OpenAt(types, y, n)
    decreases n - a
  {
    NetSplit(types, a, a + 1, n);
    assert Net(types, a, a + 1) == (if types[a].PDI? then 1 else if IsInitiator(types[a]) then -1 else 0) by { NetNextFrom(types, a); }
    hide Net;
    if Net(types, a + 1, n) < 0 {
      y := FindOpen(types, a + 1, n);
    } else {
      y := a;
      if z :| a < z <= n && !NotClosed(types, a, z) {
        NetSplit(types, a + 1, z, n);
        y := FindOpen(types, z, n);
      }
    }
  }

  lemma NetNextFrom(types: seq<CharType>, a: nat)
    requires a < |types|
    ensures Net(types, a, a + 1) == (if types[a].PDI? then 1 else if IsInitiator(types[a]) then -1 else 0)
  {
    assert Net(types, a, a) == 0;
  }

  lemma OuterStaysOpen(types: seq<CharType>, y: int, last: int, n: nat)
    requires n < |types| && types[n].PDI? && y < last && OpenAt(types, y, n) && OpenAt(types, last, n) && Net(types, last + 1, n) == 0
    ensures OpenAt(types, y, n + 1)
  {
    hide Net;
    assert NotClosed(types, y, last);
    OpenNext(types, y, n);
    NetNext(types, y, n);
    NetSplit(types, y + 1, last, n);
    NetSplit(types, last, last + 1, n);
    NetNextFrom(types, last);
  }

  /** The isolates that the explicit pass counts are those of BD9. */
  lemma {:induction false} OpenIsolatesAre(types: seq<CharType>, n: nat)
    requires n <= |types|
    ensures AreOpen(types, IsolateLevels.OpenIsolates(types, n), n)
  {
    hide OpenAt, Net;
    if n == 0 {
      NoneOpen(types);
    } else {
      var p := n - 1;
      OpenIsolatesAre(types, p);
      var open := IsolateLevels.OpenIsolates(types, p);
      IsolateLevels.OpenNext(types, p);
      if IsInitiator(types[p]) {
        OpenPush(types, open, p);
      } else if types[p].PDI? {
        OpenPop(types, open, p);
        if open == [] { assert IsolateLevels.OpenIsolates(types, n) == []; }
      } else {
        OpenSame(types, open, p);
      }
    }
  }

  // ---------------------------------------------------------------- the look-ahead of an FSI

  /** The PDI in front of e closes the isolate whose text begins at a, being the first one with count more PDIs than
      initiators before it; up to it no letter stands outside inner isolates. */
  ghost predicate EndsAt(rest: seq<CharType>, a: nat, count: nat, e: int) {
    && a < e <= |rest| && rest[e - 1].PDI? && Net(rest, a, e) == count + 1
    && (forall z :: a <= z < e ==> AtMost(rest, a, z, count))
    && forall x :: a <= x < e ==> !LetterAt(rest, a, x, count)
  }

  predicate AtMost(rest: seq<CharType>, a: nat, z: int, count: int)
    requires z <= |rest|
  {
    Net(rest, a, z) <= count
  }

  /** A letter in front of which, from a on, there are n more PDIs than initiators. */
  predicate LetterAt(rest: seq<CharType>, a: nat, x: int, n: int)
    requires x < |rest|
  {
    a <= x && IsStrongLetter(rest[x]) && Net(rest, a, x) == n
  }

  /** The first such letter is an R or AL. */
  ghost predicate RtlAt(rest: seq<CharType>, a: nat, x: int, n: int) {
    && a <= x < |rest| && LetterAt(rest, a, x, n) && (rest[x] == RTL || rest[x] == AL)
    && forall y :: a <= y < x ==> !LetterAt(rest, a, y, n)
  }

  /** How the counts from a and from a + 1 on differ. */
  function Change(t: CharType): int { if t.PDI? then 1 else if IsInitiator(t) then -1 else 0 }

  lemma NetFrom(rest: seq<CharType>, a: nat, x: int)
    requires a < x <= |rest|
    ensures Net(rest, a, x) == Net(rest, a + 1, x) + Change(rest[a])
  {
    NetSplit(rest, a, a + 1, x);
    NetNextFrom(rest, a);
  }

  lemma LetterFrom(rest: seq<CharType>, a: nat, x: int, n: int)
    requires a <= x < |rest|
    ensures LetterAt(rest, a, x, n) <==> if x == a then n == 0 && rest[a].IsLetter() else LetterAt(rest, a + 1, x, n - Change(rest[a]))
  {
    if x == a { NetEmpty(rest, a); } else { NetFrom(rest, a, x); }
    hide Net;
  }

  /** The search of the program from a on finds the first letter at which the count is n. */
  lemma {:induction false} CodeFinds(rest: seq<CharType>, a: nat, n: int)
    requires a <= |rest|
    ensures CodeFirstStrong(rest[a..], n) <==> exists x :: RtlAt(rest, a, x, n)
    decreases |rest| - a
  {
    hide LetterAt;
    if a < |rest| {
      var b, m := a + 1, n - Change(rest[a]);
      CodeFinds(rest, b, m);
      assert rest[a..][1..] == rest[b..];
      LetterFrom(rest, a, a, n);
      if n == 0 && rest[a].IsLetter() {
        assert RtlAt(rest, a, a, n) <==> rest[a].IsRtl();
      } else {
        forall x
          ensures RtlAt(rest, a, x, n) <==> RtlAt(rest, b, x, m)
        {
          RtlFrom(rest, a, b, x, n, m);
        }
      }
    }
  }

  lemma RtlFrom(rest: seq<CharType>, a: nat, b: nat, x: int, n: int, m: int)
    requires a < |rest| && b == a + 1 && m == n - Change(rest[a]) && !(n == 0 && rest[a].IsLetter())
    ensures RtlAt(rest, a, x, n) <==> RtlAt(rest, b, x, m)
  {
    hide LetterAt;
    if a <= x < |rest| {
      LetterFrom(rest, a, a, n);
      forall y | b <= y <= x
        ensures LetterAt(rest, a, y, n) <==> LetterAt(rest, b, y, m)
      {
        LetterFrom(rest, a, y, n);
      }
    }
  }

  lemma EndFrom(rest: seq<CharType>, a: nat, b: nat, e: int, n: nat, m: nat)
    requires a < |rest| && b == a + 1 && m == n - Change(rest[a]) && !(n == 0 && rest[a].IsLetter())
    ensures EndsAt(rest, a, n, e) <==> EndsAt(rest, b, m, e)
  {
    hide LetterAt;
    if a < e <= |rest| {
      NetEmpty(rest, a);
      NetNextFrom(rest, a);
      LetterFrom(rest, a, a, n);
      forall z | b <= z <= e
        ensures Net(rest, a, z) == Net(rest, b, z) + Change(rest[a])
      {
        NetFrom(rest, a, z);
      }
      assert AtMost(rest, a, a, n);
      forall y | b <= y < e
        ensures LetterAt(rest, a, y, n) <==> LetterAt(rest, b, y, m)
        ensures AtMost(rest, a, y, n) <==> AtMost(rest, b, y, m)
      {
        LetterFrom(rest, a, y, n);
      }
      hide Net;
    }
  }

  /** Where the search of the rules ends without a letter. */
  lemma {:induction false} EndIs(rest: seq<CharType>, a: nat, count: nat, e: int)
    requires a <= |rest|
    ensures IsolateEnd(rest[a..], count).Some? && e == a + IsolateEnd(rest[a..], count).value <==> EndsAt(rest, a, count, e)
    decreases |rest| - a
  {
    if a < |rest| {
      var b := a + 1;
      assert rest[a..][1..] == rest[b..];
      if rest[a].PDI? && count == 0 {
        PdiEnds(rest, a, e);
      } else if count == 0 && rest[a].IsLetter() {
        LetterFrom(rest, a, a, 0);
        hide Net, LetterAt;
      } else {
        var m: nat := count - Change(rest[a]);
        EndIs(rest, b, m, e);
        EndFrom(rest, a, b, e, count, m);
        hide EndsAt;
      }
    }
  }

  lemma PdiEnds(rest: seq<CharType>, a: nat, e: int)
    requires a < |rest| && rest[a].PDI?
    ensures EndsAt(rest, a, 0, e) <==> e == a + 1
  {
    NetEmpty(rest, a);
    NetNextFrom(rest, a);
    hide Net;
    var b := a + 1;
    assert !AtMost(rest, a, b, 0);
    if e == b {
      assert AtMost(rest, a, a, 0) && !LetterAt(rest, a, a, 0);
    }
  }

  /** The isolate has no letter of its own, and the first letter behind its PDI, in front of which one more initiator than PDIs
      has been met since, is right to left. */
  ghost predicate Misled(rest: seq<CharType>) {
    exists e, x :: EndsAt(rest, 0, 0, e) && 0 <= e && RtlAt(rest, e, x, -1)
  }

  /** That is when the look-ahead of an FSI does not find the direction of X5c. */
  lemma FirstStrongExact(rest: seq<CharType>)
    ensures CodeFirstStrong(rest, 0) == SpecFirstStrong(rest, 0) <==> !Misled(rest)
  {
    hide CodeFirstStrong, SpecFirstStrong, IsolateEnd, EndsAt, RtlAt;
    FirstStrongAgrees(rest, 0);
    assert rest[0..] == rest;
    forall e
      ensures EndsAt(rest, 0, 0, e) <==> IsolateEnd(rest, 0).Some? && e == IsolateEnd(rest, 0).value
    {
      EndIs(rest, 0, 0, e);
    }
    if IsolateEnd(rest, 0).Some? {
      var e := IsolateEnd(rest, 0).value;
      assert EndsAt(rest, 0, 0, e);
      CodeFinds(rest, e, -1);
    }
  }

  lemma {:induction false} SeparatorIsNoLetter(rest: seq<CharType>, count: int)
    ensures CodeFirstStrong(rest + [BS], count) == CodeFirstStrong(rest, count)
  {
    var more := rest + [BS];
    if rest == [] {
      assert more[1..] == [];
    } else {
      assert more[1..] == rest[1..] + [BS];
      SeparatorIsNoLetter(rest[1..], if rest[0].PDI? then count - 1 else if rest[0].IsIsolate() then count + 1 else count);
    }
  }

  /** When the program and X5c give an FSI of a paragraph different directions. */
  lemma FsiDiffers(types: seq<CharType>, i: nat)
    requires i < ExplicitText.ParagraphEnd(types) && |types| <= ExplicitText.ParagraphEnd(types) + 1
    ensures ExplicitText.CodeRtl(types, i) != ExplicitText.SpecRtl(types, i) <==>
            Misled(types[i + 1..ExplicitText.ParagraphEnd(types)])
  {
    hide *;
    var rest := types[i + 1..ExplicitText.ParagraphEnd(types)];
    FirstStrongExact(rest);
    DirectionsRead(types, i, rest);
  }

  lemma DirectionsRead(types: seq<CharType>, i: nat, rest: seq<CharType>)
    requires i < ExplicitText.ParagraphEnd(types) && |types| <= ExplicitText.ParagraphEnd(types) + 1
    requires rest == types[i + 1..ExplicitText.ParagraphEnd(types)]
    ensures ExplicitText.CodeRtl(types, i) == CodeFirstStrong(rest, 0) && ExplicitText.SpecRtl(types, i) == SpecFirstStrong(rest, 0)
  {
    hide ExplicitText.ParagraphEnd, CodeFirstStrong, SpecFirstStrong;
    if ExplicitText.ParagraphEnd(types) < |types| {
      SeparatorIsNoLetter(rest, 0);
      assert types[i + 1..] == rest + [BS];
    } else {
      assert types[i + 1..] == rest;
    }
  }

  // ---------------------------------------------------------------- the loop

  lemma NoneOpen(types: seq<CharType>)
    ensures AreOpen(types, [], 0)
  {
  }

  lemma CountsNone(types: seq<CharType>, open: seq<int>, n: nat)
    requires n <= |types| && AreOpen(types, open, n)
    ensures InIsolate(types, n) <==> open != []
  {
    if open != [] { assert open[0] in open; }
  }

  /** A whole run of one type, not an isolate character. */
  lemma {:induction false} OpenRun(types: seq<CharType>, open: seq<int>, p: nat, n: nat)
    requires p + n <= |types| && AreOpen(types, open, p) && forall x :: p <= x < p + n ==> !types[x].IsIsolate()
    ensures forall x :: p <= x <= p + n ==> AreOpen(types, open, x)
    decreases n
  {
    if n > 0 {
      OpenRun(types, open, p, n - 1);
      OpenSame(types, open, p + n - 1);
    }
  }

  /** No letter before n counts. */
  ghost predicate NoneCounts(types: seq<CharType>, n: nat)
    requires n <= |types|
  {
    forall y :: 0 <= y < n ==> !Counts(types, y)
  }

  /** A run none of whose characters count: it is in an isolate, or no run of letters. */
  lemma RunCountsNot(types: seq<CharType>, open: seq<int>, r: Run)
    requires RunOf(r, types, r.pos + r.len) && !r.typ.IsIsolate() && AreOpen(types, open, r.pos)
    requires open != [] || !r.typ.IsLetter()
    requires NoneCounts(types, r.pos)
    ensures NoneCounts(types, r.pos + r.len) && AreOpen(types, open, r.pos + r.len)
  {
    OpenRun(types, open, r.pos, r.len);
    forall y | r.pos <= y < r.pos + r.len
      ensures !Counts(types, y)
    {
      CountsNone(types, open, y);
    }
  }

  /** The search for the first strong run. */
  method FindBase(runs: seq<Run>, wanted: CharType, ghost types: seq<CharType>) returns (baseLevel: int, dir: CharType)
    requires RunsOf(runs, types, 0)
    ensures IsBase(types, wanted, baseLevel, dir) && 0 <= baseLevel <= 1
  {
    hide AreOpen, Counts, Net, OpenAt, NoneCounts, InIsolate, IsBase, RunsOf, RunOf;
    baseLevel, dir := wanted.ToLevel(), wanted;
    StrongBase(types, wanted);
    if wanted.IsStrong() {
      return;
    }
    var j, count := 0, 0;
    ghost var n := 0;
    ghost var open: seq<int> := [];
    NoneOpen(types);
    NoneCountsYet(types);
    assert runs[0..] == runs;
    while j < |runs|
      invariant 0 <= j <= |runs| && 0 <= n <= |types| && RunsOf(runs[j..], types, n)
      invariant AreOpen(types, open, n) && count == |open| && NoneCounts(types, n)
    {
      var r := runs[j];
      NextRun(runs, j, types, n);
      if r.typ.PDI? {
        OpenPop(types, open, n);
        IsolateCountsNot(types, n);
        if count > 0 {
          open := open[..|open| - 1];
          count := count - 1;
        }
      } else if r.typ.IsIsolate() {
        OpenPush(types, open, n);
        IsolateCountsNot(types, n);
        open := open + [n];
        count := count + 1;
      } else if count == 0 && r.typ.IsLetter() {
        CountsNone(types, open, n);
        FoundFirst(types, n);
        baseLevel := r.typ.ToLevel();
        dir := LevelToDir(baseLevel);
        FoundBase(types, wanted, n);
        return;
      } else {
        RunCountsNot(types, open, r);
      }
      n := n + r.len;
      j := j + 1;
    }
    NoRunLeft(runs[j..], types, n);
    NoneFound(types);
    NoBase(types, wanted);
  }

  lemma NextRun(runs: seq<Run>, j: nat, types: seq<CharType>, n: nat)
    requires j < |runs| && RunsOf(runs[j..], types, n)
    ensures var r := runs[j];
            && r.pos == n && RunOf(r, types, n + r.len) && RunsOf(runs[j + 1..], types, n + r.len)
            && 0 < r.len && n + r.len <= |types| && types[n] == r.typ && (r.typ.IsIsolate() ==> r.len == 1)
  {
    assert runs[j..][0] == runs[j] && runs[j..][1..] == runs[j + 1..];
  }

  lemma NoRunLeft(runs: seq<Run>, types: seq<CharType>, n: nat)
    requires RunsOf(runs, types, n) && runs == []
    ensures n == |types|
  {
  }

  lemma NoneCountsYet(types: seq<CharType>)
    ensures NoneCounts(types, 0)
  {
  }

  lemma StrongBase(types: seq<CharType>, wanted: CharType)
    ensures wanted.IsStrong() ==> IsBase(types, wanted, wanted.ToLevel(), wanted)
  {
    hide FirstStrongIn;
  }

  lemma FoundBase(types: seq<CharType>, wanted: CharType, n: nat)
    requires n < |types| && FirstStrongAt(types, n) && !wanted.IsStrong()
    ensures IsBase(types, wanted, types[n].ToLevel(), LevelToDir(types[n].ToLevel()))
  {
    hide InIsolate;
    assert FirstStrongIn(types, n);
    assert LetterGives(types[n], types[n].ToLevel(), LevelToDir(types[n].ToLevel()));
    assert !IsFixed(wanted);
  }

  lemma NoBase(types: seq<CharType>, wanted: CharType)
    requires !wanted.IsStrong() && !exists x :: FirstStrongIn(types, x)
    ensures IsBase(types, wanted, wanted.ToLevel(), wanted)
  {
    hide FirstStrongIn;
  }

  lemma IsolateCountsNot(types: seq<CharType>, n: nat)
    requires n < |types| && types[n].IsIsolate() && NoneCounts(types, n)
    ensures NoneCounts(types, n + 1)
  {
  }

  lemma FoundFirst(types: seq<CharType>, n: nat)
    requires n < |types| && types[n].IsLetter() && !InIsolate(types, n) && NoneCounts(types, n)
    ensures FirstStrongAt(types, n)
  {
  }

  lemma NoneFound(types: seq<CharType>)
    requires NoneCounts(types, |types|)
    ensures !exists x :: FirstStrongIn(types, x)
  {
    hide InIsolate;
  }
}
