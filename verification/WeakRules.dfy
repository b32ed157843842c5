/** Rules W3 to W7 of UAX #9, one pass after the other over the isolating run sequences of a list, and the proof that
    the one pass of 3rd/fribidi/fribidi-bidi.c is their composition. */
module WeakRules {
  import opened BidiTypes
  import opened RunList
  import opened Resolve
  import opened Sequences

  // ---------------------------------------------------------------- the rules

  /** W3: AL changes to R. */
  function W3(nodes: seq<Run>): (r: seq<Run>)
    ensures |r| == |nodes| && forall k :: 0 <= k < |r| ==> r[k] == nodes[k].(typ := if nodes[k].typ.AL? then RTL else nodes[k].typ)
  {
    seq(|nodes|, k requires 0 <= k < |nodes| => nodes[k].(typ := if nodes[k].typ.AL? then RTL else nodes[k].typ))
  }

  /** W4: a single ES between two EN changes to EN, a single CS between two numbers of one type to that type. */
  function W4Type(nodes: seq<Run>, k: nat): CharType
    requires 1 <= k < |nodes|
  {
    var p, n := PrevIn(nodes, k), NextIn(nodes, k);
    if nodes[k].typ.IsEsOrCs() && nodes[k].len == 1 && p > 0 && n > 0 && nodes[p].typ == nodes[n].typ
       && (nodes[p].typ.EN? || (nodes[p].typ.AN? && nodes[k].typ.CS?)) then nodes[p].typ
    else nodes[k].typ
  }

  function W4(nodes: seq<Run>): (r: seq<Run>)
    ensures |r| == |nodes| && forall k :: 0 <= k < |r| ==> r[k] == if k == 0 then nodes[k] else nodes[k].(typ := W4Type(nodes, k))
  {
    seq(|nodes|, k requires 0 <= k < |nodes| => if k == 0 then nodes[k] else nodes[k].(typ := W4Type(nodes, k)))
  }

  /** An EN stands before the terminators that end with run k. */
  predicate NumberLeft(nodes: seq<Run>, k: nat)
    requires 1 <= k < |nodes|
    decreases k
  {
    var p := PrevIn(nodes, k);
    p > 0 && (nodes[p].typ.EN? || (nodes[p].typ.ET? && NumberLeft(nodes, p)))
  }

  predicate NumberRight(nodes: seq<Run>, k: nat)
    requires 1 <= k < |nodes|
    decreases |nodes| - k
  {
    var n := NextIn(nodes, k);
    n > 0 && (nodes[n].typ.EN? || (nodes[n].typ.ET? && NumberRight(nodes, n)))
  }

  /** W5: a sequence of ET next to an EN changes to EN. */
  function W5Type(nodes: seq<Run>, k: nat): CharType
    requires 1 <= k < |nodes|
  {
    if nodes[k].typ.ET? && (NumberLeft(nodes, k) || NumberRight(nodes, k)) then EN else nodes[k].typ
  }

  function W5(nodes: seq<Run>): (r: seq<Run>)
    ensures |r| == |nodes| && forall k :: 0 <= k < |r| ==> r[k] == if k == 0 then nodes[k] else nodes[k].(typ := W5Type(nodes, k))
  {
    seq(|nodes|, k requires 0 <= k < |nodes| => if k == 0 then nodes[k] else nodes[k].(typ := W5Type(nodes, k)))
  }

  /** W6: other separators and terminators change to ON. */
  function W6(nodes: seq<Run>): (r: seq<Run>)
    ensures |r| == |nodes|
    ensures forall k :: 0 <= k < |r| ==> r[k] == nodes[k].(typ := if nodes[k].typ.IsNumberSeparatorOrTerminator() then ON else nodes[k].typ)
  {
    seq(|nodes|, k requires 0 <= k < |nodes| =>
          nodes[k].(typ := if nodes[k].typ.IsNumberSeparatorOrTerminator() then ON else nodes[k].typ))
  }

  /** The first strong type before run k in its sequence, or sos. */
  function StrongLeft(nodes: seq<Run>, k: nat, base: int): CharType
    requires 1 <= k < |nodes|
    decreases k
  {
    var p := PrevIn(nodes, k);
    if p == 0 then Sos(nodes, k, base) else if nodes[p].typ.IsLetter() then nodes[p].typ else StrongLeft(nodes, p, base)
  }

  /** W7: an EN whose first strong type before it is L changes to L. */
  function W7Type(nodes: seq<Run>, k: nat, base: int): CharType
    requires 1 <= k < |nodes|
  {
    if nodes[k].typ.EN? && StrongLeft(nodes, k, base).LTR? then LTR else nodes[k].typ
  }

  function W7(nodes: seq<Run>, base: int): (r: seq<Run>)
    ensures |r| == |nodes| && forall k :: 0 <= k < |r| ==> r[k] == if k == 0 then nodes[k] else nodes[k].(typ := W7Type(nodes, k, base))
  {
    seq(|nodes|, k requires 0 <= k < |nodes| => if k == 0 then nodes[k] else nodes[k].(typ := W7Type(nodes, k, base)))
  }

  function WeakResolved(nodes: seq<Run>, base: int): seq<Run> { W7(W6(W5(W4(W3(nodes)))), base) }

  // ---------------------------------------------------------------- what the pass relies on

  /** A sequence of terminators is one run. */
  ghost predicate TerminatorsWhole(nodes: seq<Run>) {
    forall k :: 1 <= k < |nodes| && nodes[k].typ.ET? && NextIn(nodes, k) > 0 ==> !nodes[NextIn(nodes, k)].typ.ET?
  }

  /** The list that the pass starts from. */
  ghost predicate Plain(nodes: seq<Run>, base: int) {
    && |nodes| > 0 && Nested(nodes) && AtLeast(nodes, base) && TerminatorsWhole(nodes)
    && nodes[0].typ == Sentinel && forall k :: 1 <= k < |nodes| ==> nodes[k].typ != Sentinel && !IsEmbeddingType(nodes[k].typ)
  }

  /** The codes of X9 are out of the list. */
  predicate IsEmbeddingType(t: CharType) { t.LRE? || t.RLE? || t.LRO? || t.RLO? }

  // ---------------------------------------------------------------- neighbours are the same in every pass

  lemma SameNeighbours(a: seq<Run>, b: seq<Run>, k: nat)
    requires SameFrame(a, b) && 1 <= k < |a|
    ensures PrevIn(a, k) == PrevIn(b, k) && NextIn(a, k) == NextIn(b, k)
  {
    var j := k - 1;
    LinkBeforeSame(a, b, j, a[k].isolateLevel);
    ForwardSame(a, b, k + 1, a[k].isolateLevel);
  }

  lemma {:induction false} ForwardSame(a: seq<Run>, b: seq<Run>, j: nat, isolateLevel: int)
    requires SameFrame(a, b)
    ensures LinkForward(a, j, isolateLevel) == LinkForward(b, j, isolateLevel)
    decreases |a| - j
  {
    if j < |a| { ForwardSame(a, b, j + 1, isolateLevel); }
  }

  lemma SameSos(a: seq<Run>, b: seq<Run>, k: nat, base: int)
    requires SameFrame(a, b) && 1 <= k < |a|
    ensures Sos(a, k, base) == Sos(b, k, base) && Eos(a, k, base) == Eos(b, k, base)
  {
  }

  lemma RulesKeepFrame(nodes: seq<Run>, base: int)
    ensures var a3 := W3(nodes);
            var a4 := W4(a3);
            var a5 := W5(a4);
            var a6 := W6(a5);
            SameFrame(nodes, a3) && SameFrame(nodes, a4) && SameFrame(nodes, a5) && SameFrame(nodes, a6) && SameFrame(nodes, W7(a6, base))
  {
    hide W4Type, W5Type, W7Type;
  }

  // ---------------------------------------------------------------- W3 to W6 in one step

  /** W4 for run k, by the types of the list before W3. */
  predicate JoinsFour(was: seq<Run>, k: nat)
    requires 1 <= k < |was|
  {
    var p, n := PrevIn(was, k), NextIn(was, k);
    && was[k].typ.IsEsOrCs() && was[k].len == 1 && p > 0 && n > 0 && was[p].typ == was[n].typ
    && (was[p].typ.EN? || (was[p].typ.AN? && was[k].typ.CS?))
  }

  /** W5 for run k, by the types of the list before W3. */
  predicate EndsFive(was: seq<Run>, k: nat)
    requires 1 <= k < |was|
  {
    var p, n := PrevIn(was, k), NextIn(was, k);
    was[k].typ.ET? && ((p > 0 && was[p].typ.EN?) || (n > 0 && was[n].typ.EN?))
  }

  function TypeSix(was: seq<Run>, k: nat): CharType
    requires 1 <= k < |was|
  {
    if was[k].typ.AL? then RTL
    else if JoinsFour(was, k) then was[PrevIn(was, k)].typ
    else if EndsFive(was, k) then EN
    else if was[k].typ.IsNumberSeparatorOrTerminator() then ON
    else was[k].typ
  }

  /** In a nested list the run before, if of the same level, is the one before in the sequence. */
  lemma PhysicalBefore(was: seq<Run>, k: nat)
    requires Nested(was) && 1 <= k < |was| && !was[k].typ.PDI? && !was[k].typ.BS?
    ensures PrevIn(was, k) == if k > 1 && was[k - 1].level == was[k].level then k - 1 else 0
    ensures PrevIn(was, k) > 0 ==> NextIn(was, k - 1) == k
  {
    hide CanOpen;
    if k > 1 {
      var j := k - 1;
      StepOf(was, j);
    }
  }

  lemma FourIs(was: seq<Run>, k: nat)
    requires 1 <= k < |was|
    ensures W4(W3(was))[k].typ == if JoinsFour(was, k) then was[PrevIn(was, k)].typ else if was[k].typ.AL? then RTL else was[k].typ
  {
    var a := W3(was);
    SameNeighbours(was, a, k);
    hide PrevIn, NextIn;
  }

  /** What is a terminator after W4 was one before, and what is an EN next to one was an EN. */
  lemma BesideTerminator(was: seq<Run>, k: nat, j: nat)
    requires 1 <= k < |was| && 1 <= j < |was| && Nested(was) && was[k].typ.ET?
    requires (j == PrevIn(was, k) && NextIn(was, j) == k) || (j == NextIn(was, k) && PrevIn(was, j) == k)
    ensures W4(W3(was))[j].typ.EN? <==> was[j].typ.EN?
    ensures W4(W3(was))[j].typ.ET? <==> was[j].typ.ET?
  {
    FourIs(was, j);
    hide PrevIn, NextIn;
  }

  /** The run after a terminator goes back to it. */
  lemma NextGoesBack(was: seq<Run>, k: nat)
    requires Nested(was) && 1 <= k < |was| && !CanOpen(was[k].typ) && !was[k].typ.BS? && NextIn(was, k) > 0
    ensures NextIn(was, k) == k + 1 && PrevIn(was, k + 1) == k
  {
    StepOf(was, k);
    hide CanOpen;
  }

  lemma FiveIs(was: seq<Run>, k: nat)
    requires 1 <= k < |was| && Nested(was) && TerminatorsWhole(was) && was[k].typ.ET?
    ensures W5(W4(W3(was)))[k].typ == if EndsFive(was, k) then EN else ET
  {
    hide PrevIn, NextIn, W3, W4, JoinsFour, Nested;
    var a := W4(W3(was));
    RulesKeepFrame(was, 0);
    SameNeighbours(was, a, k);
    FourIs(was, k);
    FourKeepsTerminator(was, k);
    PhysicalBefore(was, k);
    var p, n := PrevIn(was, k), NextIn(was, k);
    if n > 0 {
      NextGoesBack(was, k);
      BesideTerminator(was, k, n);
    }
    if p > 0 {
      BesideTerminator(was, k, p);
      assert !was[p].typ.ET?;
    }
  }

  lemma FourKeepsTerminator(was: seq<Run>, k: nat)
    requires 1 <= k < |was| && was[k].typ.ET?
    ensures !JoinsFour(was, k)
  {
    hide PrevIn, NextIn;
  }

  lemma SixIs(was: seq<Run>, k: nat)
    requires 1 <= k < |was| && Nested(was) && TerminatorsWhole(was)
    ensures W6(W5(W4(W3(was))))[k].typ == TypeSix(was, k)
  {
    FourIs(was, k);
    if was[k].typ.ET? {
      FiveIs(was, k);
    } else {
      assert !W4(W3(was))[k].typ.ET?;
    }
    hide PrevIn, NextIn;
  }

  // ---------------------------------------------------------------- the pass sees the same

  /** What the pass remembers of the run before a separator or terminator. */
  lemma OrigIs(was: seq<Run>, now: seq<Run>, base: int, k: nat)
    requires Plain(was, base) && WeakUpTo(was, now, |was|) && 1 <= k < |was| && was[k].typ.IsNumberSeparatorOrTerminator()
    ensures var o, p := OrigBefore(was, now, k), PrevIn(was, k);
            && (p > 0 ==> p == k - 1 && NextIn(was, p) == k)
            && (o.EN? ==> p > 0 && (was[p].typ.EN? || (was[p].typ.ET? && !now[p].typ.ON?)))
            && (p > 0 && was[p].typ.EN? ==> o.EN?)
            && (o.AN? <==> p > 0 && was[p].typ.AN?)
  {
    hide PrevIn, NextIn, TypeBefore, TypeAfter, LastStrong, Nested, AtLeast, TerminatorsWhole;
    PhysicalBefore(was, k);
    if k > 1 {
      var j := k - 1;
      assert now[j].typ == WeakType(was, now, j);
      if PrevIn(was, k) > 0 && was[j].typ.IsEsOrCs() { RightIs(was, base, j); }
    }
  }

  lemma FourAgrees(was: seq<Run>, now: seq<Run>, base: int, k: nat)
    requires Plain(was, base) && WeakUpTo(was, now, |was|) && 1 <= k < |was|
    ensures JoinsNumbers(was, now, k) <==> JoinsFour(was, k)
  {
    if was[k].typ.IsEsOrCs() {
      OrigIs(was, now, base, k);
      RightIs(was, base, k);
      var p := PrevIn(was, k);
      hide PrevIn, NextIn, TypeBefore, TypeAfter, LastStrong, OrigBefore;
    }
  }

  lemma FiveAgrees(was: seq<Run>, now: seq<Run>, base: int, k: nat)
    requires Plain(was, base) && WeakUpTo(was, now, |was|) && 1 <= k < |was|
    ensures EndsNumber(was, now, k) <==> EndsFive(was, k)
  {
    if was[k].typ.ET? {
      OrigIs(was, now, base, k);
      RightIs(was, base, k);
      hide PrevIn, NextIn, TypeBefore, TypeAfter, LastStrong, OrigBefore;
    }
  }

  /** The type of each run after the pass: W6, then W7 by what the pass remembers. */
  lemma PassIs(was: seq<Run>, now: seq<Run>, base: int, k: nat)
    requires Plain(was, base) && WeakUpTo(was, now, |was|) && 1 <= k < |was|
    ensures var t := TypeSix(was, k);
            && (JoinsFour(was, k) ==> PrevIn(was, k) == k - 1 && now[k].typ == TypeBefore(now, k))
            && (!JoinsFour(was, k) ==> now[k].typ == if t.EN? && LastStrong(now, k).LTR? then LTR else t)
  {
    FourAgrees(was, now, base, k);
    FiveAgrees(was, now, base, k);
    if JoinsFour(was, k) { PhysicalBefore(was, k); }
    assert now[k].typ == WeakType(was, now, k);
    hide PrevIn, NextIn, TypeBefore, TypeAfter, LastStrong, OrigBefore, JoinsNumbers, EndsNumber;
  }

  /** The pass changes neither PDIs nor separators, nor types that may open an isolate. */
  lemma RetypedWeak(was: seq<Run>, now: seq<Run>, base: int)
    requires Plain(was, base) && WeakUpTo(was, now, |was|)
    ensures Retyped(was, now)
  {
    WeakFrame(was, now);
    hide Plain, WeakUpTo, RetypedOne;
    forall k | 1 <= k < |was|
      ensures RetypedOne(was[k].typ, now[k].typ)
    {
      WeakRetypes(was, now, base, k);
    }
  }

  lemma WeakFrame(was: seq<Run>, now: seq<Run>)
    requires WeakUpTo(was, now, |was|)
    ensures SameFrame(was, now)
  {
  }

  lemma WeakRetypes(was: seq<Run>, now: seq<Run>, base: int, k: nat)
    requires Plain(was, base) && WeakUpTo(was, now, |was|) && SameFrame(was, now) && 1 <= k < |was|
    ensures RetypedOne(was[k].typ, now[k].typ)
  {
    hide TypeBefore, LastStrong, PrevIn, NextIn, Plain, WeakUpTo, SameFrame, RetypedOne, TypeSix, JoinsFour;
    PassIs(was, now, base, k);
    if JoinsFour(was, k) {
      var p := PrevIn(was, k);
      JoinsNumber(was, k);
      PassIs(was, now, base, p);
      JoinedType(was, now, k);
      SixRetypes(was, p);
    } else {
      SixRetypes(was, k);
    }
    FrameLength(was, now);
    NumberRetypes(was, now, k);
  }

  lemma FrameLength(was: seq<Run>, now: seq<Run>)
    requires SameFrame(was, now)
    ensures |was| == |now|
  {
  }

  lemma JoinsNumber(was: seq<Run>, k: nat)
    requires 1 <= k < |was| && JoinsFour(was, k)
    ensures PrevIn(was, k) > 0 && was[PrevIn(was, k)].typ.IsNumber() && was[k].typ.IsEsOrCs() && !JoinsFour(was, PrevIn(was, k))
  {
    hide PrevIn, NextIn;
  }

  /** What becomes of types: where an isolate may open nothing changes, and the others become numbers or no PDI. */
  lemma SixRetypes(was: seq<Run>, k: nat)
    requires 1 <= k < |was|
    ensures !JoinsFour(was, k) ==> RetypedOne(was[k].typ, TypeSix(was, k)) && (TypeSix(was, k).EN? ==> !CanOpen(was[k].typ))
    ensures was[k].typ.IsNumber() ==> TypeSix(was, k).IsNumber()
  {
    hide PrevIn, NextIn;
  }

  lemma NumberRetypes(was: seq<Run>, now: seq<Run>, k: nat)
    requires 1 <= k < |was| == |now|
    ensures was[k].typ.IsEsOrCs() && (now[k].typ.IsNumber() || now[k].typ.LTR?) ==> RetypedOne(was[k].typ, now[k].typ)
    ensures was[k].typ.IsNumber() && now[k].typ.LTR? ==> RetypedOne(was[k].typ, now[k].typ)
    ensures TypeSix(was, k).EN? && RetypedOne(was[k].typ, EN) ==> RetypedOne(was[k].typ, LTR)
  {
    hide TypeSix;
  }

  lemma JoinedType(was: seq<Run>, now: seq<Run>, k: nat)
    requires SameFrame(was, now) && 1 <= k < |was| && PrevIn(was, k) > 0
    ensures TypeBefore(now, k) == now[PrevIn(was, k)].typ
  {
    var j := k - 1;
    LinkBeforeSame(was, now, j, was[k].isolateLevel);
  }

  lemma AfterPass(was: seq<Run>, now: seq<Run>, base: int)
    requires Plain(was, base) && WeakUpTo(was, now, |was|)
    ensures Nested(now) && AtLeast(now, base)
  {
    RetypedWeak(was, now, base);
    NestedRetyped(was, now);
    hide WeakType, CanOpen;
    forall k | 1 <= k < |now|
      ensures 0 <= now[k].level && (base <= now[k].level || now[k].typ.BS?)
    {
      assert RetypedOne(was[k].typ, now[k].typ);
    }
  }

  /** Run by run: the pass looks back to the strong type of W7, and leaves the type of the rules. */
  lemma {:induction false} PassAgrees(was: seq<Run>, now: seq<Run>, base: int, k: nat)
    requires Plain(was, base) && WeakUpTo(was, now, |was|) && Nested(now) && AtLeast(now, base)
    requires 1 <= k < |was| && !was[k].typ.BS?
    ensures LastStrong(now, k) == StrongLeft(W6(W5(W4(W3(was)))), k, base)
    ensures now[k].typ == W7Type(W6(W5(W4(W3(was)))), k, base)
    decreases k
  {
    var p := PrevIn(was, k);
    if p > 0 {
      StepOf(was, p);
      PassAgrees(was, now, base, p);
    }
    hide Nested;
    StrongAgrees(was, now, base, k);
    TypeAgrees(was, now, base, k);
  }

  lemma StrongAgrees(was: seq<Run>, now: seq<Run>, base: int, k: nat)
    requires Plain(was, base) && WeakUpTo(was, now, |was|) && Nested(now) && AtLeast(now, base)
    requires 1 <= k < |was| && !was[k].typ.BS?
    requires var p, a := PrevIn(was, k), W6(W5(W4(W3(was))));
             p > 0 ==> LastStrong(now, p) == StrongLeft(a, p, base) && now[p].typ == W7Type(a, p, base)
    ensures LastStrong(now, k) == StrongLeft(W6(W5(W4(W3(was)))), k, base)
  {
    var a := W6(W5(W4(W3(was))));
    var p := PrevIn(was, k);
    RulesKeepFrame(was, base);
    SameNeighbours(was, a, k);
    SameNeighbours(was, now, k);
    SameSos(was, a, k, base);
    SameSos(was, now, k, base);
    RetypedWeak(was, now, base);
    assert RetypedOne(was[k].typ, now[k].typ);
    LeftIs(now, base, k);
    LastStrongIs(now, k);
    SosIsStrong(was, k, base);
    if p > 0 {
      SixIs(was, p);
      SixIsPlain(was, base, p);
      BeforeIs(now, k);
    } else {
      FirstHasNone(now, base, k);
    }
    StrongLeftIs(a, k, base);
    hide W3, W4, W5, W6, LastStrong, StrongLeft, TypeBefore, PrevIn, NextIn, Sos, TypeSix, Plain, WeakUpTo, AtLeast, Retyped, SameFrame;
  }

  lemma SosIsStrong(nodes: seq<Run>, k: nat, base: int)
    requires 1 <= k < |nodes|
    ensures Sos(nodes, k, base) in {LTR, RTL}
  {
  }

  lemma SixIsPlain(was: seq<Run>, base: int, p: nat)
    requires Plain(was, base) && 1 <= p < |was|
    ensures !IsEmbeddingType(TypeSix(was, p)) && !TypeSix(was, p).AL?
  {
    hide PrevIn, NextIn;
  }

  lemma BeforeIs(nodes: seq<Run>, k: nat)
    requires 1 <= k < |nodes| && PrevIn(nodes, k) > 0
    ensures Before(nodes, k) == PrevIn(nodes, k) && TypeBefore(nodes, k) == nodes[PrevIn(nodes, k)].typ
  {
  }

  lemma FirstHasNone(nodes: seq<Run>, base: int, k: nat)
    requires 1 <= k < |nodes| && PrevIn(nodes, k) == 0 && TypeBefore(nodes, k) == TypeLeft(nodes, k, base)
    ensures TypeBefore(nodes, k) == Sos(nodes, k, base)
  {
  }

  lemma StrongLeftIs(a: seq<Run>, k: nat, base: int)
    requires 1 <= k < |a|
    ensures var p := PrevIn(a, k);
            StrongLeft(a, k, base) == if p == 0 then Sos(a, k, base) else if a[p].typ.IsLetter() then a[p].typ else StrongLeft(a, p, base)
  {
  }

  lemma TypeAgrees(was: seq<Run>, now: seq<Run>, base: int, k: nat)
    requires Plain(was, base) && WeakUpTo(was, now, |was|) && 1 <= k < |was|
    requires var p, a := PrevIn(was, k), W6(W5(W4(W3(was))));
             && LastStrong(now, k) == StrongLeft(a, k, base)
             && (p > 0 ==> now[p].typ == W7Type(a, p, base))
    ensures now[k].typ == W7Type(W6(W5(W4(W3(was)))), k, base)
  {
    var a := W6(W5(W4(W3(was))));
    var p := PrevIn(was, k);
    PassIs(was, now, base, k);
    SixIs(was, k);
    if JoinsFour(was, k) {
      SixIs(was, p);
      JoinedType(was, now, k);
      RulesKeepFrame(was, base);
      SameNeighbours(was, a, k);
      StrongLeftIs(a, k, base);
    }
    hide W3, W4, W5, W6, LastStrong, StrongLeft, TypeBefore, PrevIn, NextIn, Sos, Plain, WeakUpTo, SameFrame;
  }

  /** W3 to W7: the one pass gives every run what the five rules give it, one after the other. */
  lemma PassIsRules(was: seq<Run>, now: seq<Run>, base: int)
    requires Plain(was, base) && WeakUpTo(was, now, |was|)
    ensures now == WeakResolved(was, base)
  {
    AfterPass(was, now, base);
    RulesKeepFrame(was, base);
    var r := WeakResolved(was, base);
    forall k | 0 <= k < |was|
      ensures now[k] == r[k]
    {
      if k > 0 {
        if was[k].typ.BS? {
          SeparatorKept(was, now, base, k);
        } else {
          PassAgrees(was, now, base, k);
        }
      }
      hide W3, W4, W5, W6, W7Type, Nested, AtLeast, TerminatorsWhole, WeakType;
    }
  }

  lemma SeparatorKept(was: seq<Run>, now: seq<Run>, base: int, k: nat)
    requires Plain(was, base) && WeakUpTo(was, now, |was|) && 1 <= k < |was| && was[k].typ.BS?
    ensures now[k].typ == W7Type(W6(W5(W4(W3(was)))), k, base)
  {
    SixIs(was, k);
    PassIs(was, now, base, k);
    hide PrevIn, NextIn, LastStrong, StrongLeft;
  }
}
