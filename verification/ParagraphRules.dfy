/** Rules W1 to N2 of UAX #9 for a whole paragraph: for a text in which no isolate is rejected the stages of
    3rd/fribidi/fribidi-bidi.c are those rules over isolating run sequences, and where they are not it is said when. */
module ParagraphRules {
  import opened BidiTypes
  import opened Wrappers
  import opened RunList
  import opened ExplicitRules
  import opened ExplicitText
  import opened IsolateLevels
  import opened Explicit
  import opened Brackets
  import opened Resolve
  import opened Marks
  import opened Sequences
  import opened WeakRules
  import opened Neutrals
  import opened NeutralRules
  import opened PairRules
  import opened Nesting

  // ---------------------------------------------------------------- runs that no rule spoils

  /** Only other neutrals are brackets; the types of the text are those of characters. */
  ghost predicate Proper(types: seq<CharType>, brackets: Option<seq<Bracket>>) {
    && Sentinel !in types && (brackets.Some? ==> |brackets.value| == |types|)
    && forall x :: 0 <= x < |types| && BracketAt(brackets, x) != NoBracket ==> types[x].ON?
  }

  predicate RunFine(r: Run, base: int) {
    && 0 <= r.level && (base <= r.level || r.typ.BS?) && r.typ != Sentinel && !IsEmbeddingType(r.typ)
    && (r.bracket != NoBracket ==> r.typ in {ON, LTR, RTL})
  }

  ghost predicate AllFine(nodes: seq<Run>, base: int) {
    0 <= base && |nodes| > 0 && nodes[0].typ == Sentinel && forall k :: 1 <= k < |nodes| ==> RunFine(nodes[k], base)
  }

  lemma FineAtLeast(nodes: seq<Run>, base: int)
    requires AllFine(nodes, base)
    ensures AtLeast(nodes, base)
  {
  }

  lemma {:induction false} FineCompacted(nodes: seq<Run>, i: nat, neutrals: bool, base: int)
    requires AllFine(nodes, base)
    ensures AllFine(Compacted(nodes, i, neutrals), base)
    decreases |nodes| - i
  {
    hide Merged, AllFine;
    if i < |nodes| {
      if i >= 2 && Joinable(nodes[i - 1], nodes[i], neutrals) {
        FineMerged(nodes, i, base);
        MergedAt(nodes, i, 0);
        FineCompacted(Merged(nodes, i), i, neutrals, base);
      } else {
        FineCompacted(nodes, i + 1, neutrals, base);
      }
    }
  }

  lemma FineMerged(nodes: seq<Run>, i: nat, base: int)
    requires AllFine(nodes, base) && 2 <= i < |nodes|
    ensures AllFine(Merged(nodes, i), base)
  {
    hide Merged;
    var m := Merged(nodes, i);
    MergedAt(nodes, i, 0);
    forall k | 1 <= k < |m|
      ensures RunFine(m[k], base)
    {
      MergedAt(nodes, i, k);
      assert RunFine(nodes[if k < i then k else k + 1], base);
    }
  }

  lemma {:induction false} AtLeastCompacted(nodes: seq<Run>, i: nat, neutrals: bool, base: int)
    requires AtLeast(nodes, base)
    ensures AtLeast(Compacted(nodes, i, neutrals), base)
    decreases |nodes| - i
  {
    hide Merged, AtLeast;
    if i < |nodes| {
      if i >= 2 && Joinable(nodes[i - 1], nodes[i], neutrals) {
        AtLeastMerged(nodes, i, base);
        MergedAt(nodes, i, 0);
        AtLeastCompacted(Merged(nodes, i), i, neutrals, base);
      } else {
        AtLeastCompacted(nodes, i + 1, neutrals, base);
      }
    }
  }

  lemma AtLeastMerged(nodes: seq<Run>, i: nat, base: int)
    requires AtLeast(nodes, base) && 2 <= i < |nodes|
    ensures AtLeast(Merged(nodes, i), base)
  {
    hide Merged;
    var m := Merged(nodes, i);
    MergedAt(nodes, i, 0);
    forall k | 1 <= k < |m|
      ensures 0 <= m[k].level && (base <= m[k].level || m[k].typ.BS?)
    {
      MergedAt(nodes, i, k);
    }
  }

  lemma AtLeastRetyped(a: seq<Run>, b: seq<Run>, base: int)
    requires AtLeast(a, base) && Retyped(a, b)
    ensures AtLeast(b, base)
  {
    hide CanOpen;
    forall k | 1 <= k < |b|
      ensures 0 <= b[k].level && (base <= b[k].level || b[k].typ.BS?)
    {
      assert RetypedOne(a[k].typ, b[k].typ);
    }
  }

  lemma MainFine(main: seq<Run>, explicits: seq<Run>, types: seq<CharType>, brackets: Option<seq<Bracket>>, base: int)
    requires IsMain(main, explicits, types, brackets, base) && Regular(types, base) && Proper(types, brackets)
    ensures AllFine(main, base)
  {
    MainAtLeast(main, explicits, types, brackets, base);
    MainIsList(main, explicits, types, brackets, base);
    hide IsMain, Regular, TypeOf, LevelOf, IsolateLevelOf, InRun, ParagraphEnd, Proper;
    forall k | 1 <= k < |main|
      ensures RunFine(main[k], base)
    {
      var x := FirstOf(main, explicits, types, brackets, base, k);
      InText(main, types, k, x);
      RunHas(main, explicits, types, brackets, base, k, x);
      KeptFine(main, types, brackets, base, k, x);
    }
  }

  lemma MainIsList(main: seq<Run>, explicits: seq<Run>, types: seq<CharType>, brackets: Option<seq<Bracket>>, base: int)
    requires IsMain(main, explicits, types, brackets, base)
    ensures IsList(main) && |main| > 0 && main[0].typ == Sentinel
  {
    FitsIsList(main, explicits, |types|);
  }

  lemma KeptFine(main: seq<Run>, types: seq<CharType>, brackets: Option<seq<Bracket>>, base: int, k: nat, x: nat)
    requires Regular(types, base) && Proper(types, brackets) && k < |main| && InRun(main, types, k, x)
    ensures TypeOf(types, base, x) != Sentinel && !IsEmbeddingType(TypeOf(types, base, x))
    ensures BracketAt(brackets, x) != NoBracket ==> TypeOf(types, base, x) in {ON, LTR, RTL}
  {
    BeforeEnd(types, base, x);
    RegularBase(types, base);
    CodeStatusBounded(types, base, x);
    hide CodeStatus, ParagraphEnd, Regular;
    TopOverride(CodeStatus(types, base, x));
    assert types[x] in types;
  }

  // ---------------------------------------------------------------- W1 and W2

  /** W1 and W2 look at the run before in the sequence, and at sos: a mark has the type before it, */
  lemma MarkedByRule(was: seq<Run>, base: int, k: nat)
    requires Nested(was) && AtLeast(was, base) && 1 <= k < |was| && !was[k].typ.BS?
    ensures MarkedBefore(was, k) == if PrevIn(was, k) > 0 then Marked(was, PrevIn(was, k)) else Sos(was, k, base)
  {
    BeforeCases(was, base, k);
    hide LinkBefore, CanOpen, Marked, Nested, AtLeast;
  }

  lemma BeforeCases(was: seq<Run>, base: int, k: nat)
    requires Nested(was) && AtLeast(was, base) && 1 <= k < |was| && !was[k].typ.BS?
    ensures var p := Before(was, k);
            && p < k && 0 <= was[k].level && base <= was[k].level
            && (p > 0 ==> was[p].isolateLevel == was[k].isolateLevel && (was[p].level == was[k].level || p == k - 1))
            && (p == 0 ==> k == 1 || was[k - 1].level < was[k].level)
  {
    hide CanOpen;
    if k > 1 {
      var j := k - 1;
      StepOf(was, j);
    }
  }

  /** and a number looks back to the first strong type of its sequence. */
  lemma StrongByRule(was: seq<Run>, base: int, k: nat)
    requires Nested(was) && AtLeast(was, base) && 1 <= k < |was| && !was[k].typ.BS?
    ensures var p := PrevIn(was, k);
            StrongBefore(was, k) == if p == 0 then Sos(was, k, base)
                                    else if Marked(was, p).IsStrong() then Marked(was, p) else StrongBefore(was, p)
  {
    MarkedByRule(was, base, k);
    SosIsStrong(was, k, base);
    hide LinkBefore, Marked, MarkedBefore, Nested, AtLeast, Sos;
  }

  /** W1: a mark gets the type of the character before it in its isolating run sequence, ON behind an initiator or a PDI, and
      sos at the start of the sequence. */
  function W1Type(nodes: seq<Run>, k: nat, base: int): CharType
    requires 1 <= k < |nodes|
    decreases k
  {
    var p := PrevIn(nodes, k);
    if nodes[k].typ != NSM then nodes[k].typ
    else if p == 0 then Sos(nodes, k, base)
    else if nodes[p].typ in {LRI, RLI, FSI, PDI} then ON
    else W1Type(nodes, p, base)
  }

  /** W2 searches backwards from a European number for R, L, AL or sos, */
  function StrongSince(nodes: seq<Run>, k: nat, base: int): CharType
    requires 1 <= k < |nodes|
    decreases k
  {
    var p := PrevIn(nodes, k);
    if p == 0 then Sos(nodes, k, base)
    else if W1Type(nodes, p, base) in {LTR, RTL, AL} then W1Type(nodes, p, base)
    else StrongSince(nodes, p, base)
  }

  /** and makes it an Arabic number if it finds AL. */
  function W2Type(nodes: seq<Run>, k: nat, base: int): CharType
    requires 1 <= k < |nodes|
  {
    if W1Type(nodes, k, base) == EN && StrongSince(nodes, k, base) == AL then AN else W1Type(nodes, k, base)
  }

  /** The run of the initiator or PDI that marks up to run k stand right behind; 0 if there is none. */
  function IsolateBefore(nodes: seq<Run>, k: nat): (p: nat)
    requires 1 <= k < |nodes|
    ensures p < k && (p > 0 ==> nodes[p].typ in {LRI, RLI, FSI, PDI})
    decreases k
  {
    var p := PrevIn(nodes, k);
    if nodes[k].typ != NSM || p == 0 then 0
    else if nodes[p].typ in {LRI, RLI, FSI, PDI} then p
    else IsolateBefore(nodes, p)
  }

  /** The loop of the program gives the type of W1 and W2, and where W1 makes a mark ON behind an initiator or a PDI the type
      of that character, a neutral as well. */
  ghost predicate MarkByRule(nodes: seq<Run>, k: nat, base: int)
    requires 1 <= k < |nodes|
  {
    var p := IsolateBefore(nodes, k);
    if p == 0 then Marked(nodes, k) == W2Type(nodes, k, base) else Marked(nodes, k) == nodes[p].typ && W2Type(nodes, k, base) == ON
  }

  ghost predicate StrongSinceIs(nodes: seq<Run>, k: nat, base: int)
    requires 1 <= k < |nodes|
  {
    StrongBefore(nodes, k) == StrongSince(nodes, k, base)
  }

  ghost predicate NoCodes(nodes: seq<Run>) { forall k :: 1 <= k < |nodes| ==> !IsEmbeddingType(nodes[k].typ) }

  lemma {:induction false} MarksByRule(nodes: seq<Run>, base: int, k: nat)
    requires Nested(nodes) && AtLeast(nodes, base) && NoCodes(nodes) && 1 <= k < |nodes| && !nodes[k].typ.BS?
    ensures MarkByRule(nodes, k, base) && StrongSinceIs(nodes, k, base)
    decreases k
  {
    hide PrevIn, Nested, AtLeast, Sos, MarkByRule, StrongSinceIs, Marked, StrongBefore, MarkedBefore;
    var p := PrevIn(nodes, k);
    if p > 0 {
      PrevIsNoSeparator(nodes, k);
      MarksByRule(nodes, base, p);
    }
    StrongStep(nodes, base, k);
    MarkStep(nodes, base, k);
  }

  lemma PrevIsNoSeparator(nodes: seq<Run>, k: nat)
    requires Nested(nodes) && 1 <= k < |nodes| && PrevIn(nodes, k) > 0
    ensures !nodes[PrevIn(nodes, k)].typ.BS?
  {
    hide PrevIn, Continues, Sequences.Opens, Closes, EndsInside;
    assert NestedStep(nodes, PrevIn(nodes, k));
  }

  lemma StrongStep(nodes: seq<Run>, base: int, k: nat)
    requires Nested(nodes) && AtLeast(nodes, base) && NoCodes(nodes) && 1 <= k < |nodes| && !nodes[k].typ.BS?
    requires var p := PrevIn(nodes, k); p > 0 ==> MarkByRule(nodes, p, base) && StrongSinceIs(nodes, p, base)
    ensures StrongSinceIs(nodes, k, base)
  {
    StrongByRule(nodes, base, k);
    var p := PrevIn(nodes, k);
    if p > 0 { W1IsNoCode(nodes, p, base); }
    hide PrevIn, Nested, AtLeast, Sos, Marked, StrongBefore, W1Type, IsolateBefore;
  }

  lemma {:induction false} W1IsNoCode(nodes: seq<Run>, k: nat, base: int)
    requires NoCodes(nodes) && 1 <= k < |nodes|
    ensures !IsEmbeddingType(W1Type(nodes, k, base))
    decreases k
  {
    hide PrevIn;
    var p := PrevIn(nodes, k);
    if p > 0 { W1IsNoCode(nodes, p, base); }
  }

  lemma MarkStep(nodes: seq<Run>, base: int, k: nat)
    requires Nested(nodes) && AtLeast(nodes, base) && 1 <= k < |nodes| && !nodes[k].typ.BS? && StrongSinceIs(nodes, k, base)
    requires var p := PrevIn(nodes, k); p > 0 ==> MarkByRule(nodes, p, base) && StrongSinceIs(nodes, p, base)
    ensures MarkByRule(nodes, k, base)
  {
    var p := PrevIn(nodes, k);
    MarkedByRule(nodes, base, k);
    if p > 0 { StrongByRule(nodes, base, k); }
    hide PrevIn, Nested, AtLeast, StrongBefore, MarkedBefore;
  }

  lemma {:induction false} MarkedFine(was: seq<Run>, base: int, k: nat)
    requires AllFine(was, base) && 1 <= k < |was|
    ensures MarkedBefore(was, k) != Sentinel && !IsEmbeddingType(MarkedBefore(was, k))
    ensures Marked(was, k) != Sentinel && !IsEmbeddingType(Marked(was, k))
    decreases k
  {
    hide LinkBefore;
    assert RunFine(was[k], base);
    if Before(was, k) > 0 { MarkedFine(was, base, Before(was, k)); }
  }

  /** Every run after the loop comes from one before it. */
  lemma GroupOf(was: seq<Run>, now: seq<Run>, m: seq<nat>, g: nat) returns (l: nat)
    requires Mirrors(was, now, m, |was|, |now|) && 1 <= g < |now|
    ensures 1 <= l < |was| && m[l] == g && m[l - 1] == g - 1 && !Joined(was, l)
  {
    hide Marked, Like, StillIs, Joined;
    if g > 1 {
      l := GroupStart(was, now, m, g - 1);
    } else {
      FirstGroup(was, now, m);
      l := 1;
    }
    var h := l - 1;
    assert m[l] == m[h] + 1;
  }

  lemma MarksFine(was: seq<Run>, now: seq<Run>, m: seq<nat>, base: int)
    requires AllFine(was, base) && Mirrors(was, now, m, |was|, |now|)
    ensures AllFine(now, base)
  {
    hide Marked, MarkedBefore, Joined;
    forall g | 1 <= g < |now|
      ensures RunFine(now[g], base)
    {
      var l := GroupOf(was, now, m, g);
      assert Like(was, now, m, l) && RunFine(was[l], base);
      MarkedFine(was, base, l);
      MarkedOpen(was, l);
    }
  }

  /** A terminator behind a terminator has become part of it. */
  lemma TerminatorBehind(was: seq<Run>, base: int, l: nat)
    requires 2 <= l < |was| && AllFine(was, base) && Apart(was, |was|, false) && !Joined(was, l) && Marked(was, l - 1).ET?
    requires was[l].level == was[l - 1].level && was[l].isolateLevel == was[l - 1].isolateLevel
    ensures !Marked(was, l).ET?
  {
    var h := l - 1;
    assert Before(was, l) == h;
    assert MarkedBefore(was, l) == Marked(was, h);
    assert RunFine(was[h], base) && RunFine(was[l], base);
    assert ApartAt(was, l, false);
    if was[l].typ.ET? {
      assert After(was, h) == l;
      if was[h].typ.NSM? { TerminatorNotPreset(was, base, h); }
    }
    hide Before, After, StrongBefore, MarkedBefore;
  }

  lemma TerminatorNotPreset(was: seq<Run>, base: int, h: nat)
    requires AllFine(was, base) && 1 <= h < |was| && was[h].typ.NSM? && Marked(was, h).ET?
    ensures !Preset(was, h) && MarkedBefore(was, h).ET?
  {
    if Preset(was, h) { PresetIsAn(was, h); }
  }

  lemma NoTwoTerminators(was: seq<Run>, now: seq<Run>, m: seq<nat>, base: int, g: nat)
    requires AllFine(was, base) && Apart(was, |was|, false) && Mirrors(was, now, m, |was|, |now|) && 1 <= g < |now| - 1
    requires now[g].typ.ET? && now[g].level == now[g + 1].level && now[g].isolateLevel == now[g + 1].isolateLevel
    ensures !now[g + 1].typ.ET?
  {
    hide Marked, MarkedBefore, Joined, AllFine, Apart;
    var l := GroupOf(was, now, m, g + 1);
    var h := l - 1;
    assert Like(was, now, m, l) && Like(was, now, m, h);
    TerminatorBehind(was, base, l);
  }

  lemma MarksPlain(was: seq<Run>, now: seq<Run>, m: seq<nat>, base: int)
    requires AllFine(was, base) && Apart(was, |was|, false) && Nested(was) && Mirrors(was, now, m, |was|, |now|)
    ensures Plain(now, base)
  {
    NestedMarksFollow(was);
    NestedMarked(was, now, m);
    MarksFine(was, now, m, base);
    FineAtLeast(now, base);
    hide Mirrors, Apart, Nested, AtLeast;
    forall k | 1 <= k < |now| && now[k].typ.ET? && NextIn(now, k) > 0
      ensures !now[NextIn(now, k)].typ.ET?
    {
      NextGoesBack(now, k);
      NoTwoTerminators(was, now, m, base, k);
    }
    assert forall k :: 1 <= k < |now| ==> RunFine(now[k], base);
  }

  // ---------------------------------------------------------------- N0

  /** N0 changes brackets only. */
  lemma {:induction false} RetypedPaired(nodes: seq<Run>, pairs: seq<Pair>)
    requires AllBracketed(nodes, pairs) && forall p :: p in pairs ==> Within(nodes, p)
    ensures Retyped(nodes, Paired(nodes, pairs)) && SameRuns(nodes, Paired(nodes, pairs))
    decreases |pairs|
  {
    if pairs != [] {
      var n := |pairs| - 1;
      var before := Paired(nodes, pairs[..n]);
      assert forall p :: p in pairs[..n] ==> p in pairs;
      RetypedPaired(nodes, pairs[..n]);
      var p := pairs[n];
      assert p in pairs && Bracketed(nodes, p);
      PairTypeIs(before, p);
      hide PairType, CanOpen;
      StrongCanOpen();
      SetRetypes(nodes, before, p, PairType(before, p));
    }
  }

  lemma StrongCanOpen()
    ensures CanOpen(LTR) && CanOpen(RTL)
  {
  }

  ghost predicate SameRuns(a: seq<Run>, b: seq<Run>) {
    |a| == |b| && forall k :: 0 <= k < |a| ==> b[k] == a[k].(typ := b[k].typ) && (k == 0 ==> b[k] == a[k])
  }

  lemma SetRetypes(nodes: seq<Run>, before: seq<Run>, p: Pair, t: Option<CharType>)
    requires Bracketed(nodes, p) && Retyped(nodes, before) && SameRuns(nodes, before) && Within(before, p) && (t.Some? ==> t.value in {LTR, RTL})
    ensures Retyped(nodes, SetPair(before, p, t)) && SameRuns(nodes, SetPair(before, p, t))
  {
    var now := SetPair(before, p, t);
    forall k | 1 <= k < |nodes|
      ensures RetypedOne(nodes[k].typ, now[k].typ)
    {
      assert RetypedOne(nodes[k].typ, before[k].typ);
      if k == p.open || k == p.close { assert nodes[k].typ.ON?; }
    }
  }

  lemma SequenceRetyped(a: seq<Run>, b: seq<Run>, i: nat, j: nat)
    requires Retyped(a, b)
    ensures SameSequence(a, i, j) <==> SameSequence(b, i, j)
  {
    if 1 <= i <= j < |a| {
      assert forall k :: i < k <= j ==> (InReach(a, i, k) <==> InReach(b, i, k));
    }
  }

  /** Each pair of one sequence has the type of N0, seen from the list that the pairs before it have left, unless the walk
      backwards takes something else for sos. */
  ghost predicate PairByRule(joined: seq<Run>, pairs: seq<Pair>, base: int, i: nat)
    requires i < |pairs| && forall p :: p in pairs ==> Within(joined, p)
  {
    var before := Paired(joined, pairs[..i]);
    assert pairs[i] in pairs;
    assert Within(joined, pairs[i]);
    SameSequence(joined, pairs[i].open, pairs[i].close) ==>
      (PairType(before, pairs[i]) == RuleType(before, pairs[i], base) <==>
         !(NeedsContext(before, pairs[i]) && WrongContext(before, pairs[i], base)))
  }

  lemma PairIs(joined: seq<Run>, pairs: seq<Pair>, base: int, i: nat)
    requires i < |pairs| && AllBracketed(joined, pairs) && forall p :: p in pairs ==> Within(joined, p)
    requires Nested(joined) && Rising(joined)
    ensures PairByRule(joined, pairs, base, i)
  {
    var before := Paired(joined, pairs[..i]);
    var p := pairs[i];
    assert forall q :: q in pairs[..i] ==> q in pairs;
    assert p in pairs;
    assert Within(joined, p);
    RetypedPaired(joined, pairs[..i]);
    NestedRetyped(joined, before);
    RisingRetyped(joined, before);
    SequenceRetyped(joined, before, p.open, p.close);
    hide Paired, PairType, RuleType, NeedsContext, WrongContext, SameSequence, Rising;
    if SameSequence(joined, p.open, p.close) {
      NoSeparatorInside(before);
      PairTypeIsRule(before, p, base);
    }
  }

  lemma NoSeparatorInside(nodes: seq<Run>)
    requires Nested(nodes)
    ensures forall k :: 1 <= k < |nodes| - 1 ==> !nodes[k].typ.BS?
  {
    hide LinkBefore, CanOpen;
    forall k | 1 <= k < |nodes| - 1
      ensures !nodes[k].typ.BS?
    {
      StepOf(nodes, k);
    }
  }

  // ---------------------------------------------------------------- N1 and N2

  ghost predicate NoBrackets(nodes: seq<Run>) {
    forall k :: 1 <= k < |nodes| ==> nodes[k].bracket == NoBracket
  }

  lemma {:induction false} NoBracketsCompacted(nodes: seq<Run>, i: nat, neutrals: bool)
    requires NoBrackets(nodes)
    ensures NoBrackets(Compacted(nodes, i, neutrals))
    decreases |nodes| - i
  {
    hide Merged, NoBrackets;
    if i < |nodes| {
      if i >= 2 && Joinable(nodes[i - 1], nodes[i], neutrals) {
        NoBracketsMerged(nodes, i);
        MergedAt(nodes, i, 0);
        NoBracketsCompacted(Merged(nodes, i), i, neutrals);
      } else {
        NoBracketsCompacted(nodes, i + 1, neutrals);
      }
    }
  }

  lemma NoBracketsMerged(nodes: seq<Run>, i: nat)
    requires NoBrackets(nodes) && 2 <= i < |nodes|
    ensures NoBrackets(Merged(nodes, i))
  {
    hide Merged;
    MergedAt(nodes, i, 0);
    forall k | 1 <= k < |nodes| - 1
      ensures Merged(nodes, i)[k].bracket == NoBracket
    {
      MergedAt(nodes, i, k);
    }
  }

  lemma Unbracketed(nodes: seq<Run>)
    ensures NoBrackets(WithoutBrackets(nodes)) && Retyped(nodes, WithoutBrackets(nodes))
  {
    hide CanOpen;
  }

  lemma NeutralsApart(paired: seq<Run>)
    ensures NeutralsJoined(Compacted(WithoutBrackets(paired), 1, true))
  {
    var r := WithoutBrackets(paired);
    Unbracketed(paired);
    NoBracketsCompacted(r, 1, true);
    assert Apart(r, 1, true);
    CompactedApart(r, 1, true);
    hide Compacted;
  }

  // ---------------------------------------------------------------- the stages

  /** Rules W1 to N2 for a paragraph, list by list. */
  ghost predicate ByRules(s: Stages, base: int) {
    // W1 and W2
    && Nested(s.compact) && MarksResolved(s.compact, s.marks) && AllMarksByRule(s.compact, base)
    // W3 to W7
    && s.weak == WeakResolved(s.marks, base)
    // BD16 and N0
    && Nested(s.joined) && Rising(s.joined) && PairsByRule(s) && PairTypesByRule(s, base)
    // N1 and N2
    && Nested(s.plain) && |s.neutral| == |s.plain| && NeutralsByRule(s, base)
  }

  ghost predicate AllMarksByRule(nodes: seq<Run>, base: int) {
    forall k :: 1 <= k < |nodes| && !nodes[k].typ.BS? ==> MarkByRule(nodes, k, base)
  }

  /** Up to where they stop, the stacks yield the pairs of BD16 if and only if no opener strays into another isolate, as long as
      no row of their memory has run into another one. */
  ghost predicate PairsByRule(s: Stages) {
    && s.upto <= s.stop <= |s.joined| && PairedBefore(s.joined, s.ruled, s.upto)
    && (s.upto == s.stop || Crowded(s.joined, s.ruled, s.upto))
    && (!Crowded(s.joined, s.ruled, s.upto) ==>
          (SamePairs(s.pairs, RulePairs(s.joined, s.stop)) <==> !exists x: nat, c: nat :: Strays(s.joined, s.stop, x, c)))
  }

  ghost predicate PairTypesByRule(s: Stages, base: int) {
    && (forall p :: p in s.pairs ==> Within(s.joined, p))
    && forall i :: 0 <= i < |s.pairs| ==> PairByRule(s.joined, s.pairs, base, i)
  }

  ghost predicate NeutralsByRule(s: Stages, base: int)
    requires |s.neutral| == |s.plain|
  {
    forall i :: 1 <= i < |s.plain| && !s.plain[i].typ.BS? ==> s.neutral[i].typ == StretchType(s.plain, i, base)
  }

  lemma FirstStages(main: seq<Run>, s: Stages, now: seq<Run>, base: int)
    requires Nested(main) && Rising(main) && AllFine(main, base) && InOrder(main, s, now)
    ensures Nested(s.compact) && MarksResolved(s.compact, s.marks) && AllMarksByRule(s.compact, base)
    ensures Plain(s.marks, base) && Rising(s.marks)
  {
    hide Compacted, AllMarksByRule, NoCodes, Nested, Rising, SameTypes, WeakUpTo, SameLevels, BracketPairs, Paired, NeutralUpTo,
         Neutrals.Raised,
         MarksResolved, Mirrors, MarksFollow, Plain, AllFine, AtLeast;
    NestedCompacted(main, 1, false);
    RisingCompacted(main, 1, false);
    FineCompacted(main, 1, false, base);
    FineAtLeast(s.compact, base);
    FineMarks(s.compact, base);
    CompactIsApart(main);
    NestedMarksFollow(s.compact);
    RisingMarked(s.compact, s.marks, s.mirror);
    MarksPlain(s.compact, s.marks, s.mirror, base);
  }

  lemma FineMarks(nodes: seq<Run>, base: int)
    requires Nested(nodes) && AtLeast(nodes, base) && AllFine(nodes, base)
    ensures AllMarksByRule(nodes, base)
  {
    hide Nested, AtLeast, MarkByRule;
    assert forall k :: 1 <= k < |nodes| ==> RunFine(nodes[k], base);
    forall k | 1 <= k < |nodes| && !nodes[k].typ.BS?
      ensures MarkByRule(nodes, k, base)
    {
      MarksByRule(nodes, base, k);
    }
  }

  lemma CompactIsApart(nodes: seq<Run>)
    ensures var c := Compacted(nodes, 1, false); Apart(c, |c|, false)
  {
    hide Compacted, Joinable;
    assert Apart(nodes, 1, false);
    CompactedApart(nodes, 1, false);
  }

  lemma WeakStage(main: seq<Run>, s: Stages, now: seq<Run>, base: int)
    requires InOrder(main, s, now) && Plain(s.marks, base) && Rising(s.marks)
    ensures s.weak == WeakResolved(s.marks, base) && Nested(s.weak) && Rising(s.weak) && AtLeast(s.weak, base)
    ensures Nested(s.joined) && Rising(s.joined) && AtLeast(s.joined, base)
  {
    hide Compacted, Nested, Rising, SameTypes, WeakUpTo, SameLevels, BracketPairs, Paired, NeutralUpTo, Neutrals.Raised,
         Marking, Plain, AtLeast, WeakResolved, Retyped;
    PassIsRules(s.marks, s.weak, base);
    RetypedWeak(s.marks, s.weak, base);
    AfterPass(s.marks, s.weak, base);
    RisingRetyped(s.marks, s.weak);
    NestedCompacted(s.weak, 1, true);
    RisingCompacted(s.weak, 1, true);
    AtLeastCompacted(s.weak, 1, true, base);
  }

  lemma PairsOfStages(s: Stages)
    requires BracketPairs(s.joined, s.pairs, s.stop, s.ruled, s.upto)
    ensures PairsByRule(s) && AllBracketed(s.joined, s.pairs)
  {
    hide PairedBefore, PairsOk, Crowded, SamePairs, RulePairs, Strays, Sorted, AllBracketed;
    if !Crowded(s.joined, s.ruled, s.upto) {
      assert PairsByStacks(s.joined, s.pairs, s.stop);
      PairsFollowRule(s.joined, s.pairs, s.stop);
    }
  }

  lemma PairStage(main: seq<Run>, s: Stages, now: seq<Run>, base: int)
    requires InOrder(main, s, now) && Nested(s.joined) && Rising(s.joined) && AtLeast(s.joined, base)
    ensures PairsByRule(s) && PairTypesByRule(s, base)
    ensures Nested(s.plain) && AtLeast(s.plain, base)
  {
    hide Compacted, Nested, Rising, SameTypes, WeakUpTo, SameLevels, BracketPairs, Paired, NeutralUpTo, Neutrals.Raised,
         Marking, AtLeast, Retyped, PairsByRule, PairByRule, AllBracketed, SameRuns;
    PairsOfStages(s);
    forall i | 0 <= i < |s.pairs|
      ensures PairByRule(s.joined, s.pairs, base, i)
    {
      PairIs(s.joined, s.pairs, base, i);
    }
    RetypedPaired(s.joined, s.pairs);
    NestedRetyped(s.joined, s.paired);
    AtLeastRetyped(s.joined, s.paired, base);
    var r := WithoutBrackets(s.paired);
    Unbracketed(s.paired);
    NestedRetyped(s.paired, r);
    AtLeastRetyped(s.paired, r, base);
    NestedCompacted(r, 1, true);
    AtLeastCompacted(r, 1, true, base);
  }

  lemma NeutralStage(main: seq<Run>, s: Stages, now: seq<Run>, base: int)
    requires InOrder(main, s, now) && Nested(s.plain) && AtLeast(s.plain, base)
    ensures |s.neutral| == |s.plain| && NeutralsByRule(s, base)
  {
    hide Compacted, Nested, SameTypes, WeakUpTo, SameLevels, BracketPairs, Paired, Neutrals.Raised, Marking, AtLeast, NeutralType,
         StretchType, NeutralsJoined;
    NeutralsApart(s.paired);
    PlainReal(s);
    forall i | 1 <= i < |s.plain| && !s.plain[i].typ.BS?
      ensures s.neutral[i].typ == StretchType(s.plain, i, base)
    {
      LoopAgrees(s.plain, s.neutral, base, i);
    }
  }

  lemma PlainReal(s: Stages)
    requires SameLevels(WithoutBrackets(s.paired), s.plain)
    ensures |s.plain| > 0
  {
  }

  /** For a text that rejects no isolate the stages are the rules. */
  lemma StagesFollowRules(main: seq<Run>, explicits: seq<Run>, types: seq<CharType>, brackets: Option<seq<Bracket>>, base: int,
                          s: Stages, now: seq<Run>)
    requires IsMain(main, explicits, types, brackets, base) && Regular(types, base) && Proper(types, brackets) && InOrder(main, s, now)
    ensures ByRules(s, base)
  {
    hide IsMain, Regular, Proper, InOrder, Nested, Rising, AtLeast, Plain, PairsByRule, PairTypesByRule, NeutralsByRule,
         MarksResolved, AllMarksByRule, WeakResolved, AllFine;
    MainNested(main, explicits, types, brackets, base);
    MainRising(main, explicits, types, brackets, base);
    MainFine(main, explicits, types, brackets, base);
    FirstStages(main, s, now, base);
    WeakStage(main, s, now, base);
    PairStage(main, s, now, base);
    NeutralStage(main, s, now, base);
  }

  // ---------------------------------------------------------------- where the characters stand

  /** Isolate level and bracket of a character in a list. */
  ghost predicate StandsIn(nodes: seq<Run>, types: seq<CharType>, x: nat, bracket: Bracket)
    requires x < |types|
  {
    && |nodes| > 0 && PlaceAt(nodes, x).bracket == bracket
    && (!types[x].BS? ==> PlaceAt(nodes, x).isolateLevel == Depth(types, x) && !AttrAt(nodes, x).typ.BS?)
  }

  lemma StandsInMain(main: seq<Run>, explicits: seq<Run>, types: seq<CharType>, brackets: Option<seq<Bracket>>, base: int, x: nat)
    requires IsMain(main, explicits, types, brackets, base) && Regular(types, base) && x < |types| && !Removed(types, x)
    ensures StandsIn(main, types, x, BracketAt(brackets, x)) && AttrAt(main, x).typ != Sentinel
  {
    hide Removed, Regular, ParagraphEnd, Expected, OpenIsolates, IsolateLevelOf, CharPassed, PlacedAt, Free;
    var k := RunOfChar(main, explicits, types, brackets, base, x);
    RunHas(main, explicits, types, brackets, base, k, x);
    MainIsList(main, explicits, types, brackets, base);
    OwnerIs(main, |main|, x, k);
    IsoIsDepth(types, base, x);
    KeptAttr(types, base, x);
  }

  lemma StandsCompacted(nodes: seq<Run>, neutrals: bool, types: seq<CharType>, x: nat, bracket: Bracket)
    requires Nested(nodes) && IsList(nodes) && x < |types| && StandsIn(nodes, types, x, bracket)
    requires SameLevels(nodes, Compacted(nodes, 1, neutrals)) || SameTypes(nodes, Compacted(nodes, 1, neutrals))
    ensures StandsIn(Compacted(nodes, 1, neutrals), types, x, bracket)
  {
    CompactedIsolates(nodes, 1, neutrals);
    hide Compacted, Nested, IsList, AttrAt, PlaceAt, Depth;
    assert SameIsolate(nodes, Compacted(nodes, 1, neutrals), x);
  }

  lemma StandsMarked(was: seq<Run>, now: seq<Run>, types: seq<CharType>, x: nat, bracket: Bracket)
    requires Nested(was) && MarksResolved(was, now) && x < |types| && StandsIn(was, types, x, bracket)
    requires was[0].typ == Sentinel && AttrAt(was, x).typ != Sentinel
    ensures var o := Owner(was, |was|, x); 1 <= o && was[o].bracket == bracket && StandsIn(now, types, x, MarkedBracket(was, o))
  {
    assert MarkResolved(was, now, x);
    var o := Owner(was, |was|, x);
    if !types[x].BS? { NoSeparatorMarked(was, o); }
    hide Marked, Owner, MarkedBracket, Nested;
  }

  lemma StandsWeak(was: seq<Run>, now: seq<Run>, types: seq<CharType>, x: nat, bracket: Bracket)
    requires SameFrame(was, now) && Retyped(was, now) && |was| > 0 && was[0] == now[0] && x < |types| && StandsIn(was, types, x, bracket)
    ensures StandsIn(now, types, x, bracket)
  {
    hide CanOpen;
    SameOwner(was, now, |was|, x);
    var o := Owner(was, |was|, x);
    if o > 0 { assert RetypedOne(was[o].typ, now[o].typ); }
    hide Owner;
  }

  /** When brackets are paired, each character has its bracket, unless a mark before it has taken it in, and the number of
      isolates that it is in. */
  lemma Standing(main: seq<Run>, explicits: seq<Run>, types: seq<CharType>, brackets: Option<seq<Bracket>>, base: int,
                 s: Stages, now: seq<Run>, x: nat)
    requires IsMain(main, explicits, types, brackets, base) && Regular(types, base) && Proper(types, brackets) && InOrder(main, s, now)
    requires x < |types| && !Removed(types, x)
    ensures |s.compact| > 0 && |s.joined| > 0
    ensures var o := Owner(s.compact, |s.compact|, x);
            && 1 <= o && s.compact[o].bracket == BracketAt(brackets, x)
            && PlaceAt(s.joined, x).bracket == MarkedBracket(s.compact, o)
    ensures !types[x].BS? ==> PlaceAt(s.joined, x).isolateLevel == Depth(types, x)
  {
    hide IsMain, Regular, Proper, Nested, Rising, AtLeast, MarksResolved, AllFine, Removed, AttrAt, PlaceAt, Owner, MarkedBracket, Depth,
         Compacted, IsList, WeakUpTo, SameLevels, SameTypes, BracketPairs, Paired, NeutralUpTo, Neutrals.Raised, Retyped, SameFrame;
    MainNested(main, explicits, types, brackets, base);
    MainRising(main, explicits, types, brackets, base);
    MainFine(main, explicits, types, brackets, base);
    MainIsList(main, explicits, types, brackets, base);
    FirstStages(main, s, now, base);
    WeakStage(main, s, now, base);
    StandsInMain(main, explicits, types, brackets, base, x);
    ProperSize(types, brackets);
    StandsCompacted(main, false, types, x, BracketAt(brackets, x));
    CompactTypes(main, s.compact, base, x);
    StandsMarked(s.compact, s.marks, types, x, BracketAt(brackets, x));
    var bracket := MarkedBracket(s.compact, Owner(s.compact, |s.compact|, x));
    RetypedWeak(s.marks, s.weak, base);
    WeakFrame(s.marks, s.weak, types, x, bracket);
    StandsWeak(s.marks, s.weak, types, x, bracket);
    StandsCompacted(s.weak, true, types, x, bracket);
  }

  lemma ProperSize(types: seq<CharType>, brackets: Option<seq<Bracket>>)
    requires Proper(types, brackets)
    ensures brackets.Some? ==> |brackets.value| == |types|
  {
  }

  lemma CompactTypes(main: seq<Run>, compact: seq<Run>, base: int, x: nat)
    requires AllFine(main, base) && compact == Compacted(main, 1, false) && SameTypes(main, compact) && AttrAt(main, x).typ != Sentinel
    ensures |compact| > 0 && compact[0].typ == Sentinel && AttrAt(compact, x).typ != Sentinel
  {
    FineCompacted(main, 1, false, base);
    hide Compacted, AttrAt, PlaceAt;
  }

  lemma WeakFrame(was: seq<Run>, now: seq<Run>, types: seq<CharType>, x: nat, bracket: Bracket)
    requires WeakUpTo(was, now, |was|) && x < |types| && StandsIn(was, types, x, bracket)
    ensures SameFrame(was, now) && |was| > 0 && was[0] == now[0]
  {
    hide WeakType, PlaceAt, AttrAt, Depth;
  }

  // ---------------------------------------------------------------- a bracket behind a mark

  /** A bracket stays a run of its own if and only if no mark before it takes it in. */
  lemma BracketStands(was: seq<Run>, now: seq<Run>, m: seq<nat>, k: nat)
    requires IsList(was) && Mirrors(was, now, m, |was|, |now|) && 1 <= k < |was| && was[k].typ.ON?
    ensures 1 <= m[k] < |now|
    ensures now[m[k]].pos == was[k].pos <==> !Absorbed(was, k)
    ensures !Absorbed(was, k) ==> now[m[k]].bracket == was[k].bracket
  {
    hide Marked, Absorbed;
    var h := k - 1;
    assert Like(was, now, m, k);
    assert m[k] == if Joined(was, k) then m[h] else m[h] + 1;
    if Joined(was, k) {
      if h > 0 { assert Like(was, now, m, h); } else { FirstGroup(was, now, m); }
      assert was[h].pos < was[k].pos;
    }
  }

  /** The text ! M ( R ) with a mark M: the mark takes the type ON of the exclamation mark, the loop then takes the opening
      bracket into the same run, and its bracket is lost. */
  lemma BracketBehindMark()
    ensures var was := [SENTINEL_RUN, Run(0, 1, ON, 0, 0, NoBracket), Run(1, 1, NSM, 0, 0, NoBracket), Run(2, 1, ON, 0, 0, Open(0)),
                        Run(3, 1, RTL, 0, 0, NoBracket), Run(4, 1, ON, 0, 0, Close(0))];
            Nested(was) && Absorbed(was, 3) && MarkedBracket(was, 3) == NoBracket && Marked(was, 3) == ON
  {
    var was := [SENTINEL_RUN, Run(0, 1, ON, 0, 0, NoBracket), Run(1, 1, NSM, 0, 0, NoBracket), Run(2, 1, ON, 0, 0, Open(0)),
                Run(3, 1, RTL, 0, 0, NoBracket), Run(4, 1, ON, 0, 0, Close(0))];
    assert Before(was, 2) == 1 && Marked(was, 1) == ON && MarkedBefore(was, 2) == ON;
    assert !Preset(was, 2) && After(was, 2) == 3 && Absorbed(was, 3);
    assert Joined(was, 2) && Joined(was, 3);
    assert MarkedBracket(was, 1) == NoBracket && MarkedBracket(was, 2) == NoBracket;
  }
}
