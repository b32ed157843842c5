/** fribidi_log2vis, 3rd/fribidi/fribidi.c: the stages one after the other, and the two position maps.
    Character data and shaping come from tables: types, brackets, joining properties and shape are parameters. */
module Log2Vis {
  import opened BidiTypes
  import opened Wrappers
  import opened RunList
  import opened Reorder
  import BaseDirection
  import ExplicitText
  import IsolateLevels
  import Joining
  import JoiningRules
  import Paragraph

  /** What v shows is what the line holds at its source. */
  ghost predicate MapsToLogical(line: Line, nsm: bool, vToL: seq<int>, len: nat)
    requires line.Valid()
  {
    |vToL| == len && forall v :: 0 <= v < len ==> vToL[v] == VisualSource(line, nsm, v)
  }

  ghost predicate MapsToVisual(line: Line, nsm: bool, lToV: seq<int>, len: nat)
    requires line.Valid()
  {
    |lToV| == len && forall i :: 0 <= i < len ==> lToV[i] == VisualPlace(line, nsm, i)
  }

  ghost predicate Inverse(a: seq<int>, b: seq<int>) {
    |a| == |b| && forall i :: 0 <= i < |a| ==> 0 <= a[i] < |b| && b[a[i]] == i
  }

  /** The two maps are permutations of 0..len - 1, each the inverse of the other. */
  lemma MapsAreInverse(line: Line, nsm: bool, vToL: seq<int>, lToV: seq<int>, len: nat)
    requires line.Valid() && line.off == 0 && line.end == len
    requires MapsToLogical(line, nsm, vToL, len) && MapsToVisual(line, nsm, lToV, len)
    ensures Inverse(vToL, lToV) && Inverse(lToV, vToL)
    ensures forall v, w :: 0 <= v < w < len ==> vToL[v] != vToL[w]
  {
    hide VisualSource, VisualPlace;
    forall i | 0 <= i < len
      ensures 0 <= vToL[i] < len && lToV[vToL[i]] == i
      ensures 0 <= lToV[i] < len && vToL[lToV[i]] == i
    {
      ReorderIsPermutation(line, nsm, i);
    }
  }

  /** The order of the map is that of rule L2: of two characters the first is shown first just where the
      lowest level from one to the other is even; marks that L3 turns around are the exception. */
  lemma OrderOfMap(line: Line, nsm: bool, lToV: seq<int>, len: nat, i: nat, j: nat)
    requires line.Valid() && line.off == 0 && line.end == len && MapsToVisual(line, nsm, lToV, len) && i < j < len
    ensures lToV[i] < lToV[j] <==>
            (nsm && OneCluster(line, i, j)) || MinLevel(line, i, j) % 2 == 0
  {
    ReorderClosedForm(line, nsm, i, j);
  }

  /** The identity order. */
  method InitMap(order: array<int>)
    modifies order
    ensures order[..] == Identity(order.Length)
  {
    var i := 0;
    while i < order.Length
      invariant 0 <= i <= order.Length && forall k :: 0 <= k < i ==> order[k] == k
    {
      order[i] := i;
      i := i + 1;
    }
  }

  function Identity(len: nat): (s: seq<int>)
    ensures |s| == len && forall i :: 0 <= i < len ==> s[i] == i
  {
    seq(len, i => i)
  }

  /** positions_L_to_V is filled through positions_V_to_L. */
  method InvertMap(vToL: array<int>, lToV: array<int>, ghost line: Line, ghost nsm: bool)
    requires vToL != lToV && vToL.Length == lToV.Length && line.Valid() && line.off == 0 && line.end == vToL.Length
    requires MapsToLogical(line, nsm, vToL[..], vToL.Length)
    modifies lToV
    ensures MapsToVisual(line, nsm, lToV[..], lToV.Length)
  {
    hide VisualSource, VisualPlace;
    var len := vToL.Length;
    var i := 0;
    while i < len
      invariant 0 <= i <= len && vToL[..] == old(vToL[..])
    {
      lToV[i] := -1;
      i := i + 1;
    }
    i := 0;
    while i < len
      invariant 0 <= i <= len && vToL[..] == old(vToL[..])
      invariant forall v :: 0 <= v < i ==> 0 <= VisualSource(line, nsm, v) < len && lToV[VisualSource(line, nsm, v)] == v
    {
      ReorderIsPermutation(line, nsm, i);
      SourcesDiffer(line, nsm, i);
      assert vToL[..][i] == VisualSource(line, nsm, i);
      lToV[vToL[i]] := i;
      i := i + 1;
    }
    forall k | 0 <= k < len
      ensures lToV[k] == VisualPlace(line, nsm, k)
    {
      ReorderIsPermutation(line, nsm, k);
    }
  }

  lemma SourcesDiffer(line: Line, nsm: bool, i: int)
    requires line.Valid()
    ensures forall v :: v != i ==> VisualSource(line, nsm, v) != VisualSource(line, nsm, i)
  {
    hide VisualSource, VisualPlace;
    forall v | v != i
      ensures VisualSource(line, nsm, v) != VisualSource(line, nsm, i)
    {
      ReorderIsPermutation(line, nsm, v);
      ReorderIsPermutation(line, nsm, i);
    }
  }

  /** What a call promises: par holds the levels of the paragraph, before the end of the line is reset. */
  ghost predicate Done(types: seq<CharType>, nsm: bool, dir: CharType, par: seq<int>, levels: seq<int>, shaped: seq<char>,
                       visual: seq<char>, lToV: Option<seq<int>>, vToL: Option<seq<int>>, text: bool)
    requires |par| == |types| && Reorder.Levelled(par, 0, |types|)
  {
    var len := |types|;
    var line := LineOf(types, par, 0, len, dir);
    && levels == line.levels
    && (text ==> ShowsAt(line, nsm, visual, shaped, len))
    && (vToL.Some? ==> MapsToLogical(line, nsm, vToL.value, len))
    && (lToV.Some? ==> MapsToVisual(line, nsm, lToV.value, len))
  }

  function Contents(a: array?<int>): Option<seq<int>>
    reads a
  {
    if a == null then None else Some(a[..])
  }

  /** fribidi_log2vis.  The visual string shows what shape makes of the text, the levels of the paragraph and the joining
      properties joined, which are those that the rules of joining ask for. */
  method Log2Vis(str: seq<char>, types: seq<CharType>, brackets: seq<Bracket>, props: seq<Joining.Prop>, wanted: CharType, nsm: bool,
                 shape: (seq<Joining.Prop>, seq<int>, seq<char>) -> seq<char>,
                 visual: array?<char>, lToV: array?<int>, vToL: array?<int>, levels: array<int>)
      returns (indexed: bool, result: int, dir: CharType, ghost par: seq<int>, ghost base: int, ghost before: seq<int>,
               ghost trace: Paragraph.Trace, ghost joined: seq<Joining.Prop>)
    requires Sentinel !in types && |str| == |types| == |brackets| == |props| == levels.Length
    requires forall p, l, s :: |shape(p, l, s)| == |s|
    requires visual != null ==> visual.Length == |str|
    requires lToV != null ==> lToV.Length == |str| && lToV != levels && lToV != vToL
    requires vToL != null ==> vToL.Length == |str| && vToL != levels
    modifies visual, lToV, vToL, levels
    ensures |str| == 0 ==> indexed && result == 1 && dir == wanted
    ensures |str| > 0 ==> BaseDirection.IsBase(types, wanted, base, dir)
                          && (indexed <==> IsolateLevels.StaysIndexed(types, base, ExplicitText.ParagraphEnd(types)))
    ensures |str| > 0 && indexed ==>
              && Paragraph.ParagraphLevels(types, Some(brackets), wanted, dir, base, before, trace, result - 1, par)
              && |par| == |types| && Reorder.Levelled(par, 0, |types|)
              && (visual != null ==> JoiningRules.IsJoining(types, par, props, joined))
              && Done(types, nsm, dir, par, levels[..], shape(joined, par, str),
                      if visual == null then [] else visual[..], Contents(lToV), Contents(vToL), visual != null)
              && (forall x :: 0 <= x < |par| ==> par[x] < result)
              && (lToV != null && vToL != null ==> Inverse(vToL[..], lToV[..]) && Inverse(lToV[..], vToL[..]))
  {
    hide JoiningRules.IsJoining, Paragraph.ParagraphLevels, BaseDirection.IsBase, IsolateLevels.StaysIndexed, ExplicitText.ParagraphEnd, LineOf, VisualSource, IsShown, ShowsAt, MapsToLogical, MapsToVisual,
         Inverse, Identity;
    par, base, before, trace, joined := [], 0, [], Paragraph.NoTrace(), props;
    if |str| == 0 {
      return true, 1, wanted, par, base, before, trace, joined;
    }
    indexed, result, dir, base, before, trace := Paragraph.GetParEmbeddingLevels(types, Some(brackets), wanted, levels);
    if !indexed {
      return;
    }
    par := levels[..];
    LevelsReal(types, Some(brackets), wanted, dir, base, before, trace, result - 1, par);
    var order := vToL;
    if lToV != null && vToL == null {
      order := new int[|str|];
    }
    if order != null {
      InitMap(order);
    }
    if visual != null {
      joined := ShapeText(str, types, props, shape, levels, visual);
    }
    ghost var shaped := if visual == null then [] else visual[..];
    var _ := ReorderLine(nsm, types, |str|, 0, dir, levels, visual, order);
    ghost var line := LineOf(types, par, 0, |str|, dir);
    if order != null { ShowsSources(line, nsm, order[..], |str|); }
    if lToV != null {
      InvertMap(order, lToV, line, nsm);
      MapsAreInverse(line, nsm, order[..], lToV[..], |str|);
    }
    if visual != null { ShowsText(line, nsm, visual[..], shaped, |str|); }
  }

  lemma LevelsReal(types: seq<CharType>, brackets: Option<seq<Bracket>>, wanted: CharType, dir: CharType, base: int, before: seq<int>,
                   trace: Paragraph.Trace, top: int, par: seq<int>)
    requires Paragraph.ParagraphLevels(types, brackets, wanted, dir, base, before, trace, top, par) && |par| == |types|
    ensures Reorder.Levelled(par, 0, |types|) && forall x :: 0 <= x < |par| ==> par[x] < top + 1
  {
    hide Paragraph.Reset, Paragraph.ResolvedLevel, Paragraph.Traced, BaseDirection.IsBase;
  }

  /** Joining and shaping of a copy of the text. */
  method ShapeText(str: seq<char>, types: seq<CharType>, props: seq<Joining.Prop>,
                   shape: (seq<Joining.Prop>, seq<int>, seq<char>) -> seq<char>, levels: array<int>, visual: array<char>)
      returns (ghost joined: seq<Joining.Prop>)
    requires |str| == |types| == |props| == levels.Length == visual.Length
    requires forall p, l, s :: |shape(p, l, s)| == |s|
    modifies visual
    ensures JoiningRules.IsJoining(types, levels[..], props, joined) && visual[..] == shape(joined, levels[..], str)
  {
    hide Joining.AllJoined, Joining.ConsistentLevels, JoiningRules.IsJoining;
    var arProps := new Joining.Prop[|str|](i requires 0 <= i < |str| => props[i]);
    assert arProps[..] == props;
    Joining.JoinArabic(types, levels[..], arProps);
    JoiningRules.JoinsByRule(types, levels[..], props);
    joined := arProps[..];
    var shaped := shape(arProps[..], levels[..], str);
    var i := 0;
    while i < |str|
      invariant 0 <= i <= |str| && forall k :: 0 <= k < i ==> visual[k] == shaped[k]
    {
      visual[i] := shaped[i];
      i := i + 1;
    }
    assert visual[..] == shaped;
  }

  lemma ShowsSources(line: Line, nsm: bool, order: seq<int>, len: nat)
    requires line.Valid() && IsShown(line, nsm, order, Identity(len))
    ensures MapsToLogical(line, nsm, order, len)
  {
    hide VisualSource;
  }

  /** What is shown at v is the shaped character at the source of v. */
  ghost predicate ShowsAt(line: Line, nsm: bool, visual: seq<char>, shaped: seq<char>, len: nat)
    requires line.Valid()
  {
    && |visual| == len == |shaped|
    && forall v :: 0 <= v < len ==> 0 <= VisualSource(line, nsm, v) < len && visual[v] == shaped[VisualSource(line, nsm, v)]
  }

  lemma ShowsText(line: Line, nsm: bool, visual: seq<char>, shaped: seq<char>, len: nat)
    requires line.Valid() && IsShown(line, nsm, visual, shaped) && |shaped| == len
    ensures ShowsAt(line, nsm, visual, shaped, len)
  {
    hide VisualSource;
  }
}
