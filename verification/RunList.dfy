/** Run lists, 3rd/fribidi/fribidi-run.c, and the merges of 3rd/fribidi/fribidi-bidi.c.

    A run list is circular and doubly linked; here it is the sequence of its nodes, the sentinel
    first.  A run tells where it starts and how many characters it holds.  While explicit codes are
    out of the list those two do not describe an interval: a run may span codes that were removed. */
module RunList {
  import opened BidiTypes
  import opened Wrappers

  datatype Bracket = NoBracket | Open(id: nat) | Close(id: nat)

  datatype Run = Run(pos: int, len: int, typ: CharType, level: int, isolateLevel: int, bracket: Bracket)

  /** new_run_list */
  const SENTINEL_RUN := Run(-1, -1, Sentinel, SENTINEL_LEVEL, 0, NoBracket)

  /** What the characters of a run are given. */
  datatype Attr = Attr(typ: CharType, level: int)

  /** And where they stand: the isolate level, and the bracket a character is. */
  datatype Place = Place(isolateLevel: int, bracket: Bracket)

  // ---------------------------------------------------------------- well-formed lists

  ghost predicate IsList(nodes: seq<Run>) {
    && |nodes| >= 1 && nodes[0].typ == Sentinel && nodes[0].pos == -1
    && (forall i :: 1 <= i < |nodes| ==> nodes[i].typ != Sentinel)
    && (forall i, j :: 0 <= i < j < |nodes| ==> nodes[i].pos < nodes[j].pos)
  }

  /** Where the run after node i starts, or the end of the text. */
  function NextPos(nodes: seq<Run>, i: nat, len: nat): int
    requires i < |nodes|
  {
    if i + 1 < |nodes| then nodes[i + 1].pos else len
  }

  predicate Holds(run: Run, x: int) { run.pos <= x < run.pos + run.len }

  ghost predicate Covered(over: seq<Run>, x: int) {
    exists i :: 0 <= i < |over| && Holds(over[i], x)
  }

  /** How many positions of [a, b) no run of over holds. */
  ghost function Free(over: seq<Run>, a: int, b: int): (n: nat)
    decreases b - a
  {
    if b <= a then 0 else Free(over, a, b - 1) + (if Covered(over, b - 1) then 0 else 1)
  }

  /** Runs in the order of the text, none overlapping another. */
  ghost predicate Disjoint(over: seq<Run>, len: nat) {
    && (forall i :: 0 <= i < |over| ==> 0 <= over[i].pos && 0 <= over[i].len && over[i].pos + over[i].len <= len)
    && (forall i, j :: 0 <= i < j < |over| ==> over[i].pos + over[i].len <= over[j].pos)
    && (forall i :: 0 <= i < |over| ==> over[i].typ != Sentinel)
  }

  /** Conservation of the text: each run of the list counts exactly the characters from its start to
      the next run that are not in over, and over holds everything before the first run. */
  ghost predicate Fits(nodes: seq<Run>, over: seq<Run>, len: nat) {
    && IsList(nodes)
    && (forall i :: 1 <= i < |nodes| ==> NodeFits(nodes, over, len, i))
    && Free(over, 0, NextPos(nodes, 0, len)) == 0
  }

  /** Node k counts its characters, and does not start inside a run of over. */
  ghost predicate NodeFits(nodes: seq<Run>, over: seq<Run>, len: nat, k: nat)
    requires k < |nodes|
  {
    && nodes[k].pos < len && 0 < nodes[k].len && nodes[k].len == Free(over, nodes[k].pos, NextPos(nodes, k, len))
    && forall j :: 0 <= j < |over| ==> !(over[j].pos < nodes[k].pos < over[j].pos + over[j].len)
  }

  /** The runs are consecutive intervals that make up [0, len). */
  ghost predicate Tiles(nodes: seq<Run>, len: nat) {
    && IsList(nodes)
    && (forall i :: 1 <= i < |nodes| ==> 0 < nodes[i].len && nodes[i].pos + nodes[i].len == NextPos(nodes, i, len))
    && NextPos(nodes, 0, len) == 0
  }

  /** The node that x belongs to: the last one that does not start after x. */
  function Owner(nodes: seq<Run>, n: nat, x: int): (i: nat)
    requires 0 < n <= |nodes|
    ensures i < n
  {
    if n == 1 || nodes[n - 1].pos <= x then n - 1 else Owner(nodes, n - 1, x)
  }

  function AttrAt(nodes: seq<Run>, x: int): Attr
    requires |nodes| > 0
  {
    var run := nodes[Owner(nodes, |nodes|, x)];
    Attr(run.typ, run.level)
  }

  function PlaceAt(nodes: seq<Run>, x: int): Place
    requires |nodes| > 0
  {
    var run := nodes[Owner(nodes, |nodes|, x)];
    Place(run.isolateLevel, run.bracket)
  }

  lemma {:induction false} OwnerIs(nodes: seq<Run>, n: nat, x: int, i: nat)
    requires 0 < n <= |nodes| && IsList(nodes)
    requires i < n && nodes[i].pos <= x && (i + 1 < n ==> x < nodes[i + 1].pos)
    ensures Owner(nodes, n, x) == i
    decreases n
  {
    if i + 1 < n {
      OwnerIs(nodes, n - 1, x, i);
    }
  }

  lemma {:induction false} OwnerHolds(nodes: seq<Run>, n: nat, x: int)
    requires 0 < n <= |nodes| && IsList(nodes) && 0 <= x
    ensures var i := Owner(nodes, n, x);
            nodes[i].pos <= x && (i + 1 < n ==> x < nodes[i + 1].pos)
    decreases n
  {
    if n > 1 && nodes[n - 1].pos > x {
      OwnerHolds(nodes, n - 1, x);
    }
  }

  lemma {:induction false} FreeSplit(over: seq<Run>, a: int, b: int, c: int)
    requires a <= b <= c
    ensures Free(over, a, c) == Free(over, a, b) + Free(over, b, c)
    decreases c - b
  {
    if b < c { FreeSplit(over, a, b, c - 1); }
  }

  lemma {:induction false} FreeOfNone(over: seq<Run>, a: int, b: int)
    requires a <= b && forall x :: a <= x < b ==> !Covered(over, x)
    ensures Free(over, a, b) == b - a
    decreases b - a
  {
    if a < b { FreeOfNone(over, a, b - 1); }
  }

  lemma {:induction false} FreeOfAll(over: seq<Run>, a: int, b: int)
    requires forall x :: a <= x < b ==> Covered(over, x)
    ensures Free(over, a, b) == 0
    decreases b - a
  {
    if a < b { FreeOfAll(over, a, b - 1); }
  }

  lemma {:induction false} NothingFree(over: seq<Run>, a: int, b: int, x: int)
    requires Free(over, a, b) == 0 && a <= x < b
    ensures Covered(over, x)
    decreases b - a
  {
    if x < b - 1 { NothingFree(over, a, b - 1, x); }
  }

  lemma {:induction false} FreeSame(over: seq<Run>, over': seq<Run>, a: int, b: int)
    requires forall x :: a <= x < b ==> (Covered(over, x) <==> Covered(over', x))
    ensures Free(over, a, b) == Free(over', a, b)
    decreases b - a
  {
    if a < b { FreeSame(over, over', a, b - 1); }
  }

  /** Taking q out of the codes frees its positions. */
  lemma FreeCons(q: Run, rest: seq<Run>, a: int, b: int)
    requires a <= q.pos && 0 <= q.len && q.pos + q.len <= b
    requires forall j :: 0 <= j < |rest| ==> q.pos + q.len <= rest[j].pos
    ensures Free(rest, a, b) == Free([q] + rest, a, b) + q.len
  {
    hide Free;
    var over := [q] + rest;
    forall x
      ensures Covered(over, x) <==> Holds(q, x) || Covered(rest, x)
    {
      CoveredCons(q, rest, x);
    }
    FreeSplit(over, a, q.pos, b);
    FreeSplit(over, q.pos, q.pos + q.len, b);
    FreeSplit(rest, a, q.pos, b);
    FreeSplit(rest, q.pos, q.pos + q.len, b);
    FreeSame(over, rest, a, q.pos);
    FreeSame(over, rest, q.pos + q.len, b);
    FreeOfAll(over, q.pos, q.pos + q.len);
    FreeOfNone(rest, q.pos, q.pos + q.len);
  }

  lemma CoveredCons(q: Run, rest: seq<Run>, x: int)
    ensures Covered([q] + rest, x) <==> Holds(q, x) || Covered(rest, x)
  {
    var over := [q] + rest;
    if Holds(q, x) { assert Holds(over[0], x); }
    if Covered(rest, x) {
      var i :| 0 <= i < |rest| && Holds(rest[i], x);
      assert Holds(over[i + 1], x);
    }
    if Covered(over, x) {
      var i :| 0 <= i < |over| && Holds(over[i], x);
      if i > 0 { assert Holds(rest[i - 1], x); }
    }
  }

  /** With no code removed a list that fits is a list that tiles. */
  lemma FitsIsTiles(nodes: seq<Run>, len: nat)
    ensures Fits(nodes, [], len) <==> Tiles(nodes, len)
  {
    forall a: int, b: int | a <= b
      ensures Free([], a, b) == b - a
    {
      FreeOfNone([], a, b);
    }
    if Tiles(nodes, len) {
      forall i | 1 <= i < |nodes|
        ensures nodes[i].pos < len
      {
        TilesWithin(nodes, len, i);
      }
    }
    if Fits(nodes, [], len) {
      forall i | 1 <= i < |nodes|
        ensures 0 < nodes[i].len && nodes[i].pos + nodes[i].len == NextPos(nodes, i, len)
      {
        assert NodeFits(nodes, [], len, i);
        assert nodes[i].pos <= NextPos(nodes, i, len);
      }
      if |nodes| > 1 { assert nodes[0].pos < nodes[1].pos; }
    }
  }

  lemma {:induction false} TilesWithin(nodes: seq<Run>, len: nat, i: nat)
    requires Tiles(nodes, len) && 1 <= i < |nodes|
    ensures nodes[i].pos < len
    decreases |nodes| - i
  {
    if i + 1 < |nodes| { TilesWithin(nodes, len, i + 1); }
  }

  // ---------------------------------------------------------------- merging

  /** The list after merge_with_prev of node i. */
  function Merged(nodes: seq<Run>, i: nat): seq<Run>
    requires 2 <= i < |nodes|
  {
    nodes[..i - 1] + [nodes[i - 1].(len := nodes[i - 1].len + nodes[i].len)] + nodes[i + 1..]
  }

  /** The nodes of a merged list are those of the list, node i left out and the one before it longer. */
  lemma MergeShape(nodes: seq<Run>, i: nat, k: nat, len: nat)
    requires 2 <= i < |nodes| && k < |nodes| - 1
    ensures |Merged(nodes, i)| == |nodes| - 1
    ensures var m, o := Merged(nodes, i)[k], nodes[if k < i then k else k + 1];
            && m.pos == o.pos && m.typ == o.typ && m.level == o.level && m.isolateLevel == o.isolateLevel && m.bracket == o.bracket
            && (k != i - 1 ==> m.len == o.len)
    ensures Merged(nodes, i)[i - 1].len == nodes[i - 1].len + nodes[i].len
    ensures NextPos(Merged(nodes, i), k, len) == NextPos(nodes, if k < i - 1 then k else k + 1, len)
  {
  }

  lemma MergeIsList(nodes: seq<Run>, i: nat)
    requires 2 <= i < |nodes| && IsList(nodes)
    ensures IsList(Merged(nodes, i))
  {
    hide Merged;
    var m := Merged(nodes, i);
    MergeShape(nodes, i, 0, 0);
    forall k, l | 0 <= k < l < |m|
      ensures m[k].pos < m[l].pos && m[l].typ != Sentinel
    {
      MergeShape(nodes, i, k, 0);
      MergeShape(nodes, i, l, 0);
    }
    assert forall l :: 1 <= l < |m| ==> m[0].pos < m[l].pos && m[l].typ != Sentinel;
  }

  /** A merge loses no character, whatever codes are out of the list. */
  lemma MergeFits(nodes: seq<Run>, over: seq<Run>, len: nat, i: nat)
    requires 2 <= i < |nodes| && Fits(nodes, over, len)
    ensures Fits(Merged(nodes, i), over, len)
  {
    hide Free, Merged, IsList;
    var m := Merged(nodes, i);
    MergeIsList(nodes, i);
    MergeShape(nodes, i, 0, len);
    forall k | 1 <= k < |m|
      ensures NodeFits(m, over, len, k)
    {
      MergeShape(nodes, i, k, len);
      assert NodeFits(nodes, over, len, if k < i then k else k + 1);
      if k == i - 1 {
        assert NodeFits(nodes, over, len, i);
        FreeSplitNodes(nodes, over, len, k);
      }
    }
  }

  lemma FreeSplitNodes(nodes: seq<Run>, over: seq<Run>, len: nat, k: nat)
    requires 1 <= k < |nodes| - 1 && Fits(nodes, over, len)
    ensures Free(over, nodes[k].pos, NextPos(nodes, k + 1, len))
            == Free(over, nodes[k].pos, nodes[k + 1].pos) + Free(over, nodes[k + 1].pos, NextPos(nodes, k + 1, len))
  {
    assert NodeFits(nodes, over, len, k + 1);
    FreeSplit(over, nodes[k].pos, nodes[k + 1].pos, NextPos(nodes, k + 1, len));
  }

  /** Where the merged runs agree, every character keeps what it had. */
  lemma MergeOwner(nodes: seq<Run>, i: nat, x: int)
    requires 2 <= i < |nodes| && IsList(nodes) && 0 <= x
    ensures IsList(Merged(nodes, i))
    ensures var o, o' := Owner(nodes, |nodes|, x), Owner(Merged(nodes, i), |nodes| - 1, x);
            o' == (if o < i then o else o - 1)
  {
    hide Merged;
    OwnerHolds(nodes, |nodes|, x);
    MergeIsList(nodes, i);
    var o := Owner(nodes, |nodes|, x);
    var o' := if o < i then o else o - 1;
    MergeShape(nodes, i, o', 0);
    if o' + 1 < |nodes| - 1 { MergeShape(nodes, i, o' + 1, 0); }
    OwnerIs(Merged(nodes, i), |nodes| - 1, x, o');
  }

  /** Conditions of compact_list and compact_neutrals. */
  predicate SameRun(a: Run, b: Run) {
    a.typ == b.typ && a.level == b.level && a.bracket == NoBracket && b.bracket == NoBracket
  }

  predicate SameNeutral(a: Run, b: Run) {
    && a.level == b.level
    && (a.typ == b.typ || (a.typ.IsNeutral() && b.typ.IsNeutral()))
    && a.bracket == NoBracket && b.bracket == NoBracket
  }

  /** Every character keeps its level and its bracket, and its type unless that was and is a neutral one. */
  ghost predicate SameLevels(nodes: seq<Run>, nodes': seq<Run>) {
    && |nodes| > 0 && |nodes'| > 0
    && forall x :: 0 <= x ==>
         && AttrAt(nodes, x).level == AttrAt(nodes', x).level && PlaceAt(nodes, x).bracket == PlaceAt(nodes', x).bracket
         && (AttrAt(nodes, x).typ == AttrAt(nodes', x).typ
             || (AttrAt(nodes, x).typ.IsNeutral() && AttrAt(nodes', x).typ.IsNeutral()))
  }

  lemma MergeKeeps(nodes: seq<Run>, i: nat)
    requires 2 <= i < |nodes| && IsList(nodes) && SameNeutral(nodes[i - 1], nodes[i])
    ensures SameLevels(nodes, Merged(nodes, i))
    ensures SameRun(nodes[i - 1], nodes[i]) ==> forall x :: 0 <= x ==> AttrAt(Merged(nodes, i), x) == AttrAt(nodes, x)
    ensures nodes[i - 1].isolateLevel == nodes[i].isolateLevel ==> forall x :: 0 <= x ==> PlaceAt(Merged(nodes, i), x) == PlaceAt(nodes, x)
  {
    hide Owner;
    forall x | 0 <= x
      ensures AttrAt(Merged(nodes, i), x).level == AttrAt(nodes, x).level
      ensures AttrAt(Merged(nodes, i), x).typ == AttrAt(nodes, x).typ
              || (!SameRun(nodes[i - 1], nodes[i]) && AttrAt(Merged(nodes, i), x).typ.IsNeutral() && AttrAt(nodes, x).typ.IsNeutral())
      ensures PlaceAt(Merged(nodes, i), x).bracket == PlaceAt(nodes, x).bracket
      ensures nodes[i - 1].isolateLevel == nodes[i].isolateLevel ==> PlaceAt(Merged(nodes, i), x) == PlaceAt(nodes, x)
    {
      MergeOwner(nodes, i, x);
    }
  }

  /** The run that the loops of the two compactions look at, and what they leave from there on. */
  predicate Joinable(a: Run, b: Run, neutrals: bool) { if neutrals then SameNeutral(a, b) else SameRun(a, b) }

  function Compacted(nodes: seq<Run>, i: nat, neutrals: bool): seq<Run>
    decreases |nodes| - i
  {
    if i >= |nodes| then nodes
    else if i >= 2 && Joinable(nodes[i - 1], nodes[i], neutrals) then Compacted(Merged(nodes, i), i, neutrals)
    else Compacted(nodes, i + 1, neutrals)
  }

  /** None of the first n runs could be joined with the one before it. */
  ghost predicate Apart(nodes: seq<Run>, n: nat, neutrals: bool) {
    forall k :: 2 <= k < n && k < |nodes| ==> ApartAt(nodes, k, neutrals)
  }

  predicate ApartAt(nodes: seq<Run>, k: nat, neutrals: bool)
    requires 2 <= k < |nodes|
  {
    !Joinable(nodes[k - 1], nodes[k], neutrals)
  }

  /** A compacted list has no neighbours that could still be joined. */
  lemma {:induction false} CompactedApart(nodes: seq<Run>, i: nat, neutrals: bool)
    requires 1 <= i && Apart(nodes, i, neutrals)
    ensures var c := Compacted(nodes, i, neutrals); Apart(c, |c|, neutrals)
    decreases |nodes| - i
  {
    hide Merged, Joinable;
    if i < |nodes| {
      if i >= 2 && Joinable(nodes[i - 1], nodes[i], neutrals) {
        var m := Merged(nodes, i);
        MergeShape(nodes, i, 0, 0);
        forall k | 2 <= k < i && k < |m|
          ensures ApartAt(m, k, neutrals)
        {
          assert ApartAt(nodes, k, neutrals);
          MergeShape(nodes, i, k - 1, 0);
          MergeShape(nodes, i, k, 0);
          JoinableBy(nodes[k - 1], nodes[k], m[k - 1], m[k], neutrals);
        }
        CompactedApart(m, i, neutrals);
      } else {
        CompactedApart(nodes, i + 1, neutrals);
      }
    }
  }

  lemma JoinableBy(a: Run, b: Run, a': Run, b': Run, neutrals: bool)
    requires a'.typ == a.typ && a'.level == a.level && a'.bracket == a.bracket
    requires b'.typ == b.typ && b'.level == b.level && b'.bracket == b.bracket
    ensures Joinable(a', b', neutrals) <==> Joinable(a, b, neutrals)
  {
  }

  /** Each run has type, level and isolate level of some run of the list it comes from. */
  ghost predicate RunsFrom(nodes: seq<Run>, nodes': seq<Run>) {
    && |nodes| > 0 && |nodes'| > 0 && nodes[0] == nodes'[0]
    && forall k :: 1 <= k < |nodes'| ==> AttrIn(nodes, nodes'[k])
  }

  ghost predicate AttrIn(nodes: seq<Run>, run: Run) {
    exists j :: 1 <= j < |nodes| && AttrOf(nodes[j]) == AttrOf(run) && nodes[j].isolateLevel == run.isolateLevel
  }

  lemma RunsFromRefl(nodes: seq<Run>)
    requires |nodes| > 0
    ensures RunsFrom(nodes, nodes)
  {
  }

  lemma RunsFromMerge(was: seq<Run>, nodes: seq<Run>, i: nat)
    requires 2 <= i < |nodes| && RunsFrom(was, nodes)
    ensures RunsFrom(was, Merged(nodes, i))
  {
    hide Merged;
    var m := Merged(nodes, i);
    MergeShape(nodes, i, 0, 0);
    assert m[0] == nodes[0] by { MergeFirst(nodes, i); }
    forall k | 1 <= k < |m|
      ensures AttrIn(was, m[k])
    {
      MergeShape(nodes, i, k, 0);
      var o := if k < i then k else k + 1;
      assert AttrOf(m[k]) == AttrOf(nodes[o]) && m[k].isolateLevel == nodes[o].isolateLevel && AttrIn(was, nodes[o]);
    }
  }

  lemma MergeFirst(nodes: seq<Run>, i: nat)
    requires 2 <= i < |nodes|
    ensures |Merged(nodes, i)| > 0 && Merged(nodes, i)[0] == nodes[0]
  {
  }

  lemma CompactedMerge(nodes: seq<Run>, i: nat, neutrals: bool)
    requires 2 <= i < |nodes| && Joinable(nodes[i - 1], nodes[i], neutrals)
    ensures Compacted(nodes, i, neutrals) == Compacted(Merged(nodes, i), i, neutrals)
  {
  }

  lemma SameLevelsTrans(a: seq<Run>, b: seq<Run>, c: seq<Run>)
    requires SameLevels(a, b) && SameLevels(b, c)
    ensures SameLevels(a, c)
  {
    hide AttrAt, PlaceAt;
  }

  // ---------------------------------------------------------------- overlays

  function AttrOf(run: Run): Attr { Attr(run.typ, run.level) }

  /** What is left of node p before position pos. */
  function LeftPart(nodes: seq<Run>, p: nat, pos: int): seq<Run>
    requires p < |nodes|
  {
    if nodes[p].pos + nodes[p].len >= pos then
      if nodes[p].pos < pos then nodes[..p] + [nodes[p].(len := pos - nodes[p].pos)] else nodes[..p]
    else nodes[..p + 1]
  }

  /** What is left of node r from position pos2 on.  A run cut in three loses its bracket. */
  function RightPart(nodes: seq<Run>, p: nat, r: nat, pos2: int): seq<Run>
    requires p <= r < |nodes|
  {
    if nodes[r].pos + nodes[r].len > pos2 then
      [nodes[r].(pos := pos2, len := nodes[r].pos + nodes[r].len - pos2,
                 bracket := if p == r then NoBracket else nodes[r].bracket)] + nodes[r + 1..]
    else nodes[r + 1..]
  }

  /** The list with q in place of what the nodes p to r hold of its interval. */
  function Spliced(nodes: seq<Run>, p: nat, r: nat, q: Run): seq<Run>
    requires p <= r < |nodes|
  {
    LeftPart(nodes, p, q.pos) + [q] + RightPart(nodes, p, r, q.pos + q.len)
  }

  /** p owns the first position of q, and r is the last node that starts inside q or is p. */
  ghost predicate Spans(nodes: seq<Run>, p: nat, r: nat, q: Run, len: nat) {
    && p <= r < |nodes|
    && nodes[p].pos <= q.pos < NextPos(nodes, p, len)
    && nodes[r].pos < q.pos + q.len <= NextPos(nodes, r, len)
    && 0 <= q.pos && 0 < q.len && q.typ != Sentinel
  }

  /** While codes are out of the list, what one node holds ends where the free positions end. */
  lemma CutAt(nodes: seq<Run>, rest: seq<Run>, len: nat, k: nat, x: int)
    requires Fits(nodes, rest, len) && 1 <= k < |nodes| && nodes[k].pos <= x <= NextPos(nodes, k, len)
    requires forall j :: 0 <= j < |rest| ==> x <= rest[j].pos
    ensures nodes[k].pos + nodes[k].len - x == Free(rest, x, NextPos(nodes, k, len))
    ensures Free(rest, nodes[k].pos, x) == x - nodes[k].pos
  {
    hide Free, IsList;
    assert NodeFits(nodes, rest, len, k);
    FreeSplit(rest, nodes[k].pos, x, NextPos(nodes, k, len));
    FreeOfNone(rest, nodes[k].pos, x);
  }

  /** The pieces that a splice makes around q are runs with the right number of characters. */
  lemma SplicePieces(nodes: seq<Run>, rest: seq<Run>, len: nat, p: nat, r: nat, q: Run)
    requires Fits(nodes, rest, len) && 1 <= p && Spans(nodes, p, r, q, len)
    requires forall j :: 0 <= j < |rest| ==> q.pos + q.len <= rest[j].pos
    ensures var pos, pos2 := q.pos, q.pos + q.len;
            && nodes[p].pos + nodes[p].len >= pos
            && Free(rest, nodes[p].pos, pos) == pos - nodes[p].pos
            && nodes[r].pos + nodes[r].len - pos2 == Free(rest, pos2, NextPos(nodes, r, len))
            && Free(rest, pos, pos2) == q.len
  {
    hide Free, IsList;
    CutAt(nodes, rest, len, p, q.pos);
    CutAt(nodes, rest, len, r, q.pos + q.len);
    FreeOfNone(rest, q.pos, q.pos + q.len);
  }

  /** How many nodes of a splice come before q, and the first old node that is kept after it. */
  function LeftCount(nodes: seq<Run>, p: nat, q: Run): nat
    requires p < |nodes|
  {
    if nodes[p].pos < q.pos then p + 1 else p
  }

  function KeptFrom(nodes: seq<Run>, r: nat, q: Run): nat
    requires r < |nodes|
  {
    if nodes[r].pos + nodes[r].len > q.pos + q.len then r else r + 1
  }

  /** Node k of a spliced list, in terms of the nodes of the old one. */
  lemma SpliceAt(nodes: seq<Run>, p: nat, r: nat, q: Run, k: nat)
    requires p <= r < |nodes| && nodes[p].pos + nodes[p].len >= q.pos
    ensures var n := Spliced(nodes, p, r, q);
            var la, s := LeftCount(nodes, p, q), KeptFrom(nodes, r, q);
            var pos2 := q.pos + q.len;
            && |n| == la + 1 + |nodes| - s
            && (k < la ==> AttrOf(n[k]) == AttrOf(nodes[k]) && n[k].pos == nodes[k].pos
                           && n[k].len == (if k == p then q.pos - nodes[p].pos else nodes[k].len))
            && n[la] == q
            && (la < k < |n| ==>
                  var m := s + k - la - 1;
                  && AttrOf(n[k]) == AttrOf(nodes[m])
                  && n[k].pos == (if s == m == r then pos2 else nodes[m].pos)
                  && n[k].len == (if s == m == r then nodes[r].pos + nodes[r].len - pos2 else nodes[m].len))
  {
    hide LeftPart, RightPart;
    LeftAt(nodes, p, q, k);
    RightAt(nodes, p, r, q, k - LeftCount(nodes, p, q) - 1);
  }

  lemma LeftAt(nodes: seq<Run>, p: nat, q: Run, k: nat)
    requires p < |nodes| && nodes[p].pos + nodes[p].len >= q.pos
    ensures var a := LeftPart(nodes, p, q.pos);
            && |a| == LeftCount(nodes, p, q)
            && (k < |a| ==> a[k] == if k == p then nodes[k].(len := q.pos - nodes[p].pos) else nodes[k])
  {
  }

  lemma RightAt(nodes: seq<Run>, p: nat, r: nat, q: Run, k: int)
    requires p <= r < |nodes|
    ensures var b, s := RightPart(nodes, p, r, q.pos + q.len), KeptFrom(nodes, r, q);
            && |b| == |nodes| - s
            && (0 <= k < |b| ==>
                  && AttrOf(b[k]) == AttrOf(nodes[s + k])
                  && b[k].pos == (if s == s + k == r then q.pos + q.len else nodes[s + k].pos)
                  && b[k].len == (if s == s + k == r then nodes[r].pos + nodes[r].len - (q.pos + q.len) else nodes[s + k].len))
  {
  }

  lemma SpliceIsList(nodes: seq<Run>, rest: seq<Run>, len: nat, p: nat, r: nat, q: Run)
    requires Fits(nodes, rest, len) && 1 <= p && Spans(nodes, p, r, q, len)
    requires forall j :: 0 <= j < |rest| ==> q.pos + q.len <= rest[j].pos
    ensures IsList(Spliced(nodes, p, r, q))
  {
    hide Spliced, Free, Fits;
    SplicePieces(nodes, rest, len, p, r, q);
    FreeNone(rest, q.pos + q.len, NextPos(nodes, r, len));
    var n := Spliced(nodes, p, r, q);
    FitsIsList(nodes, rest, len);
    SpliceAt(nodes, p, r, q, 0);
    forall i, j | 0 <= i < j < |n|
      ensures n[i].pos < n[j].pos && n[j].typ != Sentinel
    {
      SpliceAt(nodes, p, r, q, i);
      SpliceAt(nodes, p, r, q, j);
      SpliceOrder(nodes, p, r, q, i, j, len);
    }
    assert forall j :: 1 <= j < |n| ==> n[0].pos < n[j].pos && n[j].typ != Sentinel;
  }

  lemma ListNotEmpty(nodes: seq<Run>)
    requires IsList(nodes)
    ensures |nodes| >= 1
  {
  }

  lemma FitsIsList(nodes: seq<Run>, rest: seq<Run>, len: nat)
    requires Fits(nodes, rest, len)
    ensures IsList(nodes)
  {
  }

  lemma SpliceOrder(nodes: seq<Run>, p: nat, r: nat, q: Run, i: nat, j: nat, len: nat)
    requires IsList(nodes) && 1 <= p && Spans(nodes, p, r, q, len) && nodes[p].pos + nodes[p].len >= q.pos
    requires i < j < |Spliced(nodes, p, r, q)|
    requires nodes[r].pos + nodes[r].len > q.pos + q.len ==> q.pos + q.len < NextPos(nodes, r, len)
    ensures Spliced(nodes, p, r, q)[i].pos < Spliced(nodes, p, r, q)[j].pos
    ensures Spliced(nodes, p, r, q)[j].typ != Sentinel
  {
    hide Spliced;
    SpliceAt(nodes, p, r, q, i);
    SpliceAt(nodes, p, r, q, j);
  }

  lemma FreeNone(over: seq<Run>, a: int, b: int)
    ensures b <= a ==> Free(over, a, b) == 0
  {
  }

  /** Splicing q into a list loses no character and makes none up. */
  lemma SpliceFits(nodes: seq<Run>, rest: seq<Run>, len: nat, p: nat, r: nat, q: Run)
    requires Fits(nodes, rest, len) && 1 <= p && Spans(nodes, p, r, q, len)
    requires forall j :: 0 <= j < |rest| ==> q.pos + q.len <= rest[j].pos
    ensures Fits(Spliced(nodes, p, r, q), rest, len)
  {
    hide Spliced, Free, IsList;
    SplicePieces(nodes, rest, len, p, r, q);
    SpliceIsList(nodes, rest, len, p, r, q);
    var n := Spliced(nodes, p, r, q);
    SpliceFirst(nodes, rest, len, p, r, q);
    forall k | 1 <= k < |n|
      ensures NodeFits(n, rest, len, k)
    {
      SpliceNode(nodes, rest, len, p, r, q, k);
    }
  }

  lemma SpliceFirst(nodes: seq<Run>, rest: seq<Run>, len: nat, p: nat, r: nat, q: Run)
    requires Fits(nodes, rest, len) && 1 <= p && Spans(nodes, p, r, q, len) && nodes[p].pos + nodes[p].len >= q.pos
    ensures NextPos(Spliced(nodes, p, r, q), 0, len) == NextPos(nodes, 0, len)
  {
    hide Spliced, Free, IsList;
    SpliceAt(nodes, p, r, q, 1);
  }

  lemma SpliceNode(nodes: seq<Run>, rest: seq<Run>, len: nat, p: nat, r: nat, q: Run, k: nat)
    requires Fits(nodes, rest, len) && 1 <= p && Spans(nodes, p, r, q, len)
    requires forall j :: 0 <= j < |rest| ==> q.pos + q.len <= rest[j].pos
    requires 1 <= k < |Spliced(nodes, p, r, q)|
    ensures NodeFits(Spliced(nodes, p, r, q), rest, len, k)
  {
    hide Spliced, Free, IsList, NodeFits;
    if k < LeftCount(nodes, p, q) {
      SpliceNodeLeft(nodes, rest, len, p, r, q, k);
    } else if k == LeftCount(nodes, p, q) {
      SpliceNodeMiddle(nodes, rest, len, p, r, q);
    } else {
      SpliceNodeRight(nodes, rest, len, p, r, q, k);
    }
  }

  lemma SpliceNodeLeft(nodes: seq<Run>, rest: seq<Run>, len: nat, p: nat, r: nat, q: Run, k: nat)
    requires Fits(nodes, rest, len) && 1 <= p && Spans(nodes, p, r, q, len)
    requires forall j :: 0 <= j < |rest| ==> q.pos + q.len <= rest[j].pos
    requires 1 <= k < LeftCount(nodes, p, q) && k < |Spliced(nodes, p, r, q)|
    ensures NodeFits(Spliced(nodes, p, r, q), rest, len, k)
  {
    hide Spliced, Free, IsList;
    SplicePieces(nodes, rest, len, p, r, q);
    assert NodeFits(nodes, rest, len, k);
    SpliceAt(nodes, p, r, q, k);
    SpliceAt(nodes, p, r, q, k + 1);
  }

  lemma SpliceNodeMiddle(nodes: seq<Run>, rest: seq<Run>, len: nat, p: nat, r: nat, q: Run)
    requires Fits(nodes, rest, len) && 1 <= p && Spans(nodes, p, r, q, len)
    requires forall j :: 0 <= j < |rest| ==> q.pos + q.len <= rest[j].pos
    requires LeftCount(nodes, p, q) < |Spliced(nodes, p, r, q)|
    ensures NodeFits(Spliced(nodes, p, r, q), rest, len, LeftCount(nodes, p, q))
  {
    hide Spliced, Free, IsList;
    var la := LeftCount(nodes, p, q);
    if r + 1 < |nodes| { assert NodeFits(nodes, rest, len, r + 1); }
    SplicePieces(nodes, rest, len, p, r, q);
    SpliceAt(nodes, p, r, q, la);
    SpliceAt(nodes, p, r, q, la + 1);
    FreeSplit(rest, q.pos, q.pos + q.len, NextPos(nodes, r, len));
    if KeptFrom(nodes, r, q) == r + 1 { NothingKept(nodes, rest, len, r, q); }
  }

  lemma SpliceNodeRight(nodes: seq<Run>, rest: seq<Run>, len: nat, p: nat, r: nat, q: Run, k: nat)
    requires Fits(nodes, rest, len) && 1 <= p && Spans(nodes, p, r, q, len)
    requires forall j :: 0 <= j < |rest| ==> q.pos + q.len <= rest[j].pos
    requires LeftCount(nodes, p, q) < k < |Spliced(nodes, p, r, q)|
    ensures NodeFits(Spliced(nodes, p, r, q), rest, len, k)
  {
    hide Spliced, Free, IsList;
    SplicePieces(nodes, rest, len, p, r, q);
    SpliceAt(nodes, p, r, q, k);
    SpliceAt(nodes, p, r, q, k + 1);
    FreeNone(rest, q.pos + q.len, NextPos(nodes, r, len));
    if r + 1 < |nodes| { assert NodeFits(nodes, rest, len, r + 1); }
    assert NodeFits(nodes, rest, len, KeptFrom(nodes, r, q) + k - LeftCount(nodes, p, q) - 1);
  }

  lemma NothingKept(nodes: seq<Run>, rest: seq<Run>, len: nat, r: nat, q: Run)
    requires r < |nodes| && nodes[r].pos + nodes[r].len <= q.pos + q.len
    requires nodes[r].pos + nodes[r].len - (q.pos + q.len) == Free(rest, q.pos + q.len, NextPos(nodes, r, len))
    ensures Free(rest, q.pos + q.len, NextPos(nodes, r, len)) == 0
  {
  }

  /** After a splice the characters of q have what q says; all others that are in the list keep theirs. */
  lemma SplicePaints(nodes: seq<Run>, rest: seq<Run>, len: nat, p: nat, r: nat, q: Run, x: int)
    requires Fits(nodes, rest, len) && 1 <= p && Spans(nodes, p, r, q, len) && 0 <= x < len
    requires forall j :: 0 <= j < |rest| ==> q.pos + q.len <= rest[j].pos
    ensures Holds(q, x) ==> AttrAt(Spliced(nodes, p, r, q), x) == AttrOf(q)
    ensures !Holds(q, x) && !Covered(rest, x) ==> AttrAt(Spliced(nodes, p, r, q), x) == AttrAt(nodes, x)
  {
    hide Spliced, Free, IsList, Owner;
    var n := Spliced(nodes, p, r, q);
    var la, s := LeftCount(nodes, p, q), KeptFrom(nodes, r, q);
    SplicePieces(nodes, rest, len, p, r, q);
    SpliceIsList(nodes, rest, len, p, r, q);
    var o := Owner(nodes, |nodes|, x);
    OwnerHolds(nodes, |nodes|, x);
    if Holds(q, x) {
      SpliceAt(nodes, p, r, q, la);
      SpliceAt(nodes, p, r, q, la + 1);
      OwnerIs(n, |n|, x, la);
    } else if !Covered(rest, x) {
      OwnerSide(nodes, p, r, q, x, len);
      if x < q.pos {
        SpliceAt(nodes, p, r, q, o);
        SpliceAt(nodes, p, r, q, o + 1);
        OwnerIs(n, |n|, x, o);
      } else {
        if o == r && s == r + 1 {
          NothingFree(rest, q.pos + q.len, NextPos(nodes, r, len), x);
        }
        SpliceAt(nodes, p, r, q, la + 1 + o - s);
        SpliceAt(nodes, p, r, q, la + 2 + o - s);
        OwnerIs(n, |n|, x, la + 1 + o - s);
      }
    }
  }

  /** The owner of a position before q is at most p, of one after q at least r. */
  lemma OwnerSide(nodes: seq<Run>, p: nat, r: nat, q: Run, x: int, len: nat)
    requires IsList(nodes) && Spans(nodes, p, r, q, len) && 0 <= x
    ensures x < q.pos ==> Owner(nodes, |nodes|, x) < LeftCount(nodes, p, q)
    ensures q.pos + q.len <= x ==> r <= Owner(nodes, |nodes|, x)
  {
    hide Owner;
    OwnerHolds(nodes, |nodes|, x);
    var o := Owner(nodes, |nodes|, x);
  }

  /** When the codes of over come back, q first, the run that spans q grows by its length. */
  lemma GrowFits(nodes: seq<Run>, q: Run, rest: seq<Run>, len: nat, p: nat)
    requires Fits(nodes, [q] + rest, len) && 1 <= p && Spans(nodes, p, p, q, len)
    requires forall j :: 0 <= j < |rest| ==> q.pos + q.len <= rest[j].pos
    ensures Fits(nodes[p := nodes[p].(len := nodes[p].len + q.len)], rest, len)
  {
    hide Free, IsList;
    var n := nodes[p := nodes[p].(len := nodes[p].len + q.len)];
    assert IsList(n) by { SameShapeIsList(nodes, n); }
    GrowNode(nodes, q, rest, len, p, 0);
    forall k | 1 <= k < |n|
      ensures NodeFits(n, rest, len, k)
    {
      GrowNode(nodes, q, rest, len, p, k);
    }
  }

  lemma SameShapeIsList(nodes: seq<Run>, n: seq<Run>)
    requires IsList(nodes) && |n| == |nodes|
    requires forall k :: 0 <= k < |n| ==> n[k].pos == nodes[k].pos && n[k].typ == nodes[k].typ
    ensures IsList(n)
  {
  }

  lemma GrowNode(nodes: seq<Run>, q: Run, rest: seq<Run>, len: nat, p: nat, k: nat)
    requires Fits(nodes, [q] + rest, len) && 1 <= p && Spans(nodes, p, p, q, len) && k < |nodes|
    requires forall j :: 0 <= j < |rest| ==> q.pos + q.len <= rest[j].pos
    ensures var n := nodes[p := nodes[p].(len := nodes[p].len + q.len)];
            && (k == 0 ==> Free(rest, 0, NextPos(n, 0, len)) == 0)
            && (k > 0 ==> NodeFits(n, rest, len, k))
  {
    hide Free;
    var over := [q] + rest;
    var n := nodes[p := nodes[p].(len := nodes[p].len + q.len)];
    var a, b := Max(0, nodes[k].pos), NextPos(nodes, k, len);
    assert NextPos(n, k, len) == b;
    forall x
      ensures Covered(over, x) <==> Holds(q, x) || Covered(rest, x)
    {
      CoveredCons(q, rest, x);
    }
    if k > 0 {
      assert NodeFits(nodes, over, len, k);
      forall j | 0 <= j < |rest|
        ensures !(rest[j].pos < nodes[k].pos < rest[j].pos + rest[j].len)
      {
        assert over[j + 1] == rest[j];
      }
    }
    if k == p {
      FreeCons(q, rest, a, b);
    } else {
      assert b <= q.pos || q.pos + q.len <= a by {
        if k < p { assert nodes[k + 1].pos <= nodes[p].pos; } else { assert nodes[p + 1].pos <= nodes[k].pos; }
      }
      FreeSame(over, rest, a, b);
    }
  }

  lemma {:induction false} SameOwner(nodes: seq<Run>, n: seq<Run>, m: nat, x: int)
    requires |nodes| == |n| && 0 < m <= |n|
    requires forall k :: 0 <= k < |n| ==> n[k].pos == nodes[k].pos
    ensures Owner(n, m, x) == Owner(nodes, m, x)
    decreases m
  {
    if m > 1 { SameOwner(nodes, n, m - 1, x); }
  }

  /** Codes before the first run come back as the first run. */
  lemma FrontFits(nodes: seq<Run>, q: Run, rest: seq<Run>, len: nat)
    requires Fits(nodes, [q] + rest, len) && Spans(nodes, 0, 0, q, len) && nodes[0].len <= 1
    requires forall j :: 0 <= j < |rest| ==> q.pos + q.len <= rest[j].pos
    ensures var grown := nodes[0 := nodes[0].(len := nodes[0].len + q.len)];
            var n := Spliced(grown, 0, 0, q);
            q.pos == 0 && Fits(n, rest, len) && NextPos(n, 0, len) == 0
            && (forall x :: Holds(q, x) ==> AttrAt(n, x) == AttrOf(q))
            && forall x :: 0 <= x < len && !Holds(q, x) && !Covered(rest, x) ==> AttrAt(n, x) == AttrAt(nodes, x)
  {
    hide Free, AttrAt;
    FrontPos(nodes, q, rest, len);
    var grown := nodes[0 := nodes[0].(len := nodes[0].len + q.len)];
    var n := Spliced(grown, 0, 0, q);
    var sentinel := n[0];
    assert sentinel.pos == -1 && sentinel.typ == Sentinel && n == [sentinel, q] + nodes[1..];
    FrontShape(nodes, q, rest, len, sentinel);
    assert Free(rest, 0, NextPos(n, 0, len)) == 0 by { FreeNone(rest, 0, 0); }
  }

  lemma FrontPos(nodes: seq<Run>, q: Run, rest: seq<Run>, len: nat)
    requires Fits(nodes, [q] + rest, len) && Spans(nodes, 0, 0, q, len)
    requires forall j :: 0 <= j < |rest| ==> q.pos + q.len <= rest[j].pos
    ensures q.pos == 0
    ensures Free(rest, 0, NextPos(nodes, 0, len)) == q.len
  {
    hide Free;
    var over, b := [q] + rest, NextPos(nodes, 0, len);
    forall x
      ensures Covered(over, x) <==> Holds(q, x) || Covered(rest, x)
    {
      CoveredCons(q, rest, x);
    }
    NothingFree(over, 0, b, 0);
    FreeCons(q, rest, 0, b);
  }

  lemma FrontShape(nodes: seq<Run>, q: Run, rest: seq<Run>, len: nat, sentinel: Run)
    requires Fits(nodes, [q] + rest, len) && Spans(nodes, 0, 0, q, len) && q.pos == 0
    requires Free(rest, 0, NextPos(nodes, 0, len)) == q.len
    requires forall j :: 0 <= j < |rest| ==> q.pos + q.len <= rest[j].pos
    requires sentinel.pos == -1 && sentinel.typ == Sentinel
    ensures var n := [sentinel, q] + nodes[1..];
            && IsList(n) && NextPos(n, 0, len) == 0
            && (forall k :: 1 <= k < |n| ==> NodeFits(n, rest, len, k))
            && (forall x :: Holds(q, x) ==> AttrAt(n, x) == AttrOf(q))
            && (forall x :: 0 <= x < len && !Holds(q, x) && !Covered(rest, x) ==> AttrAt(n, x) == AttrAt(nodes, x))
  {
    hide Free, AttrAt, IsList;
    var n := [sentinel, q] + nodes[1..];
    FrontIsList(nodes, q, rest, len, sentinel);
    forall k | 1 <= k < |n|
      ensures NodeFits(n, rest, len, k)
    {
      FrontNode(nodes, q, rest, len, sentinel, k);
    }
    forall x | Holds(q, x) || (0 <= x < len && !Covered(rest, x))
      ensures if Holds(q, x) then AttrAt(n, x) == AttrOf(q) else AttrAt(n, x) == AttrAt(nodes, x)
    {
      FrontOwner(nodes, q, rest, len, sentinel, x);
    }
  }

  lemma FrontIsList(nodes: seq<Run>, q: Run, rest: seq<Run>, len: nat, sentinel: Run)
    requires Fits(nodes, [q] + rest, len) && Spans(nodes, 0, 0, q, len) && q.pos == 0
    requires sentinel.pos == -1 && sentinel.typ == Sentinel
    ensures IsList([sentinel, q] + nodes[1..])
    ensures forall k :: 1 <= k < |nodes| ==> NextPos(nodes, 0, len) <= nodes[k].pos
  {
    var n := [sentinel, q] + nodes[1..];
    assert forall k :: 2 <= k < |n| ==> n[k] == nodes[k - 1];
  }

  lemma FrontNode(nodes: seq<Run>, q: Run, rest: seq<Run>, len: nat, sentinel: Run, k: nat)
    requires Fits(nodes, [q] + rest, len) && Spans(nodes, 0, 0, q, len) && q.pos == 0
    requires Free(rest, 0, NextPos(nodes, 0, len)) == q.len
    requires forall j :: 0 <= j < |rest| ==> q.pos + q.len <= rest[j].pos
    requires forall k :: 1 <= k < |nodes| ==> NextPos(nodes, 0, len) <= nodes[k].pos
    requires 1 <= k < |nodes| + 1
    ensures NodeFits([sentinel, q] + nodes[1..], rest, len, k)
  {
    hide Free, IsList, Fits, NodeFits;
    var n := [sentinel, q] + nodes[1..];
    if k > 1 {
      GrowFree(nodes, q, rest, len, k - 1);
      assert n[k] == nodes[k - 1];
      NodeFitsMoved(nodes, n, rest, len, k - 1, k);
    } else {
      FirstNodeWithin(nodes, [q] + rest, len);
      FrontFirst(nodes, q, rest, len, n);
    }
  }

  lemma FirstNodeWithin(nodes: seq<Run>, over: seq<Run>, len: nat)
    requires Fits(nodes, over, len)
    ensures 1 < |nodes| ==> nodes[1].pos < len
  {
    if 1 < |nodes| { assert NodeFits(nodes, over, len, 1); }
  }

  lemma FrontFirst(nodes: seq<Run>, q: Run, rest: seq<Run>, len: nat, n: seq<Run>)
    requires |nodes| >= 1 && Spans(nodes, 0, 0, q, len) && q.pos == 0
    requires Free(rest, 0, NextPos(nodes, 0, len)) == q.len
    requires forall j :: 0 <= j < |rest| ==> q.pos + q.len <= rest[j].pos
    requires 1 < |nodes| ==> nodes[1].pos < len
    requires |n| >= 2 && n[1] == q && NextPos(n, 1, len) == NextPos(nodes, 0, len)
    ensures NodeFits(n, rest, len, 1)
  {
    hide Free;
  }

  lemma NodeFitsMoved(nodes: seq<Run>, n: seq<Run>, rest: seq<Run>, len: nat, k: nat, k': nat)
    requires k < |nodes| && k' < |n| && n[k'] == nodes[k] && NextPos(n, k', len) == NextPos(nodes, k, len)
    requires NodeFits(nodes, rest, len, k)
    ensures NodeFits(n, rest, len, k')
  {
    hide Free;
  }

  /** A node after q counts the same whether q is in the list or not. */
  lemma GrowFree(nodes: seq<Run>, q: Run, rest: seq<Run>, len: nat, k: nat)
    requires Fits(nodes, [q] + rest, len) && 1 <= k < |nodes| && q.pos + q.len <= nodes[k].pos
    ensures NodeFits(nodes, rest, len, k)
  {
    hide Free;
    var over := [q] + rest;
    assert NodeFits(nodes, over, len, k);
    forall x
      ensures Covered(over, x) <==> Holds(q, x) || Covered(rest, x)
    {
      CoveredCons(q, rest, x);
    }
    FreeSame(over, rest, nodes[k].pos, NextPos(nodes, k, len));
    assert forall j :: 0 <= j < |rest| ==> over[j + 1] == rest[j];
  }

  lemma FrontOwner(nodes: seq<Run>, q: Run, rest: seq<Run>, len: nat, sentinel: Run, x: int)
    requires Fits(nodes, [q] + rest, len) && Spans(nodes, 0, 0, q, len) && q.pos == 0
    requires sentinel.pos == -1 && sentinel.typ == Sentinel && IsList([sentinel, q] + nodes[1..])
    requires Holds(q, x) || (0 <= x < len && !Covered(rest, x))
    ensures var a := AttrAt([sentinel, q] + nodes[1..], x);
            if Holds(q, x) then a == AttrOf(q) else a == AttrAt(nodes, x)
  {
    hide Free, Owner;
    var n := [sentinel, q] + nodes[1..];
    if Holds(q, x) {
      assert |n| > 2 ==> n[2] == nodes[1];
      OwnerIs(n, |n|, x, 1);
    } else {
      var o := Owner(nodes, |nodes|, x);
      OwnerHolds(nodes, |nodes|, x);
      if x < NextPos(nodes, 0, len) {
        NothingFree([q] + rest, 0, NextPos(nodes, 0, len), x);
        CoveredCons(q, rest, x);
        assert false;
      }
      OwnerIs(n, |n|, x, o + 1);
    }
  }

  /** What an overlay has done to the text once the first k runs of over are in. */
  ghost predicate Painted(base: seq<Run>, over: seq<Run>, k: nat, now: seq<Run>, len: nat)
    requires k <= |over|
  {
    && |base| > 0 && |now| > 0
    && (forall x, i :: 0 <= x < len && 0 <= i < k && Holds(over[i], x) ==> AttrAt(now, x) == AttrOf(over[i]))
    && (forall x :: 0 <= x < len && !Covered(over, x) ==> AttrAt(now, x) == AttrAt(base, x))
  }

  lemma PaintStep(base: seq<Run>, over: seq<Run>, k: nat, mid: seq<Run>, now: seq<Run>, len: nat)
    requires k < |over| && Disjoint(over, len) && Painted(base, over, k, mid, len) && |now| > 0
    requires forall x :: 0 <= x < len && Holds(over[k], x) ==> AttrAt(now, x) == AttrOf(over[k])
    requires forall x :: 0 <= x < len && !Holds(over[k], x) && !Covered(over[k + 1..], x) ==> AttrAt(now, x) == AttrAt(mid, x)
    ensures Painted(base, over, k + 1, now, len)
  {
    hide AttrAt;
    forall x, i | 0 <= x < len && 0 <= i < k && Holds(over[i], x)
      ensures !Holds(over[k], x) && !Covered(over[k + 1..], x)
    {
      var rest := over[k + 1..];
      assert forall j :: 0 <= j < |rest| ==> rest[j] == over[k + 1 + j];
    }
    forall x | 0 <= x < len && !Covered(over, x)
      ensures !Holds(over[k], x) && !Covered(over[k + 1..], x)
    {
      var rest := over[k + 1..];
      assert forall j :: 0 <= j < |rest| ==> rest[j] == over[k + 1 + j];
    }
  }

  lemma SameLevelsRefl(a: seq<Run>)
    requires |a| > 0
    ensures SameLevels(a, a)
  {
  }

  /** What the loop of an overlay keeps of the list, once the first k runs of over are in. */
  ghost predicate ShadowFits(nodes: seq<Run>, over: seq<Run>, k: nat, preserveLength: bool, len: nat)
    requires k <= |over|
  {
    if preserveLength then
      Fits(nodes, over[k..], len) && (NextPos(nodes, 0, len) == 0 || nodes[0].len <= 1)
    else
      Tiles(nodes, len) && |nodes| > 1
  }

  lemma ShadowStarts(nodes: seq<Run>, over: seq<Run>, preserveLength: bool, len: nat)
    requires if preserveLength then Fits(nodes, over, len) && nodes[0].len <= 1 else Tiles(nodes, len) && |nodes| > 1
    ensures ShadowFits(nodes, over, 0, preserveLength, len) && Painted(nodes, over, 0, nodes, len)
    ensures nodes[0].pos == -1
  {
    assert over[0..] == over;
  }

  lemma ShadowSkips(base: seq<Run>, nodes: seq<Run>, over: seq<Run>, k: nat, preserveLength: bool, len: nat)
    requires k < |over| && Disjoint(over, len) && over[k].len == 0
    requires ShadowFits(nodes, over, k, preserveLength, len) && Painted(base, over, k, nodes, len)
    ensures ShadowFits(nodes, over, k + 1, preserveLength, len) && Painted(base, over, k + 1, nodes, len)
  {
    var q, rest := over[k], over[k + 1..];
    assert over[k..] == [q] + rest;
    forall x
      ensures Covered([q] + rest, x) <==> Covered(rest, x)
    {
      CoveredCons(q, rest, x);
    }
    PaintStep(base, over, k, nodes, nodes, len);
    if preserveLength { DropEmpty(nodes, q, rest, len); }
  }

  lemma DropEmpty(nodes: seq<Run>, q: Run, rest: seq<Run>, len: nat)
    requires Fits(nodes, [q] + rest, len) && q.len == 0
    ensures Fits(nodes, rest, len)
  {
    hide Free, IsList;
    FitsIsList(nodes, [q] + rest, len);
    assert |nodes| >= 1 by { ListNotEmpty(nodes); }
    forall x
      ensures Covered([q] + rest, x) <==> Covered(rest, x)
    {
      CoveredCons(q, rest, x);
    }
    FreeSame([q] + rest, rest, 0, NextPos(nodes, 0, len));
    forall k | 1 <= k < |nodes|
      ensures NodeFits(nodes, rest, len, k)
    {
      assert NodeFits(nodes, [q] + rest, len, k);
      FreeSame([q] + rest, rest, nodes[k].pos, NextPos(nodes, k, len));
      assert forall j :: 0 <= j < |rest| ==> ([q] + rest)[j + 1] == rest[j];
    }
  }

  lemma ShadowEnds(nodes: seq<Run>, over: seq<Run>, preserveLength: bool, len: nat)
    requires ShadowFits(nodes, over, |over|, preserveLength, len)
    ensures Tiles(nodes, len)
  {
    FitsIsTiles(nodes, len);
    assert over[|over|..] == [];
  }

  /** The list before a splice: with preserveLength the run that q falls into has grown. */
  function Grown(nodes: seq<Run>, r: nat, q: Run, preserveLength: bool): seq<Run>
    requires r < |nodes|
  {
    if preserveLength then nodes[r := nodes[r].(len := nodes[r].len + q.len)] else nodes
  }

  lemma ShadowStep(base: seq<Run>, nodes: seq<Run>, over: seq<Run>, k: nat, preserveLength: bool, len: nat, p: nat, r: nat)
    requires k < |over| && Disjoint(over, len) && over[k].len > 0
    requires ShadowFits(nodes, over, k, preserveLength, len) && Painted(base, over, k, nodes, len)
    requires p <= r < |nodes| && nodes[p].pos <= over[k].pos && (p + 1 < |nodes| ==> over[k].pos < nodes[p + 1].pos)
    requires nodes[r].pos < over[k].pos + over[k].len && (r + 1 < |nodes| ==> over[k].pos + over[k].len <= nodes[r + 1].pos)
    ensures preserveLength ==> p == r
    ensures nodes[0].pos == -1 && (p > 0 ==> nodes[p - 1].pos < nodes[p].pos)
    ensures var n := Spliced(Grown(nodes, r, over[k], preserveLength), p, r, over[k]);
            ShadowFits(n, over, k + 1, preserveLength, len) && Painted(base, over, k + 1, n, len)
  {
    hide Free, Spliced, AttrAt, Painted;
    var q, rest := over[k], over[k + 1..];
    assert Spans(nodes, p, r, q, len);
    assert over[k..] == [q] + rest;
    assert forall j :: 0 <= j < |rest| ==> rest[j] == over[k + 1 + j];
    FitsIsTiles(nodes, len);
    if preserveLength {
      if p + 1 < |nodes| { NoNodeInside(nodes, q, rest, len, p + 1); }
      StepBack(base, nodes, over, k, len, p);
    } else {
      StepOver(base, nodes, over, k, len, p, r);
    }
  }

  lemma NoNodeInside(nodes: seq<Run>, q: Run, rest: seq<Run>, len: nat, m: nat)
    requires Fits(nodes, [q] + rest, len) && 1 <= m < |nodes|
    ensures forall r :: m <= r < |nodes| ==> nodes[m].pos <= nodes[r].pos
    ensures !(q.pos < nodes[m].pos < q.pos + q.len)
  {
    assert NodeFits(nodes, [q] + rest, len, m) && ([q] + rest)[0] == q;
  }

  lemma StepOver(base: seq<Run>, nodes: seq<Run>, over: seq<Run>, k: nat, len: nat, p: nat, r: nat)
    requires k < |over| && Disjoint(over, len) && Spans(nodes, p, r, over[k], len)
    requires Tiles(nodes, len) && |nodes| > 1 && Painted(base, over, k, nodes, len)
    ensures var n := Spliced(nodes, p, r, over[k]);
            Tiles(n, len) && |n| > 1 && Painted(base, over, k + 1, n, len)
  {
    hide Free, Spliced, AttrAt, Painted;
    var q := over[k];
    FitsIsTiles(nodes, len);
    assert 1 <= p;
    SpliceFits(nodes, [], len, p, r, q);
    var n := Spliced(nodes, p, r, q);
    FitsIsTiles(n, len);
    forall x | 0 <= x < len
      ensures if Holds(q, x) then AttrAt(n, x) == AttrOf(q) else AttrAt(n, x) == AttrAt(nodes, x)
    {
      SplicePaints(nodes, [], len, p, r, q, x);
    }
    PaintStep(base, over, k, nodes, n, len);
    SplicePieces(nodes, [], len, p, r, q);
    SpliceAt(nodes, p, r, q, 1);
  }

  lemma StepBack(base: seq<Run>, nodes: seq<Run>, over: seq<Run>, k: nat, len: nat, p: nat)
    requires k < |over| && Disjoint(over, len) && Spans(nodes, p, p, over[k], len)
    requires ShadowFits(nodes, over, k, true, len) && Painted(base, over, k, nodes, len)
    ensures var n := Spliced(Grown(nodes, p, over[k], true), p, p, over[k]);
            ShadowFits(n, over, k + 1, true, len) && Painted(base, over, k + 1, n, len)
  {
    hide Free, Spliced, AttrAt, Painted;
    var q, rest := over[k], over[k + 1..];
    assert over[k..] == [q] + rest;
    assert forall j :: 0 <= j < |rest| ==> rest[j] == over[k + 1 + j];
    var grown := Grown(nodes, p, q, true);
    var n := Spliced(grown, p, p, q);
    if p == 0 {
      FrontFits(nodes, q, rest, len);
    } else {
      GrowFits(nodes, q, rest, len, p);
      SpliceFits(grown, rest, len, p, p, q);
      SplicePieces(grown, rest, len, p, p, q);
      SpliceFirst(grown, rest, len, p, p, q);
      SpliceAt(grown, p, p, q, 0);
      forall x | 0 <= x < len
        ensures Holds(q, x) ==> AttrAt(n, x) == AttrOf(q)
        ensures !Holds(q, x) && !Covered(rest, x) ==> AttrAt(n, x) == AttrAt(nodes, x)
      {
        SplicePaints(grown, rest, len, p, p, q, x);
        GrownAttr(nodes, p, q, x);
      }
    }
    PaintStep(base, over, k, nodes, n, len);
  }

  lemma GrownAttr(nodes: seq<Run>, p: nat, q: Run, x: int)
    requires p < |nodes|
    ensures AttrAt(Grown(nodes, p, q, true), x) == AttrAt(nodes, x)
  {
    SameOwner(nodes, Grown(nodes, p, q, true), |nodes|, x);
  }

  // ---------------------------------------------------------------- conservation of the text

  function SumLen(runs: seq<Run>, from: nat): int
    requires from <= |runs|
    decreases |runs| - from
  {
    if from == |runs| then 0 else runs[from].len + SumLen(runs, from + 1)
  }

  lemma {:induction false} SumIsFree(nodes: seq<Run>, over: seq<Run>, len: nat, from: nat)
    requires Fits(nodes, over, len) && 1 <= from <= |nodes|
    ensures SumLen(nodes, from) == Free(over, NextPos(nodes, from - 1, len), len)
    decreases |nodes| - from
  {
    if from < |nodes| {
      SumIsFree(nodes, over, len, from + 1);
      assert NodeFits(nodes, over, len, from);
      WithinText(nodes, over, len, from);
      FreeSplit(over, nodes[from].pos, NextPos(nodes, from, len), len);
    }
  }

  lemma WithinText(nodes: seq<Run>, over: seq<Run>, len: nat, i: nat)
    requires Fits(nodes, over, len) && 1 <= i < |nodes|
    ensures nodes[i].pos < NextPos(nodes, i, len) <= len
  {
    assert NodeFits(nodes, over, len, i);
    if i + 1 < |nodes| { assert NodeFits(nodes, over, len, i + 1); }
  }

  lemma {:induction false} FreeAndCovered(over: seq<Run>, len: nat)
    requires Disjoint(over, len)
    ensures Free(over, 0, len) + SumLen(over, 0) == len
    decreases |over|
  {
    if over == [] {
      FreeOfNone(over, 0, len);
    } else {
      assert over == [over[0]] + over[1..];
      FreeAndCovered(over[1..], len);
      SumTail(over, 1);
      FreeCons(over[0], over[1..], 0, len);
    }
  }

  lemma {:induction false} SumTail(over: seq<Run>, from: nat)
    requires 1 <= from <= |over|
    ensures SumLen(over, from) == SumLen(over[1..], from - 1)
    decreases |over| - from
  {
    if from < |over| { SumTail(over, from + 1); }
  }

  /** The runs of the list and the codes taken out of it together hold every character once. */
  lemma TextConserved(nodes: seq<Run>, over: seq<Run>, len: nat)
    requires Fits(nodes, over, len) && Disjoint(over, len)
    ensures SumLen(nodes, 1) + SumLen(over, 0) == len
  {
    SumIsFree(nodes, over, len, 1);
    FreeAndCovered(over, len);
    var b := NextPos(nodes, 0, len);
    if 1 < |nodes| { WithinText(nodes, over, len, 1); assert nodes[0].pos < nodes[1].pos; }
    FreeSplit(over, 0, b, len);
  }

  // ---------------------------------------------------------------- the code

  /** Bracket of a character; no brackets need be given. */
  function BracketAt(brackets: Option<seq<Bracket>>, i: nat): Bracket
    requires brackets.Some? ==> i < |brackets.value|
  {
    if brackets.Some? then brackets.value[i] else NoBracket
  }

  /** The condition under which a character starts a run of its own. */
  predicate StartsRun(last: Run, typ: CharType, bracket: Bracket) {
    typ != last.typ || bracket != NoBracket || last.bracket != NoBracket || typ.IsIsolate()
  }

  /** A run that holds [run.pos, end): all its characters are alike, and special ones stand alone. */
  ghost predicate RunEncodes(run: Run, types: seq<CharType>, brackets: Option<seq<Bracket>>, end: int)
    requires brackets.Some? ==> |brackets.value| == |types|
  {
    && 0 <= run.pos < end <= |types| && run.level == 0 && run.isolateLevel == 0
    && (forall x :: run.pos <= x < end ==> types[x] == run.typ && BracketAt(brackets, x) == run.bracket)
    && (run.typ.IsIsolate() || run.bracket != NoBracket ==> end == run.pos + 1)
  }

  /** The first n characters, run-length encoded.  The last run is still open. */
  ghost predicate Encodes(nodes: seq<Run>, types: seq<CharType>, brackets: Option<seq<Bracket>>, n: nat)
    requires n <= |types| && (brackets.Some? ==> |brackets.value| == |types|)
  {
    && IsList(nodes) && NextPos(nodes, 0, n) == 0
    && (forall k :: 1 <= k < |nodes| ==> RunEncodes(nodes[k], types, brackets, NextPos(nodes, k, n)))
    && (forall k :: 2 <= k < |nodes| ==> StartsRun(nodes[k - 1], nodes[k].typ, nodes[k].bracket))
  }

  lemma EncodesStart(types: seq<CharType>, brackets: Option<seq<Bracket>>)
    requires brackets.Some? ==> |brackets.value| == |types|
    ensures Encodes([SENTINEL_RUN], types, brackets, 0)
  {
  }

  lemma EncodesEnd(nodes: seq<Run>, types: seq<CharType>, brackets: Option<seq<Bracket>>, n: seq<Run>)
    requires brackets.Some? ==> |brackets.value| == |types|
    requires Encodes(nodes, types, brackets, |types|) && |nodes| > 1
    requires forall k :: 1 <= k < |nodes| - 1 ==> nodes[k].pos + nodes[k].len == nodes[k + 1].pos
    requires var l := |nodes| - 1; n == nodes[l := nodes[l].(len := |types| - nodes[l].pos)]
    ensures Encodes(n, types, brackets, |types|) && Tiles(n, |types|)
  {
    hide RunEncodes, IsList, StartsRun, NextPos, Encodes, Tiles;
    EndEncodes(nodes, types, brackets, n);
    EndTiles(nodes, types, brackets, n);
  }

  lemma EndEncodes(nodes: seq<Run>, types: seq<CharType>, brackets: Option<seq<Bracket>>, n: seq<Run>)
    requires brackets.Some? ==> |brackets.value| == |types|
    requires Encodes(nodes, types, brackets, |types|) && |nodes| > 1
    requires forall k :: 1 <= k < |nodes| - 1 ==> nodes[k].pos + nodes[k].len == nodes[k + 1].pos
    requires var l := |nodes| - 1; n == nodes[l := nodes[l].(len := |types| - nodes[l].pos)]
    ensures Encodes(n, types, brackets, |types|)
  {
    hide RunEncodes, IsList, StartsRun, NextPos;
    assert IsList(n) by { SameShapeIsList(nodes, n); }
    EndStarts(nodes, types, brackets, n);
    forall k | 1 <= k < |nodes|
      ensures RunEncodes(n[k], types, brackets, NextPos(n, k, |types|))
    {
      EndRun(nodes, types, brackets, n, k);
    }
  }

  lemma EndTiles(nodes: seq<Run>, types: seq<CharType>, brackets: Option<seq<Bracket>>, n: seq<Run>)
    requires brackets.Some? ==> |brackets.value| == |types|
    requires Encodes(nodes, types, brackets, |types|) && |nodes| > 1
    requires forall k :: 1 <= k < |nodes| - 1 ==> nodes[k].pos + nodes[k].len == nodes[k + 1].pos
    requires var l := |nodes| - 1; n == nodes[l := nodes[l].(len := |types| - nodes[l].pos)]
    ensures Tiles(n, |types|)
  {
    hide RunEncodes, IsList, StartsRun, NextPos;
    assert IsList(n) by { SameShapeIsList(nodes, n); }
    EndStarts(nodes, types, brackets, n);
    forall k | 1 <= k < |nodes|
      ensures 0 < n[k].len && n[k].pos + n[k].len == NextPos(n, k, |types|)
    {
      EndRun(nodes, types, brackets, n, k);
    }
  }

  lemma EndStarts(nodes: seq<Run>, types: seq<CharType>, brackets: Option<seq<Bracket>>, n: seq<Run>)
    requires |nodes| > 1 && var l := |nodes| - 1; n == nodes[l := nodes[l].(len := |types| - nodes[l].pos)]
    requires forall k :: 2 <= k < |nodes| ==> StartsRun(nodes[k - 1], nodes[k].typ, nodes[k].bracket)
    ensures forall k :: 2 <= k < |n| ==> StartsRun(n[k - 1], n[k].typ, n[k].bracket)
    ensures NextPos(n, 0, |types|) == NextPos(nodes, 0, |types|)
  {
    hide StartsRun;
    forall k | 2 <= k < |n|
      ensures StartsRun(n[k - 1], n[k].typ, n[k].bracket)
    {
      StartsBy(n[k - 1], nodes[k - 1], n[k].typ, n[k].bracket);
    }
  }

  lemma EndRun(nodes: seq<Run>, types: seq<CharType>, brackets: Option<seq<Bracket>>, n: seq<Run>, k: nat)
    requires brackets.Some? ==> |brackets.value| == |types|
    requires 1 <= k < |nodes| && RunEncodes(nodes[k], types, brackets, NextPos(nodes, k, |types|))
    requires k < |nodes| - 1 ==> nodes[k].pos + nodes[k].len == nodes[k + 1].pos
    requires var l := |nodes| - 1; n == nodes[l := nodes[l].(len := |types| - nodes[l].pos)]
    ensures RunEncodes(n[k], types, brackets, NextPos(n, k, |types|))
    ensures 0 < n[k].len && n[k].pos + n[k].len == NextPos(n, k, |types|)
  {
    hide RunEncodes;
    LenIsFree(nodes[k], n[k], types, brackets, NextPos(nodes, k, |types|));
  }

  lemma LenIsFree(a: Run, b: Run, types: seq<CharType>, brackets: Option<seq<Bracket>>, end: int)
    requires brackets.Some? ==> |brackets.value| == |types|
    requires RunEncodes(a, types, brackets, end) && b == a.(len := b.len)
    ensures RunEncodes(b, types, brackets, end) && a.pos < end
  {
  }

  lemma EncodesSame(nodes: seq<Run>, types: seq<CharType>, brackets: Option<seq<Bracket>>, i: nat)
    requires i < |types| && (brackets.Some? ==> |brackets.value| == |types|)
    requires Encodes(nodes, types, brackets, i) && |nodes| > 1
    requires !StartsRun(nodes[|nodes| - 1], types[i], BracketAt(brackets, i))
    ensures Encodes(nodes, types, brackets, i + 1)
  {
    hide IsList, RunEncodes;
    var n := i + 1;
    forall k | 1 <= k < |nodes|
      ensures RunEncodes(nodes[k], types, brackets, NextPos(nodes, k, n))
    {
      assert RunEncodes(nodes[k], types, brackets, NextPos(nodes, k, i));
      if k == |nodes| - 1 { LongerRun(nodes[k], types, brackets, i); }
    }
  }

  lemma LongerRun(run: Run, types: seq<CharType>, brackets: Option<seq<Bracket>>, i: nat)
    requires i < |types| && (brackets.Some? ==> |brackets.value| == |types|)
    requires RunEncodes(run, types, brackets, i) && !StartsRun(run, types[i], BracketAt(brackets, i))
    ensures RunEncodes(run, types, brackets, i + 1)
  {
  }

  lemma EncodesNew(nodes: seq<Run>, types: seq<CharType>, brackets: Option<seq<Bracket>>, i: nat, n: seq<Run>)
    requires i < |types| && types[i] != Sentinel && (brackets.Some? ==> |brackets.value| == |types|)
    requires Encodes(nodes, types, brackets, i) && (|nodes| == 1 ==> i == 0)
    requires StartsRun(nodes[|nodes| - 1], types[i], BracketAt(brackets, i))
    requires var l := |nodes| - 1;
             n == nodes[l := nodes[l].(len := i - nodes[l].pos)] + [Run(i, 0, types[i], 0, 0, BracketAt(brackets, i))]
    ensures Encodes(n, types, brackets, i + 1)
  {
    hide RunEncodes, StartsRun;
    var m := i + 1;
    forall k | 1 <= k < |n|
      ensures RunEncodes(n[k], types, brackets, NextPos(n, k, m))
      ensures n[k].pos <= i && (k < |nodes| ==> n[k].pos < i)
    {
      if k < |nodes| {
        LenIsFree(nodes[k], n[k], types, brackets, NextPos(nodes, k, i));
        LastBefore(nodes, types, brackets, i, k);
      } else {
        OneRun(types, brackets, i);
      }
    }
    assert IsList(n);
    forall k | 2 <= k < |n|
      ensures StartsRun(n[k - 1], n[k].typ, n[k].bracket)
    {
      StartsBy(n[k - 1], nodes[k - 1], n[k].typ, n[k].bracket);
    }
  }

  lemma StartsBy(a: Run, b: Run, typ: CharType, bracket: Bracket)
    requires a.typ == b.typ && a.bracket == b.bracket
    ensures StartsRun(a, typ, bracket) <==> StartsRun(b, typ, bracket)
  {
  }

  lemma LastBefore(nodes: seq<Run>, types: seq<CharType>, brackets: Option<seq<Bracket>>, i: nat, k: nat)
    requires i <= |types| && (brackets.Some? ==> |brackets.value| == |types|)
    requires Encodes(nodes, types, brackets, i) && 1 <= k < |nodes|
    ensures nodes[k].pos < i
  {
    var l := |nodes| - 1;
    assert RunEncodes(nodes[l], types, brackets, NextPos(nodes, l, i));
    assert nodes[k].pos <= nodes[l].pos;
  }

  lemma OneRun(types: seq<CharType>, brackets: Option<seq<Bracket>>, i: nat)
    requires i < |types| && (brackets.Some? ==> |brackets.value| == |types|)
    ensures RunEncodes(Run(i, 0, types[i], 0, 0, BracketAt(brackets, i)), types, brackets, i + 1)
  {
  }

  /** run_list_encode_bidi_types: maximal runs of one type, brackets and isolate codes standing alone.
      An empty text has no list, which is the null pointer of the program. */
  method EncodeBidiTypes(types: seq<CharType>, brackets: Option<seq<Bracket>>) returns (nodes: seq<Run>)
    requires Sentinel !in types
    requires brackets.Some? ==> |brackets.value| == |types|
    ensures |types| == 0 ==> nodes == []
    ensures |types| > 0 ==> Tiles(nodes, |types|) && nodes[0].len <= 1 && Encodes(nodes, types, brackets, |types|)
  {
    hide Encodes;
    nodes := [SENTINEL_RUN];
    var i := 0;
    EncodesStart(types, brackets);
    while i < |types|
      invariant 0 <= i <= |types|
      invariant |nodes| >= 1 && Encodes(nodes, types, brackets, i)
      invariant forall k :: 1 <= k < |nodes| - 1 ==> nodes[k].pos + nodes[k].len == nodes[k + 1].pos
      invariant |nodes| == 1 <==> i == 0
      invariant nodes[0].len <= 1 && nodes[0].pos == -1 && nodes[0].typ == Sentinel
    {
      var bracket := BracketAt(brackets, i);
      var last := |nodes| - 1;
      if StartsRun(nodes[last], types[i], bracket) {
        assert types[i] in types;
        ghost var before := nodes;
        nodes := nodes[last := nodes[last].(len := i - nodes[last].pos)] + [Run(i, 0, types[i], 0, 0, bracket)];
        EncodesNew(before, types, brackets, i, nodes);
      } else {
        EncodesSame(nodes, types, brackets, i);
      }
      i := i + 1;
    }
    var last := |nodes| - 1;
    ghost var before := nodes;
    nodes := nodes[last := nodes[last].(len := |types| - nodes[last].pos)];
    if i == 0 {
      nodes := [];
    } else {
      EncodesEnd(before, types, brackets, nodes);
    }
  }

  class RunList {
    var nodes: seq<Run>

    constructor (nodes: seq<Run>)
      ensures this.nodes == nodes
    {
      this.nodes := nodes;
    }

    /** merge_with_prev; the result is the run that remains. */
    method MergeWithPrev(i: nat) returns (first: nat)
      requires 2 <= i < |nodes|
      modifies this
      ensures first == i - 1 && nodes == Merged(old(nodes), i)
    {
      first := i - 1;
      nodes := nodes[..first] + [nodes[first].(len := nodes[first].len + nodes[i].len)] + nodes[i + 1..];
    }

    /** compact_list: no character changes, none is lost, and no two neighbours could still be joined. */
    method CompactList(ghost over: seq<Run>, ghost len: nat)
      requires Fits(nodes, over, len)
      modifies this
      ensures Fits(nodes, over, len) && RunsFrom(old(nodes), nodes)
      ensures forall x :: 0 <= x ==> AttrAt(nodes, x) == AttrAt(old(nodes), x)
      ensures forall i :: 2 <= i < |nodes| ==> !SameRun(nodes[i - 1], nodes[i])
      ensures nodes == Compacted(old(nodes), 1, false) && SameLevels(old(nodes), nodes)
    {
      hide AttrAt, PlaceAt, Free, RunsFrom, SameLevels;
      SameLevelsRefl(nodes);
      var i := 1;
      assert RunsFrom(nodes, nodes) by { ListNotEmpty(nodes); RunsFromRefl(nodes); }
      while i < |nodes|
        invariant 1 <= i <= |nodes|
        invariant Fits(nodes, over, len) && RunsFrom(old(nodes), nodes)
        invariant Compacted(nodes, i, false) == Compacted(old(nodes), 1, false) && SameLevels(old(nodes), nodes)
        invariant forall x :: 0 <= x ==> AttrAt(nodes, x) == AttrAt(old(nodes), x)
        invariant forall k :: 2 <= k < i ==> !SameRun(nodes[k - 1], nodes[k])
        decreases |nodes| - i
      {
        if SameRun(nodes[i - 1], nodes[i]) {
          MergeFits(nodes, over, len, i);
          RunsFromMerge(old(nodes), nodes, i);
          MergeKeeps(nodes, i);
          SameLevelsTrans(old(nodes), nodes, Merged(nodes, i));
          CompactedMerge(nodes, i, false);
          i := MergeWithPrev(i);
        }
        i := i + 1;
      }
    }

    /** compact_neutrals: neighbouring neutrals become one run of the first one's type. */
    method CompactNeutrals(ghost over: seq<Run>, ghost len: nat)
      requires Fits(nodes, over, len)
      modifies this
      ensures Fits(nodes, over, len) && RunsFrom(old(nodes), nodes)
      ensures SameLevels(old(nodes), nodes) && nodes == Compacted(old(nodes), 1, true)
      ensures forall i :: 2 <= i < |nodes| ==> !SameNeutral(nodes[i - 1], nodes[i])
    {
      hide AttrAt, PlaceAt, Free, RunsFrom, SameLevels;
      var i := 1;
      assert RunsFrom(nodes, nodes) by { ListNotEmpty(nodes); RunsFromRefl(nodes); }
      SameLevelsRefl(nodes);
      while i < |nodes|
        invariant 1 <= i <= |nodes|
        invariant Fits(nodes, over, len) && RunsFrom(old(nodes), nodes)
        invariant SameLevels(old(nodes), nodes) && Compacted(nodes, i, true) == Compacted(old(nodes), 1, true)
        invariant forall k :: 2 <= k < i ==> !SameNeutral(nodes[k - 1], nodes[k])
        decreases |nodes| - i
      {
        if SameNeutral(nodes[i - 1], nodes[i]) {
          MergeFits(nodes, over, len, i);
          RunsFromMerge(old(nodes), nodes, i);
          MergeKeeps(nodes, i);
          SameLevelsTrans(old(nodes), nodes, Merged(nodes, i));
          CompactedMerge(nodes, i, true);
          i := MergeWithPrev(i);
        }
        i := i + 1;
      }
    }

    /** What follows q: the rest of r, if anything is left of it.  A run cut in three gets a new node. */
    method CutRight(p: nat, r: nat, pos2: int) returns (tail: seq<Run>)
      requires p <= r < |nodes|
      ensures tail == RightPart(nodes, p, r, pos2)
    {
      if nodes[r].pos + nodes[r].len <= pos2 {
        tail := nodes[r + 1..];
      } else if p == r {
        tail := [Run(pos2, nodes[p].pos + nodes[p].len - pos2, nodes[p].typ, nodes[p].level, nodes[p].isolateLevel, NoBracket)]
                + nodes[p + 1..];
      } else {
        tail := [nodes[r].(len := nodes[r].pos + nodes[r].len - pos2, pos := pos2)] + nodes[r + 1..];
      }
    }

    /** Cuts the end of p, or leaves p out if nothing of it remains; the result is the node before q. */
    method CutLeft(p: nat, pos: int) returns (before: int)
      requires p < |nodes|
      modifies this
      ensures before == if old(nodes)[p].pos + old(nodes)[p].len >= pos && old(nodes)[p].pos >= pos then p - 1 else p
      ensures before < |nodes| && nodes[..before + 1] == LeftPart(old(nodes), p, pos)
      ensures forall i :: 0 <= i <= before ==> nodes[i].pos == old(nodes)[i].pos
    {
      before := p;
      if nodes[p].pos + nodes[p].len >= pos {
        if nodes[p].pos < pos {
          nodes := nodes[p := nodes[p].(len := pos - nodes[p].pos)];
        } else {
          before := p - 1;
        }
      }
    }

    /** The relinking in the body of shadow_run_list. */
    method Splice(p: nat, r: nat, q: Run) returns (before: int)
      requires p <= r < |nodes|
      modifies this
      ensures nodes == Spliced(old(nodes), p, r, q)
      ensures before == if old(nodes)[p].pos + old(nodes)[p].len >= q.pos && old(nodes)[p].pos >= q.pos then p - 1 else p
      ensures before < |nodes| && forall i :: 0 <= i <= before ==> nodes[i].pos == old(nodes)[i].pos
    {
      hide LeftPart, RightPart;
      var tail := CutRight(p, r, q.pos + q.len);
      before := CutLeft(p, q.pos);
      nodes := nodes[..before + 1] + [q] + tail;
    }

    /** shadow_run_list.  The runs of over take their places: with preserveLength the codes that were
        removed come back, without it what the list held there is replaced. */
    method Shadow(over: seq<Run>, preserveLength: bool, ghost len: nat)
      requires Disjoint(over, len)
      requires if preserveLength then Fits(nodes, over, len) && nodes[0].len <= 1 else Tiles(nodes, len) && |nodes| > 1
      modifies this
      ensures Tiles(nodes, len)
      ensures Painted(old(nodes), over, |over|, nodes, len)
    {
      hide Free, AttrAt, Spliced, IsList, Painted, Fits, Tiles, Covered;
      var p, k := 0, 0;
      var pos := 0;
      ShadowStarts(nodes, over, preserveLength, len);
      while k < |over|
        invariant 0 <= k <= |over| && 0 <= p < |nodes| && nodes[p].pos <= pos
        invariant ShadowFits(nodes, over, k, preserveLength, len)
        invariant Painted(old(nodes), over, k, nodes, len)
        invariant forall j :: k <= j < |over| ==> pos <= over[j].pos
      {
        var q := over[k];
        if q.len == 0 || q.pos < pos {
          ShadowSkips(old(nodes), nodes, over, k, preserveLength, len);
          k := k + 1;
          continue;
        }
        pos := q.pos;
        while p + 1 < |nodes| && nodes[p + 1].pos <= pos
          invariant 0 <= p < |nodes| && nodes[p].pos <= pos
        {
          p := p + 1;
        }
        var pos2 := pos + q.len;
        var r := p;
        while r + 1 < |nodes| && nodes[r + 1].pos < pos2
          invariant p <= r < |nodes| && nodes[r].pos < pos2
        {
          r := r + 1;
        }
        ShadowStep(old(nodes), nodes, over, k, preserveLength, len, p, r);
        if preserveLength {
          nodes := nodes[r := nodes[r].(len := nodes[r].len + q.len)];
        }
        p := Splice(p, r, q);
        k := k + 1;
      }
      ShadowEnds(nodes, over, preserveLength, len);
    }
  }
}
