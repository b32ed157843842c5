/** JSON Merge Patch of 3rd/cjson/cJSON_Utils.c: merge_patch computes the function of section 2 of RFC 7396,
    and generate_merge_patch finds a patch that leads from one tree to the other, unless null gets in the way. */
module MergePatch {
  import opened Wrappers
  import opened CStrings
  import opened Json
  import opened Members
  import opened Patch

  // ---------------------------------------------------------------- section 2 of RFC 7396

  ghost function ValueOf(c: seq<Item>, k: string): (v: Json)
    requires HasKey(c, k)
  {
    c[KeyIndex(c, k)].value
  }

  ghost predicate Sets(c: seq<Item>, k: string) { HasKey(c, k) && !ValueOf(c, k).Null? }

  ghost function MembersOf(t: Option<Tree>): map<string, Tree> {
    if t.Some? && t.value.Obj? then t.value.members else map[]
  }

  ghost function SubOf(t: Option<Tree>, k: string): Option<Tree> {
    if k in MembersOf(t) then Some(MembersOf(t)[k]) else None
  }

  /** MergePatch: members that are null are removed, the others merged; anything but an object replaces the target. */
  ghost function Merged(t: Option<Tree>, patch: Json): Tree
    decreases patch
  {
    if !patch.Object? then Abs(patch)
    else
      var c := patch.child;
      Obj(map k | k in MembersOf(t).Keys + Keys(c) && (HasKey(c, k) ==> Sets(c, k)) ::
            if HasKey(c, k) then Merged(SubOf(t, k), c[KeyIndex(c, k)].value) else MembersOf(t)[k])
  }

  // ---------------------------------------------------------------- merge_patch

  /** merge_patch; there may be no target. */
  function MergeJson(target: Option<Json>, patch: Json, cs: bool): Json
    decreases patch, 1, 0
  {
    if !patch.Object? then patch
    else Object(MergeMembers(if target.Some? && target.value.Object? then target.value.child else [], patch, patch.child, cs))
  }

  /** The members of the patch one by one; rest holds those still to do. */
  function MergeMembers(c: seq<Item>, patch: Json, rest: seq<Item>, cs: bool): seq<Item>
    requires patch.Object? && forall x :: x in rest ==> x in patch.child
    decreases patch, 0, |rest|
  {
    if rest == [] then c
    else
      assert rest[0] in patch.child;
      var i := ItemIndex(c, rest[0].key, cs);
      var gone := if i.None? then c else Without(c, i.value);
      if rest[0].value.Null? then MergeMembers(gone, patch, rest[1..], cs)
      else
        var was := if i.None? then None else Some(c[i.value].value);
        MergeMembers(gone + [Item(rest[0].key, MergeJson(was, rest[0].value, cs))], patch, rest[1..], cs)
  }

  ghost function AbsOf(j: Option<Json>): Option<Tree> { if j.None? then None else Some(Abs(j.value)) }

  /** r is m with the members of the patch in rest merged in. */
  ghost predicate MergedInto(m: map<string, Tree>, rest: seq<Item>, r: map<string, Tree>) {
    && (forall k :: k in r <==> if HasKey(rest, k) then Sets(rest, k) else k in m)
    && (forall k :: k in m && !HasKey(rest, k) ==> k in r && r[k] == m[k])
    && (forall k :: Sets(rest, k) ==> k in r && r[k] == Merged(SubOf(Some(Obj(m)), k), ValueOf(rest, k)))
  }

  /** merge_patch computes MergePatch, on values. */
  lemma {:induction false} MergeRefines(target: Option<Json>, patch: Json, cs: bool)
    requires (target.Some? ==> Plain(target.value)) && Plain(patch)
    ensures Plain(MergeJson(target, patch, cs)) && Abs(MergeJson(target, patch, cs)) == Merged(AbsOf(target), patch)
    decreases patch, 1, 0
  {
    if patch.Object? {
      var c := if target.Some? && target.value.Object? then target.value.child else [];
      var rest := patch.child;
      PlainMembers(rest);
      MembersRefine(c, patch, rest, cs);
      var r := MapOf(MergeMembers(c, patch, rest, cs));
      var m := MapOf(c);
      assert MembersOf(AbsOf(target)) == m;
      MergedIs(AbsOf(target), patch, m, r);
    }
  }

  lemma PlainMembers(c: seq<Item>)
    requires Plain(Object(c))
    ensures PlainItems(c) && Unique(c)
  {
  }

  lemma MergedIs(t: Option<Tree>, patch: Json, m: map<string, Tree>, r: map<string, Tree>)
    requires patch.Object? && MembersOf(t) == m && MergedInto(m, patch.child, r)
    ensures Obj(r) == Merged(t, patch)
  {
    var s := Merged(t, patch).members;
    forall k
      ensures k in r <==> k in s
      ensures k in r ==> r[k] == s[k]
    {
      assert SubOf(Some(Obj(m)), k) == SubOf(t, k);
    }
    assert r == s;
  }

  lemma {:induction false} MembersRefine(c: seq<Item>, patch: Json, rest: seq<Item>, cs: bool)
    requires patch.Object? && forall x :: x in rest ==> x in patch.child
    requires Plain(Object(c)) && PlainItems(rest) && Unique(rest)
    ensures Plain(Object(MergeMembers(c, patch, rest, cs)))
    ensures MergedInto(MapOf(c), rest, MapOf(MergeMembers(c, patch, rest, cs)))
    decreases patch, 0, |rest|
  {
    hide Plain, Abs, HasKey, MergedInto, Merged, Without, PlainItems, ItemIndex, Unique, PlainKey, MergeJson, MergeMembers;
    MergeStep(c, patch, rest, cs);
    if rest == [] {
      NothingInto(c, rest);
    } else {
      var x, tail := rest[0], rest[1..];
      RestPlain(rest);
      assert x in patch.child;
      var i := ItemIndex(c, x.key, cs);
      var gone := Gone(c, x.key, cs);
      var m := MapOf(c);
      if x.value.Null? {
        MembersRefine(gone, patch, tail, cs);
        RemovedInto(m, rest, MapOf(MergeMembers(gone, patch, tail, cs)));
      } else {
        var was := if i.None? then None else Some(c[i.value].value);
        assert AbsOf(was) == SubOf(Some(Obj(m)), x.key);
        MergeRefines(was, x.value, cs);
        var v := MergeJson(was, x.value, cs);
        AppendedMember(gone, x.key, v);
        MembersRefine(gone + [Item(x.key, v)], patch, tail, cs);
        SetInto(m, rest, Abs(v), MapOf(MergeMembers(gone + [Item(x.key, v)], patch, tail, cs)));
      }
    }
  }

  lemma MergeStep(c: seq<Item>, patch: Json, rest: seq<Item>, cs: bool)
    requires patch.Object? && forall x :: x in rest ==> x in patch.child
    ensures rest == [] ==> MergeMembers(c, patch, rest, cs) == c
    ensures rest != [] ==>
              var i := ItemIndex(c, rest[0].key, cs);
              var gone := if i.None? then c else Without(c, i.value);
              var was := if i.None? then None else Some(c[i.value].value);
              MergeMembers(c, patch, rest, cs) ==
                MergeMembers(if rest[0].value.Null? then gone else gone + [Item(rest[0].key, MergeJson(was, rest[0].value, cs))],
                             patch, rest[1..], cs)
  {
    hide MergeJson, Without, ItemIndex;
  }

  lemma NothingInto(c: seq<Item>, rest: seq<Item>)
    requires rest == []
    ensures MergedInto(MapOf(c), rest, MapOf(c))
  {
  }

  lemma RestPlain(rest: seq<Item>)
    requires rest != [] && PlainItems(rest) && Unique(rest)
    ensures rest[0] in rest && PlainKey(rest[0].key) && Plain(rest[0].value) && PlainItems(rest[1..]) && Unique(rest[1..])
  {
    RestNames(rest, "");
  }

  /** The members without the one of that name, if there is one. */
  lemma Gone(c: seq<Item>, k: string, cs: bool) returns (gone: seq<Item>)
    requires Plain(Object(c)) && PlainKey(k)
    ensures var i := ItemIndex(c, k, cs);
            && gone == (if i.None? then c else Without(c, i.value))
            && (i.Some? <==> k in MapOf(c)) && (i.Some? ==> Abs(c[i.value].value) == MapOf(c)[k] && Plain(c[i.value].value))
    ensures Plain(Object(gone)) && !HasKey(gone, k) && Abs(Object(gone)) == Obj(MapOf(c) - {k})
  {
    ItemIndexIs(c, k, cs);
    var i := ItemIndex(c, k, cs);
    if i.Some? {
      WithoutMember(c, i.value);
      AbsAtKey(c, i.value);
      gone := Without(c, i.value);
    } else {
      gone := c;
      assert MapOf(c) - {k} == MapOf(c);
    }
  }

  lemma RestNames(rest: seq<Item>, k: string)
    requires rest != [] && Unique(rest)
    ensures HasKey(rest[1..], k) <==> HasKey(rest, k) && k != rest[0].key
    ensures HasKey(rest[1..], k) ==> ValueOf(rest[1..], k) == ValueOf(rest, k)
    ensures HasKey(rest, rest[0].key) && ValueOf(rest, rest[0].key) == rest[0].value && Unique(rest[1..])
  {
    var tail := rest[1..];
    assert forall i :: 0 <= i < |tail| ==> tail[i] == rest[i + 1];
    if HasKey(tail, k) {
      var i := KeyIndex(tail, k);
      assert rest[i + 1].key == k;
      assert KeyIndex(rest, k) == i + 1;
    }
    if HasKey(rest, k) && k != rest[0].key { TailHasKey(rest, k); }
    assert KeyIndex(rest, rest[0].key) == 0;
  }

  lemma RemovedInto(m: map<string, Tree>, rest: seq<Item>, r: map<string, Tree>)
    requires rest != [] && Unique(rest) && rest[0].value.Null? && MergedInto(m - {rest[0].key}, rest[1..], r)
    ensures MergedInto(m, rest, r)
  {
    hide HasKey, ValueOf, Merged, Unique;
    forall k
      ensures HasKey(rest[1..], k) <==> HasKey(rest, k) && k != rest[0].key
      ensures HasKey(rest[1..], k) ==> ValueOf(rest[1..], k) == ValueOf(rest, k)
      ensures HasKey(rest, rest[0].key) && ValueOf(rest, rest[0].key) == rest[0].value
    {
      RestNames(rest, k);
    }
    forall k | Sets(rest, k)
      ensures k in r && r[k] == Merged(SubOf(Some(Obj(m)), k), ValueOf(rest, k))
    {
      assert Sets(rest[1..], k);
      assert SubOf(Some(Obj(m)), k) == SubOf(Some(Obj(m - {rest[0].key})), k);
    }
  }

  lemma SetInto(m: map<string, Tree>, rest: seq<Item>, v: Tree, r: map<string, Tree>)
    requires rest != [] && Unique(rest) && !rest[0].value.Null? && v == Merged(SubOf(Some(Obj(m)), rest[0].key), rest[0].value)
    requires MergedInto((m - {rest[0].key})[rest[0].key := v], rest[1..], r)
    ensures MergedInto(m, rest, r)
  {
    hide HasKey, ValueOf, Merged, Unique;
    var k0 := rest[0].key;
    var m' := (m - {k0})[k0 := v];
    forall k
      ensures HasKey(rest[1..], k) <==> HasKey(rest, k) && k != k0
      ensures HasKey(rest[1..], k) ==> ValueOf(rest[1..], k) == ValueOf(rest, k)
      ensures HasKey(rest, k0) && ValueOf(rest, k0) == rest[0].value
    {
      RestNames(rest, k);
    }
    forall k | Sets(rest, k)
      ensures k in r && r[k] == Merged(SubOf(Some(Obj(m)), k), ValueOf(rest, k))
    {
      if k != k0 {
        assert Sets(rest[1..], k);
        assert SubOf(Some(Obj(m)), k) == SubOf(Some(Obj(m')), k);
      }
    }
  }

  // ---------------------------------------------------------------- generate_merge_patch

  /** generate_merge_patch of two trees; nothing if they are objects without a difference.  Below the first
      level it is always the form that ignores case. */
  function Generate(from: Json, to: Json, cs: bool): Option<Json>
    decreases from, 1, 0
  {
    if !to.Object? || !from.Object? then Some(to)
    else
      SortHolds(from.child, cs);
      var c := GenerateMembers(from, SortItems(from.child, cs), SortItems(to.child, cs), cs);
      if c == [] then None else Some(Object(c))
  }

  /** The members on which the two cursors, over sorted members, find a difference. */
  function GenerateMembers(from: Json, f: seq<Item>, t: seq<Item>, cs: bool): seq<Item>
    requires from.Object? && forall x :: x in f ==> x in from.child
    decreases from, 0, |f| + |t|
  {
    if f == [] && t == [] then []
    else if t == [] || (f != [] && Compare(f[0].key, t[0].key, true) < 0) then
      [Item(f[0].key, Null)] + GenerateMembers(from, f[1..], t, cs)
    else if f == [] || Compare(f[0].key, t[0].key, true) > 0 then
      [t[0]] + GenerateMembers(from, f, t[1..], cs)
    else
      assert f[0] in from.child;
      var below := Generate(f[0].value, t[0].value, false);
      var rest := GenerateMembers(from, f[1..], t[1..], cs);
      if CompareJson(f[0].value, t[0].value, cs) || below.None? then rest else [Item(t[0].key, below.value)] + rest
  }

  /** No member is null, however deep; lists do not count. */
  ghost predicate NoNull(j: Json) {
    j.Object? ==> forall i :: 0 <= i < |j.child| ==> !j.child[i].value.Null? && NoNull(j.child[i].value)
  }

  /** No null stands where a patch would have to put it. */
  ghost predicate Reachable(from: Json, to: Json)
    decreases (to)
  {
    if !to.Object? then true
    else if !from.Object? then NoNull(to)
    else
      forall i :: 0 <= i < |to.child| ==>
        var x := to.child[i];
        if !HasKey(from.child, x.key) then !x.value.Null? && NoNull(x.value)
        else
          var y := ValueOf(from.child, x.key);
          Abs(x.value) != Abs(y) ==> !x.value.Null? && Reachable(y, x.value)
  }

  /** Merging into nothing strips the null members. */
  lemma {:induction false} MergeIntoNothing(t: Option<Tree>, j: Json)
    requires Plain(j) && MembersOf(t) == map[]
    ensures Merged(t, j) == Abs(j) <==> NoNull(j)
    decreases j
  {
    hide Plain, Abs, NoNull, Unique;
    if j.Object? {
      var c := j.child;
      var m := MapOf(c);
      MergedNothing(t, j);
      var r := Merged(t, j).members;
      forall i | 0 <= i < |c|
        ensures c[i].key in m && m[c[i].key] == Abs(c[i].value)
        ensures c[i].key in r <==> !c[i].value.Null?
        ensures !c[i].value.Null? ==> (r[c[i].key] == Abs(c[i].value) <==> NoNull(c[i].value))
      {
        MemberOfPlain(c, i);
        MergeIntoNothing(SubOf(t, c[i].key), c[i].value);
      }
      SameMaps(c, r, m);
      NoNullMembers(j);
    } else {
      NoNullMembers(j);
    }
  }

  lemma NoNullMembers(j: Json)
    ensures NoNull(j) <==> (j.Object? ==> forall i :: 0 <= i < |j.child| ==> !j.child[i].value.Null? && NoNull(j.child[i].value))
  {
  }

  lemma MemberOfPlain(c: seq<Item>, i: nat)
    requires Plain(Object(c)) && i < |c|
    ensures c[i].key in MapOf(c) && MapOf(c)[c[i].key] == Abs(c[i].value) && Plain(c[i].value)
    ensures HasKey(c, c[i].key) && ValueOf(c, c[i].key) == c[i].value
  {
    AbsAtKey(c, i);
  }

  lemma MergedNothing(t: Option<Tree>, j: Json)
    requires j.Object? && Plain(j) && MembersOf(t) == map[]
    ensures Merged(t, j).Obj?
    ensures var r := Merged(t, j).members;
            && (forall k :: k in r <==> Sets(j.child, k))
            && (forall k :: k in r ==> r[k] == Merged(SubOf(t, k), ValueOf(j.child, k)))
  {
  }

  lemma SameMaps(c: seq<Item>, r: map<string, Tree>, m: map<string, Tree>)
    requires forall i :: 0 <= i < |c| ==> c[i].key in m && m[c[i].key] == Abs(c[i].value)
    requires (forall k :: k in m ==> HasKey(c, k)) && forall k :: k in r ==> HasKey(c, k)
    ensures Obj(r) == Obj(m) <==> forall i :: 0 <= i < |c| ==> c[i].key in r && r[c[i].key] == Abs(c[i].value)
  {
    hide Abs;
    if forall i :: 0 <= i < |c| ==> c[i].key in r && r[c[i].key] == Abs(c[i].value) {
      forall k
        ensures k in r <==> k in m
        ensures k in m ==> r[k] == m[k]
      {
        if k in m { assert c[KeyIndex(c, k)].key == k; }
      }
      assert r == m;
    }
  }

  // ---------------------------------------------------------------- what the generated patch holds

  ghost predicate Differ(f: seq<Item>, t: seq<Item>, k: string) {
    if HasKey(f, k) && HasKey(t, k) then Abs(ValueOf(f, k)) != Abs(ValueOf(t, k)) else HasKey(f, k) || HasKey(t, k)
  }

  /** What the patch says about a name. */
  ghost predicate Says(f: seq<Item>, t: seq<Item>, c: seq<Item>, k: string) {
    && (HasKey(c, k) <==> Differ(f, t, k))
    && (HasKey(c, k) ==>
          if !HasKey(t, k) then ValueOf(c, k) == Null
          else if !HasKey(f, k) then ValueOf(c, k) == ValueOf(t, k)
          else Generate(ValueOf(f, k), ValueOf(t, k), false) == Some(ValueOf(c, k)))
  }

  /** The patch of two lists of members. */
  ghost predicate Describes(f: seq<Item>, t: seq<Item>, c: seq<Item>) {
    Ascending(c, true) && PlainItems(c) && forall k :: Says(f, t, c, k)
  }

  lemma {:induction false} GenerateDescribes(from: Json, f: seq<Item>, t: seq<Item>, cs: bool)
    requires from.Object? && forall x :: x in f ==> x in from.child
    requires Ascending(f, true) && Ascending(t, true) && PlainItems(f) && PlainItems(t)
    ensures Describes(f, t, GenerateMembers(from, f, t, cs))
    decreases from, 0, |f| + |t|
  {
    hide Abs, Plain, PlainItems, Ascending, Compare, Describes, Generate, CompareJson, GenerateMembers, PlainKey;
    GenerateStep(from, f, t, cs);
    if f == [] && t == [] {
      DescribesNone();
    } else {
      if f != [] { FirstPlain(f, cs); assert f[0] in from.child; }
      if t != [] { FirstPlain(t, cs); }
      if t == [] || (f != [] && Compare(f[0].key, t[0].key, true) < 0) {
        GenerateDescribes(from, f[1..], t, cs);
        DescribesRemoved(f, t, GenerateMembers(from, f[1..], t, cs));
      } else if f == [] || Compare(f[0].key, t[0].key, true) > 0 {
        GenerateDescribes(from, f, t[1..], cs);
        DescribesAdded(f, t, GenerateMembers(from, f, t[1..], cs));
      } else {
        GenerateDescribes(from, f[1..], t[1..], cs);
        CompareJsonExact(f[0].value, t[0].value, cs);
        GenerateFinds(f[0].value, t[0].value, false);
        DescribesBoth(f, t, GenerateMembers(from, f[1..], t[1..], cs));
      }
    }
  }

  lemma FirstPlain(c: seq<Item>, cs: bool)
    requires c != [] && PlainItems(c) && Ascending(c, true)
    ensures c[0] in c && PlainKey(c[0].key) && Plain(c[0].value) && PlainItems(c[1..]) && Ascending(c[1..], true)
  {
    TailKeys(c, "", true);
  }

  lemma GenerateStep(from: Json, f: seq<Item>, t: seq<Item>, cs: bool)
    requires from.Object? && forall x :: x in f ==> x in from.child
    ensures var c := GenerateMembers(from, f, t, cs);
            if f == [] && t == [] then c == []
            else if t == [] || (f != [] && Compare(f[0].key, t[0].key, true) < 0) then
              c == [Item(f[0].key, Null)] + GenerateMembers(from, f[1..], t, cs)
            else if f == [] || Compare(f[0].key, t[0].key, true) > 0 then
              c == [t[0]] + GenerateMembers(from, f, t[1..], cs)
            else
              var below, rest := Generate(f[0].value, t[0].value, false), GenerateMembers(from, f[1..], t[1..], cs);
              c == if CompareJson(f[0].value, t[0].value, cs) || below.None? then rest else [Item(t[0].key, below.value)] + rest
  {
    hide Generate, CompareJson, Compare;
  }

  lemma DescribesNone()
    ensures Describes([], [], [])
  {
  }

  lemma AscendingNames(c: seq<Item>, k: string)
    requires c != [] && Ascending(c, true)
    ensures HasKey(c[1..], k) <==> HasKey(c, k) && k != c[0].key
    ensures HasKey(c[1..], k) ==> ValueOf(c[1..], k) == ValueOf(c, k)
    ensures HasKey(c, c[0].key) && ValueOf(c, c[0].key) == c[0].value
  {
    AscendingUnique(c, true);
    RestNames(c, k);
  }

  /** A member put in front of a patch whose names come after it. */
  lemma DescribesCons(x: Item, c: seq<Item>)
    requires Ascending(c, true) && PlainItems(c) && PlainKey(x.key) && Plain(x.value)
    requires forall k :: HasKey(c, k) ==> Compare(x.key, k, true) < 0
    ensures Ascending([x] + c, true) && PlainItems([x] + c)
    ensures forall k :: HasKey([x] + c, k) <==> k == x.key || HasKey(c, k)
    ensures ValueOf([x] + c, x.key) == x.value
    ensures forall k :: HasKey(c, k) ==> ValueOf([x] + c, k) == ValueOf(c, k)
  {
    var d := [x] + c;
    forall y | y in c
      ensures Compare(x.key, y.key, true) < 0
    {
      var i :| 0 <= i < |c| && c[i] == y;
      assert HasKey(c, c[i].key);
    }
    AscendingCons(x, c, true);
    assert d[1..] == c && d[0] == x;
    forall k
      ensures HasKey(d, k) <==> k == x.key || HasKey(c, k)
      ensures HasKey(c, k) ==> ValueOf(d, k) == ValueOf(c, k)
      ensures ValueOf(d, x.key) == x.value
    {
      AscendingNames(d, k);
    }
  }

  /** Every name of an ascending list comes after one that comes before the first. */
  lemma After(f: seq<Item>, k: string)
    requires Ascending(f, true) && (f != [] ==> Compare(k, f[0].key, true) < 0)
    ensures forall l :: HasKey(f, l) ==> Compare(k, l, true) < 0
  {
    forall l | HasKey(f, l)
      ensures Compare(k, l, true) < 0
    {
      var i := KeyIndex(f, l);
      if i > 0 { CompareTransitive(k, f[0].key, f[i].key, true); }
    }
  }

  lemma AfterFirst(f: seq<Item>)
    requires f != [] && Ascending(f, true)
    ensures Ascending(f[1..], true) && forall l :: HasKey(f[1..], l) ==> Compare(f[0].key, l, true) < 0
  {
    TailKeys(f, "", true);
    if f[1..] != [] { assert f[1..][0] == f[1]; }
    After(f[1..], f[0].key);
  }

  lemma NotBeforeItself(k: string)
    ensures Compare(k, k, true) == 0
  {
    CompareSwapped(k, k, true);
  }

  lemma DescribesRemoved(f: seq<Item>, t: seq<Item>, c: seq<Item>)
    requires f != [] && Ascending(f, true) && Ascending(t, true) && (t == [] || Compare(f[0].key, t[0].key, true) < 0)
    requires PlainKey(f[0].key) && Describes(f[1..], t, c)
    ensures Describes(f, t, [Item(f[0].key, Null)] + c)
  {
    hide Abs, Compare, PlainKey, PlainItems, Ascending, HasKey, ValueOf, Generate, Plain;
    var x := Item(f[0].key, Null);
    var d := [x] + c;
    AfterFirst(f);
    After(t, f[0].key);
    NotBeforeItself(f[0].key);
    assert forall k :: Says(f[1..], t, c, k);
    forall k | HasKey(c, k)
      ensures Compare(x.key, k, true) < 0
    {
      assert Says(f[1..], t, c, k);
    }
    DescribesCons(x, c);
    forall k
      ensures Says(f, t, d, k)
    {
      AscendingNames(f, k);
      assert Says(f[1..], t, c, k);
    }
  }

  lemma DescribesAdded(f: seq<Item>, t: seq<Item>, c: seq<Item>)
    requires t != [] && Ascending(f, true) && Ascending(t, true) && (f == [] || Compare(f[0].key, t[0].key, true) > 0)
    requires PlainKey(t[0].key) && Plain(t[0].value) && Describes(f, t[1..], c)
    ensures Describes(f, t, [t[0]] + c)
  {
    hide Abs, Compare, PlainKey, PlainItems, Ascending, HasKey, ValueOf, Generate, Plain;
    var x := t[0];
    var d := [x] + c;
    AfterFirst(t);
    if f != [] { CompareSwapped(f[0].key, x.key, true); }
    After(f, x.key);
    NotBeforeItself(x.key);
    assert forall k :: Says(f, t[1..], c, k);
    forall k | HasKey(c, k)
      ensures Compare(x.key, k, true) < 0
    {
      assert Says(f, t[1..], c, k);
    }
    DescribesCons(x, c);
    forall k
      ensures Says(f, t, d, k)
    {
      AscendingNames(t, k);
      assert Says(f, t[1..], c, k);
    }
  }

  lemma DescribesBoth(f: seq<Item>, t: seq<Item>, c: seq<Item>)
    requires f != [] && t != [] && Ascending(f, true) && Ascending(t, true) && Compare(f[0].key, t[0].key, true) == 0
    requires PlainKey(f[0].key) && PlainKey(t[0].key) && Describes(f[1..], t[1..], c)
    requires var g := Generate(f[0].value, t[0].value, false);
             Abs(f[0].value) != Abs(t[0].value) ==> g.Some? && Plain(g.value)
    ensures Describes(f, t, if Abs(f[0].value) == Abs(t[0].value) then c
                            else [Item(t[0].key, Generate(f[0].value, t[0].value, false).value)] + c)
  {
    hide Abs, Compare, PlainKey, PlainItems, Ascending, HasKey, ValueOf, Generate, Plain;
    PlainNames(f[0].key, t[0].key, true);
    AfterFirst(f);
    AfterFirst(t);
    assert forall k :: Says(f[1..], t[1..], c, k);
    var same := Abs(f[0].value) == Abs(t[0].value);
    forall k | HasKey(c, k)
      ensures Compare(t[0].key, k, true) < 0
    {
      assert Says(f[1..], t[1..], c, k);
    }
    if !same { DescribesCons(Item(t[0].key, Generate(f[0].value, t[0].value, false).value), c); }
    var d := if same then c else [Item(t[0].key, Generate(f[0].value, t[0].value, false).value)] + c;
    forall k
      ensures Says(f, t, d, k)
    {
      AscendingNames(f, k);
      AscendingNames(t, k);
      assert Says(f[1..], t[1..], c, k);
    }
  }

  lemma SortedForMerge(c: seq<Item>, cs: bool)
    requires Plain(Object(c))
    ensures var s := SortItems(c, cs);
            && Ascending(s, true) && PlainItems(s) && Unique(s) && Abs(Object(s)) == Abs(Object(c)) && forall x :: x in s <==> x in c
  {
    SortedPlain(c, cs);
    var s := SortItems(c, cs);
    if !cs {
      forall i, j | 0 <= i < j < |s|
        ensures Compare(s[i].key, s[j].key, true) < 0
      {
        assert s[i] in s && s[j] in s;
        CaseDoesNotMatter(s[i].key, s[j].key);
      }
    }
  }

  /** No patch means no difference, and a patch is a plain tree. */
  lemma {:induction false} GenerateFinds(from: Json, to: Json, cs: bool)
    requires Plain(from) && Plain(to)
    ensures Generate(from, to, cs).None? ==> Abs(from) == Abs(to)
    ensures Generate(from, to, cs).Some? ==> Plain(Generate(from, to, cs).value)
    decreases from, 1, 0
  {
    if to.Object? && from.Object? {
      SortedForMerge(from.child, cs);
      SortedForMerge(to.child, cs);
      var f, t := SortItems(from.child, cs), SortItems(to.child, cs);
      var c := GenerateMembers(from, f, t, cs);
      GenerateDescribes(from, f, t, cs);
      PatchIsPlain(c);
      if c == [] { NoDifference(f, t); }
    }
  }

  lemma PatchIsPlain(c: seq<Item>)
    requires Ascending(c, true) && PlainItems(c)
    ensures Plain(Object(c))
  {
    AscendingUnique(c, true);
    assert forall i :: 0 <= i < |c| ==> c[i] in c;
  }

  lemma NoDifference(f: seq<Item>, t: seq<Item>)
    requires Unique(f) && Unique(t) && Describes(f, t, [])
    ensures Abs(Object(f)) == Abs(Object(t))
  {
    var m := MapOf(t);
    forall i | 0 <= i < |f|
      ensures f[i].key in m && Abs(f[i].value) == m[f[i].key]
    {
      assert Says(f, t, [], f[i].key);
      AbsAtKey(f, i);
      AbsAtKey(t, KeyIndex(t, f[i].key));
    }
    forall k | k in m
      ensures HasKey(f, k)
    {
      assert Says(f, t, [], k);
    }
    AbsSameMembers(f, m);
  }

  // ---------------------------------------------------------------- generating, then merging

  /** One member of the second tree can be reached from the members of the first. */
  ghost predicate ReachesMember(f: seq<Item>, x: Item) {
    if !HasKey(f, x.key) then !x.value.Null? && NoNull(x.value)
    else Abs(x.value) != Abs(ValueOf(f, x.key)) ==> !x.value.Null? && Reachable(ValueOf(f, x.key), x.value)
  }

  lemma ReachableMembers(from: Json, to: Json)
    requires from.Object? && to.Object?
    ensures Reachable(from, to) <==> forall i :: 0 <= i < |to.child| ==> ReachesMember(from.child, to.child[i])
  {
    hide Abs, NoNull, HasKey, ValueOf;
  }

  /** Merging the generated patch into the first tree gives the second one just where no null stands
      where the patch would have to put it; without a patch they are equal. */
  lemma {:induction false} GenerateThenMerge(from: Json, to: Json, cs: bool)
    requires Plain(from) && Plain(to)
    ensures var p := Generate(from, to, cs);
            if p.None? then Abs(from) == Abs(to)
            else Merged(Some(Abs(from)), p.value) == Abs(to) <==> Reachable(from, to)
    decreases (to)
  {
    hide Plain, Abs, Merged, Generate, Reachable, NoNull;
    GenerateFinds(from, to, cs);
    GenerateCases(from, to, cs);
    if !to.Object? {
      ReplacedWhole(from, to);
    } else if !from.Object? {
      NoMembers(from);
      MergeIntoNothing(Some(Abs(from)), to);
      ReachableFromNone(from, to);
    } else if Generate(from, to, cs).Some? {
      var c := Generate(from, to, cs).value.child;
      forall i | 0 <= i < |to.child|
        ensures MergedAt(from.child, c, to.child[i]) <==> ReachesMember(from.child, to.child[i])
      {
        MemberMerges(from, to, c, i);
      }
      MergedMembers(from.child, c, to.child);
      ReachableMembers(from, to);
    }
  }

  lemma ReplacedWhole(from: Json, to: Json)
    requires !to.Object?
    ensures Merged(Some(Abs(from)), to) == Abs(to) && Reachable(from, to)
  {
  }

  lemma NoMembers(from: Json)
    requires !from.Object?
    ensures MembersOf(Some(Abs(from))) == map[]
  {
  }

  lemma ReachableFromNone(from: Json, to: Json)
    requires !from.Object? && to.Object?
    ensures Reachable(from, to) <==> NoNull(to)
  {
  }

  lemma GenerateCases(from: Json, to: Json, cs: bool)
    requires Plain(from) && Plain(to)
    ensures !from.Object? || !to.Object? ==> Generate(from, to, cs) == Some(to)
    ensures from.Object? && to.Object? && Generate(from, to, cs).Some? ==>
              var p := Generate(from, to, cs).value;
              p.Object? && Describes(from.child, to.child, p.child)
  {
    hide Plain, Abs, Describes;
    if from.Object? && to.Object? {
      SortedForMerge(from.child, cs);
      SortedForMerge(to.child, cs);
      var f, t := SortItems(from.child, cs), SortItems(to.child, cs);
      GenerateDescribes(from, f, t, cs);
      DescribesUnsorted(from, to, f, t, GenerateMembers(from, f, t, cs));
    }
  }

  lemma SameByName(c: seq<Item>, s: seq<Item>, k: string)
    requires Unique(c) && Unique(s) && forall x :: x in s <==> x in c
    ensures HasKey(s, k) <==> HasKey(c, k)
    ensures HasKey(s, k) ==> ValueOf(s, k) == ValueOf(c, k)
  {
    if HasKey(s, k) {
      var x := s[KeyIndex(s, k)];
      assert x in s && x in c;
      var i :| 0 <= i < |c| && c[i] == x;
      assert c[i].key == k && KeyIndex(c, k) == i;
    }
    if HasKey(c, k) {
      var x := c[KeyIndex(c, k)];
      assert x in c && x in s;
      var i :| 0 <= i < |s| && s[i] == x;
      assert s[i].key == k;
    }
  }

  lemma DescribesUnsorted(from: Json, to: Json, f: seq<Item>, t: seq<Item>, c: seq<Item>)
    requires from.Object? && to.Object? && Plain(from) && Plain(to) && Unique(f) && Unique(t)
    requires (forall x :: x in f <==> x in from.child) && (forall x :: x in t <==> x in to.child) && Describes(f, t, c)
    ensures Describes(from.child, to.child, c)
  {
    hide Abs, Generate;
    PlainMembers(from.child);
    PlainMembers(to.child);
    hide Plain, PlainItems, Ascending, HasKey, ValueOf, Unique;
    forall k
      ensures Says(from.child, to.child, c, k)
    {
      assert Says(f, t, c, k);
      SameByName(from.child, f, k);
      SameByName(to.child, t, k);
    }
  }

  /** The merge gives a name the value it has in the second tree. */
  ghost predicate MergedAt(f: seq<Item>, c: seq<Item>, x: Item) {
    var m := MapOf(f);
    if HasKey(c, x.key) then Sets(c, x.key) && Merged(SubOf(Some(Obj(m)), x.key), ValueOf(c, x.key)) == Abs(x.value)
    else x.key in m && m[x.key] == Abs(x.value)
  }

  /** Names that the second tree does not have are removed, so only its own decide. */
  lemma MergedMembers(f: seq<Item>, c: seq<Item>, t: seq<Item>)
    requires Plain(Object(f)) && Plain(Object(t)) && Describes(f, t, c)
    ensures Merged(Some(Abs(Object(f))), Object(c)) == Abs(Object(t)) <==> forall i :: 0 <= i < |t| ==> MergedAt(f, c, t[i])
  {
    hide Abs, Plain, PlainItems, Ascending, Generate, Unique;
    var m := MapOf(f);
    var r := Merged(Some(Obj(m)), Object(c)).members;
    PlainMembers(t);
    forall k | k in r
      ensures HasKey(t, k)
    {
      assert Says(f, t, c, k);
    }
    forall i | 0 <= i < |t|
      ensures t[i].key in MapOf(t) && MapOf(t)[t[i].key] == Abs(t[i].value)
    {
      AbsAtKey(t, i);
    }
    SameMaps(t, r, MapOf(t));
  }

  lemma {:induction false} MemberMerges(from: Json, to: Json, c: seq<Item>, i: nat)
    requires Plain(from) && Plain(to) && from.Object? && to.Object? && i < |to.child| && Describes(from.child, to.child, c)
    ensures MergedAt(from.child, c, to.child[i]) <==> ReachesMember(from.child, to.child[i])
    decreases (to), 0
  {
    hide Plain, Abs, Merged, Generate, Reachable, NoNull, PlainItems, Ascending, HasKey, ValueOf;
    var f, x := from.child, to.child[i];
    MemberOfPlain(to.child, i);
    assert Says(f, to.child, c, x.key);
    if HasKey(f, x.key) {
      var y := ValueOf(f, x.key);
      ValueIsPlain(f, x.key);
      if Abs(y) != Abs(x.value) {
        GenerateThenMerge(y, x.value, false);
        NullPatch(y, x.value);
      }
    } else {
      MergeIntoNothing(None, x.value);
    }
  }

  lemma ValueIsPlain(f: seq<Item>, k: string)
    requires Plain(Object(f)) && HasKey(f, k)
    ensures Plain(ValueOf(f, k)) && k in MapOf(f) && MapOf(f)[k] == Abs(ValueOf(f, k))
  {
    AbsAtKey(f, KeyIndex(f, k));
  }

  /** A patch is null only for null. */
  lemma NullPatch(from: Json, to: Json)
    ensures Generate(from, to, false) == Some(Null) <==> to.Null?
  {
  }

  /** A null member is lost. */
  lemma NullIsLost()
    ensures var from, to := Object([]), Object([Item("a", Null)]);
            !Reachable(from, to) && Generate(from, to, false) == Some(to) && Merged(Some(Abs(from)), to) != Abs(to)
  {
    var from, to := Object([]), Object([Item("a", Null)]);
    assert !HasKey(from.child, to.child[0].key);
    assert !Reachable(from, to);
    assert SortItems(to.child, false) == to.child by { assert to.child[1..] == []; }
    assert Generate(from, to, false) == Some(Object([to.child[0]] + [])) by { assert to.child[1..] == []; }
    assert to.child == [to.child[0]] + [];
    assert PlainKey("a");
    GenerateThenMerge(from, to, false);
  }

  // ---------------------------------------------------------------- the code

  lemma MergeJsonIs(target: Option<Json>, patch: Json, cs: bool)
    ensures MergeJson(target, patch, cs) ==
              if !patch.Object? then patch
              else Object(MergeMembers(if target.Some? && target.value.Object? then target.value.child else [], patch, patch.child, cs))
  {
    hide MergeMembers;
  }

  /** merge_patch */
  method MergePatchLoop(target: Option<Json>, patch: Json, cs: bool) returns (result: Json)
    ensures result == MergeJson(target, patch, cs)
    decreases patch, 1
  {
    hide MergeJson, MergeMembers, Without, ItemIndex;
    MergeJsonIs(target, patch, cs);
    if !patch.Object? {
      return patch;
    }
    var c := if target.Some? && target.value.Object? then target.value.child else [];
    var i := 0;
    ghost var all := MergeMembers(c, patch, patch.child, cs);
    assert patch.child[0..] == patch.child;
    while i < |patch.child|
      invariant 0 <= i <= |patch.child| && forall x :: x in patch.child[i..] ==> x in patch.child
      invariant MergeMembers(c, patch, patch.child[i..], cs) == all
    {
      ghost var rest := patch.child[i..];
      assert rest[0] == patch.child[i] && rest[1..] == patch.child[i + 1..];
      MergeStep(c, patch, rest, cs);
      c := MergeMember(c, patch, i, cs);
      i := i + 1;
    }
    assert patch.child[i..] == [];
    MergeStep(c, patch, patch.child[i..], cs);
    return Object(c);
  }

  /** One member of the patch. */
  method MergeMember(c: seq<Item>, patch: Json, i: nat, cs: bool) returns (c': seq<Item>)
    requires patch.Object? && i < |patch.child|
    ensures var x, index := patch.child[i], ItemIndex(c, patch.child[i].key, cs);
            var gone := if index.None? then c else Without(c, index.value);
            var was := if index.None? then None else Some(c[index.value].value);
            c' == if x.value.Null? then gone else gone + [Item(x.key, MergeJson(was, x.value, cs))]
    decreases patch, 0
  {
    hide MergeJson, ItemIndex;
    var x := patch.child[i];
    var index := ItemIndex(c, x.key, cs);
    var replaceMe := if index.None? then None else Some(c[index.value].value);
    c' := if index.None? then c else Without(c, index.value);
    if !x.value.Null? {
      var replacement := MergePatchLoop(replaceMe, x.value, cs);
      c' := c' + [Item(x.key, replacement)];
    }
  }

  lemma GenerateIs(from: Json, to: Json, cs: bool)
    ensures from.Object? ==> forall x :: x in SortItems(from.child, cs) ==> x in from.child
    ensures Generate(from, to, cs) ==
              if !to.Object? || !from.Object? then Some(to)
              else
                var c := GenerateMembers(from, SortItems(from.child, cs), SortItems(to.child, cs), cs);
                if c == [] then None else Some(Object(c))
  {
    hide GenerateMembers, SortItems;
    if from.Object? { SortHolds(from.child, cs); }
  }

  /** generate_merge_patch */
  method GenerateMergePatch(from: Json, to: Json, cs: bool) returns (patch: Option<Json>)
    ensures patch == Generate(from, to, cs)
    decreases from, 1
  {
    hide Compare, CompareJson, GenerateMembers, SortItems, Generate;
    GenerateIs(from, to, cs);
    if !to.Object? || !from.Object? {
      return Some(to);
    }
    var c := GenerateLoop(from, SortItems(from.child, cs), SortItems(to.child, cs), cs);
    return if c == [] then None else Some(Object(c));
  }

  /** The two cursors. */
  method GenerateLoop(from: Json, f: seq<Item>, t: seq<Item>, cs: bool) returns (c: seq<Item>)
    requires from.Object? && forall x :: x in f ==> x in from.child
    ensures c == GenerateMembers(from, f, t, cs)
    decreases from, 0
  {
    hide Compare, CompareJson, GenerateMembers, Generate;
    var i, j := 0, 0;
    c := [];
    assert f[0..] == f && t[0..] == t && c + GenerateMembers(from, f, t, cs) == GenerateMembers(from, f, t, cs);
    while i < |f| || j < |t|
      invariant 0 <= i <= |f| && 0 <= j <= |t| && forall x :: x in f[i..] ==> x in from.child
      invariant c + GenerateMembers(from, f[i..], t[j..], cs) == GenerateMembers(from, f, t, cs)
      decreases |f| - i + |t| - j
    {
      GenerateStep(from, f[i..], t[j..], cs);
      assert i < |f| ==> f[i..][0] == f[i] && f[i..][1..] == f[i + 1..];
      assert j < |t| ==> t[j..][0] == t[j] && t[j..][1..] == t[j + 1..];
      var diff := if i == |f| then 1 else if j == |t| then -1 else Compare(f[i].key, t[j].key, true);
      var more: seq<Item> := [];
      if diff < 0 {
        more := [Item(f[i].key, Null)];
        i := i + 1;
      } else if diff > 0 {
        more := [t[j]];
        j := j + 1;
      } else {
        assert f[i] in f;
        if !CompareJson(f[i].value, t[j].value, cs) {
          var below := GenerateMergePatch(f[i].value, t[j].value, false);
          if below.Some? {
            more := [Item(t[j].key, below.value)];
          }
        }
        i, j := i + 1, j + 1;
      }
      Regroup(c, more, GenerateMembers(from, f[i..], t[j..], cs));
      c := c + more;
    }
    GenerateStep(from, f[i..], t[j..], cs);
    assert c + [] == c;
  }

  lemma Regroup(a: seq<Item>, b: seq<Item>, c: seq<Item>)
    ensures a + (b + c) == (a + b) + c
    ensures [] + c == c
  {
  }
}
