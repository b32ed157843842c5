/** Where case counts in 3rd/cjson/cJSON_Utils.c if the caller asks for it: looking up a member, adding one, the order of members,
    comparing, taking the difference and merging. */
module NameCase {
  import opened Wrappers
  import opened CStrings
  import opened Json
  import opened Members
  import opened TreePatch
  import opened Patch
  import MergePatch

  /** The first member whose name agrees with this one, capitals being folded if case does not count. */
  ghost predicate FirstNamed(c: seq<Item>, name: string, cs: bool, i: nat) {
    i < |c| && AllAgree(name, c[i].key, cs) && forall k :: 0 <= k < i ==> !AllAgree(name, c[k].key, cs)
  }

  ghost predicate NulFreeNames(c: seq<Item>) { forall i :: 0 <= i < |c| ==> NulFree(c[i].key) }

  /** cJSON_GetObjectItem and cJSON_GetObjectItemCaseSensitive find that member. */
  lemma FoundIsFirst(c: seq<Item>, name: string, cs: bool, i: nat)
    requires NulFree(name) && NulFreeNames(c)
    ensures ItemIndex(c, name, cs) == Some(i) <==> FirstNamed(c, name, cs, i)
  {
    hide Compare, AllAgree;
    forall k | 0 <= k < |c|
      ensures Compare(name, c[k].key, cs) == 0 <==> AllAgree(name, c[k].key, cs)
    {
      CompareExact(name, c[k].key, cs);
    }
  }

  /** Adding a member takes the place of that one, if there is one, and puts the new one behind all others. */
  lemma AddsMember(c: seq<Item>, name: string, v: Json, cs: bool)
    requires NulFree(name) && NulFreeNames(c)
    ensures var r := AddTo(Object(c), name, v, cs);
            && r.status == 0
            && (forall i: nat :: FirstNamed(c, name, cs, i) ==> r.root == Object(Without(c, i) + [Item(name, v)]))
            && ((forall i: nat :: !FirstNamed(c, name, cs, i)) ==> r.root == Object(c + [Item(name, v)]))
  {
    hide FirstNamed, NulFree;
    var found := ItemIndex(c, name, cs);
    forall i: nat
      ensures FirstNamed(c, name, cs, i) <==> found == Some(i)
    {
      FoundIsFirst(c, name, cs, i);
    }
    if found.Some? { assert FirstNamed(c, name, cs, found.value); }
  }

  lemma OneLetter(a: char, b: char, cs: bool)
    ensures Compare([a], [b], cs) == Folded(a, cs) - Folded(b, cs)
  {
    assert [a][1..] == [] && [b][1..] == [];
  }

  /** An upper-case and a lower-case name. */
  function Upper(v: Json): seq<Item> { [Item("A", v)] }

  function LowerCase(v: Json): seq<Item> { [Item("a", v)] }

  lemma Letters(cs: bool)
    ensures Compare("A", "a", cs) == (if cs then -32 else 0) && Compare("a", "A", cs) == (if cs then 32 else 0)
    ensures Compare("B", "a", cs) == (if cs then -31 else 1) && Compare("a", "B", cs) == (if cs then 31 else -1)
  {
    OneLetter('A', 'a', cs);
    OneLetter('a', 'A', cs);
    OneLetter('B', 'a', cs);
    OneLetter('a', 'B', cs);
  }

  lemma OneSorted(x: Item, cs: bool)
    ensures SortItems([x], cs) == [x]
  {
    assert [x][1..] == [] && [x] + [] == [x];
  }

  /** Capitals come before small letters where case counts. */
  lemma OrderOfMembers(v: Json, cs: bool)
    ensures var a, b := Item("a", v), Item("B", v); SortItems([a, b], cs) == if cs then [b, a] else [a, b]
  {
    hide Compare;
    var a, b := Item("a", v), Item("B", v);
    Letters(cs);
    OneSorted(b, cs);
    assert [a, b][1..] == [b] && [b][1..] == [];
    assert Insert(a, [], cs) == [a] + [];
    assert [b] + [a] == [b, a] && [a] + [b] == [a, b];
  }

  /** Two objects with such names are equal, without a difference, if and only if case does not count. */
  lemma ComparesNames(cs: bool)
    ensures CompareJson(Object(Upper(Null)), Object(LowerCase(Null)), cs) <==> !cs
    ensures Diff(Object(Upper(Null)), Object(LowerCase(Null)), cs) == [] <==> !cs
  {
    hide Compare, SortItems;
    var a, b := Object(Upper(Null)), Object(LowerCase(Null));
    Letters(cs);
    OneSorted(a.child[0], cs);
    OneSorted(b.child[0], cs);
    assert a.child[1..] == [] && b.child[1..] == [];
    SortHolds(a.child, cs);
    assert CompareLists(a, [], [], true, cs);
    assert DiffMembers(a, [], [], cs) == [];
  }

  /** And the same below an array or a member. */
  lemma ComparesNamesBelow(cs: bool)
    ensures var a, b := [Item("x", Object(Upper(Null)))], [Item("x", Object(LowerCase(Null)))];
            && (CompareJson(Array(a), Array(b), cs) <==> !cs) && (Diff(Array(a), Array(b), cs) == [] <==> !cs)
            && (CompareJson(Object(a), Object(b), cs) <==> !cs) && (Diff(Object(a), Object(b), cs) == [] <==> !cs)
  {
    hide Compare, SortItems;
    var u, l := Object(Upper(Null)), Object(LowerCase(Null));
    var a, b := [Item("x", u)], [Item("x", l)];
    ComparesNames(cs);
    OneLetter('x', 'x', cs);
    OneSorted(a[0], cs);
    OneSorted(b[0], cs);
    SortHolds(a, cs);
    assert a[1..] == [] && b[1..] == [];
    BelowIs(Array(a), a, b, cs);
    BelowIs(Object(a), a, b, cs);
    hide Diff, CompareJson;
  }

  lemma BelowIs(j: Json, a: seq<Item>, b: seq<Item>, cs: bool)
    requires |a| == |b| == 1 && a[0].key == b[0].key == "x" && Compare("x", "x", cs) == 0
    requires j == Array(a) || (j == Object(a) && SortItems(a, cs) == a && SortItems(b, cs) == b)
    ensures var k := if j.Array? then Array(b) else Object(b);
            && (CompareJson(j, k, cs) <==> CompareJson(a[0].value, b[0].value, cs))
            && (Diff(j, k, cs) == [] <==> Diff(a[0].value, b[0].value, cs) == [])
  {
    hide Compare, SortItems;
    assert a[1..] == [] && b[1..] == [];
    SortHolds(a, cs);
    if j.Array? {
      assert CompareLists(j, [], [], false, cs);
      assert DiffItems(j, a, b, 1, cs) == [];
    } else {
      assert CompareLists(j, [], [], true, cs);
      assert DiffMembers(j, [], [], cs) == [];
    }
  }

  /** Merging replaces the one name by the other if and only if case does not count. */
  lemma MergesNames(cs: bool)
    ensures MergePatch.MergeJson(Some(Object(Upper(True))), Object(LowerCase(False)), cs) ==
              Object(if cs then Upper(True) + LowerCase(False) else LowerCase(False))
  {
    hide Compare;
    var c, rest := Upper(True), LowerCase(False);
    var patch := Object(rest);
    Letters(cs);
    assert rest[1..] == [] && c[1..] == [];
    assert ItemIndex(c, "a", cs) == if cs then None else Some(0);
    assert Without(c, 0) == [];
    assert [] + LowerCase(False) == LowerCase(False);
  }
}
