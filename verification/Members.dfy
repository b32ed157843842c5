/** Sorted members and compare_json, 3rd/cjson/cJSON_Utils.c.  The merge sort itself is in SortList; with
    unique names there is only one sorted order, and here it is computed on values. */
module Members {
  import opened Wrappers
  import opened CStrings
  import opened Json
  import SortList

  // ---------------------------------------------------------------- the sorted order

  /** Each name before the next. */
  ghost predicate Ascending(c: seq<Item>, cs: bool) {
    forall i, j :: 0 <= i < j < |c| ==> Compare(c[i].key, c[j].key, cs) < 0
  }

  function Insert(x: Item, c: seq<Item>, cs: bool): seq<Item> {
    if c == [] || Compare(x.key, c[0].key, cs) < 0 then [x] + c else [c[0]] + Insert(x, c[1..], cs)
  }

  /** The members in the order of sort_object. */
  function SortItems(c: seq<Item>, cs: bool): (r: seq<Item>)
  {
    if c == [] then [] else Insert(c[0], SortItems(c[1..], cs), cs)
  }

  lemma {:induction false} InsertHolds(x: Item, c: seq<Item>, cs: bool)
    ensures multiset(Insert(x, c, cs)) == multiset(c) + multiset{x}
  {
    if c != [] && !(Compare(x.key, c[0].key, cs) < 0) {
      InsertHolds(x, c[1..], cs);
      assert c == [c[0]] + c[1..];
    }
  }

  lemma {:induction false} SortHolds(c: seq<Item>, cs: bool)
    ensures multiset(SortItems(c, cs)) == multiset(c)
    ensures |SortItems(c, cs)| == |c| && forall x :: x in SortItems(c, cs) <==> x in c
  {
    if c != [] {
      SortHolds(c[1..], cs);
      InsertHolds(c[0], SortItems(c[1..], cs), cs);
      assert c == [c[0]] + c[1..];
    }
    SameItems(SortItems(c, cs), c);
  }

  lemma SameItems(a: seq<Item>, b: seq<Item>)
    requires multiset(a) == multiset(b)
    ensures |a| == |b| && forall x :: x in a <==> x in b
  {
    assert |multiset(a)| == |a| && |multiset(b)| == |b|;
    forall x
      ensures x in a <==> x in b
    {
      assert x in multiset(a) <==> x in multiset(b);
    }
  }

  /** All names of c come after k. */
  ghost predicate AllAfter(k: string, c: seq<Item>, cs: bool) {
    forall x :: x in c ==> Compare(k, x.key, cs) < 0
  }

  /** Names that compare equal to none of c. */
  ghost predicate Fresh(k: string, c: seq<Item>, cs: bool) {
    forall x :: x in c ==> Compare(k, x.key, cs) != 0
  }

  ghost predicate Distinct(c: seq<Item>, cs: bool) {
    forall i, j :: 0 <= i < j < |c| ==> Compare(c[i].key, c[j].key, cs) != 0
  }

  lemma AscendingCons(x: Item, c: seq<Item>, cs: bool)
    ensures Ascending([x] + c, cs) <==> AllAfter(x.key, c, cs) && Ascending(c, cs)
  {
    var d := [x] + c;
    if Ascending(d, cs) {
      forall y | y in c
        ensures Compare(x.key, y.key, cs) < 0
      {
        var i :| 0 <= i < |c| && c[i] == y;
        assert d[0] == x && d[i + 1] == y;
      }
      forall i, j | 0 <= i < j < |c|
        ensures Compare(c[i].key, c[j].key, cs) < 0
      {
        assert d[i + 1] == c[i] && d[j + 1] == c[j];
      }
    }
  }

  lemma {:induction false} InsertAscends(x: Item, c: seq<Item>, cs: bool)
    requires Ascending(c, cs) && Fresh(x.key, c, cs)
    ensures Ascending(Insert(x, c, cs), cs)
  {
    if c != [] {
      assert c == [c[0]] + c[1..];
      AscendingCons(c[0], c[1..], cs);
      if Compare(x.key, c[0].key, cs) < 0 {
        forall y | y in c
          ensures Compare(x.key, y.key, cs) < 0
        {
          if y in c[1..] { CompareTransitive(x.key, c[0].key, y.key, cs); }
        }
        AscendingCons(x, c, cs);
      } else {
        var rest := Insert(x, c[1..], cs);
        InsertAscends(x, c[1..], cs);
        InsertHolds(x, c[1..], cs);
        assert c[0] in c;
        CompareSwapped(x.key, c[0].key, cs);
        forall y | y in rest
          ensures Compare(c[0].key, y.key, cs) < 0
        {
          assert y in multiset(rest);
          assert y == x || y in c[1..];
        }
        AscendingCons(c[0], rest, cs);
      }
    } else {
      AscendingCons(x, [], cs);
      assert [x] + [] == [x];
    }
  }

  lemma {:induction false} SortAscends(c: seq<Item>, cs: bool)
    requires Distinct(c, cs)
    ensures Ascending(SortItems(c, cs), cs)
  {
    if c != [] {
      var rest := SortItems(c[1..], cs);
      assert forall i :: 0 <= i < |c[1..]| ==> c[1..][i] == c[i + 1];
      SortAscends(c[1..], cs);
      SortHolds(c[1..], cs);
      forall x | x in rest
        ensures Compare(c[0].key, x.key, cs) != 0
      {
        var i :| 0 <= i < |c[1..]| && c[1..][i] == x;
        assert c[i + 1] == x;
      }
      InsertAscends(c[0], rest, cs);
    }
  }

  /** Plain names are equal just where they compare so, with or without case. */
  lemma PlainNames(a: string, b: string, cs: bool)
    requires PlainKey(a) && PlainKey(b)
    ensures Compare(a, b, cs) == 0 <==> a == b
  {
    CompareEqual(a, b);
    if !cs { CaseDoesNotMatter(a, b); }
  }

  ghost predicate PlainItems(c: seq<Item>) {
    forall x :: x in c ==> PlainKey(x.key) && Plain(x.value)
  }

  /** What sorting makes of the members of a plain object. */
  lemma SortedPlain(c: seq<Item>, cs: bool)
    requires Plain(Object(c))
    ensures var s := SortItems(c, cs);
            && PlainItems(c) && PlainItems(s) && Ascending(s, cs) && Unique(s)
            && |s| == |c| && (forall x :: x in s <==> x in c) && Abs(Object(s)) == Abs(Object(c)) && Plain(Object(s))
  {
    var s := SortItems(c, cs);
    PlainDistinct(c, cs);
    SortAscends(c, cs);
    SortHolds(c, cs);
    AscendingUnique(s, cs);
    SameAbs(c, s);
  }

  lemma PlainDistinct(c: seq<Item>, cs: bool)
    requires Plain(Object(c))
    ensures Distinct(c, cs) && PlainItems(c)
  {
    forall i, j | 0 <= i < j < |c|
      ensures Compare(c[i].key, c[j].key, cs) != 0
    {
      PlainNames(c[i].key, c[j].key, cs);
    }
  }

  lemma AscendingUnique(s: seq<Item>, cs: bool)
    requires Ascending(s, cs)
    ensures Unique(s)
  {
    forall i, j | 0 <= i < j < |s|
      ensures s[i].key != s[j].key
    {
      CompareSwapped(s[i].key, s[j].key, cs);
    }
  }

  lemma SameAbs(c: seq<Item>, s: seq<Item>)
    requires Unique(c) && Unique(s) && forall x :: x in s <==> x in c
    ensures Abs(Object(s)) == Abs(Object(c))
  {
    var m := Abs(Object(c)).members;
    forall i | 0 <= i < |s|
      ensures s[i].key in m && Abs(s[i].value) == m[s[i].key]
    {
      assert s[i] in c;
      var j :| 0 <= j < |c| && c[j] == s[i];
      AbsAtKey(c, j);
    }
    forall k | k in m
      ensures HasKey(s, k)
    {
      var j := KeyIndex(c, k);
      assert c[j] in s;
    }
    AbsSameMembers(s, m);
  }

  // ---------------------------------------------------------------- compare_json

  function KindOf(j: Json): int {
    match j
    case Invalid => 0
    case False => 1
    case True => 2
    case Null => 4
    case Number(_) => 8
    case String(_) => 16
    case Array(_) => 32
    case Object(_) => 64
  }

  /** compare_json, apart from the order in which it leaves the members of the objects. */
  function CompareJson(a: Json, b: Json, cs: bool): bool
    decreases a, 1, 0
  {
    if KindOf(a) != KindOf(b) then false
    else if a.Number? then a.n == b.n
    else if a.String? then Compare(a.s, b.s, true) == 0
    else if a.Array? then CompareLists(a, a.child, b.child, false, cs)
    else if a.Object? then
      SortHolds(a.child, cs);
      CompareLists(a, SortItems(a.child, cs), SortItems(b.child, cs), true, cs)
    else true
  }

  /** Both cursors in step; named tells that the names are compared, too.  f holds children of a. */
  function CompareLists(a: Json, f: seq<Item>, t: seq<Item>, named: bool, cs: bool): bool
    requires a.IsContainer() && forall x :: x in f ==> x in a.child
    decreases a, 0, |f|
  {
    if f == [] || t == [] then f == [] && t == []
    else
      assert f[0] in a.child;
      && (named ==> Compare(f[0].key, t[0].key, cs) == 0)
      && CompareJson(f[0].value, t[0].value, cs)
      && CompareLists(a, f[1..], t[1..], named, cs)
  }

  ghost predicate SameLists(f: seq<Item>, t: seq<Item>, named: bool) {
    |f| == |t| && forall i :: 0 <= i < |f| ==> (named ==> f[i].key == t[i].key) && Abs(f[i].value) == Abs(t[i].value)
  }

  lemma SameListsCons(x: Item, f: seq<Item>, y: Item, t: seq<Item>, named: bool)
    ensures SameLists([x] + f, [y] + t, named) <==>
              (named ==> x.key == y.key) && Abs(x.value) == Abs(y.value) && SameLists(f, t, named)
  {
    hide Abs;
    var f', t' := [x] + f, [y] + t;
    if SameLists(f', t', named) {
      forall i | 0 <= i < |f|
        ensures (named ==> f[i].key == t[i].key) && Abs(f[i].value) == Abs(t[i].value)
      {
        assert f'[i + 1] == f[i] && t'[i + 1] == t[i];
      }
      assert f'[0] == x && t'[0] == y;
    }
  }

  /** compare_json of plain trees is equality as maps. */
  lemma {:induction false} CompareJsonExact(a: Json, b: Json, cs: bool)
    requires Plain(a) && Plain(b)
    ensures CompareJson(a, b, cs) <==> Abs(a) == Abs(b)
    decreases a, 1, 0
  {
    if a.Array? && b.Array? {
      CompareListsExact(a, a.child, b.child, false, cs);
      ArraysEqual(a.child, b.child);
    } else if a.Object? && b.Object? {
      SortedPlain(a.child, cs);
      SortedPlain(b.child, cs);
      CompareListsExact(a, SortItems(a.child, cs), SortItems(b.child, cs), true, cs);
      ObjectsEqual(SortItems(a.child, cs), SortItems(b.child, cs), cs);
    } else if a.String? && b.String? {
      CompareEqual(a.s, b.s);
    }
  }

  lemma ArraysEqual(f: seq<Item>, t: seq<Item>)
    ensures SameLists(f, t, false) <==> Abs(Array(f)) == Abs(Array(t))
  {
    var a, b := Abs(Array(f)).items, Abs(Array(t)).items;
    if Abs(Array(f)) == Abs(Array(t)) {
      forall i | 0 <= i < |f|
        ensures Abs(f[i].value) == Abs(t[i].value)
      {
        assert a[i] == b[i];
      }
    }
    if SameLists(f, t, false) {
      assert a == b;
    }
  }

  lemma {:induction false} CompareListsExact(a: Json, f: seq<Item>, t: seq<Item>, named: bool, cs: bool)
    requires a.IsContainer() && (forall x :: x in f ==> x in a.child)
    requires forall x :: x in f || x in t ==> Plain(x.value) && (named ==> PlainKey(x.key))
    ensures CompareLists(a, f, t, named, cs) <==> SameLists(f, t, named)
    decreases a, 0, |f|
  {
    hide Abs, Plain, Compare, PlainKey;
    if f != [] && t != [] {
      assert f[0] in f && t[0] in t && f[0] in a.child;
      CompareJsonExact(f[0].value, t[0].value, cs);
      CompareListsExact(a, f[1..], t[1..], named, cs);
      if named { PlainNames(f[0].key, t[0].key, cs); }
      SameListsCons(f[0], f[1..], t[0], t[1..], named);
      assert f == [f[0]] + f[1..] && t == [t[0]] + t[1..];
    }
  }

  /** Sorted members of equal objects are the same, one by one. */
  lemma ObjectsEqual(f: seq<Item>, t: seq<Item>, cs: bool)
    requires Ascending(f, cs) && Ascending(t, cs) && Unique(f) && Unique(t)
    ensures SameLists(f, t, true) <==> Abs(Object(f)) == Abs(Object(t))
  {
    var m := Abs(Object(t)).members;
    if SameLists(f, t, true) {
      forall i | 0 <= i < |f|
        ensures f[i].key in m && Abs(f[i].value) == m[f[i].key]
      {
        AbsAtKey(t, i);
      }
      forall k | k in m
        ensures HasKey(f, k)
      {
        assert f[KeyIndex(t, k)].key == k;
      }
      AbsSameMembers(f, m);
    }
    if Abs(Object(f)) == Abs(Object(t)) {
      forall k
        ensures HasKey(f, k) <==> HasKey(t, k)
      {
        assert k in Abs(Object(f)).members <==> k in m;
      }
      SameNames(f, t, cs);
      forall i | 0 <= i < |f|
        ensures Abs(f[i].value) == Abs(t[i].value)
      {
        AbsAtKey(f, i);
        AbsAtKey(t, i);
      }
    }
  }

  lemma {:induction false} SameNames(f: seq<Item>, t: seq<Item>, cs: bool)
    requires Ascending(f, cs) && Ascending(t, cs) && forall k :: HasKey(f, k) <==> HasKey(t, k)
    ensures |f| == |t| && forall i :: 0 <= i < |f| ==> f[i].key == t[i].key
  {
    if f == [] {
      assert t != [] ==> HasKey(t, t[0].key);
    } else {
      assert HasKey(f, f[0].key);
      var j :| 0 <= j < |t| && t[j].key == f[0].key;
      assert HasKey(t, t[0].key);
      var i :| 0 <= i < |f| && f[i].key == t[0].key;
      CompareSwapped(f[0].key, t[0].key, cs);
      assert f[0].key == t[0].key;
      var g, u := f[1..], t[1..];
      TailKeys(f, f[0].key, cs);
      TailKeys(t, t[0].key, cs);
      forall k
        ensures HasKey(g, k) <==> HasKey(u, k)
      {
        TailKeys(f, k, cs);
        TailKeys(t, k, cs);
      }
      SameNames(g, u, cs);
      assert forall n :: 0 < n < |f| ==> f[n] == g[n - 1];
    }
  }

  lemma TailKeys(f: seq<Item>, k: string, cs: bool)
    requires Ascending(f, cs) && f != []
    ensures Ascending(f[1..], cs)
    ensures HasKey(f[1..], k) <==> HasKey(f, k) && k != f[0].key
  {
    assert f == [f[0]] + f[1..];
    AscendingCons(f[0], f[1..], cs);
    CompareSwapped(k, k, cs);
    if HasKey(f[1..], k) {
      var i :| 0 <= i < |f[1..]| && f[1..][i].key == k;
      assert f[i + 1].key == k && f[1..][i] in f[1..];
    }
    if HasKey(f, k) && k != f[0].key { TailHasKey(f, k); }
  }

  // ---------------------------------------------------------------- the merge sort finds that order

  /** There is only one ascending order. */
  lemma {:induction false} OneAscending(a: seq<Item>, b: seq<Item>, cs: bool)
    requires Ascending(a, cs) && Ascending(b, cs) && forall x :: x in a <==> x in b
    ensures a == b
  {
    if a == [] {
      assert forall i :: 0 <= i < |b| ==> b[i] in b;
    } else {
      assert a[0] in a && b != [];
      assert b[0] in b;
      FirstIs(a, b[0], cs);
      FirstIs(b, a[0], cs);
      CompareSwapped(a[0].key, b[0].key, cs);
      forall x
        ensures x in a[1..] <==> x in b[1..]
      {
        TailHolds(a, x, cs);
        TailHolds(b, x, cs);
      }
      assert a == [a[0]] + a[1..] && b == [b[0]] + b[1..];
      AscendingCons(a[0], a[1..], cs);
      AscendingCons(b[0], b[1..], cs);
      OneAscending(a[1..], b[1..], cs);
    }
  }

  lemma FirstIs(a: seq<Item>, x: Item, cs: bool)
    requires Ascending(a, cs) && x in a
    ensures x == a[0] || Compare(a[0].key, x.key, cs) < 0
  {
    var i :| 0 <= i < |a| && a[i] == x;
  }

  lemma TailHolds(a: seq<Item>, x: Item, cs: bool)
    requires Ascending(a, cs) && a != []
    ensures x in a[1..] <==> x in a && x != a[0]
  {
    assert a == [a[0]] + a[1..];
    CompareSwapped(x.key, x.key, cs);
    if x in a[1..] {
      var i :| 0 <= i < |a[1..]| && a[1..][i] == x;
      assert a[i + 1] == x;
    }
  }

  /** The members that the nodes of a list are, each with the value that stands in it. */
  ghost function ItemsAt(s: seq<SortList.Node>, value: map<SortList.Node, Json>): (c: seq<Item>)
    requires SortList.Keyed(s) && forall x :: x in s ==> x in value
    ensures |c| == |s| && forall i :: 0 <= i < |c| ==> c[i] == Item(s[i].key.value, value[s[i]])
  {
    seq(|s|, i requires 0 <= i < |s| => Item(s[i].key.value, value[s[i]]))
  }

  /** sort_object: the merge sort leaves the members of a plain object in the order of SortItems. */
  method SortObject(list: SortList.Node?, cs: bool, ghost s: seq<SortList.Node>, ghost p: SortList.Node?, ghost value: map<SortList.Node, Json>)
      returns (result: SortList.Node?, ghost r: seq<SortList.Node>)
    requires SortList.IsList(s, p) && list == SortList.First(s)
    requires SortList.Keyed(s) && (forall x :: x in s ==> x in value) && Plain(Object(ItemsAt(s, value)))
    modifies s
    ensures |r| == |s| && result == SortList.First(r) && SortList.IsList(r, if r != [] && r[0] == s[0] then p else null)
    ensures SortList.Keyed(r) && (forall x :: x in r ==> x in value) && ItemsAt(r, value) == SortItems(ItemsAt(s, value), cs)
  {
    hide SortList.Keyed, SortList.Sorted, Plain, ItemsAt, SortList.Chain, SortList.Ends;
    ListDistinct(s, p);
    ghost var c := ItemsAt(s, value);
    result, r := SortList.Sort(list, cs, s, p);
    SortedNodes(s, r, value, cs);
    assert c == ItemsAt(s, value);
  }

  lemma ListDistinct(s: seq<SortList.Node>, p: SortList.Node?)
    requires SortList.IsList(s, p)
    ensures SortList.Distinct(s)
  {
  }

  lemma SortedNodes(s: seq<SortList.Node>, r: seq<SortList.Node>, value: map<SortList.Node, Json>, cs: bool)
    requires SortList.Keyed(s) && (forall x :: x in s ==> x in value) && Plain(Object(ItemsAt(s, value))) && SortList.Distinct(s)
    requires multiset(r) == multiset(s) && |r| == |s| && SortList.Sorted(r, cs)
    ensures SortList.Keyed(r) && (forall x :: x in r ==> x in value) && ItemsAt(r, value) == SortItems(ItemsAt(s, value), cs)
  {
    var c := ItemsAt(s, value);
    SameNodes(s, r);
    var d := ItemsAt(r, value);
    forall i, j | 0 <= i < j < |d|
      ensures Compare(d[i].key, d[j].key, cs) < 0
    {
      ApartIn(s, r, value, i, j, cs);
    }
    SortedPlain(c, cs);
    SortHolds(c, cs);
    forall x
      ensures x in d <==> x in SortItems(c, cs)
    {
      SameItemsAt(s, r, value, x);
    }
    OneAscending(d, SortItems(c, cs), cs);
  }

  lemma SameNodes(s: seq<SortList.Node>, r: seq<SortList.Node>)
    requires multiset(r) == multiset(s)
    ensures forall x :: x in r <==> x in s
    ensures SortList.Keyed(s) ==> SortList.Keyed(r)
  {
    forall x
      ensures x in r <==> x in s
    {
      assert x in multiset(r) <==> x in multiset(s);
    }
    if SortList.Keyed(s) {
      forall i | 0 <= i < |r|
        ensures r[i].key.Some?
      {
        assert r[i] in s;
        var k :| 0 <= k < |s| && s[k] == r[i];
      }
    }
  }

  lemma SameItemsAt(s: seq<SortList.Node>, r: seq<SortList.Node>, value: map<SortList.Node, Json>, x: Item)
    requires SortList.Keyed(s) && SortList.Keyed(r) && (forall n :: n in r <==> n in s) && forall n :: n in s ==> n in value
    ensures x in ItemsAt(s, value) <==> x in ItemsAt(r, value)
  {
    var c, d := ItemsAt(s, value), ItemsAt(r, value);
    if x in c {
      var i :| 0 <= i < |c| && c[i] == x;
      assert s[i] in r;
      var j :| 0 <= j < |r| && r[j] == s[i];
      assert d[j] == x;
    }
    if x in d {
      var i :| 0 <= i < |d| && d[i] == x;
      assert r[i] in s;
      var j :| 0 <= j < |s| && s[j] == r[i];
      assert c[j] == x;
    }
  }

  lemma ApartIn(s: seq<SortList.Node>, r: seq<SortList.Node>, value: map<SortList.Node, Json>, i: nat, j: nat, cs: bool)
    requires SortList.Keyed(s) && (forall x :: x in s ==> x in value) && Plain(Object(ItemsAt(s, value))) && SortList.Distinct(s)
    requires multiset(r) == multiset(s) && SortList.Sorted(r, cs) && i < j < |r|
    ensures r[i].key.Some? && r[j].key.Some? && Compare(r[i].key.value, r[j].key.value, cs) < 0
  {
    assert SortList.NotAfter(r[i], r[j], cs);
    SameNodes(s, r);
    NodesApart(s, r, i, j);
    assert r[i] in s && r[j] in s;
    var k :| 0 <= k < |s| && s[k] == r[i];
    var l :| 0 <= l < |s| && s[l] == r[j];
    var c := ItemsAt(s, value);
    assert c[k].key != c[l].key by { if k < l { assert Unique(c); } }
    PlainNames(c[k].key, c[l].key, cs);
  }

  lemma NodesApart(s: seq<SortList.Node>, r: seq<SortList.Node>, i: nat, j: nat)
    requires SortList.Distinct(s) && multiset(r) == multiset(s) && i < j < |r|
    ensures r[i] != r[j]
  {
    OnceIn(s, r[i]);
    TwiceIn(r, i, j);
  }

  lemma TwiceIn(r: seq<SortList.Node>, i: nat, j: nat)
    requires i < j < |r|
    ensures r[i] == r[j] ==> multiset(r)[r[i]] >= 2
  {
    assert r == r[..j] + r[j..];
    assert r[..j][i] in multiset(r[..j]);
    assert r[j..][0] in multiset(r[j..]);
  }

  lemma {:induction false} OnceIn(s: seq<SortList.Node>, x: SortList.Node)
    requires SortList.Distinct(s)
    ensures multiset(s)[x] <= 1
  {
    if s != [] {
      assert s == [s[0]] + s[1..];
      OnceIn(s[1..], x);
      assert s[0] !in s[1..];
    }
  }
}
