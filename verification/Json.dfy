/** JSON trees of 3rd/cjson: a cJSON with a list of children, each with the name it has in its parent;
    and the values they stand for, in which the order of the members of an object does not matter. */
module Json {
  import opened Wrappers
  import opened CStrings

  /** A child of an array or object; the items of an array have no use for their key. */
  datatype Item = Item(key: string, value: Json)

  datatype Json =
    | Invalid
    | Null
    | False
    | True
    | Number(n: int)
    | String(s: string)
    | Array(child: seq<Item>)
    | Object(child: seq<Item>)
  {
    predicate IsContainer() { Array? || Object? }
  }

  /** What a tree stands for. */
  datatype Tree = Atom(j: Json) | Arr(items: seq<Tree>) | Obj(members: map<string, Tree>)

  // ---------------------------------------------------------------- members

  ghost predicate HasKey(c: seq<Item>, k: string) { exists i :: 0 <= i < |c| && c[i].key == k }

  /** The first child of that name. */
  ghost function KeyIndex(c: seq<Item>, k: string): (i: nat)
    requires HasKey(c, k)
    ensures i < |c| && c[i].key == k && forall j :: 0 <= j < i ==> c[j].key != k
  {
    if c[0].key == k then 0 else assert HasKey(c[1..], k) by { TailHasKey(c, k); } KeyIndex(c[1..], k) + 1
  }

  lemma TailHasKey(c: seq<Item>, k: string)
    requires HasKey(c, k) && c[0].key != k
    ensures HasKey(c[1..], k)
  {
    var i :| 0 <= i < |c| && c[i].key == k;
    assert c[1..][i - 1].key == k;
  }

  function Keys(c: seq<Item>): (s: set<string>)
    ensures forall k :: k in s <==> HasKey(c, k)
  {
    set i | 0 <= i < |c| :: c[i].key
  }

  predicate Unique(c: seq<Item>) { forall i, j :: 0 <= i < j < |c| ==> c[i].key != c[j].key }

  // ---------------------------------------------------------------- values

  ghost function Abs(j: Json): Tree {
    match j
    case Array(c) => Arr(seq(|c|, i requires 0 <= i < |c| => Abs(c[i].value)))
    case Object(c) => Obj(map k | k in Keys(c) :: Abs(c[KeyIndex(c, k)].value))
    case _ => Atom(j)
  }

  /** The map that an object stands for. */
  ghost function MapOf(c: seq<Item>): (m: map<string, Tree>)
    ensures Abs(Object(c)) == Obj(m) && forall k :: k in m <==> HasKey(c, k)
  {
    Abs(Object(c)).members
  }

  lemma AbsAtKey(c: seq<Item>, i: nat)
    requires Unique(c) && i < |c|
    ensures HasKey(c, c[i].key) && KeyIndex(c, c[i].key) == i
    ensures c[i].key in Abs(Object(c)).members && Abs(Object(c)).members[c[i].key] == Abs(c[i].value)
  {
    var k := KeyIndex(c, c[i].key);
  }

  /** Objects are equal as maps if they have the same names and equal values under each. */
  lemma AbsSameMembers(c: seq<Item>, m: map<string, Tree>)
    requires Unique(c) && (forall i :: 0 <= i < |c| ==> c[i].key in m && Abs(c[i].value) == m[c[i].key])
    requires forall k :: k in m ==> HasKey(c, k)
    ensures Abs(Object(c)) == Obj(m)
  {
    var a := Abs(Object(c)).members;
    forall k | k in a
      ensures k in m && a[k] == m[k]
    {
      AbsAtKey(c, KeyIndex(c, k));
    }
    assert a == m;
  }

  // ---------------------------------------------------------------- plain trees

  predicate PlainKey(k: string) {
    NulFree(k) && NoUpper(k) && '~' !in k && '/' !in k
  }

  /** Names are unique, hold no upper-case letter and nothing that a JSON pointer would escape. */
  ghost predicate Plain(j: Json) {
    match j
    case Array(c) => forall i :: 0 <= i < |c| ==> Plain(c[i].value)
    case Object(c) => Unique(c) && forall i :: 0 <= i < |c| ==> PlainKey(c[i].key) && Plain(c[i].value)
    case String(s) => NulFree(s)
    case _ => true
  }
}
