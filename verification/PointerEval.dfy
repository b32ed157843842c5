/** Evaluation of a JSON pointer, section 4 of RFC 6901, for any tree and any pointer: the tokens lead from child to child.
    3rd/cjson/cJSON_Utils.c takes more for an index, and may disregard case. */
module PointerEval {
  import opened Wrappers
  import opened CStrings
  import opened Json
  import opened Pointer

  /** The reference tokens, with their escapes; what does not begin with a slash has none. */
  function Tokens(p: string): seq<string>
    decreases |p|
  {
    if p == [] || p[0] != '/' then [] else [FirstToken(p[1..])] + Tokens(SkipToken(p[1..]))
  }

  /** The token, its escapes undone, is the name, but perhaps for case. */
  ghost predicate Names(t: string, name: string, cs: bool) { Unescape(t).Some? && AllAgree(name, Unescape(t).value, cs) }

  /** The token picks child i: the item of that index, or the first member of that name. */
  ghost predicate Picks(j: Json, t: string, cs: bool, i: nat) {
    match j
    case Array(c) => i < |c| && DecodeIndex(t) == Some(i)
    case Object(c) => i < |c| && Names(t, c[i].key, cs) && forall k :: 0 <= k < i ==> !Names(t, c[k].key, cs)
    case _ => false
  }

  /** The tokens lead along the route. */
  ghost predicate Evaluates(j: Json, ts: seq<string>, cs: bool, route: seq<nat>)
    decreases |ts|
  {
    if ts == [] then route == []
    else route != [] && Picks(j, ts[0], cs, route[0]) && Evaluates(j.child[route[0]].value, ts[1..], cs, route[1..])
  }

  // ---------------------------------------------------------------- names

  lemma AgreeCons(a: string, b: string, cs: bool)
    requires a != [] && b != []
    ensures AllAgree(a, b, cs) <==> Folded(a[0], cs) == Folded(b[0], cs) && AllAgree(a[1..], b[1..], cs)
  {
    if Folded(a[0], cs) == Folded(b[0], cs) && |a| == |b| { AgreeTails(a, b, cs, |a| - 1); }
    if AllAgree(a, b, cs) { assert Agree(a, b, cs, |a|); }
  }

  lemma SameCharIs(a: char, b: char, cs: bool)
    ensures SameChar(a, b, cs) <==> Folded(a, cs) == Folded(b, cs)
    ensures b == '~' || b == '/' ==> (Folded(a, cs) == Folded(b, cs) <==> a == b)
  {
  }

  /** compare_pointers, with and without case: the name is the first token with its escapes undone. */
  lemma {:induction false} ComparePointersBoth(name: string, pointer: string, cs: bool)
    ensures ComparePointers(name, pointer, cs) <==> Names(FirstToken(pointer), name, cs)
    decreases |name|
  {
    hide AllAgree, SameChar;
    var t := FirstToken(pointer);
    if pointer == [] || pointer[0] == '/' {
      NamelessAgree(name, cs);
    } else {
      assert t[0] == pointer[0] && t[1..] == FirstToken(pointer[1..]);
      if pointer[0] == '~' { EscapeFirst(pointer); }
      if name == [] {
        NothingNames(t, cs);
      } else if pointer[0] == '~' {
        if |pointer| > 1 && pointer[1] in ['0', '1'] {
          ComparePointersBoth(name[1..], pointer[2..], cs);
          UnescapeCons(t, name, cs);
        }
      } else {
        ComparePointersBoth(name[1..], pointer[1..], cs);
        SameCharIs(name[0], pointer[0], cs);
        PlainCons(t, name, cs);
      }
    }
  }

  lemma NamelessAgree(name: string, cs: bool)
    ensures Names([], name, cs) <==> name == []
  {
  }

  lemma EscapeFirst(p: string)
    requires p != [] && p[0] == '~'
    ensures var t := FirstToken(p);
            && t != [] && t[0] == '~' && (|t| > 1 <==> |p| > 1 && p[1] != '/')
            && (|t| > 1 ==> t[1] == p[1] && t[2..] == FirstToken(p[2..]))
  {
    if |p| > 1 && p[1] != '/' { assert p[1..][1..] == p[2..]; }
  }

  /** A token with characters names something with characters. */
  lemma NothingNames(t: string, cs: bool)
    requires t != []
    ensures !Names(t, [], cs)
  {
  }

  lemma UnescapeCons(t: string, name: string, cs: bool)
    requires |t| > 1 && t[0] == '~' && t[1] in ['0', '1'] && name != []
    ensures Names(t, name, cs) <==> name[0] == (if t[1] == '0' then '~' else '/') && Names(t[2..], name[1..], cs)
  {
    var x := if t[1] == '0' then '~' else '/';
    SameCharIs(name[0], x, cs);
    if Unescape(t[2..]).Some? {
      var u := [x] + Unescape(t[2..]).value;
      assert Unescape(t) == Some(u) && u[1..] == Unescape(t[2..]).value;
      AgreeCons(name, u, cs);
    }
    hide AllAgree;
  }

  lemma PlainCons(t: string, name: string, cs: bool)
    requires t != [] && t[0] != '~' && name != []
    ensures Names(t, name, cs) <==> Folded(name[0], cs) == Folded(t[0], cs) && Names(t[1..], name[1..], cs)
  {
    if Unescape(t[1..]).Some? {
      var u := [t[0]] + Unescape(t[1..]).value;
      assert Unescape(t) == Some(u) && u[1..] == Unescape(t[1..]).value;
      AgreeCons(name, u, cs);
    }
    hide AllAgree;
  }

  // ---------------------------------------------------------------- indices

  /** What follows the token does not matter. */
  lemma IndexOfToken(p: string)
    ensures DecodeIndex(p) == DecodeIndex(FirstToken(p))
  {
    TokenIsPrefix(p);
    var t := FirstToken(p);
    IndexAccepted(p);
    IndexAccepted(t);
    TokenIsPrefix(t);
    assert FirstToken(t) == t by { TokenOfToken(p); }
    if DecodeIndex(p).Some? {
      if t != [] {
        assert forall i :: 0 <= i < |t| ==> p[i] == t[i];
        assert t == "0" ==> t[0] == '0';
        RunEnds(p, |t|);
        RunEnds(t, |t|);
        assert t[..|t|] == t;
      } else {
        EmptyIndex(p);
      }
    }
  }

  lemma EmptyIndex(p: string)
    requires p == [] || p[0] == '/'
    ensures DecodeIndex(p) == Some(0) && DecodeIndex([]) == Some(0)
  {
    assert p[..0] == [];
  }

  lemma {:induction false} TokenOfToken(p: string)
    ensures FirstToken(FirstToken(p)) == FirstToken(p)
  {
    if p != [] && p[0] != '/' {
      TokenOfToken(p[1..]);
      assert FirstToken(p)[1..] == FirstToken(p[1..]);
    }
  }

  // ---------------------------------------------------------------- the walk

  lemma ChildPicks(j: Json, p: string, cs: bool, i: nat)
    ensures Child(j, p, cs) == Some(i) <==> Picks(j, FirstToken(p), cs, i)
  {
    hide ComparePointers, Names, DecodeIndex;
    match j
    case Array(c) => IndexOfToken(p);
    case Object(c) =>
      forall k | 0 <= k < |c|
        ensures ComparePointers(c[k].key, p, cs) <==> Names(FirstToken(p), c[k].key, cs)
      {
        ComparePointersBoth(c[k].key, p, cs);
      }
    case _ =>
  }

  /** get_item_from_pointer finds a node if and only if the tokens lead to it; a pointer that does not begin with a slash leads
      to the root. */
  lemma {:induction false} FindLeads(j: Json, p: string, cs: bool, route: seq<nat>)
    ensures Find(j, p, cs) == Some(route) <==> Evaluates(j, Tokens(p), cs, route)
    decreases |p|
  {
    hide Picks, Child, SkipToken, FirstToken;
    FindUnfold(j, p, cs);
    if p != [] && p[0] == '/' {
      var ts, q := Tokens(p), p[1..];
      assert ts == [FirstToken(q)] + Tokens(SkipToken(q)) && ts[0] == FirstToken(q) && ts[1..] == Tokens(SkipToken(q));
      var i := Child(j, q, cs);
      if route != [] { ChildPicks(j, q, cs, route[0]); }
      if i.Some? {
        var below := j.child[i.value].value;
        if route != [] && route[0] == i.value {
          FindLeads(below, SkipToken(q), cs, route[1..]);
          assert route == [i.value] + route[1..];
        }
        FoundBehind(i.value, Find(below, SkipToken(q), cs), route);
      }
    }
  }

  lemma FoundBehind(i: nat, r: Option<seq<nat>>, route: seq<nat>)
    ensures Behind([i], r) == Some(route) <==> route != [] && route[0] == i && r == Some(route[1..])
  {
    if r.Some? { assert ([i] + r.value)[1..] == r.value; }
    if route != [] && route[0] == i { assert route == [i] + route[1..]; }
  }

  /** Otherwise it finds nothing. */
  lemma FindNothing(j: Json, p: string, cs: bool)
    ensures Find(j, p, cs) == None <==> !exists route :: Evaluates(j, Tokens(p), cs, route)
  {
    hide Evaluates, Tokens, Find;
    forall route
      ensures Find(j, p, cs) == Some(route) <==> Evaluates(j, Tokens(p), cs, route)
    {
      FindLeads(j, p, cs, route);
    }
    if Find(j, p, cs).Some? { assert Evaluates(j, Tokens(p), cs, Find(j, p, cs).value); }
  }
}
