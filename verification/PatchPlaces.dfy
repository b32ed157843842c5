/** Where apply_patch of 3rd/cjson/cJSON_Utils.c looks, in any tree and with any pointers: its paths are evaluated as RFC 6901 says,
    with or without case. */
module PatchPlaces {
  import opened Wrappers
  import opened CStrings
  import opened Json
  import opened Members
  import opened Pointer
  import opened Decoding
  import opened PointerEval
  import opened Patch

  /** The node that a pointer leads to. */
  ghost predicate LedTo(root: Json, path: string, cs: bool, node: Json) {
    exists route :: Evaluates(root, Tokens(path), cs, route) && HasRoute(root, route) && At(root, route) == node
  }

  lemma FindIsLed(root: Json, path: string, cs: bool)
    ensures Find(root, path, cs).Some? ==> LedTo(root, path, cs, At(root, Find(root, path, cs).value))
    ensures Find(root, path, cs).None? ==> forall node :: !LedTo(root, path, cs, node)
    ensures forall node :: LedTo(root, path, cs, node) ==> Find(root, path, cs).Some? && At(root, Find(root, path, cs).value) == node
  {
    hide Find, Evaluates, Tokens, At, HasRoute;
    forall route
      ensures Find(root, path, cs) == Some(route) <==> Evaluates(root, Tokens(path), cs, route)
    {
      FindLeads(root, path, cs, route);
    }
  }

  /** A test looks where its path leads, with or without case. */
  lemma TestsWhereLed(root: Json, path: string, patch: Json, cs: bool)
    ensures TestPatch(root, path, patch, cs).status == 0 <==>
            Member(patch, "value", cs).Some?
            && exists node :: LedTo(root, path, cs, node) && CompareJson(node, Member(patch, "value", cs).value, cs)
  {
    hide Member, CompareJson, Find, LedTo, At;
    FindIsLed(root, path, cs);
  }

  /** An addition fails with status 9 if and only if its path, up to the last token, leads to no array or object. */
  lemma AddsWhereLed(root: Json, path: string, value: Json, cs: bool)
    ensures AddValue(root, path, value, cs).status == 9 <==>
            LastSlash(path).None? || !exists node: Json :: node.IsContainer() && LedTo(root, path[..LastSlash(path).value], cs, node)
  {
    hide Find, LedTo, LastSlash, DecodeInPlace, ItemIndex, DecodeIndex, At, Compare;
    if LastSlash(path).Some? { FindIsLed(root, path[..LastSlash(path).value], cs); }
  }

  /** What is removed is taken from where the path, up to the last token, leads. */
  lemma DetachesWhereLed(root: Json, path: string, cs: bool)
    ensures var slash := LastSlash(path);
            if slash.None? then DetachPath(root, path, cs).item.None?
            else
              && (DetachPath(root, path, cs).item.Some? ==> exists node :: LedTo(root, path[..slash.value], cs, node))
              && forall node :: LedTo(root, path[..slash.value], cs, node) ==>
                   DetachPath(root, path, cs).item == DetachFrom(node, DecodeInPlace(path[slash.value + 1..], 0, 0)).item
  {
    hide Find, LedTo, LastSlash, DecodeInPlace, DetachFrom, At, Put;
    var slash := LastSlash(path);
    if slash.Some? {
      FindIsLed(root, path[..slash.value], cs);
      if DetachPath(root, path, cs).item.Some? {
        assert LedTo(root, path[..slash.value], cs, At(root, Find(root, path[..slash.value], cs).value));
      }
    }
  }

  /** A copy comes from where its "from" leads. */
  lemma CopiesWhereLed(root: Json, path: string, patch: Json, cs: bool)
    requires Member(patch, "from", cs).Some? && Member(patch, "from", cs).value.String?
    ensures var from := Member(patch, "from", cs).value.s;
            && ((forall node :: !LedTo(root, from, cs, node)) ==> AddFrom(root, path, patch, false, cs) == Outcome(root, 5))
            && (forall node :: LedTo(root, from, cs, node) ==> AddFrom(root, path, patch, false, cs) == AddValue(root, path, node, cs))
  {
    hide Member, Find, LedTo, AddValue, At, DetachPath;
    FindIsLed(root, Member(patch, "from", cs).value.s, cs);
  }
}
