/** The comparison of C strings in 3rd/cjson/cJSON_Utils.c. */
module CStrings {

  /** tolower of the C locale */
  function Lower(c: char): char { if 'A' <= c <= 'Z' then c + 32 as char else c }

  /** The first character, folded if case does not matter; the terminator counts as 0. */
  function Head(s: string, caseSensitive: bool): (h: int)
    ensures s == [] ==> h == 0
  {
    if s == [] then 0 else (if caseSensitive then s[0] else Lower(s[0])) as int
  }

  /** compare_strings for strings that are not NULL; only the sign matters. */
  function Compare(a: string, b: string, caseSensitive: bool): int
    decreases |a|
  {
    if Head(a, caseSensitive) != Head(b, caseSensitive) then Head(a, caseSensitive) - Head(b, caseSensitive)
    else if Head(a, caseSensitive) == 0 then 0
    else Compare(a[1..], b[1..], caseSensitive)
  }

  lemma {:induction false} CompareSwapped(a: string, b: string, cs: bool)
    ensures Compare(a, b, cs) < 0 <==> Compare(b, a, cs) > 0
    ensures Compare(a, b, cs) == 0 <==> Compare(b, a, cs) == 0
    decreases |a|
  {
    if Head(a, cs) == Head(b, cs) != 0 { CompareSwapped(a[1..], b[1..], cs); }
  }

  lemma {:induction false} CompareTransitive(a: string, b: string, c: string, cs: bool)
    requires Compare(a, b, cs) <= 0 && Compare(b, c, cs) <= 0
    ensures Compare(a, c, cs) <= 0
    ensures Compare(a, b, cs) < 0 || Compare(b, c, cs) < 0 ==> Compare(a, c, cs) < 0
    decreases |a|
  {
    if Head(a, cs) == Head(b, cs) == Head(c, cs) != 0 { CompareTransitive(a[1..], b[1..], c[1..], cs); }
  }

  predicate NulFree(s: string) { forall i :: 0 <= i < |s| ==> s[i] != '\0' }

  predicate NoUpper(s: string) { forall i :: 0 <= i < |s| ==> !('A' <= s[i] <= 'Z') }

  /** Strings without a terminator in them are equal just where they compare so. */
  lemma {:induction false} CompareEqual(a: string, b: string)
    requires NulFree(a) && NulFree(b)
    ensures Compare(a, b, true) == 0 <==> a == b
    decreases |a|
  {
    if a != [] && b != [] && a[0] == b[0] {
      CompareEqual(a[1..], b[1..]);
      assert a == [a[0]] + a[1..] && b == [b[0]] + b[1..];
    }
    if a == [] && b != [] { assert b[0] as int != 0; }
    if b == [] && a != [] { assert a[0] as int != 0; }
  }

  /** Without upper-case letters case does not matter. */
  lemma {:induction false} CaseDoesNotMatter(a: string, b: string)
    requires NoUpper(a) && NoUpper(b)
    ensures Compare(a, b, false) == Compare(a, b, true)
    decreases |a|
  {
    if Head(a, true) == Head(b, true) != 0 { CaseDoesNotMatter(a[1..], b[1..]); }
  }

  // ---------------------------------------------------------------- the order of keys

  /** A character as strcmp sees it, or with the capitals A to Z moved to a to z. */
  function Folded(c: char, caseSensitive: bool): int {
    if !caseSensitive && 'A' <= c <= 'Z' then 'a' as int + (c as int - 'A' as int) else c as int
  }

  /** a and b agree in their first n characters. */
  ghost predicate Agree(a: string, b: string, cs: bool, n: nat) {
    n <= |a| && n <= |b| && forall k :: 0 <= k < n ==> Folded(a[k], cs) == Folded(b[k], cs)
  }

  /** Where they part, a has the lower byte or no character left. */
  ghost predicate PartsBelow(a: string, b: string, cs: bool, n: nat) {
    Agree(a, b, cs, n) && n < |b| && (n == |a| || Folded(a[n], cs) < Folded(b[n], cs))
  }

  /** The order of the dictionary, by bytes. */
  ghost predicate Before(a: string, b: string, cs: bool) { exists n: nat :: PartsBelow(a, b, cs, n) }

  ghost predicate AllAgree(a: string, b: string, cs: bool) { |a| == |b| && Agree(a, b, cs, |a|) }

  /** Strings compare as in that order, and as equal just where all their characters agree. */
  lemma {:induction false} CompareExact(a: string, b: string, cs: bool)
    requires NulFree(a) && NulFree(b)
    ensures Compare(a, b, cs) < 0 <==> Before(a, b, cs)
    ensures Compare(a, b, cs) == 0 <==> AllAgree(a, b, cs)
    decreases |a|
  {
    HeadIs(a, b, cs);
    if a != [] && b != [] && Folded(a[0], cs) == Folded(b[0], cs) {
      assert NulFree(a[1..]) && NulFree(b[1..]);
      CompareExact(a[1..], b[1..], cs);
      forall n: nat
        ensures Agree(a, b, cs, n + 1) <==> Agree(a[1..], b[1..], cs, n)
        ensures PartsBelow(a, b, cs, n + 1) <==> PartsBelow(a[1..], b[1..], cs, n)
      {
        AgreeTails(a, b, cs, n);
      }
      assert !PartsBelow(a, b, cs, 0);
      if Before(a, b, cs) {
        var n: nat :| PartsBelow(a, b, cs, n);
        assert PartsBelow(a[1..], b[1..], cs, n - 1);
      }
      if Before(a[1..], b[1..], cs) {
        var n: nat :| PartsBelow(a[1..], b[1..], cs, n);
        assert PartsBelow(a, b, cs, n + 1);
      }
    } else {
      if b != [] && (a == [] || Folded(a[0], cs) < Folded(b[0], cs)) { assert PartsBelow(a, b, cs, 0); }
      forall n: nat | PartsBelow(a, b, cs, n)
        ensures n == 0
      {
      }
    }
  }

  lemma HeadIs(a: string, b: string, cs: bool)
    requires NulFree(a) && NulFree(b)
    ensures (a == [] <==> Head(a, cs) == 0) && (b == [] <==> Head(b, cs) == 0) && Head(a, cs) >= 0 && Head(b, cs) >= 0
    ensures (a != [] ==> Head(a, cs) == Folded(a[0], cs)) && (b != [] ==> Head(b, cs) == Folded(b[0], cs))
  {
  }

  lemma AgreeTails(a: string, b: string, cs: bool, n: nat)
    requires a != [] && b != [] && Folded(a[0], cs) == Folded(b[0], cs)
    ensures Agree(a, b, cs, n + 1) <==> Agree(a[1..], b[1..], cs, n)
    ensures PartsBelow(a, b, cs, n + 1) <==> PartsBelow(a[1..], b[1..], cs, n)
  {
    if Agree(a[1..], b[1..], cs, n) {
      forall k | 0 <= k < n + 1
        ensures Folded(a[k], cs) == Folded(b[k], cs)
      {
        if k > 0 { assert a[1..][k - 1] == a[k] && b[1..][k - 1] == b[k]; }
      }
    }
  }
}
