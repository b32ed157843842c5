/** decode_pointer_inplace of 3rd/cjson/cJSON_Utils.c, which undoes the escapes of a reference token where it stands, and
    exactly which tokens it decodes as RFC 6901 says. */
module Decoding {
  import opened Wrappers
  import opened Pointer

  /** decode_pointer_inplace: d is written, s is read.  What follows an escape is not copied to its place. */
  function DecodeInPlace(buf: string, d: nat, s: nat): string
    requires d <= s
    decreases |buf| - s
  {
    if s >= |buf| then (if d <= |buf| then buf[..d] else buf)
    else if buf[s] == '~' then
      if s + 1 < |buf| && buf[s + 1] == '0' then DecodeInPlace(buf[d := '~'], d + 1, s + 2)
      else if s + 1 < |buf| && buf[s + 1] == '1' then DecodeInPlace(buf[d + 1 := '/'], d + 1, s + 2)
      else buf
    else DecodeInPlace(buf, d + 1, s + 1)
  }

  lemma {:induction false} DecodesPlain(buf: string, d: nat)
    requires '~' !in buf && d <= |buf|
    ensures DecodeInPlace(buf, d, d) == buf
    decreases |buf| - d
  {
    if d < |buf| { DecodesPlain(buf, d + 1); } else { assert buf[..d] == buf; }
  }

  // ---------------------------------------------------------------- which tokens are decoded right

  /** What has been written stays. */
  lemma {:induction false} DecodedStays(buf: string, d: nat, s: nat)
    requires d <= s && d <= |buf|
    ensures var r := DecodeInPlace(buf, d, s); d <= |r| && r[..d] == buf[..d]
    decreases |buf| - s
  {
    if s < |buf| {
      if buf[s] == '~' {
        if s + 1 < |buf| && buf[s + 1] == '0' {
          DecodedStays(buf[d := '~'], d + 1, s + 2);
          var r := DecodeInPlace(buf, d, s);
          assert r[..d] == r[..d + 1][..d] == buf[d := '~'][..d + 1][..d] == buf[..d];
        } else if s + 1 < |buf| && buf[s + 1] == '1' {
          DecodedStays(buf[d + 1 := '/'], d + 1, s + 2);
          var r := DecodeInPlace(buf, d, s);
          assert r[..d] == r[..d + 1][..d] == buf[d + 1 := '/'][..d + 1][..d] == buf[..d];
        }
      } else {
        DecodedStays(buf, d + 1, s + 1);
        var r := DecodeInPlace(buf, d, s);
        assert r[..d] == r[..d + 1][..d] == buf[..d + 1][..d] == buf[..d];
      }
    }
  }

  /** From s on, whose text goes to d: no ~1, and every other character already stands where it goes. */
  predicate InPlace(t: string, d: nat, s: nat)
    requires d <= s
    decreases |t| - s
  {
    if s >= |t| then true
    else if t[s] == '~' then s + 1 < |t| && t[s + 1] == '0' && InPlace(t, d + 1, s + 2)
    else t[d] == t[s] && InPlace(t, d + 1, s + 1)
  }

  /** Before a ~1 what is read, and what is not yet written, is as it was. */
  lemma {:induction false} DecodesFrom(t: string, buf: string, d: nat, s: nat)
    requires d <= s <= |t| == |buf| && (forall i :: d <= i < |t| ==> buf[i] == t[i])
    requires Unescape(t[s..]).Some? && '/' !in t
    ensures DecodeInPlace(buf, d, s) == buf[..d] + Unescape(t[s..]).value <==> InPlace(t, d, s)
    decreases |t| - s
  {
    if s == |t| {
      assert Unescape(t[s..]).value == [];
      assert buf[..d] + [] == buf[..d];
    } else {
      var e := s + (if t[s] == '~' then 2 else 1);
      Parts(t, s);
      hide Unescape;
      if t[s] == '~' {
        if t[s + 1] == '0' {
          DecodesFrom(t, buf[d := '~'], d + 1, e);
          OneMore(buf, buf[d := '~'], d, '~', Unescape(t[e..]).value);
        } else {
          SlashLost(t, buf, d, s);
          hide DecodeInPlace;
        }
      } else {
        DecodesFrom(t, buf, d + 1, e);
        PlainDecoded(t, buf, d, s, DecodeInPlace(buf, d + 1, e), Unescape(t[e..]).value);
      }
    }
  }

  /** The first reference to a character, and what is behind it. */
  lemma Parts(t: string, s: nat)
    requires s < |t| && Unescape(t[s..]).Some?
    ensures if t[s] == '~' then
              s + 1 < |t| && t[s + 1] in ['0', '1'] && Unescape(t[s + 2..]).Some?
              && Unescape(t[s..]).value == [if t[s + 1] == '0' then '~' else '/'] + Unescape(t[s + 2..]).value
            else Unescape(t[s + 1..]).Some? && Unescape(t[s..]).value == [t[s]] + Unescape(t[s + 1..]).value
  {
    if t[s] == '~' {
      assert t[s..][1] == t[s + 1] && t[s..][2..] == t[s + 2..];
    } else {
      assert t[s..][1..] == t[s + 1..];
    }
  }

  lemma OneMore(buf: string, next: string, d: nat, x: char, u: string)
    requires d < |buf| && next == buf[d := x]
    ensures next[..d + 1] + u == buf[..d] + ([x] + u)
  {
  }

  lemma SlashLost(t: string, buf: string, d: nat, s: nat)
    requires d <= s && s + 1 < |t| == |buf| && (forall i :: d <= i < |t| ==> buf[i] == t[i]) && '/' !in t
    requires t[s] == '~' && t[s + 1] == '1'
    ensures forall u: string :: DecodeInPlace(buf, d, s) != buf[..d] + (['/'] + u)
  {
    var next := buf[d + 1 := '/'];
    DecodedStays(next, d + 1, s + 2);
    var r := DecodeInPlace(next, d + 1, s + 2);
    assert r == DecodeInPlace(buf, d, s);
    assert r[d] == r[..d + 1][d] == next[..d + 1][d] == t[d];
    assert t[d] in t;
    forall u: string
      ensures r != buf[..d] + (['/'] + u)
    {
      assert (buf[..d] + (['/'] + u))[d] == '/';
    }
  }

  lemma PlainDecoded(t: string, buf: string, d: nat, s: nat, r: string, u: string)
    requires d <= s < |t| == |buf| && buf[d] == t[d] && r == DecodeInPlace(buf, d + 1, s + 1)
    ensures r == buf[..d] + ([t[s]] + u) <==> t[d] == t[s] && r == buf[..d + 1] + u
  {
    DecodedStays(buf, d + 1, s + 1);
    hide DecodeInPlace;
    assert r[d] == r[..d + 1][d] == buf[..d + 1][d] == t[d];
    assert (buf[..d] + ([t[s]] + u))[d] == t[s];
    if t[d] == t[s] { assert buf[..d + 1] + u == buf[..d] + ([t[s]] + u); }
  }

  /** How many escapes there are before s. */
  function Escapes(t: string, s: nat): (k: nat)
    requires s <= |t|
    ensures k <= s
  {
    if s == 0 then 0 else Escapes(t, s - 1) + (if t[s - 1] == '~' then 1 else 0)
  }

  /** Character s is not part of an escape. */
  predicate PlainAt(t: string, s: nat)
    requires s < |t|
  {
    t[s] != '~' && (s == 0 || t[s - 1] != '~')
  }

  predicate SlashEscape(t: string, s: nat)
    requires s < |t|
  {
    t[s] == '~' && s + 1 < |t| && t[s + 1] == '1'
  }

  /** From s on there is no ~1, and every plain character is the one that stands where it has to go. */
  ghost predicate Aligned(t: string, s: nat) {
    && (forall i :: s <= i < |t| ==> !SlashEscape(t, i))
    && forall i :: s <= i < |t| && PlainAt(t, i) ==> t[i - Escapes(t, i)] == t[i]
  }

  lemma {:induction false} InPlaceIsAligned(t: string, s: nat)
    requires s <= |t| && Unescape(t[s..]).Some? && (s == 0 || s == |t| || t[s - 1] != '~')
    ensures InPlace(t, s - Escapes(t, s), s) <==> Aligned(t, s)
    decreases |t| - s
  {
    hide *;
    if s < |t| {
      Parts(t, s);
      AlignedNext(t, s);
      NextPart(t, s);
      if t[s] == '~' {
        AlignedNext(t, s + 1);
        InPlaceIsAligned(t, s + 2);
      } else {
        InPlaceIsAligned(t, s + 1);
      }
    } else {
      AtTheEnd(t);
    }
  }

  lemma AtTheEnd(t: string)
    ensures Aligned(t, |t|) && InPlace(t, |t| - Escapes(t, |t|), |t|)
  {
  }

  lemma NextPart(t: string, s: nat)
    requires s < |t| && (s == 0 || t[s - 1] != '~') && (t[s] == '~' ==> s + 1 < |t| && t[s + 1] in ['0', '1'])
    ensures var d := s - Escapes(t, s);
            if t[s] == '~' then
              && s + 2 - Escapes(t, s + 2) == d + 1 && !PlainAt(t, s) && !PlainAt(t, s + 1) && !SlashEscape(t, s + 1)
              && (InPlace(t, d, s) <==> !SlashEscape(t, s) && InPlace(t, d + 1, s + 2))
            else
              && s + 1 - Escapes(t, s + 1) == d + 1 && PlainAt(t, s) && !SlashEscape(t, s)
              && (InPlace(t, d, s) <==> t[d] == t[s] && InPlace(t, d + 1, s + 1))
  {
    if t[s] == '~' {
      assert Escapes(t, s + 2) == Escapes(t, s + 1) == Escapes(t, s) + 1;
    } else {
      assert Escapes(t, s + 1) == Escapes(t, s);
    }
  }

  lemma AlignedNext(t: string, s: nat)
    requires s < |t|
    ensures Aligned(t, s) <==> !SlashEscape(t, s) && (PlainAt(t, s) ==> t[s - Escapes(t, s)] == t[s]) && Aligned(t, s + 1)
  {
    hide Escapes, SlashEscape, PlainAt;
  }

  /** A token of a pointer, its escapes being valid, is decoded as RFC 6901 says if and only if it has no ~1, and every
      plain character with k escapes before it equals the one k places before it. */
  lemma DecodesExactly(t: string)
    requires Unescape(t).Some? && '/' !in t
    ensures DecodeInPlace(t, 0, 0) == Unescape(t).value <==> Aligned(t, 0)
  {
    hide *;
    Whole(t);
    DecodesFrom(t, t, 0, 0);
    NoEscapesYet(t);
    InPlaceIsAligned(t, 0);
  }

  lemma Whole(t: string)
    ensures t[0..] == t && forall u: string :: t[..0] + u == u
  {
  }

  lemma NoEscapesYet(t: string)
    ensures Escapes(t, 0) == 0
  {
  }

  /** An escape at the end does no harm. */
  lemma DecodesTrailing()
    ensures DecodeInPlace("a~0", 0, 0) == "a~" && Unescape("a~0") == Some("a~")
  {
    var t := "a~0";
    assert t[1..] == "~0" && "~0"[2..] == "";
    assert Unescape("") == Some("") && ['~'] + "" == "~" && ['a'] + "~" == "a~";
    UnescapeOne("~0");
    UnescapeOne(t);
    assert t[1 := '~'] == t;
    assert DecodeInPlace(t, 1, 1) == DecodeInPlace(t, 2, 3) == t[..2] == "a~";
  }

  /** Where the text behind an escape is lost. */
  lemma DecodeLosesText()
    ensures DecodeInPlace("~0a", 0, 0) != "~a" && Unescape("~0a") == Some("~a")
    ensures DecodeInPlace("~1", 0, 0) != "/" && Unescape("~1") == Some("/")
  {
    var b := "~0a";
    assert b[0 := '~'] == b;
    assert DecodeInPlace(b, 1, 2) == DecodeInPlace(b, 2, 3) == b[..2] == "~0";
    UnescapeOne("~0a");
    UnescapeOne("a");
    assert "~0a"[2..] == "a" && "a"[1..] == "" && ['a'] + "" == "a" && ['~'] + "a" == "~a";
    var e := "~1";
    assert DecodeInPlace(e, 0, 0) == DecodeInPlace(e[1 := '/'], 1, 2) == e[1 := '/'][..1] == "~";
    UnescapeOne("~1");
    assert "~1"[2..] == "" && ['/'] + "" == "/";
  }

  lemma UnescapeOne(t: string)
    requires t != []
    ensures |t| > 1 && t[0] == '~' && t[1] in ['0', '1'] && Unescape(t[2..]).Some? ==>
              Unescape(t) == Some([if t[1] == '0' then '~' else '/'] + Unescape(t[2..]).value)
    ensures t[0] != '~' && Unescape(t[1..]).Some? ==> Unescape(t) == Some([t[0]] + Unescape(t[1..]).value)
  {
  }
}
