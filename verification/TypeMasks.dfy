/** The bits of 3rd/fribidi/fribidi-bidi-types.h behind the character types, and that the predicates of
    BidiTypes are what the header tests on them. */
module TypeMasks {
  import opened BidiTypes

  const RTL_BIT: bv32 := 0x00000001
  const ARABIC_BIT: bv32 := 0x00000002
  const STRONG_BIT: bv32 := 0x00000010
  const WEAK_BIT: bv32 := 0x00000020
  const NEUTRAL_BIT: bv32 := 0x00000040
  const SENTINEL_BIT: bv32 := 0x00000080
  const LETTER_BIT: bv32 := 0x00000100
  const NUMBER_BIT: bv32 := 0x00000200
  const NUMSEPTER_BIT: bv32 := 0x00000400
  const SPACE_BIT: bv32 := 0x00000800
  const EXPLICIT_BIT: bv32 := 0x00001000
  const SEPARATOR_BIT: bv32 := 0x00002000
  const OVERRIDE_BIT: bv32 := 0x00004000
  const ISOLATE_BIT: bv32 := 0x00008000
  const ES_BIT: bv32 := 0x00010000
  const ET_BIT: bv32 := 0x00020000
  const CS_BIT: bv32 := 0x00040000
  const NSM_BIT: bv32 := 0x00080000
  const BN_BIT: bv32 := 0x00100000
  const BS_BIT: bv32 := 0x00200000
  const SS_BIT: bv32 := 0x00400000
  const WS_BIT: bv32 := 0x00800000
  const FIRST_BIT: bv32 := 0x02000000

  /** The value of a type. */
  function Value(t: CharType): bv32 {
    match t
    case LTR => STRONG_BIT | LETTER_BIT
    case RTL => STRONG_BIT | LETTER_BIT | RTL_BIT
    case AL => STRONG_BIT | LETTER_BIT | RTL_BIT | ARABIC_BIT
    case LRE => STRONG_BIT | EXPLICIT_BIT
    case RLE => STRONG_BIT | EXPLICIT_BIT | RTL_BIT
    case LRO => STRONG_BIT | EXPLICIT_BIT | OVERRIDE_BIT
    case RLO => STRONG_BIT | EXPLICIT_BIT | RTL_BIT | OVERRIDE_BIT
    case PDF => WEAK_BIT | EXPLICIT_BIT
    case EN => WEAK_BIT | NUMBER_BIT
    case AN => WEAK_BIT | NUMBER_BIT | ARABIC_BIT
    case ES => WEAK_BIT | NUMSEPTER_BIT | ES_BIT
    case ET => WEAK_BIT | NUMSEPTER_BIT | ET_BIT
    case CS => WEAK_BIT | NUMSEPTER_BIT | CS_BIT
    case NSM => WEAK_BIT | NSM_BIT
    case BN => WEAK_BIT | SPACE_BIT | BN_BIT
    case BS => NEUTRAL_BIT | SPACE_BIT | SEPARATOR_BIT | BS_BIT
    case SS => NEUTRAL_BIT | SPACE_BIT | SEPARATOR_BIT | SS_BIT
    case WS => NEUTRAL_BIT | SPACE_BIT | WS_BIT
    case ON => NEUTRAL_BIT
    case WLTR => WEAK_BIT
    case WRTL => WEAK_BIT | RTL_BIT
    case Sentinel => SENTINEL_BIT
    case LRI => NEUTRAL_BIT | ISOLATE_BIT
    case RLI => NEUTRAL_BIT | ISOLATE_BIT | RTL_BIT
    case FSI => NEUTRAL_BIT | ISOLATE_BIT | FIRST_BIT
    case PDI => NEUTRAL_BIT | WEAK_BIT | ISOLATE_BIT
  }

  /** FRIBIDI_IS_... */
  predicate Has(t: CharType, mask: bv32) { Value(t) & mask != 0 }

  /** No two types share a value, so that comparing values compares types. */
  lemma ValuesDiffer(s: CharType, t: CharType)
    ensures Value(s) == Value(t) <==> s == t
  {
  }

  /** Every query tests the mask that the header gives it. */
  lemma QueriesTestMasks(t: CharType)
    ensures t.IsRtl() <==> Has(t, RTL_BIT)
    ensures t.IsStrong() <==> Has(t, STRONG_BIT)
    ensures t.IsLetter() <==> Has(t, LETTER_BIT)
    ensures t.IsNeutral() <==> Has(t, NEUTRAL_BIT)
    ensures t.IsNumber() <==> Has(t, NUMBER_BIT)
    ensures t.IsNumberSeparatorOrTerminator() <==> Has(t, NUMSEPTER_BIT)
    ensures t.IsEsOrCs() <==> Has(t, ES_BIT | CS_BIT)
  {
    match t {
      case LTR => case RTL => case AL => case LRE => case RLE => case LRO => case RLO => case PDF =>
      case EN => case AN => case ES => case ET => case CS => case NSM => case BN => case BS => case SS => case WS => case ON =>
      case LRI => case RLI => case FSI => case PDI => case WLTR => case WRTL => case Sentinel =>
    }
  }

  lemma CodeQueriesTestMasks(t: CharType)
    ensures t.IsExplicit() <==> Has(t, EXPLICIT_BIT)
    ensures t.IsOverride() <==> Has(t, OVERRIDE_BIT)
    ensures t.IsIsolate() <==> Has(t, ISOLATE_BIT)
    ensures t.IsSeparator() <==> Has(t, SEPARATOR_BIT)
    ensures t.IsExplicitOrBn() <==> Has(t, EXPLICIT_BIT | BN_BIT)
    ensures t.IsExplicitOrBnOrNsm() <==> Has(t, EXPLICIT_BIT | BN_BIT | NSM_BIT)
    ensures t.IsExplicitOrBnOrWs() <==> Has(t, EXPLICIT_BIT | BN_BIT | WS_BIT)
    ensures t.IsExplicitOrSeparatorOrBnOrWs() <==> Has(t, EXPLICIT_BIT | SEPARATOR_BIT | BN_BIT | WS_BIT)
  {
    match t {
      case LTR => case RTL => case AL => case LRE => case RLE => case LRO => case RLO => case PDF =>
      case EN => case AN => case ES => case ET => case CS => case NSM => case BN => case BS => case SS => case WS => case ON =>
      case LRI => case RLI => case FSI => case PDI => case WLTR => case WRTL => case Sentinel =>
    }
  }

  /** The conversions of the header: level of a direction and direction of a level, numbers as R, and what an explicit
      code overrides with. */
  lemma ConversionsAre(t: CharType, level: int)
    ensures t.ToLevel() == (if Has(t, RTL_BIT) then 1 else 0)
    ensures LevelToDir(level) == (if level % 2 == 0 then LTR else RTL)
    ensures t.NumberToRtl() == (if t == EN || t == AN then RTL else t)
    ensures t.OverrideDir() == (if t == LRO then LTR else if t == RLO then RTL else ON)
  {
    QueriesTestMasks(t);
  }
}
