/** Bidirectional character types of Unicode Standard Annex #9 and the queries
    fribidi-bidi-types.h defines on them.  The masks of the header become predicates. */
module BidiTypes {

  datatype CharType =
    | LTR | RTL | AL
    | LRE | RLE | LRO | RLO | PDF
    | EN | AN | ES | ET | CS | NSM | BN
    | BS | SS | WS | ON
    | LRI | RLI | FSI | PDI
    | WLTR | WRTL   // weak paragraph directions, never the type of a character
    | Sentinel      // start or end of a run list
  {
    predicate IsRtl() { RTL? || AL? || RLE? || RLO? || RLI? || WRTL? }
    predicate IsStrong() { LTR? || RTL? || AL? || LRE? || RLE? || LRO? || RLO? }
    predicate IsLetter() { LTR? || RTL? || AL? }
    predicate IsNeutral() { BS? || SS? || WS? || ON? || IsIsolate() }
    predicate IsNumber() { EN? || AN? }
    predicate IsNumberSeparatorOrTerminator() { ES? || ET? || CS? }
    predicate IsEsOrCs() { ES? || CS? }
    predicate IsExplicit() { LRE? || RLE? || LRO? || RLO? || PDF? }
    predicate IsOverride() { LRO? || RLO? }
    predicate IsIsolate() { LRI? || RLI? || FSI? || PDI? }
    predicate IsSeparator() { BS? || SS? }
    predicate IsExplicitOrBn() { IsExplicit() || BN? }
    predicate IsExplicitOrBnOrNsm() { IsExplicitOrBn() || NSM? }
    predicate IsExplicitOrBnOrWs() { IsExplicitOrBn() || WS? }
    predicate IsExplicitOrSeparatorOrBnOrWs() { IsExplicitOrBnOrWs() || IsSeparator() }

    /** FRIBIDI_DIR_TO_LEVEL */
    function ToLevel(): int { if IsRtl() then 1 else 0 }

    /** FRIBIDI_EXPLICIT_TO_OVERRIDE_DIR */
    function OverrideDir(): CharType { if IsOverride() then LevelToDir(ToLevel()) else ON }

    /** FRIBIDI_CHANGE_NUMBER_TO_RTL */
    function NumberToRtl(): CharType { if IsNumber() then RTL else this }
  }

  const MAX_EXPLICIT_LEVEL := 125
  const MAX_RESOLVED_LEVELS := 127
  const SENTINEL_LEVEL := -1

  predicate LevelIsRtl(level: int) { level % 2 == 1 }

  /** FRIBIDI_LEVEL_TO_DIR */
  function LevelToDir(level: int): CharType { if LevelIsRtl(level) then RTL else LTR }

  function Max(a: int, b: int): int { if a > b then a else b }
}
