/** Two small engines and a host for concrete inputs: text is compared as it is, case
    is folded and a bare LIKE read as each driver does. */
module SampleEngines {
  import opened Wrappers
  import opened SqlText
  import opened Filters
  import P = SqlParser
  import LikePattern

  function LowerLetter(c: char): char {
    if 'A' <= c <= 'Z' then (c as int + 32) as char else c
  }

  /** An accented capital besides. */
  function LowerAccented(c: char): char {
    if c == '\U{C9}' then '\U{E9}' else LowerLetter(c)
  }

  function TextOf(v: GoValue): string {
    match v case Str(s) => s case _ => ""
  }

  function Compared(sign: string, x: GoValue, y: GoValue): bool {
    if sign == "=" then x == y else sign == "!=" && x != y
  }

  /** Case-sensitive LIKE that a backslash escapes, and a fold beyond A to Z. */
  const PG := P.Engine(Compared, TextOf, LowerAccented, c => c, Some(LikePattern.ESC),
                       (doc, key) => Nil, (doc, path) => Nil, v => Str(TextOf(v)), (doc, lit) => false, (doc, lit) => false)

  /** LIKE and LOWER fold the letters A to Z, and nothing escapes. */
  const LITE := PG.(lower := LowerLetter, likeFold := LowerLetter, likeEscape := None)

  /** Values are bound as they come and encoded as themselves; strings only. */
  const HOST := Host(TextOf, s => [s], (kind, op, v) => v, (v: GoValue) => if v.Str? then Some(v.s) else None, (k, v) => Some(v))

  lemma SamplesAreLawful()
    ensures PG.Lawful() && LITE.Lawful()
  {
  }
}
