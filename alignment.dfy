/** The alignment tokens of a style element and their resolution. */
module Alignments {

  datatype Alignment = Left | Right | Center

  /**
   * Resolves an `alignment` token. Only the exact lower-case tokens are
   * recognised; every other string, the empty one included, is Center.
   */
  function GetAlignment(token: string): (a: Alignment)
    ensures a == Left <==> token == "left"
    ensures a == Right <==> token == "right"
    ensures a == Center <==> token != "left" && token != "right"
  {
    if token == "left" then Left
    else if token == "right" then Right
    else if token == "center" then Center
    else Center
  }

  /** The token a theme file writes for each alignment. */
  function Token(a: Alignment): string
  {
    match a
    case Left => "left"
    case Right => "right"
    case Center => "center"
  }

  /** Every alignment has a token that resolves back to it. */
  lemma TokenRoundTrip(a: Alignment)
    ensures GetAlignment(Token(a)) == a
  {
  }

  /** The match is case-sensitive and the empty token falls back to Center. */
  lemma AlignmentExamples()
    ensures GetAlignment("RIGHT") == Center
    ensures GetAlignment("Left") == Center
    ensures GetAlignment("") == Center
    ensures GetAlignment("center") == Center
  {
  }
}
