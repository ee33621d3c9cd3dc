/** Squares and the canonical spelling of a UCI move. */
module UciText {

  predicate IsSquare(text: string)
  {
    |text| == 2 && 'a' <= text[0] <= 'h' && '1' <= text[1] <= '8'
  }

  type Square = s: string | IsSquare(s) witness "a1"

  /** `^[a-h][1-8][a-h][1-8][qrbn]?$`. */
  predicate CanonicalUci(uci: string)
  {
    && 4 <= |uci| <= 5 && IsSquare(uci[..2]) && IsSquare(uci[2..4])
    && (|uci| == 5 ==> uci[4] in {'q', 'r', 'b', 'n'})
  }
}
