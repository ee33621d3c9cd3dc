/** Blank text, as JavaScript's `trim` understands it: white space and line terminators only. */
module BlankText {

  predicate IsBlankChar(c: char)
  {
    || c in {' ', '\t', '\n', '\r', '\U{B}', '\U{C}', '\U{A0}', '\U{1680}', '\U{2028}', '\U{2029}'}
    || '\U{2000}' <= c <= '\U{200A}'
    || c in {'\U{202F}', '\U{205F}', '\U{3000}', '\U{FEFF}'}
  }

  /** `text.trim().length === 0`. */
  predicate Blank(text: string)
  {
    forall i :: 0 <= i < |text| ==> IsBlankChar(text[i])
  }
}
