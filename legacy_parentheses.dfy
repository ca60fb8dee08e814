/**
  * The legacy parentheses options (src/bb-chord-symbol-parentheses-options.ts):
  * the three glyph types, the records with their defaults, and the
  * membership tests on the opening and closing glyphs.
  */
module LegacyParentheses {

  datatype ParenthesisType = Parenthesis | Bracket | Brace {
    /** The numeric value of the enum member. */
    function Ordinal(): nat {
      match this
      case Parenthesis => 0
      case Bracket => 1
      case Brace => 2
    }
  }

  datatype ParenthesisOptions = ParenthesisOptions(inset: real, yOffset: real)

  datatype ParenthesesOptions = ParenthesesOptions(
    show: bool,
    kind: ParenthesisType,
    scale: real,
    right: ParenthesisOptions,
    left: ParenthesisOptions)

  const DefaultParenthesis := ParenthesisOptions(0.2, 0.0)

  const DefaultParentheses := ParenthesesOptions(true, Parenthesis, 1.2, DefaultParenthesis, DefaultParenthesis)

  /** `BbParenthesisUtil.opening`, indexed by the type's value. */
  const Opening: seq<string> := ["(", "[", "{"]

  /** `BbParenthesisUtil.closing`, indexed by the type's value. */
  const Closing: seq<string> := [")", "]", "}"]

  /** `isOpening`: the text is one of the opening glyphs. */
  function IsOpening(text: string): (r: bool)
    ensures r <==> text == "(" || text == "[" || text == "{"
  {
    text in Opening
  }

  /** `isClosing`: the text is one of the closing glyphs. */
  function IsClosing(text: string): (r: bool)
    ensures r <==> text == ")" || text == "]" || text == "}"
  {
    text in Closing
  }

  /** No text both opens and closes. */
  lemma OpeningClosingDisjoint(text: string)
    ensures !(IsOpening(text) && IsClosing(text))
  {
  }

  /** Each type's glyphs: the opening one opens and the closing one closes. */
  lemma GlyphsOfType(t: ParenthesisType)
    ensures t.Ordinal() < |Opening| && t.Ordinal() < |Closing|
    ensures IsOpening(Opening[t.Ordinal()]) && IsClosing(Closing[t.Ordinal()])
  {
  }

  /** The defaults: shown, round parentheses, scaled by 1.2, inset 0.2, no offset. */
  lemma ParenthesesDefaults()
    ensures DefaultParentheses.show && DefaultParentheses.kind.Ordinal() == 0
    ensures DefaultParentheses.scale == 1.2
    ensures DefaultParentheses.left == DefaultParentheses.right == ParenthesisOptions(0.2, 0.0)
    ensures Bracket.Ordinal() == 1 && Brace.Ordinal() == 2
  {
  }
}
