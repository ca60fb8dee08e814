/**
  * The option records the current layout reads
  * (packages/format/src/chord-symbol/), with their defaults. Each record is
  * a value here: a `new` default record is the default value, and the
  * separate `left` and `right` instances are two equal values.
  */
module FormatOptions {

  /** One side of the parentheses: horizontal inset and vertical offset, in glyph units. */
  datatype ParenthesisOptions = ParenthesisOptions(inset: real, yOffset: real)

  /**
    * The parentheses around the extensions. `kind` is the source's `type`
    * string: its first character is the opening glyph, its second the
    * closing one.
    */
  datatype ParenthesesOptions = ParenthesesOptions(
    show: bool,
    kind: string,
    scale: real,
    right: ParenthesisOptions,
    left: ParenthesisOptions)
  {
    /** The documented requirement on `type`: at least two characters. */
    predicate Valid() { |kind| >= 2 }

    function Opening(): string requires Valid() { [kind[0]] }

    function Closing(): string requires Valid() { [kind[1]] }
  }

  /** The '/' between the chord and its bass note. */
  datatype SeparatorOptions = SeparatorOptions(
    yOffset: real,
    leftInset: real,
    rightInset: real,
    angle: real,
    scaleX: real,
    scaleY: real)

  datatype ChordSymbolOptions = ChordSymbolOptions(
    descriptorHorizontalInset: real,
    descriptorVerticalOffset: real,
    extensionsVerticalMargin: real,
    parentheses: ParenthesesOptions,
    separator: SeparatorOptions,
    bassYOffset: real,
    useMinusSignForMinorChords: bool)
  {
    predicate Valid() { parentheses.Valid() }
  }

  /**
    * The per-side default. The inset is 0.0, though the field's
    * documentation gives 0.2.
    */
  const DefaultParenthesis := ParenthesisOptions(0.0, 0.0)

  const DefaultParentheses := ParenthesesOptions(true, "()", 1.2, DefaultParenthesis, DefaultParenthesis)

  /** The separator drawn upright: the default angle is 0 radians. */
  const DefaultSeparator := SeparatorOptions(0.1, 0.15, 0.1, 0.0, 0.8, 1.3)

  const DefaultChordSymbol := ChordSymbolOptions(0.0, 0.35, 0.05, DefaultParentheses, DefaultSeparator, 0.27, true)

  /** The defaults of `BbChordSymbolOptions`. */
  lemma ChordSymbolDefaults()
    ensures DefaultChordSymbol.descriptorHorizontalInset == 0.0
    ensures DefaultChordSymbol.descriptorVerticalOffset == 0.35
    ensures DefaultChordSymbol.extensionsVerticalMargin == 0.05
    ensures DefaultChordSymbol.bassYOffset == 0.27
    ensures DefaultChordSymbol.useMinusSignForMinorChords
    ensures DefaultChordSymbol.parentheses == DefaultParentheses
    ensures DefaultChordSymbol.separator == DefaultSeparator
    ensures DefaultChordSymbol.Valid()
  {
  }

  /** The defaults of the parentheses records: shown, round, scaled by 1.2, no inset or offset. */
  lemma ParenthesesDefaults()
    ensures DefaultParentheses.show && DefaultParentheses.scale == 1.2
    ensures DefaultParentheses.Valid()
    ensures DefaultParentheses.Opening() == "(" && DefaultParentheses.Closing() == ")"
    ensures DefaultParentheses.left == DefaultParentheses.right == ParenthesisOptions(0.0, 0.0)
  {
  }

  /** The defaults of `BbSeparatorOptions`. */
  lemma SeparatorDefaults()
    ensures DefaultSeparator.yOffset == 0.1
    ensures DefaultSeparator.leftInset == 0.15 && DefaultSeparator.rightInset == 0.1
    ensures DefaultSeparator.angle == 0.0
    ensures DefaultSeparator.scaleX == 0.8 && DefaultSeparator.scaleY == 1.3
  {
  }
}
