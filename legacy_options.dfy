/**
  * The flat option record of the legacy layout (src/bb-chord-symbol-options.ts),
  * with its defaults. All lengths are in units of the font size.
  */
module LegacyOptions {

  datatype ChordSymbolOptions = ChordSymbolOptions(
    descriptorHorizontalInset: real,
    descriptorVerticalOffset: real,
    extensionsVerticalMargin: real,
    showParentheses: bool,
    parenthesesInset: real,
    parenthesesYOffset: real,
    parenthesesMargin: real,
    separatorLeftInset: real,
    separatorRightInset: real,
    separatorYOffset: real,
    bassYOffset: real)

  const DefaultChordSymbol := ChordSymbolOptions(0.05, 0.3, 0.1, true, 0.1, -0.1, 0.4, 0.15, 0.05, 0.3, 0.1)

  /** The defaults of the legacy `BbChordSymbolOptions`. */
  lemma ChordSymbolDefaults()
    ensures DefaultChordSymbol.descriptorHorizontalInset == 0.05
    ensures DefaultChordSymbol.descriptorVerticalOffset == 0.3
    ensures DefaultChordSymbol.extensionsVerticalMargin == 0.1
    ensures DefaultChordSymbol.showParentheses
    ensures DefaultChordSymbol.parenthesesInset == 0.1
    ensures DefaultChordSymbol.parenthesesYOffset == -0.1
    ensures DefaultChordSymbol.parenthesesMargin == 0.4
    ensures DefaultChordSymbol.separatorLeftInset == 0.15
    ensures DefaultChordSymbol.separatorRightInset == 0.05
    ensures DefaultChordSymbol.separatorYOffset == 0.3
    ensures DefaultChordSymbol.bassYOffset == 0.1
  {
  }
}
