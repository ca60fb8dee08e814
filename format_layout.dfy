/**
  * The methods of the chord-symbol layout engine
  * (packages/format/src/bb-format.ts). Each `Layout...` method appends
  * fragments to the list it is given and returns the list with the new
  * cursor, as the source's methods push onto a shared array and return the
  * cursor; each is proved to produce what the matching function of Format
  * describes.
  */
module FormatLayout {
  import opened Wrappers
  import opened BoundingBoxes
  import opened Canvas
  import opened TextFragment
  import opened FormatUtil
  import opened FormatOptions
  import opened Format
  import FormatText

  /** `layoutParenthesis`: the parenthesis placed from the cursor, and the cursor moved past it. */
  method LayoutParenthesis(opts: ChordSymbolOptions, measure: Measure, text: string, currentX: real,
                           fragments: seq<Fragment>, top: real, height: real, opening: bool)
    returns (fs: seq<Fragment>, nextX: real)
    requires measure(text).Height() != 0.0
    ensures fs == fragments + [ParenFragment(opts, measure, text, ParenX(opts, measure, text, currentX, opening), top, height, opening)]
    ensures nextX == ParenNextX(opts, measure, text, currentX, opening)
  {
    var metrics := measure(text);
    var x := currentX;
    if !opening {
      x := x - metrics.width * opts.parentheses.right.inset;
    }
    assert x == ParenX(opts, measure, text, currentX, opening);
    fs := fragments + [ParenFragment(opts, measure, text, x, top, height, opening)];
    if opening {
      x := x - metrics.width * opts.parentheses.left.inset;
    }
    nextX := x + metrics.width;
  }

  /** `layoutRoot`: the root at the origin; the cursor ends one inset short of its width. */
  method LayoutRoot(opts: ChordSymbolOptions, measure: Measure, root: string, fragments: seq<Fragment>, fontSize: real)
    returns (fs: seq<Fragment>, currentX: real)
    ensures var m := measure(root);
      fs == fragments + [PlaceText(root, m, 0.0, 0.0)] &&
      currentX == Abs(m.width) - fontSize * opts.descriptorHorizontalInset
  {
    var m := measure(root);
    var r := NewFragment(root, FromHW(m.actualBoundingBoxAscent + m.actualBoundingBoxDescent, m.width), m.actualBoundingBoxAscent);
    fs := fragments + [r];
    currentX := r.bbox.Width() - fontSize * opts.descriptorHorizontalInset;
  }

  /**
    * `layoutDescriptor`: measured as given, stored substituted once more,
    * placed one inset left of the cursor and raised by the vertical offset;
    * `center` is the vertical middle of its box.
    */
  method LayoutDescriptor(opts: ChordSymbolOptions, measure: Measure, descriptor: string, currentX: real,
                          fragments: seq<Fragment>, fontSize: real)
    returns (fs: seq<Fragment>, nextX: real, center: real)
    ensures var d := DescriptorFragment(opts, measure, descriptor, currentX, fontSize);
      fs == fragments + [d] &&
      nextX == currentX + measure(descriptor).width - fontSize * opts.descriptorHorizontalInset &&
      center == (d.bbox.y1 + d.bbox.y2) * 0.5
  {
    var m := measure(descriptor);
    var inset := fontSize * opts.descriptorHorizontalInset;
    var bbox := FromHW(m.actualBoundingBoxAscent + m.actualBoundingBoxDescent, m.width, currentX - inset,
                       -fontSize * opts.descriptorVerticalOffset);
    var d := NewFragment(ReplaceSharpsFlats(descriptor), bbox, m.actualBoundingBoxAscent);
    assert d == DescriptorFragment(opts, measure, descriptor, currentX, fontSize);
    fs := fragments + [d];
    nextX := currentX + m.width - inset;
    center := bbox.y1 + bbox.Height() * 0.5;
  }

  /** The first loop of `layoutExtensions`: the widest extension and the stack height. */
  method MeasureExtensions(measure: Measure, exts: seq<string>, extMargin: real)
    returns (maxExtWidth: real, totalHeight: real)
    ensures maxExtWidth == MaxWidth(ExtMetrics(measure, exts))
    ensures totalHeight == TotalHeight(ExtMetrics(measure, exts), extMargin)
  {
    ghost var ms := ExtMetrics(measure, exts);
    maxExtWidth := 0.0;
    totalHeight := extMargin * (|exts| - 1) as real;
    ghost var margins := totalHeight;
    assert TotalHeight(ms, extMargin) == margins + SumHeights(ms);
    var i := 0;
    while i < |exts|
      invariant 0 <= i <= |exts|
      invariant maxExtWidth == MaxWidth(ms[..i])
      invariant totalHeight == margins + SumHeights(ms[..i])
    {
      var m := measure(ReplaceSharpsFlats(exts[i]));
      ExtMetricsAt(measure, exts, i);
      MetricsSnoc(ms, i);
      maxExtWidth := Max(maxExtWidth, m.width);
      totalHeight := totalHeight + m.actualBoundingBoxAscent + m.actualBoundingBoxDescent;
      i := i + 1;
    }
    assert ms[..i] == ms;
  }

  /** Measuring one more extension: the running maximum and sum each take in its metrics. */
  lemma MetricsSnoc(ms: seq<TextMetrics>, i: nat)
    requires i < |ms|
    ensures MaxWidth(ms[..i + 1]) == Max(MaxWidth(ms[..i]), ms[i].width)
    ensures SumHeights(ms[..i + 1]) == SumHeights(ms[..i]) + ms[i].Height()
  {
    assert ms[..i + 1][..i] == ms[..i];
  }

  /** `addExtension`: one extension at (centred x, currentY); the next one goes below it. */
  method AddExtension(measure: Measure, extension: string, currentX: real, currentY: real,
                      fragments: seq<Fragment>, maxExtWidth: real)
    returns (fs: seq<Fragment>, nextY: real)
    ensures fs == fragments + [ExtFragment(extension, measure(extension), currentX, currentY, maxExtWidth)]
    ensures nextY == currentY + measure(extension).Height()
  {
    var metrics := measure(extension);
    var h := metrics.actualBoundingBoxAscent + metrics.actualBoundingBoxDescent;
    var e := NewFragment(extension, FromHW(h, metrics.width, currentX + (maxExtWidth - metrics.width) * 0.5, currentY),
                         metrics.actualBoundingBoxAscent);
    fs := fragments + [e];
    nextY := currentY + h;
  }

  /** The second loop of `layoutExtensions`: the stack, each extension one margin below the one before. */
  method StackExtensions(measure: Measure, exts: seq<string>, x: real, extTop: real, extMargin: real,
                         fragments: seq<Fragment>, maxExtWidth: real)
    returns (fs: seq<Fragment>)
    ensures fs == fragments + Stack(exts, ExtMetrics(measure, exts), x, extTop, extMargin, maxExtWidth, |exts|)
  {
    ghost var ms := ExtMetrics(measure, exts);
    fs := fragments;
    var currentY := extTop;
    var i := 0;
    while i < |exts|
      invariant 0 <= i <= |exts|
      invariant fs == fragments + Stack(exts, ms, x, extTop, extMargin, maxExtWidth, i)
      invariant currentY == StackTop(ms, extTop, extMargin, i)
    {
      ExtMetricsAt(measure, exts, i);
      fs, currentY := AddExtension(measure, ReplaceSharpsFlats(exts[i]), x, currentY, fs, maxExtWidth);
      currentY := currentY + extMargin;
      i := i + 1;
    }
  }

  /** `layoutExtensions`: the extension group, after the fragments laid out so far. */
  method LayoutExtensions(opts: ChordSymbolOptions, measure: Measure, exts: seq<string>, currentX: real,
                          fragments: seq<Fragment>, fontSize: real, center: real)
    returns (fs: seq<Fragment>, nextX: real)
    requires ParenthesesMeasurable(opts, measure, exts) && |exts| > 0
    ensures fs == fragments + ExtensionGroup(opts, measure, exts, currentX, ExtensionMargin(opts, fontSize), center)
    ensures nextX == ExtensionGroupEnd(opts, measure, exts, currentX)
  {
    var extMargin := ExtensionMargin(opts, fontSize);
    var maxExtWidth, totalHeight := MeasureExtensions(measure, exts, extMargin);
    var isOnlyAlt := |exts| == 1 && exts[0] == "alt";
    var extTop := center - totalHeight * 0.5;
    ghost var ms := ExtMetrics(measure, exts);
    assert extTop == ExtTop(ms, extMargin, center) && totalHeight == TotalHeight(ms, extMargin);
    var x := currentX;
    fs := fragments;
    ghost var opening: seq<Fragment> := [];
    if opts.parentheses.show && !isOnlyAlt {
      fs, x := LayoutParenthesis(opts, measure, opts.parentheses.Opening(), x, fs, extTop, totalHeight, true);
      opening := [ParenFragment(opts, measure, opts.parentheses.Opening(),
                                ParenX(opts, measure, opts.parentheses.Opening(), currentX, true), extTop, totalHeight, true)];
    }
    assert x == ColumnX(opts, measure, exts, currentX);
    ghost var stack := Stack(exts, ms, x, extTop, extMargin, maxExtWidth, |exts|);
    fs := StackExtensions(measure, exts, x, extTop, extMargin, fs, maxExtWidth);
    x := x + maxExtWidth;
    assert x == ColumnEnd(opts, measure, exts, currentX);
    ghost var closing: seq<Fragment> := [];
    if opts.parentheses.show && !isOnlyAlt {
      fs, x := LayoutParenthesis(opts, measure, opts.parentheses.Closing(), x, fs, extTop, totalHeight, false);
      closing := [ParenFragment(opts, measure, opts.parentheses.Closing(),
                                ParenX(opts, measure, opts.parentheses.Closing(), ColumnEnd(opts, measure, exts, currentX), false),
                                extTop, totalHeight, false)];
    }
    assert fs == fragments + opening + stack + closing;
    assert ExtensionGroup(opts, measure, exts, currentX, extMargin, center) == opening + stack + closing;
    Concat4(fragments, opening, stack, closing);
    nextX := x;
  }

  /** Concatenation regrouped. */
  lemma Concat4<T>(a: seq<T>, b: seq<T>, c: seq<T>, d: seq<T>)
    ensures a + b + c + d == a + (b + c + d)
  {
  }

  /** `layoutSeparator`: the separator placed from the cursor, and the cursor moved past it. */
  method LayoutSeparator(opts: ChordSymbolOptions, measure: Measure, text: string, currentX: real,
                         fragments: seq<Fragment>, yOffset: real)
    returns (fs: seq<Fragment>, nextX: real)
    ensures fs == fragments + [SeparatorFragment(opts, measure(text), text, currentX, yOffset)]
    ensures nextX == SeparatorNextX(opts, measure(text), currentX)
  {
    var metrics := measure(text);
    var options := opts.separator;
    var x := currentX - options.leftInset * metrics.width;
    var separator := NewFragment(text, FromHW(metrics.Height() * options.scaleY, metrics.width * options.scaleX, x, yOffset),
                                 metrics.actualBoundingBoxAscent * options.scaleY, options.scaleX, options.scaleY, -options.angle);
    assert separator == SeparatorFragment(opts, metrics, text, currentX, yOffset);
    fs := fragments + [separator];
    nextX := x + metrics.width * options.scaleX - options.rightInset * (metrics.width * options.scaleX);
  }

  /** `layoutBass`: the bass at the cursor, at the given height. */
  method LayoutBass(measure: Measure, bass: string, currentX: real, fragments: seq<Fragment>, yOffset: real)
    returns (fs: seq<Fragment>, nextX: real)
    ensures fs == fragments + [PlaceText(bass, measure(bass), currentX, yOffset)]
    ensures nextX == currentX + measure(bass).width
  {
    var metrics := measure(bass);
    var b := NewFragment(bass, FromHW(metrics.actualBoundingBoxAscent + metrics.actualBoundingBoxDescent, metrics.width,
                                      currentX, yOffset), metrics.actualBoundingBoxAscent);
    fs := fragments + [b];
    nextX := currentX + metrics.width;
  }

  /**
    * `layoutBassChange`: the separator, then the bass right after it and
    * lower by `bassYOffset` font sizes.
    */
  method LayoutBassChange(opts: ChordSymbolOptions, measure: Measure, bassNote: string, currentX: real,
                          fragments: seq<Fragment>, fontSize: real)
    returns (fs: seq<Fragment>, nextX: real)
    ensures fs == fragments + BassChange(opts, measure, bassNote, currentX, fontSize)
    ensures nextX == SeparatorNextX(opts, measure("/"), currentX) + measure(bassNote).width
  {
    var yOffset := fontSize * opts.separator.yOffset;
    var x;
    fs, x := LayoutSeparator(opts, measure, "/", currentX, fragments, yOffset);
    fs, nextX := LayoutBass(measure, bassNote, x, fs, yOffset + opts.bassYOffset * fontSize);
    ghost var sep := SeparatorFragment(opts, measure("/"), "/", currentX, yOffset);
    ghost var b := PlaceText(bassNote, measure(bassNote), SeparatorNextX(opts, measure("/"), currentX),
                             yOffset + opts.bassYOffset * fontSize);
    assert BassChange(opts, measure, bassNote, currentX, fontSize)[0] == sep;
    assert BassChange(opts, measure, bassNote, currentX, fontSize)[1] == b;
    assert BassChange(opts, measure, bassNote, currentX, fontSize) == [sep, b];
    assert fs == fragments + [sep, b];
  }

  /**
    * The folding as `layoutChordSymbol` does it, reassigning the root and
    * the descriptor in place.
    */
  method FoldQualityInPlace(useMinus: bool, rootNote: string, chordDescriptor: string) returns (root: string, descriptor: string)
    ensures (root, descriptor) == FoldQuality(useMinus, rootNote, chordDescriptor)
  {
    root, descriptor := rootNote, chordDescriptor;
    if descriptor != "" {
      if useMinus {
        if descriptor == "mi" || descriptor == "-" || descriptor == "min" {
          descriptor := "";
          root := root + "-";
        } else if StartsWith(descriptor, "mi") {
          descriptor := ReplaceFirst(descriptor, "mi", "-");
        } else if StartsWith(descriptor, "min") {
          descriptor := ReplaceFirst(descriptor, "min", "-");
        }
      }
      if descriptor == "+" {
        descriptor := "";
        root := root + "+";
      }
    }
  }

  /**
    * `layoutChordSymbol`: nothing when the chord could not be parsed or
    * rendered; otherwise the fragments laid out with the font size read
    * from the context's font, gathered into a text.
    */
  method LayoutChordSymbol(opts: ChordSymbolOptions, measure: Measure, font: string, chord: Option<FormattedChord>)
    returns (text: Option<FormatText.BbText>)
    requires chord.Some? ==> HasContent(chord.value) && ParenthesesMeasurable(opts, measure, chord.value.chordChanges)
    ensures chord.None? <==> text.None?
    ensures text.Some? ==> fresh(text.value) && text.value.Valid()
    ensures text.Some? ==> Texts(text.value.fragments) == ExpectedTexts(opts, chord.value)
    ensures text.Some? ==> text.value.bbox.x1 == 0.0 && text.value.bbox.y1 == 0.0
    ensures text.Some? ==> text.value.fragments == ChordFragments(opts, measure, GetContextFontSize(font) as real, chord.value)
  {
    if chord.None? {
      return None;
    }
    var fontSize := GetContextFontSize(font) as real;
    var fragments := LayoutFragments(opts, measure, fontSize, chord.value);
    ExpectedTextsNonEmpty(opts, chord.value);
    var t := new FormatText.BbText(fragments);
    text := Some(t);
  }

  /**
    * The body of `layoutChordSymbol` once the chord is rendered: fold the
    * quality, then lay out the stages, each from where the previous one
    * left the cursor.
    */
  method LayoutFragments(opts: ChordSymbolOptions, measure: Measure, fontSize: real, chord: FormattedChord)
    returns (fragments: seq<Fragment>)
    requires ParenthesesMeasurable(opts, measure, chord.chordChanges)
    ensures fragments == ChordFragments(opts, measure, fontSize, chord)
    ensures Texts(fragments) == ExpectedTexts(opts, chord)
  {
    var root, descriptor := FoldQualityInPlace(opts.useMinusSignForMinorChords, chord.rootNote, chord.descriptor);
    fragments := LayoutParts(opts, measure, fontSize, root, descriptor, chord.chordChanges, chord.bassNote);
    assert root == FoldQuality(opts.useMinusSignForMinorChords, chord.rootNote, chord.descriptor).0;
    assert descriptor == FoldQuality(opts.useMinusSignForMinorChords, chord.rootNote, chord.descriptor).1;
  }

  /** The root, the descriptor, the extensions and the bass change, threading the cursor. */
  method LayoutParts(opts: ChordSymbolOptions, measure: Measure, fontSize: real,
                     root: string, descriptor: string, extensions: seq<string>, bass: string)
    returns (fragments: seq<Fragment>)
    requires ParenthesesMeasurable(opts, measure, extensions)
    ensures var r := RootStage(opts, measure, fontSize, root);
      var d := DescriptorStage(opts, measure, fontSize, descriptor, r.1);
      var e := ExtensionStage(opts, measure, ExtensionMargin(opts, fontSize), extensions, d.1, d.2);
      fragments == r.0 + d.0 + e.0 + BassStage(opts, measure, fontSize, bass, e.1)
  {
    var currentX, center;
    fragments, currentX := LayoutRootStage(opts, measure, fontSize, root);
    fragments, currentX, center := LayoutDescriptorStage(opts, measure, fontSize, descriptor, fragments, currentX);
    fragments, currentX := LayoutExtensionStage(opts, measure, fontSize, extensions, fragments, currentX, center);
    fragments := LayoutBassStage(opts, measure, fontSize, bass, fragments, currentX);
  }

  /** The root at the origin, when there is a root. */
  method LayoutRootStage(opts: ChordSymbolOptions, measure: Measure, fontSize: real, root: string)
    returns (fragments: seq<Fragment>, currentX: real)
    ensures fragments == RootStage(opts, measure, fontSize, root).0
    ensures currentX == RootStage(opts, measure, fontSize, root).1
  {
    fragments, currentX := [], 0.0;
    if root != "" {
      fragments, currentX := LayoutRoot(opts, measure, ReplaceSharpsFlats(root), fragments, fontSize);
      assert fragments == [PlaceText(ReplaceSharpsFlats(root), measure(ReplaceSharpsFlats(root)), 0.0, 0.0)];
    }
  }

  /** The descriptor from the cursor, when there is one, and the centre line it sets. */
  method LayoutDescriptorStage(opts: ChordSymbolOptions, measure: Measure, fontSize: real, descriptor: string,
                               before: seq<Fragment>, x: real)
    returns (fragments: seq<Fragment>, currentX: real, center: real)
    ensures var d := DescriptorStage(opts, measure, fontSize, descriptor, x);
      fragments == before + d.0 && currentX == d.1 && center == d.2
  {
    fragments, currentX, center := before, x, 0.0;
    if descriptor != "" {
      fragments, currentX, center :=
        LayoutDescriptor(opts, measure, ReplaceSharpsFlats(descriptor), currentX, fragments, fontSize);
    }
  }

  /** The extension group, when there are extensions. */
  method LayoutExtensionStage(opts: ChordSymbolOptions, measure: Measure, fontSize: real, extensions: seq<string>,
                              before: seq<Fragment>, x: real, center: real)
    returns (fragments: seq<Fragment>, currentX: real)
    requires ParenthesesMeasurable(opts, measure, extensions)
    ensures var e := ExtensionStage(opts, measure, ExtensionMargin(opts, fontSize), extensions, x, center);
      fragments == before + e.0 && currentX == e.1
  {
    fragments, currentX := before, x;
    if |extensions| > 0 {
      fragments, currentX := LayoutExtensions(opts, measure, extensions, currentX, fragments, fontSize, center);
    }
  }

  /** The bass change, when there is a bass note. */
  method LayoutBassStage(opts: ChordSymbolOptions, measure: Measure, fontSize: real, bass: string,
                         before: seq<Fragment>, x: real)
    returns (fragments: seq<Fragment>)
    ensures fragments == before + BassStage(opts, measure, fontSize, bass, x)
  {
    fragments := before;
    if bass != "" {
      var currentX;
      fragments, currentX := LayoutBassChange(opts, measure, ReplaceSharpsFlats(bass), x, fragments, fontSize);
    }
  }
}
