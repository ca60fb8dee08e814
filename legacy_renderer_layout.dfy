/**
  * The methods of the legacy chord-symbol layout (src/bb-renderer.ts).
  * Each `Add...` method appends fragments to the list it is given and
  * returns the list with the new cursor, as the source's methods push onto
  * a shared array and return the cursor; each is proved to produce what
  * the matching function of Renderer describes.
  */
module RendererLayout {
  import opened Wrappers
  import opened BoundingBoxes
  import opened Canvas
  import opened TextFragment
  import opened FormatUtil
  import opened LegacyOptions
  import opened Renderer
  import Format
  import FormatLayout
  import LegacyText

  /** `addRoot`: the root at the origin; the cursor it was given is not used. */
  method AddRoot(opts: ChordSymbolOptions, measure: Measure, rootNote: string, currentX: real, fontSize: real,
                 fragments: seq<Fragment>)
    returns (fs: seq<Fragment>, nextX: real)
    ensures fs == fragments + [RootFragment(measure, rootNote)]
    ensures nextX == measure(rootNote).width - fontSize * opts.descriptorHorizontalInset
  {
    var metrics := measure(rootNote);
    var root := NewFragment(ReplaceSharpsFlats(rootNote),
                            FromHW(metrics.actualBoundingBoxAscent + metrics.actualBoundingBoxDescent, metrics.width, 0.0, 0.0));
    fs := fragments + [root];
    nextX := metrics.width - fontSize * opts.descriptorHorizontalInset;
  }

  /**
    * `addBass`: the separator and then the bass pushed after the others
    * (placed as `SeparatorFragment` and `BassFragment` describe); the
    * cursor returned depends on the bass width only.
    */
  method AddBass(opts: ChordSymbolOptions, measure: Measure, bassNote: string, currentX: real, fontSize: real,
                 fragments: seq<Fragment>)
    returns (fs: seq<Fragment>, nextX: real)
    ensures fs == fragments + [SeparatorFragment(opts, measure, fontSize, currentX),
                               BassFragment(opts, measure, fontSize, bassNote, currentX)]
    ensures nextX == measure(bassNote).width - fontSize * opts.descriptorHorizontalInset
  {
    var sep := SeparatorFragment(opts, measure, fontSize, currentX);
    fs := fragments + [sep];
    var bass := BassFragment(opts, measure, fontSize, bassNote, currentX);
    nextX := measure(bassNote).width - fontSize * opts.descriptorHorizontalInset;
    fs := fs + [bass];
  }

  /** `addDescriptor`: the descriptor one inset left of the cursor; the cursor moves by its width less the inset. */
  method AddDescriptor(opts: ChordSymbolOptions, measure: Measure, descriptor: string, currentX: real, fontSize: real,
                       fragments: seq<Fragment>)
    returns (fs: seq<Fragment>, nextX: real)
    ensures fs == fragments + [DescriptorFragment(opts, measure, fontSize, descriptor, currentX)]
    ensures nextX == currentX + measure(descriptor).width - fontSize * opts.descriptorHorizontalInset
  {
    var metrics := measure(descriptor);
    var inset := fontSize * opts.descriptorHorizontalInset;
    var d := NewFragment(ReplaceSharpsFlats(descriptor),
                         FromHW(metrics.actualBoundingBoxAscent + metrics.actualBoundingBoxDescent, metrics.width,
                                currentX - inset, -fontSize * opts.descriptorVerticalOffset));
    assert d == DescriptorFragment(opts, measure, fontSize, descriptor, currentX);
    fs := fragments + [d];
    nextX := currentX + metrics.width - inset;
  }

  /**
    * `addParenthesis`: the parenthesis fragment (built as `ParenFragment`
    * describes) pushed after the others, and the cursor moved past it.
    */
  method AddParenthesis(opts: ChordSymbolOptions, measure: Measure, text: string, fontSize: real, currentX: real,
                        qualityOffsetY: real, height: real, fragments: seq<Fragment>)
    returns (fs: seq<Fragment>, nextX: real)
    requires measure(text).Height() != 0.0
    ensures fs == fragments + [ParenFragment(opts, measure(text), fontSize, text, currentX, qualityOffsetY, height)]
    ensures nextX == ParenNextX(opts, measure, fontSize, text, currentX)
  {
    var metrics := measure(text);
    var parenthesis := ParenFragment(opts, metrics, fontSize, text, currentX, qualityOffsetY, height);
    fs := fragments + [parenthesis];
    if text == "(" {
      nextX := currentX + metrics.width - fontSize * opts.parenthesesInset;
    } else {
      nextX := currentX + metrics.width;
    }
  }

  /** The first loop of `addExtensions`: the natural box of each extension and the widest width. */
  method MeasureExtensions(measure: Measure, extensions: seq<string>) returns (boxes: seq<Box>, maxExtWidth: real)
    ensures boxes == NaturalBoxes(ExtMetrics(measure, extensions))
    ensures maxExtWidth == Format.MaxWidth(ExtMetrics(measure, extensions))
  {
    ghost var ms := ExtMetrics(measure, extensions);
    boxes, maxExtWidth := [], 0.0;
    var i := 0;
    while i < |extensions|
      invariant 0 <= i <= |extensions|
      invariant boxes == NaturalBoxes(ms[..i])
      invariant maxExtWidth == Format.MaxWidth(ms[..i])
    {
      var metrics := measure(extensions[i]);
      ExtMetricsAt(measure, extensions, i);
      FormatLayout.MetricsSnoc(ms, i);
      assert ms[..i + 1][..i] == ms[..i];
      boxes := boxes + [FromHW(metrics.actualBoundingBoxAscent + metrics.actualBoundingBoxDescent, metrics.width)];
      maxExtWidth := Max(maxExtWidth, metrics.width);
      i := i + 1;
    }
    assert ms[..i] == ms;
  }

  /** The second loop of `addExtensions`: the stack height, margins included. */
  method SumHeights(boxes: seq<Box>, extMargin: real) returns (height: real)
    ensures height == StackHeight(boxes, extMargin)
  {
    height := extMargin * (|boxes| - 1) as real;
    ghost var margins := height;
    var i := 0;
    while i < |boxes|
      invariant 0 <= i <= |boxes|
      invariant height == margins + BoxHeights(boxes[..i])
    {
      assert boxes[..i + 1][..i] == boxes[..i];
      height := height + boxes[i].Height();
      i := i + 1;
    }
    assert boxes[..i] == boxes;
  }

  /**
    * The third loop of `addExtensions`: each natural box moved into the
    * column and to the running top, which then moves one box and one margin
    * down.
    */
  method StackExtensions(extensions: seq<string>, boxes: seq<Box>, x: real, top: real, extMargin: real,
                         maxExtWidth: real, fragments: seq<Fragment>)
    returns (fs: seq<Fragment>)
    requires |boxes| == |extensions|
    ensures fs == fragments + Stack(extensions, boxes, x, top, extMargin, maxExtWidth, |extensions|)
  {
    fs := fragments;
    var currentY := top;
    var index := 0;
    while index < |extensions|
      invariant 0 <= index <= |extensions|
      invariant fs == fragments + Stack(extensions, boxes, x, top, extMargin, maxExtWidth, index)
      invariant currentY == StackTop(boxes, top, extMargin, index)
    {
      var box := boxes[index];
      box := WithX(box, x + (maxExtWidth - boxes[index].Width()) * 0.5);
      box := WithY(box, currentY);
      var ext := NewFragment(ReplaceSharpsFlats(extensions[index]), box);
      currentY := currentY + box.Height() + extMargin;
      fs := fs + [ext];
      index := index + 1;
    }
  }

  /**
    * The stack of `addExtensions` in the column starting at `x`, with the
    * measured boxes, the widest width and the first top computed before;
    * the cursor moves to the column's right edge.
    */
  method PlaceStack(opts: ChordSymbolOptions, measure: Measure, extensions: seq<string>, fontSize: real,
                    currentX: real, extMargin: real, qualityOffsetY: real, boxes: seq<Box>, maxExtWidth: real,
                    top: real, x: real, fragments: seq<Fragment>)
    returns (fs: seq<Fragment>, nextX: real)
    requires |extensions| > 0
    requires boxes == NaturalBoxes(ExtMetrics(measure, extensions))
    requires maxExtWidth == Format.MaxWidth(ExtMetrics(measure, extensions))
    requires top == FirstTop(boxes, extMargin, qualityOffsetY)
    requires x == ColumnX(opts, measure, fontSize, currentX)
    ensures fs == fragments + GroupStack(opts, measure, fontSize, extMargin, qualityOffsetY, extensions, currentX)
    ensures nextX == ColumnEnd(opts, measure, fontSize, extensions, currentX)
  {
    fs := StackExtensions(extensions, boxes, x, top, extMargin, maxExtWidth, fragments);
    nextX := x + maxExtWidth;
  }

  /** The extension group is the opening parenthesis, the stack and the closing one, each when present. */
  lemma GroupPieces(opts: ChordSymbolOptions, measure: Measure, fontSize: real, margin: real, offset: real,
                    exts: seq<string>, currentX: real, height: real,
                    opening: seq<Fragment>, stack: seq<Fragment>, closing: seq<Fragment>)
    requires ParenthesesMeasurable(opts, measure, exts) && |exts| > 0
    requires height == GroupHeight(measure, margin, exts)
    requires opening == if opts.showParentheses then [ParenFragment(opts, measure("("), fontSize, "(", currentX, offset, height)] else []
    requires stack == GroupStack(opts, measure, fontSize, margin, offset, exts, currentX)
    requires closing == if opts.showParentheses
                        then [ParenFragment(opts, measure(")"), fontSize, ")", ColumnEnd(opts, measure, fontSize, exts, currentX), offset, height)]
                        else []
    ensures ExtensionGroup(opts, measure, fontSize, margin, offset, exts, currentX) == opening + stack + closing
  {
  }

  /** `addExtensions`: the extension group, after the fragments laid out so far. */
  method AddExtensions(opts: ChordSymbolOptions, measure: Measure, extensions: seq<string>, fontSize: real,
                       currentX: real, fragments: seq<Fragment>)
    returns (fs: seq<Fragment>, nextX: real)
    requires ParenthesesMeasurable(opts, measure, extensions) && |extensions| > 0
    ensures fs == fragments + ExtensionGroup(opts, measure, fontSize, ExtensionMargin(opts, fontSize),
                                             DescriptorOffset(opts, fontSize), extensions, currentX)
    ensures nextX == ExtensionGroupEnd(opts, measure, fontSize, extensions, currentX)
  {
    var boxes, maxExtWidth := MeasureExtensions(measure, extensions);
    var extMargin := ExtensionMargin(opts, fontSize);
    var height := SumHeights(boxes, extMargin);
    var qualityOffsetY := DescriptorOffset(opts, fontSize);
    assert height == GroupHeight(measure, extMargin, extensions);
    var currentY := -qualityOffsetY + (boxes[0].Height() - height) * 0.5;
    assert currentY == FirstTop(boxes, extMargin, qualityOffsetY);
    var x := currentX;
    fs := fragments;
    ghost var opening: seq<Fragment> := [];
    if opts.showParentheses {
      fs, x := AddParenthesis(opts, measure, "(", fontSize, x, qualityOffsetY, height, fs);
      opening := [ParenFragment(opts, measure("("), fontSize, "(", currentX, qualityOffsetY, height)];
    }
    assert fs == fragments + opening;
    fs, x := PlaceStack(opts, measure, extensions, fontSize, currentX, extMargin, qualityOffsetY, boxes, maxExtWidth,
                        currentY, x, fs);
    ghost var stack := GroupStack(opts, measure, fontSize, extMargin, qualityOffsetY, extensions, currentX);
    assert fs == fragments + opening + stack;
    ghost var closing: seq<Fragment> := [];
    if opts.showParentheses {
      fs, x := AddParenthesis(opts, measure, ")", fontSize, x, qualityOffsetY, height, fs);
      closing := [ParenFragment(opts, measure(")"), fontSize, ")", ColumnEnd(opts, measure, fontSize, extensions, currentX),
                                qualityOffsetY, height)];
    }
    assert fs == fragments + opening + stack + closing;
    GroupPieces(opts, measure, fontSize, extMargin, qualityOffsetY, extensions, currentX, height, opening, stack, closing);
    FormatLayout.Concat4(fragments, opening, stack, closing);
    nextX := x;
  }

  /**
    * `layoutChordSymbol`: nothing when the chord could not be parsed or
    * rendered; otherwise the fragments laid out with the font size read
    * from the context's font, gathered into a text.
    */
  method LayoutChordSymbol(opts: ChordSymbolOptions, measure: Measure, font: string,
                           chord: Option<Format.FormattedChord>)
    returns (text: Option<LegacyText.BbText>)
    requires chord.Some? ==> Format.HasContent(chord.value) &&
                             ParenthesesMeasurable(opts, measure, chord.value.chordChanges)
    ensures chord.None? <==> text.None?
    ensures text.Some? ==> fresh(text.value) && text.value.Valid()
    ensures text.Some? ==> Texts(text.value.fragments) == ExpectedTexts(opts, chord.value)
    ensures text.Some? ==> text.value.fragments == ChordFragments(opts, measure, GetContextFontSize(font) as real, chord.value)
  {
    if chord.None? {
      return None;
    }
    var fontSize := GetContextFontSize(font) as real;
    var fragments, currentX := LayoutParts(opts, measure, fontSize, chord.value);
    assert fragments == ChordFragments(opts, measure, fontSize, chord.value);
    ExpectedTextsNonEmpty(opts, chord.value);
    var t := new LegacyText.BbText(fragments);
    text := Some(t);
  }

  /** The root, the descriptor, the extensions and the bass, each from where the previous one left the cursor. */
  method LayoutParts(opts: ChordSymbolOptions, measure: Measure, fontSize: real, chord: Format.FormattedChord)
    returns (fragments: seq<Fragment>, currentX: real)
    requires ParenthesesMeasurable(opts, measure, chord.chordChanges)
    ensures var r := RootStage(opts, measure, fontSize, chord.rootNote);
      var d := DescriptorStage(opts, measure, fontSize, chord.descriptor, r.1);
      var e := ExtensionStage(opts, measure, fontSize, ExtensionMargin(opts, fontSize),
                              DescriptorOffset(opts, fontSize), chord.chordChanges, d.1);
      var b := BassStage(opts, measure, fontSize, chord.bassNote, e.1);
      fragments == r.0 + d.0 + e.0 + b.0 && currentX == b.1
  {
    fragments, currentX := [], 0.0;
    if chord.rootNote != "" {
      fragments, currentX := AddRoot(opts, measure, chord.rootNote, currentX, fontSize, fragments);
    }
    assert fragments == RootStage(opts, measure, fontSize, chord.rootNote).0;
    assert currentX == RootStage(opts, measure, fontSize, chord.rootNote).1;
    fragments, currentX := AddDescriptorStage(opts, measure, fontSize, chord.descriptor, fragments, currentX);
    fragments, currentX := AddExtensionStage(opts, measure, fontSize, chord.chordChanges, fragments, currentX);
    fragments, currentX := AddBassStage(opts, measure, fontSize, chord.bassNote, fragments, currentX);
  }

  /** The descriptor from the cursor, when there is one. */
  method AddDescriptorStage(opts: ChordSymbolOptions, measure: Measure, fontSize: real, descriptor: string,
                            before: seq<Fragment>, x: real)
    returns (fragments: seq<Fragment>, currentX: real)
    ensures var d := DescriptorStage(opts, measure, fontSize, descriptor, x);
      fragments == before + d.0 && currentX == d.1
  {
    fragments, currentX := before, x;
    if descriptor != "" {
      fragments, currentX := AddDescriptor(opts, measure, descriptor, currentX, fontSize, fragments);
    }
  }

  /** The extension group, when there are extensions. */
  method AddExtensionStage(opts: ChordSymbolOptions, measure: Measure, fontSize: real, extensions: seq<string>,
                           before: seq<Fragment>, x: real)
    returns (fragments: seq<Fragment>, currentX: real)
    requires ParenthesesMeasurable(opts, measure, extensions)
    ensures var e := ExtensionStage(opts, measure, fontSize, ExtensionMargin(opts, fontSize),
                                    DescriptorOffset(opts, fontSize), extensions, x);
      fragments == before + e.0 && currentX == e.1
  {
    fragments, currentX := before, x;
    if |extensions| > 0 {
      fragments, currentX := AddExtensions(opts, measure, extensions, fontSize, currentX, fragments);
    }
  }

  /** The separator and the bass, when there is a bass note. */
  method AddBassStage(opts: ChordSymbolOptions, measure: Measure, fontSize: real, bass: string,
                      before: seq<Fragment>, x: real)
    returns (fragments: seq<Fragment>, currentX: real)
    ensures var b := BassStage(opts, measure, fontSize, bass, x);
      fragments == before + b.0 && currentX == b.1
  {
    fragments, currentX := before, x;
    if bass != "" {
      fragments, currentX := AddBass(opts, measure, bass, currentX, fontSize, fragments);
    }
  }
}
