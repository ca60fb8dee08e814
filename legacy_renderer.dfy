/**
  * The legacy chord-symbol layout (src/bb-renderer.ts), as functions stage
  * by stage; the methods that build it step by step, as the source does,
  * are in RendererLayout and are proved equal to these functions.
  *
  * Unlike the current engine, the legacy one does not fold the quality,
  * substitutes the descriptor once, measures every part on the string as
  * given while storing the substituted string, stacks the extensions
  * around the descriptor's offset, and always draws parentheses when they
  * are enabled, "alt" included.
  */
module Renderer {
  import opened BoundingBoxes
  import opened Canvas
  import opened TextFragment
  import opened FormatUtil
  import opened LegacyOptions
  import Format

  /** The vertical margin around each extension, scaled to the font size. */
  function ExtensionMargin(opts: ChordSymbolOptions, fontSize: real): real {
    fontSize * opts.extensionsVerticalMargin
  }

  /** How far the descriptor is raised, scaled to the font size. */
  function DescriptorOffset(opts: ChordSymbolOptions, fontSize: real): real {
    fontSize * opts.descriptorVerticalOffset
  }

  /** Where the layout divides by a parenthesis glyph's natural height, that height is not 0. */
  predicate ParenthesesMeasurable(opts: ChordSymbolOptions, measure: Measure, exts: seq<string>) {
    |exts| > 0 && opts.showParentheses ==> measure("(").Height() != 0.0 && measure(")").Height() != 0.0
  }

  // ----- What the layout draws -----

  /** The descriptor's text, substituted once, when there is one. */
  function DescriptorTexts(descriptor: string): seq<string> {
    if descriptor != "" then [ReplaceSharpsFlats(descriptor)] else []
  }

  /** The extensions, substituted, between "(" and ")" when parentheses are enabled. */
  function ExtensionTexts(opts: ChordSymbolOptions, exts: seq<string>): seq<string> {
    if |exts| == 0 then []
    else
      (if opts.showParentheses then ["("] else []) +
      Format.MapReplaceSharpsFlats(exts) +
      (if opts.showParentheses then [")"] else [])
  }

  /**
    * The fragment texts in drawing order: root, descriptor, the extension
    * group, then '/' and the bass; each part only when present.
    */
  function ExpectedTexts(opts: ChordSymbolOptions, chord: Format.FormattedChord): seq<string> {
    Format.RootTexts(chord.rootNote) + DescriptorTexts(chord.descriptor) +
    ExtensionTexts(opts, chord.chordChanges) + Format.BassTexts(chord.bassNote)
  }

  /** Exactly the chords with content give a non-empty layout. */
  lemma ExpectedTextsNonEmpty(opts: ChordSymbolOptions, chord: Format.FormattedChord)
    ensures |ExpectedTexts(opts, chord)| > 0 <==> Format.HasContent(chord)
  {
    if |chord.chordChanges| > 0 {
      assert |ExtensionTexts(opts, chord.chordChanges)| >= |chord.chordChanges|;
    }
  }

  // ----- The extension stack -----

  /** The metrics of the extensions, each measured as given, before the substitution. */
  function ExtMetrics(measure: Measure, exts: seq<string>): (ms: seq<TextMetrics>)
    ensures |ms| == |exts|
  {
    if exts == [] then [] else ExtMetrics(measure, exts[..|exts| - 1]) + [measure(exts[|exts| - 1])]
  }

  /** Entry j of the metrics is the measure of extension j as given. */
  lemma {:induction false} ExtMetricsAt(measure: Measure, exts: seq<string>, j: nat)
    requires j < |exts|
    ensures ExtMetrics(measure, exts)[j] == measure(exts[j])
  {
    if j < |exts| - 1 {
      var init := exts[..|exts| - 1];
      ExtMetricsAt(measure, init, j);
    }
  }

  /** A measured string's natural box at the origin, as `fromHW(ascent + descent, width)` builds it. */
  function NaturalBox(m: TextMetrics): Box {
    FromHW(m.Height(), m.width)
  }

  /** The boxes built by the first loop of `addExtensions`, one per extension. */
  function NaturalBoxes(ms: seq<TextMetrics>): (bs: seq<Box>)
    ensures |bs| == |ms|
  {
    if ms == [] then [] else NaturalBoxes(ms[..|ms| - 1]) + [NaturalBox(ms[|ms| - 1])]
  }

  /** Box j is the natural box of extension j: ordered, as wide and as tall as measured. */
  lemma {:induction false} NaturalBoxesAt(ms: seq<TextMetrics>, j: nat)
    requires j < |ms|
    ensures var b := NaturalBoxes(ms)[j];
      b == NaturalBox(ms[j]) && b.Ordered() && b.Width() == Abs(ms[j].width) && b.Height() == Abs(ms[j].Height())
  {
    if j < |ms| - 1 {
      NaturalBoxesAt(ms[..|ms| - 1], j);
    }
  }

  /** The sum of the box heights. */
  function BoxHeights(bs: seq<Box>): real {
    if bs == [] then 0.0 else BoxHeights(bs[..|bs| - 1]) + bs[|bs| - 1].Height()
  }

  /** The height of the stack: the box heights plus a margin between each two. */
  function StackHeight(bs: seq<Box>, margin: real): real {
    margin * (|bs| - 1) as real + BoxHeights(bs)
  }

  /**
    * The top of the first extension: the stack is centred on the middle of
    * the first box placed `offset` above the baseline line 0.
    */
  function FirstTop(bs: seq<Box>, margin: real, offset: real): real
    requires |bs| > 0
  {
    -offset + (bs[0].Height() - StackHeight(bs, margin)) * 0.5
  }

  /** The top of extension j: each one starts one margin below the bottom of the one before. */
  function StackTop(bs: seq<Box>, top: real, margin: real, j: nat): real
    requires j <= |bs|
  {
    if j == 0 then top else StackTop(bs, top, margin, j - 1) + bs[j - 1].Height() + margin
  }

  /** The top of extension j is the first top plus the heights and margins above it. */
  lemma {:induction false} StackTopClosedForm(bs: seq<Box>, top: real, margin: real, j: nat)
    requires j <= |bs|
    ensures StackTop(bs, top, margin, j) == top + BoxHeights(bs[..j]) + margin * j as real
  {
    if j > 0 {
      StackTopClosedForm(bs, top, margin, j - 1);
      assert bs[..j][..j - 1] == bs[..j - 1];
    }
  }

  /**
    * The stack spans one stack height from its first top, and its middle
    * is the middle of the first box placed at `-offset`.
    */
  lemma StackSpan(bs: seq<Box>, margin: real, offset: real)
    requires |bs| > 0
    ensures var top := FirstTop(bs, margin, offset);
      var n := |bs|;
      StackTop(bs, top, margin, n - 1) + bs[n - 1].Height() == top + StackHeight(bs, margin) &&
      top + StackHeight(bs, margin) * 0.5 == -offset + bs[0].Height() * 0.5
  {
    var n := |bs|;
    StackTopClosedForm(bs, FirstTop(bs, margin, offset), margin, n - 1);
    assert bs[..n] == bs;
  }

  /**
    * Extension j: its natural box moved, keeping its size, so that it is
    * centred in the column from x of width maxW and its top is the stack
    * top of j. The text is substituted; the baseline is left at 0.
    */
  function StackedExtension(exts: seq<string>, bs: seq<Box>, x: real, top: real, margin: real,
                            maxW: real, j: int): Fragment
    requires 0 <= j < |exts| && j < |bs|
  {
    var b := bs[j];
    NewFragment(ReplaceSharpsFlats(exts[j]), WithY(WithX(b, x + (maxW - b.Width()) * 0.5), StackTop(bs, top, margin, j)))
  }

  /** An extension keeps its natural size, is centred in its column and sits at its stack top. */
  lemma StackedExtensionPlaced(exts: seq<string>, bs: seq<Box>, x: real, top: real, margin: real,
                               maxW: real, j: int)
    requires 0 <= j < |exts| && j < |bs|
    ensures var f := StackedExtension(exts, bs, x, top, margin, maxW, j);
      f.text == ReplaceSharpsFlats(exts[j]) &&
      f.bbox.Width() == bs[j].Width() && f.bbox.Height() == bs[j].Height() &&
      f.bbox.x1 + f.bbox.x2 == 2.0 * x + maxW &&
      f.bbox.y1 == StackTop(bs, top, margin, j) &&
      f.baselineHeight == 0.0 && IdentityTransform(f)
  {
  }

  /** The first n extensions of the stack, top to bottom. */
  function Stack(exts: seq<string>, bs: seq<Box>, x: real, top: real, margin: real, maxW: real,
                 n: nat): (r: seq<Fragment>)
    requires n <= |exts| && n <= |bs|
    ensures |r| == n
  {
    if n == 0 then [] else Stack(exts, bs, x, top, margin, maxW, n - 1) + [StackedExtension(exts, bs, x, top, margin, maxW, n - 1)]
  }

  /** Entry j of the stack is extension j. */
  lemma {:induction false} StackAt(exts: seq<string>, bs: seq<Box>, x: real, top: real, margin: real,
                                   maxW: real, n: nat, j: nat)
    requires j < n <= |exts| && n <= |bs|
    ensures Stack(exts, bs, x, top, margin, maxW, n)[j] == StackedExtension(exts, bs, x, top, margin, maxW, j)
  {
    if j < n - 1 {
      StackAt(exts, bs, x, top, margin, maxW, n - 1, j);
    }
  }

  /** The texts of the whole stack are the extensions, each after the substitution. */
  lemma StackTexts(exts: seq<string>, bs: seq<Box>, x: real, top: real, margin: real, maxW: real)
    requires |exts| == |bs|
    ensures Texts(Stack(exts, bs, x, top, margin, maxW, |exts|)) == Format.MapReplaceSharpsFlats(exts)
  {
    var stack := Stack(exts, bs, x, top, margin, maxW, |exts|);
    forall j | 0 <= j < |exts| ensures stack[j].text == Format.MapReplaceSharpsFlats(exts)[j] {
      StackAt(exts, bs, x, top, margin, maxW, |exts|, j);
      Format.MapReplaceSharpsFlatsAt(exts, j);
    }
    Format.TextsOf(stack, Format.MapReplaceSharpsFlats(exts));
  }

  // ----- Parentheses -----

  /**
    * `addParenthesis` as written: the glyph is stretched by the ratio of the
    * stack height plus the margin to its natural height, and that ratio is
    * used both as the box height and, through the constructor's argument
    * order, as `scaleX`, while 1 lands in `baselineHeight`. The closing
    * parenthesis is drawn one inset (in font sizes) left of the cursor.
    */
  function ParenFragment(opts: ChordSymbolOptions, m: TextMetrics, fontSize: real, text: string,
                         currentX: real, offset: real, height: real): Fragment
    requires m.Height() != 0.0
  {
    var actualHeight := ParenStretch(opts, m, fontSize, height);
    NewFragment(text,
                FromHW(actualHeight, m.width, ParenX(opts, fontSize, text, currentX),
                       -offset + opts.parenthesesYOffset * m.Height()),
                1.0, actualHeight)
  }

  /** The factor a parenthesis glyph is stretched by to span `height` plus the margin. */
  function ParenStretch(opts: ChordSymbolOptions, m: TextMetrics, fontSize: real, height: real): (s: real)
    requires m.Height() != 0.0
    ensures s * m.Height() == height + opts.parenthesesMargin * fontSize
  {
    (height + opts.parenthesesMargin * fontSize) / m.Height()
  }

  /** A parenthesis starts at the cursor, a closing one an inset before it. */
  function ParenX(opts: ChordSymbolOptions, fontSize: real, text: string, currentX: real): real {
    if text == ")" then currentX - fontSize * opts.parenthesesInset else currentX
  }

  /**
    * The parenthesis's fields as the source sets them: baseline 1, the
    * stretch ratio in `scaleX` and as the box height, `scaleY` 1; the box
    * is as wide as the glyph and starts at the cursor ("(") or one inset
    * before it (")"), raised by the offset and moved by `parenthesesYOffset`
    * glyph heights.
    */
  lemma ParenFragmentAsWritten(opts: ChordSymbolOptions, m: TextMetrics, fontSize: real, text: string,
                               currentX: real, offset: real, height: real)
    requires m.Height() != 0.0
    ensures var f := ParenFragment(opts, m, fontSize, text, currentX, offset, height);
      f.text == text &&
      f.baselineHeight == 1.0 && f.scaleY == 1.0 && f.angle == 0.0 &&
      f.scaleX * m.Height() == height + opts.parenthesesMargin * fontSize &&
      f.bbox.Height() == Abs(f.scaleX) && f.bbox.Width() == Abs(m.width) &&
      (m.width >= 0.0 ==> f.bbox.x1 == if text == ")" then currentX - fontSize * opts.parenthesesInset else currentX) &&
      (f.scaleX >= 0.0 ==> f.bbox.y1 == -offset + opts.parenthesesYOffset * m.Height())
  {
  }

  /** Where the cursor goes after a parenthesis: past "(" less the inset, past anything else by its width. */
  function ParenNextX(opts: ChordSymbolOptions, measure: Measure, fontSize: real, text: string, currentX: real): real {
    var w := measure(text).width;
    if text == "(" then currentX + w - fontSize * opts.parenthesesInset else currentX + w
  }

  // ----- The extension group -----

  /** The left edge of the extension column: after "(" when parentheses are enabled. */
  function ColumnX(opts: ChordSymbolOptions, measure: Measure, fontSize: real, currentX: real): real {
    if opts.showParentheses then ParenNextX(opts, measure, fontSize, "(", currentX) else currentX
  }

  /** The right edge of the extension column, as wide as the widest extension. */
  function ColumnEnd(opts: ChordSymbolOptions, measure: Measure, fontSize: real, exts: seq<string>, currentX: real): real {
    ColumnX(opts, measure, fontSize, currentX) + Format.MaxWidth(ExtMetrics(measure, exts))
  }

  /**
    * The extension stack of `addExtensions` from `currentX`, with `margin`
    * between extensions: centred on the first box placed `offset` above
    * line 0, in a column as wide as the widest extension.
    */
  function GroupStack(opts: ChordSymbolOptions, measure: Measure, fontSize: real, margin: real, offset: real,
                      exts: seq<string>, currentX: real): (r: seq<Fragment>)
    requires |exts| > 0
    ensures Texts(r) == Format.MapReplaceSharpsFlats(exts)
  {
    var ms := ExtMetrics(measure, exts);
    var bs := NaturalBoxes(ms);
    var x := ColumnX(opts, measure, fontSize, currentX);
    var top := FirstTop(bs, margin, offset);
    StackTexts(exts, bs, x, top, margin, Format.MaxWidth(ms));
    Stack(exts, bs, x, top, margin, Format.MaxWidth(ms), |exts|)
  }

  /** The height of the stack of `addExtensions`. */
  function GroupHeight(measure: Measure, margin: real, exts: seq<string>): real {
    StackHeight(NaturalBoxes(ExtMetrics(measure, exts)), margin)
  }

  /**
    * `addExtensions` from `currentX`: the stack between "(" and ")", both
    * stretched to the stack height plus the parentheses margin, when
    * parentheses are enabled. The margin between extensions and the
    * descriptor's offset come in already multiplied by the font size.
    */
  function ExtensionGroup(opts: ChordSymbolOptions, measure: Measure, fontSize: real, margin: real, offset: real,
                          exts: seq<string>, currentX: real): seq<Fragment>
    requires ParenthesesMeasurable(opts, measure, exts) && |exts| > 0
  {
    var height := GroupHeight(measure, margin, exts);
    var stack := GroupStack(opts, measure, fontSize, margin, offset, exts, currentX);
    if opts.showParentheses then
      [ParenFragment(opts, measure("("), fontSize, "(", currentX, offset, height)] + stack +
      [ParenFragment(opts, measure(")"), fontSize, ")", ColumnEnd(opts, measure, fontSize, exts, currentX), offset, height)]
    else stack
  }

  /** Where the layout goes on after the extension group. */
  function ExtensionGroupEnd(opts: ChordSymbolOptions, measure: Measure, fontSize: real, exts: seq<string>,
                             currentX: real): real
  {
    var end := ColumnEnd(opts, measure, fontSize, exts, currentX);
    if opts.showParentheses then ParenNextX(opts, measure, fontSize, ")", end) else end
  }

  /** The number of parentheses drawn around the extensions: 2 or 0. */
  function ParenCount(opts: ChordSymbolOptions): nat {
    if opts.showParentheses then 2 else 0
  }

  /**
    * The group's shape: "(" and ")", when enabled, come first and last, and
    * the stack lies in between.
    */
  lemma ExtensionGroupShape(opts: ChordSymbolOptions, measure: Measure, fontSize: real, margin: real, offset: real,
                            exts: seq<string>, currentX: real)
    requires ParenthesesMeasurable(opts, measure, exts) && |exts| > 0
    ensures var g := ExtensionGroup(opts, measure, fontSize, margin, offset, exts, currentX);
      var first := ParenCount(opts) / 2;
      |g| == |exts| + ParenCount(opts) &&
      (opts.showParentheses ==> g[0].text == "(" && g[|g| - 1].text == ")") &&
      g[first..first + |exts|] == GroupStack(opts, measure, fontSize, margin, offset, exts, currentX)
  {
  }

  /** The group draws "(" and ")", when enabled, around the substituted extensions. */
  lemma ExtensionGroupTexts(opts: ChordSymbolOptions, measure: Measure, fontSize: real, margin: real, offset: real,
                            exts: seq<string>, currentX: real)
    requires ParenthesesMeasurable(opts, measure, exts) && |exts| > 0
    ensures Texts(ExtensionGroup(opts, measure, fontSize, margin, offset, exts, currentX)) == ExtensionTexts(opts, exts)
  {
    var stack := GroupStack(opts, measure, fontSize, margin, offset, exts, currentX);
    if opts.showParentheses {
      var height := GroupHeight(measure, margin, exts);
      var o := ParenFragment(opts, measure("("), fontSize, "(", currentX, offset, height);
      var c := ParenFragment(opts, measure(")"), fontSize, ")", ColumnEnd(opts, measure, fontSize, exts, currentX), offset, height);
      TextsAppend([o], stack);
      TextsAppend([o] + stack, [c]);
    }
  }

  // ----- The separator and the bass -----

  /** The separator's fragment: '/' in its natural box, one left inset (in font sizes) before the cursor. */
  function SeparatorFragment(opts: ChordSymbolOptions, measure: Measure, fontSize: real, currentX: real): Fragment {
    var m := measure("/");
    NewFragment("/", FromHW(m.Height(), m.width, currentX - opts.separatorLeftInset * fontSize,
                            fontSize * opts.separatorYOffset))
  }

  /** The bass note's fragment: measured as given, stored substituted, right after the separator and lower. */
  function BassFragment(opts: ChordSymbolOptions, measure: Measure, fontSize: real, bassNote: string, currentX: real)
    : Fragment
  {
    var x := currentX - opts.separatorLeftInset * fontSize + measure("/").width - opts.separatorRightInset * fontSize;
    var m := measure(bassNote);
    NewFragment(ReplaceSharpsFlats(bassNote),
                FromHW(m.Height(), m.width, x, fontSize * opts.separatorYOffset + opts.bassYOffset * fontSize))
  }

  /**
    * The separator starts one left inset before the cursor, `separatorYOffset`
    * font sizes down; the bass starts one right inset before the separator's
    * right edge and `bassYOffset` font sizes below the separator's top. Both
    * keep their natural size, baseline 0 and no transform.
    */
  lemma BassChangePlaced(opts: ChordSymbolOptions, measure: Measure, fontSize: real, bassNote: string, currentX: real)
    requires measure("/").width >= 0.0 && measure("/").Height() >= 0.0 && measure(bassNote).width >= 0.0 &&
             measure(bassNote).Height() >= 0.0
    ensures var s := SeparatorFragment(opts, measure, fontSize, currentX);
      var b := BassFragment(opts, measure, fontSize, bassNote, currentX);
      s.text == "/" && b.text == ReplaceSharpsFlats(bassNote) &&
      s.bbox.x1 == currentX - opts.separatorLeftInset * fontSize && s.bbox.y1 == fontSize * opts.separatorYOffset &&
      b.bbox.x1 == s.bbox.x2 - opts.separatorRightInset * fontSize &&
      b.bbox.y1 == s.bbox.y1 + opts.bassYOffset * fontSize &&
      s.bbox.Width() == measure("/").width && b.bbox.Width() == measure(bassNote).width &&
      b.bbox.Height() == measure(bassNote).Height() &&
      s.baselineHeight == 0.0 && b.baselineHeight == 0.0 && IdentityTransform(s) && IdentityTransform(b)
  {
  }

  // ----- The stages of the layout -----

  /** The root's fragment: measured as given, stored substituted, in its natural box at the origin. */
  function RootFragment(measure: Measure, root: string): Fragment {
    var m := measure(root);
    NewFragment(ReplaceSharpsFlats(root), FromHW(m.Height(), m.width, 0.0, 0.0))
  }

  /**
    * The descriptor's fragment: measured as given, stored substituted, one
    * inset (in font sizes) left of the cursor and raised by the vertical
    * offset.
    */
  function DescriptorFragment(opts: ChordSymbolOptions, measure: Measure, fontSize: real, descriptor: string, x: real)
    : Fragment
  {
    var m := measure(descriptor);
    NewFragment(ReplaceSharpsFlats(descriptor),
                FromHW(m.Height(), m.width, x - fontSize * opts.descriptorHorizontalInset,
                       -fontSize * opts.descriptorVerticalOffset))
  }

  /**
    * The root's fragment, if any, and where it leaves the cursor: the root
    * is measured as given, stored substituted and drawn at the origin; the
    * cursor ends one descriptor inset short of the measured width.
    */
  function RootStage(opts: ChordSymbolOptions, measure: Measure, fontSize: real, root: string): (r: (seq<Fragment>, real))
    ensures Texts(r.0) == Format.RootTexts(root)
    ensures root != "" ==> var m := measure(root);
      |r.0| == 1 && r.0[0].bbox.Width() == Abs(m.width) && r.0[0].bbox.Height() == Abs(m.Height()) &&
      (m.width >= 0.0 && m.Height() >= 0.0 ==> r.0[0].bbox.x1 == 0.0 && r.0[0].bbox.y1 == 0.0) &&
      r.0[0].baselineHeight == 0.0 && IdentityTransform(r.0[0]) &&
      r.1 == m.width - fontSize * opts.descriptorHorizontalInset
    ensures root == "" ==> r == ([], 0.0)
  {
    if root != "" then
      ([RootFragment(measure, root)], measure(root).width - fontSize * opts.descriptorHorizontalInset)
    else ([], 0.0)
  }

  /**
    * The descriptor's fragment, if any, and where it leaves the cursor:
    * measured as given, stored substituted, one inset left of the cursor
    * and raised by the vertical offset; the cursor moves by the measured
    * width less the inset.
    */
  function DescriptorStage(opts: ChordSymbolOptions, measure: Measure, fontSize: real, descriptor: string, x: real)
    : (r: (seq<Fragment>, real))
    ensures Texts(r.0) == DescriptorTexts(descriptor)
    ensures descriptor != "" ==> var m := measure(descriptor);
      var inset := fontSize * opts.descriptorHorizontalInset;
      |r.0| == 1 && r.0[0].bbox.Width() == Abs(m.width) && r.0[0].bbox.Height() == Abs(m.Height()) &&
      (m.width >= 0.0 && m.Height() >= 0.0 ==>
        r.0[0].bbox.x1 == x - inset && r.0[0].bbox.y1 == -fontSize * opts.descriptorVerticalOffset) &&
      r.1 == x + m.width - inset
    ensures descriptor == "" ==> r == ([], x)
  {
    if descriptor != "" then
      ([DescriptorFragment(opts, measure, fontSize, descriptor, x)],
       x + measure(descriptor).width - fontSize * opts.descriptorHorizontalInset)
    else ([], x)
  }

  /** The extension group, if any, and where it leaves the cursor. */
  function ExtensionStage(opts: ChordSymbolOptions, measure: Measure, fontSize: real, margin: real, offset: real,
                          exts: seq<string>, x: real)
    : (r: (seq<Fragment>, real))
    requires ParenthesesMeasurable(opts, measure, exts)
  {
    if |exts| > 0 then
      (ExtensionGroup(opts, measure, fontSize, margin, offset, exts, x), ExtensionGroupEnd(opts, measure, fontSize, exts, x))
    else ([], x)
  }

  /**
    * The separator and the bass note, if there is a bass note; the cursor
    * then ends one descriptor inset short of the bass width, wherever the
    * bass was drawn.
    */
  function BassStage(opts: ChordSymbolOptions, measure: Measure, fontSize: real, bass: string, x: real)
    : (r: (seq<Fragment>, real))
    ensures Texts(r.0) == Format.BassTexts(bass)
    ensures bass != "" ==> r.1 == measure(bass).width - fontSize * opts.descriptorHorizontalInset
    ensures bass == "" ==> r == ([], x)
  {
    if bass != "" then
      ([SeparatorFragment(opts, measure, fontSize, x), BassFragment(opts, measure, fontSize, bass, x)],
       measure(bass).width - fontSize * opts.descriptorHorizontalInset)
    else ([], x)
  }

  /** The extension stage lays out the extension texts, within parentheses when they are enabled. */
  lemma ExtensionStageTexts(opts: ChordSymbolOptions, measure: Measure, fontSize: real, margin: real, offset: real,
                            exts: seq<string>, x: real)
    requires ParenthesesMeasurable(opts, measure, exts)
    ensures Texts(ExtensionStage(opts, measure, fontSize, margin, offset, exts, x).0) == ExtensionTexts(opts, exts)
  {
    if |exts| > 0 {
      ExtensionGroupTexts(opts, measure, fontSize, margin, offset, exts, x);
    }
  }

  /**
    * The stages laid end to end, each starting where the previous one left
    * the cursor, carry exactly the expected texts, in order.
    */
  lemma StagesTexts(opts: ChordSymbolOptions, measure: Measure, fontSize: real, chord: Format.FormattedChord)
    requires ParenthesesMeasurable(opts, measure, chord.chordChanges)
    ensures var r := RootStage(opts, measure, fontSize, chord.rootNote);
      var d := DescriptorStage(opts, measure, fontSize, chord.descriptor, r.1);
      var e := ExtensionStage(opts, measure, fontSize, ExtensionMargin(opts, fontSize),
                                DescriptorOffset(opts, fontSize), chord.chordChanges, d.1);
      Texts(r.0 + d.0 + e.0 + BassStage(opts, measure, fontSize, chord.bassNote, e.1).0) == ExpectedTexts(opts, chord)
  {
    var r := RootStage(opts, measure, fontSize, chord.rootNote);
    var d := DescriptorStage(opts, measure, fontSize, chord.descriptor, r.1);
    var e := ExtensionStage(opts, measure, fontSize, ExtensionMargin(opts, fontSize),
                                DescriptorOffset(opts, fontSize), chord.chordChanges, d.1);
    ExtensionStageTexts(opts, measure, fontSize, ExtensionMargin(opts, fontSize),
                        DescriptorOffset(opts, fontSize), chord.chordChanges, d.1);
    TextsAppend(r.0, d.0);
    TextsAppend(r.0 + d.0, e.0);
    TextsAppend(r.0 + d.0 + e.0, BassStage(opts, measure, fontSize, chord.bassNote, e.1).0);
  }

  /**
    * Everything `layoutChordSymbol` draws for a chord at a font size: the
    * root, the descriptor, the extension group and the bass, each stage
    * starting where the previous one left the cursor.
    */
  function ChordFragments(opts: ChordSymbolOptions, measure: Measure, fontSize: real, chord: Format.FormattedChord)
    : (fragments: seq<Fragment>)
    requires ParenthesesMeasurable(opts, measure, chord.chordChanges)
    ensures Texts(fragments) == ExpectedTexts(opts, chord)
  {
    StagesTexts(opts, measure, fontSize, chord);
    var r := RootStage(opts, measure, fontSize, chord.rootNote);
    var d := DescriptorStage(opts, measure, fontSize, chord.descriptor, r.1);
    var e := ExtensionStage(opts, measure, fontSize, ExtensionMargin(opts, fontSize), DescriptorOffset(opts, fontSize),
                            chord.chordChanges, d.1);
    r.0 + d.0 + e.0 + BassStage(opts, measure, fontSize, chord.bassNote, e.1).0
  }
}
