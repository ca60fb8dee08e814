/**
  * The chord-symbol layout engine (packages/format/src/bb-format.ts).
  *
  * The parsed and rendered chord comes in as a `FormattedChord`; the
  * canvas comes in as the font string (for the font size) and a `Measure`
  * function. This module holds what the layout computes, as functions
  * stage by stage; the methods that build it step by step, as the source
  * does, are in FormatLayout and are proved equal to these functions.
  */
module Format {
  import opened Wrappers
  import opened BoundingBoxes
  import opened Canvas
  import opened TextFragment
  import opened FormatUtil
  import opened FormatOptions
  import FormatText

  /** The renderer's formatted chord; "" stands for a part that is absent. */
  datatype FormattedChord = FormattedChord(
    rootNote: string,
    descriptor: string,
    chordChanges: seq<string>,
    bassNote: string)

  predicate StartsWith(s: string, prefix: string) {
    |prefix| <= |s| && s[..|prefix|] == prefix
  }

  /** `s.replace("mi", "-")` on a string that starts with "mi". */
  lemma ReplaceLeadingMi(s: string)
    ensures StartsWith(s, "mi") ==> ReplaceFirst(s, "mi", "-") == "-" + s[2..]
  {
    if StartsWith(s, "mi") {
      IndexOfIsFirst(s, "mi", 0);
      ReplaceFirstSpec(s, "mi", "-");
      var r := ReplaceFirst(s, "mi", "-");
      assert r[..1] == "-" by {
        assert r[0..1] == "-";
      }
      assert r == r[..1] + r[1..];
    }
  }

  /**
    * The folding of minor and augmented qualities into the root, as the
    * layout does it before measuring anything. With the minus-sign option,
    * a bare minor descriptor moves to the root as "-", and any other
    * descriptor starting with "mi" has that "mi" replaced by "-". The test
    * for "min" comes after the test for "mi", so it never applies: "min7"
    * becomes "-n7". A bare "+" moves to the root whatever the option.
    */
  function FoldQuality(useMinus: bool, root: string, descriptor: string): (r: (string, string))
    ensures descriptor == "" ==> r == (root, "")
    ensures useMinus && descriptor in {"mi", "-", "min"} ==> r == (root + "-", "")
    ensures useMinus && StartsWith(descriptor, "mi") && descriptor != "mi" && descriptor != "min" ==>
      r == (root, "-" + descriptor[2..])
    ensures descriptor == "+" ==> r == (root + "+", "")
    ensures (!useMinus || (!StartsWith(descriptor, "mi") && descriptor != "-")) && descriptor != "+" ==>
      r == (root, descriptor)
  {
    if descriptor == "" then (root, descriptor)
    else
      var folded :=
        if useMinus then
          if descriptor == "mi" || descriptor == "-" || descriptor == "min" then (root + "-", "")
          else if StartsWith(descriptor, "mi") then (root, ReplaceFirst(descriptor, "mi", "-"))
          else if StartsWith(descriptor, "min") then (root, ReplaceFirst(descriptor, "min", "-"))
          else (root, descriptor)
        else (root, descriptor);
      ReplaceLeadingMi(descriptor);
      if folded.1 == "+" then (folded.0 + "+", "") else folded
  }

  /** "min7" is folded through the "mi" branch. */
  lemma FoldMin7()
    ensures FoldQuality(true, "C", "min7") == ("C", "-n7")
  {
    assert StartsWith("min7", "mi");
    assert "min7"[2..] == "n7";
    assert "-" + "n7" == "-n7";
  }

  /**
    * Folding is idempotent: what it leaves as the descriptor never starts
    * a second fold.
    */
  lemma FoldIdempotent(useMinus: bool, root: string, descriptor: string)
    ensures var (r, d) := FoldQuality(useMinus, root, descriptor);
      FoldQuality(useMinus, r, d) == (r, d)
  {
    var (r, d) := FoldQuality(useMinus, root, descriptor);
    if useMinus && StartsWith(descriptor, "mi") && descriptor != "mi" && descriptor != "min" {
      assert descriptor == descriptor[..2] + descriptor[2..];
      assert d == "-" + descriptor[2..];
      assert |d| >= 2 && d[0] == '-';
    }
  }

  // ----- What the layout draws -----

  /** The parentheses are drawn around the extensions unless they are exactly ["alt"]. */
  predicate ShowParentheses(opts: ChordSymbolOptions, exts: seq<string>) {
    opts.parentheses.show && !(|exts| == 1 && exts[0] == "alt")
  }

  /** The vertical margin around each extension, scaled to the font size. */
  function ExtensionMargin(opts: ChordSymbolOptions, fontSize: real): real {
    fontSize * opts.extensionsVerticalMargin
  }

  /** Where the layout divides by a parenthesis glyph's natural height, that height is not 0. */
  predicate ParenthesesMeasurable(opts: ChordSymbolOptions, measure: Measure, exts: seq<string>) {
    opts.Valid() &&
    (|exts| > 0 && ShowParentheses(opts, exts) ==>
      measure(opts.parentheses.Opening()).Height() != 0.0 &&
      measure(opts.parentheses.Closing()).Height() != 0.0)
  }

  /** The substitution applied to each extension. */
  function MapReplaceSharpsFlats(ss: seq<string>): (r: seq<string>)
    ensures |r| == |ss|
  {
    if ss == [] then [] else [ReplaceSharpsFlats(ss[0])] + MapReplaceSharpsFlats(ss[1..])
  }

  /** Entry j of the mapped list is the substitution applied to entry j. */
  lemma {:induction false} MapReplaceSharpsFlatsAt(ss: seq<string>, j: nat)
    requires j < |ss|
    ensures MapReplaceSharpsFlats(ss)[j] == ReplaceSharpsFlats(ss[j])
  {
    if j > 0 {
      MapReplaceSharpsFlatsAt(ss[1..], j - 1);
    }
  }

  /** The texts of the extension group: parentheses when shown, around the extensions. */
  function ExtensionTexts(opts: ChordSymbolOptions, exts: seq<string>): seq<string>
    requires opts.Valid()
  {
    if |exts| == 0 then []
    else
      var paren := ShowParentheses(opts, exts);
      (if paren then [opts.parentheses.Opening()] else []) +
      MapReplaceSharpsFlats(exts) +
      (if paren then [opts.parentheses.Closing()] else [])
  }

  /**
    * The fragment texts in drawing order: the folded root, the folded
    * descriptor (substituted twice), the extension group, then '/' and the
    * bass; each part only when present.
    */
  function ExpectedTexts(opts: ChordSymbolOptions, chord: FormattedChord): seq<string>
    requires opts.Valid()
  {
    var (root, descriptor) := FoldQuality(opts.useMinusSignForMinorChords, chord.rootNote, chord.descriptor);
    PartTexts(opts, root, descriptor, chord.chordChanges, chord.bassNote)
  }

  /** The texts of the parts once the quality is folded. */
  function PartTexts(opts: ChordSymbolOptions, root: string, descriptor: string, exts: seq<string>, bass: string)
    : seq<string>
    requires opts.Valid()
  {
    RootTexts(root) + DescriptorTexts(descriptor) + ExtensionTexts(opts, exts) + BassTexts(bass)
  }

  /** The root's text, when there is a root. */
  function RootTexts(root: string): seq<string> {
    if root != "" then [ReplaceSharpsFlats(root)] else []
  }

  /** The descriptor's text (replaced twice, as the source does), when there is one. */
  function DescriptorTexts(descriptor: string): seq<string> {
    if descriptor != "" then [ReplaceSharpsFlats(ReplaceSharpsFlats(descriptor))] else []
  }

  /** The separator and the bass note, when there is a bass note. */
  function BassTexts(bass: string): seq<string> {
    if bass != "" then ["/", ReplaceSharpsFlats(bass)] else []
  }

  /** The chord has something to draw. */
  predicate HasContent(chord: FormattedChord) {
    chord.rootNote != "" || chord.descriptor != "" || |chord.chordChanges| > 0 || chord.bassNote != ""
  }

  /** Exactly the chords with content give a non-empty layout. */
  lemma ExpectedTextsNonEmpty(opts: ChordSymbolOptions, chord: FormattedChord)
    requires opts.Valid()
    ensures |ExpectedTexts(opts, chord)| > 0 <==> HasContent(chord)
  {
    var (root, descriptor) := FoldQuality(opts.useMinusSignForMinorChords, chord.rootNote, chord.descriptor);
    if chord.rootNote != "" {
      assert root != "" by {
        assert |root| >= |chord.rootNote|;
      }
    }
    if |chord.chordChanges| > 0 {
      assert |ExtensionTexts(opts, chord.chordChanges)| >= |chord.chordChanges|;
    }
  }

  // ----- The extension stack -----

  /** The metrics of the extensions, each measured after the flat/sharp substitution. */
  function ExtMetrics(measure: Measure, exts: seq<string>): (ms: seq<TextMetrics>)
    ensures |ms| == |exts|
  {
    if exts == [] then [] else [measure(ReplaceSharpsFlats(exts[0]))] + ExtMetrics(measure, exts[1..])
  }

  /** Entry j of the metrics is the measure of extension j, after the substitution. */
  lemma {:induction false} ExtMetricsAt(measure: Measure, exts: seq<string>, j: nat)
    requires j < |exts|
    ensures ExtMetrics(measure, exts)[j] == measure(ReplaceSharpsFlats(exts[j]))
  {
    if j > 0 {
      ExtMetricsAt(measure, exts[1..], j - 1);
    }
  }

  /** The sum of the heights. */
  function SumHeights(ms: seq<TextMetrics>): real {
    if ms == [] then 0.0 else SumHeights(ms[..|ms| - 1]) + ms[|ms| - 1].Height()
  }

  /** The height of the stack: the heights plus a margin between each two. */
  function TotalHeight(ms: seq<TextMetrics>, margin: real): real {
    margin * (|ms| - 1) as real + SumHeights(ms)
  }

  /** `maxExtWidth`: the widest, and at least 0. */
  function MaxWidth(ms: seq<TextMetrics>): (w: real)
    ensures w >= 0.0
    ensures forall j :: 0 <= j < |ms| ==> ms[j].width <= w
    ensures w == 0.0 || exists j :: 0 <= j < |ms| && w == ms[j].width
  {
    if ms == [] then 0.0
    else
      var init := ms[..|ms| - 1];
      assert forall j :: 0 <= j < |init| ==> init[j] == ms[j];
      Max(MaxWidth(init), ms[|ms| - 1].width)
  }

  /** The top of extension j: each one starts one margin below the bottom of the one before. */
  function StackTop(ms: seq<TextMetrics>, top: real, margin: real, j: nat): real
    requires j <= |ms|
  {
    if j == 0 then top else StackTop(ms, top, margin, j - 1) + ms[j - 1].Height() + margin
  }

  /** The top of extension j is the stack top plus the heights and margins above it. */
  lemma {:induction false} StackTopClosedForm(ms: seq<TextMetrics>, top: real, margin: real, j: nat)
    requires j <= |ms|
    ensures StackTop(ms, top, margin, j) == top + SumHeights(ms[..j]) + margin * j as real
  {
    if j > 0 {
      StackTopClosedForm(ms, top, margin, j - 1);
      assert ms[..j][..j - 1] == ms[..j - 1];
    }
  }

  /**
    * The stack is centred on `top + total/2`: the last extension ends a
    * full stack height below the first one's top.
    */
  lemma StackIsCentred(ms: seq<TextMetrics>, center: real, margin: real)
    requires |ms| > 0
    ensures var total := TotalHeight(ms, margin);
      var n := |ms|;
      StackTop(ms, center - total * 0.5, margin, n - 1) + ms[n - 1].Height() == center + total * 0.5
  {
    var n := |ms|;
    StackTopClosedForm(ms, center - TotalHeight(ms, margin) * 0.5, margin, n - 1);
    assert ms[..n] == ms;
  }

  /**
    * A text placed with its natural size: the box from (x, y) spanning its
    * width and its ascent plus descent, the baseline at the ascent.
    */
  function PlaceText(text: string, m: TextMetrics, x: real, y: real): Fragment {
    NewFragment(text, FromHW(m.Height(), m.width, x, y), m.actualBoundingBoxAscent)
  }

  /** A placed text's top-left corner is where it was put, and it is drawn untransformed. */
  lemma PlaceTextAt(text: string, m: TextMetrics, x: real, y: real)
    ensures var f := PlaceText(text, m, x, y);
      f.text == text && f.baselineHeight == m.actualBoundingBoxAscent && IdentityTransform(f) &&
      f.bbox.Width() == Abs(m.width) && f.bbox.Height() == Abs(m.Height()) &&
      (m.width >= 0.0 && m.Height() >= 0.0 ==> f.bbox == Box(x, y, x + m.width, y + m.Height()))
  {
  }

  /** The fragment of one extension, centred in the column of width `maxW` that starts at `x`. */
  function ExtFragment(text: string, m: TextMetrics, x: real, y: real, maxW: real): Fragment {
    PlaceText(text, m, x + (maxW - m.width) * 0.5, y)
  }

  /** An extension is centred in its column and its top is where it was put. */
  lemma ExtFragmentCentred(text: string, m: TextMetrics, x: real, y: real, maxW: real)
    ensures var f := ExtFragment(text, m, x, y, maxW);
      f.text == text && f.baselineHeight == m.actualBoundingBoxAscent && IdentityTransform(f) &&
      (m.width >= 0.0 ==> f.bbox.x1 + f.bbox.x2 == 2.0 * x + maxW) &&
      (m.Height() >= 0.0 ==> f.bbox.y1 == y && f.bbox.y2 == y + m.Height())
  {
  }

  /**
    * The fragment of a parenthesis: the stack height scaled by
    * `parentheses.scale`, grown evenly above and below, then moved by the
    * side's `yOffset` in units of that height.
    */
  function ParenFragment(opts: ChordSymbolOptions, measure: Measure, text: string, x: real,
                         top: real, height: real, opening: bool): Fragment
    requires measure(text).Height() != 0.0
  {
    var delta := height * opts.parentheses.scale - height;
    var h := height + delta;
    var m := measure(text);
    var scaleY := h / m.Height();
    var side := if opening then opts.parentheses.left else opts.parentheses.right;
    NewFragment(text, FromHW(h, m.width, x, top - delta * 0.5 + h * side.yOffset),
                m.actualBoundingBoxAscent * scaleY, 1.0, scaleY)
  }

  /**
    * A parenthesis is stretched to `height * scale`, keeps its centre on the
    * stack's centre before its own `yOffset`, and is scaled vertically only,
    * by its drawn height over its natural height.
    */
  lemma ParenFragmentStretched(opts: ChordSymbolOptions, measure: Measure, text: string, x: real,
                               top: real, height: real, opening: bool)
    requires measure(text).Height() != 0.0
    ensures var f := ParenFragment(opts, measure, text, x, top, height, opening);
      var m := measure(text);
      var h := height * opts.parentheses.scale;
      var side := if opening then opts.parentheses.left else opts.parentheses.right;
      f.text == text &&
      f.bbox.Height() == Abs(h) && f.bbox.Width() == Abs(m.width) &&
      (h >= 0.0 && m.width >= 0.0 ==>
        f.bbox.x1 == x && f.bbox.y1 + f.bbox.y2 == 2.0 * top + height + 2.0 * h * side.yOffset) &&
      f.scaleX == 1.0 && f.scaleY * m.Height() == h && f.angle == 0.0 &&
      f.baselineHeight == m.actualBoundingBoxAscent * f.scaleY
  {
  }

  /**
    * Where a parenthesis is drawn from the cursor: the opening one at the
    * cursor, the closing one one right inset (in glyph widths) left of it.
    */
  function ParenX(opts: ChordSymbolOptions, measure: Measure, text: string, currentX: real, opening: bool): real {
    if opening then currentX else currentX - measure(text).width * opts.parentheses.right.inset
  }

  /**
    * Where the cursor goes after a parenthesis: past the opening one less
    * its left inset, past the closing one from where it was drawn.
    */
  function ParenNextX(opts: ChordSymbolOptions, measure: Measure, text: string, currentX: real, opening: bool): real {
    var w := measure(text).width;
    if opening then currentX - w * opts.parentheses.left.inset + w else ParenX(opts, measure, text, currentX, opening) + w
  }

  // ----- The stages of the layout -----

  /**
    * The descriptor's fragment: measured as given, its text substituted once
    * more, one inset left of the cursor, raised by the vertical offset.
    */
  function DescriptorFragment(opts: ChordSymbolOptions, measure: Measure, descriptor: string, currentX: real, fontSize: real)
    : (d: Fragment)
    ensures d.text == ReplaceSharpsFlats(descriptor)
  {
    PlaceText(ReplaceSharpsFlats(descriptor), measure(descriptor), currentX - fontSize * opts.descriptorHorizontalInset,
              -fontSize * opts.descriptorVerticalOffset)
  }

  /** Extension j of a stack whose top is `top`, centred in the column from x of width maxW. */
  function StackedExtension(exts: seq<string>, ms: seq<TextMetrics>, x: real, top: real, margin: real,
                            maxW: real, j: int): Fragment
    requires 0 <= j < |exts| && j < |ms|
  {
    ExtFragment(ReplaceSharpsFlats(exts[j]), ms[j], x, StackTop(ms, top, margin, j), maxW)
  }

  /** The first n extensions of the stack, top to bottom. */
  function Stack(exts: seq<string>, ms: seq<TextMetrics>, x: real, top: real, margin: real, maxW: real,
                 n: nat): (r: seq<Fragment>)
    requires n <= |exts| && n <= |ms|
    ensures |r| == n
  {
    if n == 0 then [] else Stack(exts, ms, x, top, margin, maxW, n - 1) + [StackedExtension(exts, ms, x, top, margin, maxW, n - 1)]
  }

  /** Entry j of the stack is extension j. */
  lemma {:induction false} StackAt(exts: seq<string>, ms: seq<TextMetrics>, x: real, top: real, margin: real,
                                   maxW: real, n: nat, j: nat)
    requires j < n <= |exts| && n <= |ms|
    ensures Stack(exts, ms, x, top, margin, maxW, n)[j] == StackedExtension(exts, ms, x, top, margin, maxW, j)
  {
    if j < n - 1 {
      StackAt(exts, ms, x, top, margin, maxW, n - 1, j);
    }
  }

  /** The texts of the whole stack are the extensions, each after the substitution. */
  lemma StackTexts(exts: seq<string>, ms: seq<TextMetrics>, x: real, top: real, margin: real, maxW: real)
    requires |exts| == |ms|
    ensures Texts(Stack(exts, ms, x, top, margin, maxW, |exts|)) == MapReplaceSharpsFlats(exts)
  {
    var stack := Stack(exts, ms, x, top, margin, maxW, |exts|);
    forall j | 0 <= j < |exts| ensures stack[j].text == MapReplaceSharpsFlats(exts)[j] {
      StackAt(exts, ms, x, top, margin, maxW, |exts|, j);
      MapReplaceSharpsFlatsAt(exts, j);
    }
    TextsOf(stack, MapReplaceSharpsFlats(exts));
  }

  /** The number of parentheses drawn around the extensions: 2 or 0. */
  function ParenCount(opts: ChordSymbolOptions, exts: seq<string>): nat {
    if ShowParentheses(opts, exts) then 2 else 0
  }

  /** The top of the stack, centred on `center`. */
  function ExtTop(ms: seq<TextMetrics>, margin: real, center: real): real {
    center - TotalHeight(ms, margin) * 0.5
  }

  /** The left edge of the extension column: after the opening parenthesis when it is drawn. */
  function ColumnX(opts: ChordSymbolOptions, measure: Measure, exts: seq<string>, currentX: real): real
    requires opts.Valid()
  {
    if ShowParentheses(opts, exts) then ParenNextX(opts, measure, opts.parentheses.Opening(), currentX, true) else currentX
  }

  /** The right edge of the extension column, as wide as the widest extension. */
  function ColumnEnd(opts: ChordSymbolOptions, measure: Measure, exts: seq<string>, currentX: real): real
    requires opts.Valid()
  {
    ColumnX(opts, measure, exts, currentX) + MaxWidth(ExtMetrics(measure, exts))
  }

  /**
    * The fragments of the extension group laid out from `currentX`: the
    * stack centred on `center`, in a column as wide as the widest
    * extension, between two parentheses as tall as the stack when they are
    * shown.
    */
  function ExtensionGroup(opts: ChordSymbolOptions, measure: Measure, exts: seq<string>, currentX: real,
                          margin: real, center: real): seq<Fragment>
    requires ParenthesesMeasurable(opts, measure, exts) && |exts| > 0
  {
    var ms := ExtMetrics(measure, exts);
    var top := ExtTop(ms, margin, center);
    var total := TotalHeight(ms, margin);
    var stack := Stack(exts, ms, ColumnX(opts, measure, exts, currentX), top, margin, MaxWidth(ms), |exts|);
    if ShowParentheses(opts, exts) then
      [ParenFragment(opts, measure, opts.parentheses.Opening(), currentX, top, total, true)] + stack +
      [ParenFragment(opts, measure, opts.parentheses.Closing(),
                     ParenX(opts, measure, opts.parentheses.Closing(), ColumnEnd(opts, measure, exts, currentX), false),
                     top, total, false)]
    else stack
  }

  /** Where the layout goes on after the extension group. */
  function ExtensionGroupEnd(opts: ChordSymbolOptions, measure: Measure, exts: seq<string>, currentX: real): real
    requires opts.Valid()
  {
    var end := ColumnEnd(opts, measure, exts, currentX);
    if ShowParentheses(opts, exts) then ParenNextX(opts, measure, opts.parentheses.Closing(), end, false) else end
  }

  /**
    * The group's shape: the parentheses, when shown, come first and last,
    * and extension j sits at its stack top in between.
    */
  lemma ExtensionGroupShape(opts: ChordSymbolOptions, measure: Measure, exts: seq<string>, currentX: real,
                            margin: real, center: real)
    requires ParenthesesMeasurable(opts, measure, exts) && |exts| > 0
    ensures var g := ExtensionGroup(opts, measure, exts, currentX, margin, center);
      var ms := ExtMetrics(measure, exts);
      var paren := ShowParentheses(opts, exts);
      |g| == |exts| + ParenCount(opts, exts) &&
      (paren ==> g[0].text == opts.parentheses.Opening() && g[|g| - 1].text == opts.parentheses.Closing()) &&
      forall j :: 0 <= j < |exts| ==>
        g[ParenCount(opts, exts) / 2 + j] ==
          StackedExtension(exts, ms, ColumnX(opts, measure, exts, currentX), ExtTop(ms, margin, center), margin, MaxWidth(ms), j)
  {
    var g := ExtensionGroup(opts, measure, exts, currentX, margin, center);
    var ms := ExtMetrics(measure, exts);
    var stack := Stack(exts, ms, ColumnX(opts, measure, exts, currentX), ExtTop(ms, margin, center), margin, MaxWidth(ms), |exts|);
    var first := ParenCount(opts, exts) / 2;
    assert g[first..first + |exts|] == stack;
    forall j | 0 <= j < |exts|
      ensures g[first + j] ==
        StackedExtension(exts, ms, ColumnX(opts, measure, exts, currentX), ExtTop(ms, margin, center), margin, MaxWidth(ms), j)
    {
      assert g[first + j] == g[first..first + |exts|][j];
      StackAt(exts, ms, ColumnX(opts, measure, exts, currentX), ExtTop(ms, margin, center), margin, MaxWidth(ms), |exts|, j);
    }
  }

  /** The group draws the parentheses, when shown, around the substituted extensions. */
  lemma ExtensionGroupTexts(opts: ChordSymbolOptions, measure: Measure, exts: seq<string>, currentX: real,
                            margin: real, center: real)
    requires ParenthesesMeasurable(opts, measure, exts) && |exts| > 0
    ensures Texts(ExtensionGroup(opts, measure, exts, currentX, margin, center)) == ExtensionTexts(opts, exts)
  {
    var ms := ExtMetrics(measure, exts);
    var stack := Stack(exts, ms, ColumnX(opts, measure, exts, currentX), ExtTop(ms, margin, center), margin, MaxWidth(ms), |exts|);
    StackTexts(exts, ms, ColumnX(opts, measure, exts, currentX), ExtTop(ms, margin, center), margin, MaxWidth(ms));
    if ShowParentheses(opts, exts) {
      var total := TotalHeight(ms, margin);
      var o := ParenFragment(opts, measure, opts.parentheses.Opening(), currentX, ExtTop(ms, margin, center), total, true);
      var c := ParenFragment(opts, measure, opts.parentheses.Closing(),
                             ParenX(opts, measure, opts.parentheses.Closing(), ColumnEnd(opts, measure, exts, currentX), false),
                             ExtTop(ms, margin, center), total, false);
      TextsAppend([o], stack);
      TextsAppend([o] + stack, [c]);
    }
  }

  /** A list of fragments whose texts are, index by index, those of `ts`. */
  lemma TextsOf(fs: seq<Fragment>, ts: seq<string>)
    requires |fs| == |ts| && forall k :: 0 <= k < |fs| ==> fs[k].text == ts[k]
    ensures Texts(fs) == ts
  {
  }

  /**
    * The separator drawn from the cursor: moved back by its left inset (in
    * natural widths), scaled by `scaleX`/`scaleY` and rotated by `-angle`.
    */
  function SeparatorFragment(opts: ChordSymbolOptions, m: TextMetrics, text: string, currentX: real, yOffset: real): Fragment {
    var so := opts.separator;
    NewFragment(text, FromHW(m.Height() * so.scaleY, m.width * so.scaleX, currentX - so.leftInset * m.width, yOffset),
                m.actualBoundingBoxAscent * so.scaleY, so.scaleX, so.scaleY, -so.angle)
  }

  /** Where the cursor goes after the separator: its scaled width less the right inset (in scaled widths). */
  function SeparatorNextX(opts: ChordSymbolOptions, m: TextMetrics, currentX: real): real {
    var so := opts.separator;
    var scaledW := m.width * so.scaleX;
    currentX - so.leftInset * m.width + scaledW - so.rightInset * scaledW
  }

  /**
    * The separator's box is its measured box scaled, with its left edge one
    * left inset before the cursor; it carries the scaled baseline and the
    * separator's transform.
    */
  lemma SeparatorScaled(opts: ChordSymbolOptions, m: TextMetrics, text: string, currentX: real, yOffset: real)
    ensures var f := SeparatorFragment(opts, m, text, currentX, yOffset);
      var so := opts.separator;
      f.text == text &&
      f.bbox.Width() == Abs(m.width * so.scaleX) && f.bbox.Height() == Abs(m.Height() * so.scaleY) &&
      (m.width * so.scaleX >= 0.0 ==> f.bbox.x1 == currentX - so.leftInset * m.width) &&
      (m.Height() * so.scaleY >= 0.0 ==> f.bbox.y1 == yOffset) &&
      f.baselineHeight == m.actualBoundingBoxAscent * so.scaleY &&
      f.scaleX == so.scaleX && f.scaleY == so.scaleY && f.angle == -so.angle
  {
  }

  /**
    * The separator at the cursor, raised by `separator.yOffset` font sizes,
    * and the bass note right after it, `bassYOffset` font sizes lower.
    */
  function BassChange(opts: ChordSymbolOptions, measure: Measure, bassNote: string, currentX: real, fontSize: real)
    : (r: seq<Fragment>)
    ensures Texts(r) == ["/", bassNote]
  {
    var sepY := fontSize * opts.separator.yOffset;
    [SeparatorFragment(opts, measure("/"), "/", currentX, sepY),
     PlaceText(bassNote, measure(bassNote), SeparatorNextX(opts, measure("/"), currentX), sepY + opts.bassYOffset * fontSize)]
  }

  /**
    * The separator's left edge is one left inset (in natural widths) before
    * the cursor, `separator.yOffset` font sizes down; the bass note starts
    * a right inset (in scaled widths) before the separator's right edge and
    * `bassYOffset` font sizes below the separator's top, in its natural box.
    */
  lemma BassChangePlaced(opts: ChordSymbolOptions, measure: Measure, bassNote: string, currentX: real, fontSize: real)
    requires measure("/").width * opts.separator.scaleX >= 0.0 && measure("/").Height() * opts.separator.scaleY >= 0.0
    requires measure(bassNote).width >= 0.0 && measure(bassNote).Height() >= 0.0
    ensures var r := BassChange(opts, measure, bassNote, currentX, fontSize);
      var so := opts.separator;
      |r| == 2 &&
      r[0].bbox.x1 == currentX - so.leftInset * measure("/").width && r[0].bbox.y1 == fontSize * so.yOffset &&
      r[1].bbox.x1 == r[0].bbox.x2 - so.rightInset * r[0].bbox.Width() &&
      r[1].bbox.y1 == r[0].bbox.y1 + fontSize * opts.bassYOffset &&
      r[1].bbox.Width() == measure(bassNote).width && r[1].bbox.Height() == measure(bassNote).Height()
  {
    var so := opts.separator;
    var m := measure("/");
    SeparatorScaled(opts, m, "/", currentX, fontSize * so.yOffset);
    PlaceTextAt(bassNote, measure(bassNote), SeparatorNextX(opts, m, currentX), fontSize * so.yOffset + opts.bassYOffset * fontSize);
  }

  /** The root's fragment, if any, and where it leaves the cursor. */
  function RootStage(opts: ChordSymbolOptions, measure: Measure, fontSize: real, root: string): (r: (seq<Fragment>, real))
    ensures Texts(r.0) == RootTexts(root)
  {
    var m := measure(ReplaceSharpsFlats(root));
    if root != "" then ([PlaceText(ReplaceSharpsFlats(root), m, 0.0, 0.0)], Abs(m.width) - fontSize * opts.descriptorHorizontalInset)
    else ([], 0.0)
  }

  /** The descriptor's fragment, if any, where it leaves the cursor, and the centre line it sets. */
  function DescriptorStage(opts: ChordSymbolOptions, measure: Measure, fontSize: real, descriptor: string, x: real)
    : (r: (seq<Fragment>, real, real))
    ensures Texts(r.0) == DescriptorTexts(descriptor)
    ensures descriptor == "" ==> r == ([], x, 0.0)
  {
    var d := DescriptorFragment(opts, measure, ReplaceSharpsFlats(descriptor), x, fontSize);
    if descriptor != "" then
      ([d], x + measure(ReplaceSharpsFlats(descriptor)).width - fontSize * opts.descriptorHorizontalInset, (d.bbox.y1 + d.bbox.y2) * 0.5)
    else ([], x, 0.0)
  }

  /** The extension group, if any, and where it leaves the cursor. */
  function ExtensionStage(opts: ChordSymbolOptions, measure: Measure, margin: real, exts: seq<string>, x: real, center: real)
    : (r: (seq<Fragment>, real))
    requires ParenthesesMeasurable(opts, measure, exts)
  {
    if |exts| > 0 then
      (ExtensionGroup(opts, measure, exts, x, margin, center), ExtensionGroupEnd(opts, measure, exts, x))
    else ([], x)
  }

  /** The separator and the bass note, if there is a bass note. */
  function BassStage(opts: ChordSymbolOptions, measure: Measure, fontSize: real, bass: string, x: real): (r: seq<Fragment>)
    ensures Texts(r) == BassTexts(bass)
  {
    if bass != "" then BassChange(opts, measure, ReplaceSharpsFlats(bass), x, fontSize) else []
  }

  /** The extension stage lays out the extension texts, within parentheses when they are shown. */
  lemma ExtensionStageTexts(opts: ChordSymbolOptions, measure: Measure, margin: real, exts: seq<string>, x: real,
                            center: real)
    requires ParenthesesMeasurable(opts, measure, exts)
    ensures Texts(ExtensionStage(opts, measure, margin, exts, x, center).0) == ExtensionTexts(opts, exts)
  {
    if |exts| > 0 {
      ExtensionGroupTexts(opts, measure, exts, x, margin, center);
    }
  }

  /**
    * The stages laid end to end, each starting where the previous one left
    * the cursor, carry exactly the texts of the parts, in order.
    */
  lemma StagesTexts(opts: ChordSymbolOptions, measure: Measure, fontSize: real,
                    root: string, descriptor: string, exts: seq<string>, bass: string)
    requires ParenthesesMeasurable(opts, measure, exts)
    ensures var r := RootStage(opts, measure, fontSize, root);
      var d := DescriptorStage(opts, measure, fontSize, descriptor, r.1);
      var e := ExtensionStage(opts, measure, ExtensionMargin(opts, fontSize), exts, d.1, d.2);
      Texts(r.0 + d.0 + e.0 + BassStage(opts, measure, fontSize, bass, e.1)) == PartTexts(opts, root, descriptor, exts, bass)
  {
    var r := RootStage(opts, measure, fontSize, root);
    var d := DescriptorStage(opts, measure, fontSize, descriptor, r.1);
    var e := ExtensionStage(opts, measure, ExtensionMargin(opts, fontSize), exts, d.1, d.2);
    ExtensionStageTexts(opts, measure, ExtensionMargin(opts, fontSize), exts, d.1, d.2);
    TextsAppend(r.0, d.0);
    TextsAppend(r.0 + d.0, e.0);
    TextsAppend(r.0 + d.0 + e.0, BassStage(opts, measure, fontSize, bass, e.1));
  }

  /**
    * Everything `layoutChordSymbol` draws for a chord at a font size: the
    * quality folded, then the root, the descriptor, the extension group and
    * the bass change, each stage starting where the previous one left the
    * cursor.
    */
  function ChordFragments(opts: ChordSymbolOptions, measure: Measure, fontSize: real, chord: FormattedChord)
    : (fragments: seq<Fragment>)
    requires ParenthesesMeasurable(opts, measure, chord.chordChanges)
    ensures Texts(fragments) == ExpectedTexts(opts, chord)
  {
    var q := FoldQuality(opts.useMinusSignForMinorChords, chord.rootNote, chord.descriptor);
    StagesTexts(opts, measure, fontSize, q.0, q.1, chord.chordChanges, chord.bassNote);
    var r := RootStage(opts, measure, fontSize, q.0);
    var d := DescriptorStage(opts, measure, fontSize, q.1, r.1);
    var e := ExtensionStage(opts, measure, ExtensionMargin(opts, fontSize), chord.chordChanges, d.1, d.2);
    r.0 + d.0 + e.0 + BassStage(opts, measure, fontSize, chord.bassNote, e.1)
  }

  /**
    * When there is a root, the layout starts with the root, in its natural
    * box at the origin.
    */
  lemma StagesStartWithRoot(opts: ChordSymbolOptions, measure: Measure, fontSize: real,
                            root: string, descriptor: string, exts: seq<string>, bass: string)
    requires ParenthesesMeasurable(opts, measure, exts) && root != ""
    ensures var r := RootStage(opts, measure, fontSize, root);
      var d := DescriptorStage(opts, measure, fontSize, descriptor, r.1);
      var e := ExtensionStage(opts, measure, ExtensionMargin(opts, fontSize), exts, d.1, d.2);
      var fs := r.0 + d.0 + e.0 + BassStage(opts, measure, fontSize, bass, e.1);
      var m := measure(ReplaceSharpsFlats(root));
      |fs| > 0 && fs[0].text == ReplaceSharpsFlats(root) && fs[0].bbox == FromHW(m.Height(), m.width, 0.0, 0.0)
  {
    var r := RootStage(opts, measure, fontSize, root);
    var d := DescriptorStage(opts, measure, fontSize, descriptor, r.1);
    var e := ExtensionStage(opts, measure, ExtensionMargin(opts, fontSize), exts, d.1, d.2);
    FirstOfFour(r.0, d.0, e.0, BassStage(opts, measure, fontSize, bass, e.1));
  }

  /** Four lists laid end to end start with the first element of the first one. */
  lemma FirstOfFour<T>(a: seq<T>, b: seq<T>, c: seq<T>, d: seq<T>)
    requires |a| > 0
    ensures |a + b + c + d| > 0 && (a + b + c + d)[0] == a[0]
  {
  }
}
