# Bb layout core in Dafny

This project models the layout core of Bb, a TypeScript library that lays out
chord symbols and simple scores on an HTML canvas. It covers four parts:

- **Rectangle algebra.** `BoundingBoxes` (bounding_boxes.dfy) models the box of
  src/bounding-boxes.ts and the API its consumers use: the `x`/`y` setters that
  move the box, the `w`/`h` aliases and `smallestBoxEnclosing`. The box is a value
  `Box`. The class `BoundingBox` has in-place setters, and each one is proved equal
  to a function on the value.
- **Chord-symbol layout.** Given a parsed chord (root, descriptor, extensions,
  bass), a `measure` function standing for the canvas and a font size, the layout
  produces a sequence of text fragments (text, box, baseline, scale, angle). Both
  versions are modelled:
  - the current engine of packages/format (`Format`, `FormatLayout`, `FormatText`,
    `FormatUtil`, `FormatOptions`);
  - the legacy renderer of src/ (`Renderer`, `RendererLayout`, `LegacyText`,
    `LegacyOptions`, `LegacyParentheses`).

  Each engine has two halves. A module of functions states what every stage
  draws. The methods perform the source's steps in order, threading the cursor
  and the fragment list, and are proved equal to those functions. Lemmas then
  prove the fragment order, the text substitutions and the geometry.
- **Tree bookkeeping.** `TreeNode` and `Trees` model `BbTreeNode` as an arena.
  Node `k` is `nodes[k]`, and it holds its parent's index and its children's
  indices. Each mutator is a function on the arena plus a method of the class
  `Trees.Tree` that performs the same splices, pushes and parent updates. The
  navigation (`index`, siblings, `next`/`prev`, `walk`, `flatten`) is pure.
- **Positions and placement.** `Element` covers the canvas position of an
  element: the sum of its own offset and its ancestors' offsets.
  `Placement`, `Score` and `SystemLayout` cover the two loops that place a
  node's children one after another: `spaceSystems` stacks systems vertically,
  and `placeMeasures` lines measures up horizontally.

Some of the source's behaviour is kept as written, because other code can
observe it:

- `intersection` computes the box enclosing both inputs, and `union` computes their
  overlap. The bounding-box tests expect these names the other way round.
  The model keeps the source's names, and each lemma is named after what the
  formula computes.
- In the test API, `move` is relative (it is the class's `offset`) and `moveTo` is
  absolute (it is the class's `move`). `BbText` re-anchors with the absolute `move`
  of src/bounding-boxes.ts.
- `insertChildren` does not set its children's parent. Neither does `changeParent`
  when it is given a non-zero index. A missing child has `indexOf` -1, and `splice`
  then removes the parent's last child.
- `moveDeeper` leaves the new parent's own parent pointer alone.
- `walk` swaps the before and after callbacks at every level.
- `prev` descends only one level into the previous sibling.
- `isBranch` is documented as "no children", but it computes "neither a root nor a
  leaf", that is, a node with a parent and children. The model follows the code.
- The current engine substitutes ♭/♯ in the descriptor twice. It skips the
  parentheses when the extensions are exactly `["alt"]`. Its per-side parenthesis
  inset is 0.0, although the field's documentation says 0.2. The legacy default is 0.2.
- The legacy renderer builds the parenthesis fragment with its arguments in the
  wrong order. This puts 1 in `baselineHeight` and the stretch ratio in `scaleX`.
  The legacy `addBass` returns a cursor computed from the bass width alone.
- The legacy `getContextFontSize` and `replaceSharpsFlats` (src/bb-renderer.ts:309-322)
  are the same code as packages/format/src/bb-format-util.ts. Both engines use the
  one model in `FormatUtil`.

## Model

| member | source | states |
|---|---|---|
| BoundingBoxes.Make | src/bounding-boxes.ts:78-84 | the constructed box has ordered corners: x1/x2 are the min/max of the given xs, y1/y2 the min/max of the given ys, so the width and height are the absolute differences |
| BoundingBoxes.SortX | src/bounding-boxes.ts:182-186 | `orderX` leaves x1 = min and x2 = max of the two xs and does not touch y |
| BoundingBoxes.SortY | src/bounding-boxes.ts:189-193 | `orderY` leaves y1 = min and y2 = max of the two ys and does not touch x |
| BoundingBoxes.FromHW | src/bounding-boxes.ts:87-89 | `fromHW(h, w, x, y)` has corners (x, y) and (x+w, y+h), reordered when w or h is negative; the box is ordered, and its width and height are abs(w) and abs(h) |
| BoundingBoxes.WithX1 | src/bounding-boxes.ts:36-42 | setting x1 to a value past x2 swaps the two (x1 = old x2, x2 = v); otherwise x1 = v; y is unchanged and the box stays ordered |
| BoundingBoxes.WithY1 | src/bounding-boxes.ts:47-53 | setting y1 past y2 swaps them, otherwise y1 = v; x unchanged; stays ordered |
| BoundingBoxes.WithX2 | src/bounding-boxes.ts:58-64 | setting x2 below x1 swaps them, otherwise x2 = v; y unchanged; stays ordered |
| BoundingBoxes.WithY2 | src/bounding-boxes.ts:69-75 | setting y2 below y1 swaps them, otherwise y2 = v; x unchanged; stays ordered |
| BoundingBoxes.WithWidth | src/bounding-boxes.ts:25-31 | setting the width to v gives width abs(v): for v >= 0 the box spans x1..x1+v, and for negative v it spans x1+v..x1; y unchanged |
| BoundingBoxes.WithHeight | src/bounding-boxes.ts:16-22 | setting the height to v gives height abs(v), growing down from y1 or, for negative v, up to y1; x unchanged |
| BoundingBoxes.WithX | tests/bounding-boxes.spec.ts:182-217 | the consumers' `x` setter puts the left edge at v and keeps the width and the vertical extent |
| BoundingBoxes.WithY | tests/bounding-boxes.spec.ts:182-217 | the consumers' `y` setter puts the top edge at v and keeps the height and the horizontal extent |
| BoundingBoxes.Intersection | src/bounding-boxes.ts:119-122 | the formula named `intersection` gives an ordered box; for ordered inputs it is min-of-mins/max-of-maxes and encloses both inputs |
| BoundingBoxes.Union | src/bounding-boxes.ts:128-131 | the formula named `union` gives an ordered box; for ordered, intersecting inputs it is max-of-mins/min-of-maxes and lies inside both inputs |
| BoundingBoxes.Moved | src/bounding-boxes.ts:143-153 | `move(x, y)` puts the top-left corner at (x, y) and keeps the width and height |
| BoundingBoxes.Shifted | src/bounding-boxes.ts:162-169 | `offset(dx, dy)` translates the top-left corner by (dx, dy) and keeps the width and height |
| BoundingBoxes.SmallestBoxEnclosing | tests/bounding-boxes.spec.ts:250-270 | over ordered boxes the fold is ordered, encloses every box, and each of its four edges is an edge of some input box |
| BoundingBoxes.ContainsPointIffTouches | src/bounding-boxes.ts:96-113 | a point is contained, edges included, exactly when the degenerate box at the point intersects the box |
| BoundingBoxes.CornersContained | tests/bounding-boxes.spec.ts:82-97 | containment is inclusive: all four corners of an ordered box are contained in it |
| BoundingBoxes.IntersectsIffCommonPoint | src/bounding-boxes.ts:111-113 | two ordered boxes intersect exactly when some point lies in both, so touching edges count |
| BoundingBoxes.IntersectsSymmetric | src/bounding-boxes.ts:111-113 | `a.intersects(b)` equals `b.intersects(a)` |
| BoundingBoxes.IntersectionIsLeastEnclosing | src/bounding-boxes.ts:119-122 | a box encloses both inputs exactly when it encloses their `intersection`, so `intersection` is the least enclosing box |
| BoundingBoxes.IntersectionCommutesAssociates | src/bounding-boxes.ts:119-122 | `intersection` is commutative and associative on ordered boxes |
| BoundingBoxes.UnionIsCommonRegion | src/bounding-boxes.ts:128-131 | for intersecting ordered boxes, a point is in `union` exactly when it is in both inputs |
| BoundingBoxes.UnionInsideIntersection | src/bounding-boxes.ts:119-131 | the overlap (`union`) always lies inside the enclosure (`intersection`) |
| BoundingBoxes.ShiftedIsMoved | src/bounding-boxes.ts:143-169 | an offset by (dx, dy) is a move to the shifted corner, and offsetting back by (-dx, -dy) restores the box |
| BoundingBoxes.MovedIsWithXY | tests/bounding-boxes.spec.ts:201-233 | `moveTo(x, y)` is the same as setting `x` and then `y` |
| BoundingBoxes.SmallestBoxIsLeast | tests/bounding-boxes.spec.ts:250-270 | a box encloses the fold exactly when it encloses every input, so the fold is the smallest enclosing box |
| BoundingBoxes.SmallestBoxOrderFree | tests/bounding-boxes.spec.ts:250-270 | the result does not depend on the order of the input boxes |
| BoundingBoxes.SmallestBoxExamples | tests/bounding-boxes.spec.ts:250-260 | the test's three rows give [-50, 0, 200, 130], [-100, -50, 220, 290] and, with a first box given bottom edge first, [-100, -100, 200, 130] |
| BoundingBoxes.BoundingBox.constructor | src/bounding-boxes.ts:78-84 | the new box is ordered and holds `Make` of its corners |
| BoundingBoxes.BoundingBox.Order | src/bounding-boxes.ts:176-179 | `order` sorts x and then y |
| BoundingBoxes.BoundingBox.OrderX | src/bounding-boxes.ts:182-186 | `orderX` swaps x1 and x2 when x1 > x2 |
| BoundingBoxes.BoundingBox.OrderY | src/bounding-boxes.ts:189-193 | `orderY` swaps y1 and y2 when y1 > y2 |
| BoundingBoxes.BoundingBox.SetX1 | src/bounding-boxes.ts:39-42 | the setter keeps the box ordered and leaves the value `WithX1` describes |
| BoundingBoxes.BoundingBox.SetY1 | src/bounding-boxes.ts:50-53 | keeps the box ordered; the new value is `WithY1` |
| BoundingBoxes.BoundingBox.SetX2 | src/bounding-boxes.ts:61-64 | keeps the box ordered; the new value is `WithX2` |
| BoundingBoxes.BoundingBox.SetY2 | src/bounding-boxes.ts:72-75 | keeps the box ordered; the new value is `WithY2` |
| BoundingBoxes.BoundingBox.SetWidth | src/bounding-boxes.ts:28-31 | keeps the box ordered; the new value is `WithWidth` |
| BoundingBoxes.BoundingBox.SetHeight | src/bounding-boxes.ts:19-22 | keeps the box ordered; the new value is `WithHeight` |
| BoundingBoxes.BoundingBox.SetW | tests/bounding-boxes.spec.ts:44-55 | the `w` alias behaves as the width setter |
| BoundingBoxes.BoundingBox.SetH | tests/bounding-boxes.spec.ts:68-79 | the `h` alias behaves as the height setter |
| BoundingBoxes.BoundingBox.SetX | tests/bounding-boxes.spec.ts:182-200 | the `x` setter moves the box horizontally, keeping its size; stays ordered |
| BoundingBoxes.BoundingBox.SetY | tests/bounding-boxes.spec.ts:182-200 | the `y` setter moves the box vertically, keeping its size; stays ordered |
| BoundingBoxes.BoundingBox.Move | src/bounding-boxes.ts:143-153 | the absolute move keeps the box ordered and leaves `Moved` of the old box |
| BoundingBoxes.BoundingBox.Offset | src/bounding-boxes.ts:162-169 | the relative move keeps the box ordered and leaves `Shifted` of the old box |
| TextFragment.NewFragment | src/bb-text-fragment.ts:65-79 | the constructor stores each argument unchanged in the field of the same name |
| TextFragment.DefaultFragment | src/bb-text-fragment.ts:65-79 | the defaults are text "", box (0,0,0,0), baseline 0, and the identity transform (scales 1, angle 0) |
| TextFragment.TextsAppend | src/bb-text-fragment.ts:65-79 | the texts of two fragment lists placed end to end are the two text lists end to end |
| LegacyText.BbText.constructor | src/bb-text.ts:40-45 | the text keeps the given fragments, and its box is the smallest box enclosing their boxes |
| LegacyText.BbText.SetFragments | src/bb-text.ts:18-21 | assigning `fragments` replaces the list and recomputes the enclosing box |
| LegacyText.BbText.RecomputeBbox | src/bb-text.ts:50-54 | recomputing leaves the fragments alone; on a consistent text it does not change the box |
| FormatText.BbText.constructor | packages/format/src/bb-text.ts:77-85 | the box is the fragments' enclosure moved to (0, 0); `yOverflow` is the negated top edge of the enclosure taken before the move |
| FormatText.BbText.Translate | packages/format/src/bb-text.ts:61-64 | only the text's own box shifts by (dx, dy); its size, the fragments and `yOverflow` are unchanged |
| FormatText.BbText.Move | packages/format/src/bb-text.ts:69-72 | the box's top-left goes to (x, y), and the size, fragments and `yOverflow` are unchanged |
| FormatText.BbText.SetFragments | packages/format/src/bb-text.ts:18-21 | assigning `fragments` takes the new fragments' enclosure size and overflow but keeps the previous (x, y) handle |
| FormatText.BbText.RecomputeBbox | packages/format/src/bb-text.ts:92-102 | the fragments are unchanged; the box takes the enclosure's size at the previous (x, y); `yOverflow` is the enclosure's negated top |
| LegacyOptions.ChordSymbolDefaults | src/bb-chord-symbol-options.ts:16-60 | the legacy defaults 0.05, 0.3, 0.1, true, 0.1, -0.1, 0.4, 0.15, 0.05, 0.3, 0.1 |
| LegacyParentheses.IsOpening | src/bb-chord-symbol-parentheses-options.ts:97-99 | true exactly for "(", "[" and "{" |
| LegacyParentheses.IsClosing | src/bb-chord-symbol-parentheses-options.ts:104-106 | true exactly for ")", "]" and "}" |
| LegacyParentheses.OpeningClosingDisjoint | src/bb-chord-symbol-parentheses-options.ts:82-92 | no string is both opening and closing |
| LegacyParentheses.GlyphsOfType | src/bb-chord-symbol-parentheses-options.ts:67-92 | each parenthesis type indexes an opening glyph and a closing glyph of that type |
| LegacyParentheses.ParenthesesDefaults | src/bb-chord-symbol-parentheses-options.ts:11-71 | show, type Parenthesis (= 0), scale 1.2, inset 0.2 and yOffset 0 on each side; Bracket = 1, Brace = 2 |
| FormatOptions.ChordSymbolDefaults | packages/format/src/chord-symbol/bb-chord-symbol-options.ts:19-55 | insets 0 and 0.35, margin 0.05, bass offset 0.27, minus sign on, default parentheses and separator records |
| FormatOptions.ParenthesesDefaults | packages/format/src/chord-symbol/bb-chord-symbol-parentheses-options.ts:13-70 | show, type "()" (opening "(", closing ")"), scale 1.2, per-side inset 0.0 and yOffset 0 |
| FormatOptions.SeparatorDefaults | packages/format/src/chord-symbol/bb-separator-options.ts:14-43 | yOffset 0.1, insets 0.15 and 0.1, angle 0, scales 0.8 and 1.3 |
| FormatUtil.FindSpec | packages/format/src/bb-format-util.ts:13-15 | the search returns -1 exactly when the pattern occurs nowhere from p on, and otherwise the first position where it occurs |
| FormatUtil.IndexOfIsFirst | packages/format/src/bb-format-util.ts:13-15 | `indexOf` returns the first occurrence |
| FormatUtil.IndexOfChar | packages/format/src/bb-format-util.ts:13-15 | for one character, `indexOf` is -1 exactly when it is absent, and otherwise the position of its first occurrence |
| FormatUtil.ReplaceFirstSpec | packages/format/src/bb-format-util.ts:13-15 | a string pattern replaces only its first occurrence and leaves the rest of the text as it was; no occurrence, no change |
| FormatUtil.ReplaceFirstChar | packages/format/src/bb-format-util.ts:13-15 | replacing a character changes exactly the position of its first occurrence |
| FormatUtil.ReplaceSharpsFlatsSpec | packages/format/src/bb-format-util.ts:13-15 | the length is kept; only the first 'b' becomes ♭ and only the first '#' becomes ♯ |
| FormatUtil.ReplaceSharpsFlatsNoAccidental | packages/format/src/bb-format-util.ts:13-15 | a string with neither 'b' nor '#' comes back unchanged |
| FormatUtil.ReplaceSharpsFlatsChanges | packages/format/src/bb-format-util.ts:13-15 | a position that changes held the first 'b' (now ♭) or the first '#' (now ♯), so at most two positions differ |
| FormatUtil.ReplaceSharpsFlatsNotIdempotent | packages/format/src/bb-format-util.ts:13-15 | with two 'b's, a second application changes the string again |
| FormatUtil.ReplaceSharpsFlatsExample | packages/format/src/bb-format-util.ts:13-15 | "Bb#9" becomes "B♭♯9" |
| FormatUtil.Split | packages/format/src/bb-format-util.ts:3 | splitting on " " gives at least one token, and no token contains a space |
| FormatUtil.SplitJoin | packages/format/src/bb-format-util.ts:3 | joining the tokens with " " gives back the font string |
| FormatUtil.DigitRunEnd | packages/format/src/bb-format-util.ts:4-8 | the digit run starting at p ends at the first non-digit |
| FormatUtil.MatchFromIsLeftmost | packages/format/src/bb-format-util.ts:4-8 | the `([0-9]+)px` scan yields the value at the leftmost match, or nothing when there is none |
| FormatUtil.FontSizeOf | packages/format/src/bb-format-util.ts:2-11 | over the tokens: 12 when no token matches, else the value of the first token that matches |
| FormatUtil.FontSizeIsLeftmostMatch | packages/format/src/bb-format-util.ts:2-11 | `getContextFontSize` is the value of the leftmost `<digits>px` match in the whole font string, or 12 |
| FormatUtil.MatchAcrossSpace | packages/format/src/bb-format-util.ts:4-8 | a match never spans a space, so the first match of "a rest" is a's match if any, else rest's |
| FormatUtil.FontSizeExample | packages/format/src/bb-format-util.ts:2-11 | "80px Petaluma Script" gives 80 |
| FormatUtil.PxMatchExample | packages/format/src/bb-format-util.ts:4-8 | "80px Petaluma Script" has its first match at 0 with value 80 |
| FormatUtil.FontSizeDefault | packages/format/src/bb-format-util.ts:2-11 | a font string with no `<digits>px` gives 12 |
| Format.ReplaceLeadingMi | packages/format/src/bb-format.ts:162-164 | replacing the first "mi" of a descriptor starting with "mi" replaces that leading pair with "-" |
| Format.FoldQuality | packages/format/src/bb-format.ts:155-173 | minor folding: "mi", "-" and "min" move to the root as "-"; other "mi…" descriptors get a leading "-"; "+" moves to the root whatever the flag; otherwise nothing changes |
| Format.FoldMin7 | packages/format/src/bb-format.ts:162-167 | "min7" becomes "-n7": the "mi" prefix test comes first, so the "min" branch never runs |
| Format.FoldIdempotent | packages/format/src/bb-format.ts:155-173 | folding an already folded pair changes nothing |
| Format.MapReplaceSharpsFlatsAt | packages/format/src/bb-format.ts:256-260 | entry j of the substituted extensions is the substitution of extension j |
| Format.ExpectedTextsNonEmpty | packages/format/src/bb-format.ts:174-207 | the layout draws something exactly when the chord has a root, descriptor, extension or bass |
| Format.ExtMetricsAt | packages/format/src/bb-format.ts:256-260 | extension j is measured after substitution |
| Format.MaxWidth | packages/format/src/bb-format.ts:256-260 | `maxExtWidth` is at least 0, at least every extension's width, and equals one of them unless it is 0 |
| Format.StackTopClosedForm | packages/format/src/bb-format.ts:276-286 | extension j's top is the stack top plus the heights of the extensions before it plus j margins |
| Format.StackIsCentred | packages/format/src/bb-format.ts:251-286 | a stack whose top is `center - total/2` ends at `center + total/2` |
| Format.PlaceTextAt | packages/format/src/bb-format.ts:214-227 | a measured text sits in its natural box at (x, y), with baseline = ascent and no transform |
| Format.ExtFragmentCentred | packages/format/src/bb-format.ts:339-356 | an extension is centred in its column (x1 + x2 = 2x + maxExtWidth) with its natural height at the cursor |
| Format.ParenFragmentStretched | packages/format/src/bb-format.ts:303-337 | a parenthesis is `scale` times the stack height tall, raised by half the added height and moved by height·yOffset; `scaleY` is that height over the glyph's height, and the baseline scales with it |
| Format.DescriptorFragment | packages/format/src/bb-format.ts:229-247 | the descriptor fragment carries the substituted descriptor text |
| Format.Stack | packages/format/src/bb-format.ts:276-286 | the stack holds one fragment per extension laid out |
| Format.StackAt | packages/format/src/bb-format.ts:276-286 | fragment j of the stack is extension j placed at its stacked top |
| Format.StackTexts | packages/format/src/bb-format.ts:276-286 | the stack's texts are the substituted extensions in input order |
| Format.ExtensionGroupShape | packages/format/src/bb-format.ts:249-301 | the group is the opening parenthesis (when shown), then each extension at its centred, stacked place, then the closing parenthesis |
| Format.ExtensionGroupTexts | packages/format/src/bb-format.ts:249-301 | the group's texts are the opening glyph, the substituted extensions and the closing glyph, with the glyphs only when parentheses are shown (not for exactly ["alt"]) |
| Format.SeparatorScaled | packages/format/src/bb-format.ts:366-391 | the separator is its measured box scaled by scaleX/scaleY, one left inset (in widths) before the cursor, with the scaled baseline and angle -separator.angle |
| Format.BassChangePlaced | packages/format/src/bb-format.ts:358-409 | the separator sits at `separator.yOffset` font sizes; the bass starts a right inset (in scaled widths) before the separator's right edge, `bassYOffset` font sizes lower, in its natural box |
| Format.BassChange | packages/format/src/bb-format.ts:358-364 | the bass change draws "/" and then the bass note |
| Format.RootStage | packages/format/src/bb-format.ts:174-180 | the root stage draws the substituted root when there is one |
| Format.DescriptorStage | packages/format/src/bb-format.ts:183-191 | the descriptor stage draws the doubly substituted descriptor when there is one; without one the cursor stays and `center` is 0 |
| Format.BassStage | packages/format/src/bb-format.ts:199-207 | the bass stage draws "/" and the substituted bass when there is a bass note |
| Format.ExtensionStageTexts | packages/format/src/bb-format.ts:194-197 | the extension stage draws the extension texts, within parentheses when shown |
| Format.StagesTexts | packages/format/src/bb-format.ts:174-207 | the four stages in sequence draw root, descriptor, extension group, "/" and bass, each only when present |
| Format.ChordFragments | packages/format/src/bb-format.ts:145-207 | the whole layout of a chord (quality folded, then the four stages, each from the previous cursor) carries exactly the expected texts |
| Format.StagesStartWithRoot | packages/format/src/bb-format.ts:174-182 | with a root, the first fragment is the substituted root in its natural box at (0, 0) |
| FormatLayout.LayoutParenthesis | packages/format/src/bb-format.ts:303-337 | appends one parenthesis fragment at the opening or closing position and advances the cursor by the inset rule |
| FormatLayout.LayoutRoot | packages/format/src/bb-format.ts:214-227 | appends the root at (0, 0); the cursor becomes its width less the descriptor inset |
| FormatLayout.LayoutDescriptor | packages/format/src/bb-format.ts:229-247 | appends the descriptor; the cursor advances by its width less the inset; `center` is the descriptor's vertical midpoint |
| FormatLayout.MeasureExtensions | packages/format/src/bb-format.ts:256-260 | the loop computes the widest extension and the stack height: the heights plus one margin between each pair |
| FormatLayout.MetricsSnoc | packages/format/src/bb-format.ts:256-260 | one more loop step takes the max with the next width and adds the next height |
| FormatLayout.AddExtension | packages/format/src/bb-format.ts:339-356 | appends the extension centred in the column and moves `currentY` down by its height |
| FormatLayout.StackExtensions | packages/format/src/bb-format.ts:276-286 | the loop appends exactly the stack of all extensions |
| FormatLayout.LayoutExtensions | packages/format/src/bb-format.ts:249-301 | appends the extension group and leaves the cursor after the closing parenthesis |
| FormatLayout.LayoutSeparator | packages/format/src/bb-format.ts:366-391 | appends the scaled separator and moves the cursor past it less the right inset |
| FormatLayout.LayoutBass | packages/format/src/bb-format.ts:393-409 | appends the bass in its natural box at the cursor and advances by its width |
| FormatLayout.LayoutBassChange | packages/format/src/bb-format.ts:358-364 | appends "/" and the bass as `BassChange` places them |
| FormatLayout.FoldQualityInPlace | packages/format/src/bb-format.ts:155-173 | the step-by-step folding of root and descriptor computes `FoldQuality` |
| FormatLayout.LayoutChordSymbol | packages/format/src/bb-format.ts:135-212 | no text when parsing or rendering fails, else a consistent text anchored at (0, 0) whose fragments are `ChordFragments` at the font size read from the font string: text and box of every fragment, root, descriptor, group and bass in order |
| FormatLayout.LayoutFragments | packages/format/src/bb-format.ts:145-207 | the fragments are `ChordFragments`: after folding, the four stages in order; their texts are the expected ones |
| FormatLayout.LayoutParts | packages/format/src/bb-format.ts:174-207 | the parts are laid out stage by stage, each starting at the previous stage's cursor |
| FormatLayout.LayoutRootStage | packages/format/src/bb-format.ts:174-180 | lays out the root stage when there is a root |
| FormatLayout.LayoutDescriptorStage | packages/format/src/bb-format.ts:183-191 | lays out the descriptor stage and returns the new cursor and centre |
| FormatLayout.LayoutExtensionStage | packages/format/src/bb-format.ts:194-197 | lays out the extension stage when there are extensions |
| FormatLayout.LayoutBassStage | packages/format/src/bb-format.ts:199-207 | lays out the bass change when there is a bass note |
| Renderer.ExpectedTextsNonEmpty | src/bb-renderer.ts:151-171 | the legacy layout draws something exactly when the chord has some part |
| Renderer.ExtMetricsAt | src/bb-renderer.ts:243-249 | legacy extension j is measured as given, before substitution |
| Renderer.NaturalBoxesAt | src/bb-renderer.ts:243-249 | extension j's natural box is ordered, at the origin, and as large as its metrics |
| Renderer.StackTopClosedForm | src/bb-renderer.ts:265-276 | extension j's top is the first top plus the heights before it plus j margins |
| Renderer.StackSpan | src/bb-renderer.ts:253-276 | the stack spans its total height, and its midpoint is the first box's midpoint at `-offset` |
| Renderer.StackedExtensionPlaced | src/bb-renderer.ts:265-276 | a legacy extension keeps its natural size, is centred in the column, sits at its stacked top and carries the substituted text |
| Renderer.Stack | src/bb-renderer.ts:265-276 | the stack holds one fragment per extension laid out |
| Renderer.StackAt | src/bb-renderer.ts:265-276 | fragment j of the stack is extension j at its stacked place |
| Renderer.StackTexts | src/bb-renderer.ts:265-276 | the stack's texts are the substituted extensions in order |
| Renderer.ParenStretch | src/bb-renderer.ts:284-291 | the stretch ratio times the glyph height is the stack height plus the margin |
| Renderer.ParenFragmentAsWritten | src/bb-renderer.ts:284-307 | as written, the parenthesis has baseline 1, the stretch ratio in `scaleX` and as the box height, `scaleY` 1; ")" starts one inset before the cursor |
| Renderer.GroupStack | src/bb-renderer.ts:260-276 | the legacy column's texts are the substituted extensions |
| Renderer.ExtensionGroupShape | src/bb-renderer.ts:241-282 | the group is "(" when enabled, the stack, then ")" when enabled |
| Renderer.ExtensionGroupTexts | src/bb-renderer.ts:241-282 | the group's texts are "(", the substituted extensions, ")", with parentheses whenever enabled, "alt" included |
| Renderer.BassChangePlaced | src/bb-renderer.ts:191-221 | "/" sits one left inset before the cursor; the bass one right inset before the separator's right edge and `bassYOffset` font sizes lower; both keep their natural size |
| Renderer.RootStage | src/bb-renderer.ts:174-189 | the root is measured as given, stored substituted, at (0, 0); the cursor is its width less the inset |
| Renderer.DescriptorStage | src/bb-renderer.ts:223-239 | the descriptor, substituted once, sits one inset left of the cursor and raised by the vertical offset; the cursor advances by its width less the inset |
| Renderer.BassStage | src/bb-renderer.ts:191-221 | the bass change draws "/" and the bass; the cursor becomes the bass width less the inset, whatever it was |
| Renderer.ExtensionStageTexts | src/bb-renderer.ts:241-282 | the extension stage draws the parenthesised extension texts |
| Renderer.StagesTexts | src/bb-renderer.ts:137-172 | the stages in sequence draw root, descriptor, group, "/" and bass, each only when present |
| Renderer.ChordFragments | src/bb-renderer.ts:151-171 | the whole legacy layout of a chord (the four stages, each from the previous cursor) carries exactly the expected texts |
| RendererLayout.AddRoot | src/bb-renderer.ts:174-189 | appends the root fragment and returns the cursor after it |
| RendererLayout.AddBass | src/bb-renderer.ts:191-221 | appends "/" and the bass; the returned cursor ignores the incoming one |
| RendererLayout.AddDescriptor | src/bb-renderer.ts:223-239 | appends the descriptor fragment and advances the cursor |
| RendererLayout.AddParenthesis | src/bb-renderer.ts:284-307 | appends the parenthesis as written and advances by its width, less the inset for "(" |
| RendererLayout.MeasureExtensions | src/bb-renderer.ts:243-249 | the loop collects each extension's natural box and the widest width |
| RendererLayout.SumHeights | src/bb-renderer.ts:253-256 | the loop computes the heights plus one margin between each pair |
| RendererLayout.StackExtensions | src/bb-renderer.ts:265-276 | the loop appends exactly the stack of all extensions |
| RendererLayout.PlaceStack | src/bb-renderer.ts:260-276 | from the measured boxes, appends the centred column and returns its right edge |
| RendererLayout.AddExtensions | src/bb-renderer.ts:241-282 | appends the extension group and leaves the cursor after it |
| RendererLayout.LayoutChordSymbol | src/bb-renderer.ts:137-172 | no text when parsing or rendering fails, else a consistent text whose fragments are `ChordFragments` at the font size read from the font string: text and box of every fragment, root, descriptor, group and bass in order |
| RendererLayout.LayoutParts | src/bb-renderer.ts:151-171 | the parts are laid out stage by stage from the previous stage's cursor |
| RendererLayout.AddDescriptorStage | src/bb-renderer.ts:156-159 | adds the descriptor when there is one |
| RendererLayout.AddExtensionStage | src/bb-renderer.ts:161-164 | adds the extension group when there are extensions |
| RendererLayout.AddBassStage | src/bb-renderer.ts:166-169 | adds the bass change when there is a bass note |
| TreeNode.IndexOf | src/tree-node.ts:140-149 | `indexOf` is -1 exactly when the node is absent, and otherwise the first position holding it |
| TreeNode.SpliceStart | src/tree-node.ts:140-149 | `splice` takes a start in range as is and counts a negative start from the end |
| TreeNode.SpliceFound | src/tree-node.ts:140-149 | splicing at the index of a present child replaces exactly that child with the items |
| TreeNode.SpliceMissing | src/tree-node.ts:140-149 | splicing at index -1 (a missing child) replaces the last child instead |
| TreeNode.At | src/tree-node.ts:256-284 | reading a child by index gives a node exactly when the index is in range |
| TreeNode.SetParentsAt | src/tree-node.ts:88-97 | setting the parent of each listed child changes exactly those nodes' parent |
| TreeNode.RemoveAt | src/tree-node.ts:140-149 | removing position i keeps the children before it and shifts the rest down by one |
| TreeNode.RemoveAtContents | src/tree-node.ts:140-149 | from a list without repeats, removing position i removes exactly that child and keeps the list free of repeats |
| TreeNode.AppendChildrenEffect | src/tree-node.ts:88-97 | the children go to the end in the given order, their parent becomes the node, and no other list changes |
| TreeNode.PrependChildrenEffect | src/tree-node.ts:99-111 | the children go to the front in the given order, their parent becomes the node, and no other list changes |
| TreeNode.InsertChildrenEffect | src/tree-node.ts:58-60 | the children land at index..index+n-1 between the old children; no parent pointer changes |
| TreeNode.ReplaceInParentFound | src/tree-node.ts:140-149 | the node's slot in its parent's list is replaced by the items; every other node is unchanged |
| TreeNode.ReplaceInParentMissing | src/tree-node.ts:140-149 | when the parent does not list the node, its last child is replaced instead |
| TreeNode.ReplaceInParentRemoves | src/tree-node.ts:140-149 | removing the node from its parent removes exactly its slot |
| TreeNode.DropEffect | src/tree-node.ts:140-149 | `drop` removes the node from its parent's list, other children keep their order, its parent becomes none, and nothing else changes |
| TreeNode.DetachKeepsWellFormed | src/tree-node.ts:140-149 | detaching a node from a consistent tree leaves parent pointers and children lists consistent |
| TreeNode.DropKeepsWellFormed | src/tree-node.ts:140-149 | `drop` keeps a consistent tree consistent |
| TreeNode.AppendKeepsWellFormed | src/tree-node.ts:88-97 | appending distinct detached nodes keeps a consistent tree consistent |
| TreeNode.ChangeParentIsDropThenAppend | src/tree-node.ts:158-167 | with no index or index 0, `changeParent` is `drop` followed by `appendChild` |
| TreeNode.ChangeParentAppends | src/tree-node.ts:158-167 | then the node ends up as the new parent's last child with its parent set, and the tree stays consistent |
| TreeNode.ChangeParentAtIndexKeepsParent | src/tree-node.ts:158-167 | with a non-zero index the node is spliced in at the index but its parent pointer is not updated |
| TreeNode.ReplaceInParentOne | src/tree-node.ts:211-234 | replacing the node by one item changes just its slot in the parent's list |
| TreeNode.MoveDeeperEffect | src/tree-node.ts:211-218 | the new parent takes the node's slot, the node is appended under it with its parent set, and the new parent's own parent pointer is left alone |
| TreeNode.PushUnder | src/tree-node.ts:211-218 | pushing the node under the new parent and setting its parent changes just those two nodes |
| TreeNode.ReplaceWithEffect | src/tree-node.ts:228-234 | the new node takes the slot, the parent's child count is unchanged, and the replaced node becomes a root |
| TreeNode.NewNodeEffect | src/tree-node.ts:36-40 | a new node has the given parent and no children, and is appended as the parent's last child |
| TreeNode.NewNodeKeepsWellFormed | src/tree-node.ts:36-40 | construction keeps a consistent tree consistent |
| TreeNode.IsRoot | src/tree-node.ts:65-67 | `isRoot()`: the node has no parent; `ReadersClassify` and `PreviousUp` state what follows from it |
| TreeNode.IsLeaf | src/tree-node.ts:72-74 | `isLeaf()`: the node has no children; `ReadersClassify` relates it to the other two readers |
| TreeNode.IsBranch | src/tree-node.ts:79-81 | `isBranch()` as the code computes it, neither a root nor a leaf; `ReadersClassify` states its meaning |
| TreeNode.ReadersClassify | src/tree-node.ts:65-81 | a branch is exactly a node with a parent and children; every node is a root, a leaf or a branch; a branch is neither of the others; a node is both root and leaf exactly when it stands alone |
| TreeNode.Index | src/tree-node.ts:243-248 | `index()` is undefined exactly for a root |
| TreeNode.NextSameLevel | src/tree-node.ts:256-266 | the next sibling, when there is one, is a node of the tree |
| TreeNode.PrevSameLevel | src/tree-node.ts:274-284 | the previous sibling, when there is one, is a node of the tree |
| TreeNode.IndexFindsNode | src/tree-node.ts:243-248 | in a consistent tree, `index()` is undefined exactly for a root, and otherwise the node's position in its parent's children |
| TreeNode.SiblingsInverse | src/tree-node.ts:256-284 | m is n's next sibling exactly when n is m's previous sibling, and siblings share a parent |
| TreeNode.IndexOfDistinct | src/tree-node.ts:243-248 | in a list without repeats, `indexOf` of entry i is i |
| TreeNode.Ancestors | src/element.ts:29-38 | the parent chain starts at the node and stays inside the tree |
| TreeNode.RootedWithinMore | src/tree-node.ts:297-311 | a node that reaches a root within k steps reaches it within any larger bound |
| TreeNode.AncestorsAnyBound | src/tree-node.ts:297-311 | the parent chain does not depend on the step bound used to compute it |
| TreeNode.ParentRooted | src/element.ts:29-38 | the parent of a rooted node is rooted, and the chain is the node followed by its parent's chain |
| TreeNode.AncestorsChain | src/element.ts:29-38 | consecutive entries of the chain are child and parent, and it ends at a root |
| TreeNode.NextUpNearest | src/tree-node.ts:297-311 | `nextUp` is the next sibling of the nearest node on the chain that has one |
| TreeNode.NextUpNone | src/tree-node.ts:297-311 | `nextUp` is undefined exactly when no node on the chain has a next sibling |
| TreeNode.PreviousUp | src/tree-node.ts:322-336 | `previousUp()` gives nothing exactly for a root, and otherwise a node of the tree |
| TreeNode.PreviousUpSteps | src/tree-node.ts:322-336 | on a well-formed tree, `previousUp()` of a first child is its parent; of any other child it is the sibling whose next sibling is the node |
| TreeNode.PrevUndoesNext | src/tree-node.ts:344-363 | when `next()` does not climb past the node's own siblings, `prev()` of it gives the node back |
| TreeNode.DeepWellFormed | tests/tree-node.spec.ts:325-338 | the sample tree used for `prev` is consistent and rooted |
| TreeNode.PrevIsOneLevelDeep | src/tree-node.ts:355-363 | on a two-level-deep sibling, `prev(next(n))` is not n: `prev` descends only one level |
| TreeNode.ChildrenBounded | src/tree-node.ts:178-193 | the children of a node whose depth is bounded by k have depth bounded by k-1 |
| TreeNode.Walk | src/tree-node.ts:178-184 | a walk first calls the before-callback on the node and ends with its after-callback |
| TreeNode.CalledOnAppend | src/tree-node.ts:178-184 | the calls of one callback over two traces are its calls over each in turn |
| TreeNode.CalledOnWalk | src/tree-node.ts:178-184 | the before-callback runs on the node and then on what the children's walks, with swapped roles, give it; the after-callback likewise ends with the node |
| TreeNode.WalkVisitsFlatten | src/tree-node.ts:178-193 | a walk with a single callback calls it on the node and on each node of `flatten`, as often as they are listed |
| TreeNode.WalkEachVisitsFlatten | src/tree-node.ts:178-193 | over a list of children, the callback runs on the children and on their flattened descendants |
| TreeNode.FlattenBelow | src/tree-node.ts:191-193 | every node `flatten` lists is a proper descendant: its parent is the node or another listed node |
| TreeNode.FlattenEachBelow | src/tree-node.ts:191-193 | every node flattened from a list of children has its parent among those children or the flattened nodes |
| TreeNode.BelowBoth | src/tree-node.ts:14-16 | parent pointers lead one way up: of two nodes a third lies below, one is the other or lies below the other |
| TreeNode.FlattenNotSelf | src/tree-node.ts:191-193 | on a tree bounded below, `flatten` never lists the node itself |
| TreeNode.FlattenListsBelow | src/tree-node.ts:191-193 | every listed node lies below the node within the depth bound |
| TreeNode.FlattenComplete | src/tree-node.ts:191-193 | every node whose parent chain reaches the node, however far up, is listed |
| TreeNode.FlattenIsBelow | src/tree-node.ts:191-193 | `flatten` lists exactly the nodes below the node, in both directions |
| TreeNode.AncestorsBelow | src/tree-node.ts:14-16 | a node other than `n` whose ancestor chain contains `n` lies below `n` |
| TreeNode.FlattenHoldsDescendants | src/tree-node.ts:191-193 | every other node whose ancestors include the node is listed |
| TreeNode.SiblingsDisjoint | src/tree-node.ts:191-193 | two different children of one node flatten to lists with no node in common |
| TreeNode.FlattenDistinct | src/tree-node.ts:191-193 | on a consistent tree, `flatten` lists no node twice |
| TreeNode.FlattenEachDistinct | src/tree-node.ts:191-193 | the flattenings of distinct sibling children, laid end to end, repeat no node |
| TreeNode.WalkVisitsOnce | src/tree-node.ts:178-193 | `walk` calls each callback exactly once on the node and on each node below it, and on no other node |
| TreeNode.WalkSwapsCallbacks | tests/tree-node.spec.ts:191-210 | on a chain of three, the walk calls before(0), after(1), before(2), after(2), before(1), after(0) |
| Trees.Tree.constructor | src/tree-node.ts:36-40 | an empty arena |
| Trees.Tree.NewNode | src/tree-node.ts:36-40 | construction adds a node with the given parent, appended to that parent's children |
| Trees.Tree.InsertChildren | src/tree-node.ts:58-60 | the splice performs `TreeNode.InsertChildren` |
| Trees.Tree.AppendChildren | src/tree-node.ts:88-97 | the push and the parent loop perform `TreeNode.AppendChildren` |
| Trees.Tree.PrependChildren | src/tree-node.ts:99-111 | the unshift and the parent loop perform `TreeNode.PrependChildren` |
| Trees.Tree.SetParents | src/tree-node.ts:88-97 | the loop sets the parent of exactly the listed children |
| Trees.Tree.AppendChild | src/tree-node.ts:127-132 | `appendChild` appends one child and sets its parent |
| Trees.Tree.PrependChild | src/tree-node.ts:113-117 | `prependChild` prepends one child and sets its parent |
| Trees.Tree.ReplaceInParent | src/tree-node.ts:140-149 | splicing the node's slot in its parent's list performs `TreeNode.ReplaceInParent` |
| Trees.Tree.Drop | src/tree-node.ts:140-149 | `drop` performs `TreeNode.Drop` |
| Trees.Tree.ChangeParent | src/tree-node.ts:158-167 | `changeParent` performs `TreeNode.ChangeParent` |
| Trees.Tree.MoveDeeper | src/tree-node.ts:211-218 | `moveDeeper` performs `TreeNode.MoveDeeper` |
| Trees.Tree.ReplaceWith | src/tree-node.ts:228-234 | `replaceWith` performs `TreeNode.ReplaceWith` |
| Element.AbsStartStep | src/element.ts:29-53 | a root's canvas position is its own offset; any other node's is its own offset plus its parent's canvas position |
| Element.AbsoluteBoxShape | src/element.ts:58-68 | the canvas box keeps the node's size, sits at (x(), y()), and is the node's own box for a root |
| Element.SampleChains | packages/score/tests/element.spec.ts:21-38 | in the test tree every node's chain runs up to a: aa, ab and ac hang from a, aaa and aab from aa, aba from ab |
| Element.SamplePositions | packages/score/tests/element.spec.ts:39-56 | the test's fourteen expected `x()` and `y()` values, for all seven elements |
| Element.SampleAbsoluteBoxes | packages/score/tests/element.spec.ts:57-65 | the test's seven expected canvas boxes |
| Element.Elements.constructor | src/element.ts:10-23 | no elements yet |
| Element.Elements.NewElement | src/element.ts:16-23 | a new element joins the tree under its parent with the box (0,0,0,0) and its type |
| Element.Elements.SetBbox | src/element.ts:23 | only that element's box changes, to an ordered box as the `BoundingBox` constructor builds, so every box stays ordered |
| Element.Elements.SumUp | src/element.ts:29-53 | the loop up the parent chain sums the offsets along the axis: the canvas position |
| Element.Elements.X | src/element.ts:29-38 | `x()` is the sum of x1 over the node and its ancestors |
| Element.Elements.Y | src/element.ts:44-53 | `y()` is the sum of y1 over the node and its ancestors |
| Element.Elements.AbsoluteBbox | src/element.ts:58-68 | `absoluteBbox()` is the node's box moved by its ancestors' offsets, computed on a copy made with the `BoundingBox` constructor; no element's box changes |
| Element.Elements.SpaceSystems | packages/score/src/score.ts:59-67 | the loop over the score's children performs `Score.SpaceSystems` and changes no type |
| Element.Elements.PlaceMeasures | packages/score/src/system.ts:49-57 | as written, the loop places every child and relabels every child "segment" |
| Placement.Reposition | packages/score/src/score.ts:63 | setting `x` or `y` moves the box along the axis and keeps its size and its other axis |
| Placement.Packed | packages/score/src/score.ts:59-67 | the loop keeps the number of boxes |
| Placement.PackedKeepsSizes | packages/score/src/score.ts:63-64 | no box changes size or moves across the axis |
| Placement.PackedUntouched | packages/score/src/score.ts:62 | boxes of unselected children and of non-children are untouched |
| Placement.PackedTotal | packages/score/src/score.ts:64 | the final offset is the total extent of the selected children |
| Placement.PackedStarts | packages/score/src/score.ts:63-64 | each selected child starts at the total extent of the selected children before it |
| Placement.ExtentSumSkips | packages/score/src/score.ts:62 | unselected children add nothing to the running offset |
| Placement.SelectedTouch | packages/score/src/score.ts:63-64 | consecutive selected children touch: the later starts where the earlier ends |
| Placement.FirstSelectedAtZero | packages/score/src/score.ts:60-63 | the first selected child is placed at 0 |
| Score.SpaceSystems | packages/score/src/score.ts:59-67 | `spaceSystems` keeps the number of boxes |
| Score.SystemsStacked | packages/score/src/score.ts:59-67 | each system's top is the total height of the systems before it; heights and horizontal extents are kept; other children are not moved |
| Score.SystemsTouch | packages/score/src/score.ts:63-64 | each system's top is the previous system's bottom |
| Score.FirstSystemAtTop | packages/score/src/score.ts:60-63 | the first system is at y = 0 |
| SystemLayout.PlaceMeasures | packages/score/src/system.ts:49-57 | as written, the loop keeps the number of boxes |
| SystemLayout.Relabelled | packages/score/src/system.ts:52 | as written, every child's type becomes "segment" and no other type changes |
| SystemLayout.MeasuresPlaced | packages/score/src/system.ts:49-57 | as written, every child starts at the total width of the children before it; widths and vertical extents are kept; non-children are not moved |
| SystemLayout.MeasuresSideBySide | packages/score/src/system.ts:53-54 | as written, the first child is at x = 0 and each child starts where the previous one ends |
| SystemLayout.PlaceMeasuresMovesAnyChild | packages/score/src/system.ts:52 | a barline after a segment of width 10 is moved to x = 10 and relabelled "segment" |
| SystemLayout.PlaceSegments | packages/score/src/system.ts:49-57 | the intended loop keeps the number of boxes |
| SystemLayout.SegmentsPlaced | packages/score/src/system.ts:49-57 | intended: each segment starts at the total width of the segments before it; other children keep their boxes |
| SystemLayout.PlaceSegmentsKeepsBarline | packages/score/src/system.ts:52 | intended: on the same system the barline keeps its box |

## Left out

- Drawing is not modelled: `fillText`, `fillChordSymbol`, the canvas context's `save`/`restore` and its transforms. The canvas is reduced to a `measure` function and the font string.
- Parsing and rendering a chord is done by the external chord-symbol library, which is not part of this model. Its result is an `Option<FormattedChord>`, with `None` for a failed parse or render.
- Numbers are `real`, not IEEE doubles, so rounding is not modelled.
- FormatText.BbText.constructor, FormatText.BbText.SetFragments and FormatText.BbText.RecomputeBbox re-anchor the box with the absolute `move` of src/bounding-boxes.ts:143-153. Both `bb-text.ts` files import `BoundingBox` from the external `bounding-boxes` package instead, whose `move` the tests show as relative; under a relative `move`, `move(0, 0)` would leave the enclosure where it is. The model assumes the absolute reading, the one the surrounding code relies on.
- `toString`, `BbTextFragment.metrics` and the getters that only read a field are not modelled.
- `BbChordSymbolDescriptorOptions` (packages/format/src/chord-symbol/bb-chord-symbol-descriptor-options.ts) is not modelled. The layout never reads it.
- Several requirements exclude behaviour the source leaves to an external package:
  - `LegacyText.BbText.constructor`, `FormatText.BbText.constructor` and the `SetFragments` methods require at least one fragment, because `smallestBoxEnclosing` belongs to the external `bounding-boxes` package and its result on an empty list is not known.
  - For the same reason, `FormatLayout.LayoutChordSymbol` and `RendererLayout.LayoutChordSymbol` require a parsed chord with at least one part.
- FormatLayout.LayoutChordSymbol and RendererLayout.LayoutChordSymbol require glyph heights that are not 0 where the layout divides by them (packages/format/src/bb-format.ts:311, src/bb-renderer.ts:287). Under real division the source would produce Infinity or NaN there.
- The tree model relies on index bounds and acyclicity:
  - The `Trees.Tree` methods take node indices that must lie inside the arena. The source passes object references, which always exist.
  - `next`, `nextUp`, the canvas position, `walk` and `flatten` require the tree to be acyclic (`Rooted`/`BoundedBelow`). On a cycle the source loops forever or overflows the stack.
- `walk`'s callbacks become a trace of calls, each tagged with its role. An absent callback is a role whose calls are ignored. Callbacks with side effects are not modelled.
- Element.Elements.X, Element.Elements.Y and Element.Elements.AbsoluteBbox follow the parent chain. src/element.ts reads `el.parent` as a property, but src/tree-node.ts:14 declares it as a method. As written, the loop would step to the method itself rather than to the parent element; the model follows the parent-chain walk that the element tests expect.
- `type` is one string per element, kept in `Element.Elements.kind`. Only `spaceSystems` and `placeMeasures` are modelled in packages/score; the rest of that package (layout, barlines, segments) is not part of this model.
- The `Format` and `Renderer` stage functions state the texts and the geometry of each fragment. They do not state the box of a fragment whose measured width or height is negative: `fromHW` reorders such boxes, and only the size is stated.

## Findings

| source | as written | input that shows it | evidently intended | confidence | as-written member | corrected member |
|---|---|---|---|---|---|---|
| packages/score/src/system.ts:52 | `if (child.type = 'segment')` assigns, and the assigned string is truthy, so every child is relabelled "segment" and placed | a system holding a segment of width 10, then a barline: the barline is moved to x = 10 and becomes a "segment" | `child.type === 'segment'`: only segments are placed, and no type changes | high, not executed | SystemLayout.PlaceMeasuresMovesAnyChild | SystemLayout.PlaceSegmentsKeepsBarline |
