/**
  * A text fragment (src/bb-text-fragment.ts): some text with its box, its
  * baseline height measured from the top, and the scale and rotation to
  * draw it with. It is a plain record: no operation changes it.
  */
module TextFragment {
  import opened BoundingBoxes

  datatype Fragment = Fragment(
    text: string,
    bbox: Box,
    baselineHeight: real,
    scaleX: real,
    scaleY: real,
    angle: real)

  /**
    * `new BbTextFragment(...)`, with the constructor's default for every
    * argument left out.
    */
  function NewFragment(
    text: string := "",
    bbox: Box := Box(0.0, 0.0, 0.0, 0.0),
    baselineHeight: real := 0.0,
    scaleX: real := 1.0,
    scaleY: real := 1.0,
    angle: real := 0.0): (f: Fragment)
    ensures f.text == text && f.bbox == bbox && f.baselineHeight == baselineHeight
    ensures f.scaleX == scaleX && f.scaleY == scaleY && f.angle == angle
  {
    Fragment(text, bbox, baselineHeight, scaleX, scaleY, angle)
  }

  /** The transform that draws the text as it was measured. */
  predicate IdentityTransform(f: Fragment) {
    f.scaleX == 1.0 && f.scaleY == 1.0 && f.angle == 0.0
  }

  /** The defaults: empty text, a zero box at the origin, baseline 0, identity transform. */
  lemma DefaultFragment()
    ensures NewFragment() == Fragment("", Box(0.0, 0.0, 0.0, 0.0), 0.0, 1.0, 1.0, 0.0)
    ensures IdentityTransform(NewFragment())
  {
  }

  /** The texts of a list of fragments, in order. */
  function Texts(fs: seq<Fragment>): (r: seq<string>)
    ensures |r| == |fs|
    ensures forall i :: 0 <= i < |fs| ==> r[i] == fs[i].text
  {
    if fs == [] then [] else [fs[0].text] + Texts(fs[1..])
  }

  /** The boxes of a list of fragments, in order (the `map` the texts enclose). */
  function Boxes(fs: seq<Fragment>): (r: seq<Box>)
    ensures |r| == |fs|
    ensures forall i :: 0 <= i < |fs| ==> r[i] == fs[i].bbox
  {
    if fs == [] then [] else [fs[0].bbox] + Boxes(fs[1..])
  }

  lemma TextsAppend(a: seq<Fragment>, b: seq<Fragment>)
    ensures Texts(a + b) == Texts(a) + Texts(b)
  {
  }
}
