/**
  * What the layout engines read from the 2D canvas: the metrics of a
  * measured string. Measuring is abstracted as a total function from the
  * string to its metrics, passed to the layout as a parameter.
  */
module Canvas {

  /** The three fields of `TextMetrics` the layout uses. */
  datatype TextMetrics = TextMetrics(
    width: real,
    actualBoundingBoxAscent: real,
    actualBoundingBoxDescent: real)
  {
    /** The ink height of a measured string: ascent + descent. */
    function Height(): real {
      actualBoundingBoxAscent + actualBoundingBoxDescent
    }
  }

  /** `context.measureText` for the context's current font. */
  type Measure = string -> TextMetrics
}
