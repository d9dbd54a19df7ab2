/**
 * The glyph facts the retriever and its compound adapter touch: a glyph's
 * bounds, whether its shape was set manually, and its evaluation.
 */
module Glyphs {
  import opened Options
  import opened Geometry

  /** A shape name, e.g. a full time signature such as 4/4. */
  datatype Shape = Shape(name: string)

  /**
   * The grade of an evaluation: a classifier confidence, or the marker the
   * source writes as `Evaluation.ALGORITHM` for shapes assigned by an
   * algorithm rather than measured by the classifier.
   */
  datatype Grade = Measured(confidence: real) | Algorithm

  /** A shape guess with its grade. */
  datatype Evaluation = Evaluation(shape: Shape, grade: Grade)

  /** The named shape set the adapter asks for (`ShapeSet.FullTimes`). */
  datatype ShapeSet = FullTimes

  /** The named minimum grade the adapter asks for (`Grades.timeMinGrade`). */
  datatype MinGrade = TimeMinGrade

  /** A glyph of the system's glyph pool, or a compound built from some. */
  datatype Glyph = Glyph(id: nat, bounds: Rect, manualShape: bool, evaluation: Option<Evaluation>)

  /** The glyph `g` carrying evaluation `e`. */
  function Relabel(g: Glyph, e: Evaluation): (r: Glyph)
    ensures r.evaluation == Some(e)
    ensures r.id == g.id && r.bounds == g.bounds && r.manualShape == g.manualShape
  {
    g.(evaluation := Some(e))
  }
}
