/**
 * The compound adapter the retriever hands to the compound builder for one
 * staff: the reference box to search around, the candidate filter and the
 * relabelling of the chosen evaluation.
 */
module TimeSigAdapter {
  import opened Geometry
  import opened Glyphs

  /** Scale-dependent pixel constants of the pass (results of `Scale.toPixels`). */
  datatype Params = Params(timeSigWidth: int, yOffset: int)

  /** The adapter built for one staff. */
  datatype Adapter = Adapter(staffId: nat, center: int, referenceBox: Rect, minGrade: MinGrade, shapes: ShapeSet)

  /**
   * `computeReferenceBox`: a box horizontally centred on `center` and as wide
   * as the time signature (rounded down to even), running from `yOffset`
   * below the staff's first line to `yOffset` above the staff's vertical
   * middle mirrored below it.
   */
  function ReferenceBox(center: int, firstLineY: int, staffHeight: int, p: Params): (b: Rect)
    ensures b.x == center - JavaHalf(p.timeSigWidth)
    ensures b.width == 2 * JavaHalf(p.timeSigWidth)
    ensures 2 * b.x + b.width == 2 * center
    ensures p.timeSigWidth >= 0 ==> p.timeSigWidth - 1 <= b.width <= p.timeSigWidth
    ensures b.y == firstLineY + p.yOffset
    ensures b.height == 2 * (JavaHalf(staffHeight) - p.yOffset)
    ensures 2 * b.y + b.height == 2 * (firstLineY + JavaHalf(staffHeight))
  {
    var halfHeight := JavaHalf(staffHeight);
    Grow(Rect(center, firstLineY + halfHeight, 0, 0), JavaHalf(p.timeSigWidth), halfHeight - p.yOffset)
  }

  /** `isCandidateSuitable`: manually shaped glyphs are never reused. */
  predicate IsCandidateSuitable(g: Glyph)
  {
    !g.manualShape
  }

  /**
   * The glyph pool as the adapter admits it: exactly the glyphs that are not
   * manually shaped, in pool order.
   */
  function SuitableCandidates(pool: seq<Glyph>): (c: seq<Glyph>)
    ensures forall g :: g in c <==> g in pool && !g.manualShape
    ensures |c| <= |pool|
    decreases |pool|
  {
    if pool == [] then []
    else
      assert pool == [pool[0]] + pool[1..];
      (if IsCandidateSuitable(pool[0]) then [pool[0]] else []) + SuitableCandidates(pool[1..])
  }

  /** `getChosenEvaluation`: the chosen shape, graded as found by an algorithm. */
  function ChosenEvaluation(chosen: Evaluation): (e: Evaluation)
    ensures e.shape == chosen.shape
    ensures e.grade.Algorithm?
  {
    Evaluation(chosen.shape, Algorithm)
  }

  /** The adapter the retriever builds for a staff, searching full time signatures. */
  function MakeAdapter(staffId: nat, center: int, firstLineY: int, staffHeight: int, p: Params): Adapter
  {
    Adapter(staffId, center, ReferenceBox(center, firstLineY, staffHeight, p), TimeMinGrade, FullTimes)
  }
}
