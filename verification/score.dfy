/**
 * The part of the score structure the retriever reads: the first system of a
 * page and, for every staff of that system, the first measure's landmarks.
 */
module Score {
  import opened Options
  import opened Geometry
  import opened Glyphs

  /** A note of a chord: its box and the bounds of its accidental, if any. */
  datatype Note = Note(box: Rect, accidental: Option<Rect>)

  /** An explicit time signature, held through the glyph it was built from. */
  datatype TimeSig = TimeSig(glyph: Glyph)

  /**
   * One step of the staff iterator over the first measure column: a staff of
   * the system together with the first measure of the part holding it.
   * - `height` is the staff height in pixels;
   * - `timeSig` is the measure's time signature for this staff;
   * - `keySig` / `clef` are the boxes of the measure's leading key signature
   *   and clef for this staff;
   * - `closestChord` is the notes of the measure's chord closest to the origin;
   * - `rightX` is the abscissa of the measure's ending barline, when known.
   */
  datatype StaffSlot = StaffSlot(
    staffId: nat,
    isDummy: bool,
    height: int,
    timeSig: Option<TimeSig>,
    keySig: Option<Rect>,
    clef: Option<Rect>,
    closestChord: Option<seq<Note>>,
    rightX: Option<int>)

  /**
   * The first system of a page: its horizontal extent, the staff slots of its
   * first measure column (in iteration order) and its glyph pool.
   */
  datatype Page = Page(systemLeft: int, systemWidth: int, slots: seq<StaffSlot>, glyphs: seq<Glyph>)
  {
    /** Right edge of the system, `topLeft.x + dimension.width`. */
    function SystemRight(): int { systemLeft + systemWidth }
  }
}
