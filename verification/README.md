# Time-signature retrieval on the first measure of a page

This project models Audiveris's `TimeSignatureRetriever`, a score visitor.
It looks at the first measure of every staff of a page's first system.
When no staff there has a time signature, it tries to recover one.

- **Check.** Stop at once when any staff, dummy or not, already has a time
  signature in that measure.
- **Free band.** Compute the horizontal band between the leading landmarks
  and the first notes. On the left these are the key signature, or else the
  clef. On the right they are the accidentals or noteheads of the closest
  chord, the ending barline and the system's right edge. A single
  `left`/`right` pair is tightened over every real (non-dummy) staff, so all
  staves share one band.
- **Width gate.** Stop when the band is narrower than a time signature.
- **Per staff.** For every real staff, build a compound-search adapter. Its
  reference box is centred on the band's middle, and its filter rejects
  manually shaped glyphs. Ask the compound builder for a compound, and
  record every compound found as that staff's time signature, relabelled as
  found by an algorithm. An exception ends the pass, and the insertions
  already made stay.

The model is functional. The staff iterator becomes a sequence of
`StaffSlot` records, one per (staff, measure) pair the iterator yields. Each
record holds what the loop reads of that pair. The code outside this file
becomes parameters:

- `lineY` stands for `staffInfo.getFirstLine().yAt(x)`;
- `build` stands for `SystemInfo.buildCompound`, and returns a compound with
  the evaluation it chose, nothing, or an exception;
- the pixel constants `timeSigWidth` and `yOffset` are given as integers.

Java's truncating `/ 2` is modelled exactly (`Geometry.JavaHalf`), so no
sign precondition is needed where the source halves a value.

Modules: `Options`, `Geometry` (rectangles and Java integer helpers),
`Glyphs`, `Score` (staff slots and the page), `RoiLocator` (the band),
`TimeSigAdapter` (the compound adapter) and `Retriever` (the pass).

## Model

| member | source | states |
|---|---|---|
| `Geometry.JavaHalf` | src/main/org/audiveris/omr/score/TimeSignatureRetriever.java:145 | Java's `n / 2` truncates toward zero: the remainder `n - 2h` is 0 or 1 for non-negative `n`, and 0 or -1 for negative `n` |
| `Geometry.Grow` | src/main/org/audiveris/omr/score/TimeSignatureRetriever.java:328-330 | `Rectangle.grow(h, v)` moves each side outward: left by `h`, right by `h`, top by `v`, bottom by `v` |
| `RoiLocator.StepLeft` | src/main/org/audiveris/omr/score/TimeSignatureRetriever.java:204-216 | one staff raises `left` to at least its key signature's right edge, or its clef's when it has no key signature, and to nothing else |
| `RoiLocator.RightLimitsAreNotesAndBarline` | src/main/org/audiveris/omr/score/TimeSignatureRetriever.java:219-237 | a staff's right limits are exactly its closest chord's notes (each given by its accidental's x, or its own x) plus the barline x when known |
| `RoiLocator.MinOver` | src/main/org/audiveris/omr/score/TimeSignatureRetriever.java:222-237 | lowering `right` by each limit in turn gives the minimum of the start value and all the limits |
| `RoiLocator.BoundsAreExtrema` | src/main/org/audiveris/omr/score/TimeSignatureRetriever.java:192-240 | the staff loop (`RoiLocator.Bounds`) leaves `left` equal to the maximum of its start value and every real staff's left edge, and `right` equal to the minimum of its start value and every real staff's right limit; dummy staves contribute nothing |
| `RoiLocator.Roi` | src/main/org/audiveris/omr/score/TimeSignatureRetriever.java:185-243 | the band is a degenerate rectangle with `y = height = 0`; `x` is the maximum of 0 and all left edges; `x + width` is the minimum of the system's right edge and all right limits, so it never passes the system's right edge |
| `RoiLocator.NarrowerWithMoreLandmarks` | src/main/org/audiveris/omr/score/TimeSignatureRetriever.java:188-242 | a column having every landmark edge of another (and a system edge no further right) has a band inside the other's, and no wider |
| `RoiLocator.AddingStaffNarrows` | src/main/org/audiveris/omr/score/TimeSignatureRetriever.java:192-240 | inserting a staff anywhere in the column can only raise `left` and lower `right` |
| `RoiLocator.AddingNoteNarrows` | src/main/org/audiveris/omr/score/TimeSignatureRetriever.java:219-232 | adding a note to a staff's closest chord leaves `left` unchanged and can only lower `right` |
| `RoiLocator.KeySigCanWidenBand` | src/main/org/audiveris/omr/score/TimeSignatureRetriever.java:204-216 | because the key signature replaces the clef as left landmark, there is a column whose `left` moves leftwards when its staff is given a key signature ending left of its clef |
| `TimeSigAdapter.ReferenceBox` | src/main/org/audiveris/omr/score/TimeSignatureRetriever.java:319-330 | the reference box is horizontally centred on `center`, with `width = 2*(timeSigWidth/2)`, so one pixel narrower at most; its `y` simplifies to `firstLineY + yOffset`, with `height = 2*(staffHeight/2 - yOffset)`; it is vertically centred on the staff's middle |
| `TimeSigAdapter.SuitableCandidates` | src/main/org/audiveris/omr/score/TimeSignatureRetriever.java:357-361 | the pool the adapter admits (`TimeSigAdapter.IsCandidateSuitable`, line 360) holds exactly the pool's glyphs that are not manually shaped, and nothing else |
| `TimeSigAdapter.ChosenEvaluation` | src/main/org/audiveris/omr/score/TimeSignatureRetriever.java:351-355 | the chosen evaluation keeps the chosen shape and is graded `ALGORITHM` |
| `Retriever.HasTimeSig` | src/main/org/audiveris/omr/score/TimeSignatureRetriever.java:256-269 | true iff some staff of the column has a time signature; dummy staves are not skipped |
| `Retriever.Attempts` | src/main/org/audiveris/omr/score/TimeSignatureRetriever.java:137-165 | every search is for a real staff, is made with that staff's adapter on the admitted pool, and only the last one can have raised an exception |
| `Retriever.AttemptsCoverRealStaves` | src/main/org/audiveris/omr/score/TimeSignatureRetriever.java:137-143 | the loop searches exactly the real staves, up to the end or up to the search that raised an exception |
| `Retriever.AttemptsInSlotOrder` | src/main/org/audiveris/omr/score/TimeSignatureRetriever.java:137-139 | the searches follow the staves' iteration order, with each staff searched at most once |
| `Retriever.Visit` | src/main/org/audiveris/omr/score/TimeSignatureRetriever.java:111-173 | the pass ends satisfied iff some staff has a time signature; it reports no room only when the band is narrower than `timeSigWidth`, and it searches only when the band is at least that wide |
| `Retriever.Insertions` | src/main/org/audiveris/omr/score/TimeSignatureRetriever.java:158-164 | an insertion is made for exactly each search that found a compound, and for nothing else |
| `Retriever.Populate` | src/main/org/audiveris/omr/score/TimeSignatureRetriever.java:160-163 | recording a compound gives its staff a time signature and changes no other staff; a staff that already has one keeps it |
| `Retriever.Apply` | src/main/org/audiveris/omr/score/TimeSignatureRetriever.java:158-164 | after a run of insertions, every targeted staff has a time signature, staves that had one keep it, and every staff no insertion targets is left unchanged |
| `Retriever.ExistingTimeSigStopsPass` | src/main/org/audiveris/omr/score/TimeSignatureRetriever.java:123-126 | a time signature on any staff, dummy or not, ends the pass with nothing inserted |
| `Retriever.WidthGate` | src/main/org/audiveris/omr/score/TimeSignatureRetriever.java:131-135 | with no time signature present, the pass searches iff `roi.width >= timeSigWidth` (equal width proceeds); any narrower band, negative width included, inserts nothing |
| `Retriever.OneSearchPerRealStaff` | src/main/org/audiveris/omr/score/TimeSignatureRetriever.java:137-157 | one search per real staff, in order, all centred at `roi.x + roi.width/2`, each with the adapter `TimeSigAdapter.MakeAdapter` builds for its own staff (lines 151-156) and a result that depends only on that adapter and the admitted pool of the page as the pass found it; without an exception, a staff where nothing was found does not stop the others |
| `Retriever.ExceptionEndsPass` | src/main/org/audiveris/omr/score/TimeSignatureRetriever.java:117-170 | an exception ends the loop: every real staff up to the failing one is searched, and none after it |
| `Retriever.InsertionsComeFromFoundSearches` | src/main/org/audiveris/omr/score/TimeSignatureRetriever.java:146-164 | every insertion comes from a search that found a compound; it targets that search's staff and carries the chosen shape graded `ALGORITHM` |
| `Retriever.FoundSearchesAreInserted` | src/main/org/audiveris/omr/score/TimeSignatureRetriever.java:158-164 | every compound found is inserted for its staff; if every search found nothing, nothing is inserted |
| `Retriever.InsertionsTargetRealStaves` | src/main/org/audiveris/omr/score/TimeSignatureRetriever.java:141-163 | insertions only target real staves of the column |
| `Retriever.SecondPassInsertsNothing` | src/main/org/audiveris/omr/score/TimeSignatureRetriever.java:123-126 | once a pass has inserted a time signature, a second pass on the result stops at the check and inserts nothing |
| `Retriever.UnfoundStaffUnchanged` | src/main/org/audiveris/omr/score/TimeSignatureRetriever.java:146-164 | a staff whose search found nothing (or raised the exception) is left unchanged by the pass and still has no time signature |
| `Retriever.ReferenceBoxInsideBand` | src/main/org/audiveris/omr/score/TimeSignatureRetriever.java:131-156 | once the gate has passed, every staff's reference box lies horizontally inside the band |

## Notes on the code's behaviour

- Every note of the measure's closest chord bounds `right`, through its
  accidental's x when it has one and its own x otherwise (lines 222-231;
  `RoiLocator.RightLimitsAreNotesAndBarline`).
- A staff's key signature replaces its clef as the left landmark rather than
  adding to it (lines 204-216). A key signature that ends left of the clef
  therefore lowers `left`: the left side of the band is not monotone in the
  landmarks a staff carries. `RoiLocator.KeySigCanWidenBand` exhibits such a
  staff. Adding staves, notes or barlines does only narrow the band
  (`AddingStaffNarrows`, `AddingNoteNarrows`, `NarrowerWithMoreLandmarks`).
- The system iterator visits every staff of the system, dummy staves included,
  both in `hasTimeSig` (lines 258-266) and in the search loop (lines 137-143,
  where dummy staves are then skipped). The model's slot sequence holds them
  all.

## Left out

- `GlyphContent.java` is an interface of text accessors and three string constants. It has no behaviour to model.
- `Scale.toPixels` and the interline fractions 2.0 and 0.5 (lines 280-286) are floating-point scaling. `timeSigWidth` and `yOffset` are given as integers (`TimeSigAdapter.Params`).
- The compound search and classifier (`SystemInfo.buildCompound`, `CompoundBuilder.TopShapeAdapter`) are not part of this model. They are the `build` oracle, and its grade threshold, shape-set membership and tie-breaking are not modelled. The model assumes the builder looks only at the glyphs the adapter's `isCandidateSuitable` admits, and that it labels the compound with the adapter's chosen evaluation. For that reason, the claim that no accepted compound contains a manually shaped glyph is not proved.
- `TimeSignature.populateFullTime` is not part of this model. `Retriever.Populate` records the compound as the staff's time signature. Deriving the numerator and denominator from the shape is not modelled. Keeping an existing time signature is assumed behaviour of that method.
- Retriever.Attempts: every search is given the admitted pool of the page as it was when the pass began (`Page.glyphs`, which `Retriever.Populate` leaves unchanged). The code re-reads `system.getInfo().getGlyphs()` for each staff (line 150), after the compounds of earlier staves have been built and inserted. Whether and how those compounds enter the system's glyphs is up to `buildCompound` and `populateFullTime`, which are not part of this model, so compounds inserted for earlier staves are not visible to later searches here.
- `populateFullTime` receives the first part's measure for every staff. The model records each compound on the slot of the staff it was found for.
- `staffInfo.getFirstLine().yAt(x)`, `getFirstMeasureKey`, `getFirstMeasureClef`, `getClosestChord(new Point(0, 0))`, `getRightX` and `getTimeSignature` are lookups into the score structure. Their results are given as oracle or slot data.
- The debug attachment drawing in `computeReferenceBox` (lines 332-346) and all logging are left out. The drawing can throw: `getPartAt(...)` is used without a null check at lines 333-335, and that exception would end the pass through the catch at line 166. The model covers this only in that `build` may return `Failed`, which ends the pass the same way; it does not tie such a failure to the box's position.
- Exceptions are modelled only for the compound builder (`Failed`), which ends the pass as the catch at line 166 does. Exceptions from the other lookups would also just end the pass, and are not modelled.
- `visit` always returns `false` (no navigation). That constant is not modelled.
- Java's 32-bit arithmetic is not modelled. That covers overflow in `x + width` and `right - left`, and the clamping inside `Rectangle.grow`. Coordinates are unbounded integers.
- Only the first system of a page is modelled, since the pass never looks at the others.
