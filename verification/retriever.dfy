/**
 * The retriever's pass over a page: give up when a time signature already
 * exists, locate the free band, give up when it is too narrow, then try one
 * compound per real staff and insert every compound found.
 */
module Retriever {
  import opened Options
  import opened Geometry
  import opened Glyphs
  import opened Score
  import opened RoiLocator
  import opened TimeSigAdapter

  /** `staffInfo.getFirstLine().yAt(x)` for the staff with the given id. */
  type LineOracle = (nat, int) -> int

  /**
   * What the compound builder gives back for one adapter: a compound with the
   * evaluation it chose, nothing (`null`), or an exception.
   */
  datatype BuildResult = Found(compound: Glyph, chosen: Evaluation) | NotFound | Failed

  /** `buildCompound` over the admitted candidates, for one adapter. */
  type Builder = (seq<Glyph>, Adapter) -> BuildResult

  /** One compound search: the slot it was made for, its adapter and its result. */
  datatype Attempt = Attempt(index: nat, adapter: Adapter, result: BuildResult)

  /** A `populateFullTime` call: the compound recorded for the staff of slot `index`. */
  datatype Insertion = Insertion(index: nat, staffId: nat, compound: Glyph)

  /** How the pass ended. */
  datatype Outcome =
    | Satisfied                                 // some staff already has a time signature
    | NoRoom(roi: Rect)                         // the band is narrower than a time signature
    | Searched(roi: Rect, attempts: seq<Attempt>)

  /** `hasTimeSig`: some staff of the column, dummy or not, has a time signature. */
  function HasTimeSig(slots: seq<StaffSlot>): (b: bool)
    ensures b <==> exists i :: 0 <= i < |slots| && slots[i].timeSig.Some?
    decreases |slots|
  {
    if slots == [] then false
    else
      assert forall i :: 0 < i < |slots| ==> slots[i] == slots[1..][i - 1];
      slots[0].timeSig.Some? || HasTimeSig(slots[1..])
  }

  /** The abscissa every staff's reference box is centred on. */
  function Center(roi: Rect): int
  {
    roi.x + JavaHalf(roi.width)
  }

  /** The compound search for the staff of slot `i`. */
  function AttemptAt(page: Page, p: Params, lineY: LineOracle, build: Builder, center: int, i: nat): Attempt
    requires i < |page.slots|
  {
    var s := page.slots[i];
    var adapter := MakeAdapter(s.staffId, center, lineY(s.staffId, center), s.height, p);
    Attempt(i, adapter, build(SuitableCandidates(page.glyphs), adapter))
  }

  /** The indices of the slots searched. */
  ghost function AttemptedIndices(a: seq<Attempt>): set<nat>
  {
    set j | 0 <= j < |a| :: a[j].index
  }

  /** The indices in `[lo, hi)` of real (non-dummy) staves. */
  ghost function RealStaves(slots: seq<StaffSlot>, lo: nat, hi: nat): set<nat>
  {
    set i: nat | lo <= i < hi && i < |slots| && !slots[i].isDummy
  }

  /** Whether the last search raised an exception. */
  predicate Aborted(a: seq<Attempt>)
  {
    |a| > 0 && a[|a| - 1].result.Failed?
  }

  /** How far the loop got: just past the failed search, or `end`. */
  function Reach(a: seq<Attempt>, end: nat): nat
  {
    if Aborted(a) then a[|a| - 1].index + 1 else end
  }

  /**
   * The per-staff loop from slot `k` on: the searches it makes, in order. A
   * search that finds nothing does not stop the loop, an exception does.
   */
  function Attempts(page: Page, p: Params, lineY: LineOracle, build: Builder, center: int, k: nat): (a: seq<Attempt>)
    requires k <= |page.slots|
    ensures forall j :: 0 <= j < |a| ==> k <= a[j].index < |page.slots| && !page.slots[a[j].index].isDummy
    ensures forall j :: 0 <= j < |a| ==> a[j] == AttemptAt(page, p, lineY, build, center, a[j].index)
    ensures forall j :: 0 <= j < |a| - 1 ==> !a[j].result.Failed?
    decreases |page.slots| - k
  {
    if k == |page.slots| then []
    else if page.slots[k].isDummy then Attempts(page, p, lineY, build, center, k + 1)
    else
      var at := AttemptAt(page, p, lineY, build, center, k);
      if at.result.Failed? then [at]
      else
        var rest := Attempts(page, p, lineY, build, center, k + 1);
        assert forall j :: 0 < j < |rest| + 1 ==> ([at] + rest)[j] == rest[j - 1];
        [at] + rest
  }

  /** Real staves of `[k, end)` when slot `k` is a dummy staff. */
  lemma RealStavesSkip(slots: seq<StaffSlot>, k: nat, end: nat)
    requires k < |slots| && slots[k].isDummy
    ensures RealStaves(slots, k, end) == RealStaves(slots, k + 1, end)
  {
  }

  /** Real staves of `[k, end)` when slot `k` is a real staff. */
  lemma RealStavesTake(slots: seq<StaffSlot>, k: nat, end: nat)
    requires k < end && k < |slots| && !slots[k].isDummy
    ensures RealStaves(slots, k, end) == {k} + RealStaves(slots, k + 1, end)
  {
  }

  /** The indices searched by a search followed by more. */
  lemma AttemptedIndicesCons(at: Attempt, rest: seq<Attempt>)
    ensures AttemptedIndices([at] + rest) == {at.index} + AttemptedIndices(rest)
  {
    var a := [at] + rest;
    assert a[0] == at;
    forall i | i in AttemptedIndices(a) ensures i in {at.index} + AttemptedIndices(rest) {
      var j :| 0 <= j < |a| && a[j].index == i;
      if j > 0 { assert rest[j - 1].index == i; }
    }
    forall i | i in AttemptedIndices(rest) ensures i in AttemptedIndices(a) {
      var j :| 0 <= j < |rest| && rest[j].index == i;
      assert a[j + 1].index == i;
    }
  }

  /**
   * The loop searches every real staff from slot `k` on exactly once, in slot
   * order, up to the end or up to the search that raised an exception.
   */
  lemma {:induction false} AttemptsCoverRealStaves(page: Page, p: Params, lineY: LineOracle, build: Builder, center: int, k: nat)
    requires k <= |page.slots|
    ensures var a := Attempts(page, p, lineY, build, center, k);
            AttemptedIndices(a) == RealStaves(page.slots, k, Reach(a, |page.slots|))
    decreases |page.slots| - k
  {
    var a := Attempts(page, p, lineY, build, center, k);
    if k == |page.slots| {
      assert a == [];
      assert RealStaves(page.slots, k, |page.slots|) == {};
    } else if page.slots[k].isDummy {
      AttemptsCoverRealStaves(page, p, lineY, build, center, k + 1);
      RealStavesSkip(page.slots, k, Reach(a, |page.slots|));
    } else {
      var at := AttemptAt(page, p, lineY, build, center, k);
      if at.result.Failed? {
        assert a == [at];
        assert RealStaves(page.slots, k + 1, k + 1) == {};
        RealStavesTake(page.slots, k, k + 1);
        AttemptedIndicesCons(at, []);
      } else {
        var rest := Attempts(page, p, lineY, build, center, k + 1);
        AttemptsCoverRealStaves(page, p, lineY, build, center, k + 1);
        assert a == [at] + rest;
        var end := Reach(rest, |page.slots|);
        assert Reach(a, |page.slots|) == end;
        AttemptedIndicesCons(at, rest);
        RealStavesTake(page.slots, k, end);
      }
    }
  }

  /** The searches are for strictly increasing slots. */
  ghost predicate InSlotOrder(a: seq<Attempt>)
  {
    forall j1, j2 :: 0 <= j1 < j2 < |a| ==> a[j1].index < a[j2].index
  }

  /** A search for an earlier slot than all of `rest` keeps the order. */
  lemma InSlotOrderCons(at: Attempt, rest: seq<Attempt>)
    requires InSlotOrder(rest)
    requires forall j :: 0 <= j < |rest| ==> at.index < rest[j].index
    ensures InSlotOrder([at] + rest)
  {
    var a := [at] + rest;
    forall j1, j2 | 0 <= j1 < j2 < |a| ensures a[j1].index < a[j2].index {
      assert a[j2] == rest[j2 - 1];
      if j1 > 0 { assert a[j1] == rest[j1 - 1]; }
    }
  }

  /** The loop searches the staves in slot order. */
  lemma {:induction false} AttemptsInSlotOrder(page: Page, p: Params, lineY: LineOracle, build: Builder, center: int, k: nat)
    requires k <= |page.slots|
    ensures InSlotOrder(Attempts(page, p, lineY, build, center, k))
    decreases |page.slots| - k
  {
    if k < |page.slots| {
      AttemptsInSlotOrder(page, p, lineY, build, center, k + 1);
      var at := AttemptAt(page, p, lineY, build, center, k);
      if !page.slots[k].isDummy && !at.result.Failed? {
        var rest := Attempts(page, p, lineY, build, center, k + 1);
        InSlotOrderCons(at, rest);
      }
    }
  }

  /** `visit(Page)`: the whole pass over the first measure column of a page. */
  function Visit(page: Page, p: Params, lineY: LineOracle, build: Builder): (o: Outcome)
    ensures o.Satisfied? <==> exists i :: 0 <= i < |page.slots| && page.slots[i].timeSig.Some?
    ensures o.NoRoom? ==> o.roi.width < p.timeSigWidth
    ensures o.Searched? ==> p.timeSigWidth <= o.roi.width
  {
    if HasTimeSig(page.slots) then Satisfied
    else
      var roi := Roi(page);
      if roi.width < p.timeSigWidth then NoRoom(roi)
      else Searched(roi, Attempts(page, p, lineY, build, Center(roi), 0))
  }

  /** The insertion a successful search leads to: its compound, relabelled as algorithmic. */
  function InsertionOf(at: Attempt): Insertion
    requires at.result.Found?
  {
    Insertion(at.index, at.adapter.staffId, Relabel(at.result.compound, ChosenEvaluation(at.result.chosen)))
  }

  /** The `populateFullTime` calls of a run of searches: one per compound found, in order. */
  function Insertions(a: seq<Attempt>): (r: seq<Insertion>)
    ensures forall x :: x in r ==> exists at :: at in a && at.result.Found? && x == InsertionOf(at)
    ensures forall at :: at in a && at.result.Found? ==> InsertionOf(at) in r
    decreases |a|
  {
    if a == [] then []
    else
      assert a == [a[0]] + a[1..];
      (if a[0].result.Found? then [InsertionOf(a[0])] else []) + Insertions(a[1..])
  }

  /** Every time signature the pass inserts. */
  function Inserted(o: Outcome): seq<Insertion>
  {
    match o
    case Searched(_, attempts) => Insertions(attempts)
    case _ => []
  }

  /**
   * `TimeSignature.populateFullTime`, as far as the pass relies on it: the
   * compound becomes the time signature of its staff's first measure, and a
   * staff that already has one keeps it.
   */
  function Populate(page: Page, n: Insertion): (q: Page)
    requires n.index < |page.slots|
    ensures |q.slots| == |page.slots| && q.glyphs == page.glyphs
    ensures q.slots[n.index].timeSig.Some?
    ensures page.slots[n.index].timeSig.None? ==> q.slots[n.index].timeSig == Some(TimeSig(n.compound))
    ensures page.slots[n.index].timeSig.Some? ==> q == page
    ensures forall i :: 0 <= i < |page.slots| && i != n.index ==> q.slots[i] == page.slots[i]
  {
    if page.slots[n.index].timeSig.None? then
      page.(slots := page.slots[n.index := page.slots[n.index].(timeSig := Some(TimeSig(n.compound)))])
    else page
  }

  /**
   * The page after a run of insertions: every targeted staff then has a time
   * signature, and every staff no insertion targets is left as it was.
   */
  function Apply(page: Page, ins: seq<Insertion>): (q: Page)
    requires forall n :: 0 <= n < |ins| ==> ins[n].index < |page.slots|
    ensures |q.slots| == |page.slots| && q.glyphs == page.glyphs
    ensures forall n :: 0 <= n < |ins| ==> q.slots[ins[n].index].timeSig.Some?
    ensures forall i :: 0 <= i < |page.slots| && page.slots[i].timeSig.Some? ==> q.slots[i] == page.slots[i]
    ensures forall i :: 0 <= i < |page.slots| && (forall n :: 0 <= n < |ins| ==> ins[n].index != i) ==> q.slots[i] == page.slots[i]
    decreases |ins|
  {
    if ins == [] then page
    else
      var q := Apply(Populate(page, ins[0]), ins[1..]);
      assert forall n :: 0 < n < |ins| ==> ins[n] == ins[1..][n - 1];
      q
  }

  // ---------------------------------------------------------------------------
  // Properties of the pass
  // ---------------------------------------------------------------------------

  /** An existing time signature on any staff, dummy or not, ends the pass with nothing inserted. */
  lemma ExistingTimeSigStopsPass(page: Page, p: Params, lineY: LineOracle, build: Builder, i: nat)
    requires i < |page.slots| && page.slots[i].timeSig.Some?
    ensures Visit(page, p, lineY, build) == Satisfied
    ensures Inserted(Visit(page, p, lineY, build)) == []
  {
  }

  /**
   * The width gate: with no time signature present, the pass searches iff the
   * band is at least as wide as a time signature; otherwise it inserts nothing.
   */
  lemma WidthGate(page: Page, p: Params, lineY: LineOracle, build: Builder)
    requires !HasTimeSig(page.slots)
    ensures Visit(page, p, lineY, build).Searched? <==> p.timeSigWidth <= Roi(page).width
    ensures Roi(page).width < p.timeSigWidth ==> Inserted(Visit(page, p, lineY, build)) == []
  {
  }

  /** The searches of a pass that got past the gate are the loop's from the first slot. */
  lemma SearchedPass(page: Page, p: Params, lineY: LineOracle, build: Builder)
    ensures var o := Visit(page, p, lineY, build);
            o.Searched? ==> o.roi == Roi(page) && o.attempts == Attempts(page, p, lineY, build, Center(o.roi), 0)
  {
  }

  /**
   * One search per real staff, in slot order, all centred on the band's
   * middle, each with that staff's own reference box and each depending on
   * nothing but its own adapter and the admitted pool; unless a search raised
   * an exception, no real staff is skipped, whatever the others found.
   */
  lemma OneSearchPerRealStaff(page: Page, p: Params, lineY: LineOracle, build: Builder)
    ensures var o := Visit(page, p, lineY, build);
            var a := if o.Searched? then o.attempts else [];
            o.Searched? ==>
            && (forall j :: 0 <= j < |a| ==> a[j].index < |page.slots| && !page.slots[a[j].index].isDummy)
            && (forall j1, j2 :: 0 <= j1 < j2 < |a| ==> a[j1].index < a[j2].index)
            && (forall j :: 0 <= j < |a| ==>
                  var s := page.slots[a[j].index];
                  && a[j].adapter.center == o.roi.x + JavaHalf(o.roi.width)
                  && a[j].adapter.staffId == s.staffId
                  && a[j].adapter.referenceBox == ReferenceBox(a[j].adapter.center, lineY(s.staffId, a[j].adapter.center), s.height, p)
                  && a[j].result == build(SuitableCandidates(page.glyphs), a[j].adapter))
            && (!Aborted(a) ==> AttemptedIndices(a) == RealStaves(page.slots, 0, |page.slots|))
  {
    var o := Visit(page, p, lineY, build);
    if o.Searched? {
      SearchedPass(page, p, lineY, build);
      AttemptsCoverRealStaves(page, p, lineY, build, Center(o.roi), 0);
      AttemptsInSlotOrder(page, p, lineY, build, Center(o.roi), 0);
    }
  }

  /**
   * An exception ends the pass: only the last search can have failed, and no
   * real staff after it is searched, while every real staff up to it is.
   */
  lemma ExceptionEndsPass(page: Page, p: Params, lineY: LineOracle, build: Builder)
    requires Visit(page, p, lineY, build).Searched?
    requires Aborted(Visit(page, p, lineY, build).attempts)
    ensures var a := Visit(page, p, lineY, build).attempts;
            && (forall j :: 0 <= j < |a| - 1 ==> !a[j].result.Failed?)
            && (forall i :: a[|a| - 1].index < i < |page.slots| ==> i !in AttemptedIndices(a))
            && (forall i :: 0 <= i <= a[|a| - 1].index && !page.slots[i].isDummy ==> i in AttemptedIndices(a))
  {
    var o := Visit(page, p, lineY, build);
    SearchedPass(page, p, lineY, build);
    AttemptsCoverRealStaves(page, p, lineY, build, Center(o.roi), 0);
    var a := o.attempts;
    assert AttemptedIndices(a) == RealStaves(page.slots, 0, a[|a| - 1].index + 1);
  }

  /**
   * Every insertion comes from a search that found a compound: it targets
   * that search's staff and carries the chosen shape, labelled as found by an
   * algorithm.
   */
  lemma InsertionsComeFromFoundSearches(page: Page, p: Params, lineY: LineOracle, build: Builder)
    ensures var o := Visit(page, p, lineY, build);
            forall x :: x in Inserted(o) ==>
              && o.Searched?
              && exists at :: at in o.attempts && at.result.Found?
                   && x.index == at.index
                   && x.staffId == page.slots[at.index].staffId
                   && x.compound.evaluation == Some(Evaluation(at.result.chosen.shape, Algorithm))
  {
    var o := Visit(page, p, lineY, build);
    SearchedPass(page, p, lineY, build);
    if !o.Searched? { return; }
    var a := o.attempts;
    forall x | x in Insertions(a)
      ensures exists at :: at in a && at.result.Found?
                && x.index == at.index
                && x.staffId == page.slots[at.index].staffId
                && x.compound.evaluation == Some(Evaluation(at.result.chosen.shape, Algorithm))
    {
      var at :| at in a && at.result.Found? && x == InsertionOf(at);
      var j :| 0 <= j < |a| && a[j] == at;
      assert at == AttemptAt(page, p, lineY, build, Center(o.roi), at.index);
    }
  }

  /**
   * Every search that found a compound leads to an insertion for its staff,
   * and a pass whose searches all found nothing inserts nothing.
   */
  lemma FoundSearchesAreInserted(page: Page, p: Params, lineY: LineOracle, build: Builder)
    ensures var o := Visit(page, p, lineY, build);
            o.Searched? ==>
            && (forall at :: at in o.attempts && at.result.Found? ==> exists x :: x in Inserted(o) && x.index == at.index)
            && ((forall at :: at in o.attempts ==> !at.result.Found?) ==> Inserted(o) == [])
  {
    var o := Visit(page, p, lineY, build);
    if !o.Searched? { return; }
    var a, ins := o.attempts, Insertions(o.attempts);
    assert Inserted(o) == ins;
    forall at | at in a && at.result.Found? ensures exists x :: x in ins && x.index == at.index {
      assert InsertionOf(at) in ins;
    }
    if ins != [] {
      assert ins[0] in ins;
    }
  }

  /** Every insertion targets a real staff of the column. */
  lemma InsertionsTargetRealStaves(page: Page, p: Params, lineY: LineOracle, build: Builder)
    ensures var ins := Inserted(Visit(page, p, lineY, build));
            forall n :: 0 <= n < |ins| ==> ins[n].index < |page.slots| && !page.slots[ins[n].index].isDummy
  {
    var o := Visit(page, p, lineY, build);
    if o.Searched? {
      SearchedPass(page, p, lineY, build);
      var ins := Inserted(o);
      forall n | 0 <= n < |ins| ensures ins[n].index < |page.slots| && !page.slots[ins[n].index].isDummy {
        assert ins[n] in ins;
        var at :| at in o.attempts && at.result.Found? && ins[n] == InsertionOf(at);
        var j :| 0 <= j < |o.attempts| && o.attempts[j] == at;
      }
    }
  }

  /**
   * Running the pass again on the page it produced inserts nothing more: once
   * one time signature was inserted, the second pass stops at the check.
   */
  lemma SecondPassInsertsNothing(page: Page, p: Params, lineY: LineOracle, build: Builder)
    ensures var ins := Inserted(Visit(page, p, lineY, build));
            && (forall n :: 0 <= n < |ins| ==> ins[n].index < |page.slots|)
            && (ins != [] ==> Visit(Apply(page, ins), p, lineY, build) == Satisfied)
  {
    var ins := Inserted(Visit(page, p, lineY, build));
    InsertionsTargetRealStaves(page, p, lineY, build);
    if ins != [] {
      var q := Apply(page, ins);
      assert q.slots[ins[0].index].timeSig.Some?;
    }
  }

  /**
   * A staff whose search found nothing, or raised the exception, is left as
   * it was by the pass: in particular it still has no time signature.
   */
  lemma UnfoundStaffUnchanged(page: Page, p: Params, lineY: LineOracle, build: Builder, j: nat)
    ensures var o := Visit(page, p, lineY, build);
            var ins := Inserted(o);
            && (forall n :: 0 <= n < |ins| ==> ins[n].index < |page.slots|)
            && (o.Searched? && j < |o.attempts| && !o.attempts[j].result.Found? ==>
                  var i := o.attempts[j].index;
                  Apply(page, ins).slots[i] == page.slots[i] && Apply(page, ins).slots[i].timeSig.None?)
  {
    var o := Visit(page, p, lineY, build);
    var ins := Inserted(o);
    InsertionsTargetRealStaves(page, p, lineY, build);
    if o.Searched? && j < |o.attempts| && !o.attempts[j].result.Found? {
      SearchedPass(page, p, lineY, build);
      AttemptsInSlotOrder(page, p, lineY, build, Center(o.roi), 0);
      var a := o.attempts;
      assert ins == Insertions(a);
      forall n | 0 <= n < |ins| ensures ins[n].index != a[j].index {
        assert ins[n] in ins;
        var at :| at in a && at.result.Found? && ins[n] == InsertionOf(at);
        var j2 :| 0 <= j2 < |a| && a[j2] == at;
        assert j2 != j;
      }
    }
  }

  /**
   * Every staff's reference box lies horizontally inside the band: the gate
   * guarantees the band can hold a time signature, and the box is centred on
   * the band's middle.
   */
  lemma ReferenceBoxInsideBand(page: Page, p: Params, lineY: LineOracle, build: Builder)
    requires p.timeSigWidth >= 0
    ensures var o := Visit(page, p, lineY, build);
            o.Searched? ==> forall j :: 0 <= j < |o.attempts| ==>
              o.roi.x <= o.attempts[j].adapter.referenceBox.x
              && o.attempts[j].adapter.referenceBox.Right() <= o.roi.Right()
  {
    var o := Visit(page, p, lineY, build);
    if o.Searched? {
      var w, t := o.roi.width, p.timeSigWidth;
      assert JavaHalf(t) <= JavaHalf(w);
    }
  }
}
