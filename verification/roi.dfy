/**
 * The free band between the leading landmarks (clef, key signature) and the
 * first notes of the first measure, shared by every staff of the system.
 */
module RoiLocator {
  import opened Options
  import opened Geometry
  import opened Score

  /** Right edge of a staff's leading landmark: the key signature if any, else the clef. */
  function LeftEdge(s: StaffSlot): Option<int>
  {
    match s.keySig
    case Some(k) => Some(k.Right())
    case None =>
      match s.clef
      case Some(c) => Some(c.Right())
      case None => None
  }

  /** Where a note stops the band: its accidental's abscissa, else its own box's. */
  function NoteLimit(n: Note): int
  {
    match n.accidental
    case Some(a) => a.x
    case None => n.box.x
  }

  /** The limits of a chord's notes, note by note. */
  function NoteLimits(notes: seq<Note>): (xs: seq<int>)
    ensures |xs| == |notes|
    ensures forall j :: 0 <= j < |notes| ==> xs[j] == NoteLimit(notes[j])
  {
    seq(|notes|, j requires 0 <= j < |notes| => NoteLimit(notes[j]))
  }

  /** The right limits a staff imposes, in the order the source visits them. */
  function RightLimits(s: StaffSlot): seq<int>
  {
    (match s.closestChord
     case Some(notes) => NoteLimits(notes)
     case None => [])
    + (match s.rightX
       case Some(x) => [x]
       case None => [])
  }

  /**
   * A staff's right limits are exactly the limits of its closest chord's
   * notes and its ending barline's abscissa, when known.
   */
  lemma RightLimitsAreNotesAndBarline(s: StaffSlot)
    ensures forall n :: s.closestChord.Some? && n in s.closestChord.value ==> NoteLimit(n) in RightLimits(s)
    ensures s.rightX.Some? ==> s.rightX.value in RightLimits(s)
    ensures forall x :: x in RightLimits(s) ==>
              s.rightX == Some(x) || (s.closestChord.Some? && exists n :: n in s.closestChord.value && NoteLimit(n) == x)
  {
    var xs := RightLimits(s);
    var noteXs := match s.closestChord case Some(notes) => NoteLimits(notes) case None => [];
    var barXs := match s.rightX case Some(x) => [x] case None => [];
    assert xs == noteXs + barXs;
    if s.closestChord.Some? {
      var notes := s.closestChord.value;
      forall n | n in notes ensures NoteLimit(n) in xs {
        var j :| 0 <= j < |notes| && notes[j] == n;
        assert xs[j] == noteXs[j];
      }
    }
    forall x | x in xs
      ensures s.rightX == Some(x) || (s.closestChord.Some? && exists n :: n in s.closestChord.value && NoteLimit(n) == x)
    {
      var k :| 0 <= k < |xs| && xs[k] == x;
      if k < |noteXs| {
        assert s.closestChord.Some?;
        assert s.closestChord.value[k] in s.closestChord.value;
      } else {
        assert x in barXs;
      }
    }
  }

  // ---------------------------------------------------------------------------
  // Reference definition: the band as a max / min over sets of landmark edges
  // ---------------------------------------------------------------------------

  /** Left edges contributed by one staff (dummy staves contribute nothing). */
  ghost function SlotLeftEdges(s: StaffSlot): set<int>
  {
    if s.isDummy then {}
    else match LeftEdge(s)
      case Some(e) => {e}
      case None => {}
  }

  /** Right limits contributed by one staff (dummy staves contribute nothing). */
  ghost function SlotRightEdges(s: StaffSlot): set<int>
  {
    if s.isDummy then {} else set x | x in RightLimits(s)
  }

  /** Every left edge of every staff. */
  ghost function LeftEdges(slots: seq<StaffSlot>): set<int>
  {
    set i, e | 0 <= i < |slots| && e in SlotLeftEdges(slots[i]) :: e
  }

  /** Every right limit of every staff. */
  ghost function RightEdges(slots: seq<StaffSlot>): set<int>
  {
    set i, x | 0 <= i < |slots| && x in SlotRightEdges(slots[i]) :: x
  }

  /** `l` is the maximum of `base` and of `edges`. */
  ghost predicate IsMaxOf(base: int, edges: set<int>, l: int)
  {
    && l >= base
    && (forall e :: e in edges ==> e <= l)
    && (l == base || l in edges)
  }

  /** `r` is the minimum of `base` and of `edges`. */
  ghost predicate IsMinOf(base: int, edges: set<int>, r: int)
  {
    && r <= base
    && (forall e :: e in edges ==> r <= e)
    && (r == base || r in edges)
  }

  // ---------------------------------------------------------------------------
  // The source's loop: one left/right pair tightened staff after staff
  // ---------------------------------------------------------------------------

  /** One staff's update of `left`. */
  function StepLeft(s: StaffSlot, left: int): (l: int)
    ensures l >= left
    ensures LeftEdge(s).Some? ==> l >= LeftEdge(s).value
    ensures l == left || LeftEdge(s) == Some(l)
  {
    match LeftEdge(s)
    case Some(e) => Max(left, e)
    case None => left
  }

  /** `acc` lowered by every element of `xs`, left to right. */
  function MinOver(xs: seq<int>, acc: int): (m: int)
    ensures m <= acc
    ensures forall x :: x in xs ==> m <= x
    ensures m == acc || m in xs
    decreases |xs|
  {
    if xs == [] then acc
    else
      assert xs == [xs[0]] + xs[1..];
      MinOver(xs[1..], Min(acc, xs[0]))
  }

  /** The loop over the staves: the final `(left, right)` pair. */
  function Bounds(slots: seq<StaffSlot>, left: int, right: int): (int, int)
    decreases |slots|
  {
    if slots == [] then (left, right)
    else if slots[0].isDummy then Bounds(slots[1..], left, right)
    else Bounds(slots[1..], StepLeft(slots[0], left), MinOver(RightLimits(slots[0]), right))
  }

  /** The edges of a non-empty staff sequence split into its head's and its tail's. */
  lemma EdgesOfCons(slots: seq<StaffSlot>)
    requires slots != []
    ensures LeftEdges(slots) == SlotLeftEdges(slots[0]) + LeftEdges(slots[1..])
    ensures RightEdges(slots) == SlotRightEdges(slots[0]) + RightEdges(slots[1..])
  {
    var tail := slots[1..];
    forall e | e in LeftEdges(slots) ensures e in SlotLeftEdges(slots[0]) + LeftEdges(tail) {
      var i :| 0 <= i < |slots| && e in SlotLeftEdges(slots[i]);
      if i > 0 { assert slots[i] == tail[i - 1]; }
    }
    forall e | e in LeftEdges(tail) ensures e in LeftEdges(slots) {
      var i :| 0 <= i < |tail| && e in SlotLeftEdges(tail[i]);
      assert tail[i] == slots[i + 1];
    }
    forall e | e in RightEdges(slots) ensures e in SlotRightEdges(slots[0]) + RightEdges(tail) {
      var i :| 0 <= i < |slots| && e in SlotRightEdges(slots[i]);
      if i > 0 { assert slots[i] == tail[i - 1]; }
    }
    forall e | e in RightEdges(tail) ensures e in RightEdges(slots) {
      var i :| 0 <= i < |tail| && e in SlotRightEdges(tail[i]);
      assert tail[i] == slots[i + 1];
    }
  }

  /**
   * The loop computes the reference definition: `left` ends as the maximum of
   * its start value and every left edge, `right` as the minimum of its start
   * value and every right limit.
   */
  lemma {:induction false} BoundsAreExtrema(slots: seq<StaffSlot>, left: int, right: int)
    ensures IsMaxOf(left, LeftEdges(slots), Bounds(slots, left, right).0)
    ensures IsMinOf(right, RightEdges(slots), Bounds(slots, left, right).1)
    decreases |slots|
  {
    if slots == [] {
      assert LeftEdges(slots) == {};
      assert RightEdges(slots) == {};
    } else {
      var s := slots[0];
      EdgesOfCons(slots);
      if s.isDummy {
        BoundsAreExtrema(slots[1..], left, right);
      } else {
        BoundsAreExtrema(slots[1..], StepLeft(s, left), MinOver(RightLimits(s), right));
      }
    }
  }

  /**
   * `getRoi`: a degenerate rectangle spanning the free band, at `y = 0` with
   * no height. Its left side is the maximum of 0 and every non-dummy staff's
   * leading landmark edge; its right side is the minimum of the system's
   * right edge and every non-dummy staff's note and barline limits.
   */
  function Roi(page: Page): (r: Rect)
    ensures r.y == 0 && r.height == 0
    ensures IsMaxOf(0, LeftEdges(page.slots), r.x)
    ensures IsMinOf(page.SystemRight(), RightEdges(page.slots), r.Right())
  {
    var b := Bounds(page.slots, 0, page.SystemRight());
    BoundsAreExtrema(page.slots, 0, page.SystemRight());
    Rect(b.0, 0, b.1 - b.0, 0)
  }

  // ---------------------------------------------------------------------------
  // Monotonicity of the band
  // ---------------------------------------------------------------------------

  /**
   * More landmarks give a narrower band: when `q` has every landmark edge of
   * `p` (and a system edge no further right), `q`'s band lies inside `p`'s.
   */
  lemma NarrowerWithMoreLandmarks(p: Page, q: Page)
    requires q.SystemRight() <= p.SystemRight()
    requires LeftEdges(p.slots) <= LeftEdges(q.slots)
    requires RightEdges(p.slots) <= RightEdges(q.slots)
    ensures Roi(p).x <= Roi(q).x
    ensures Roi(q).Right() <= Roi(p).Right()
    ensures Roi(q).width <= Roi(p).width
  {
    var rp, rq := Roi(p), Roi(q);
    if rp.x != 0 { assert rp.x in LeftEdges(q.slots); }
    if rp.Right() != p.SystemRight() { assert rp.Right() in RightEdges(q.slots); }
  }

  /** Adding a staff anywhere in the system can only narrow the band. */
  lemma AddingStaffNarrows(page: Page, s: StaffSlot, k: nat)
    requires k <= |page.slots|
    ensures var q := page.(slots := page.slots[..k] + [s] + page.slots[k..]);
            Roi(page).x <= Roi(q).x && Roi(q).Right() <= Roi(page).Right()
  {
    var q := page.(slots := page.slots[..k] + [s] + page.slots[k..]);
    forall i | 0 <= i < |page.slots|
      ensures exists i' :: 0 <= i' < |q.slots| && q.slots[i'] == page.slots[i]
    {
      if i < k { assert q.slots[i] == page.slots[i]; }
      else { assert q.slots[i + 1] == page.slots[i]; }
    }
    forall e | e in LeftEdges(page.slots) ensures e in LeftEdges(q.slots) {
      var i :| 0 <= i < |page.slots| && e in SlotLeftEdges(page.slots[i]);
      var i' :| 0 <= i' < |q.slots| && q.slots[i'] == page.slots[i];
      assert e in SlotLeftEdges(q.slots[i']);
    }
    forall e | e in RightEdges(page.slots) ensures e in RightEdges(q.slots) {
      var i :| 0 <= i < |page.slots| && e in SlotRightEdges(page.slots[i]);
      var i' :| 0 <= i' < |q.slots| && q.slots[i'] == page.slots[i];
      assert e in SlotRightEdges(q.slots[i']);
    }
    NarrowerWithMoreLandmarks(page, q);
  }

  /** Staff-by-staff inclusion of edges lifts to the whole column. */
  lemma EdgesStaffwise(a: seq<StaffSlot>, b: seq<StaffSlot>)
    requires |a| == |b|
    requires forall i :: 0 <= i < |a| ==> SlotLeftEdges(a[i]) <= SlotLeftEdges(b[i])
    requires forall i :: 0 <= i < |a| ==> SlotRightEdges(a[i]) <= SlotRightEdges(b[i])
    ensures LeftEdges(a) <= LeftEdges(b)
    ensures RightEdges(a) <= RightEdges(b)
  {
    forall e | e in LeftEdges(a) ensures e in LeftEdges(b) {
      var i :| 0 <= i < |a| && e in SlotLeftEdges(a[i]);
      assert e in SlotLeftEdges(b[i]);
    }
    forall e | e in RightEdges(a) ensures e in RightEdges(b) {
      var i :| 0 <= i < |a| && e in SlotRightEdges(a[i]);
      assert e in SlotRightEdges(b[i]);
    }
  }

  /** A staff with one more note in its closest chord has every right limit it had. */
  lemma MoreNotesMoreLimits(s: StaffSlot, n: Note)
    requires s.closestChord.Some?
    ensures var s' := s.(closestChord := Some(s.closestChord.value + [n]));
            SlotLeftEdges(s') == SlotLeftEdges(s) && SlotRightEdges(s) <= SlotRightEdges(s')
  {
    var s' := s.(closestChord := Some(s.closestChord.value + [n]));
    RightLimitsAreNotesAndBarline(s);
    RightLimitsAreNotesAndBarline(s');
    forall x | x in RightLimits(s) ensures x in RightLimits(s') {
      if s.rightX != Some(x) {
        var m :| m in s.closestChord.value && NoteLimit(m) == x;
        assert m in s'.closestChord.value;
      }
    }
  }

  /** Adding a note to a staff's closest chord can only narrow the band. */
  lemma AddingNoteNarrows(page: Page, k: nat, n: Note)
    requires k < |page.slots| && page.slots[k].closestChord.Some?
    ensures var s := page.slots[k];
            var q := page.(slots := page.slots[k := s.(closestChord := Some(s.closestChord.value + [n]))]);
            Roi(page).x == Roi(q).x && Roi(q).Right() <= Roi(page).Right()
  {
    var s := page.slots[k];
    var q := page.(slots := page.slots[k := s.(closestChord := Some(s.closestChord.value + [n]))]);
    MoreNotesMoreLimits(s, n);
    EdgesStaffwise(page.slots, q.slots);
    assert LeftEdges(q.slots) <= LeftEdges(page.slots) by {
      forall e | e in LeftEdges(q.slots) ensures e in LeftEdges(page.slots) {
        var i :| 0 <= i < |q.slots| && e in SlotLeftEdges(q.slots[i]);
        assert e in SlotLeftEdges(page.slots[i]);
      }
    }
    NarrowerWithMoreLandmarks(page, q);
    assert Roi(q).x <= Roi(page).x by {
      var rq := Roi(q);
      if rq.x != 0 { assert rq.x in LeftEdges(page.slots); }
    }
  }

  /**
   * The key signature is preferred over the clef even when it ends further
   * left: there is a clef-only staff to which giving a key signature moves
   * the band's left side leftwards, so the left side is not monotone in the
   * landmarks a staff carries.
   */
  lemma KeySigCanWidenBand()
    ensures var clefOnly := StaffSlot(0, false, 40, None, None, Some(Rect(0, 0, 50, 40)), None, None);
            var withKey := clefOnly.(keySig := Some(Rect(10, 0, 20, 40)));
            Roi(Page(0, 1000, [withKey], [])).x < Roi(Page(0, 1000, [clefOnly], [])).x
  {
    var clefOnly := StaffSlot(0, false, 40, None, None, Some(Rect(0, 0, 50, 40)), None, None);
    var withKey := clefOnly.(keySig := Some(Rect(10, 0, 20, 40)));
    assert SlotLeftEdges(clefOnly) == {50};
    assert SlotLeftEdges(withKey) == {30};
    assert LeftEdges([clefOnly]) == {50} by { EdgesOfCons([clefOnly]); assert LeftEdges([clefOnly][1..]) == {}; }
    assert LeftEdges([withKey]) == {30} by { EdgesOfCons([withKey]); assert LeftEdges([withKey][1..]) == {}; }
  }
}
