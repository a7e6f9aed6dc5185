/** The ornament list and the position list together, as the video hook
    holds them. Every change of the image list is followed by position
    reconciliation, which keeps the two lists the same length. */
module Session {
  import opened Geometry
  import opened Positions
  import opened Uploader

  datatype Session<F> = Session(images: seq<F>, positions: seq<Point>)

  predicate Synced<F>(s: Session<F>) {
    |s.positions| == |s.images|
  }

  /** Each ornament with the position it is drawn at. */
  function Placement<F>(s: Session<F>): (r: seq<(F, Point)>)
    requires Synced(s)
    ensures |r| == |s.images|
    ensures forall k :: 0 <= k < |r| ==> r[k] == (s.images[k], s.positions[k])
  {
    seq(|s.images|, k requires 0 <= k < |s.images| => (s.images[k], s.positions[k]))
  }

  /** Replace the image list, then let reconciliation resize the positions. */
  function SetImages<F>(s: Session<F>, images: seq<F>): (t: Session<F>)
    ensures Synced(t) && t.images == images
  {
    Session(images, Reconcile(s.positions, |images|))
  }

  /** Adding a batch keeps every ornament already placed where it is and puts
      each accepted newcomer at its grid slot. */
  function AddFiles<F>(s: Session<F>, batch: seq<F>): (t: Session<F>)
    requires Synced(s)
    ensures Synced(t)
    ensures t.images == AddBatch(s.images, batch).images
    ensures |t.images| >= |s.images|
    ensures Placement(t)[..|s.images|] == Placement(s)
    ensures forall k :: |s.images| <= k < |t.images| ==> t.positions[k] == GridSlot(k)
  {
    var t := SetImages(s, AddBatch(s.images, batch).images);
    assert forall k :: 0 <= k < |s.images| ==> Placement(t)[k] == Placement(s)[k] by {
      forall k | 0 <= k < |s.images| ensures Placement(t)[k] == Placement(s)[k] {
        ReconcileKeepsSurvivors(s.positions, |t.images|, k);
      }
    }
    t
  }

  /** Clearing with confirmation empties both lists; declining leaves the
      session as it was. */
  function Clear<F>(s: Session<F>, confirmed: bool): (t: Session<F>)
    requires Synced(s)
    ensures confirmed ==> t.images == [] && t.positions == []
    ensures !confirmed ==> t == s
  {
    SetImages(s, ClearAll(s.images, confirmed))
  }

  /** Removal as the code is written: the image is removed at `index`, but
      reconciliation then drops the LAST position. */
  function RemoveAsWritten<F>(s: Session<F>, index: int): (t: Session<F>)
    requires Synced(s)
    ensures Synced(t)
    ensures t.images == RemoveImage(s.images, index)
    ensures |t.images| <= |s.images| && t.positions == s.positions[..|t.images|]
  {
    RemoveImageSpec(s.images, index);
    SetImages(s, RemoveImage(s.images, index))
  }

  /** Two dragged ornaments; removing the first moves the second onto the
      first one's position. */
  lemma RemoveAsWrittenMovesSurvivor()
    ensures var s := Session([1, 2], [Point(0.0, 0.0), Point(500.0, 500.0)]);
      && Placement(s)[1] == (2, Point(500.0, 500.0))
      && Placement(RemoveAsWritten(s, 0)) == [(2, Point(0.0, 0.0))]
  {
  }

  /** Removal with the position removed at the same index, so every remaining
      ornament stays where it was. */
  function Remove<F>(s: Session<F>, index: int): (t: Session<F>)
    requires Synced(s)
    ensures Synced(t)
    ensures Placement(t) == RemoveImage(Placement(s), index)
    ensures t.positions == Reconcile(t.positions, |t.images|)
  {
    var t := Session(RemoveImage(s.images, index), RemoveImage(s.positions, index));
    RemoveImageSpec(s.images, index);
    RemoveImageSpec(s.positions, index);
    RemoveImageSpec(Placement(s), index);
    t
  }
}
