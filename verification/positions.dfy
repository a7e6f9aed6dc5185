/** The position store: one canvas position per ornament, reconciled whenever
    the ornament list changes. New ornaments are placed on a wrapping grid of
    5 columns with a 110 px pitch starting at (50, 50). */
module Positions {
  import opened Geometry

  const GridColumns: nat := 5
  const GridPitch: real := 110.0
  const GridOrigin: real := 50.0

  /** The default position of ornament `i`: column `i mod 5`, row `i div 5`. */
  function GridSlot(i: nat): (p: Point)
    ensures i < GridColumns ==> p == Point(GridOrigin + (i as real) * GridPitch, GridOrigin)
    ensures GridOrigin <= p.x <= GridOrigin + ((GridColumns - 1) as real) * GridPitch
    ensures GridOrigin <= p.y
  {
    Point(GridOrigin + ((i % GridColumns) as real) * GridPitch,
          GridOrigin + ((i / GridColumns) as real) * GridPitch)
  }

  /** Each slot is one pitch below the slot five indices earlier; with the
      first row this fixes every slot. */
  lemma GridSlotNextRow(i: nat)
    ensures GridSlot(i + GridColumns) == Add(GridSlot(i), Point(0.0, GridPitch))
  {
    assert (i + GridColumns) % GridColumns == i % GridColumns;
    assert (i + GridColumns) / GridColumns == i / GridColumns + 1;
  }

  /** Two ornaments never share a default slot. */
  lemma GridSlotInjective(i: nat, j: nat)
    requires GridSlot(i) == GridSlot(j)
    ensures i == j
  {
  }

  /** Reference definition of reconciliation: keep the list when its length
      already matches, append grid slots for the new indices when it is
      short, keep the prefix when it is long. */
  function Reconcile(prev: seq<Point>, count: nat): (r: seq<Point>)
    ensures |r| == count
    ensures |prev| == count ==> r == prev
    ensures |prev| <= count ==> r[..|prev|] == prev
    ensures forall i :: |prev| <= i < count ==> r[i] == GridSlot(i)
    ensures count <= |prev| ==> r == prev[..count]
  {
    if |prev| == count then prev
    else if |prev| < count then prev + seq(count - |prev|, k requires 0 <= k => GridSlot(|prev| + k))
    else prev[..count]
  }

  /** The updater as the source writes it: copy the list and push one grid
      slot per missing index, or slice. */
  method ReconcileLoop(prev: seq<Point>, count: nat) returns (r: seq<Point>)
    ensures r == Reconcile(prev, count)
  {
    if |prev| == count {
      return prev;
    }
    if |prev| < count {
      r := prev;
      var i := |prev|;
      while i < count
        invariant |prev| <= i <= count
        invariant |r| == i
        invariant r[..|prev|] == prev
        invariant forall k :: |prev| <= k < i ==> r[k] == GridSlot(k)
      {
        r := r + [GridSlot(i)];
        i := i + 1;
      }
      return r;
    }
    r := prev[..count];
  }

  /** Reconciling twice with the same count is reconciling once. */
  lemma ReconcileIdempotent(prev: seq<Point>, count: nat)
    ensures Reconcile(Reconcile(prev, count), count) == Reconcile(prev, count)
  {
  }

  /** Growing in two steps gives the same positions as growing at once:
      the slot a new ornament gets depends only on its index. */
  lemma ReconcileGrowComposes(prev: seq<Point>, m: nat, n: nat)
    requires |prev| <= m <= n
    ensures Reconcile(Reconcile(prev, m), n) == Reconcile(prev, n)
  {
  }

  lemma ReconcileKeepsSurvivors(prev: seq<Point>, count: nat, i: nat)
    requires i < |prev| && i < count
    ensures Reconcile(prev, count)[i] == prev[i]
  {
  }
}
