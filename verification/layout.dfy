/** The early tree layout of the app's `drawTree`: ornament images fill rows
    from the top, row `r` (0-based) holding `r + 1` of them, each row centred
    on the canvas, with a 100 px pitch and 80 x 80 px images. */
module TreeLayout {
  import opened Geometry

  const Pitch: real := 100.0
  const TopMargin: real := 50.0
  const OrnamentSide: real := 80.0

  /** How many slots the first `r` rows hold: 1 + 2 + ... + r. */
  function Tri(r: nat): nat {
    if r == 0 then 0 else Tri(r - 1) + r
  }

  lemma {:induction false} TriMonotone(r1: nat, r2: nat)
    requires r1 < r2
    ensures Tri(r1 + 1) <= Tri(r2)
    decreases r2
  {
    if r1 + 1 < r2 {
      TriMonotone(r1, r2 - 1);
    }
  }

  /** Where a row of `row + 1` images starts so that it is centred. */
  function RowStartX(row: nat, canvasWidth: real): real {
    (canvasWidth - RowWidth(row)) / 2.0
  }

  function RowWidth(row: nat): real {
    ((row + 1) as real) * Pitch
  }

  /** The box of column `col` of row `row`: an 80 px square that lies within
      its row's span whenever the column exists. */
  function SlotBox(row: nat, col: nat, canvasWidth: real): (r: Rect)
    ensures r.w == OrnamentSide && r.h == OrnamentSide
    ensures col <= row ==> RowStartX(row, canvasWidth) <= r.x
                           && r.x + r.w <= RowStartX(row, canvasWidth) + RowWidth(row)
  {
    Rect(RowStartX(row, canvasWidth) + (col as real) * Pitch,
         TopMargin + (row as real) * Pitch,
         OrnamentSide, OrnamentSide)
  }

  datatype Slot = Slot(row: nat, col: nat, box: Rect)

  /** Image `k` belongs in row `s.row`, at column `k` minus the slots of the
      rows above. */
  predicate PlacedAt(k: nat, s: Slot, canvasWidth: real) {
    && Tri(s.row) <= k < Tri(s.row + 1)
    && s.col == k - Tri(s.row)
    && s.box == SlotBox(s.row, s.col, canvasWidth)
  }

  /** The slot loop of `drawTree`: the slot of every image, in index order,
      and the number of rows begun. */
  method TreeSlots(n: nat, canvasWidth: real) returns (slots: seq<Slot>, rows: nat)
    ensures |slots| == n
    ensures forall k :: 0 <= k < n ==> PlacedAt(k, slots[k], canvasWidth)
    ensures forall k :: 0 <= k < n ==> slots[k].col <= slots[k].row
    ensures n <= Tri(rows) && (rows == 0 || Tri(rows - 1) < n)
  {
    slots := [];
    var index := 0;
    var row := 0;
    while index < n
      invariant index <= n && |slots| == index
      invariant index <= Tri(row) && (index == n || index == Tri(row))
      invariant row == 0 || Tri(row - 1) < n
      invariant forall k :: 0 <= k < index ==> PlacedAt(k, slots[k], canvasWidth)
    {
      var numInRow := row + 1;
      var col := 0;
      while col < numInRow && index < n
        invariant col <= numInRow && index <= n && |slots| == index
        invariant index == Tri(row) + col
        invariant forall k :: 0 <= k < index ==> PlacedAt(k, slots[k], canvasWidth)
      {
        slots := slots + [Slot(row, col, SlotBox(row, col, canvasWidth))];
        index := index + 1;
        col := col + 1;
      }
      row := row + 1;
    }
    rows := row;
  }

  /** Each image has exactly one slot: the row and column of an index are
      determined by it. */
  lemma PlacedAtUnique(k: nat, s1: Slot, s2: Slot, canvasWidth: real)
    requires PlacedAt(k, s1, canvasWidth) && PlacedAt(k, s2, canvasWidth)
    ensures s1 == s2
  {
    if s1.row < s2.row {
      TriMonotone(s1.row, s2.row);
    } else if s2.row < s1.row {
      TriMonotone(s2.row, s1.row);
    }
  }

  /** Images fill the slots row by row, left to right. */
  lemma RowMajor(k1: nat, k2: nat, s1: Slot, s2: Slot, canvasWidth: real)
    requires k1 < k2
    requires PlacedAt(k1, s1, canvasWidth) && PlacedAt(k2, s2, canvasWidth)
    ensures s1.row < s2.row || (s1.row == s2.row && s1.col < s2.col)
  {
    if s2.row < s1.row {
      TriMonotone(s2.row, s1.row);
    }
  }

  /** Every row span is centred on the canvas. */
  lemma RowCentred(row: nat, canvasWidth: real)
    ensures RowStartX(row, canvasWidth) + RowWidth(row) / 2.0 == canvasWidth / 2.0
  {
  }

  predicate Disjoint(a: Rect, b: Rect) {
    a.x + a.w < b.x || b.x + b.w < a.x || a.y + a.h < b.y || b.y + b.h < a.y
  }

  /** Two different images never overlap: the pitch exceeds the image
      size in both directions. */
  lemma SlotsDisjoint(k1: nat, k2: nat, s1: Slot, s2: Slot, canvasWidth: real)
    requires k1 < k2
    requires PlacedAt(k1, s1, canvasWidth) && PlacedAt(k2, s2, canvasWidth)
    ensures Disjoint(s1.box, s2.box)
  {
  }
}
