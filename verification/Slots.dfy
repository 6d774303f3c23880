/**
 The arithmetic of flattened two-dimensional indices: entry i of row col, in rows of length n, is slot col * n + i.
 Other modules keep these definitions closed (`hide Slot, Area`) and use the lemmas.
 */
module Slots {

  function Area(a: nat, b: nat): nat {
    a * b
  }

  function Slot(col: nat, n: nat, i: nat): nat {
    col * n + i
  }

  function SlotColumn(slot: nat, n: nat): nat
    requires n > 0
  {
    slot / n
  }

  function SlotPoint(slot: nat, n: nat): nat
    requires n > 0
  {
    slot % n
  }

  lemma SlotBound(col: nat, columns: nat, n: nat, i: nat)
    requires col < columns && i < n
    ensures Slot(col, n, i) < Area(columns, n)
  {
    Gap(col, columns, n);
  }

  lemma Gap(a: nat, b: nat, n: nat)
    ensures a < b ==> a * n + n <= b * n
  {
    if a < b {
      assert (a + 1) * n <= b * n;
    }
  }

  lemma SlotUnique(col: nat, i: nat, col': nat, i': nat, n: nat)
    requires i < n && i' < n && Slot(col, n, i) == Slot(col', n, i')
    ensures col == col' && i == i'
  {
    Gap(col, col', n);
    Gap(col', col, n);
  }

  /** Rows come one after the other. */
  lemma SlotOrder(col: nat, i: nat, col': nat, i': nat, n: nat)
    requires i < n && (col < col' || (col == col' && i < i'))
    ensures Slot(col, n, i) < Slot(col', n, i')
  {
    Gap(col, col', n);
  }

  /** Every slot of an area belongs to a column and a point. */
  lemma SlotSplit(slot: nat, columns: nat, n: nat)
    requires slot < Area(columns, n)
    ensures n > 0 && SlotColumn(slot, n) < columns && SlotPoint(slot, n) < n
    ensures Slot(SlotColumn(slot, n), n, SlotPoint(slot, n)) == slot
  {
  }

  lemma SlotParts(col: nat, columns: nat, n: nat, i: nat)
    requires col < columns && i < n
    ensures Slot(col, n, i) < Area(columns, n)
    ensures SlotColumn(Slot(col, n, i), n) == col && SlotPoint(Slot(col, n, i), n) == i
  {
    hide Slot, SlotColumn, SlotPoint, Area;
    SlotBound(col, columns, n, i);
    SlotSplit(Slot(col, n, i), columns, n);
    SlotUnique(SlotColumn(Slot(col, n, i), n), SlotPoint(Slot(col, n, i), n), col, i, n);
  }

  /** Splitting a row index first or last gives the same slot. */
  lemma SlotNested(q: nat, g: nat, r: nat, n: nat, rest: nat)
    ensures Slot(Slot(q, g, r), n, rest) == Slot(q, Area(g, n), Slot(r, n, rest))
  {
  }

  lemma AreaNested(a: nat, b: nat, n: nat)
    ensures Area(Area(a, b), n) == Area(a, Area(b, n))
  {
  }

  lemma AreaZero(a: nat, b: nat)
    ensures Area(a, b) == 0 <==> a == 0 || b == 0
  {
  }
}
