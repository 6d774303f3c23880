/**
 compute_divisible_tile (DiFfRG/include/DiFfRG/common/kokkos.hh:266-347): among the tiles whose entries divide their
 extents and whose product fits a budget, a pruned recursive search keeps the best. The distance to Kokkos' tile is an
 arbitrary score here.
 */
module Tiling {
  import opened Prelude

  type Tile = seq<nat>

  const WARP: nat := 32

  // ----- products -----

  function Product(t: Tile): nat {
    if t == [] then 1 else Product(t[..|t| - 1]) * t[|t| - 1]
  }

  lemma ProductExtends(t: Tile, d: nat)
    ensures Product(t + [d]) == Product(t) * d
  {
    assert (t + [d])[..|t|] == t;
  }

  predicate Positive(t: Tile) {
    forall i :: 0 <= i < |t| ==> t[i] > 0
  }

  lemma {:induction false} ProductPositive(t: Tile)
    requires Positive(t)
    ensures Product(t) > 0
  {
    if t != [] {
      ProductPositive(t[..|t| - 1]);
      Grows(1, Product(t[..|t| - 1]), t[|t| - 1]);
    }
  }

  lemma Grows(a: nat, b: nat, d: nat)
    requires a <= b && d > 0
    ensures a <= b * d
  {
  }

  /** A prefix never has the larger product. */
  lemma {:induction false} PrefixSmaller(t: Tile, i: nat)
    requires Positive(t) && i <= |t|
    ensures Product(t[..i]) <= Product(t)
  {
    if i == |t| {
      assert t[..i] == t;
    } else {
      PrefixSmaller(t[..|t| - 1], i);
      assert t[..|t| - 1][..i] == t[..i];
      Grows(Product(t[..i]), Product(t[..|t| - 1]), t[|t| - 1]);
    }
  }

  // ----- which tiles compete -----

  /** d divides the extent; an extent of zero, which launches nothing, only admits 1. */
  predicate Divides(d: nat, extent: nat) {
    d > 0 && if extent == 0 then d == 1 else extent % d == 0
  }

  ghost predicate Competes(t: Tile, extents: seq<nat>, budget: nat) {
    |t| == |extents| && Product(t) <= budget && forall i :: 0 <= i < |t| ==> Divides(t[i], extents[i])
  }

  // ----- the ranking -----

  predicate LexGreater(a: Tile, b: Tile)
    requires |a| == |b|
  {
    a != [] && if a[0] != b[0] then a[0] > b[0] else LexGreater(a[1..], b[1..])
  }

  const TIE := 0.000000001

  /** Whole warps, then the larger product. */
  predicate Larger(a: Tile, b: Tile) {
    var wa, wb := Product(a) % WARP == 0, Product(b) % WARP == 0;
    if wa != wb then wa else Product(a) > Product(b)
  }

  /** Whole warps, then the larger product, then the smaller distance up to a tolerance, then weight in front. */
  predicate Better(distance: Tile -> real, a: Tile, b: Tile)
    requires |a| == |b|
  {
    var wa, wb := Product(a) % WARP == 0, Product(b) % WARP == 0;
    if wa != wb then wa
    else if Product(a) != Product(b) then Product(a) > Product(b)
    else if Abs(distance(a) - distance(b)) > TIE then distance(a) < distance(b)
    else LexGreater(a, b)
  }

  /** No two competing tiles of one size have distances closer than the tolerance without being equal. */
  ghost predicate Separated(extents: seq<nat>, budget: nat, distance: Tile -> real) {
    forall a, b :: Competes(a, extents, budget) && Competes(b, extents, budget) && Product(a) == Product(b) ==>
                     distance(a) == distance(b) || Abs(distance(a) - distance(b)) > TIE
  }

  lemma {:induction false} LexTransitive(a: Tile, b: Tile, c: Tile)
    requires |a| == |b| == |c| && LexGreater(a, b) && LexGreater(b, c)
    ensures LexGreater(a, c)
  {
    if a[0] == b[0] == c[0] {
      LexTransitive(a[1..], b[1..], c[1..]);
    }
  }

  /** The order is total up to equality. */
  lemma {:induction false} LexTotal(a: Tile, b: Tile)
    requires |a| == |b|
    ensures LexGreater(a, b) || LexGreater(b, a) || a == b
    ensures !(LexGreater(a, b) && LexGreater(b, a))
  {
    if a != [] {
      LexTotal(a[1..], b[1..]);
      if a[1..] == b[1..] && a[0] == b[0] {
        assert a == [a[0]] + a[1..] == b;
      }
    }
  }

  /** With separated distances, replacing the best tile by a better one cannot bring back a tile that lost to it. */
  lemma BetterTransitive(extents: seq<nat>, budget: nat, distance: Tile -> real, a: Tile, b: Tile, c: Tile)
    requires Separated(extents, budget, distance)
    requires Competes(a, extents, budget) && Competes(b, extents, budget) && Competes(c, extents, budget)
    requires Better(distance, a, b) && !Better(distance, c, b)
    ensures !Better(distance, c, a)
  {
    hide Product, LexGreater;
    if Better(distance, c, a) && LexGreater(c, a) && LexGreater(a, b) {
      LexTransitive(c, a, b);
    }
  }

  // ----- the search -----

  /** The divisors of an extent that fit the budget, in ascending order. */
  method Candidates(extent: nat, budget: nat) returns (r: seq<nat>)
    ensures Ascending(r)
    ensures budget > 0 ==> forall d: nat :: d in r <==> Divides(d, extent) && d <= budget
    ensures budget == 0 ==> r == [1]
  {
    r := [];
    var cap := if extent < budget then extent else budget;
    for d := 1 to cap + 1
      invariant Ascending(r) && forall i :: 0 <= i < |r| ==> r[i] < d
      invariant forall e: nat :: e in r <==> 0 < e < d && extent % e == 0
      invariant cap == 0 ==> r == []
    {
      if extent % d == 0 {
        r := r + [d];
      }
    }
    if cap > 0 {
      assert extent % 1 == 0 && 1 in r;
      forall d: nat | Divides(d, extent)
        ensures d <= extent
      {
        DivisorBound(d, extent);
      }
    }
    if r == [] {
      r := [1];
    }
  }

  ghost predicate Ascending(s: seq<nat>) {
    forall i, j :: 0 <= i < j < |s| ==> s[i] < s[j]
  }

  lemma DivisorBound(d: nat, extent: nat)
    requires extent > 0 && Divides(d, extent)
    ensures d <= extent
  {
  }

  /** t survives the best tile found: it is not larger, and not better where the ranking is an order. */
  ghost predicate Beaten(extents: seq<nat>, budget: nat, distance: Tile -> real, t: Tile, best: Tile)
    requires |t| == |best|
  {
    !Larger(t, best) && (Separated(extents, budget, distance) ==> !Better(distance, t, best))
  }

  /** A better tile beats everything its predecessor beat, and the predecessor itself. */
  lemma BeatenStays(extents: seq<nat>, budget: nat, distance: Tile -> real, t: Tile, best: Tile, better: Tile)
    requires Competes(t, extents, budget) && Competes(best, extents, budget) && Competes(better, extents, budget)
    requires Better(distance, better, best) && Beaten(extents, budget, distance, t, best)
    ensures Beaten(extents, budget, distance, t, better)
  {
    if Separated(extents, budget, distance) {
      BetterTransitive(extents, budget, distance, better, best, t);
    }
  }

  lemma BeatenSelf(extents: seq<nat>, budget: nat, distance: Tile -> real, t: Tile)
    ensures Beaten(extents, budget, distance, t, t)
  {
    LexTotal(t, t);
  }

  /** Every competing tile that starts with the prefix, and has an entry below `bound` next, is beaten. */
  ghost predicate Covered(extents: seq<nat>, budget: nat, distance: Tile -> real, prefix: Tile, bound: nat,
                          best: Option<Tile>)
  {
    forall t: Tile :: Competes(t, extents, budget) && prefix <= t && (|prefix| < |t| ==> t[|prefix|] < bound) ==>
                        best.Some? && |best.value| == |t| && Beaten(extents, budget, distance, t, best.value)
  }

  /** Whatever lost to the best tile before loses to the best tile after. */
  ghost predicate Improved(extents: seq<nat>, budget: nat, distance: Tile -> real, before: Option<Tile>,
                           after: Option<Tile>)
  {
    before.Some? ==>
      && after.Some? && |after.value| == |before.value|
      && forall t: Tile :: Competes(t, extents, budget) && |t| == |before.value|
                           && Beaten(extents, budget, distance, t, before.value)
                           ==> Beaten(extents, budget, distance, t, after.value)
  }

  lemma LeafCovered(extents: seq<nat>, budget: nat, distance: Tile -> real, current: Tile, before: Option<Tile>,
                    after: Tile)
    requires Competes(current, extents, budget) && (before.Some? ==> Competes(before.value, extents, budget))
    requires after == if before.Some? && !Better(distance, current, before.value) then before.value else current
    ensures Improved(extents, budget, distance, before, Some(after))
    ensures Covered(extents, budget, distance, current, budget + 1, Some(after))
  {
    BeatenSelf(extents, budget, distance, current);
    if before.Some? && after != before.value {
      forall t: Tile | Competes(t, extents, budget) && Beaten(extents, budget, distance, t, before.value)
        ensures Beaten(extents, budget, distance, t, after)
      {
        BeatenStays(extents, budget, distance, t, before.value, after);
      }
    }
    assert forall t: Tile :: |t| == |current| && current <= t ==> t == current;
    if before.Some? && !Better(distance, current, before.value) {
      NotBetterNotLarger(distance, current, after);
    }
  }

  lemma NotBetterNotLarger(distance: Tile -> real, a: Tile, b: Tile)
    requires |a| == |b| && !Better(distance, a, b)
    ensures !Larger(a, b)
  {
  }

  /** The subtree below one more candidate d is covered. */
  lemma CandidateCovered(extents: seq<nat>, budget: nat, distance: Tile -> real, prefix: Tile, d: nat, next: nat,
                         before: Option<Tile>, after: Option<Tile>)
    requires Covered(extents, budget, distance, prefix, d, before) && Improved(extents, budget, distance, before, after)
    requires Covered(extents, budget, distance, prefix + [d], budget + 1, after) && |prefix| < |extents|
    requires forall e: nat :: d < e < next && Divides(e, extents[|prefix|]) ==> e > budget
    ensures Covered(extents, budget, distance, prefix, next, after)
  {
    forall t: Tile | Competes(t, extents, budget) && prefix <= t && t[|prefix|] < next
      ensures after.Some? && |after.value| == |t| && Beaten(extents, budget, distance, t, after.value)
    {
      EntriesFit(t, extents, budget);
      if t[|prefix|] == d {
        assert prefix + [d] <= t;
      } else {
        assert t[|prefix|] < d;
      }
    }
  }

  lemma EntriesFit(t: Tile, extents: seq<nat>, budget: nat)
    requires Competes(t, extents, budget)
    ensures forall i :: 0 <= i < |t| ==> t[i] <= budget
  {
    hide Product;
    EntriesBelow(t, budget);
  }

  lemma EntriesBelow(t: Tile, budget: nat)
    requires Positive(t) && Product(t) <= budget
    ensures forall i :: 0 <= i < |t| ==> t[i] <= budget
  {
    forall i | 0 <= i < |t|
      ensures t[i] <= budget
    {
      PrefixSmaller(t, i + 1);
      assert t[..i + 1][..i] == t[..i];
      ProductPositive(t[..i]);
      Grows(1, Product(t[..i]), t[i]);
      assert Product(t[..i + 1]) == Product(t[..i]) * t[i];
      AtLeast(Product(t[..i]), t[i]);
    }
  }

  lemma AtLeast(a: nat, b: nat)
    requires a >= 1
    ensures a * b >= b
  {
  }

  lemma TimesMonotone(a: nat, b: nat, c: nat)
    ensures b <= c ==> a * b <= a * c
  {
  }

  /** c lists the divisors of the extent that fit the budget, in ascending order. */
  ghost predicate Lists(c: seq<nat>, extent: nat, budget: nat) {
    Ascending(c) && forall d: nat :: d in c <==> Divides(d, extent) && d <= budget
  }

  lemma ListedDivides(c: seq<nat>, extent: nat, budget: nat, j: nat)
    requires Lists(c, extent, budget) && j < |c|
    ensures Divides(c[j], extent)
  {
  }

  /** The j-th candidate, or just past the budget. */
  function Bound(c: seq<nat>, budget: nat, j: nat): nat {
    if j < |c| then c[j] else budget + 1
  }

  lemma NoneBetween(c: seq<nat>, extent: nat, budget: nat, j: nat)
    requires Lists(c, extent, budget) && j <= |c|
    ensures forall e: nat :: (j == 0 || c[j - 1] < e) && e < Bound(c, budget, j) && Divides(e, extent) ==> e > budget
  {
  }

  lemma NothingToCover(extents: seq<nat>, budget: nat, distance: Tile -> real, prefix: Tile, bound: nat,
                       best: Option<Tile>)
    requires |prefix| < |extents|
    requires forall e: nat :: e < bound && Divides(e, extents[|prefix|]) ==> e > budget
    ensures Covered(extents, budget, distance, prefix, bound, best)
  {
    forall t: Tile | Competes(t, extents, budget) && prefix <= t && t[|prefix|] < bound
      ensures false
    {
      EntriesFit(t, extents, budget);
    }
  }

  /** Stopping at the first candidate that overruns the budget loses nothing. */
  lemma PruningSound(extents: seq<nat>, budget: nat, distance: Tile -> real, prefix: Tile, d: nat, best: Option<Tile>)
    requires Covered(extents, budget, distance, prefix, d, best) && |prefix| < |extents|
    requires Product(prefix) * d > budget
    ensures Covered(extents, budget, distance, prefix, budget + 1, best)
  {
    hide Product, Beaten;
    forall t: Tile | Competes(t, extents, budget) && prefix <= t && t[|prefix|] < budget + 1
      ensures t[|prefix|] < d
    {
      EntryBelow(t, prefix, d, budget);
    }
  }

  /** A tile within the budget has a smaller entry where a candidate overruns it. */
  lemma EntryBelow(t: Tile, prefix: Tile, d: nat, budget: nat)
    requires Positive(t) && Product(t) <= budget && prefix <= t && |prefix| < |t| && Product(prefix) * d > budget
    ensures t[|prefix|] < d
  {
    hide Product;
    var i := |prefix|;
    assert t[..i + 1] == prefix + [t[i]];
    PrefixSmaller(t, i + 1);
    ProductExtends(prefix, t[i]);
    TimesMonotone(Product(prefix), d, t[i]);
  }

  class TileSearch {
    const extents: seq<nat>
    const budget: nat
    const distance: Tile -> real
    const candidates: seq<seq<nat>>
    var current: Tile
    var best: Tile
    var bestProduct: nat
    var bestDistance: real
    var bestWholeWarps: bool
    var haveBest: bool

    constructor (extents: seq<nat>, budget: nat, distance: Tile -> real, candidates: seq<seq<nat>>)
      ensures this.extents == extents && this.budget == budget && this.distance == distance
      ensures this.candidates == candidates && !haveBest && |current| == |extents|
    {
      this.extents, this.budget, this.distance, this.candidates := extents, budget, distance, candidates;
      current, best := seq(|extents|, _ => 0), [];
      bestProduct, bestDistance, bestWholeWarps, haveBest := 0, 0.0, false, false;
    }

    ghost predicate Valid()
      reads this
    {
      && |candidates| == |extents| == |current|
      && (budget > 0 ==>
            forall i :: 0 <= i < |extents| ==> Lists(candidates[i], extents[i], budget))
      && (budget == 0 ==> forall i :: 0 <= i < |extents| ==> candidates[i] == [1])
      && (haveBest ==>
            && Competes(best, extents, budget)
            && bestProduct == Product(best) && bestDistance == distance(best)
            && bestWholeWarps == (Product(best) % WARP == 0))
    }

    function Best(): Option<Tile>
      reads this
    {
      if haveBest then Some(best) else None
    }

    /** A complete tile: keep the better one. */
    method Consider(product: nat)
      requires Valid() && Competes(current, extents, budget) && product == Product(current)
      modifies `best, `bestProduct, `bestDistance, `bestWholeWarps, `haveBest
      ensures Valid() && haveBest
      ensures best == if old(haveBest) && !Better(distance, current, old(best)) then old(best) else current
    {
      var wholeWarps := product % WARP == 0;
      var d := distance(current);
      var better :=
        if !haveBest then true
        else if wholeWarps != bestWholeWarps then wholeWarps
        else if product != bestProduct then product > bestProduct
        else if Abs(d - bestDistance) > TIE then d < bestDistance
        else LexGreater(current, best);
      if better {
        best, bestProduct, bestDistance, bestWholeWarps, haveBest := current, product, d, wholeWarps, true;
      }
    }

    /** Visit every competing tile that starts with the first i entries of the current one. */
    method Visit(i: nat, product: nat)
      requires Valid() && i <= |extents| && product == Product(current[..i]) && 0 < product <= budget
      requires forall k :: 0 <= k < i ==> Divides(current[k], extents[k])
      modifies this
      ensures Valid() && current[..i] == old(current[..i])
      ensures Improved(extents, budget, distance, old(Best()), Best())
      ensures Covered(extents, budget, distance, current[..i], budget + 1, Best())
      decreases |extents| - i
    {
      ghost var prefix := current[..i];
      if i == |extents| {
        assert prefix == current;
        LeafCovered(extents, budget, distance, current, Best(),
                    if haveBest && !Better(distance, current, best) then best else current);
        Consider(product);
        return;
      }
      VisitCandidates(i, product);
    }

    method VisitCandidate(i: nat, product: nat, d: nat)
      requires Valid() && i < |extents| && product == Product(current[..i]) && 0 < product && product * d <= budget
      requires forall k :: 0 <= k < i ==> Divides(current[k], extents[k])
      requires Divides(d, extents[i])
      modifies this
      ensures Valid() && current[..i] == old(current[..i])
      ensures Improved(extents, budget, distance, old(Best()), Best())
      ensures Covered(extents, budget, distance, current[..i] + [d], budget + 1, Best())
      decreases |extents| - i, 0
    {
      hide Beaten, Improved, Covered, Lists, Competes, Product, Better;
      ghost var prefix := current[..i];
      current := current[i := d];
      assert current[..i + 1] == prefix + [d];
      ProductExtends(prefix, d);
      AtLeast(product, d);
      Visit(i + 1, product * d);
      assert current[..i] == current[..i + 1][..i];
    }

    method VisitCandidates(i: nat, product: nat)
      requires Valid() && i < |extents| && product == Product(current[..i]) && 0 < product <= budget
      requires forall k :: 0 <= k < i ==> Divides(current[k], extents[k])
      modifies this
      ensures Valid() && current[..i] == old(current[..i])
      ensures Improved(extents, budget, distance, old(Best()), Best())
      ensures Covered(extents, budget, distance, current[..i], budget + 1, Best())
      decreases |extents| - i, 1
    {
      hide Beaten, Improved, Covered, Lists, Competes, Product, Better;
      ghost var prefix := current[..i];
      ImprovedSelf(extents, budget, distance, Best());
      NoneBetween(candidates[i], extents[i], budget, 0);
      NothingToCover(extents, budget, distance, prefix, Bound(candidates[i], budget, 0), Best());
      var j := 0;
      while j < |candidates[i]|
        invariant Valid() && j <= |candidates[i]| && current[..i] == prefix
        invariant Improved(extents, budget, distance, old(Best()), Best())
        invariant Covered(extents, budget, distance, prefix, Bound(candidates[i], budget, j), Best())
      {
        var d := candidates[i][j];
        if product * d > budget {
          PruningSound(extents, budget, distance, prefix, d, Best());
          return;
        }
        ghost var before := Best();
        ListedDivides(candidates[i], extents[i], budget, j);
        VisitCandidate(i, product, d);
        ImprovedTransitive(extents, budget, distance, old(Best()), before, Best());
        NoneBetween(candidates[i], extents[i], budget, j + 1);
        CandidateCovered(extents, budget, distance, prefix, d, Bound(candidates[i], budget, j + 1), before, Best());
        j := j + 1;
      }
    }
  }

  lemma ImprovedSelf(extents: seq<nat>, budget: nat, distance: Tile -> real, best: Option<Tile>)
    ensures Improved(extents, budget, distance, best, best)
  {
  }

  lemma ImprovedTransitive(extents: seq<nat>, budget: nat, distance: Tile -> real, a: Option<Tile>, b: Option<Tile>,
                           c: Option<Tile>)
    requires Improved(extents, budget, distance, a, b) && Improved(extents, budget, distance, b, c)
    ensures Improved(extents, budget, distance, a, c)
  {
  }

  // ----- the result -----

  /** No lane is launched masked. */
  predicate DividesAll(t: Tile, extents: seq<nat>) {
    |t| == |extents| && forall i :: 0 <= i < |t| ==> t[i] > 0 && extents[i] % t[i] == 0
  }

  /** The given tile if it already divides everything or nothing fits, else a competing tile that no other beats. */
  ghost predicate Chosen(extents: seq<nat>, kokkosTile: Tile, budget: nat, distance: Tile -> real, tile: Tile) {
    if DividesAll(kokkosTile, extents) || budget == 0 then tile == kokkosTile
    else
      && Competes(tile, extents, budget)
      && forall t: Tile :: Competes(t, extents, budget) ==> Beaten(extents, budget, distance, t, tile)
  }

  /** The two tiles differ, and at the first entry where they do a has the larger one. */
  ghost predicate LargerInFront(a: Tile, b: Tile)
    requires |a| == |b|
  {
    exists i :: 0 <= i < |a| && a[..i] == b[..i] && a[i] > b[i]
  }

  lemma {:induction false} LexIsFront(a: Tile, b: Tile)
    requires |a| == |b|
    ensures LexGreater(a, b) ==> LargerInFront(a, b)
  {
    if LexGreater(a, b) {
      if a[0] != b[0] {
        assert a[..0] == b[..0];
      } else {
        LexIsFront(a[1..], b[1..]);
        var i :| 0 <= i < |a| - 1 && a[1..][..i] == b[1..][..i] && a[1..][i] > b[1..][i];
        assert a[..i + 1] == [a[0]] + a[1..][..i] && b[..i + 1] == [b[0]] + b[1..][..i];
      }
    }
  }

  /** The distances of two competing tiles of one size are equal, or more than a billionth apart. */
  ghost predicate ClearDistances(extents: seq<nat>, budget: nat, distance: Tile -> real) {
    forall a, b :: Competes(a, extents, budget) && Competes(b, extents, budget) && Product(a) == Product(b) ==>
                     distance(a) == distance(b) || distance(a) - distance(b) > 1e-9 || distance(b) - distance(a) > 1e-9
  }

  /**
   What is chosen: a competing tile of a multiple of 32 lanes if there is one, of the most lanes of its kind, and among
   those of as many lanes, when their distances are clear, the nearest and then the one with the larger entries in
   front.
   */
  ghost predicate Optimal(extents: seq<nat>, budget: nat, distance: Tile -> real, tile: Tile) {
    && Competes(tile, extents, budget)
    && forall t: Tile :: Competes(t, extents, budget) ==>
         && (Product(t) % 32 == 0 ==> Product(tile) % 32 == 0)
         && ((Product(tile) % 32 == 0 ==> Product(t) % 32 == 0) ==> Product(t) <= Product(tile))
         && (ClearDistances(extents, budget, distance) && Product(t) == Product(tile) ==>
               && distance(tile) <= distance(t)
               && (distance(tile) == distance(t) && t != tile ==> LargerInFront(tile, t)))
  }

  lemma BeatenIsOptimal(extents: seq<nat>, budget: nat, distance: Tile -> real, tile: Tile)
    requires Competes(tile, extents, budget)
    requires forall t: Tile :: Competes(t, extents, budget) ==> Beaten(extents, budget, distance, t, tile)
    ensures Optimal(extents, budget, distance, tile)
  {
    hide Product, LexGreater, LargerInFront;
    forall t: Tile | Competes(t, extents, budget)
      ensures Beaten(extents, budget, distance, t, tile)
      ensures LexGreater(tile, t) || LexGreater(t, tile) || t == tile
      ensures LexGreater(tile, t) ==> LargerInFront(tile, t)
    {
      LexTotal(tile, t);
      LexIsFront(tile, t);
    }
  }

  method ComputeDivisibleTile(extents: seq<nat>, kokkosTile: Tile, budget: nat, distance: Tile -> real)
    returns (tile: Tile)
    requires |extents| == |kokkosTile|
    ensures Chosen(extents, kokkosTile, budget, distance, tile)
    ensures budget > 0 && !DividesAll(kokkosTile, extents) ==> Optimal(extents, budget, distance, tile)
  {
    hide Beaten, Product, Optimal;
    var alreadyDivides := true;
    for i := 0 to |extents|
      invariant alreadyDivides <==> forall k :: 0 <= k < i ==> kokkosTile[k] > 0 && extents[k] % kokkosTile[k] == 0
    {
      if kokkosTile[i] == 0 || extents[i] % kokkosTile[i] != 0 {
        alreadyDivides := false;
      }
    }
    if alreadyDivides {
      return kokkosTile;
    }
    var candidates := AllCandidates(extents, budget);
    // Without a budget even the first candidate overruns it, so nothing is visited.
    if budget > 0 {
      tile := SearchTiles(extents, budget, distance, candidates);
      BeatenIsOptimal(extents, budget, distance, tile);
    } else {
      tile := kokkosTile;
    }
  }

  method SearchTiles(extents: seq<nat>, budget: nat, distance: Tile -> real, candidates: seq<seq<nat>>)
    returns (tile: Tile)
    requires budget > 0 && |candidates| == |extents|
    requires forall k :: 0 <= k < |extents| ==> Lists(candidates[k], extents[k], budget)
    ensures Competes(tile, extents, budget)
    ensures forall t: Tile :: Competes(t, extents, budget) ==> Beaten(extents, budget, distance, t, tile)
  {
    hide Beaten, Lists;
    var search := new TileSearch(extents, budget, distance, candidates);
    assert search.current[..0] == [] && Product([]) == 1;
    search.Visit(0, 1);
    AllOnesCompete(extents, budget);
    AllBeaten(extents, budget, distance, search.Best());
    return search.best;
  }

  lemma AllBeaten(extents: seq<nat>, budget: nat, distance: Tile -> real, best: Option<Tile>)
    requires Covered(extents, budget, distance, [], budget + 1, best)
    ensures forall t: Tile :: Competes(t, extents, budget) ==>
                                best.Some? && |best.value| == |t| && Beaten(extents, budget, distance, t, best.value)
  {
    forall t: Tile | Competes(t, extents, budget)
      ensures best.Some? && |best.value| == |t| && Beaten(extents, budget, distance, t, best.value)
    {
      EntriesFit(t, extents, budget);
    }
  }

  method AllCandidates(extents: seq<nat>, budget: nat) returns (candidates: seq<seq<nat>>)
    ensures |candidates| == |extents|
    ensures budget > 0 ==> forall k :: 0 <= k < |extents| ==> Lists(candidates[k], extents[k], budget)
    ensures budget == 0 ==> forall k :: 0 <= k < |extents| ==> candidates[k] == [1]
  {
    candidates := [];
    for i := 0 to |extents|
      invariant |candidates| == i
      invariant budget > 0 ==> forall k :: 0 <= k < i ==> Lists(candidates[k], extents[k], budget)
      invariant budget == 0 ==> forall k :: 0 <= k < i ==> candidates[k] == [1]
    {
      var c := Candidates(extents[i], budget);
      candidates := candidates + [c];
    }
  }

  function Ones(n: nat): (t: Tile)
    ensures |t| == n && forall i :: 0 <= i < n ==> t[i] == 1
  {
    seq(n, _ => 1)
  }

  lemma {:induction false} OnesProduct(n: nat)
    ensures Product(Ones(n)) == 1
  {
    if n > 0 {
      assert Ones(n)[..n - 1] == Ones(n - 1);
      OnesProduct(n - 1);
    }
  }

  lemma AllOnesCompete(extents: seq<nat>, budget: nat)
    requires budget > 0
    ensures Competes(Ones(|extents|), extents, budget)
  {
    OnesProduct(|extents|);
  }

  /** With positive extents every divisor tile within the budget competes. */
  lemma DivisorTilesCompete(t: Tile, extents: seq<nat>, budget: nat)
    requires forall i :: 0 <= i < |extents| ==> extents[i] > 0
    ensures Competes(t, extents, budget) <==> DividesAll(t, extents) && Product(t) <= budget
  {
  }

  /** The tile with a 2 at position k and 1 elsewhere. */
  lemma {:induction false} TwoProduct(n: nat, k: nat)
    requires k < n
    ensures Product(Ones(n)[k := 2]) == 2
  {
    var t := Ones(n)[k := 2];
    if k == n - 1 {
      assert t[..n - 1] == Ones(n - 1);
      OnesProduct(n - 1);
    } else {
      assert t[..n - 1] == Ones(n - 1)[k := 2];
      TwoProduct(n - 1, k);
    }
  }

  /** No divisor tile within the budget is left out exactly when no extent is zero, or nothing but 1 fits anyway. */
  lemma AllDivisorTilesCompete(extents: seq<nat>, budget: nat)
    requires budget > 0
    ensures (forall t: Tile :: DividesAll(t, extents) && Product(t) <= budget ==> Competes(t, extents, budget))
            <==> budget == 1 || Positive(extents)
  {
    hide Product;
    if budget == 1 || Positive(extents) {
      forall t: Tile | DividesAll(t, extents) && Product(t) <= budget
        ensures Competes(t, extents, budget)
      {
        EntriesBelow(t, budget);
      }
    } else {
      var k :| 0 <= k < |extents| && extents[k] == 0;
      var t := Ones(|extents|)[k := 2];
      TwoProduct(|extents|, k);
      assert DividesAll(t, extents) && Product(t) <= budget && !Divides(t[k], extents[k]);
    }
  }

  /** A range with an empty dimension, whose re-tiling loses to a divisor tile within the same budget. */
  method ZeroExtentLeavesOut(distance: Tile -> real) returns (tile: Tile, extents: seq<nat>, larger: Tile)
    ensures extents == [0, 5] && Chosen(extents, [4, 2], Product([4, 2]), distance, tile)
    ensures DividesAll(larger, extents) && Product(larger) <= Product([4, 2]) && Larger(larger, tile)
  {
    Pair(4, 2);
    Pair(8, 1);
    tile, extents := RangeDivisible([0, 0], [0, 5], [4, 2], distance);
    larger := [8, 1];
    assert !DividesAll([4, 2], extents) && extents == [0, 5];
    assert Divides(tile[0], 0) && Divides(tile[1], 5);
    assert tile == [tile[0], tile[1]];
    Pair(tile[0], tile[1]);
  }

  lemma Pair(a: nat, b: nat)
    ensures Product([a, b]) == a * b
  {
    assert [a, b][..1] == [a] && [a][..0] == [];
    assert Product([a]) == a;
  }

  // ----- launched lanes -----

  function Rounded(extent: nat, d: nat): nat
    requires d > 0
  {
    (extent + d - 1) / d * d
  }

  /** Lanes launched when every dimension is covered by whole tiles. */
  function Launched(extents: seq<nat>, t: Tile): nat
    requires |extents| == |t| && Positive(t)
  {
    if t == [] then 1
    else Launched(extents[..|t| - 1], t[..|t| - 1]) * Rounded(extents[|t| - 1], t[|t| - 1])
  }

  lemma RoundedUp(extent: nat, d: nat)
    requires d > 0
    ensures Rounded(extent, d) >= extent
    ensures Rounded(extent, d) == extent <==> extent % d == 0
  {
    hide Rounded;
    NotBelow(extent, d);
    RoundedMultiple(extent, d);
    if extent % d == 0 {
      MultipleExact(extent, d);
    }
  }

  lemma NotBelow(extent: nat, d: nat)
    requires d > 0
    ensures Rounded(extent, d) >= extent
  {
    var x := extent + d - 1;
    assert x == x / d * d + x % d;
  }

  lemma RoundedMultiple(extent: nat, d: nat)
    requires d > 0
    ensures Rounded(extent, d) % d == 0
  {
    MultipleModulo((extent + d - 1) / d, d);
  }

  lemma MultipleExact(extent: nat, d: nat)
    requires d > 0 && extent % d == 0
    ensures Rounded(extent, d) == extent
  {
    hide Rounded;
    assert extent == extent / d * d;
    MultipleRounded(extent / d, d);
  }

  lemma MultipleModulo(k: nat, d: nat)
    requires d > 0
    ensures k * d % d == 0
  {
    DivisionUnique(k * d, k, 0, d);
  }

  lemma MultipleRounded(k: nat, d: nat)
    requires d > 0
    ensures Rounded(k * d, d) == k * d
  {
    var x := k * d + d - 1;
    assert x / d == k by {
      assert x == k * d + (d - 1);
      DivisionUnique(x, k, d - 1, d);
    }
  }

  lemma DivisionUnique(x: nat, k: nat, r: nat, d: nat)
    requires d > 0 && r < d && x == k * d + r
    ensures x / d == k
  {
    var q := x / d;
    assert x == q * d + x % d;
    TimesMonotone(d, q + 1, k);
    TimesMonotone(d, k + 1, q);
  }

  /** Exactly the dividing tiles launch as many lanes as there are points; any other launches more. */
  lemma {:induction false} LaunchedExact(extents: seq<nat>, t: Tile)
    requires |extents| == |t| && Positive(t) && Positive(extents)
    ensures Launched(extents, t) >= Product(extents)
    ensures Launched(extents, t) == Product(extents) <==> DividesAll(t, extents)
  {
    if t != [] {
      var n := |t| - 1;
      LaunchedExact(extents[..n], t[..n]);
      RoundedUp(extents[n], t[n]);
      ProductPositive(extents[..n]);
      ProductsEqual(Launched(extents[..n], t[..n]), Product(extents[..n]), Rounded(extents[n], t[n]), extents[n]);
      assert DividesAll(t, extents) <==> DividesAll(t[..n], extents[..n]) && extents[n] % t[n] == 0;
    }
  }

  lemma ProductsEqual(a: nat, p: nat, b: nat, q: nat)
    requires a >= p > 0 && b >= q > 0
    ensures a * b >= p * q
    ensures a * b == p * q <==> a == p && b == q
  {
  }

  /** Re-tiling a range: the block never grows, and no lane is wasted. */
  method RangeDivisible(start: seq<nat>, end: seq<nat>, kokkosTile: Tile, distance: Tile -> real)
    returns (tile: Tile, extents: seq<nat>)
    requires |start| == |end| == |kokkosTile|
    requires forall i :: 0 <= i < |start| ==> start[i] <= end[i]
    ensures |tile| == |extents| == |start| && forall i :: 0 <= i < |start| ==> extents[i] == end[i] - start[i]
    ensures Chosen(extents, kokkosTile, Product(kokkosTile), distance, tile)
    ensures Product(tile) <= Product(kokkosTile)
    ensures Positive(kokkosTile) ==> DividesAll(tile, extents)
    ensures Positive(kokkosTile) && Positive(extents) ==> Positive(tile) && Launched(extents, tile) == Product(extents)
  {
    extents := [];
    var budget := 1;
    for i := 0 to |start|
      invariant |extents| == i && forall k :: 0 <= k < i ==> extents[k] == end[k] - start[k]
      invariant budget == Product(kokkosTile[..i])
    {
      extents := extents + [end[i] - start[i]];
      assert kokkosTile[..i + 1][..i] == kokkosTile[..i];
      budget := budget * kokkosTile[i];
    }
    assert kokkosTile[..|start|] == kokkosTile;
    tile := ComputeDivisibleTile(extents, kokkosTile, budget, distance);
    if Positive(kokkosTile) {
      ProductPositive(kokkosTile);
      if Positive(extents) {
        LaunchedExact(extents, tile);
      }
    }
  }

  // ----- the score of the code -----

  /** A logarithm: it turns products into sums, and grows at least like the relative difference. */
  ghost predicate IsLogarithm(log: nat -> real) {
    && (forall a, b :: a > 0 && b > 0 ==> log(a * b) == log(a) + log(b))
    && (forall a, b :: a > b > 0 ==> log(a) - log(b) >= (a - b) as real / a as real)
  }

  /** The summed distance of the logarithms, as the code measures it. */
  function LogDistance(log: nat -> real, kokkos: Tile, t: Tile): real
    requires |t| == |kokkos|
  {
    if t == [] then 0.0
    else
      var n := |t| - 1;
      LogDistance(log, kokkos[..n], t[..n]) + Abs(log(t[n]) - log(kokkos[n]))
  }

  /** The product of the larger (smaller) entries of two tiles. */
  function Highs(a: Tile, b: Tile): nat
    requires |a| == |b|
  {
    if a == [] then 1
    else Highs(a[..|a| - 1], b[..|a| - 1]) * if a[|a| - 1] < b[|a| - 1] then b[|a| - 1] else a[|a| - 1]
  }

  function Lows(a: Tile, b: Tile): nat
    requires |a| == |b|
  {
    if a == [] then 1
    else Lows(a[..|a| - 1], b[..|a| - 1]) * if a[|a| - 1] < b[|a| - 1] then a[|a| - 1] else b[|a| - 1]
  }

  lemma Regroup(h: nat, l: nat, x: nat, y: nat, p: nat, q: nat)
    requires h * l == p * q
    ensures (h * x) * (l * y) == (p * x) * (q * y) == (p * y) * (q * x)
  {
    assert (h * x) * (l * y) == (h * l) * (x * y);
    assert (p * x) * (q * y) == (p * q) * (x * y);
    assert (p * y) * (q * x) == (p * q) * (x * y);
  }

  lemma TimesPositive(a: nat, b: nat)
    requires a > 0 && b > 0
    ensures a * b > 0
  {
  }

  lemma {:induction false} HighsLows(a: Tile, b: Tile)
    requires |a| == |b| && Positive(a) && Positive(b)
    ensures Highs(a, b) > 0 && Lows(a, b) > 0
    ensures Highs(a, b) * Lows(a, b) == Product(a) * Product(b)
  {
    if a != [] {
      var n := |a| - 1;
      HighsLows(a[..n], b[..n]);
      var x, y := if a[n] < b[n] then b[n] else a[n], if a[n] < b[n] then a[n] else b[n];
      TimesPositive(Highs(a[..n], b[..n]), x);
      TimesPositive(Lows(a[..n], b[..n]), y);
      Regroup(Highs(a[..n], b[..n]), Lows(a[..n], b[..n]), x, y, Product(a[..n]), Product(b[..n]));
    }
  }

  lemma LogGap(log: nat -> real, a: nat, b: nat)
    requires IsLogarithm(log) && a > 0 && b > 0
    ensures Abs(log(a) - log(b)) == log(if a < b then b else a) - log(if a < b then a else b)
  {
    if a > b {
      assert (a - b) as real / a as real > 0.0;
    } else if b > a {
      assert (b - a) as real / b as real > 0.0;
    }
  }

  lemma {:induction false} LogDistanceIsRatio(log: nat -> real, kokkos: Tile, t: Tile)
    requires IsLogarithm(log) && |t| == |kokkos| && Positive(t) && Positive(kokkos)
    ensures LogDistance(log, kokkos, t) == log(Highs(t, kokkos)) - log(Lows(t, kokkos))
  {
    if t != [] {
      var n := |t| - 1;
      LogDistanceIsRatio(log, kokkos[..n], t[..n]);
      LogGap(log, t[n], kokkos[n]);
      HighsLows(t[..n], kokkos[..n]);
      hide IsLogarithm;
      var x, y := if t[n] < kokkos[n] then kokkos[n] else t[n], if t[n] < kokkos[n] then t[n] else kokkos[n];
      LogOfProduct(log, Highs(t[..n], kokkos[..n]), x);
      LogOfProduct(log, Lows(t[..n], kokkos[..n]), y);
    }
  }

  lemma LogOfProduct(log: nat -> real, a: nat, b: nat)
    requires IsLogarithm(log) && a > 0 && b > 0
    ensures log(a * b) == log(a) + log(b)
  {
  }

  /** Logarithms of different numbers below a bound differ by more than the tolerance. */
  lemma LogsApart(log: nat -> real, a: nat, b: nat)
    requires IsLogarithm(log) && 0 < a < 1000000000 && 0 < b < 1000000000 && a != b
    ensures Abs(log(a) - log(b)) > TIE
  {
    var x, y := if a < b then b else a, if a < b then a else b;
    assert log(x) - log(y) >= (x - y) as real / x as real;
    Quotient((x - y) as real, x as real);
  }

  lemma Quotient(d: real, x: real)
    requires d >= 1.0 && 0.0 < x < 1000000000.0
    ensures d / x > TIE
  {
    assert d / x >= 1.0 / x;
    assert 1.0 / x > 1.0 / 1000000000.0;
  }

  lemma TimesStrict(a: nat, b: nat, c: nat)
    requires c > 0
    ensures a < b ==> a * c < b * c
  {
    if a < b {
      TimesPositive(b - a, c);
      assert (b - a) * c == b * c - a * c;
    }
  }

  /** Two pairs with the same product: if one number is larger, the other one is smaller. */
  lemma SameProduct(h: nat, l: nat, h': nat, l': nat)
    requires h * l == h' * l' && h >= h' > 0 && l > 0 && l' > 0
    ensures if h > h' then l < l' else l == l'
  {
    TimesMonotone(h, l', l);
    TimesStrict(h', h, l');
    TimesStrict(l, l', h);
    TimesStrict(l', l, h);
  }

  lemma RatiosApart(log: nat -> real, h: nat, l: nat, h': nat, l': nat)
    requires IsLogarithm(log) && h * l == h' * l' && h >= h' && 0 < h < 1000000000 && 0 < l && 0 < h' && 0 < l'
    ensures log(h) - log(l) == log(h') - log(l') || log(h) - log(l) > log(h') - log(l') + TIE
  {
    SameProduct(h, l, h', l');
    if h != h' {
      LogGap(log, h, h');
      LogGap(log, l', l);
      LogsApart(log, h, h');
    }
  }

  lemma ProductsBounded(a: nat, b: nat, budget: nat)
    requires a <= budget && b <= budget
    ensures a * b <= budget * budget
  {
    TimesMonotone(a, b, budget);
    TimesMonotone(budget, a, budget);
  }

  /** For block sizes up to 31622 the code's own score is separated, so the full ranking is an order. */
  lemma LogDistanceSeparated(log: nat -> real, kokkos: Tile, extents: seq<nat>, budget: nat, distance: Tile -> real)
    requires IsLogarithm(log) && |kokkos| == |extents| && Positive(kokkos) && Product(kokkos) <= budget <= 31622
    requires forall t: Tile :: |t| == |kokkos| ==> distance(t) == LogDistance(log, kokkos, t)
    ensures Separated(extents, budget, distance)
  {
    hide IsLogarithm, LogDistance, Product;
    forall a, b | Competes(a, extents, budget) && Competes(b, extents, budget) && Product(a) == Product(b)
      ensures distance(a) == distance(b) || Abs(distance(a) - distance(b)) > TIE
    {
      DistancesApart(log, kokkos, a, b, budget);
    }
  }

  lemma DistancesApart(log: nat -> real, kokkos: Tile, a: Tile, b: Tile, budget: nat)
    requires IsLogarithm(log) && |kokkos| == |a| == |b| && Positive(kokkos) && Positive(a) && Positive(b)
    requires Product(kokkos) <= budget <= 31622 && Product(a) == Product(b) <= budget
    ensures LogDistance(log, kokkos, a) == LogDistance(log, kokkos, b) ||
            Abs(LogDistance(log, kokkos, a) - LogDistance(log, kokkos, b)) > TIE
  {
    hide IsLogarithm, LogDistance, Product, Highs, Lows;
    var h, l, h', l' := Highs(a, kokkos), Lows(a, kokkos), Highs(b, kokkos), Lows(b, kokkos);
    HighsLows(a, kokkos);
    HighsLows(b, kokkos);
    LogDistanceIsRatio(log, kokkos, a);
    LogDistanceIsRatio(log, kokkos, b);
    ProductsBounded(Product(a), Product(kokkos), 31622);
    TimesMonotone(h, 1, l);
    TimesMonotone(h', 1, l');
    if h >= h' {
      RatiosApart(log, h, l, h', l');
    } else {
      RatiosApart(log, h', l', h, l);
    }
  }
}
