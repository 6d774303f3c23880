/**
 PointBatch and BatchOutput (DiFfRG/include/DiFfRG/model/batch.hh): component-major buffers with the points fastest.

 Entry `col` of point i lives in slot col * n + i. All reasoning about that arithmetic is confined to the methods that
 read or write one entry; everywhere else a batch is a function from points to traces.
 */
module Batches {
  import opened Prelude
  import opened DualNumbers
  import opened Slots

  // ----- input columns -----

  /** One input entry of a point: a value, a derivative or an entry of a hessian of FE function c. */
  datatype Key = Value(c: nat) | Deriv(c: nat, d: nat) | Hess(c: nat, d1: nat, d2: nat)

  datatype Layout = Layout(dim: nat, nFe: nat, derivatives: bool, hessians: bool) {

    /** Hessians are only gathered together with derivatives. */
    predicate Valid() {
      hessians ==> derivatives
    }

    predicate Has(k: Key) {
      k.c < nFe &&
      match k
      case Value(_) => true
      case Deriv(_, d) => derivatives && d < dim
      case Hess(_, d1, d2) => hessians && d1 < dim && d2 < dim
    }

    function Columns(): nat {
      nFe + (if derivatives then Area(nFe, dim) else 0) + (if hessians then Area(Area(nFe, dim), dim) else 0)
    }

    function Column(k: Key): nat {
      match k
      case Value(c) => c
      case Deriv(c, d) => nFe + Slot(c, dim, d)
      case Hess(c, d1, d2) => nFe + Area(nFe, dim) + Slot(Slot(c, dim, d1), dim, d2)
    }

    function KeyOf(col: nat): Key
      requires col < Columns()
    {
      if col < nFe || dim == 0 then Value(col)
      else if col < nFe + Area(nFe, dim) then Deriv(SlotColumn(col - nFe, dim), SlotPoint(col - nFe, dim))
      else
        var r := col - nFe - Area(nFe, dim);
        Hess(SlotColumn(SlotColumn(r, dim), dim), SlotPoint(SlotColumn(r, dim), dim), SlotPoint(r, dim))
    }

    /** Addressing is a bijection between the gathered entries and the columns of the buffer: one way ... */
    lemma ColumnOfKey(k: Key)
      requires Valid() && Has(k)
      ensures Column(k) < Columns() && KeyOf(Column(k)) == k
    {
      hide Slot, SlotColumn, SlotPoint, Area;
      match k
      case Value(_) =>
      case Deriv(c, d) => SlotParts(c, nFe, dim, d);
      case Hess(c, d1, d2) =>
        SlotParts(c, nFe, dim, d1);
        SlotParts(Slot(c, dim, d1), Area(nFe, dim), dim, d2);
    }

    /** ... and the other. */
    lemma KeyOfColumn(col: nat)
      requires Valid() && col < Columns()
      ensures Has(KeyOf(col)) && Column(KeyOf(col)) == col
    {
      if dim == 0 {
        assert Area(nFe, dim) == Area(Area(nFe, dim), dim) == 0;
      }
      hide Slot, SlotColumn, SlotPoint, Area;
      if col < nFe || dim == 0 {
      } else if col < nFe + Area(nFe, dim) {
        SlotSplit(col - nFe, nFe, dim);
      } else {
        var r := col - nFe - Area(nFe, dim);
        SlotSplit(r, Area(nFe, dim), dim);
        SlotSplit(SlotColumn(r, dim), nFe, dim);
      }
    }
  }

  /** Values first, then derivatives, then hessians; in each by component, then by first and second direction. */
  predicate ComesBefore(k: Key, k': Key) {
    match (k, k')
    case (Value(c), Value(c')) => c < c'
    case (Deriv(c, d), Deriv(c', d')) => c < c' || (c == c' && d < d')
    case (Hess(c, d1, d2), Hess(c', d1', d2')) => c < c' || (c == c' && (d1 < d1' || (d1 == d1' && d2 < d2')))
    case _ => k.Value? || (k.Deriv? && k'.Hess?)
  }

  /** That is the order of the columns; with the bijection it fixes every one of them. */
  lemma ColumnsInOrder(lay: Layout, k: Key, k': Key)
    requires lay.Valid() && lay.Has(k) && lay.Has(k') && ComesBefore(k, k')
    ensures lay.Column(k) < lay.Column(k')
  {
    hide Slot, Area;
    match (k, k')
    case (Value(c), _) =>
    case (Deriv(c, d), Deriv(c', d')) => SlotOrder(c, d, c', d', lay.dim);
    case (Deriv(c, d), _) => SlotBound(c, lay.nFe, lay.dim, d);
    case (Hess(c, d1, d2), Hess(c', d1', d2')) =>
      SlotBound(c, lay.nFe, lay.dim, d1);
      if c < c' || d1 < d1' {
        SlotOrder(c, d1, c', d1', lay.dim);
      }
      SlotOrder(Slot(c, lay.dim, d1), d2, Slot(c', lay.dim, d1'), d2', lay.dim);
  }

  // ----- the batch -----

  /** The inputs of one point: its columns, its position and the width of its cell. */
  datatype Trace<NT> = Trace(cols: seq<NT>, x: seq<real>, width: real)

  function Resized<T>(s: seq<T>, size: nat, fill: T): (r: seq<T>)
    ensures |r| == size
  {
    if size <= |s| then s[..size] else s + seq(size - |s|, _ => fill)
  }

  function Column<NT>(state: seq<NT>, columns: nat, n: nat, i: nat): (r: seq<NT>)
    requires |state| == Area(columns, n) && i < n
    ensures |r| == columns
  {
    seq(columns, col requires 0 <= col < columns => SlotBound(col, columns, n, i); state[Slot(col, n, i)])
  }

  lemma ColumnUpdateAt<NT>(state: seq<NT>, columns: nat, n: nat, col: nat, i: nat, v: NT, i': nat)
    requires |state| == Area(columns, n) && i < n && col < columns && i' < n
    requires Slot(col, n, i) < |state|
    ensures Column(state[Slot(col, n, i) := v], columns, n, i') ==
            if i' == i then Column(state, columns, n, i)[col := v] else Column(state, columns, n, i')
  {
    hide Slot;
    var state' := state[Slot(col, n, i) := v];
    forall col' | 0 <= col' < columns
      ensures Column(state', columns, n, i')[col'] ==
              if i' == i && col' == col then v else Column(state, columns, n, i')[col']
    {
      SlotBound(col', columns, n, i');
      if Slot(col', n, i') == Slot(col, n, i) {
        SlotUnique(col', i', col, i, n);
      }
    }
  }

  lemma ColumnUpdate<NT>(state: seq<NT>, columns: nat, n: nat, col: nat, i: nat, v: NT)
    requires |state| == Area(columns, n) && i < n && col < columns
    ensures Slot(col, n, i) < |state|
    ensures forall i' :: 0 <= i' < n ==>
              Column(state[Slot(col, n, i) := v], columns, n, i') ==
              if i' == i then Column(state, columns, n, i)[col := v] else Column(state, columns, n, i')
  {
    SlotBound(col, columns, n, i);
    hide Slot, Column;
    forall i' | 0 <= i' < n
      ensures Column(state[Slot(col, n, i) := v], columns, n, i') ==
              if i' == i then Column(state, columns, n, i)[col := v] else Column(state, columns, n, i')
    {
      ColumnUpdateAt(state, columns, n, col, i, v, i');
    }
  }

  /** The same point in another number type. */
  function Converted<S, NT>(t: Trace<S>, conv: S -> NT): Trace<NT> {
    Trace(seq(|t.cols|, c requires 0 <= c < |t.cols| => conv(t.cols[c])), t.x, t.width)
  }

  ghost function HessianRow(c: nat, d1: nat, upto: nat): set<Key> {
    set d2: nat | d2 < upto :: Hess(c, d1, d2)
  }

  ghost function GradientRow(lay: Layout, c: nat, d1: nat): set<Key> {
    {Deriv(c, d1)} + if lay.hessians then HessianRow(c, d1, lay.dim) else {}
  }

  ghost function Gradients(lay: Layout, c: nat, upto: nat): set<Key> {
    (set d: nat | d < upto :: Deriv(c, d)) +
    if lay.hessians then set d1: nat, d2: nat | d1 < upto && d2 < lay.dim :: Hess(c, d1, d2) else {}
  }

  lemma GradientsGrow(lay: Layout, c: nat, d1: nat)
    ensures Gradients(lay, c, d1 + 1) == Gradients(lay, c, d1) + GradientRow(lay, c, d1)
  {
  }

  class PointBatch<NT> {
    const lay: Layout
    var n: nat
    var state: seq<NT>
    var positions: seq<real>
    var widths: seq<real>
    var extractors: array?<NT>

    ghost predicate Valid()
      reads this
    {
      lay.Valid() && |state| == Area(lay.Columns(), n) && |positions| == Area(lay.dim, n) && |widths| == n
    }

    /** Point i of the batch; the order of the points carries no meaning. */
    function At(i: nat): Trace<NT>
      requires Valid() && i < n
      reads this
    {
      Trace(Column(state, lay.Columns(), n, i), Column(positions, lay.dim, n, i), widths[i])
    }

    constructor (lay: Layout)
      requires lay.Valid()
      ensures Valid() && this.lay == lay && n == 0 && extractors == null
    {
      this.lay := lay;
      n, state, positions, widths, extractors := 0, [], [], [], null;
    }

    /** Resize to `points` points; a batch of one size may keep stale entries of another. */
    method Reinit(points: nat, fill: NT)
      requires lay.Valid()
      modifies this
      ensures Valid() && n == points && extractors == old(extractors)
      ensures forall j :: |old(state)| <= j < |state| ==> state[j] == fill
      ensures forall j :: |old(positions)| <= j < |positions| ==> positions[j] == 0.0
      ensures forall j :: |old(widths)| <= j < |widths| ==> widths[j] == 0.0
    {
      n := points;
      state := Resized(state, Area(lay.Columns(), points), fill);
      positions := Resized(positions, Area(lay.dim, points), 0.0);
      widths := Resized(widths, points, 0.0);
    }

    method SetShared(extractors: array<NT>)
      modifies this`extractors
      ensures this.extractors == extractors
    {
      this.extractors := extractors;
    }

    /** Write one entry of point i; no other entry changes. */
    method Write(k: Key, i: nat, v: NT)
      requires Valid() && lay.Has(k) && i < n
      modifies this`state
      ensures Valid() && lay.Column(k) < lay.Columns()
      ensures forall j :: 0 <= j < n ==>
                At(j) == if j == i then old(At(j)).(cols := old(At(j)).cols[lay.Column(k) := v]) else old(At(j))
    {
      lay.ColumnOfKey(k);
      ColumnUpdate(state, lay.Columns(), n, lay.Column(k), i, v);
      hide Slot, Column;
      state := state[Slot(lay.Column(k), n, i) := v];
    }

    method WritePosition(d: nat, i: nat, v: real)
      requires Valid() && d < lay.dim && i < n
      modifies this`positions
      ensures Valid()
      ensures forall j :: 0 <= j < n ==>
                At(j) == if j == i then old(At(j)).(x := old(At(j)).x[d := v]) else old(At(j))
    {
      ColumnUpdate(positions, lay.dim, n, d, i, v);
      hide Slot, Column;
      positions := positions[Slot(d, n, i) := v];
    }

    function Read(k: Key, i: nat): (r: NT)
      requires Valid() && lay.Has(k) && i < n
      reads this
      ensures lay.Column(k) < lay.Columns() && r == At(i).cols[lay.Column(k)]
    {
      lay.ColumnOfKey(k);
      SlotBound(lay.Column(k), lay.Columns(), n, i);
      state[Slot(lay.Column(k), n, i)]
    }

    /** Every entry k of point j in done agrees with the target. */
    ghost predicate Agrees(j: nat, target: Trace<NT>, done: set<Key>)
      requires Valid() && j < n && |target.cols| == lay.Columns()
      reads this
    {
      forall k: Key :: lay.Has(k) && k in done ==>
                         lay.Column(k) < lay.Columns() && At(j).cols[lay.Column(k)] == target.cols[lay.Column(k)]
    }

    /** Only the columns of point j may differ from `before`. */
    ghost predicate OnlyPoint(before: seq<Trace<NT>>, j: nat)
      requires Valid() && |before| == n && j < n
      reads this
    {
      && (forall k :: 0 <= k < n && k != j ==> At(k) == before[k])
      && At(j).x == before[j].x && At(j).width == before[j].width
    }

    ghost function Points(): (r: seq<Trace<NT>>)
      requires Valid()
      reads this
      ensures |r| == n && forall i :: 0 <= i < n ==> r[i] == At(i)
    {
      seq(n, i requires 0 <= i < n && Valid() reads this => At(i))
    }

    /** Row d1 of the hessian of component c of point j := that of point i of src. */
    method CopyHessianRow<S>(j: nat, src: PointBatch<S>, i: nat, conv: S -> NT, c: nat, d1: nat, ghost done: set<Key>)
      requires Valid() && src.Valid() && src.lay == lay && j < n && i < src.n && (src as object) != this
      requires lay.hessians && c < lay.nFe && d1 < lay.dim
      requires Agrees(j, Converted(src.At(i), conv), done)
      modifies this`state
      ensures Valid() && OnlyPoint(old(Points()), j)
      ensures Agrees(j, Converted(src.At(i), conv), done + HessianRow(c, d1, lay.dim))
    {
      hide Slot, Area, Column;
      ghost var target := Converted(src.At(i), conv);
      ghost var before := Points();
      for d2 := 0 to lay.dim
        invariant Valid() && OnlyPoint(before, j)
        invariant Agrees(j, target, done + HessianRow(c, d1, d2))
      {
        Write(Hess(c, d1, d2), j, conv(src.Read(Hess(c, d1, d2), i)));
      }
    }

    /** Direction d1 of the derivatives and hessians of component c of point j := that of point i of src. */
    method CopyDirection<S>(j: nat, src: PointBatch<S>, i: nat, conv: S -> NT, c: nat, d1: nat, ghost done: set<Key>)
      requires Valid() && src.Valid() && src.lay == lay && j < n && i < src.n && (src as object) != this
      requires lay.derivatives && c < lay.nFe && d1 < lay.dim
      requires Agrees(j, Converted(src.At(i), conv), done)
      modifies this`state
      ensures Valid() && OnlyPoint(old(Points()), j)
      ensures Agrees(j, Converted(src.At(i), conv), done + GradientRow(lay, c, d1))
    {
      hide Slot, Area, Column;
      Write(Deriv(c, d1), j, conv(src.Read(Deriv(c, d1), i)));
      if lay.hessians {
        CopyHessianRow(j, src, i, conv, c, d1, done + {Deriv(c, d1)});
      }
    }

    /** The derivatives and hessians of component c of point j := those of point i of src. */
    method CopyDerivatives<S>(j: nat, src: PointBatch<S>, i: nat, conv: S -> NT, c: nat, ghost done: set<Key>)
      requires Valid() && src.Valid() && src.lay == lay && j < n && i < src.n && (src as object) != this
      requires lay.derivatives && c < lay.nFe
      requires Agrees(j, Converted(src.At(i), conv), done)
      modifies this`state
      ensures Valid() && OnlyPoint(old(Points()), j)
      ensures Agrees(j, Converted(src.At(i), conv), done + Gradients(lay, c, lay.dim))
    {
      hide Slot, Area, Column;
      ghost var target := Converted(src.At(i), conv);
      ghost var before := Points();
      for d1 := 0 to lay.dim
        invariant Valid() && OnlyPoint(before, j)
        invariant Agrees(j, target, done + Gradients(lay, c, d1))
      {
        CopyDirection(j, src, i, conv, c, d1, done + Gradients(lay, c, d1));
        GradientsGrow(lay, c, d1);
      }
    }

    /** Point j of this batch := point i of src, which has the same inputs but may differ in number type. */
    method CopyPoint<S>(j: nat, src: PointBatch<S>, i: nat, conv: S -> NT)
      requires Valid() && src.Valid() && src.lay == lay && j < n && i < src.n && (src as object) != this
      modifies this`state, this`positions, this`widths
      ensures Valid()
      ensures forall k :: 0 <= k < n ==> At(k) == if k == j then Converted(src.At(i), conv) else old(At(k))
    {
      hide Slot, Area, Column;
      ghost var target := Converted(src.At(i), conv);
      ghost var before := Points();
      ghost var done: set<Key> := {};
      for c := 0 to lay.nFe
        invariant Valid() && OnlyPoint(before, j)
        invariant Agrees(j, target, done)
        invariant forall k: Key :: lay.Has(k) && k.c < c ==> k in done
      {
        Write(Value(c), j, conv(src.Read(Value(c), i)));
        done := done + {Value(c)};
        if lay.derivatives {
          CopyDerivatives(j, src, i, conv, c, done);
          done := done + Gradients(lay, c, lay.dim);
        }
      }
      forall col | 0 <= col < lay.Columns()
        ensures At(j).cols[col] == target.cols[col]
      {
        lay.KeyOfColumn(col);
      }
      for d := 0 to lay.dim
        invariant Valid() && At(j).cols == target.cols && At(j).width == before[j].width
        invariant forall k :: 0 <= k < n && k != j ==> At(k) == before[k]
        invariant forall e :: 0 <= e < d ==> At(j).x[e] == target.x[e]
      {
        WritePosition(d, j, src.At(i).x[d]);
      }
      widths := widths[j := src.widths[i]];
    }
  }

  // ----- the output -----

  datatype Terms = Terms(flux: bool, source: bool, diffusion: bool)

  /** One output entry of a point: a flux in direction d, a source, or a diffusion flux, of component c. */
  datatype Out = Flux(c: nat, d: nat) | Source(c: nat) | Diffusion(c: nat, d: nat)

  /** A group of outputs that is requested as a whole. */
  datatype Term = FluxTerm | SourceTerm | DiffusionTerm

  function TermOf(o: Out): Term {
    match o
    case Flux(_, _) => FluxTerm
    case Source(_) => SourceTerm
    case Diffusion(_, _) => DiffusionTerm
  }

  datatype OutputError = NotRequested(term: Term)

  datatype OutLayout = OutLayout(dim: nat, nOut: nat, terms: Terms) {

    predicate InRange(o: Out) {
      o.c < nOut && (o.Source? || o.d < dim)
    }

    predicate Requested(o: Out) {
      match o
      case Flux(_, _) => terms.flux
      case Source(_) => terms.source
      case Diffusion(_, _) => terms.diffusion
    }

    predicate Has(o: Out) {
      InRange(o) && Requested(o)
    }

    function SourceOffset(): nat {
      if terms.flux then Area(nOut, dim) else 0
    }

    function DiffusionOffset(): nat {
      SourceOffset() + if terms.source then nOut else 0
    }

    function Columns(): nat {
      DiffusionOffset() + if terms.diffusion then Area(nOut, dim) else 0
    }

    function Column(o: Out): nat {
      match o
      case Flux(c, d) => Slot(c, dim, d)
      case Source(c) => SourceOffset() + c
      case Diffusion(c, d) => DiffusionOffset() + Slot(c, dim, d)
    }

    function OutOf(col: nat): Out
      requires col < Columns() && dim > 0
    {
      if col < SourceOffset() then Flux(SlotColumn(col, dim), SlotPoint(col, dim))
      else if col < DiffusionOffset() then Source(col - SourceOffset())
      else Diffusion(SlotColumn(col - DiffusionOffset(), dim), SlotPoint(col - DiffusionOffset(), dim))
    }

    /** The requested terms occupy disjoint columns ... */
    lemma ColumnOfOut(o: Out)
      requires Has(o)
      ensures Column(o) < Columns()
      ensures dim > 0 ==> OutOf(Column(o)) == o
    {
      hide Slot, SlotColumn, SlotPoint, Area;
      if !o.Source? {
        SlotParts(o.c, nOut, dim, o.d);
      }
    }

    /** ... which cover the buffer. */
    lemma OutOfColumn(col: nat)
      requires dim > 0 && col < Columns()
      ensures Has(OutOf(col)) && Column(OutOf(col)) == col
    {
      hide Slot, SlotColumn, SlotPoint, Area;
      if col < SourceOffset() {
        SlotSplit(col, nOut, dim);
      } else if col >= DiffusionOffset() {
        SlotSplit(col - DiffusionOffset(), nOut, dim);
      }
    }

    lemma ColumnsDistinct(o: Out, o': Out)
      requires Has(o) && Has(o') && Column(o) == Column(o')
      ensures o == o'
    {
      hide Slot, SlotColumn, SlotPoint, Area;
      if dim > 0 {
        ColumnOfOut(o);
        ColumnOfOut(o');
      }
    }
  }

  /** Fluxes first, then sources, then diffusion fluxes; in each by component and direction. */
  predicate WrittenBefore(o: Out, o': Out) {
    match (o, o')
    case (Flux(c, d), Flux(c', d')) => c < c' || (c == c' && d < d')
    case (Source(c), Source(c')) => c < c'
    case (Diffusion(c, d), Diffusion(c', d')) => c < c' || (c == c' && d < d')
    case _ => o.Flux? || (o.Source? && o'.Diffusion?)
  }

  /** That is the order of the requested columns. */
  lemma OutputsInOrder(lay: OutLayout, o: Out, o': Out)
    requires lay.Has(o) && lay.Has(o') && WrittenBefore(o, o')
    ensures lay.Column(o) < lay.Column(o')
  {
    hide Slot, Area;
    if o.Flux? {
      SlotBound(o.c, lay.nOut, lay.dim, o.d);
    }
    if !o.Source? && !o'.Source? && TermOf(o) == TermOf(o') {
      SlotOrder(o.c, o.d, o'.c, o'.d, lay.dim);
    }
  }

  class BatchOutput {
    const dim: nat
    const nOut: nat
    var n: nat
    var terms: Terms
    var fluxOffset: Option<nat>
    var sourceOffset: Option<nat>
    var diffusionOffset: Option<nat>
    var data: seq<Dual>

    constructor (dim: nat, nOut: nat)
      ensures this.dim == dim && this.nOut == nOut
    {
      this.dim, this.nOut := dim, nOut;
      n, terms, data := 0, Terms(false, false, false), [];
      fluxOffset, sourceOffset, diffusionOffset := None, None, None;
    }

    function Lay(): OutLayout
      reads this
    {
      OutLayout(dim, nOut, terms)
    }

    ghost predicate Valid()
      reads this
    {
      && fluxOffset == (if terms.flux then Some(0) else None)
      && sourceOffset == (if terms.source then Some(Lay().SourceOffset()) else None)
      && diffusionOffset == (if terms.diffusion then Some(Lay().DiffusionOffset()) else None)
      && |data| == Area(Lay().Columns(), n)
    }

    /** The column of an output, or the error naming the term that was not requested. */
    function ColumnFor(o: Out): (r: Result<nat, OutputError>)
      requires Valid()
      reads this
      ensures if Lay().Requested(o) then r == Ok(Lay().Column(o)) else r == Err(NotRequested(TermOf(o)))
    {
      var (offset, col, term) :=
        match o
        case Flux(c, d) => (fluxOffset, Slot(c, dim, d), FluxTerm)
        case Source(c) => (sourceOffset, c, SourceTerm)
        case Diffusion(c, d) => (diffusionOffset, Slot(c, dim, d), DiffusionTerm);
      if offset.None? then Err(NotRequested(term)) else Ok(offset.value + col)
    }

    /** Entry o of point i. */
    function At(o: Out, i: nat): Dual
      requires Valid() && Lay().Has(o) && i < n
      reads this
    {
      Lay().ColumnOfOut(o);
      Column(data, Lay().Columns(), n, i)[ColumnFor(o).value]
    }

    /** Room for the requested terms of `points` points, all zero. */
    method Reinit(points: nat, terms: Terms)
      modifies this
      ensures Valid() && n == points && this.terms == terms
      ensures forall o: Out, i: nat :: Lay().Has(o) && i < n ==> At(o, i) == Plain(0.0)
    {
      hide Slot, Area;
      n, this.terms := points, terms;
      var columns := 0;
      fluxOffset, sourceOffset, diffusionOffset := None, None, None;
      if terms.flux {
        fluxOffset, columns := Some(columns), columns + Area(nOut, dim);
      }
      if terms.source {
        sourceOffset, columns := Some(columns), columns + nOut;
      }
      if terms.diffusion {
        diffusionOffset, columns := Some(columns), columns + Area(nOut, dim);
      }
      data := seq(Area(columns, points), _ => Plain(0.0));
      forall o: Out, i: nat | Lay().Has(o) && i < n
        ensures At(o, i) == Plain(0.0)
      {
        Lay().ColumnOfOut(o);
        SlotBound(Lay().Column(o), columns, n, i);
      }
    }

    /** Write entry o of point i; no other entry of any requested term changes. */
    method Write(o: Out, i: nat, v: Dual)
      requires Valid() && Lay().Has(o) && i < n
      modifies this`data
      ensures Valid()
      ensures forall o': Out, i': nat :: Lay().Has(o') && i' < n ==>
                At(o', i') == if o' == o && i' == i then v else old(At(o', i'))
    {
      ghost var lay := Lay();
      lay.ColumnOfOut(o);
      ColumnUpdate(data, lay.Columns(), n, lay.Column(o), i, v);
      ghost var before := data;
      data := data[Slot(ColumnFor(o).value, n, i) := v];
      forall o': Out, i': nat | lay.Has(o') && i' < n
        ensures At(o', i') == if o' == o && i' == i then v else old(At(o', i'))
      {
        hide Slot, Column;
        lay.ColumnOfOut(o');
        if lay.Column(o') == lay.Column(o) {
          lay.ColumnsDistinct(o', o);
        }
      }
    }
  }
}
