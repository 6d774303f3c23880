/**
 * The couplings between the levels of a local discontinuous Galerkin model. Only neighbouring levels are declared;
 * the couplings across several levels are kept up to date by composing the declared ones after every call.
 * The independent reading is a path: component a of level `dep` couples to component c of level `indep` when a chain
 * of declared links leads from a down to c, one level at a time.
 */
module LdgCouplings {
  import opened Prelude

  type Pair = (nat, nat)

  datatype Failure = SubsystemMissing | NotNeighbours

  /** Component `from` of level `dep` depends on component `onto` of level `dep` - 1. */
  datatype Link = Link(dep: nat, from: nat, onto: nat)

  /** The check both declaring calls start with. */
  function CheckAdjacent(n: nat, dep: nat, indep: nat): Option<Failure> {
    if dep >= n || indep >= n then Some(SubsystemMissing)
    else if dep != indep + 1 then Some(NotNeighbours)
    else None
  }

  // ----- what the couplings mean -----

  ghost predicate IsPath(links: set<Link>, dep: nat, indep: nat, path: seq<nat>) {
    && indep <= dep
    && |path| == dep - indep + 1
    && forall k :: 0 <= k < dep - indep ==> Link(dep - k, path[k], path[k + 1]) in links
  }

  ghost predicate Connects(links: set<Link>, dep: nat, indep: nat, path: seq<nat>, a: nat, c: nat) {
    IsPath(links, dep, indep, path) && path[0] == a && path[|path| - 1] == c
  }

  ghost predicate Coupled(links: set<Link>, dep: nat, indep: nat, a: nat, c: nat) {
    exists path :: Connects(links, dep, indep, path, a, c)
  }

  lemma FirstLink(links: set<Link>, dep: nat, indep: nat, path: seq<nat>)
    requires indep < dep && IsPath(links, dep, indep, path)
    ensures Link(dep, path[0], path[1]) in links
  {
  }

  lemma CoupledNeighbours(links: set<Link>, dep: nat, a: nat, c: nat)
    requires dep > 0
    ensures Coupled(links, dep, dep - 1, a, c) <==> Link(dep, a, c) in links
  {
    if Link(dep, a, c) in links {
      assert Connects(links, dep, dep - 1, [a, c], a, c);
    }
    if Coupled(links, dep, dep - 1, a, c) {
      var path :| Connects(links, dep, dep - 1, path, a, c);
      FirstLink(links, dep, dep - 1, path);
    }
  }

  /** A coupling across several levels factors through every level in between, and such factors always compose. */
  lemma FactorsThrough(links: set<Link>, dep: nat, middle: nat, indep: nat, a: nat, c: nat)
    requires indep <= middle <= dep
    ensures Coupled(links, dep, indep, a, c)
            <==> exists b: nat :: Coupled(links, dep, middle, a, b) && Coupled(links, middle, indep, b, c)
  {
    if Coupled(links, dep, indep, a, c) {
      var path :| Connects(links, dep, indep, path, a, c);
      var b := path[dep - middle];
      var upper, lower := path[..dep - middle + 1], path[dep - middle..];
      assert Connects(links, dep, middle, upper, a, b);
      forall k | 0 <= k < middle - indep
        ensures Link(middle - k, lower[k], lower[k + 1]) in links
      {
        var j := dep - middle + k;
        assert lower[k] == path[j] && lower[k + 1] == path[j + 1] && Link(dep - j, path[j], path[j + 1]) in links;
      }
      assert Connects(links, middle, indep, lower, b, c);
      assert Coupled(links, dep, middle, a, b) && Coupled(links, middle, indep, b, c);
    }
    if b: nat :| Coupled(links, dep, middle, a, b) && Coupled(links, middle, indep, b, c) {
      JoinPaths(links, dep, middle, indep, a, b, c);
    }
  }

  lemma JoinPaths(links: set<Link>, dep: nat, middle: nat, indep: nat, a: nat, b: nat, c: nat)
    requires Coupled(links, dep, middle, a, b) && Coupled(links, middle, indep, b, c)
    ensures Coupled(links, dep, indep, a, c)
  {
    var upper :| Connects(links, dep, middle, upper, a, b);
    var lower :| Connects(links, middle, indep, lower, b, c);
    var path := upper + lower[1..];
    forall k | 0 <= k < dep - indep
      ensures Link(dep - k, path[k], path[k + 1]) in links
    {
      if k < dep - middle {
        assert path[k] == upper[k] && path[k + 1] == upper[k + 1];
      } else {
        var j := k - (dep - middle);
        assert Link(middle - j, lower[j], lower[j + 1]) in links;
        assert path[k] == lower[j] && path[k + 1] == lower[j + 1];
      }
    }
    assert Connects(links, dep, indep, path, a, c);
  }

  // ----- lists of pairs -----

  ghost predicate NoDuplicates(list: seq<Pair>) {
    forall j, k :: 0 <= j < k < |list| ==> list[j] != list[k]
  }

  ghost predicate Composes(outer: seq<Pair>, inner: seq<Pair>, p: Pair) {
    exists i, j :: 0 <= i < |outer| && 0 <= j < |inner| && outer[i].1 == inner[j].0 && p == (outer[i].0, inner[j].1)
  }

  method PushNew(list: seq<Pair>, p: Pair) returns (r: seq<Pair>)
    requires NoDuplicates(list)
    ensures NoDuplicates(r)
    ensures forall q :: q in r <==> q in list || q == p
    ensures |r| == if p in list then |list| else |list| + 1
  {
    r := if p in list then list else list + [p];
  }

  /** One row of the composition: everything `first` reaches through `inner`. */
  method ExtendRow(composed: seq<Pair>, first: Pair, inner: seq<Pair>) returns (r: seq<Pair>)
    requires NoDuplicates(composed)
    ensures NoDuplicates(r)
    ensures forall q :: q in r <==> q in composed || Composes([first], inner, q)
  {
    r := composed;
    for j := 0 to |inner|
      invariant NoDuplicates(r)
      invariant forall q :: q in r <==> q in composed || Composes([first], inner[..j], q)
    {
      ghost var before := r;
      if first.1 == inner[j].0 {
        r := PushNew(r, (first.0, inner[j].1));
      }
      forall q
        ensures Composes([first], inner[..j + 1], q)
                <==> Composes([first], inner[..j], q) || (first.1 == inner[j].0 && q == (first.0, inner[j].1))
      {
        RowGrows(first, inner, j, q);
      }
    }
    assert inner[..|inner|] == inner;
  }

  lemma RowGrows(first: Pair, inner: seq<Pair>, j: nat, q: Pair)
    requires j < |inner|
    ensures Composes([first], inner[..j + 1], q)
            <==> Composes([first], inner[..j], q) || (first.1 == inner[j].0 && q == (first.0, inner[j].1))
  {
    var now, next := inner[..j], inner[..j + 1];
    if Composes([first], now, q) {
      var i, k :| 0 <= i < 1 && 0 <= k < j && [first][i].1 == now[k].0 && q == ([first][i].0, now[k].1);
      assert next[k] == now[k];
    }
    if first.1 == inner[j].0 && q == (first.0, inner[j].1) {
      assert [first][0].1 == next[j].0;
    }
    if Composes([first], next, q) {
      var i, k :| 0 <= i < 1 && 0 <= k < j + 1 && [first][i].1 == next[k].0 && q == ([first][i].0, next[k].1);
      if k < j {
        assert now[k] == next[k];
      }
    }
  }

  /** The relational composition of two duplicate-free lists, duplicate-free again. */
  method Compose(outer: seq<Pair>, inner: seq<Pair>) returns (composed: seq<Pair>)
    ensures NoDuplicates(composed)
    ensures forall q :: q in composed <==> Composes(outer, inner, q)
  {
    composed := [];
    for i := 0 to |outer|
      invariant NoDuplicates(composed)
      invariant forall q :: q in composed <==> Composes(outer[..i], inner, q)
    {
      composed := ExtendRow(composed, outer[i], inner);
      forall q
        ensures Composes(outer[..i + 1], inner, q)
                <==> Composes(outer[..i], inner, q) || Composes([outer[i]], inner, q)
      {
        ColumnGrows(outer, inner, i, q);
      }
    }
    assert outer[..|outer|] == outer;
  }

  lemma ColumnGrows(outer: seq<Pair>, inner: seq<Pair>, i: nat, q: Pair)
    requires i < |outer|
    ensures Composes(outer[..i + 1], inner, q)
            <==> Composes(outer[..i], inner, q) || Composes([outer[i]], inner, q)
  {
    var now, next, last := outer[..i], outer[..i + 1], [outer[i]];
    if Composes(now, inner, q) {
      var h, j :| 0 <= h < i && 0 <= j < |inner| && now[h].1 == inner[j].0 && q == (now[h].0, inner[j].1);
      assert next[h] == now[h];
    }
    if Composes(last, inner, q) {
      var h, j :| 0 <= h < 1 && 0 <= j < |inner| && last[h].1 == inner[j].0 && q == (last[h].0, inner[j].1);
      assert next[i] == last[h];
    }
    if Composes(next, inner, q) {
      var h, j :| 0 <= h < i + 1 && 0 <= j < |inner| && next[h].1 == inner[j].0 && q == (next[h].0, inner[j].1);
      if h < i {
        assert now[h] == next[h];
      } else {
        assert last[0] == next[h];
      }
    }
  }

  /** A list stands for the couplings between two levels. */
  ghost predicate Stands(links: set<Link>, dep: nat, indep: nat, list: seq<Pair>) {
    NoDuplicates(list) && forall a: nat, c: nat :: (a, c) in list <==> Coupled(links, dep, indep, a, c)
  }

  ghost predicate RowStands(links: set<Link>, dep: nat, row: seq<seq<Pair>>) {
    dep <= |row| && forall indep: nat :: indep < dep ==> Stands(links, dep, indep, row[indep])
  }

  /** Composing the neighbouring couplings of `dep` with those of the level below gives those of `dep`. */
  lemma ComposedStands(links: set<Link>, dep: nat, indep: nat, outer: seq<Pair>, inner: seq<Pair>, list: seq<Pair>)
    requires indep + 2 <= dep
    requires Stands(links, dep, dep - 1, outer) && Stands(links, dep - 1, indep, inner)
    requires NoDuplicates(list) && forall q :: q in list <==> Composes(outer, inner, q)
    ensures Stands(links, dep, indep, list)
  {
    var below := dep - 1;
    forall a: nat, c: nat
      ensures (a, c) in list <==> Coupled(links, dep, indep, a, c)
    {
      FactorsThrough(links, dep, dep - 1, indep, a, c);
      if Composes(outer, inner, (a, c)) {
        var i, j :| 0 <= i < |outer| && 0 <= j < |inner| && outer[i].1 == inner[j].0
                    && (a, c) == (outer[i].0, inner[j].1);
        var b := outer[i].1;
        assert outer[i] == (a, b) && inner[j] == (b, c);
        assert (a, b) in outer && (b, c) in inner;
      }
      if b: nat :| Coupled(links, dep, below, a, b) && Coupled(links, below, indep, b, c) {
        assert (a, b) in outer && (b, c) in inner;
        var i :| 0 <= i < |outer| && outer[i] == (a, b);
        var j :| 0 <= j < |inner| && inner[j] == (b, c);
        assert outer[i].1 == inner[j].0;
      }
    }
  }

  // ----- the descriptor -----

  class ComponentDescriptor {
    const n: nat
    var couplings: seq<seq<seq<Pair>>>
    var jConst: seq<seq<bool>>
    /** The accepted declarations so far, in no particular order. */
    ghost var links: set<Link>
    ghost var constants: set<nat>

    ghost predicate Shaped()
      reads this
    {
      && |couplings| == n && |jConst| == n
      && (forall dep :: 0 <= dep < n ==> |couplings[dep]| == n)
      && (forall dep :: 0 <= dep < n ==> |jConst[dep]| == n)
    }

    ghost predicate Valid()
      reads this
    {
      && Shaped()
      && (forall dep: nat :: dep < n ==> RowStands(links, dep, couplings[dep]))
      && (forall dep :: 1 <= dep < n ==> (jConst[dep][dep - 1] <==> dep in constants))
    }

    constructor (n: nat)
      requires n >= 1
      ensures Valid() && this.n == n && links == {} && constants == {}
    {
      this.n := n;
      couplings := seq(n, i => seq(n, j => []));
      jConst := seq(n, i => seq(n, j => false));
      links := {};
      constants := {};
      new;
      forall dep, indep | 0 <= indep < dep < n
        ensures Stands(links, dep, indep, couplings[dep][indep])
      {
        assert couplings[dep][indep] == [];
        forall a: nat, c: nat
          ensures !Coupled(links, dep, indep, a, c)
        {
          if path :| Connects(links, dep, indep, path, a, c) {
            FirstLink(links, dep, indep, path);
          }
        }
      }
    }

    method AddDependency(dep: nat, dependent: nat, indep: nat, independent: nat) returns (error: Option<Failure>)
      requires Valid()
      modifies this
      ensures Valid()
      ensures error.None? <==> dep < n && dep == indep + 1
      ensures error == Some(SubsystemMissing) <==> dep >= n || indep >= n
      ensures error.Some? ==> links == old(links) && couplings == old(couplings)
      ensures error.None? ==> links == old(links) + {Link(dep, dependent, independent)}
      ensures jConst == old(jConst) && constants == old(constants)
    {
      error := CheckAdjacent(n, dep, indep);
      if error.Some? {
        return;
      }
      var adjacent := PushNew(couplings[dep][indep], (dependent, independent));
      couplings := couplings[dep := couplings[dep][indep := adjacent]];
      links := links + {Link(dep, dependent, independent)};
      NeighboursStand(old(links), links, dep, dependent, independent, adjacent, old(couplings));
      Recompose();
    }

    /** Rebuilds all couplings across more than one level, whatever they were, from the neighbouring ones. */
    method Recompose()
      requires Shaped()
      requires forall d :: 1 <= d < n ==> Stands(links, d, d - 1, couplings[d][d - 1])
      requires forall d :: 1 <= d < n ==> (jConst[d][d - 1] <==> d in constants)
      modifies `couplings
      ensures Valid()
    {
      var d := 2;
      while d < n
        invariant 2 <= d && Shaped()
        invariant forall k :: 1 <= k < n ==> Stands(links, k, k - 1, couplings[k][k - 1])
        invariant forall k: nat :: k < d && k < n ==> RowStands(links, k, couplings[k])
      {
        RecomposeLevel(d);
        d := d + 1;
      }
    }

    method RecomposeLevel(d: nat)
      requires Shaped() && 2 <= d < n
      requires Stands(links, d, d - 1, couplings[d][d - 1])
      requires RowStands(links, d - 1, couplings[d - 1])
      modifies `couplings
      ensures Shaped()
      ensures forall k :: 0 <= k < n && k != d ==> couplings[k] == old(couplings[k])
      ensures couplings[d][d - 1] == old(couplings[d][d - 1])
      ensures RowStands(links, d, couplings[d])
    {
      for j := d - 1 downto 0
        invariant Shaped()
        invariant forall k :: 0 <= k < n && k != d ==> couplings[k] == old(couplings[k])
        invariant couplings[d][d - 1] == old(couplings[d][d - 1])
        invariant forall i :: j <= i < d ==> Stands(links, d, i, couplings[d][i])
      {
        var composed := Compose(couplings[d][d - 1], couplings[d - 1][j]);
        ComposedStands(links, d, j, couplings[d][d - 1], couplings[d - 1][j], composed);
        couplings := couplings[d := couplings[d][j := composed]];
      }
    }

    method SetJacobianConstant(dep: nat, indep: nat) returns (error: Option<Failure>)
      requires Valid()
      modifies this
      ensures Valid()
      ensures error.None? <==> dep < n && dep == indep + 1
      ensures error == Some(SubsystemMissing) <==> dep >= n || indep >= n
      ensures constants == old(constants) + if error.None? then {dep} else {}
      ensures couplings == old(couplings) && links == old(links)
    {
      error := CheckAdjacent(n, dep, indep);
      if error.None? {
        jConst := jConst[dep := jConst[dep][indep := true]];
        constants := constants + {dep};
      }
    }

    method JacobiansConstant(dep: nat, indep: nat) returns (r: bool)
      requires Valid()
      ensures r <==> indep < dep < n && forall level :: indep < level <= dep ==> level in constants
    {
      if indep >= dep || dep >= n {
        return false;
      }
      for level := indep + 1 to dep + 1
        invariant forall k :: indep < k < level ==> k in constants
      {
        if !jConst[level][level - 1] {
          return false;
        }
      }
      return true;
    }
  }

  /** After one more declaration the neighbouring lists stand for the larger set of declarations. */
  lemma NeighboursStand(links: set<Link>, more: set<Link>, dep: nat, a: nat, c: nat, adjacent: seq<Pair>,
                        couplings: seq<seq<seq<Pair>>>)
    requires 1 <= dep < |couplings| && (forall d :: 0 <= d < |couplings| ==> |couplings[d]| == |couplings|)
    requires forall d :: 1 <= d < |couplings| ==> Stands(links, d, d - 1, couplings[d][d - 1])
    requires more == links + {Link(dep, a, c)} && NoDuplicates(adjacent)
    requires forall q :: q in adjacent <==> q in couplings[dep][dep - 1] || q == (a, c)
    ensures Stands(more, dep, dep - 1, adjacent)
    ensures forall d :: 1 <= d < |couplings| && d != dep ==> Stands(more, d, d - 1, couplings[d][d - 1])
  {
    forall d, x, y | d > 0
      ensures Coupled(links, d, d - 1, x, y) <==> Link(d, x, y) in links
      ensures Coupled(more, d, d - 1, x, y) <==> Link(d, x, y) in more
    {
      CoupledNeighbours(links, d, x, y);
      CoupledNeighbours(more, d, x, y);
    }
  }

  // ----- any run of declarations -----

  datatype Call = Call(dep: nat, dependent: nat, indep: nat, independent: nat)

  ghost function Accepted(n: nat, calls: seq<Call>): set<Link> {
    set call | call in calls && call.dep < n && call.dep == call.indep + 1
      :: Link(call.dep, call.dependent, call.independent)
  }

  /** Any sequence of calls, accepted or not, leaves the couplings of the accepted ones. */
  method Declare(n: nat, calls: seq<Call>) returns (d: ComponentDescriptor)
    requires n >= 1
    ensures fresh(d) && d.Valid() && d.n == n && d.links == Accepted(n, calls)
  {
    d := new ComponentDescriptor(n);
    for i := 0 to |calls|
      invariant fresh(d) && d.Valid() && d.n == n && d.links == Accepted(n, calls[..i])
    {
      var call := calls[i];
      var error := d.AddDependency(call.dep, call.dependent, call.indep, call.independent);
      assert calls[..i + 1] == calls[..i] + [call];
    }
    assert calls[..|calls|] == calls;
  }

  /** Order and repetition do not matter: descriptors that accepted the same links hold the same couplings. */
  lemma OrderIrrelevant(links: set<Link>, dep: nat, indep: nat, first: seq<Pair>, second: seq<Pair>)
    requires Stands(links, dep, indep, first) && Stands(links, dep, indep, second)
    ensures multiset(first) == multiset(second)
  {
    OnceEach(first);
    OnceEach(second);
    forall p: Pair
      ensures p in first <==> p in second
    {
      assert p == (p.0, p.1);
    }
  }

  lemma {:induction false} OnceEach(list: seq<Pair>)
    requires NoDuplicates(list)
    ensures forall p :: multiset(list)[p] == if p in list then 1 else 0
  {
    if list != [] {
      var rest := list[..|list| - 1];
      OnceEach(rest);
      assert list == rest + [list[|list| - 1]];
    }
  }
}
