/** Aggregating a source attribute over areas. A source that lies in several areas is divided equally
    over them, so that sums and integrals over all areas conserve the total. */
module Aggregation {
  import opened Cells
  import opened EntityIndex

  /** For each area the sources that lie in it. */
  type Mapping = seq<seq<nat>>

  ghost predicate ValidMapping(mapping: Mapping, size: nat) {
    forall t, k :: 0 <= t < |mapping| && 0 <= k < |mapping[t]| ==> mapping[t][k] < size
  }

  function AllIndices(mapping: Mapping): seq<nat> {
    if mapping == [] then [] else AllIndices(mapping[..|mapping| - 1]) + mapping[|mapping| - 1]
  }

  function Count(indices: seq<nat>, s: nat): nat {
    multiset(indices)[s]
  }

  function WeightOf(indices: seq<nat>, s: nat): real {
    if s in indices then 1.0 / Count(indices, s) as real else 0.0
  }

  /** All occurrences of a source together weigh one. */
  lemma WeightsAddUp(indices: seq<nat>, s: nat)
    ensures s !in indices ==> WeightOf(indices, s) == 0.0
    ensures s in indices ==> multiset(indices)[s] > 0 && WeightOf(indices, s) * multiset(indices)[s] as real == 1.0
  {
  }

  /** One over the number of times that a source occurs, and zero where it does not. */
  method CalculateWeights(mapping: Mapping, length: nat) returns (rv: array<real>)
    requires ValidMapping(mapping, length)
    ensures fresh(rv) && rv.Length == length
    ensures forall s :: 0 <= s < length ==> rv[s] == WeightOf(AllIndices(mapping), s)
  {
    var indices := AllIndices(mapping);
    IndicesAreValid(mapping, length);
    rv := new real[length](_ => 0.0);
    for k := 0 to |indices|
      invariant forall s :: 0 <= s < length ==> rv[s] == if s in indices[..k] then WeightOf(indices, s) else 0.0
    {
      assert indices[..k + 1] == indices[..k] + [indices[k]] && indices[k] in indices;
      rv[indices[k]] := 1.0 / Count(indices, indices[k]) as real;
    }
    assert indices[..|indices|] == indices;
  }

  lemma {:induction false} IndicesAreValid(mapping: Mapping, size: nat)
    requires ValidMapping(mapping, size)
    ensures forall k :: 0 <= k < |AllIndices(mapping)| ==> AllIndices(mapping)[k] < size
  {
    if mapping != [] {
      var front := mapping[..|mapping| - 1];
      assert forall t :: 0 <= t < |front| ==> front[t] == mapping[t];
      IndicesAreValid(front, size);
    }
  }

  // ----- calculating

  datatype Func = Sum | Integral(scale: real)

  /** The special value of an attribute, and the closeness by which its array compares. */
  datatype Special = Special(value: real, cmp: Comparator)

  predicate IsFinite(source: Cell, special: Option<Special>) {
    source.Num? && !(special.Some? && special.value.cmp.Same(source, Num(special.value.value)))
  }

  /** The finite sources of an area; a boolean per source, so that each counts once. */
  function ToCount(area: seq<nat>, source: seq<Cell>, special: Option<Special>): (mask: seq<bool>)
    ensures |mask| == |source|
    ensures forall s :: 0 <= s < |mask| ==> (mask[s] <==> s in area && IsFinite(source[s], special))
  {
    seq(|source|, s requires 0 <= s < |source| => s in area && IsFinite(source[s], special))
  }

  /** The weighted sum of the cells under the mask; not a number as soon as one of them is undefined. */
  function Weighted(cells: seq<Cell>, weights: seq<real>, mask: seq<bool>, n: nat): Cell
    requires n <= |cells| == |weights| == |mask|
  {
    if n == 0 then Num(0.0)
    else
      var front := Weighted(cells, weights, mask, n - 1);
      if !mask[n - 1] then front
      else if front.Num? && cells[n - 1].Num? then Num(front.x + weights[n - 1] * cells[n - 1].x)
      else Undefined
  }

  function Plus(a: Cell, factor: real, b: Cell): Cell {
    if a.Num? && b.Num? then Num(a.x + factor * b.x) else Undefined
  }

  /** The new value of an area. */
  function Aggregated(func: Func, before: Cell, source: seq<Cell>, previous: seq<Cell>, weights: seq<real>,
                      mask: seq<bool>, dt: real): Cell
    requires |source| == |previous| == |weights| == |mask| && (func.Integral? ==> func.scale != 0.0)
  {
    match func
    case Sum => Weighted(source, weights, mask, |source|)
    case Integral(scale) => Plus(before, dt / scale, Weighted(previous, weights, mask, |source|))
  }

  function Targets(func: Func, target: seq<Cell>, mapping: Mapping, source: seq<Cell>, previous: seq<Cell>,
                   weights: seq<real>,
                   special: Option<Special>, dt: real): (r: seq<Cell>)
    requires |target| == |mapping| && |source| == |previous| == |weights| && (func.Integral? ==> func.scale != 0.0)
    ensures |r| == |target|
  {
    seq(|target|, t requires 0 <= t < |target| =>
      Written(target[t],
              Aggregated(func, target[t], source, previous, weights, ToCount(mapping[t], source, special), dt)))
  }

  /** A number is left out exactly when it compares to the special value as the same; what is undefined is
      always left out. */
  lemma SpecialIsLeftOut(area: seq<nat>, source: seq<Cell>, special: Option<Special>, s: nat)
    requires s < |source|
    ensures ToCount(area, source, special)[s] <==>
      && s in area && source[s].Num?
      && (special.Some? ==> !special.value.cmp.Same(source[s], Num(special.value.value)))
  {
  }

  lemma {:induction false} WeightedSame(a: seq<Cell>, b: seq<Cell>, weights: seq<real>, mask: seq<bool>, n: nat)
    requires n <= |a| == |b| == |weights| == |mask| && forall s :: 0 <= s < n && mask[s] ==> a[s] == b[s]
    ensures Weighted(a, weights, mask, n) == Weighted(b, weights, mask, n)
  {
    if n > 0 {
      WeightedSame(a, b, weights, mask, n - 1);
    }
  }

  /** A special value counts no more than an undefined one: the areas get the same values when all special
      values are undefined instead. */
  lemma SpecialCountsAsUndefined(func: Func, target: seq<Cell>, mapping: Mapping, source: seq<Cell>,
                                 without: seq<Cell>, previous: seq<Cell>, weights: seq<real>, special: Special,
                                 dt: real)
    requires |target| == |mapping| && |source| == |previous| == |weights| && (func.Integral? ==> func.scale != 0.0)
    requires |without| == |source| && forall s :: 0 <= s < |source| ==>
      without[s] == if special.cmp.Same(source[s], Num(special.value)) then Undefined else source[s]
    ensures Targets(func, target, mapping, without, previous, weights, Some(special), dt)
         == Targets(func, target, mapping, source, previous, weights, Some(special), dt)
  {
    forall t | 0 <= t < |mapping|
      ensures ToCount(mapping[t], without, Some(special)) == ToCount(mapping[t], source, Some(special))
      ensures var mask := ToCount(mapping[t], source, Some(special));
        Weighted(without, weights, mask, |source|) == Weighted(source, weights, mask, |source|)
    {
      var mask := ToCount(mapping[t], source, Some(special));
      forall s | 0 <= s < |source|
        ensures ToCount(mapping[t], without, Some(special))[s] == mask[s] && (mask[s] ==> without[s] == source[s])
      {
        SpecialIsLeftOut(mapping[t], without, Some(special), s);
        SpecialIsLeftOut(mapping[t], source, Some(special), s);
      }
      WeightedSame(without, source, weights, mask, |source|);
    }
  }

  /** An undefined value is not written to an attribute. */
  function Written(before: Cell, value: Cell): Cell {
    if value == Undefined then before else value
  }

  function Zeros(n: nat): (r: seq<Cell>)
    ensures |r| == n
  {
    seq(n, _ => Num(0.0))
  }

  function AllOnes(n: nat): (r: seq<real>)
    ensures |r| == n
  {
    seq(n, _ => 1.0)
  }

  class AttributeAggregator {
    const func: Func
    const target: array<Cell>
    var mapping: Option<Mapping>
    var weights: Option<seq<real>>
    var previousSource: Option<seq<Cell>>
    var initialized: bool

    constructor (func: Func, target: array<Cell>)
      ensures this.func == func && this.target == target && mapping.None? && weights.None? && previousSource.None?
      ensures !initialized
    {
      this.func, this.target := func, target;
      mapping, weights, previousSource, initialized := None, None, None, false;
    }

    /** Starts with a previous source of zero, and an integral of zero, once. */
    method Initialize(size: nat)
      modifies this`initialized, this`previousSource, target
      ensures initialized
      ensures previousSource
           == if old(initialized) || old(previousSource).Some? then old(previousSource) else Some(Zeros(size))
      ensures target[..] == if old(initialized) || func.Sum? then old(target[..]) else Zeros(target.Length)
    {
      if initialized {
        return;
      }
      initialized := true;
      if previousSource.None? {
        previousSource := Some(Zeros(size));
      }
      if func.Sum? {
        return;
      }
      forall t | 0 <= t < target.Length {
        target[t] := Num(0.0);
      }
    }

    /** Calculates all areas from the source as it is now and as it was the last time. */
    method Calculate(source: seq<Cell>, special: Option<Special>, dt: real) returns (r: Result<()>)
      requires func.Integral? ==> func.scale != 0.0
      requires mapping.Some? ==> |mapping.value| == target.Length
      requires weights.Some? ==> |weights.value| == |source|
      requires initialized ==> previousSource.Some?
      requires previousSource.Some? ==> |previousSource.value| == |source|
      modifies this`initialized, this`previousSource, this`weights, target
      ensures initialized && (r.Ok? <==> mapping.Some?)
      ensures r.Ok? ==> previousSource == Some(source) && |mapping.value| == target.Length
      ensures r.Ok? ==> weights.Some? && |weights.value| == |source|
      ensures r.Ok? ==> weights == if old(weights).Some? then old(weights) else Some(AllOnes(|source|))
      ensures r.Ok? ==>
        var start := if old(initialized) || func.Sum? then old(target[..]) else Zeros(target.Length);
        var previous := if old(previousSource).Some? then old(previousSource).value else Zeros(|source|);
        target[..] == Targets(func, start, mapping.value, source, previous, weights.value, special, dt)
    {
      Initialize(|source|);
      if mapping.None? {
        return Err("QueryResult not set at runtime");
      }
      if weights.None? {
        weights := Some(AllOnes(|source|));
      }
      var previous, areas, w := previousSource.value, mapping.value, weights.value;
      ghost var start := target[..];
      for t := 0 to target.Length
        invariant initialized && mapping == Some(areas) && weights == Some(w) && previousSource == Some(previous)
        invariant forall u :: 0 <= u < t ==>
          target[u] == Written(start[u],
                               Aggregated(func, start[u], source, previous, w, ToCount(areas[u], source, special), dt))
        invariant forall u :: t <= u < target.Length ==> target[u] == start[u]
      {
        var toCount := ToCount(areas[t], source, special);
        var value := Aggregated(func, target[t], source, previous, w, toCount, dt);
        if value != Undefined {
          target[t] := value;
        }
      }
      previousSource := Some(source);
      return Ok(());
    }
  }

  // ----- conservation

  function AsReal(c: Cell): real {
    if c.Num? then c.x else 0.0
  }

  /** Adds up values, each times a factor. */
  function Total(factors: seq<real>, cells: seq<Cell>, n: nat): real
    requires n <= |cells| == |factors|
  {
    if n == 0 then 0.0 else Total(factors, cells, n - 1) + factors[n - 1] * AsReal(cells[n - 1])
  }

  function SumOf(cells: seq<Cell>): real {
    if cells == [] then 0.0 else SumOf(cells[..|cells| - 1]) + AsReal(cells[|cells| - 1])
  }

  /** The number of areas that a source lies in. */
  function AreasOf(mapping: Mapping, s: nat): nat {
    if mapping == [] then 0
    else AreasOf(mapping[..|mapping| - 1], s) + (if s in mapping[|mapping| - 1] then 1 else 0)
  }

  /** No area lists a source twice. */
  ghost predicate NoRepeats(mapping: Mapping) {
    forall t :: 0 <= t < |mapping| ==> Distinct(mapping[t])
  }

  predicate AllNumbers(cells: seq<Cell>) {
    forall s :: 0 <= s < |cells| ==> cells[s].Num?
  }

  lemma {:induction false} TotalAdds(f: seq<real>, g: seq<real>, h: seq<real>, cells: seq<Cell>, n: nat)
    requires n <= |cells| == |f| == |g| == |h| && forall s :: 0 <= s < n ==> h[s] == f[s] + g[s]
    ensures Total(h, cells, n) == Total(f, cells, n) + Total(g, cells, n)
  {
    if n > 0 {
      TotalAdds(f, g, h, cells, n - 1);
      var x := AsReal(cells[n - 1]);
      assert (f[n - 1] + g[n - 1]) * x == f[n - 1] * x + g[n - 1] * x;
    }
  }

  lemma {:induction false} TotalSame(f: seq<real>, g: seq<real>, cells: seq<Cell>, n: nat)
    requires n <= |cells| == |f| == |g| && forall s :: 0 <= s < n ==> f[s] == g[s]
    ensures Total(f, cells, n) == Total(g, cells, n)
  {
    if n > 0 {
      TotalSame(f, g, cells, n - 1);
    }
  }

  function Masked(weights: seq<real>, mask: seq<bool>): (f: seq<real>)
    requires |weights| == |mask|
    ensures |f| == |weights|
  {
    seq(|weights|, s requires 0 <= s < |weights| => if mask[s] then weights[s] else 0.0)
  }

  lemma {:induction false} WeightedIsTotal(cells: seq<Cell>, weights: seq<real>, mask: seq<bool>, n: nat)
    requires n <= |cells| == |weights| == |mask| && forall s :: 0 <= s < n && mask[s] ==> cells[s].Num?
    ensures Weighted(cells, weights, mask, n) == Num(Total(Masked(weights, mask), cells, n))
  {
    if n > 0 {
      WeightedIsTotal(cells, weights, mask, n - 1);
      if !mask[n - 1] {
        assert 0.0 * AsReal(cells[n - 1]) == 0.0;
      }
    }
  }

  /** The weighted sums of all areas. */
  function Areas(mapping: Mapping, cells: seq<Cell>, weights: seq<real>, source: seq<Cell>, special: Option<Special>)
    : (r: seq<Cell>)
    requires |cells| == |weights| == |source|
    ensures |r| == |mapping|
  {
    seq(|mapping|, t requires 0 <= t < |mapping| =>
      Weighted(cells, weights, ToCount(mapping[t], source, special), |source|))
  }

  /** What a source contributes to all areas together, as a factor. */
  function Shares(mapping: Mapping, weights: seq<real>, source: seq<Cell>, special: Option<Special>): (f: seq<real>)
    requires |weights| == |source|
    ensures |f| == |source|
  {
    seq(|source|, s requires 0 <= s < |source| =>
      if IsFinite(source[s], special) then AreasOf(mapping, s) as real * weights[s] else 0.0)
  }

  /** The finite sources have numbers. */
  ghost predicate NumbersWhereFinite(cells: seq<Cell>, source: seq<Cell>, special: Option<Special>) {
    |cells| == |source| && forall s :: 0 <= s < |source| && IsFinite(source[s], special) ==> cells[s].Num?
  }

  /** Summing over areas and then over sources is summing the other way round. */
  lemma {:induction false} SumOverAreas(mapping: Mapping, cells: seq<Cell>, weights: seq<real>, source: seq<Cell>,
                                        special: Option<Special>)
    requires |weights| == |source| && NumbersWhereFinite(cells, source, special)
    ensures AllNumbers(Areas(mapping, cells, weights, source, special))
    ensures SumOf(Areas(mapping, cells, weights, source, special))
         == Total(Shares(mapping, weights, source, special), cells, |source|)
  {
    hide Weighted, ToCount, Masked, AreasOf, IsFinite;
    var all, size := Areas(mapping, cells, weights, source, special), |source|;
    if mapping == [] {
      NoAreas(weights, source, special);
      TotalZero(Shares(mapping, weights, source, special), cells, size);
    } else {
      var n := |mapping| - 1;
      var front, mask := mapping[..n], ToCount(mapping[n], source, special);
      SumOverAreas(front, cells, weights, source, special);
      assert all[..n] == Areas(front, cells, weights, source, special);
      CountedNumbers(mapping[n], cells, source, special);
      WeightedIsTotal(cells, weights, mask, size);
      OneAreaMore(mapping, weights, source, special);
      forall s | 0 <= s < size
        ensures Shares(mapping, weights, source, special)[s]
             == Shares(front, weights, source, special)[s] + Masked(weights, mask)[s]
      {
        assert ShareGrows(mapping, weights, source, special, s);
      }
      TotalAdds(Shares(front, weights, source, special), Masked(weights, mask),
                Shares(mapping, weights, source, special), cells, size);
    }
  }

  lemma NoAreas(weights: seq<real>, source: seq<Cell>, special: Option<Special>)
    requires |weights| == |source|
    ensures forall s :: 0 <= s < |source| ==> Shares([], weights, source, special)[s] == 0.0
  {
  }

  lemma CountedNumbers(area: seq<nat>, cells: seq<Cell>, source: seq<Cell>, special: Option<Special>)
    requires NumbersWhereFinite(cells, source, special)
    ensures forall s :: 0 <= s < |source| && ToCount(area, source, special)[s] ==> cells[s].Num?
  {
  }

  predicate ShareGrows(mapping: Mapping, weights: seq<real>, source: seq<Cell>, special: Option<Special>, s: nat)
    requires mapping != [] && |weights| == |source| && s < |source|
  {
    var n := |mapping| - 1;
    Shares(mapping, weights, source, special)[s]
    == Shares(mapping[..n], weights, source, special)[s] + Masked(weights, ToCount(mapping[n], source, special))[s]
  }

  lemma OneAreaMore(mapping: Mapping, weights: seq<real>, source: seq<Cell>, special: Option<Special>)
    requires mapping != [] && |weights| == |source|
    ensures forall s :: 0 <= s < |source| ==> ShareGrows(mapping, weights, source, special, s)
  {
    var n := |mapping| - 1;
    forall s | 0 <= s < |source|
      ensures ShareGrows(mapping, weights, source, special, s)
    {
      var before := AreasOf(mapping[..n], s);
      assert (before + 1) as real * weights[s] == before as real * weights[s] + weights[s];
    }
  }

  lemma {:induction false} TotalZero(f: seq<real>, cells: seq<Cell>, n: nat)
    requires n <= |cells| == |f| && forall s :: 0 <= s < n ==> f[s] == 0.0
    ensures Total(f, cells, n) == 0.0
  {
    if n > 0 {
      TotalZero(f, cells, n - 1);
    }
  }

  lemma DistinctCount(area: seq<nat>, s: nat)
    ensures s in area ==> multiset(area)[s] >= 1
    ensures s !in area ==> multiset(area)[s] == 0
    ensures Distinct(area) ==> multiset(area)[s] <= 1
    decreases |area|
  {
    if area != [] {
      var n := |area| - 1;
      assert area == area[..n] + [area[n]];
      DistinctCount(area[..n], s);
      if Distinct(area) {
        assert Distinct(area[..n]) && area[n] !in area[..n];
      }
    }
  }

  lemma {:induction false} AreasAndCount(mapping: Mapping, s: nat)
    ensures AreasOf(mapping, s) <= Count(AllIndices(mapping), s)
    ensures NoRepeats(mapping) ==> AreasOf(mapping, s) == Count(AllIndices(mapping), s)
  {
    if mapping != [] {
      var n := |mapping| - 1;
      AreasAndCount(mapping[..n], s);
      DistinctCount(mapping[n], s);
      if NoRepeats(mapping) {
        assert forall t :: 0 <= t < n ==> mapping[..n][t] == mapping[t];
      }
    }
  }

  /** The weights of the model, one per source. */
  function Weights(mapping: Mapping, size: nat): (w: seq<real>)
    ensures |w| == size
  {
    seq(size, s requires 0 <= s < size => WeightOf(AllIndices(mapping), s))
  }

  function Ones(mapping: Mapping, source: seq<Cell>, special: Option<Special>): (f: seq<real>)
    ensures |f| == |source|
  {
    seq(|source|, s requires 0 <= s < |source| =>
      if IsFinite(source[s], special) && s in AllIndices(mapping) then 1.0 else 0.0)
  }

  /** The total of the finite sources that lie in some area. */
  function MappedTotal(mapping: Mapping, cells: seq<Cell>, source: seq<Cell>, special: Option<Special>): real
    requires |cells| == |source|
  {
    Total(Ones(mapping, source, special), cells, |source|)
  }

  lemma ShareIsOne(mapping: Mapping, s: nat)
    ensures s !in AllIndices(mapping) ==> AreasOf(mapping, s) as real * WeightOf(AllIndices(mapping), s) == 0.0
    ensures NoRepeats(mapping) && s in AllIndices(mapping) ==>
      AreasOf(mapping, s) as real * WeightOf(AllIndices(mapping), s) == 1.0
  {
    hide NoRepeats, AreasOf, AllIndices;
    AreasAndCount(mapping, s);
    if s in AllIndices(mapping) {
      Reciprocal(Count(AllIndices(mapping), s));
    }
  }

  lemma Reciprocal(n: nat)
    requires n > 0
    ensures n as real * (1.0 / n as real) == 1.0
  {
  }

  lemma SharesAreOnes(mapping: Mapping, source: seq<Cell>, special: Option<Special>)
    requires NoRepeats(mapping)
    ensures Shares(mapping, Weights(mapping, |source|), source, special) == Ones(mapping, source, special)
  {
    hide NoRepeats, AreasOf, AllIndices, WeightOf;
    forall s | 0 <= s < |source|
      ensures Shares(mapping, Weights(mapping, |source|), source, special)[s] == Ones(mapping, source, special)[s]
    {
      ShareIsOne(mapping, s);
      var w := Weights(mapping, |source|);
      assert w[s] == WeightOf(AllIndices(mapping), s);
      assert Shares(mapping, w, source, special)[s]
          == if IsFinite(source[s], special) then AreasOf(mapping, s) as real * WeightOf(AllIndices(mapping), s)
             else 0.0;
    }
  }

  lemma AreasConserve(mapping: Mapping, cells: seq<Cell>, source: seq<Cell>, special: Option<Special>)
    requires NoRepeats(mapping) && NumbersWhereFinite(cells, source, special)
    ensures AllNumbers(Areas(mapping, cells, Weights(mapping, |source|), source, special))
    ensures SumOf(Areas(mapping, cells, Weights(mapping, |source|), source, special))
         == MappedTotal(mapping, cells, source, special)
  {
    SumOverAreas(mapping, cells, Weights(mapping, |source|), source, special);
    SharesAreOnes(mapping, source, special);
  }

  lemma {:induction false} InSomeArea(mapping: Mapping, s: nat)
    ensures s in AllIndices(mapping) <==> exists t :: 0 <= t < |mapping| && s in mapping[t]
  {
    if mapping != [] {
      var n := |mapping| - 1;
      InSomeArea(mapping[..n], s);
      if s in AllIndices(mapping[..n]) {
        var t :| 0 <= t < n && s in mapping[..n][t];
        assert s in mapping[t];
      } else if t :| 0 <= t < |mapping| && s in mapping[t] {
        assert t < n ==> s in mapping[..n][t];
      }
    }
  }

  /** A source takes part in the totals if it is a number that is not special and lies in some area. */
  ghost predicate TakesPart(mapping: Mapping, source: seq<Cell>, special: Option<Special>, s: nat)
    requires s < |source|
  {
    && source[s].Num? && (special.Some? ==> !special.value.cmp.Same(source[s], Num(special.value.value)))
    && exists t :: 0 <= t < |mapping| && s in mapping[t]
  }

  lemma PartsOfTotal(mapping: Mapping, cells: seq<Cell>, source: seq<Cell>, special: Option<Special>, parts: seq<bool>)
    requires |cells| == |source| == |parts|
    requires forall s :: 0 <= s < |source| ==> (parts[s] <==> TakesPart(mapping, source, special, s))
    ensures MappedTotal(mapping, cells, source, special)
         == Total(Masked(AllOnes(|source|), parts), cells, |source|)
  {
    forall s | 0 <= s < |source|
      ensures Ones(mapping, source, special)[s] == Masked(AllOnes(|source|), parts)[s]
    {
      InSomeArea(mapping, s);
    }
    TotalSame(Ones(mapping, source, special), Masked(AllOnes(|source|), parts), cells, |source|);
  }

  /** The sums of all areas add up to the total of the finite sources that lie in some area. */
  lemma SumConserves(mapping: Mapping, target: seq<Cell>, source: seq<Cell>, previous: seq<Cell>,
                     special: Option<Special>, dt: real)
    requires NoRepeats(mapping) && |target| == |mapping| && |previous| == |source|
    ensures SumOf(Targets(Sum, target, mapping, source, previous, Weights(mapping, |source|), special, dt))
         == MappedTotal(mapping, source, source, special)
    ensures forall parts: seq<bool> ::
      |parts| == |source|
      && (forall s :: 0 <= s < |source| ==> (parts[s] <==> TakesPart(mapping, source, special, s)))
      ==> SumOf(Targets(Sum, target, mapping, source, previous, Weights(mapping, |source|), special, dt))
          == Total(Masked(AllOnes(|source|), parts), source, |source|)
  {
    hide Weighted, NoRepeats, Weights, MappedTotal, ToCount, TakesPart, Total, Masked;
    forall parts: seq<bool> |
      |parts| == |source|
      && forall s :: 0 <= s < |source| ==> (parts[s] <==> TakesPart(mapping, source, special, s))
      ensures MappedTotal(mapping, source, source, special)
           == Total(Masked(AllOnes(|source|), parts), source, |source|)
    {
      PartsOfTotal(mapping, source, source, special, parts);
    }
    AreasConserve(mapping, source, source, special);
    assert Targets(Sum, target, mapping, source, previous, Weights(mapping, |source|), special, dt)
        == Areas(mapping, source, Weights(mapping, |source|), source, special);
  }

  lemma {:induction false} SumOfIncrements(before: seq<Cell>, factor: real, areas: seq<Cell>, after: seq<Cell>)
    requires |before| == |areas| == |after| && AllNumbers(before) && AllNumbers(areas)
    requires forall t :: 0 <= t < |after| ==> after[t] == Plus(before[t], factor, areas[t])
    ensures AllNumbers(after) && SumOf(after) == SumOf(before) + factor * SumOf(areas)
  {
    if after != [] {
      var n := |after| - 1;
      SumOfIncrements(before[..n], factor, areas[..n], after[..n]);
      assert factor * (SumOf(areas[..n]) + areas[n].x) == factor * SumOf(areas[..n]) + factor * areas[n].x;
    }
  }

  lemma IntegralTargets(mapping: Mapping, target: seq<Cell>, source: seq<Cell>, previous: seq<Cell>,
                        special: Option<Special>, dt: real, scale: real)
    requires scale != 0.0 && |target| == |mapping| && |previous| == |source|
    ensures var areas := Areas(mapping, previous, Weights(mapping, |source|), source, special);
      var after := Targets(Integral(scale), target, mapping, source, previous, Weights(mapping, |source|), special, dt);
      AllNumbers(target) && AllNumbers(areas) ==>
        forall t :: 0 <= t < |after| ==> after[t] == Plus(target[t], dt / scale, areas[t])
  {
  }

  /** The time step times the previous total of the finite sources that lie in some area. */
  function Increment(mapping: Mapping, previous: seq<Cell>, source: seq<Cell>, special: Option<Special>, dt: real,
                     scale: real): real
    requires |previous| == |source| && scale != 0.0
  {
    dt / scale * MappedTotal(mapping, previous, source, special)
  }

  /** The integrals of all areas grow together by the time step times the previous total. */
  lemma IntegralConserves(mapping: Mapping, target: seq<Cell>, source: seq<Cell>, previous: seq<Cell>,
                          special: Option<Special>,
                          dt: real, scale: real)
    requires scale != 0.0 && NoRepeats(mapping) && |target| == |mapping| && AllNumbers(target)
    requires NumbersWhereFinite(previous, source, special)
    ensures var after :=
      Targets(Integral(scale), target, mapping, source, previous, Weights(mapping, |source|), special, dt);
      AllNumbers(after) && SumOf(after) == SumOf(target) + Increment(mapping, previous, source, special, dt, scale)
  {
    hide Weighted, NoRepeats, Weights, MappedTotal, ToCount, Targets, Areas;
    AreasConserve(mapping, previous, source, special);
    IntegralTargets(mapping, target, source, previous, special, dt, scale);
    SumOfIncrements(target, dt / scale, Areas(mapping, previous, Weights(mapping, |source|), source, special),
                    Targets(Integral(scale), target, mapping, source, previous, Weights(mapping, |source|),
                            special, dt));
  }

  // ----- exactly when totals are conserved

  lemma {:induction false} RepeatLosesShare(mapping: Mapping, t: nat, s: nat)
    requires t < |mapping| && multiset(mapping[t])[s] >= 2
    ensures AreasOf(mapping, s) < Count(AllIndices(mapping), s)
  {
    var n := |mapping| - 1;
    DistinctCount(mapping[n], s);
    if t < n {
      RepeatLosesShare(mapping[..n], t, s);
    } else {
      AreasAndCount(mapping[..n], s);
    }
  }

  lemma RepeatedSource(mapping: Mapping) returns (s: nat)
    requires !NoRepeats(mapping)
    ensures s in AllIndices(mapping) && AreasOf(mapping, s) < Count(AllIndices(mapping), s)
  {
    var t :| 0 <= t < |mapping| && !Distinct(mapping[t]);
    var i, j :| 0 <= i < j < |mapping[t]| && mapping[t][i] == mapping[t][j];
    s := mapping[t][i];
    assert mapping[t] == mapping[t][..j] + [s] + mapping[t][j + 1..];
    assert mapping[t][..j][i] == s;
    DistinctCount(mapping[t][..j], s);
    RepeatLosesShare(mapping, t, s);
  }

  function Indicator(size: nat, s: nat): (r: seq<Cell>)
    ensures |r| == size && AllNumbers(r)
  {
    seq(size, i => Num(if i == s then 1.0 else 0.0))
  }

  lemma {:induction false} TotalOfIndicator(f: seq<real>, s: nat, n: nat)
    requires n <= |f|
    ensures Total(f, Indicator(|f|, s), n) == if s < n then f[s] else 0.0
  {
    if n > 0 {
      TotalOfIndicator(f, s, n - 1);
    }
  }

  ghost predicate Conserves(mapping: Mapping, source: seq<Cell>) {
    SumOf(Areas(mapping, source, Weights(mapping, |source|), source, None))
      == MappedTotal(mapping, source, source, None)
  }

  lemma RepeatBreaksConservation(mapping: Mapping, size: nat) returns (source: seq<Cell>)
    requires ValidMapping(mapping, size) && !NoRepeats(mapping)
    ensures |source| == size && AllNumbers(source) && !Conserves(mapping, source)
  {
    hide *;
    var s := RepeatedSource(mapping);
    IndicesAreValid(mapping, size);
    source := Indicator(size, s);
    IndicatorIsNotConserved(mapping, size, s);
  }

  lemma RepeatedShare(mapping: Mapping, source: seq<Cell>, s: nat)
    requires s < |source| && source[s].Num? && s in AllIndices(mapping)
    requires AreasOf(mapping, s) < Count(AllIndices(mapping), s)
    ensures Shares(mapping, Weights(mapping, |source|), source, None)[s] < 1.0 == Ones(mapping, source, None)[s]
  {
    hide AllIndices, AreasOf, Count;
    LessThanOne(AreasOf(mapping, s), Count(AllIndices(mapping), s));
    assert Weights(mapping, |source|)[s] == WeightOf(AllIndices(mapping), s);
  }

  lemma IndicatorIsNotConserved(mapping: Mapping, size: nat, s: nat)
    requires s < size && s in AllIndices(mapping) && AreasOf(mapping, s) < Count(AllIndices(mapping), s)
    ensures !Conserves(mapping, Indicator(size, s))
  {
    hide AllIndices, AreasOf, Areas, ToCount, NoRepeats, Total, Count, Shares, Ones, Weights, WeightOf, SumOf;
    var source, weights := Indicator(size, s), Weights(mapping, size);
    SumOverAreas(mapping, source, weights, source, None);
    TotalOfIndicator(Shares(mapping, weights, source, None), s, size);
    TotalOfIndicator(Ones(mapping, source, None), s, size);
    RepeatedShare(mapping, source, s);
  }

  lemma LessThanOne(m: nat, n: nat)
    requires m < n
    ensures m as real * (1.0 / n as real) < 1.0
  {
    assert m as real * (1.0 / n as real) == m as real / n as real;
  }

  /** The sums conserve every total exactly when no area lists a source twice. */
  lemma ConservedWithoutRepeats(mapping: Mapping, size: nat)
    requires ValidMapping(mapping, size)
    ensures NoRepeats(mapping)
       <==> forall source: seq<Cell> :: |source| == size && AllNumbers(source) ==> Conserves(mapping, source)
  {
    if NoRepeats(mapping) {
      forall source: seq<Cell> | |source| == size && AllNumbers(source)
        ensures Conserves(mapping, source)
      {
        AreasConserve(mapping, source, source, None);
      }
    } else {
      var source := RepeatBreaksConservation(mapping, size);
    }
  }

  // ----- integrals over a run

  /** The areas and the previous source after n calculations. */
  function IntegralRun(mapping: Mapping, size: nat, sources: seq<seq<Cell>>, steps: seq<real>, special: Option<Special>,
                       scale: real, n: nat)
    : (r: (seq<Cell>, seq<Cell>))
    requires n <= |sources| == |steps| && scale != 0.0 && forall k :: 0 <= k < n ==> |sources[k]| == size
    ensures |r.0| == |mapping| && |r.1| == size
  {
    if n == 0 then (Zeros(|mapping|), Zeros(size))
    else
      var (target, previous) := IntegralRun(mapping, size, sources, steps, special, scale, n - 1);
      var source, dt := sources[n - 1], steps[n - 1];
      (Targets(Integral(scale), target, mapping, source, previous, Weights(mapping, size), special, dt), source)
  }

  /** Every step contributes the total at its beginning, which is nothing for the first. */
  function Accumulated(mapping: Mapping, size: nat, sources: seq<seq<Cell>>, steps: seq<real>, special: Option<Special>,
                       scale: real, n: nat): real
    requires n <= |sources| == |steps| && scale != 0.0 && forall k :: 0 <= k < n ==> |sources[k]| == size
  {
    if n == 0 then 0.0
    else
      Accumulated(mapping, size, sources, steps, special, scale, n - 1)
      + Increment(mapping, if n == 1 then Zeros(size) else sources[n - 2], sources[n - 1], special, steps[n - 1], scale)
  }

  lemma {:induction false} ZerosSum(n: nat)
    ensures SumOf(Zeros(n)) == 0.0
  {
    if n > 0 {
      ZerosSum(n - 1);
      assert Zeros(n)[..n - 1] == Zeros(n - 1);
    }
  }

  lemma ZerosAreNumbers(n: nat)
    ensures AllNumbers(Zeros(n))
  {
  }

  /** Over any run with finite sources, the integrals of all areas add up to the integral of the total. */
  lemma {:induction false} IntegralOverRun(mapping: Mapping, size: nat, sources: seq<seq<Cell>>, steps: seq<real>,
                                           special: Option<Special>,
                                           scale: real, n: nat)
    requires n <= |sources| == |steps| && scale != 0.0 && NoRepeats(mapping)
    requires forall k :: 0 <= k < n ==> |sources[k]| == size && AllNumbers(sources[k])
    ensures AllNumbers(IntegralRun(mapping, size, sources, steps, special, scale, n).0)
    ensures SumOf(IntegralRun(mapping, size, sources, steps, special, scale, n).0)
         == Accumulated(mapping, size, sources, steps, special, scale, n)
  {
    hide Targets, Increment, NoRepeats, Weights, Zeros, SumOf;
    if n == 0 {
      ZerosSum(|mapping|);
      ZerosAreNumbers(|mapping|);
    } else {
      ZerosAreNumbers(size);
      IntegralOverRun(mapping, size, sources, steps, special, scale, n - 1);
      var (target, previous) := IntegralRun(mapping, size, sources, steps, special, scale, n - 1);
      assert previous == if n == 1 then Zeros(size) else sources[n - 2];
      IntegralConserves(mapping, target, sources[n - 1], previous, special, steps[n - 1], scale);
    }
  }

  // ----- previous values that are undefined

  lemma {:induction false} UndefinedStopsIntegral(cells: seq<Cell>, weights: seq<real>, mask: seq<bool>, n: nat, s: nat)
    requires s < n <= |cells| == |weights| == |mask| && mask[s] && !cells[s].Num?
    ensures Weighted(cells, weights, mask, n) == Undefined
  {
    if s < n - 1 {
      UndefinedStopsIntegral(cells, weights, mask, n - 1, s);
    }
  }

  /** An area takes no step at all when the previous value of one of its finite sources is undefined. */
  lemma AreaSkipsStep(mapping: Mapping, target: seq<Cell>, source: seq<Cell>, previous: seq<Cell>,
                      special: Option<Special>,
                      dt: real, scale: real, t: nat, s: nat)
    requires scale != 0.0 && |target| == |mapping| && |previous| == |source| && t < |mapping| && s < |source|
    requires s in mapping[t] && IsFinite(source[s], special) && !previous[s].Num?
    ensures Targets(Integral(scale), target, mapping, source, previous, Weights(mapping, |source|), special, dt)[t]
         == target[t]
  {
    UndefinedStopsIntegral(previous, Weights(mapping, |source|), ToCount(mapping[t], source, special), |source|, s);
  }

  /** All finite sources of the area had numbers before. */
  predicate TakesStep(area: seq<nat>, source: seq<Cell>, previous: seq<Cell>, special: Option<Special>)
    requires |previous| == |source|
  {
    forall s :: 0 <= s < |source| && s in area && IsFinite(source[s], special) ==> previous[s].Num?
  }

  /** The areas that take a step; the others are emptied. */
  function Stepping(mapping: Mapping, source: seq<Cell>, previous: seq<Cell>, special: Option<Special>): (r: Mapping)
    requires |previous| == |source|
    ensures |r| == |mapping|
  {
    seq(|mapping|, t requires 0 <= t < |mapping| =>
      if TakesStep(mapping[t], source, previous, special) then mapping[t] else [])
  }

  function AsNumbers(cells: seq<Cell>): (r: seq<Cell>)
    ensures |r| == |cells| && AllNumbers(r)
  {
    seq(|cells|, s requires 0 <= s < |cells| => Num(AsReal(cells[s])))
  }

  lemma {:induction false} WeightedNumbers(cells: seq<Cell>, weights: seq<real>, mask: seq<bool>, n: nat)
    requires n <= |cells| == |weights| == |mask| && forall s :: 0 <= s < n && mask[s] ==> cells[s].Num?
    ensures Weighted(cells, weights, mask, n) == Weighted(AsNumbers(cells), weights, mask, n)
  {
    if n > 0 {
      WeightedNumbers(cells, weights, mask, n - 1);
    }
  }

  lemma {:induction false} WeightedNothing(cells: seq<Cell>, weights: seq<real>, mask: seq<bool>, n: nat)
    requires n <= |cells| == |weights| == |mask| && forall s :: 0 <= s < n ==> !mask[s]
    ensures Weighted(cells, weights, mask, n) == Num(0.0)
  {
    if n > 0 {
      WeightedNothing(cells, weights, mask, n - 1);
    }
  }

  lemma {:induction false} TotalOfNumbers(f: seq<real>, cells: seq<Cell>, n: nat)
    requires n <= |f| == |cells|
    ensures Total(f, AsNumbers(cells), n) == Total(f, cells, n)
  {
    if n > 0 {
      TotalOfNumbers(f, cells, n - 1);
    }
  }

  /** A step of one area, which is nothing when it does not take one. */
  lemma StepOfArea(area: seq<nat>, before: Cell, source: seq<Cell>, previous: seq<Cell>, weights: seq<real>,
                   special: Option<Special>,
                   dt: real, scale: real)
    requires scale != 0.0 && |previous| == |source| == |weights| && before.Num?
    ensures var mask := ToCount(area, source, special);
      var stepping := if TakesStep(area, source, previous, special) then area else [];
      Written(before, Aggregated(Integral(scale), before, source, previous, weights, mask, dt))
      == Plus(before, dt / scale, Weighted(AsNumbers(previous), weights, ToCount(stepping, source, special), |source|))
  {
    var mask := ToCount(area, source, special);
    if TakesStep(area, source, previous, special) {
      WeightedNumbers(previous, weights, mask, |source|);
      WeightedIsTotal(AsNumbers(previous), weights, mask, |source|);
    } else {
      var s :| 0 <= s < |source| && s in area && IsFinite(source[s], special) && !previous[s].Num?;
      UndefinedStopsIntegral(previous, weights, mask, |source|, s);
      WeightedNothing(AsNumbers(previous), weights, ToCount([], source, special), |source|);
    }
  }

  lemma StepsOfAreas(mapping: Mapping, target: seq<Cell>, source: seq<Cell>, previous: seq<Cell>, weights: seq<real>,
                     special: Option<Special>, dt: real, scale: real)
    requires scale != 0.0 && |target| == |mapping| && AllNumbers(target) && |previous| == |source| == |weights|
    ensures var areas :=
      Areas(Stepping(mapping, source, previous, special), AsNumbers(previous), weights, source, special);
      var after := Targets(Integral(scale), target, mapping, source, previous, weights, special, dt);
      forall t :: 0 <= t < |after| ==> after[t] == Plus(target[t], dt / scale, areas[t])
  {
    hide Weighted, ToCount, Aggregated, TakesStep, Plus, Written;
    forall t | 0 <= t < |mapping|
      ensures Targets(Integral(scale), target, mapping, source, previous, weights, special, dt)[t]
           == Plus(target[t], dt / scale,
                   Areas(Stepping(mapping, source, previous, special), AsNumbers(previous), weights, source,
                         special)[t])
    {
      StepOfArea(mapping[t], target[t], source, previous, weights, special, dt, scale);
    }
  }

  /** The time step times the previous total that the areas which take a step have a share in. */
  function Growth(mapping: Mapping, source: seq<Cell>, previous: seq<Cell>, special: Option<Special>, dt: real,
                  scale: real): real
    requires |previous| == |source| && scale != 0.0
  {
    var shares := Shares(Stepping(mapping, source, previous, special), Weights(mapping, |source|), source, special);
    dt / scale * Total(shares, previous, |source|)
  }

  lemma GrowthOfAreas(mapping: Mapping, source: seq<Cell>, previous: seq<Cell>, special: Option<Special>, dt: real,
                      scale: real)
    requires |previous| == |source| && scale != 0.0
    ensures var areas := Areas(Stepping(mapping, source, previous, special), AsNumbers(previous),
                               Weights(mapping, |source|), source, special);
      AllNumbers(areas) && dt / scale * SumOf(areas) == Growth(mapping, source, previous, special, dt, scale)
  {
    hide Weighted, Weights, ToCount, Areas, Shares, Total, SumOf, TakesStep, Stepping;
    var weights, stepping := Weights(mapping, |source|), Stepping(mapping, source, previous, special);
    SumOverAreas(stepping, AsNumbers(previous), weights, source, special);
    TotalOfNumbers(Shares(stepping, weights, source, special), previous, |source|);
  }

  /** Whatever is undefined, this is how the integrals of all areas grow together. */
  lemma IntegralGrowth(mapping: Mapping, target: seq<Cell>, source: seq<Cell>, previous: seq<Cell>,
                       special: Option<Special>,
                       dt: real, scale: real)
    requires scale != 0.0 && |target| == |mapping| && AllNumbers(target) && |previous| == |source|
    ensures var after :=
      Targets(Integral(scale), target, mapping, source, previous, Weights(mapping, |source|), special, dt);
      AllNumbers(after) && SumOf(after) == SumOf(target) + Growth(mapping, source, previous, special, dt, scale)
  {
    hide Weighted, Weights, ToCount, Targets, Areas, SumOf, TakesStep, Growth, AsNumbers;
    var weights := Weights(mapping, |source|);
    GrowthOfAreas(mapping, source, previous, special, dt, scale);
    StepsOfAreas(mapping, target, source, previous, weights, special, dt, scale);
    SumOfIncrements(target, dt / scale,
                    Areas(Stepping(mapping, source, previous, special), AsNumbers(previous), weights, source, special),
                    Targets(Integral(scale), target, mapping, source, previous, weights, special, dt));
  }

  // ----- previous values that are special

  predicate IsSpecial(cell: Cell, special: Special) {
    special.cmp.Same(cell, Num(special.value))
  }

  /** The special value is compared exactly, or what is close to it has its sign. */
  predicate HasSign(special: Special) {
    match special.cmp
    case Exact => true
    case Isclose(rtol, atol, _) => atol + rtol * Abs(special.value) < Abs(special.value)
  }

  lemma SpecialSign(cell: Cell, special: Special)
    requires HasSign(special) && cell.Num? && IsSpecial(cell, special)
    ensures HasSignOf(cell.x, special.value)
  {
    if special.cmp.Isclose? {
      var x, y := cell.x, special.value;
      assert Abs(x - y) < Abs(y);
    }
  }

  /** Which sources of an area are counted now and were special before. */
  function WasSpecial(area: seq<nat>, source: seq<Cell>, previous: seq<Cell>, special: Special): (mask: seq<bool>)
    requires |previous| == |source|
    ensures |mask| == |source|
    ensures forall s :: 0 <= s < |mask| ==>
      (mask[s] <==> s in area && IsFinite(source[s], Some(special)) && IsSpecial(previous[s], special))
  {
    seq(|source|, s requires 0 <= s < |source| =>
      s in area && IsFinite(source[s], Some(special)) && IsSpecial(previous[s], special))
  }

  /** Which sources are to be counted when special previous values are left out. */
  function Proper(area: seq<nat>, source: seq<Cell>, previous: seq<Cell>, special: Special): (mask: seq<bool>)
    requires |previous| == |source|
    ensures |mask| == |source|
  {
    seq(|source|, s requires 0 <= s < |source| =>
      s in area && IsFinite(source[s], Some(special)) && !IsSpecial(previous[s], special))
  }

  predicate HasSignOf(x: real, sign: real) {
    (sign == 0.0 ==> x == 0.0) && (sign > 0.0 ==> x > 0.0) && (sign < 0.0 ==> x < 0.0)
  }

  /** A weighted total of cells with one sign has that sign, if there are any. */
  lemma {:induction false} SignedTotal(cells: seq<Cell>, weights: seq<real>, mask: seq<bool>, sign: real, n: nat)
    requires n <= |cells| == |weights| == |mask|
    requires forall s :: 0 <= s < n && mask[s] ==> weights[s] > 0.0 && cells[s].Num? && HasSignOf(cells[s].x, sign)
    ensures var total := Total(Masked(weights, mask), cells, n);
      && (sign == 0.0 || (forall s :: 0 <= s < n ==> !mask[s]) ==> total == 0.0)
      && (sign > 0.0 ==> total >= 0.0 && (true in mask[..n] ==> total > 0.0))
      && (sign < 0.0 ==> total <= 0.0 && (true in mask[..n] ==> total < 0.0))
  {
    if n > 0 {
      SignedTotal(cells, weights, mask, sign, n - 1);
      assert mask[..n] == mask[..n - 1] + [mask[n - 1]];
      if mask[n - 1] {
        SignedProduct(weights[n - 1], cells[n - 1].x);
      }
    }
  }

  lemma SignedProduct(w: real, x: real)
    requires w > 0.0
    ensures x == 0.0 ==> w * x == 0.0
    ensures x > 0.0 ==> w * x > 0.0
    ensures x < 0.0 ==> w * x < 0.0
  {
  }

  lemma SplitMask(area: seq<nat>, source: seq<Cell>, previous: seq<Cell>, weights: seq<real>, special: Special)
    requires |previous| == |source| == |weights|
    ensures var n := |source|;
      Total(Masked(weights, ToCount(area, source, Some(special))), previous, n)
      == Total(Masked(weights, Proper(area, source, previous, special)), previous, n)
         + Total(Masked(weights, WasSpecial(area, source, previous, special)), previous, n)
  {
    TotalAdds(Masked(weights, Proper(area, source, previous, special)),
              Masked(weights, WasSpecial(area, source, previous, special)),
              Masked(weights, ToCount(area, source, Some(special))), previous, |source|);
  }

  lemma IncrementsDiffer(before: Cell, dt: real, scale: real, a: real, b: real)
    requires before.Num? && scale != 0.0
    ensures Plus(before, dt / scale, Num(a + b)) == Plus(before, dt / scale, Num(a)) <==> dt == 0.0 || b == 0.0
  {
    var f := dt / scale;
    assert f * scale == dt;
    assert f * (a + b) == f * a + f * b;
    if f != 0.0 && b != 0.0 {
      assert f * b != 0.0;
    }
  }

  /** The weighted total of the previous values of an area that are special but counted. */
  function SpecialTotal(area: seq<nat>, source: seq<Cell>, previous: seq<Cell>, weights: seq<real>, special: Special)
    : real
    requires |previous| == |source| == |weights|
  {
    Total(Masked(weights, WasSpecial(area, source, previous, special)), previous, |source|)
  }

  /** Only the present source is checked for special values, and the previous one is added. An area's
      integral is the one that leaves out previous special values exactly when no time passed or the
      weighted total of these is zero, whatever the special value is and however it is compared. */
  lemma SpecialTotalIsIntegrated(area: seq<nat>, before: Cell, source: seq<Cell>, previous: seq<Cell>,
                                 weights: seq<real>,
                                 special: Special, dt: real, scale: real)
    requires scale != 0.0 && |previous| == |source| == |weights| && before.Num?
    requires TakesStep(area, source, previous, Some(special))
    ensures Aggregated(Integral(scale), before, source, previous, weights, ToCount(area, source, Some(special)), dt)
         == Aggregated(Integral(scale), before, source, previous, weights, Proper(area, source, previous, special), dt)
       <==> dt == 0.0 || SpecialTotal(area, source, previous, weights, special) == 0.0
  {
    hide Weighted, Total, Masked, Plus, IsSpecial;
    var n := |source|;
    WeightedIsTotal(previous, weights, ToCount(area, source, Some(special)), n);
    WeightedIsTotal(previous, weights, Proper(area, source, previous, special), n);
    SplitMask(area, source, previous, weights, special);
    IncrementsDiffer(before, dt, scale, Total(Masked(weights, Proper(area, source, previous, special)), previous, n),
                     SpecialTotal(area, source, previous, weights, special));
  }

  /** When what counts as special has one sign, that is exactly when no time passed, the special value is
      zero, or no source of the area is finite now and was special before. */
  lemma SpecialIsIntegrated(area: seq<nat>, before: Cell, source: seq<Cell>, previous: seq<Cell>, weights: seq<real>,
                            special: Special,
                            dt: real, scale: real)
    requires scale != 0.0 && |previous| == |source| == |weights| && before.Num? && HasSign(special)
    requires forall s :: 0 <= s < |source| && s in area ==> weights[s] > 0.0
    requires TakesStep(area, source, previous, Some(special))
    ensures Aggregated(Integral(scale), before, source, previous, weights, ToCount(area, source, Some(special)), dt)
         == Aggregated(Integral(scale), before, source, previous, weights, Proper(area, source, previous, special), dt)
       <==> || dt == 0.0 || special.value == 0.0
            || !exists s ::
                 0 <= s < |source| && s in area && IsFinite(source[s], Some(special)) && IsSpecial(previous[s], special)
  {
    hide Weighted, Total, Masked, Plus, HasSign, IsSpecial, Aggregated, Proper, ToCount;
    var n, was := |source|, WasSpecial(area, source, previous, special);
    SpecialTotalIsIntegrated(area, before, source, previous, weights, special, dt, scale);
    forall s | 0 <= s < n && was[s]
      ensures previous[s].Num? && HasSignOf(previous[s].x, special.value)
    {
      SpecialSign(previous[s], special);
    }
    SignedTotal(previous, weights, was, special.value, n);
    assert was[..n] == was;
    if s :| 0 <= s < n && s in area && IsFinite(source[s], Some(special)) && IsSpecial(previous[s], special) {
      assert was[s] && true in was;
    }
  }

  /** It does occur: a special value that becomes finite one step later is integrated as if it had been a
      value. */
  lemma SpecialValueIsIntegrated(special: Special, x: real)
    requires special.cmp.Same(Num(special.value), Num(special.value)) && !special.cmp.Same(Num(x), Num(special.value))
    ensures IntegralRun([[0]], 1, [[Num(special.value)], [Num(x)]], [0.0, 1.0], Some(special), 1.0, 2).0
         == [Num(special.value)]
  {
    var sources, steps := [[Num(special.value)], [Num(x)]], [0.0, 1.0];
    assert AllIndices([[0]]) == [0] by { assert AllIndices([]) == []; }
    var w := Weights([[0]], 1);
    assert w[0] == 1.0;
    assert [0][0] == 0;
    var m1, m2 := ToCount([0], sources[0], Some(special)), ToCount([0], sources[1], Some(special));
    assert m1 == [false] && m2 == [true];
    assert Zeros(1) == [Num(0.0)];
    assert Weighted(Zeros(1), w, m1, 1) == Num(0.0);
    assert Weighted(sources[0], w, m2, 1) == Num(0.0 + 1.0 * special.value);
    assert Targets(Integral(1.0), Zeros(1), [[0]], sources[0], Zeros(1), w, Some(special), 0.0) == [Num(0.0)];
    var first := IntegralRun([[0]], 1, sources, steps, Some(special), 1.0, 1);
    assert IntegralRun([[0]], 1, sources, steps, Some(special), 1.0, 0) == (Zeros(1), Zeros(1));
    assert first == ([Num(0.0)], sources[0]);
    assert Targets(Integral(1.0), [Num(0.0)], [[0]], sources[1], sources[0], w, Some(special), 1.0)
         == [Num(special.value)];
  }
}
