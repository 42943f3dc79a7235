/** The band of closed-loop rates the sensitivity runs span: for each year,
    the largest and the smallest rate among the baseline and every plus and
    minus run, per rate column. */
module Envelope {
  import opened Wrappers
  import opened Tables
  import opened Columns

  /** The larger of three rates, as Python's three-argument `max`. */
  function Max3(a: real, b: real, c: real): (r: real)
    ensures r >= a && r >= b && r >= c
    ensures r == a || r == b || r == c
  {
    if a >= b && a >= c then a else if b >= c then b else c
  }

  /** The smaller of three rates, as Python's three-argument `min`. */
  function Min3(a: real, b: real, c: real): (r: real)
    ensures r <= a && r <= b && r <= c
    ensures r == a || r == b || r == c
  {
    if a <= b && a <= c then a else if b <= c then b else c
  }

  /** Every one of the first `count` runs has a value for each of `years` years. */
  predicate Spans(runs: seq<seq<real>>, count: nat, years: nat)
    requires count <= |runs|
  {
    forall a | 0 <= a < count :: |runs[a]| == years
  }

  /** The upper edge in year `idx` after folding in the first `count` runs. */
  function Upper(base: real, plus: seq<seq<real>>, minus: seq<seq<real>>, idx: nat, count: nat): (r: real)
    requires count <= |plus| && count <= |minus|
    requires forall a | 0 <= a < count :: idx < |plus[a]| && idx < |minus[a]|
    ensures base <= r
  {
    if count == 0 then base
    else Max3(Upper(base, plus, minus, idx, count - 1), plus[count - 1][idx], minus[count - 1][idx])
  }

  /** The lower edge in year `idx` after folding in the first `count` runs. */
  function Lower(base: real, plus: seq<seq<real>>, minus: seq<seq<real>>, idx: nat, count: nat): (r: real)
    requires count <= |plus| && count <= |minus|
    requires forall a | 0 <= a < count :: idx < |plus[a]| && idx < |minus[a]|
    ensures r <= base
  {
    if count == 0 then base
    else Min3(Lower(base, plus, minus, idx, count - 1), plus[count - 1][idx], minus[count - 1][idx])
  }

  /** The upper edge is the maximum: no smaller than the baseline or any
      folded run, and equal to one of them. */
  lemma {:induction false} UpperIsMaximum(base: real, plus: seq<seq<real>>, minus: seq<seq<real>>, idx: nat, count: nat)
    requires count <= |plus| && count <= |minus|
    requires forall a | 0 <= a < count :: idx < |plus[a]| && idx < |minus[a]|
    ensures var u := Upper(base, plus, minus, idx, count);
            && base <= u
            && (forall a | 0 <= a < count :: plus[a][idx] <= u && minus[a][idx] <= u)
            && (u == base || exists a | 0 <= a < count :: u == plus[a][idx] || u == minus[a][idx])
  {
    if count > 0 {
      UpperIsMaximum(base, plus, minus, idx, count - 1);
      var u := Upper(base, plus, minus, idx, count);
      if u != base && u != plus[count - 1][idx] && u != minus[count - 1][idx] {
        assert u == Upper(base, plus, minus, idx, count - 1);
      }
    }
  }

  /** The lower edge is the minimum: no larger than the baseline or any
      folded run, and equal to one of them. */
  lemma {:induction false} LowerIsMinimum(base: real, plus: seq<seq<real>>, minus: seq<seq<real>>, idx: nat, count: nat)
    requires count <= |plus| && count <= |minus|
    requires forall a | 0 <= a < count :: idx < |plus[a]| && idx < |minus[a]|
    ensures var l := Lower(base, plus, minus, idx, count);
            && l <= base
            && (forall a | 0 <= a < count :: l <= plus[a][idx] && l <= minus[a][idx])
            && (l == base || exists a | 0 <= a < count :: l == plus[a][idx] || l == minus[a][idx])
  {
    if count > 0 {
      LowerIsMinimum(base, plus, minus, idx, count - 1);
      var l := Lower(base, plus, minus, idx, count);
      if l != base && l != plus[count - 1][idx] && l != minus[count - 1][idx] {
        assert l == Lower(base, plus, minus, idx, count - 1);
      }
    }
  }

  /** The loops filling `_max` and `_min` for one rate column: both start as
      the baseline series, and year by year every plus and minus run widens
      them. Python's `max`/`min` compare the baseline entry first, then the
      plus run, then the minus run. */
  method Envelope(baseline: seq<real>, plus: seq<seq<real>>, minus: seq<seq<real>>)
      returns (lo: seq<real>, hi: seq<real>)
    requires |plus| <= |minus|
    requires Spans(plus, |plus|, |baseline|) && Spans(minus, |plus|, |baseline|)
    ensures |lo| == |baseline| && |hi| == |baseline|
    ensures forall idx | 0 <= idx < |baseline| ::
              && hi[idx] == Upper(baseline[idx], plus, minus, idx, |plus|)
              && lo[idx] == Lower(baseline[idx], plus, minus, idx, |plus|)
    ensures forall idx | 0 <= idx < |baseline| :: lo[idx] <= baseline[idx] <= hi[idx]
    ensures forall idx, a | 0 <= idx < |baseline| && 0 <= a < |plus| ::
              && lo[idx] <= plus[a][idx] <= hi[idx]
              && lo[idx] <= minus[a][idx] <= hi[idx]
    ensures |plus| == 0 ==> lo == baseline && hi == baseline
  {
    var count := |plus|;
    var years := |baseline|;
    var top := new real[years](i requires 0 <= i < years => baseline[i]);
    var bottom := new real[years](i requires 0 <= i < years => baseline[i]);
    for idx := 0 to years
      invariant forall i | 0 <= i < idx ::
                  && top[i] == Upper(baseline[i], plus, minus, i, count)
                  && bottom[i] == Lower(baseline[i], plus, minus, i, count)
      invariant forall i | idx <= i < years :: top[i] == baseline[i] && bottom[i] == baseline[i]
    {
      for a := 0 to count
        invariant top[idx] == Upper(baseline[idx], plus, minus, idx, a)
        invariant bottom[idx] == Lower(baseline[idx], plus, minus, idx, a)
        invariant forall i | 0 <= i < idx ::
                    && top[i] == Upper(baseline[i], plus, minus, i, count)
                    && bottom[i] == Lower(baseline[i], plus, minus, i, count)
        invariant forall i | idx < i < years :: top[i] == baseline[i] && bottom[i] == baseline[i]
      {
        top[idx] := Max3(top[idx], plus[a][idx], minus[a][idx]);
        bottom[idx] := Min3(bottom[idx], plus[a][idx], minus[a][idx]);
      }
    }
    lo, hi := bottom[..], top[..];
    forall idx | 0 <= idx < years
      ensures lo[idx] <= baseline[idx] <= hi[idx]
      ensures forall a | 0 <= a < count :: lo[idx] <= plus[a][idx] <= hi[idx] && lo[idx] <= minus[a][idx] <= hi[idx]
    {
      UpperIsMaximum(baseline[idx], plus, minus, idx, count);
      LowerIsMinimum(baseline[idx], plus, minus, idx, count);
    }
  }

  /** One entry of `results_range`. */
  datatype Band = Band(min: seq<real>, baseline: seq<real>, max: seq<real>)

  /** The key `results_range` files a column under. */
  function Key(col: Column): string {
    match col
    case Rate(PP) => "PP"
    case Rate(PA) => "PA"
    case Rate(PC) => "PC"
    case Rate(ABS) => "ABS"
    case TotalRate => "total"
  }

  /** The rate column of the first `count` runs, each as a series. */
  function RunSeries(runs: seq<seq<ClosedLoopYear>>, count: nat, col: Column): (r: seq<seq<real>>)
    requires count <= |runs|
    requires forall a | 0 <= a < count :: Defined(runs[a], col)
    ensures |r| == count && forall a | 0 <= a < count :: r[a] == Series(runs[a], col)
  {
    seq(count, a requires 0 <= a < count && Defined(runs[a], col) => Series(runs[a], col))
  }

  /** The closed-loop rates of the baseline and the runs are finite in every
      column the envelope reads, and every run covers the baseline's years. */
  predicate Plottable(closedloop: seq<ClosedLoopYear>, plus: seq<seq<ClosedLoopYear>>, minus: seq<seq<ClosedLoopYear>>)
  {
    && |plus| <= |minus|
    && (forall col | col in AllColumns :: Defined(closedloop, col))
    && (forall a | 0 <= a < |plus| ::
          && |plus[a]| == |closedloop| && |minus[a]| == |closedloop|
          && (forall col | col in AllColumns :: Defined(plus[a], col) && Defined(minus[a], col)))
  }

  /** The band of one column: its baseline series and the envelope of the
      runs around it. */
  function BandOf(closedloop: seq<ClosedLoopYear>, plus: seq<seq<ClosedLoopYear>>, minus: seq<seq<ClosedLoopYear>>, col: Column): (b: Band)
    requires Plottable(closedloop, plus, minus) && col in AllColumns
    ensures |b.min| == |b.baseline| == |b.max| == |closedloop|
    ensures b.baseline == Series(closedloop, col)
    ensures forall idx | 0 <= idx < |closedloop| :: b.min[idx] <= b.baseline[idx] <= b.max[idx]
  {
    var base := Series(closedloop, col);
    var up := RunSeries(plus, |plus|, col);
    var down := RunSeries(minus, |plus|, col);
    var lo := seq(|base|, idx requires 0 <= idx < |base| => Lower(base[idx], up, down, idx, |up|));
    var hi := seq(|base|, idx requires 0 <= idx < |base| => Upper(base[idx], up, down, idx, |up|));
    assert forall idx | 0 <= idx < |base| :: lo[idx] <= base[idx] <= hi[idx] by {
      forall idx | 0 <= idx < |base|
        ensures lo[idx] <= base[idx] <= hi[idx]
      {
        UpperIsMaximum(base[idx], up, down, idx, |up|);
        LowerIsMinimum(base[idx], up, down, idx, |up|);
      }
    }
    Band(lo, base, hi)
  }

  /** One block of the plotting routine: the envelope loops for one column
      and the entry they make. */
  method ColumnBand(closedloop: seq<ClosedLoopYear>, plus: seq<seq<ClosedLoopYear>>, minus: seq<seq<ClosedLoopYear>>, col: Column)
      returns (b: Band)
    requires Plottable(closedloop, plus, minus) && col in AllColumns
    ensures b == BandOf(closedloop, plus, minus, col)
  {
    var base := Series(closedloop, col);
    var up := RunSeries(plus, |plus|, col);
    var down := RunSeries(minus, |plus|, col);
    var lo, hi := Envelope(base, up, down);
    b := Band(lo, base, hi);
  }

  /** `results_range`: the band of every rate column, filed under its key. */
  method ResultsRange(closedloop: seq<ClosedLoopYear>, plus: seq<seq<ClosedLoopYear>>, minus: seq<seq<ClosedLoopYear>>)
      returns (r: map<string, Band>)
    requires Plottable(closedloop, plus, minus)
    ensures r.Keys == {"PP", "PA", "PC", "ABS", "total"}
    ensures forall col | col in AllColumns :: r[Key(col)] == BandOf(closedloop, plus, minus, col)
  {
    var pp := ColumnBand(closedloop, plus, minus, Rate(PP));
    var pa := ColumnBand(closedloop, plus, minus, Rate(PA));
    var pc := ColumnBand(closedloop, plus, minus, Rate(PC));
    var abs := ColumnBand(closedloop, plus, minus, Rate(ABS));
    var total := ColumnBand(closedloop, plus, minus, TotalRate);
    r := map["PP" := pp, "PA" := pa, "PC" := pc, "ABS" := abs, "total" := total];
    forall col | col in AllColumns
      ensures r[Key(col)] == BandOf(closedloop, plus, minus, col)
    {
      match col
      case Rate(PP) => assert r["PP"] == pp;
      case Rate(PA) => assert r["PA"] == pa;
      case Rate(PC) => assert r["PC"] == pc;
      case Rate(ABS) => assert r["ABS"] == abs;
      case TotalRate => assert r["total"] == total;
    }
  }
}
