/** The ranking behind a tornado chart: the deviation of every plus and
    minus run from the baseline rate in one year, the spread of each
    parameter, the parameters that move the rate at all, and their order by
    spread, smallest first. */
module Tornado {
  import opened Wrappers
  import opened Tables
  import opened Columns

  /** One bar: a parameter's title, its two deviations in percent, their
      spread, and the parameter's position in the run order. */
  datatype Bar = Bar(title: string, minusDev: real, plusDev: real, spectrum: real, position: nat)

  /** Relative difference of a run's rate from the baseline rate, in percent;
      undefined on a zero baseline. */
  function Deviation(value: real, base: real): (r: Option<real>)
    ensures r.Some? <==> base != 0.0
    ensures r.Some? ==> value == base + base * r.value / 100.0
    ensures r.Some? ==> (r.value == 0.0 <==> value == base)
  {
    if base == 0.0 then None else Some((value - base) / base * 100.0)
  }

  /** The deviations of a list of run rates from one baseline rate. */
  function Deviations(values: seq<real>, base: real): (r: seq<real>)
    requires base != 0.0
    ensures |r| == |values|
    ensures forall l | 0 <= l < |values| :: Deviation(values[l], base) == Some(r[l])
  {
    seq(|values|, l requires 0 <= l < |values| => Deviation(values[l], base).value)
  }

  /** How far a parameter moves the rate in both directions together. */
  function Spectrum(minusDev: real, plusDev: real): (r: real)
    ensures r >= 0.0
    ensures r == 0.0 <==> minusDev == 0.0 && plusDev == 0.0
    ensures r >= minusDev && r >= -minusDev && r >= plusDev && r >= -plusDev
  {
    (if minusDev < 0.0 then -minusDev else minusDev) + (if plusDev < 0.0 then -plusDev else plusDev)
  }

  /** The titles zipped with their deviations and spreads, in run order. */
  function Bars(labels: seq<string>, minusDevs: seq<real>, plusDevs: seq<real>): (r: seq<Bar>)
    requires |minusDevs| == |labels| && |plusDevs| == |labels|
    ensures |r| == |labels|
    ensures forall l | 0 <= l < |labels| ::
              r[l] == Bar(labels[l], minusDevs[l], plusDevs[l], Spectrum(minusDevs[l], plusDevs[l]), l)
  {
    seq(|labels|, l requires 0 <= l < |labels| =>
      Bar(labels[l], minusDevs[l], plusDevs[l], Spectrum(minusDevs[l], plusDevs[l]), l))
  }

  /** Positions strictly increase along the list. */
  predicate InRunOrder(bars: seq<Bar>) {
    forall i, j | 0 <= i < j < |bars| :: bars[i].position < bars[j].position
  }

  /** The bars with a non-zero spread, in the order given. */
  function Moving(bars: seq<Bar>): (r: seq<Bar>)
    ensures |r| <= |bars|
    ensures forall b :: b in r <==> b in bars && b.spectrum > 0.0
  {
    if bars == [] then []
    else if bars[0].spectrum > 0.0 then [bars[0]] + Moving(bars[1..])
    else Moving(bars[1..])
  }

  /** Filtering keeps the relative order of what it keeps. */
  lemma {:induction false} MovingKeepsOrder(bars: seq<Bar>)
    requires InRunOrder(bars)
    ensures InRunOrder(Moving(bars))
  {
    if bars != [] {
      assert InRunOrder(bars[1..]);
      MovingKeepsOrder(bars[1..]);
      var rest := Moving(bars[1..]);
      forall b | b in rest
        ensures bars[0].position < b.position
      {
        var j :| 0 <= j < |bars[1..]| && bars[1..][j] == b;
        assert bars[j + 1] == b;
      }
    }
  }

  /** `x` comes no later than `y` in the ranking: smaller spread first, and
      on equal spread the earlier parameter first. */
  predicate Before(x: Bar, y: Bar) {
    x.spectrum < y.spectrum || (x.spectrum == y.spectrum && x.position <= y.position)
  }

  /** Ascending by spread, ties in run order. */
  predicate Ranked(bars: seq<Bar>) {
    forall i, j | 0 <= i < j < |bars| :: Before(bars[i], bars[j])
  }

  /** Places `x` in front of the first bar it comes before. */
  function Insert(x: Bar, bars: seq<Bar>): (r: seq<Bar>)
    ensures multiset(r) == multiset(bars) + multiset{x}
  {
    if bars == [] then [x]
    else if Before(x, bars[0]) then [x] + bars
    else
      assert bars == [bars[0]] + bars[1..];
      [bars[0]] + Insert(x, bars[1..])
  }

  /** Python's `sorted(..., key=spectrum)`, stable. */
  function Sort(bars: seq<Bar>): (r: seq<Bar>)
    ensures multiset(r) == multiset(bars)
  {
    if bars == [] then []
    else
      assert bars == [bars[0]] + bars[1..];
      Insert(bars[0], Sort(bars[1..]))
  }

  lemma {:induction false} InsertRanked(x: Bar, bars: seq<Bar>)
    requires Ranked(bars)
    ensures Ranked(Insert(x, bars))
  {
    if bars != [] && !Before(x, bars[0]) {
      assert Ranked(bars[1..]);
      InsertRanked(x, bars[1..]);
      var r := Insert(x, bars);
      forall j | 0 < j < |r|
        ensures Before(bars[0], r[j])
      {
        assert r[j] in multiset(Insert(x, bars[1..]));
        if r[j] != x {
          assert r[j] in multiset(bars[1..]);
          var k :| 0 <= k < |bars[1..]| && bars[1..][k] == r[j];
          assert bars[k + 1] == r[j];
        }
      }
    }
  }

  /** The sorted list is ranked and holds exactly the bars it was given. */
  lemma {:induction false} SortRanks(bars: seq<Bar>)
    ensures Ranked(Sort(bars))
    ensures multiset(Sort(bars)) == multiset(bars)
  {
    if bars != [] {
      SortRanks(bars[1..]);
      InsertRanked(bars[0], Sort(bars[1..]));
    }
  }

  /** Every parameter's bar, in run order. */
  function AllBars(labels: seq<string>, base: real, plus: seq<real>, minus: seq<real>): (r: seq<Bar>)
    requires |plus| == |labels| && |minus| == |labels| && base != 0.0
    ensures |r| == |labels| && InRunOrder(r)
    ensures forall l | 0 <= l < |labels| ::
              && r[l].position == l && r[l].title == labels[l]
              && Deviation(minus[l], base) == Some(r[l].minusDev)
              && Deviation(plus[l], base) == Some(r[l].plusDev)
              && (r[l].spectrum > 0.0 <==> minus[l] != base || plus[l] != base)
  {
    Bars(labels, Deviations(minus, base), Deviations(plus, base))
  }

  /** The bars of a tornado chart in plotting order, or `None` when the
      baseline rate is zero and no deviation exists. */
  function Ranking(labels: seq<string>, base: real, plus: seq<real>, minus: seq<real>): (r: Option<seq<Bar>>)
    requires |plus| == |labels| && |minus| == |labels|
    ensures r.Some? <==> base != 0.0
  {
    if base == 0.0 then None
    else Some(Sort(Moving(AllBars(labels, base, plus, minus))))
  }

  /** Sorting keeps exactly the bars it was given. */
  lemma SortMembers(bars: seq<Bar>)
    ensures forall b :: b in Sort(bars) <==> b in bars
  {
    SortRanks(bars);
    forall b
      ensures b in Sort(bars) <==> b in bars
    {
      assert b in Sort(bars) <==> b in multiset(Sort(bars));
      assert b in bars <==> b in multiset(bars);
    }
  }

  /** Two equal entries at different places make a bar occur twice. */
  lemma PairCount(r: seq<Bar>, i: nat, j: nat)
    requires i < j < |r|
    ensures r[i] == r[j] ==> multiset(r)[r[i]] >= 2
  {
    if r[i] == r[j] {
      assert r == r[..i] + [r[i]] + r[i + 1..];
      assert r[i + 1..][j - i - 1] == r[j];
    }
  }

  /** Sorting bars in run order puts no parameter twice: the bars already
      had distinct positions, and sorting keeps each bar's count. */
  lemma SortDistinct(kept: seq<Bar>)
    requires InRunOrder(kept)
    ensures forall i, j | 0 <= i < j < |Sort(kept)| :: Sort(kept)[i].position != Sort(kept)[j].position
  {
    SortMembers(kept);
    SortRanks(kept);
    var r := Sort(kept);
    forall i, j | 0 <= i < j < |r|
      ensures r[i].position != r[j].position
    {
      CountInRunOrder(kept, r[i]);
      PairCount(r, i, j);
      assert r[i] in kept && r[j] in kept;
      var a :| 0 <= a < |kept| && kept[a] == r[i];
      var b :| 0 <= b < |kept| && kept[b] == r[j];
      assert a != b;
    }
  }

  /** What the chart shows: bars rise by spread, parameters of equal spread
      keep their run order, and no parameter appears twice. */
  lemma RankingRanked(labels: seq<string>, base: real, plus: seq<real>, minus: seq<real>)
    requires |plus| == |labels| && |minus| == |labels| && base != 0.0
    ensures var r := Ranking(labels, base, plus, minus).value;
            && Ranked(r)
            && (forall i, j | 0 <= i < j < |r| :: r[i].position != r[j].position)
  {
    var kept := Moving(AllBars(labels, base, plus, minus));
    MovingKeepsOrder(AllBars(labels, base, plus, minus));
    SortRanks(kept);
    SortDistinct(kept);
  }

  /** What the chart shows: each bar is a parameter that moves the rate,
      with its own title and deviations, and every such parameter has a bar. */
  lemma RankingShowsMovers(labels: seq<string>, base: real, plus: seq<real>, minus: seq<real>)
    requires |plus| == |labels| && |minus| == |labels| && base != 0.0
    ensures var r := Ranking(labels, base, plus, minus).value;
            && (forall i | 0 <= i < |r| ::
                  && r[i].position < |labels|
                  && r[i].spectrum > 0.0
                  && r[i].title == labels[r[i].position]
                  && Deviation(minus[r[i].position], base) == Some(r[i].minusDev)
                  && Deviation(plus[r[i].position], base) == Some(r[i].plusDev))
            && (forall l | 0 <= l < |labels| ::
                  (exists i | 0 <= i < |r| :: r[i].position == l) <==> (minus[l] != base || plus[l] != base))
  {
    var bars := AllBars(labels, base, plus, minus);
    var kept := Moving(bars);
    SortMembers(kept);
    var r := Sort(kept);
    forall i | 0 <= i < |r|
      ensures r[i].position < |labels| && r[i] == bars[r[i].position] && r[i].spectrum > 0.0
    {
      assert r[i] in bars;
      var l :| 0 <= l < |bars| && bars[l] == r[i];
    }
    forall l | 0 <= l < |labels|
      ensures (exists i | 0 <= i < |r| :: r[i].position == l) <==> (minus[l] != base || plus[l] != base)
    {
      if minus[l] != base || plus[l] != base {
        assert bars[l] in r;
        var i :| 0 <= i < |r| && r[i] == bars[l];
      }
    }
  }

  /** In a list in run order every bar occurs at most once. */
  lemma {:induction false} CountInRunOrder(bars: seq<Bar>, b: Bar)
    requires InRunOrder(bars)
    ensures multiset(bars)[b] <= 1
  {
    if bars != [] {
      assert bars == [bars[0]] + bars[1..];
      assert InRunOrder(bars[1..]);
      CountInRunOrder(bars[1..], b);
      if bars[0] == b {
        assert b !in bars[1..] by {
          forall k | 0 <= k < |bars[1..]|
            ensures bars[1..][k] != b
          {
            assert bars[k + 1] == bars[1..][k];
          }
        }
      }
    }
  }

  /** One tornado chart of the plotting routine: column `col` in year `t`
      of the run; `None` where a rate is not finite or the baseline rate is
      zero. */
  function ChartAt(labels: seq<string>, closedloop: seq<ClosedLoopYear>, plus: seq<seq<ClosedLoopYear>>,
                   minus: seq<seq<ClosedLoopYear>>, col: Column, t: nat): (r: Option<seq<Bar>>)
    requires t < |closedloop| && |plus| >= |labels| && |minus| >= |labels|
    requires forall l | 0 <= l < |labels| :: t < |plus[l]| && t < |minus[l]|
    ensures r.Some? <==>
              && Value(closedloop[t], col).Some? && Value(closedloop[t], col).value != 0.0
              && (forall l | 0 <= l < |labels| :: Value(plus[l][t], col).Some? && Value(minus[l][t], col).Some?)
  {
    var base := Value(closedloop[t], col);
    if base.None? || exists l | 0 <= l < |labels| :: Value(plus[l][t], col).None? || Value(minus[l][t], col).None? then None
    else
      var up := seq(|labels|, l requires 0 <= l < |labels| => Value(plus[l][t], col).value);
      var down := seq(|labels|, l requires 0 <= l < |labels| => Value(minus[l][t], col).value);
      Ranking(labels, base.value, up, down)
  }
}
