/** The input change behind one run of the sensitivity analysis: a copy of one
    input table in which one field is scaled, for one vehicle or for every
    vehicle-independent row, in every year of the run. */
module Perturbation {
  import opened Tables
  import opened Fleet
  import opened Parameters

  /** The value a run writes: `v (1 + s)` on the plus side, capped at 100 for
      a percentage, and `v (1 - s)` on the minus side, never capped. */
  function Adjust(v: real, s: real, plus: bool, capped: bool): (r: real)
    ensures plus && capped ==> r <= 100.0 && r <= v * (1.0 + s) && (v * (1.0 + s) <= 100.0 ==> r == v * (1.0 + s))
  {
    if !plus then v * (1.0 - s)
    else if capped then Min(v * (1.0 + s), 100.0)
    else v * (1.0 + s)
  }

  /** Total masses, dismantled masses and the CAGR are not percentages of a
      whole; every other perturbed field is capped at 100 on the plus side. */
  predicate Capped(c: Param) {
    !(c.TotalMass? || c.DismantlingMass? || c.Cagr?)
  }

  function VehicleEdit(c: Param, s: real, plus: bool): VehicleSpec -> VehicleSpec {
    match c
    case TotalMass(_) => (x: VehicleSpec) => x.(totalMass := Adjust(x.totalMass, s, plus, false))
    case Content(PlasticShare, _) => (x: VehicleSpec) => x.(plasticContent := Adjust(x.plasticContent, s, plus, true))
    case Content(PolymerShare(p), _) => (x: VehicleSpec) => x.(content := x.content.Set(p, Adjust(x.content.Get(p), s, plus, true)))
    case _ => (x: VehicleSpec) => x
  }

  function LossEdit(f: LossField, s: real, plus: bool): LossRates -> LossRates {
    match f
    case Exports => (x: LossRates) => x.(exports := Adjust(x.exports, s, plus, true))
    case UnknownWhereabouts => (x: LossRates) => x.(unknownWhereabouts := Adjust(x.unknownWhereabouts, s, plus, true))
  }

  function PolymerEdit(p: Polymer, s: real, plus: bool, capped: bool): PerPolymer<real> -> PerPolymer<real> {
    (x: PerPolymer<real>) => x.Set(p, Adjust(x.Get(p), s, plus, capped))
  }

  function ProductionEdit(c: Param, s: real, plus: bool): ProductionSpec -> ProductionSpec {
    match c
    case ProductionEfficiency(p) => (x: ProductionSpec) => x.(efficiency := PolymerEdit(p, s, plus, true)(x.efficiency))
    case MaxShare(p) => (x: ProductionSpec) => x.(maxShare := PolymerEdit(p, s, plus, true)(x.maxShare))
    case _ => (x: ProductionSpec) => x
  }

  /** `t` with the rows of vehicle `i` for the years `from` to `upTo` replaced by
      `f` of the original row, one year at a time. */
  function RewriteCells<V>(t: map<(int, int), V>, i: int, f: V -> V, from: int, upTo: int): map<(int, int), V>
    requires forall year | from <= year <= upTo :: (i, year) in t
    decreases upTo - from
  {
    if upTo < from then t else RewriteCells(t, i, f, from, upTo - 1)[(i, upTo) := f(t[(i, upTo)])]
  }

  /** `t` with the rows of the years `from` to `upTo` replaced by `f` of the original row. */
  function RewriteYears<V>(t: map<int, V>, f: V -> V, from: int, upTo: int): map<int, V>
    requires forall year | from <= year <= upTo :: year in t
    decreases upTo - from
  {
    if upTo < from then t else RewriteYears(t, f, from, upTo - 1)[upTo := f(t[upTo])]
  }

  /** Cell by cell: the same keys, the targeted rows edited, every other row as it was. */
  lemma {:induction false} RewriteCellsAt<V>(t: map<(int, int), V>, i: int, f: V -> V, from: int, upTo: int, id: int, year: int)
    requires forall y | from <= y <= upTo :: (i, y) in t
    ensures var r := RewriteCells(t, i, f, from, upTo);
            && ((id, year) in r <==> (id, year) in t)
            && ((id, year) in t ==> r[(id, year)] == if id == i && from <= year <= upTo then f(t[(id, year)]) else t[(id, year)])
    decreases upTo - from
  {
    if upTo >= from {
      RewriteCellsAt(t, i, f, from, upTo - 1, id, year);
    }
  }

  lemma {:induction false} RewriteYearsAt<V>(t: map<int, V>, f: V -> V, from: int, upTo: int, year: int)
    requires forall y | from <= y <= upTo :: y in t
    ensures var r := RewriteYears(t, f, from, upTo);
            && (year in r <==> year in t)
            && (year in t ==> r[year] == if from <= year <= upTo then f(t[year]) else t[year])
    decreases upTo - from
  {
    if upTo >= from {
      RewriteYearsAt(t, f, from, upTo - 1, year);
    }
  }

  /** Rewriting rows with an edit that leaves them as they are changes nothing. */
  lemma {:induction false} RewriteCellsUnchanged<V>(t: map<(int, int), V>, i: int, f: V -> V, from: int, upTo: int)
    requires forall y | from <= y <= upTo :: (i, y) in t
    requires forall y | from <= y <= upTo :: f(t[(i, y)]) == t[(i, y)]
    ensures RewriteCells(t, i, f, from, upTo) == t
    decreases upTo - from
  {
    if upTo >= from {
      RewriteCellsUnchanged(t, i, f, from, upTo - 1);
    }
  }

  lemma {:induction false} RewriteYearsUnchanged<V>(t: map<int, V>, f: V -> V, from: int, upTo: int)
    requires forall y | from <= y <= upTo :: y in t
    requires forall y | from <= y <= upTo :: f(t[y]) == t[y]
    ensures RewriteYears(t, f, from, upTo) == t
    decreases upTo - from
  {
    if upTo >= from {
      RewriteYearsUnchanged(t, f, from, upTo - 1);
    }
  }

  /** Every key a perturbation run reads exists: those of a full calculation,
      and every year of the loss and recycling tables, which the runs read even
      without vehicles. */
  predicate SaCovers(sc: Scenario) {
    && Covers(sc)
    && CoversYears(sc.loss, sc.cfg.startYear, sc.cfg.endYear)
    && CoversYears(sc.recycling, sc.cfg.startYear, sc.cfg.endYear)
  }

  /** The scenario of one run: the input `c` belongs to, copied and edited. */
  function Perturbed(sc: Scenario, c: Param, s: real, plus: bool): Scenario
    requires SaCovers(sc) && InCatalogue(sc.cfg.nVehicles, c)
  {
    var from, to := sc.cfg.startYear, sc.cfg.endYear;
    match c
    case TotalMass(i) => sc.(vehicles := RewriteCells(sc.vehicles, i, VehicleEdit(c, s, plus), from, to))
    case Content(_, i) => sc.(vehicles := RewriteCells(sc.vehicles, i, VehicleEdit(c, s, plus), from, to))
    case Cagr => sc.(cagr := Adjust(sc.cagr, s, plus, false))
    case Loss(f) => sc.(loss := RewriteYears(sc.loss, LossEdit(f, s, plus), from, to))
    case DismantlingMass(p, i) => sc.(dismantling := RewriteCells(sc.dismantling, i, PolymerEdit(p, s, plus, false), from, to))
    case RecyclingEfficiency(p) => sc.(recycling := RewriteYears(sc.recycling, PolymerEdit(p, s, plus, true), from, to))
    case ProductionEfficiency(_) => sc.(production := RewriteYears(sc.production, ProductionEdit(c, s, plus), from, to))
    case MaxShare(_) => sc.(production := RewriteYears(sc.production, ProductionEdit(c, s, plus), from, to))
  }

  // ------------------------------------------------------------ properties

  /** On a non-negative value and sensitivity the minus side never exceeds the
      plus side, and the value lies between them when it is within the cap. */
  lemma AdjustBrackets(v: real, s: real, capped: bool)
    requires v >= 0.0 && s >= 0.0
    requires capped ==> v <= 100.0
    ensures Adjust(v, s, false, capped) <= v <= Adjust(v, s, true, capped)
  {
    assert v * s >= 0.0;
  }

  /** A run changes one input only: the registrations, the density, the
      configuration and the number of historical years are always the
      original ones, and every table other than the targeted one is the
      original table. */
  lemma PerturbedTouchesOneInput(sc: Scenario, c: Param, s: real, plus: bool)
    requires SaCovers(sc) && InCatalogue(sc.cfg.nVehicles, c)
    ensures var r := Perturbed(sc, c, s, plus);
            && r.cfg == sc.cfg && r.registrations == sc.registrations && r.pdf == sc.pdf && r.nInitYears == sc.nInitYears
            && (!(c.TotalMass? || c.Content?) ==> r.vehicles == sc.vehicles)
            && (!c.Cagr? ==> r.cagr == sc.cagr)
            && (!c.Loss? ==> r.loss == sc.loss)
            && (!c.DismantlingMass? ==> r.dismantling == sc.dismantling)
            && (!c.RecyclingEfficiency? ==> r.recycling == sc.recycling)
            && (!(c.ProductionEfficiency? || c.MaxShare?) ==> r.production == sc.production)
  {
  }

  /** A per-vehicle run edits only vehicle `i`'s rows of the run's years, in
      the vehicle or dismantling table, and keeps the table's keys. */
  lemma PerturbedVehicleRows(sc: Scenario, c: Param, s: real, plus: bool, id: int, year: int)
    requires SaCovers(sc) && InCatalogue(sc.cfg.nVehicles, c)
    requires c.TotalMass? || c.Content? || c.DismantlingMass?
    ensures var r := Perturbed(sc, c, s, plus);
            var target := id == c.i && sc.cfg.startYear <= year <= sc.cfg.endYear;
            && ((id, year) in r.vehicles <==> (id, year) in sc.vehicles)
            && ((id, year) in r.dismantling <==> (id, year) in sc.dismantling)
            && (c.DismantlingMass? && (id, year) in sc.dismantling ==>
                  r.dismantling[(id, year)] == if target then PolymerEdit(c.p, s, plus, false)(sc.dismantling[(id, year)])
                                               else sc.dismantling[(id, year)])
            && (!c.DismantlingMass? && (id, year) in sc.vehicles ==>
                  r.vehicles[(id, year)] == if target then VehicleEdit(c, s, plus)(sc.vehicles[(id, year)])
                                            else sc.vehicles[(id, year)])
  {
    var from, to := sc.cfg.startYear, sc.cfg.endYear;
    if c.DismantlingMass? {
      RewriteCellsAt(sc.dismantling, c.i, PolymerEdit(c.p, s, plus, false), from, to, id, year);
    } else {
      RewriteCellsAt(sc.vehicles, c.i, VehicleEdit(c, s, plus), from, to, id, year);
    }
  }

  /** A run on a year-keyed table edits every year of the run and keeps the keys. */
  lemma PerturbedYearRows(sc: Scenario, c: Param, s: real, plus: bool, year: int)
    requires SaCovers(sc) && InCatalogue(sc.cfg.nVehicles, c)
    ensures var r := Perturbed(sc, c, s, plus);
            var target := sc.cfg.startYear <= year <= sc.cfg.endYear;
            && (year in r.loss <==> year in sc.loss)
            && (year in r.recycling <==> year in sc.recycling)
            && (year in r.production <==> year in sc.production)
            && (c.Loss? && year in sc.loss ==>
                  r.loss[year] == if target then LossEdit(c.loss, s, plus)(sc.loss[year]) else sc.loss[year])
            && (c.RecyclingEfficiency? && year in sc.recycling ==>
                  r.recycling[year] == if target then PolymerEdit(c.p, s, plus, true)(sc.recycling[year]) else sc.recycling[year])
            && ((c.ProductionEfficiency? || c.MaxShare?) && year in sc.production ==>
                  r.production[year] == if target then ProductionEdit(c, s, plus)(sc.production[year]) else sc.production[year])
  {
    var from, to := sc.cfg.startYear, sc.cfg.endYear;
    match c
    case Loss(f) => RewriteYearsAt(sc.loss, LossEdit(f, s, plus), from, to, year);
    case RecyclingEfficiency(p) => RewriteYearsAt(sc.recycling, PolymerEdit(p, s, plus, true), from, to, year);
    case ProductionEfficiency(_) => RewriteYearsAt(sc.production, ProductionEdit(c, s, plus), from, to, year);
    case MaxShare(_) => RewriteYearsAt(sc.production, ProductionEdit(c, s, plus), from, to, year);
    case _ =>
  }

  /** A perturbed scenario has every key the original has, so a run fails
      exactly when the baseline does. */
  lemma PerturbedCovers(sc: Scenario, c: Param, s: real, plus: bool)
    requires SaCovers(sc) && InCatalogue(sc.cfg.nVehicles, c)
    ensures SaCovers(Perturbed(sc, c, s, plus))
  {
    var r := Perturbed(sc, c, s, plus);
    var cfg := sc.cfg;
    forall id: int, year: int | 1 <= id <= cfg.nVehicles && cfg.startYear <= year <= cfg.endYear
      ensures (id, year) in r.vehicles && (id, year) in r.dismantling
    {
      if c.TotalMass? || c.Content? || c.DismantlingMass? {
        PerturbedVehicleRows(sc, c, s, plus, id, year);
      }
    }
    forall year: int | cfg.startYear <= year <= cfg.endYear
      ensures year in r.loss && year in r.recycling && year in r.production
    {
      PerturbedYearRows(sc, c, s, plus, year);
    }
  }

  predicate AtMost100(q: PerPolymer<real>) {
    q.pp <= 100.0 && q.pa <= 100.0 && q.pc <= 100.0 && q.abs <= 100.0
  }

  /** Every percentage a run may cap lies at or below 100 in the original inputs. */
  predicate PercentagesAtMost100(sc: Scenario) {
    var cfg := sc.cfg;
    && (forall id, year | 1 <= id <= cfg.nVehicles && cfg.startYear <= year <= cfg.endYear ::
          VehicleAt(sc.vehicles, id, year).plasticContent <= 100.0 && AtMost100(VehicleAt(sc.vehicles, id, year).content))
    && (forall year | cfg.startYear <= year <= cfg.endYear ::
          LossAt(sc.loss, year).exports <= 100.0 && LossAt(sc.loss, year).unknownWhereabouts <= 100.0)
    && (forall year | cfg.startYear <= year <= cfg.endYear :: AtMost100(RecyclingAt(sc.recycling, year)))
    && (forall year | cfg.startYear <= year <= cfg.endYear ::
          AtMost100(ProductionAt(sc.production, year).efficiency) && AtMost100(ProductionAt(sc.production, year).maxShare))
  }

  lemma AdjustZero(v: real, plus: bool, capped: bool)
    requires plus && capped ==> v <= 100.0
    ensures Adjust(v, 0.0, plus, capped) == v
  {
  }

  lemma PolymerEditZero(q: PerPolymer<real>, p: Polymer, plus: bool, capped: bool)
    requires plus && capped ==> AtMost100(q)
    ensures PolymerEdit(p, 0.0, plus, capped)(q) == q
  {
    AdjustZero(q.Get(p), plus, capped);
  }

  /** At zero sensitivity, and with every capped percentage at most 100, a run's
      inputs are the original inputs. */
  lemma ZeroSensitivityUnchanged(sc: Scenario, c: Param, plus: bool)
    requires SaCovers(sc) && InCatalogue(sc.cfg.nVehicles, c)
    requires PercentagesAtMost100(sc)
    ensures Perturbed(sc, c, 0.0, plus) == sc
  {
    var from, to := sc.cfg.startYear, sc.cfg.endYear;
    match c
    case TotalMass(i) =>
      RewriteCellsUnchanged(sc.vehicles, i, VehicleEdit(c, 0.0, plus), from, to);
    case Content(f, i) =>
      forall y | from <= y <= to
        ensures VehicleEdit(c, 0.0, plus)(sc.vehicles[(i, y)]) == sc.vehicles[(i, y)]
      {
        var x := sc.vehicles[(i, y)];
        assert VehicleAt(sc.vehicles, i, y) == x;
        match f
        case PlasticShare => AdjustZero(x.plasticContent, plus, true);
        case PolymerShare(p) =>
          AdjustZero(x.content.Get(p), plus, true);
          assert x.content.Set(p, x.content.Get(p)) == x.content;
      }
      RewriteCellsUnchanged(sc.vehicles, i, VehicleEdit(c, 0.0, plus), from, to);
    case Cagr =>
    case Loss(f) =>
      forall y | from <= y <= to
        ensures LossEdit(f, 0.0, plus)(sc.loss[y]) == sc.loss[y]
      {
        assert LossAt(sc.loss, y) == sc.loss[y];
      }
      RewriteYearsUnchanged(sc.loss, LossEdit(f, 0.0, plus), from, to);
    case DismantlingMass(p, i) =>
      forall y | from <= y <= to
        ensures PolymerEdit(p, 0.0, plus, false)(sc.dismantling[(i, y)]) == sc.dismantling[(i, y)]
      {
        PolymerEditZero(sc.dismantling[(i, y)], p, plus, false);
      }
      RewriteCellsUnchanged(sc.dismantling, i, PolymerEdit(p, 0.0, plus, false), from, to);
    case RecyclingEfficiency(p) =>
      forall y | from <= y <= to
        ensures PolymerEdit(p, 0.0, plus, true)(sc.recycling[y]) == sc.recycling[y]
      {
        assert RecyclingAt(sc.recycling, y) == sc.recycling[y];
        PolymerEditZero(sc.recycling[y], p, plus, true);
      }
      RewriteYearsUnchanged(sc.recycling, PolymerEdit(p, 0.0, plus, true), from, to);
    case ProductionEfficiency(p) =>
      forall y | from <= y <= to
        ensures ProductionEdit(c, 0.0, plus)(sc.production[y]) == sc.production[y]
      {
        assert ProductionAt(sc.production, y) == sc.production[y];
        PolymerEditZero(sc.production[y].efficiency, p, plus, true);
      }
      RewriteYearsUnchanged(sc.production, ProductionEdit(c, 0.0, plus), from, to);
    case MaxShare(p) =>
      forall y | from <= y <= to
        ensures ProductionEdit(c, 0.0, plus)(sc.production[y]) == sc.production[y]
      {
        assert ProductionAt(sc.production, y) == sc.production[y];
        PolymerEditZero(sc.production[y].maxShare, p, plus, true);
      }
      RewriteYearsUnchanged(sc.production, ProductionEdit(c, 0.0, plus), from, to);
  }

  // ------------------------------------------------------------ the methods

  /** The year loop of a per-vehicle run: the copy's rows of vehicle `i` get
      `f` of the original's rows. */
  method EditVehicleRows<V>(t: map<(int, int), V>, i: int, f: V -> V, from: int, to: int) returns (r: map<(int, int), V>)
    requires forall year | from <= year <= to :: (i, year) in t
    ensures r == RewriteCells(t, i, f, from, to)
  {
    r := t;
    var j := from;
    while j <= to
      invariant from <= j <= (if to < from then from else to + 1)
      invariant r == RewriteCells(t, i, f, from, j - 1)
    {
      r := r[(i, j) := f(t[(i, j)])];
      j := j + 1;
    }
  }

  /** The year loop of a run on a year-keyed table. */
  method EditYearRows<V>(t: map<int, V>, f: V -> V, from: int, to: int) returns (r: map<int, V>)
    requires forall year | from <= year <= to :: year in t
    ensures r == RewriteYears(t, f, from, to)
  {
    r := t;
    var j := from;
    while j <= to
      invariant from <= j <= (if to < from then from else to + 1)
      invariant r == RewriteYears(t, f, from, j - 1)
    {
      r := r[j := f(t[j])];
      j := j + 1;
    }
  }

  /** The inputs of one run: the targeted table copied and edited, all other
      inputs passed on as they are. */
  method PerturbScenario(sc: Scenario, c: Param, s: real, plus: bool) returns (r: Scenario)
    requires SaCovers(sc) && InCatalogue(sc.cfg.nVehicles, c)
    ensures r == Perturbed(sc, c, s, plus)
  {
    var from, to := sc.cfg.startYear, sc.cfg.endYear;
    match c {
      case TotalMass(i) =>
        var t := EditVehicleRows(sc.vehicles, i, VehicleEdit(c, s, plus), from, to);
        r := sc.(vehicles := t);
      case Content(_, i) =>
        var t := EditVehicleRows(sc.vehicles, i, VehicleEdit(c, s, plus), from, to);
        r := sc.(vehicles := t);
      case Cagr =>
        r := sc.(cagr := Adjust(sc.cagr, s, plus, false));
      case Loss(f) =>
        var t := EditYearRows(sc.loss, LossEdit(f, s, plus), from, to);
        r := sc.(loss := t);
      case DismantlingMass(p, i) =>
        var t := EditVehicleRows(sc.dismantling, i, PolymerEdit(p, s, plus, false), from, to);
        r := sc.(dismantling := t);
      case RecyclingEfficiency(p) =>
        var t := EditYearRows(sc.recycling, PolymerEdit(p, s, plus, true), from, to);
        r := sc.(recycling := t);
      case ProductionEfficiency(_) =>
        var t := EditYearRows(sc.production, ProductionEdit(c, s, plus), from, to);
        r := sc.(production := t);
      case MaxShare(_) =>
        var t := EditYearRows(sc.production, ProductionEdit(c, s, plus), from, to);
        r := sc.(production := t);
    }
  }
}
