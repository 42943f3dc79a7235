/** Stage 3 of the calculation: the end-of-life split (`calc_eol`). It works in
    place on the two fleet tables in three passes: exits recomputed from the
    drop in stock, their split into exports and unknown whereabouts by the
    year's loss rates, and the rest that enters recycling.

    The stage reads only the stock of the tables it is given, so it is stated
    for any input tables `d` (`fleet_detail`) and `f` (`fleet`); the lemmas at
    the end instantiate them with the tables of the fleet stage. */
module EndOfLife {
  import opened Tables
  import opened Fleet

  function Add(a: Flows, b: Flows): Flows {
    Flows(a.stock + b.stock, a.elvsExit + b.elvsExit, a.elvsExport + b.elvsExport,
          a.elvsUnknown + b.elvsUnknown, a.elvsRecycling + b.elvsRecycling)
  }

  /** The cell `fleet_detail[v, r, n]` once `calc_eol` is done. In a year after
      the registration year the exits are the drop in stock since the year
      before, split by the loss rates of the current year, the rest entering
      recycling; in the registration year the exits are reset to zero; cells of
      cohorts not yet registered are left alone. */
  function EolCell(cfg: Config, d: DetailFn, loss: LossTable, v: nat, r: nat, n: nat): (e: Flows)
    ensures e.stock == d(v, r, n).stock
    ensures r > n ==> e == d(v, r, n)
  {
    var c := d(v, r, n);
    if r < n then
      var exit := d(v, r, n - 1).stock - c.stock;
      var rates := LossAt(loss, cfg.startYear + n);
      var exported := exit * rates.exports / 100.0;
      var unknown := exit * rates.unknownWhereabouts / 100.0;
      Flows(c.stock, exit, exported, unknown, exit - exported - unknown)
    else if r == n then c.(elvsExit := 0.0)
    else c
  }

  /** The whole `fleet_detail` table once `calc_eol` is done. */
  function EolTable(cfg: Config, d: DetailFn, loss: LossTable): DetailFn {
    (v: nat, r: nat, n: nat) => EolCell(cfg, d, loss, v, r, n)
  }

  /** The flows of vehicle `v` in year `n` summed over the registration years below `k`. */
  function FlowSum(cfg: Config, d: DetailFn, loss: LossTable, v: nat, n: nat, k: nat): Flows
    decreases k
  {
    if k == 0 then NoFlows else Add(FlowSum(cfg, d, loss, v, n, k - 1), EolCell(cfg, d, loss, v, k - 1, n))
  }

  /** The row `fleet[v, n]` once `calc_eol` is done: the stock it had, and the
      flows of every cohort registered before year `n`. */
  function EolFleetCell(cfg: Config, d: DetailFn, f: FleetFn, loss: LossTable, v: nat, n: nat): Flows {
    FlowSum(cfg, d, loss, v, n, n).(stock := f(v, n).stock)
  }

  // ------------------------------------------------------------ properties

  /** Every cell splits its exits without loss: exports, unknown whereabouts
      and recycling add up to the exits. */
  lemma CellSplitConserves(cfg: Config, d: DetailFn, loss: LossTable, v: nat, r: nat, n: nat)
    requires r < n
    ensures var e := EolCell(cfg, d, loss, v, r, n);
            e.elvsExport + e.elvsUnknown + e.elvsRecycling == e.elvsExit
  {
  }

  /** The yearly totals of a vehicle split their exits without loss too. */
  lemma {:induction false} FleetSplitConserves(cfg: Config, d: DetailFn, loss: LossTable, v: nat, n: nat, k: nat)
    requires k <= n
    ensures var e := FlowSum(cfg, d, loss, v, n, k);
            e.elvsExport + e.elvsUnknown + e.elvsRecycling == e.elvsExit
    decreases k
  {
    if k > 0 {
      FleetSplitConserves(cfg, d, loss, v, n, k - 1);
      CellSplitConserves(cfg, d, loss, v, k - 1, n);
    }
  }

  /** The stock of the cohorts registered before `n` is last year's stock of
      those cohorts minus this year's exits. */
  lemma {:induction false} OlderCohortsBalance(cfg: Config, d: DetailFn, loss: LossTable, v: nat, n: nat, k: nat)
    requires 0 < n && k <= n
    ensures StockOf(d, v, n, k) == StockOf(d, v, n - 1, k) - FlowSum(cfg, d, loss, v, n, k).elvsExit
    decreases k
  {
    if k > 0 {
      OlderCohortsBalance(cfg, d, loss, v, n, k - 1);
    }
  }

  /** Stock-flow balance of the fleet: this year's stock is last year's stock,
      minus this year's exits, plus what is left of this year's registrations. */
  lemma {:induction false} StockFlowBalance(cfg: Config, regs: RegistrationTable, pdf: Density, loss: LossTable, v: nat, n: nat)
    requires n > 0
    ensures var d, f := DetailOf(cfg, regs, pdf), FleetOf(cfg, regs, pdf);
            EolFleetCell(cfg, d, f, loss, v, n).stock ==
            EolFleetCell(cfg, d, f, loss, v, n - 1).stock
            - EolFleetCell(cfg, d, f, loss, v, n).elvsExit
            + EolCell(cfg, d, loss, v, n, n).stock
  {
    var d := DetailOf(cfg, regs, pdf);
    OlderCohortsBalance(cfg, d, loss, v, n, n);
  }

  /** For a cohort past its registration year, the exits recomputed from the
      stock drop are exactly the exits the fleet stage stored. */
  lemma RecomputedExitMatches(cfg: Config, regs: RegistrationTable, pdf: Density, loss: LossTable, v: nat, r: nat, n: nat)
    requires r < n
    ensures EolCell(cfg, DetailOf(cfg, regs, pdf), loss, v, r, n).elvsExit == DetailCell(cfg, regs, pdf, v, r, n).elvsExit
  {
  }

  /** With a stock that does not grow and loss rates that are percentages
      adding up to at most 100, every flow the split writes is non-negative. */
  lemma SplitNonNegative(cfg: Config, d: DetailFn, loss: LossTable, v: nat, r: nat, n: nat)
    requires r < n
    requires d(v, r, n).stock <= d(v, r, n - 1).stock
    requires var rates := LossAt(loss, cfg.startYear + n);
             rates.exports >= 0.0 && rates.unknownWhereabouts >= 0.0 && rates.exports + rates.unknownWhereabouts <= 100.0
    ensures var e := EolCell(cfg, d, loss, v, r, n);
            e.elvsExit >= 0.0 && e.elvsExport >= 0.0 && e.elvsUnknown >= 0.0 && e.elvsRecycling >= 0.0
  {
    var rates := LossAt(loss, cfg.startYear + n);
    var exit := d(v, r, n - 1).stock - d(v, r, n).stock;
    PercentSplit(exit, rates.exports, rates.unknownWhereabouts);
  }

  lemma PercentSplit(exit: real, p: real, q: real)
    requires exit >= 0.0 && p >= 0.0 && q >= 0.0 && p + q <= 100.0
    ensures exit * p / 100.0 >= 0.0 && exit * q / 100.0 >= 0.0
    ensures exit - exit * p / 100.0 - exit * q / 100.0 >= 0.0
  {
    assert exit - exit * p / 100.0 - exit * q / 100.0 == exit * (100.0 - p - q) / 100.0;
  }

  /** For the tables of the fleet stage with non-negative registrations and
      density, and percentages as loss rates, no flow of a cell is negative. */
  lemma EolFlowsNonNegative(cfg: Config, regs: RegistrationTable, pdf: Density, loss: LossTable, v: nat, r: nat, n: nat)
    requires NonNegative(pdf) && Registered(cfg, regs, v, r) >= 0.0
    requires var rates := LossAt(loss, cfg.startYear + n);
             rates.exports >= 0.0 && rates.unknownWhereabouts >= 0.0 && rates.exports + rates.unknownWhereabouts <= 100.0
    ensures var e := EolCell(cfg, DetailOf(cfg, regs, pdf), loss, v, r, n);
            e.stock >= 0.0 && e.elvsExit >= 0.0 && e.elvsExport >= 0.0 && e.elvsUnknown >= 0.0 && e.elvsRecycling >= 0.0
  {
    var d := DetailOf(cfg, regs, pdf);
    if r <= n {
      CohortInvariant(Registered(cfg, regs, v, r), pdf, n - r);
    }
    if r < n {
      CohortInvariant(Registered(cfg, regs, v, r), pdf, n - 1 - r);
      CohortStockNonIncreasing(Registered(cfg, regs, v, r), pdf, n - 1 - r, n - r);
      SplitNonNegative(cfg, d, loss, v, r, n);
    }
  }

  // ----------------------------------------------------- the three passes

  /** The cell after `pass` of the three passes: the fields a later pass
      writes still hold what the input table had there. */
  function AfterPass(pass: nat, cfg: Config, d: DetailFn, loss: LossTable, v: nat, r: nat, n: nat): Flows {
    var e := EolCell(cfg, d, loss, v, r, n);
    var c := d(v, r, n);
    Flows(e.stock,
          if pass >= 1 then e.elvsExit else c.elvsExit,
          if pass >= 2 then e.elvsExport else c.elvsExport,
          if pass >= 2 then e.elvsUnknown else c.elvsUnknown,
          if pass >= 3 then e.elvsRecycling else c.elvsRecycling)
  }

  /** The fleet row after `pass` of the three passes. */
  function FleetAfterPass(pass: nat, cfg: Config, d: DetailFn, f: FleetFn, loss: LossTable, v: nat, n: nat): Flows {
    var e := EolFleetCell(cfg, d, f, loss, v, n);
    var c := f(v, n);
    Flows(e.stock,
          if pass >= 1 then e.elvsExit else c.elvsExit,
          if pass >= 2 then e.elvsExport else c.elvsExport,
          if pass >= 2 then e.elvsUnknown else c.elvsUnknown,
          if pass >= 3 then e.elvsRecycling else c.elvsRecycling)
  }

  ghost predicate Shaped(detail: array3<Flows>, fleet: array2<Flows>, cfg: Config) {
    && detail.Length0 == cfg.nVehicles && detail.Length1 == cfg.NYears() && detail.Length2 == cfg.NYears()
    && fleet.Length0 == cfg.nVehicles && fleet.Length1 == cfg.NYears()
  }

  /** Pass `pass` has reached vehicle `veh` and year `yearNow`: the cells and
      rows of the earlier vehicles, and of the earlier years of vehicle `veh`,
      are as after the pass, all others as before it. */
  ghost predicate Progress(pass: nat, veh: nat, yearNow: nat, detail: array3<Flows>, fleet: array2<Flows>,
                           cfg: Config, d: DetailFn, f: FleetFn, loss: LossTable)
    requires pass >= 1
    reads detail, fleet
  {
    && (forall a, b, c | 0 <= a < detail.Length0 && 0 <= b < detail.Length1 && 0 <= c < detail.Length2 ::
          detail[a, b, c] == AfterPass(if a < veh || (a == veh && c < yearNow) then pass else pass - 1, cfg, d, loss, a, b, c))
    && (forall a, c | 0 <= a < fleet.Length0 && 0 <= c < fleet.Length1 ::
          fleet[a, c] == FleetAfterPass(if a < veh || (a == veh && c < yearNow) then pass else pass - 1, cfg, d, f, loss, a, c))
  }

  /** Every cell of `detail` and every row of `fleet` is as after `pass`. */
  ghost predicate TablesAt(pass: nat, detail: array3<Flows>, fleet: array2<Flows>, cfg: Config, d: DetailFn, f: FleetFn, loss: LossTable)
    reads detail, fleet
  {
    && (forall a, b, c | 0 <= a < detail.Length0 && 0 <= b < detail.Length1 && 0 <= c < detail.Length2 :: detail[a, b, c] == AfterPass(pass, cfg, d, loss, a, b, c))
    && (forall a, c | 0 <= a < fleet.Length0 && 0 <= c < fleet.Length1 :: fleet[a, c] == FleetAfterPass(pass, cfg, d, f, loss, a, c))
  }

  lemma ProgressStart(pass: nat, detail: array3<Flows>, fleet: array2<Flows>, cfg: Config, d: DetailFn, f: FleetFn, loss: LossTable)
    requires pass >= 1
    requires TablesAt(pass - 1, detail, fleet, cfg, d, f, loss)
    ensures Progress(pass, 0, 0, detail, fleet, cfg, d, f, loss)
  {
  }

  lemma ProgressNextVehicle(pass: nat, veh: nat, detail: array3<Flows>, fleet: array2<Flows>, cfg: Config, d: DetailFn, f: FleetFn, loss: LossTable)
    requires pass >= 1 && Shaped(detail, fleet, cfg)
    requires Progress(pass, veh, cfg.NYears(), detail, fleet, cfg, d, f, loss)
    ensures Progress(pass, veh + 1, 0, detail, fleet, cfg, d, f, loss)
  {
  }

  lemma ProgressEnd(pass: nat, detail: array3<Flows>, fleet: array2<Flows>, cfg: Config, d: DetailFn, f: FleetFn, loss: LossTable)
    requires pass >= 1 && Shaped(detail, fleet, cfg)
    requires Progress(pass, cfg.nVehicles, 0, detail, fleet, cfg, d, f, loss)
    ensures TablesAt(pass, detail, fleet, cfg, d, f, loss)
  {
  }

  /** Writing the drop in stock into a cell past its registration year turns
      it from the input cell into its state after pass 3.1, and adds the drop
      to the running sum of exits. */
  lemma ExitStep(cfg: Config, d: DetailFn, loss: LossTable, v: nat, r: nat, n: nat, before: Flows, cell: Flows)
    requires r < n
    requires before.stock == d(v, r, n - 1).stock
    requires cell == AfterPass(0, cfg, d, loss, v, r, n)
    ensures var drop := before.stock - cell.stock;
            && cell.(elvsExit := drop) == AfterPass(1, cfg, d, loss, v, r, n)
            && FlowSum(cfg, d, loss, v, n, r + 1).elvsExit == FlowSum(cfg, d, loss, v, n, r).elvsExit + drop
  {
  }

  /** The inner loop of pass 3.1 for one (vehicle, year): each older cohort's
      exits as its drop in stock, summed. */
  method ExitCohorts(detail: array3<Flows>, cfg: Config, ghost d: DetailFn, ghost loss: LossTable, veh: nat, yearNow: nat)
    returns (exits: real)
    requires veh < detail.Length0 && yearNow < detail.Length1 && yearNow < detail.Length2
    requires forall a, b, c | 0 <= a < detail.Length0 && 0 <= b < detail.Length1 && 0 <= c < detail.Length2 ::
               detail[a, b, c] == AfterPass(if a < veh || (a == veh && c < yearNow) || (a == veh && c == yearNow && b == yearNow)
                                            then 1 else 0, cfg, d, loss, a, b, c)
    modifies detail
    ensures forall a, b, c | 0 <= a < detail.Length0 && 0 <= b < detail.Length1 && 0 <= c < detail.Length2 ::
              detail[a, b, c] == AfterPass(if a < veh || (a == veh && c < yearNow) || (a == veh && c == yearNow && b <= yearNow)
                                           then 1 else 0, cfg, d, loss, a, b, c)
    ensures exits == FlowSum(cfg, d, loss, veh, yearNow, yearNow).elvsExit
  {
    exits := 0.0;
    var yearReg := 0;
    while yearReg < yearNow
      invariant 0 <= yearReg <= yearNow
      invariant exits == FlowSum(cfg, d, loss, veh, yearNow, yearReg).elvsExit
      invariant forall a, b, c | 0 <= a < detail.Length0 && 0 <= b < detail.Length1 && 0 <= c < detail.Length2 ::
                  detail[a, b, c] == AfterPass(if a < veh || (a == veh && c < yearNow)
                                                  || (a == veh && c == yearNow && (b < yearReg || b == yearNow))
                                               then 1 else 0, cfg, d, loss, a, b, c)
    {
      var before := detail[veh, yearReg, yearNow - 1];
      var cell := detail[veh, yearReg, yearNow];
      ExitStep(cfg, d, loss, veh, yearReg, yearNow, before, cell);
      var drop := before.stock - cell.stock;
      detail[veh, yearReg, yearNow] := cell.(elvsExit := drop);
      exits := exits + drop;
      yearReg := yearReg + 1;
    }
  }

  /** One (vehicle, year) step of pass 3.1: the registration-year exit is reset,
      the older cohorts' exits are the drop in stock, and their sum is the
      vehicle's exits of the year. */
  method ExitsOfYear(detail: array3<Flows>, fleet: array2<Flows>, cfg: Config,
                     ghost d: DetailFn, ghost f: FleetFn, ghost loss: LossTable, veh: nat, yearNow: nat)
    requires Shaped(detail, fleet, cfg) && veh < cfg.nVehicles && yearNow < cfg.NYears()
    requires Progress(1, veh, yearNow, detail, fleet, cfg, d, f, loss)
    modifies detail, fleet
    ensures Progress(1, veh, yearNow + 1, detail, fleet, cfg, d, f, loss)
  {
    detail[veh, yearNow, yearNow] := detail[veh, yearNow, yearNow].(elvsExit := 0.0);
    var exits := ExitCohorts(detail, cfg, d, loss, veh, yearNow);
    fleet[veh, yearNow] := fleet[veh, yearNow].(elvsExit := exits);
  }

  /** Pass 3.1: exits from the stock drop, and their yearly total per vehicle. */
  method RecomputeExits(detail: array3<Flows>, fleet: array2<Flows>, cfg: Config,
                        ghost d: DetailFn, ghost f: FleetFn, ghost loss: LossTable)
    requires Shaped(detail, fleet, cfg)
    requires TablesAt(0, detail, fleet, cfg, d, f, loss)
    modifies detail, fleet
    ensures TablesAt(1, detail, fleet, cfg, d, f, loss)
  {
    ProgressStart(1, detail, fleet, cfg, d, f, loss);
    var veh := 0;
    while veh < cfg.nVehicles
      invariant 0 <= veh <= cfg.nVehicles
      invariant Progress(1, veh, 0, detail, fleet, cfg, d, f, loss)
    {
      var yearNow := 0;
      while yearNow < cfg.NYears()
        invariant 0 <= yearNow <= cfg.NYears()
        invariant Progress(1, veh, yearNow, detail, fleet, cfg, d, f, loss)
      {
        ExitsOfYear(detail, fleet, cfg, d, f, loss, veh, yearNow);
        yearNow := yearNow + 1;
      }
      ProgressNextVehicle(1, veh, detail, fleet, cfg, d, f, loss);
      veh := veh + 1;
    }
    ProgressEnd(1, detail, fleet, cfg, d, f, loss);
  }

  /** Writing the loss split into a cell past its registration year turns it
      from its state after pass 3.1 into its state after pass 3.2, and adds
      its exports and unknown whereabouts to the running sums. */
  lemma LossStep(cfg: Config, d: DetailFn, loss: LossTable, v: nat, r: nat, n: nat, cell: Flows)
    requires r < n && cfg.startYear + n in loss
    requires cell == AfterPass(1, cfg, d, loss, v, r, n)
    ensures var rates := loss[cfg.startYear + n];
            var exp := cell.elvsExit * rates.exports / 100.0;
            var unk := cell.elvsExit * rates.unknownWhereabouts / 100.0;
            && cell.(elvsExport := exp, elvsUnknown := unk) == AfterPass(2, cfg, d, loss, v, r, n)
            && FlowSum(cfg, d, loss, v, n, r + 1).elvsExport == FlowSum(cfg, d, loss, v, n, r).elvsExport + exp
            && FlowSum(cfg, d, loss, v, n, r + 1).elvsUnknown == FlowSum(cfg, d, loss, v, n, r).elvsUnknown + unk
  {
    assert LossAt(loss, cfg.startYear + n) == loss[cfg.startYear + n];
  }

  /** Writing the rest into a cell past its registration year turns it from its
      state after pass 3.2 into its state after pass 3.3, and adds it to the
      running sum. */
  lemma RecyclingStep(cfg: Config, d: DetailFn, loss: LossTable, v: nat, r: nat, n: nat, cell: Flows)
    requires r < n
    requires cell == AfterPass(2, cfg, d, loss, v, r, n)
    ensures var rec := cell.elvsExit - cell.elvsExport - cell.elvsUnknown;
            && cell.(elvsRecycling := rec) == AfterPass(3, cfg, d, loss, v, r, n)
            && FlowSum(cfg, d, loss, v, n, r + 1).elvsRecycling == FlowSum(cfg, d, loss, v, n, r).elvsRecycling + rec
  {
  }

  /** The cells of the earlier vehicles, of the earlier years of vehicle
      `veh`, and of the cohorts below `yearReg` in year `yearNow` of vehicle
      `veh` are as after `pass`, all others as before it. */
  ghost predicate CohortsAt(pass: nat, veh: nat, yearNow: nat, yearReg: nat, detail: array3<Flows>,
                            cfg: Config, d: DetailFn, loss: LossTable)
    requires pass >= 1
    reads detail
  {
    forall a, b, c | 0 <= a < detail.Length0 && 0 <= b < detail.Length1 && 0 <= c < detail.Length2 ::
      detail[a, b, c] == AfterPass(if a < veh || (a == veh && c < yearNow) || (a == veh && c == yearNow && b < yearReg)
                                   then pass else pass - 1, cfg, d, loss, a, b, c)
  }

  /** The inner loop of pass 3.2 for one (vehicle, year): each older cohort's
      exports and unknown whereabouts as percentages of its exits, summed. */
  method SplitCohorts(detail: array3<Flows>, cfg: Config, loss: LossTable, ghost d: DetailFn, veh: nat, yearNow: nat)
    returns (exp: real, unk: real)
    requires veh < detail.Length0 && yearNow < detail.Length1 && yearNow < detail.Length2
    requires cfg.startYear + yearNow in loss
    requires CohortsAt(2, veh, yearNow, 0, detail, cfg, d, loss)
    modifies detail
    ensures CohortsAt(2, veh, yearNow, yearNow, detail, cfg, d, loss)
    ensures exp == FlowSum(cfg, d, loss, veh, yearNow, yearNow).elvsExport
    ensures unk == FlowSum(cfg, d, loss, veh, yearNow, yearNow).elvsUnknown
  {
    var rates := loss[cfg.startYear + yearNow];
    exp, unk := 0.0, 0.0;
    var yearReg := 0;
    while yearReg < yearNow
      invariant 0 <= yearReg <= yearNow
      invariant exp == FlowSum(cfg, d, loss, veh, yearNow, yearReg).elvsExport
      invariant unk == FlowSum(cfg, d, loss, veh, yearNow, yearReg).elvsUnknown
      invariant CohortsAt(2, veh, yearNow, yearReg, detail, cfg, d, loss)
    {
      var cell := detail[veh, yearReg, yearNow];
      LossStep(cfg, d, loss, veh, yearReg, yearNow, cell);
      var exp_ := cell.elvsExit * rates.exports / 100.0;
      var unk_ := cell.elvsExit * rates.unknownWhereabouts / 100.0;
      detail[veh, yearReg, yearNow] := cell.(elvsExport := exp_, elvsUnknown := unk_);
      exp := exp + exp_;
      unk := unk + unk_;
      yearReg := yearReg + 1;
    }
  }

  /** One (vehicle, year) step of pass 3.2: each cohort's exports and unknown
      whereabouts as percentages of its exits, and the vehicle's totals. */
  method LossesOfYear(detail: array3<Flows>, fleet: array2<Flows>, cfg: Config, loss: LossTable,
                      ghost d: DetailFn, ghost f: FleetFn, veh: nat, yearNow: nat)
    requires Shaped(detail, fleet, cfg) && veh < cfg.nVehicles && yearNow < cfg.NYears()
    requires cfg.startYear + yearNow in loss
    requires Progress(2, veh, yearNow, detail, fleet, cfg, d, f, loss)
    modifies detail, fleet
    ensures Progress(2, veh, yearNow + 1, detail, fleet, cfg, d, f, loss)
  {
    var exp, unk := SplitCohorts(detail, cfg, loss, d, veh, yearNow);
    fleet[veh, yearNow] := fleet[veh, yearNow].(elvsExport := exp, elvsUnknown := unk);
  }

  /** Pass 3.2: exports and unknown whereabouts as shares of the exits. */
  method SplitLosses(detail: array3<Flows>, fleet: array2<Flows>, cfg: Config, loss: LossTable,
                     ghost d: DetailFn, ghost f: FleetFn)
    requires Shaped(detail, fleet, cfg)
    requires cfg.nVehicles > 0 ==> CoversYears(loss, cfg.startYear, cfg.endYear)
    requires TablesAt(1, detail, fleet, cfg, d, f, loss)
    modifies detail, fleet
    ensures TablesAt(2, detail, fleet, cfg, d, f, loss)
  {
    ProgressStart(2, detail, fleet, cfg, d, f, loss);
    var veh := 0;
    while veh < cfg.nVehicles
      invariant 0 <= veh <= cfg.nVehicles
      invariant Progress(2, veh, 0, detail, fleet, cfg, d, f, loss)
    {
      var yearNow := 0;
      while yearNow < cfg.NYears()
        invariant 0 <= yearNow <= cfg.NYears()
        invariant Progress(2, veh, yearNow, detail, fleet, cfg, d, f, loss)
      {
        LossesOfYear(detail, fleet, cfg, loss, d, f, veh, yearNow);
        yearNow := yearNow + 1;
      }
      ProgressNextVehicle(2, veh, detail, fleet, cfg, d, f, loss);
      veh := veh + 1;
    }
    ProgressEnd(2, detail, fleet, cfg, d, f, loss);
  }

  /** The inner loop of pass 3.3 for one (vehicle, year): each older
      cohort's vehicles entering recycling, summed. */
  method RecycleCohorts(detail: array3<Flows>, cfg: Config, ghost d: DetailFn, ghost loss: LossTable, veh: nat, yearNow: nat)
    returns (rec: real)
    requires veh < detail.Length0 && yearNow < detail.Length1 && yearNow < detail.Length2
    requires CohortsAt(3, veh, yearNow, 0, detail, cfg, d, loss)
    modifies detail
    ensures CohortsAt(3, veh, yearNow, yearNow, detail, cfg, d, loss)
    ensures rec == FlowSum(cfg, d, loss, veh, yearNow, yearNow).elvsRecycling
  {
    rec := 0.0;
    var yearReg := 0;
    while yearReg < yearNow
      invariant 0 <= yearReg <= yearNow
      invariant rec == FlowSum(cfg, d, loss, veh, yearNow, yearReg).elvsRecycling
      invariant CohortsAt(3, veh, yearNow, yearReg, detail, cfg, d, loss)
    {
      var cell := detail[veh, yearReg, yearNow];
      RecyclingStep(cfg, d, loss, veh, yearReg, yearNow, cell);
      var rec_ := cell.elvsExit - cell.elvsExport - cell.elvsUnknown;
      detail[veh, yearReg, yearNow] := cell.(elvsRecycling := rec_);
      rec := rec + rec_;
      yearReg := yearReg + 1;
    }
  }

  /** One (vehicle, year) step of pass 3.3: each cohort's vehicles entering
      recycling, and the vehicle's total. */
  method RecyclingOfYear(detail: array3<Flows>, fleet: array2<Flows>, cfg: Config,
                         ghost d: DetailFn, ghost f: FleetFn, ghost loss: LossTable, veh: nat, yearNow: nat)
    requires Shaped(detail, fleet, cfg) && veh < cfg.nVehicles && yearNow < cfg.NYears()
    requires Progress(3, veh, yearNow, detail, fleet, cfg, d, f, loss)
    modifies detail, fleet
    ensures Progress(3, veh, yearNow + 1, detail, fleet, cfg, d, f, loss)
  {
    var rec := RecycleCohorts(detail, cfg, d, loss, veh, yearNow);
    fleet[veh, yearNow] := fleet[veh, yearNow].(elvsRecycling := rec);
  }

  /** Pass 3.3: what neither leaves the country nor disappears enters recycling. */
  method RecyclingShare(detail: array3<Flows>, fleet: array2<Flows>, cfg: Config,
                        ghost d: DetailFn, ghost f: FleetFn, ghost loss: LossTable)
    requires Shaped(detail, fleet, cfg)
    requires TablesAt(2, detail, fleet, cfg, d, f, loss)
    modifies detail, fleet
    ensures TablesAt(3, detail, fleet, cfg, d, f, loss)
  {
    ProgressStart(3, detail, fleet, cfg, d, f, loss);
    var veh := 0;
    while veh < cfg.nVehicles
      invariant 0 <= veh <= cfg.nVehicles
      invariant Progress(3, veh, 0, detail, fleet, cfg, d, f, loss)
    {
      var yearNow := 0;
      while yearNow < cfg.NYears()
        invariant 0 <= yearNow <= cfg.NYears()
        invariant Progress(3, veh, yearNow, detail, fleet, cfg, d, f, loss)
      {
        RecyclingOfYear(detail, fleet, cfg, d, f, loss, veh, yearNow);
        yearNow := yearNow + 1;
      }
      ProgressNextVehicle(3, veh, detail, fleet, cfg, d, f, loss);
      veh := veh + 1;
    }
    ProgressEnd(3, detail, fleet, cfg, d, f, loss);
  }

  /** `calc_eol`: the three passes in order, in place on the given tables. */
  method CalcEol(detail: array3<Flows>, fleet: array2<Flows>, cfg: Config, loss: LossTable,
                 ghost d: DetailFn, ghost f: FleetFn)
    requires Shaped(detail, fleet, cfg)
    requires cfg.nVehicles > 0 ==> CoversYears(loss, cfg.startYear, cfg.endYear)
    requires forall v, r, n | 0 <= v < detail.Length0 && 0 <= r < detail.Length1 && 0 <= n < detail.Length2 ::
               detail[v, r, n] == d(v, r, n)
    requires forall v, n | 0 <= v < fleet.Length0 && 0 <= n < fleet.Length1 :: fleet[v, n] == f(v, n)
    modifies detail, fleet
    ensures forall v, r, n | 0 <= v < detail.Length0 && 0 <= r < detail.Length1 && 0 <= n < detail.Length2 ::
              detail[v, r, n] == EolCell(cfg, d, loss, v, r, n)
    ensures forall v, n | 0 <= v < fleet.Length0 && 0 <= n < fleet.Length1 ::
              fleet[v, n] == EolFleetCell(cfg, d, f, loss, v, n)
  {
    RecomputeExits(detail, fleet, cfg, d, f, loss);
    SplitLosses(detail, fleet, cfg, loss, d, f);
    RecyclingShare(detail, fleet, cfg, d, f, loss);
  }
}
