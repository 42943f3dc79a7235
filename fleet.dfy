/** Stage 2 of the calculation: the cohort model of the vehicle fleet
    (`calc_fleet`). Every registration cohort (vehicle model, registration
    year) loses vehicles year by year according to the lifetime density; the
    per-cohort table `fleet_detail` and the per-vehicle stock table `fleet`
    are filled cell by cell.

    Arrays are indexed from 0: vehicle index `v` is vehicle id `v + 1`, year
    index `j` is calendar year `startYear + j`. `detail[v, r, n]` is the cell of
    registration year index `r` in current year index `n`. */
module Fleet {
  import opened Tables

  function Min(a: real, b: real): real {
    if a <= b then a else b
  }

  /** The density is a probability density: never negative. */
  ghost predicate NonNegative(pdf: Density) {
    forall age: nat :: pdf(age) >= 0.0
  }

  /** Exits of a cohort of `n` vehicles at `age` before the clamp: the density
      times the cohort size, rounded down. */
  function RawExit(n: real, pdf: Density, age: nat): real {
    (n * pdf(age)).Floor as real
  }

  /** One year of a cohort: the stock left, the (clamped) exits of the year and
      the running sum of the raw exits so far. */
  datatype CohortYear = CohortYear(stock: real, exit: real, rawSum: real)

  /** The state of a cohort of `n` registrations at `age`. The running sum of
      raw exits decides whether the clamp applies: in the registration year the
      whole cohort exits, later at most the stock left over from the year
      before. */
  function Cohort(n: real, pdf: Density, age: nat): CohortYear
    decreases age
  {
    var raw := RawExit(n, pdf, age);
    if age == 0 then
      var e := if raw > n then n else raw;
      CohortYear(n - e, e, raw)
    else
      var prev := Cohort(n, pdf, age - 1);
      var sum := prev.rawSum + raw;
      var e := if sum > n then Min(prev.stock, raw) else raw;
      CohortYear(prev.stock - e, e, sum)
  }

  lemma RawExitBounds(n: real, pdf: Density, age: nat)
    requires n >= 0.0 && pdf(age) >= 0.0
    ensures 0.0 <= RawExit(n, pdf, age) <= n * pdf(age)
  {
    assert n * pdf(age) >= 0.0;
  }

  /** For a non-negative cohort and density the stock stays within [0, n], the
      exits are never negative and never above the raw exits, and the clamp
      changes an exit only once the running raw sum has passed `n`. Before
      that point the stock is exactly `n` minus the raw exits. When the clamp
      fires in the registration year the cohort is gone at once; later it
      empties the stock or removes the raw exits, whichever is fewer. */
  lemma {:induction false} CohortInvariant(n: real, pdf: Density, age: nat)
    requires n >= 0.0 && NonNegative(pdf)
    ensures var c := Cohort(n, pdf, age);
            && 0.0 <= c.stock <= n
            && 0.0 <= c.exit <= RawExit(n, pdf, age)
            && c.rawSum >= 0.0
            && (c.exit != RawExit(n, pdf, age) ==> c.rawSum > n)
            && (c.rawSum <= n ==> c.stock == n - c.rawSum)
            && (age == 0 && c.rawSum > n ==> c.stock == 0.0 && c.exit == n)
            && (age > 0 && c.rawSum > n ==>
                  var prev := Cohort(n, pdf, age - 1).stock;
                  c.stock == (if prev - RawExit(n, pdf, age) > 0.0 then prev - RawExit(n, pdf, age) else 0.0))
    decreases age
  {
    RawExitBounds(n, pdf, age);
    if age > 0 {
      CohortInvariant(n, pdf, age - 1);
    }
  }

  /** The stock of a cohort never grows from one year to a later one. */
  lemma {:induction false} CohortStockNonIncreasing(n: real, pdf: Density, a: nat, b: nat)
    requires n >= 0.0 && NonNegative(pdf)
    requires a <= b
    ensures Cohort(n, pdf, b).stock <= Cohort(n, pdf, a).stock
    decreases b - a
  {
    if a < b {
      CohortStockNonIncreasing(n, pdf, a, b - 1);
      CohortInvariant(n, pdf, b);
    }
  }

  /** Exits of a cohort from its registration year up to `age`. */
  function ExitsUpTo(n: real, pdf: Density, age: nat): real
    decreases age
  {
    (if age == 0 then 0.0 else ExitsUpTo(n, pdf, age - 1)) + Cohort(n, pdf, age).exit
  }

  /** Every vehicle that left a cohort is counted by exactly one yearly exit,
      so the exits so far are the registrations minus the stock; for a
      non-negative cohort they never exceed the registrations. */
  lemma {:induction false} CohortExitsTotal(n: real, pdf: Density, age: nat)
    ensures ExitsUpTo(n, pdf, age) == n - Cohort(n, pdf, age).stock
    ensures n >= 0.0 && NonNegative(pdf) ==> 0.0 <= ExitsUpTo(n, pdf, age) <= n
    decreases age
  {
    if age > 0 {
      CohortExitsTotal(n, pdf, age - 1);
    }
    if n >= 0.0 && NonNegative(pdf) {
      CohortInvariant(n, pdf, age);
    }
  }

  // ------------------------------------------------------- the fleet tables

  /** Registrations of vehicle index `v` in year index `r`. */
  function Registered(cfg: Config, regs: RegistrationTable, v: nat, r: nat): real {
    RegAt(regs, v + 1, cfg.startYear + r)
  }

  /** The cell `fleet_detail[v, r, n]` as `calc_fleet` leaves it: the cohort's
      stock and exits from its registration year on, zero before it. */
  function DetailCell(cfg: Config, regs: RegistrationTable, pdf: Density, v: nat, r: nat, n: nat): Flows {
    if r <= n then
      var c := Cohort(Registered(cfg, regs, v, r), pdf, n - r);
      Flows(c.stock, c.exit, 0.0, 0.0, 0.0)
    else NoFlows
  }

  /** Stock of vehicle `v` in year `n` in a `fleet_detail` table `d`, summed
      over the registration years below `k`. */
  function StockOf(d: DetailFn, v: nat, n: nat, k: nat): real
    decreases k
  {
    if k == 0 then 0.0 else StockOf(d, v, n, k - 1) + d(v, k - 1, n).stock
  }

  /** Registrations of vehicle `v` in the year indices below `k`. */
  function RegSum(cfg: Config, regs: RegistrationTable, v: nat, k: nat): real
    decreases k
  {
    if k == 0 then 0.0 else RegSum(cfg, regs, v, k - 1) + Registered(cfg, regs, v, k - 1)
  }

  /** The whole `fleet_detail` and `fleet` tables `calc_fleet` produces. */
  function DetailOf(cfg: Config, regs: RegistrationTable, pdf: Density): DetailFn {
    (v: nat, r: nat, n: nat) => DetailCell(cfg, regs, pdf, v, r, n)
  }

  function FleetOf(cfg: Config, regs: RegistrationTable, pdf: Density): FleetFn {
    (v: nat, n: nat) => FleetCell(cfg, regs, pdf, v, n)
  }

  /** The row `fleet[v, n]` as `calc_fleet` leaves it: the stock of all cohorts
      registered up to year `n`. */
  function FleetCell(cfg: Config, regs: RegistrationTable, pdf: Density, v: nat, n: nat): Flows {
    Flows(StockOf(DetailOf(cfg, regs, pdf), v, n, n + 1), 0.0, 0.0, 0.0, 0.0)
  }

  /** Cohorts registered after the current year hold no stock, so summing the
      stock over every registration year gives the fleet stock too. */
  lemma {:induction false} StockPastDiagonal(cfg: Config, regs: RegistrationTable, pdf: Density, v: nat, n: nat, k: nat)
    requires k > n
    ensures StockOf(DetailOf(cfg, regs, pdf), v, n, k) == FleetCell(cfg, regs, pdf, v, n).stock
    decreases k
  {
    if k > n + 1 {
      StockPastDiagonal(cfg, regs, pdf, v, n, k - 1);
    }
  }

  /** With non-negative registrations and density, the stock of a vehicle lies
      between zero and the registrations of the years counted. */
  lemma {:induction false} StockBounds(cfg: Config, regs: RegistrationTable, pdf: Density, v: nat, n: nat, k: nat)
    requires NonNegative(pdf)
    requires forall r: nat | r < k :: Registered(cfg, regs, v, r) >= 0.0
    ensures 0.0 <= StockOf(DetailOf(cfg, regs, pdf), v, n, k) <= RegSum(cfg, regs, v, k)
    decreases k
  {
    if k > 0 {
      StockBounds(cfg, regs, pdf, v, n, k - 1);
      if k - 1 <= n {
        CohortInvariant(Registered(cfg, regs, v, k - 1), pdf, n - (k - 1));
      }
    }
  }

  /** With non-negative inputs the fleet of a vehicle never holds more vehicles
      than were registered up to the current year. */
  lemma FleetStockBounds(cfg: Config, regs: RegistrationTable, pdf: Density, v: nat, n: nat)
    requires NonNegative(pdf)
    requires forall r: nat | r <= n :: Registered(cfg, regs, v, r) >= 0.0
    ensures 0.0 <= FleetCell(cfg, regs, pdf, v, n).stock <= RegSum(cfg, regs, v, n + 1)
  {
    StockBounds(cfg, regs, pdf, v, n, n + 1);
  }

  // ------------------------------------------------------------- the method

  /** The loop over the current years of one cohort: writes exits and stock of
      `detail[v, r, n]` for `n >= r` and leaves every other cell alone. */
  method FillCohort(detail: array3<Flows>, cfg: Config, regs: RegistrationTable, pdf: Density, v: nat, r: nat)
    requires detail.Length0 == cfg.nVehicles && detail.Length1 == cfg.NYears() && detail.Length2 == cfg.NYears()
    requires v < cfg.nVehicles && r < cfg.NYears()
    requires (v + 1, cfg.startYear + r) in regs
    modifies detail
    ensures forall a, b, c | 0 <= a < detail.Length0 && 0 <= b < detail.Length1 && 0 <= c < detail.Length2 ::
              detail[a, b, c] == if a == v && b == r && r <= c
                                 then var co := Cohort(Registered(cfg, regs, v, r), pdf, c - r);
                                      old(detail[a, b, c]).(stock := co.stock, elvsExit := co.exit)
                                 else old(detail[a, b, c])
  {
    var vehReg := regs[(v + 1, cfg.startYear + r)];
    var exitSum := 0.0;
    var n := r;
    while n < cfg.NYears()
      invariant r <= n <= cfg.NYears()
      invariant n == r ==> exitSum == 0.0
      invariant n > r ==> exitSum == Cohort(vehReg, pdf, n - 1 - r).rawSum
      invariant n > r ==> detail[v, r, n - 1].stock == Cohort(vehReg, pdf, n - 1 - r).stock
      invariant forall a, b, c | 0 <= a < detail.Length0 && 0 <= b < detail.Length1 && 0 <= c < detail.Length2 ::
                  detail[a, b, c] == if a == v && b == r && r <= c < n
                                     then var co := Cohort(vehReg, pdf, c - r);
                                          old(detail[a, b, c]).(stock := co.stock, elvsExit := co.exit)
                                     else old(detail[a, b, c])
    {
      var exit := RawExit(vehReg, pdf, n - r);
      exitSum := exitSum + exit;
      if exitSum > vehReg {
        if n == r {
          exit := vehReg;
        } else {
          exit := Min(detail[v, r, n - 1].stock, exit);
        }
      }
      var stock := if n == r then vehReg - exit else detail[v, r, n - 1].stock - exit;
      detail[v, r, n] := detail[v, r, n].(elvsExit := exit, stock := stock);
      n := n + 1;
    }
  }

  /** The first half of `calc_fleet`: a zero table of cohorts, filled cohort
      by cohort. */
  method CohortTable(cfg: Config, regs: RegistrationTable, pdf: Density) returns (detail: array3<Flows>)
    requires CoversGrid(regs, cfg.nVehicles, cfg.startYear, cfg.endYear)
    ensures fresh(detail)
    ensures detail.Length0 == cfg.nVehicles && detail.Length1 == cfg.NYears() && detail.Length2 == cfg.NYears()
    ensures forall v, r, n | 0 <= v < detail.Length0 && 0 <= r < detail.Length1 && 0 <= n < detail.Length2 ::
              detail[v, r, n] == DetailCell(cfg, regs, pdf, v, r, n)
  {
    var nY := cfg.NYears();
    detail := new Flows[cfg.nVehicles, nY, nY]((a, b, c) => NoFlows);
    var veh := 0;
    while veh < cfg.nVehicles
      invariant 0 <= veh <= cfg.nVehicles
      invariant forall v, r, n | 0 <= v < detail.Length0 && 0 <= r < detail.Length1 && 0 <= n < detail.Length2 ::
                  detail[v, r, n] == if v < veh then DetailCell(cfg, regs, pdf, v, r, n) else NoFlows
    {
      var yearReg := 0;
      while yearReg < nY
        invariant 0 <= yearReg <= nY
        invariant forall v, r, n | 0 <= v < detail.Length0 && 0 <= r < detail.Length1 && 0 <= n < detail.Length2 ::
                    detail[v, r, n] == if v < veh || (v == veh && r < yearReg) then DetailCell(cfg, regs, pdf, v, r, n) else NoFlows
      {
        assert (veh + 1, cfg.startYear + yearReg) in regs;
        FillCohort(detail, cfg, regs, pdf, veh, yearReg);
        yearReg := yearReg + 1;
      }
      veh := veh + 1;
    }
  }

  /** The second half of `calc_fleet`: the stock of every vehicle and year,
      summed over the cohorts of `detail` registered up to that year. */
  method StockTable(detail: array3<Flows>, cfg: Config, ghost d: DetailFn) returns (fleet: array2<Flows>)
    requires detail.Length0 == cfg.nVehicles && detail.Length1 == cfg.NYears() && detail.Length2 == cfg.NYears()
    requires forall v, r, n | 0 <= v < detail.Length0 && 0 <= r < detail.Length1 && 0 <= n < detail.Length2 ::
               detail[v, r, n] == d(v, r, n)
    ensures fresh(fleet)
    ensures fleet.Length0 == cfg.nVehicles && fleet.Length1 == cfg.NYears()
    ensures forall v, n | 0 <= v < fleet.Length0 && 0 <= n < fleet.Length1 ::
              fleet[v, n] == Flows(StockOf(d, v, n, n + 1), 0.0, 0.0, 0.0, 0.0)
  {
    var nY := cfg.NYears();
    fleet := new Flows[cfg.nVehicles, nY]((a, b) => NoFlows);
    var veh := 0;
    while veh < cfg.nVehicles
      invariant 0 <= veh <= cfg.nVehicles
      invariant forall v, n | 0 <= v < fleet.Length0 && 0 <= n < fleet.Length1 ::
                  fleet[v, n] == if v < veh then Flows(StockOf(d, v, n, n + 1), 0.0, 0.0, 0.0, 0.0) else NoFlows
    {
      var yearNow := 0;
      while yearNow < nY
        invariant 0 <= yearNow <= nY
        invariant forall v, n | 0 <= v < fleet.Length0 && 0 <= n < fleet.Length1 ::
                    fleet[v, n] == if v < veh || (v == veh && n < yearNow) then Flows(StockOf(d, v, n, n + 1), 0.0, 0.0, 0.0, 0.0) else NoFlows
      {
        var stock := 0.0;
        var yearReg := 0;
        while yearReg <= yearNow
          invariant 0 <= yearReg <= yearNow + 1
          invariant stock == StockOf(d, veh, yearNow, yearReg)
        {
          stock := stock + detail[veh, yearReg, yearNow].stock;
          yearReg := yearReg + 1;
        }
        fleet[veh, yearNow] := fleet[veh, yearNow].(stock := stock);
        yearNow := yearNow + 1;
      }
      veh := veh + 1;
    }
  }

  /** `calc_fleet`: the cohort table for every vehicle and registration year,
      then the fleet stock of every vehicle and year as the sum over the
      cohorts registered so far. */
  method CalcFleet(cfg: Config, regs: RegistrationTable, pdf: Density) returns (detail: array3<Flows>, fleet: array2<Flows>)
    requires CoversGrid(regs, cfg.nVehicles, cfg.startYear, cfg.endYear)
    ensures fresh(detail) && fresh(fleet)
    ensures detail.Length0 == cfg.nVehicles && detail.Length1 == cfg.NYears() && detail.Length2 == cfg.NYears()
    ensures fleet.Length0 == cfg.nVehicles && fleet.Length1 == cfg.NYears()
    ensures forall v, r, n | 0 <= v < detail.Length0 && 0 <= r < detail.Length1 && 0 <= n < detail.Length2 ::
              detail[v, r, n] == DetailCell(cfg, regs, pdf, v, r, n)
    ensures forall v, n | 0 <= v < fleet.Length0 && 0 <= n < fleet.Length1 ::
              fleet[v, n] == FleetCell(cfg, regs, pdf, v, n)
  {
    detail := CohortTable(cfg, regs, pdf);
    fleet := StockTable(detail, cfg, DetailOf(cfg, regs, pdf));
  }
}
