/** Stage 1 of the calculation: extending the historical registrations to the
    end year with a compound annual growth rate (`calc_registrations`). */
module Registrations {
  import opened Wrappers
  import opened Tables

  /** `x` raised to a natural power. */
  function Pow(x: real, k: nat): real {
    if k == 0 then 1.0 else x * Pow(x, k - 1)
  }

  /** Annual growth factor of a CAGR given in percent. */
  function Growth(cagr: real): real {
    1.0 + cagr / 100.0
  }

  /** A key the projection adds: a vehicle id and a year after the last
      historical year `init`, up to the end year. */
  predicate IsProjectedKey(cfg: Config, init: int, id: int, year: int) {
    1 <= id <= cfg.nVehicles && init < year <= cfg.endYear
  }

  /** Registrations of vehicle `id` in a projected `year`: the value of year
      `init`, multiplied by the annual growth factor once per year. */
  function ProjectedValue(regs: RegistrationTable, growth: real, init: int, id: int, year: int): real
    requires year >= init
    decreases year - init
  {
    if year == init then RegAt(regs, id, init)
    else ProjectedValue(regs, growth, init, id, year - 1) * growth
  }

  /** The compound-growth closed form the calculation evaluates. */
  lemma {:induction false} ProjectedValueClosedForm(regs: RegistrationTable, growth: real, init: int, id: int, year: int)
    requires year >= init
    ensures ProjectedValue(regs, growth, init, id, year) == RegAt(regs, id, init) * Pow(growth, year - init)
    decreases year - init
  {
    if year > init {
      ProjectedValueClosedForm(regs, growth, init, id, year - 1);
      var base := RegAt(regs, id, init);
      var g := growth;
      var p := Pow(g, year - 1 - init);
      assert Pow(g, year - init) == g * p;
      assert base * (g * p) == (base * p) * g;
    }
  }

  /** `t` with the projected rows of vehicle `id` for the years `init + 1` up
      to `upTo` added, one year at a time. */
  function AddYears(regs: RegistrationTable, t: RegistrationTable, growth: real, init: int, id: int, upTo: int): RegistrationTable
    decreases upTo - init
  {
    if upTo <= init then t
    else AddYears(regs, t, growth, init, id, upTo - 1)[(id, upTo) := ProjectedValue(regs, growth, init, id, upTo)]
  }

  /** `regs` with the projected rows of vehicles 1 to `upTo` added, vehicle by vehicle. */
  function AddVehicles(regs: RegistrationTable, cfg: Config, growth: real, init: int, upTo: int): RegistrationTable
    decreases upTo
  {
    if upTo < 1 then regs
    else AddYears(regs, AddVehicles(regs, cfg, growth, init, upTo - 1), growth, init, upTo, cfg.endYear)
  }

  /** The registration table after projection from the last historical year
      `init`. Nothing happens when `init` already reaches the end year. */
  function Projected(regs: RegistrationTable, cfg: Config, growth: real, init: int): (r: RegistrationTable)
    ensures init >= cfg.endYear ==> r == regs
  {
    if init >= cfg.endYear then regs else AddVehicles(regs, cfg, growth, init, cfg.nVehicles)
  }

  lemma {:induction false} AddYearsAt(regs: RegistrationTable, t: RegistrationTable, growth: real, init: int, id: int, upTo: int, i: int, year: int)
    ensures var r := AddYears(regs, t, growth, init, id, upTo);
            && ((i, year) in r <==> (i, year) in t || (i == id && init < year <= upTo))
            && ((i, year) in t && !(i == id && init < year <= upTo) ==> r[(i, year)] == t[(i, year)])
            && (i == id && init < year <= upTo ==> r[(i, year)] == ProjectedValue(regs, growth, init, id, year))
    decreases upTo - init
  {
    if upTo > init {
      AddYearsAt(regs, t, growth, init, id, upTo - 1, i, year);
    }
  }

  lemma {:induction false} AddVehiclesAt(regs: RegistrationTable, cfg: Config, growth: real, init: int, upTo: int, id: int, year: int)
    ensures var r := AddVehicles(regs, cfg, growth, init, upTo);
            && ((id, year) in r <==> (id, year) in regs || (1 <= id <= upTo && init < year <= cfg.endYear))
            && ((id, year) in regs && !(1 <= id <= upTo && init < year <= cfg.endYear) ==> r[(id, year)] == regs[(id, year)])
            && (1 <= id <= upTo && init < year <= cfg.endYear ==> r[(id, year)] == ProjectedValue(regs, growth, init, id, year))
    decreases upTo
  {
    if upTo >= 1 {
      AddVehiclesAt(regs, cfg, growth, init, upTo - 1, id, year);
      AddYearsAt(regs, AddVehicles(regs, cfg, growth, init, upTo - 1), growth, init, upTo, cfg.endYear, id, year);
    }
  }

  /** Cell by cell: the projection keeps every historical row it does not
      overwrite, and adds exactly the rows of vehicles 1..n for the years after
      `init`, with the grown value. */
  lemma {:induction false} ProjectedAt(regs: RegistrationTable, cfg: Config, growth: real, init: int, id: int, year: int)
    ensures var r := Projected(regs, cfg, growth, init);
            && ((id, year) in r <==> (id, year) in regs || IsProjectedKey(cfg, init, id, year))
            && ((id, year) in regs && !IsProjectedKey(cfg, init, id, year) ==> r[(id, year)] == regs[(id, year)])
            && (IsProjectedKey(cfg, init, id, year) ==> r[(id, year)] == ProjectedValue(regs, growth, init, id, year))
  {
    if init < cfg.endYear {
      AddVehiclesAt(regs, cfg, growth, init, cfg.nVehicles, id, year);
    }
  }

  /** Consecutive projected years differ by exactly one growth factor, and the
      first projected year is one growth step from the baseline. */
  lemma {:induction false} ProjectionGrowsYearly(regs: RegistrationTable, cfg: Config, growth: real, init: int, id: int, year: int)
    requires IsProjectedKey(cfg, init, id, year)
    ensures var r := Projected(regs, cfg, growth, init);
            && (id, year) in r
            && (year > init + 1 ==> (id, year - 1) in r)
            && r[(id, year)] == (if year == init + 1 then RegAt(regs, id, init) else r[(id, year - 1)]) * growth
  {
    var r := Projected(regs, cfg, growth, init);
    ProjectedAt(regs, cfg, growth, init, id, year);
    assert (id, year) in r;
    assert r[(id, year)] == ProjectedValue(regs, growth, init, id, year);
    if year > init + 1 {
      ProjectedAt(regs, cfg, growth, init, id, year - 1);
      var prev := ProjectedValue(regs, growth, init, id, year - 1);
      assert r[(id, year - 1)] == prev;
      assert r[(id, year)] == prev * growth;
    } else {
      assert r[(id, year)] == RegAt(regs, id, init) * growth;
    }
  }

  /** `calc_registrations`: fails without a baseline year, and otherwise appends
      one projected row per vehicle and future year, vehicle by vehicle. */
  method CalcRegistrations(cfg: Config, cagr: real, nInitYears: nat, regs: RegistrationTable)
    returns (r: Result<RegistrationTable, Error>)
    requires var init := cfg.startYear + nInitYears - 1;
             nInitYears > 0 && init < cfg.endYear ==> CoversGrid(regs, cfg.nVehicles, init, init)
    ensures nInitYears == 0 <==> r.Failure?
    ensures r.Failure? ==> r.error == ConfigurationError
    ensures r.Success? ==> r.value == Projected(regs, cfg, Growth(cagr), cfg.startYear + nInitYears - 1)
  {
    var init := cfg.startYear + nInitYears - 1;
    if nInitYears == 0 {
      return Failure(ConfigurationError);
    }
    if init >= cfg.endYear {
      return Success(regs);
    }
    var table := regs;
    var veh := 1;
    while veh <= cfg.nVehicles
      invariant 1 <= veh <= cfg.nVehicles + 1
      invariant table == AddVehicles(regs, cfg, Growth(cagr), init, veh - 1)
    {
      var initReg := regs[(veh, init)];
      var year := init + 1;
      ghost var before := table;
      while year <= cfg.endYear
        invariant init + 1 <= year <= cfg.endYear + 1
        invariant table == AddYears(regs, before, Growth(cagr), init, veh, year - 1)
      {
        var value := initReg * Pow(Growth(cagr), year - init);
        ProjectedValueClosedForm(regs, Growth(cagr), init, veh, year);
        assert value == ProjectedValue(regs, Growth(cagr), init, veh, year);
        table := table[(veh, year) := value];
        year := year + 1;
      }
      assert table == AddVehicles(regs, cfg, Growth(cagr), init, veh);
      veh := veh + 1;
    }
    return Success(table);
  }
}
