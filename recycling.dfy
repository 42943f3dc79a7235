/** Stage 4 of the calculation: recycling outputs (`calc_recycling`). The
    vehicles entering recycling bring the plastics of their registration
    year's model data; dismantling removes a fixed mass per vehicle of the
    current year; the rest (the "bodies") is recycled at the current year's
    efficiency. Bodies are not clamped: a dismantling mass above the input
    gives a negative output, as in the source. */
module Recycling {
  import opened Tables
  import opened Fleet
  import opened EndOfLife

  function Scale(k: real, q: PerPolymer<real>): (r: PerPolymer<real>)
    ensures forall p :: r.Get(p) == k * q.Get(p)
  {
    PerPolymer(k * q.pp, k * q.pa, k * q.pc, k * q.abs)
  }

  /** Plastic mass in `count` vehicles of model data `s`: vehicle mass times the plastic share. */
  function PlasticMass(count: real, s: VehicleSpec): real {
    count * s.totalMass * s.plasticContent / 100.0
  }

  /** Polymer masses in `count` vehicles of model data `s`: vehicle mass, times
      the plastic share, times the polymer's share of the plastic. */
  function PolymerMass(count: real, s: VehicleSpec): (r: PerPolymer<real>)
  {
    var plastic := PlasticMass(count, s);
    PerPolymer(plastic * s.content.pp / 100.0, plastic * s.content.pa / 100.0,
               plastic * s.content.pc / 100.0, plastic * s.content.abs / 100.0)
  }

  /** The polymer masses add up to the plastic mass in proportion to the sum
      of the polymer shares; with shares adding up to 100 % they are all of it. */
  lemma PolymerMassTotal(count: real, s: VehicleSpec)
    ensures Total(PolymerMass(count, s)) == PlasticMass(count, s) * Total(s.content) / 100.0
    ensures Total(s.content) == 100.0 ==> Total(PolymerMass(count, s)) == PlasticMass(count, s)
  {
    var plastic := PlasticMass(count, s);
    assert Total(PolymerMass(count, s)) == plastic * Total(s.content) / 100.0;
  }

  /** Recycling input of vehicle `v` in year `n` over the registration years
      below `k`: the polymer masses of the vehicles entering recycling, with the
      model data of their registration year. */
  function InputMass(cfg: Config, e: DetailFn, vehicles: VehicleTable, v: nat, n: nat, k: nat): PerPolymer<real>
    decreases k
  {
    if k == 0 then NoPolymer
    else Plus(InputMass(cfg, e, vehicles, v, n, k - 1),
              PolymerMass(e(v, k - 1, n).elvsRecycling, VehicleAt(vehicles, v + 1, cfg.startYear + k - 1)))
  }

  /** Vehicles of `v` entering recycling in year `n`, over the registration years below `k`. */
  function InputElvs(e: DetailFn, v: nat, n: nat, k: nat): real
    decreases k
  {
    if k == 0 then 0.0 else InputElvs(e, v, n, k - 1) + e(v, k - 1, n).elvsRecycling
  }

  /** The part of the recycling input a first pass writes: the input of every
      cohort registered up to year `n`. */
  function InputRow(cfg: Config, e: DetailFn, vehicles: VehicleTable, v: nat, n: nat): EolFlow {
    NoEol.(input := InputMass(cfg, e, vehicles, v, n, n + 1), inputElvs := InputElvs(e, v, n, n + 1))
  }

  /** Recycled polymer masses: what dismantling leaves of the input (the
      "bodies"), times the recycling efficiency in percent. */
  function Recycled(input: PerPolymer<real>, dism: PerPolymer<real>, eff: PerPolymer<real>): (r: PerPolymer<real>)
    ensures forall p :: r.Get(p) == (input.Get(p) - dism.Get(p)) * eff.Get(p) / 100.0
  {
    PerPolymer((input.pp - dism.pp) * eff.pp / 100.0, (input.pa - dism.pa) * eff.pa / 100.0,
               (input.pc - dism.pc) * eff.pc / 100.0, (input.abs - dism.abs) * eff.abs / 100.0)
  }

  /** The row `eol[v, n]`: dismantling output is the vehicle count times the
      current year's dismantled mass per vehicle; the rest of the input is
      recycled at the current year's efficiency; the total is the sum of the
      four polymer outputs. */
  function EolRow(cfg: Config, e: DetailFn, vehicles: VehicleTable, dismantling: DismantlingTable, recycling: RecyclingTable,
                  v: nat, n: nat): (r: EolFlow)
    ensures r.input == InputMass(cfg, e, vehicles, v, n, n + 1) && r.inputElvs == InputElvs(e, v, n, n + 1)
  {
    var row := InputRow(cfg, e, vehicles, v, n);
    var dism := Scale(row.inputElvs, DismantlingAt(dismantling, v + 1, cfg.startYear + n));
    var eff := RecyclingAt(recycling, cfg.startYear + n);
    var out := Recycled(row.input, dism, eff);
    row.(dismantlingOutput := dism, recyclingOutput := out, recyclingOutputTotal := Total(out))
  }

  // ------------------------------------------------------------ properties

  lemma {:induction false} InputElvsIsFlowSum(cfg: Config, d: DetailFn, loss: LossTable, v: nat, n: nat, k: nat)
    requires k <= n
    ensures InputElvs(EolTable(cfg, d, loss), v, n, k) == FlowSum(cfg, d, loss, v, n, k).elvsRecycling
    decreases k
  {
    if k > 0 {
      InputElvsIsFlowSum(cfg, d, loss, v, n, k - 1);
    }
  }

  /** The vehicles entering recycling are exactly the vehicles the fleet
      table sends to recycling in that year (the registration-year cohort
      sends none). */
  lemma InputElvsMatchesFleet(cfg: Config, regs: RegistrationTable, pdf: Density, loss: LossTable, v: nat, n: nat)
    ensures InputElvs(EolTable(cfg, DetailOf(cfg, regs, pdf), loss), v, n, n + 1) ==
            EolFleetCell(cfg, DetailOf(cfg, regs, pdf), FleetOf(cfg, regs, pdf), loss, v, n).elvsRecycling
  {
    InputElvsIsFlowSum(cfg, DetailOf(cfg, regs, pdf), loss, v, n, n);
  }

  /** Each polymer's recycled output is the share `eff` of what dismantling
      leaves: between zero and the bodies when those are non-negative and the
      efficiency is a percentage. */
  lemma RecyclingOutputBounds(cfg: Config, e: DetailFn, vehicles: VehicleTable, dismantling: DismantlingTable, recycling: RecyclingTable,
                              v: nat, n: nat, p: Polymer)
    requires var eff := RecyclingAt(recycling, cfg.startYear + n).Get(p);
             0.0 <= eff <= 100.0
    ensures var row := EolRow(cfg, e, vehicles, dismantling, recycling, v, n);
            var bodies := row.input.Get(p) - row.dismantlingOutput.Get(p);
            bodies >= 0.0 ==> 0.0 <= row.recyclingOutput.Get(p) <= bodies
  {
    var row := EolRow(cfg, e, vehicles, dismantling, recycling, v, n);
    var eff := RecyclingAt(recycling, cfg.startYear + n);
    assert row.recyclingOutput == Recycled(row.input, row.dismantlingOutput, eff);
    RecycledWithin(row.input, row.dismantlingOutput, eff, p);
  }

  /** Recycling at a percentage yields between nothing and all of a
      non-negative remainder. */
  lemma RecycledWithin(input: PerPolymer<real>, dism: PerPolymer<real>, eff: PerPolymer<real>, p: Polymer)
    requires 0.0 <= eff.Get(p) <= 100.0
    ensures var bodies := input.Get(p) - dism.Get(p);
            bodies >= 0.0 ==> 0.0 <= Recycled(input, dism, eff).Get(p) <= bodies
  {
    var bodies := input.Get(p) - dism.Get(p);
    var pct := eff.Get(p);
    var out := Recycled(input, dism, eff).Get(p);
    assert out == bodies * pct / 100.0;
    if bodies >= 0.0 {
      PercentOfBounds(bodies, pct);
    }
  }

  lemma PercentOfBounds(x: real, pct: real)
    requires x >= 0.0 && 0.0 <= pct <= 100.0
    ensures 0.0 <= x * pct / 100.0 <= x
  {
    assert x * pct <= x * 100.0 by {
      assert x * (100.0 - pct) >= 0.0;
    }
  }

  // ------------------------------------------------------------- the method

  ghost predicate RowsDone(eol: array2<EolFlow>, cfg: Config, e: DetailFn, vehicles: VehicleTable, dismantling: DismantlingTable,
                           recycling: RecyclingTable, veh: nat)
    reads eol
  {
    forall a, c | 0 <= a < eol.Length0 && 0 <= c < eol.Length1 ::
      eol[a, c] == if a < veh then EolRow(cfg, e, vehicles, dismantling, recycling, a, c) else NoEol
  }

  /** Vehicle `veh` is at year `yearNow` of a loop over its rows: the rows of
      the earlier vehicles are final, the rows of vehicle `veh` before year
      `yearNow` are `done` and those from it on are `todo`. */
  ghost predicate RowsAt(eol: array2<EolFlow>, cfg: Config, e: DetailFn, vehicles: VehicleTable, dismantling: DismantlingTable,
                            recycling: RecyclingTable, veh: nat, yearNow: nat, pass: nat)
    reads eol
  {
    forall a, c | 0 <= a < eol.Length0 && 0 <= c < eol.Length1 ::
      eol[a, c] == if a < veh || (a == veh && c < yearNow && pass == 2) then EolRow(cfg, e, vehicles, dismantling, recycling, a, c)
                   else if a == veh && (c < yearNow || pass == 2) then InputRow(cfg, e, vehicles, a, c)
                   else NoEol
  }

  /** The inner loop of the first pass of `calc_recycling`: the vehicles of
      every cohort registered up to year `yearNow` entering recycling, and
      their polymer masses. */
  method InputOfYear(detail: array3<Flows>, cfg: Config, vehicles: VehicleTable, ghost e: DetailFn, veh: nat, yearNow: nat)
    returns (mass: PerPolymer<real>, elvs: real)
    requires veh < detail.Length0 && yearNow < detail.Length1 && yearNow < detail.Length2
    requires forall v, r, n | 0 <= v < detail.Length0 && 0 <= r < detail.Length1 && 0 <= n < detail.Length2 ::
               detail[v, r, n] == e(v, r, n)
    requires CoversGrid(vehicles, veh + 1, cfg.startYear, cfg.startYear + yearNow)
    ensures mass == InputMass(cfg, e, vehicles, veh, yearNow, yearNow + 1)
    ensures elvs == InputElvs(e, veh, yearNow, yearNow + 1)
  {
    mass, elvs := NoPolymer, 0.0;
    var yearReg := 0;
    while yearReg <= yearNow
      invariant 0 <= yearReg <= yearNow + 1
      invariant mass == InputMass(cfg, e, vehicles, veh, yearNow, yearReg)
      invariant elvs == InputElvs(e, veh, yearNow, yearReg)
    {
      var nVeh := detail[veh, yearReg, yearNow].elvsRecycling;
      var spec := vehicles[(veh + 1, cfg.startYear + yearReg)];
      mass := Plus(mass, PolymerMass(nVeh, spec));
      elvs := elvs + nVeh;
      yearReg := yearReg + 1;
    }
  }

  /** Adding the dismantling and recycling outputs to a row holding only its
      input gives the final row. */
  lemma OutputStep(cfg: Config, e: DetailFn, vehicles: VehicleTable, dismantling: DismantlingTable, recycling: RecyclingTable,
                   v: nat, n: nat, row: EolFlow)
    requires row == InputRow(cfg, e, vehicles, v, n)
    requires (v + 1, cfg.startYear + n) in dismantling && cfg.startYear + n in recycling
    ensures var dism := Scale(row.inputElvs, dismantling[(v + 1, cfg.startYear + n)]);
            var out := Recycled(row.input, dism, recycling[cfg.startYear + n]);
            row.(dismantlingOutput := dism, recyclingOutput := out, recyclingOutputTotal := out.pp + out.pa + out.pc + out.abs)
              == EolRow(cfg, e, vehicles, dismantling, recycling, v, n)
  {
    assert DismantlingAt(dismantling, v + 1, cfg.startYear + n) == dismantling[(v + 1, cfg.startYear + n)];
    assert RecyclingAt(recycling, cfg.startYear + n) == recycling[cfg.startYear + n];
  }

  /** The first year loop of `calc_recycling` for one vehicle: its inputs. */
  method VehicleInputs(eol: array2<EolFlow>, detail: array3<Flows>, cfg: Config, vehicles: VehicleTable,
                       dismantling: DismantlingTable, recycling: RecyclingTable, ghost e: DetailFn, veh: nat)
    requires eol.Length0 == cfg.nVehicles && eol.Length1 == cfg.NYears()
    requires detail.Length0 == cfg.nVehicles && detail.Length1 == cfg.NYears() && detail.Length2 == cfg.NYears()
    requires forall v, r, n | 0 <= v < detail.Length0 && 0 <= r < detail.Length1 && 0 <= n < detail.Length2 ::
               detail[v, r, n] == e(v, r, n)
    requires veh < cfg.nVehicles
    requires CoversGrid(vehicles, cfg.nVehicles, cfg.startYear, cfg.endYear)
    requires RowsAt(eol, cfg, e, vehicles, dismantling, recycling, veh, 0, 1)
    modifies eol
    ensures RowsAt(eol, cfg, e, vehicles, dismantling, recycling, veh, 0, 2)
  {
    var nY := cfg.NYears();
    var yearNow := 0;
    while yearNow < nY
      invariant 0 <= yearNow <= nY
      invariant RowsAt(eol, cfg, e, vehicles, dismantling, recycling, veh, yearNow, 1)
    {
      var mass, elvs := InputOfYear(detail, cfg, vehicles, e, veh, yearNow);
      eol[veh, yearNow] := eol[veh, yearNow].(input := mass, inputElvs := elvs);
      yearNow := yearNow + 1;
    }
  }

  /** The second year loop of `calc_recycling` for one vehicle: dismantling
      and recycling outputs. */
  method VehicleOutputs(eol: array2<EolFlow>, cfg: Config, vehicles: VehicleTable,
                        dismantling: DismantlingTable, recycling: RecyclingTable, ghost e: DetailFn, veh: nat)
    requires eol.Length0 == cfg.nVehicles && eol.Length1 == cfg.NYears()
    requires veh < cfg.nVehicles
    requires CoversGrid(dismantling, cfg.nVehicles, cfg.startYear, cfg.endYear)
    requires CoversYears(recycling, cfg.startYear, cfg.endYear)
    requires RowsAt(eol, cfg, e, vehicles, dismantling, recycling, veh, 0, 2)
    modifies eol
    ensures RowsDone(eol, cfg, e, vehicles, dismantling, recycling, veh + 1)
  {
    var nY := cfg.NYears();
    var yearNow := 0;
    while yearNow < nY
      invariant 0 <= yearNow <= nY
      invariant RowsAt(eol, cfg, e, vehicles, dismantling, recycling, veh, yearNow, 2)
    {
      var row := eol[veh, yearNow];
      assert (veh + 1, cfg.startYear + yearNow) in dismantling;
      assert cfg.startYear + yearNow in recycling;
      OutputStep(cfg, e, vehicles, dismantling, recycling, veh, yearNow, row);
      var nVeh := row.inputElvs;
      var dism := Scale(nVeh, dismantling[(veh + 1, cfg.startYear + yearNow)]);
      var eff := recycling[cfg.startYear + yearNow];
      var out := Recycled(row.input, dism, eff);
      eol[veh, yearNow] := row.(dismantlingOutput := dism, recyclingOutput := out,
                                recyclingOutputTotal := out.pp + out.pa + out.pc + out.abs);
      yearNow := yearNow + 1;
    }
  }

  /** The two year loops of `calc_recycling` for one vehicle: first the inputs,
      then dismantling and recycling outputs. */
  method VehicleRows(eol: array2<EolFlow>, detail: array3<Flows>, cfg: Config, vehicles: VehicleTable,
                     dismantling: DismantlingTable, recycling: RecyclingTable, ghost e: DetailFn, veh: nat)
    requires eol.Length0 == cfg.nVehicles && eol.Length1 == cfg.NYears()
    requires detail.Length0 == cfg.nVehicles && detail.Length1 == cfg.NYears() && detail.Length2 == cfg.NYears()
    requires forall v, r, n | 0 <= v < detail.Length0 && 0 <= r < detail.Length1 && 0 <= n < detail.Length2 ::
               detail[v, r, n] == e(v, r, n)
    requires veh < cfg.nVehicles
    requires CoversGrid(vehicles, cfg.nVehicles, cfg.startYear, cfg.endYear)
    requires CoversGrid(dismantling, cfg.nVehicles, cfg.startYear, cfg.endYear)
    requires CoversYears(recycling, cfg.startYear, cfg.endYear)
    requires RowsDone(eol, cfg, e, vehicles, dismantling, recycling, veh)
    modifies eol
    ensures RowsDone(eol, cfg, e, vehicles, dismantling, recycling, veh + 1)
  {
    VehicleInputs(eol, detail, cfg, vehicles, dismantling, recycling, e, veh);
    VehicleOutputs(eol, cfg, vehicles, dismantling, recycling, e, veh);
  }

  /** `calc_recycling`: a zero `eol` table filled vehicle by vehicle from the
      final `fleet_detail` table. */
  method CalcRecycling(cfg: Config, vehicles: VehicleTable, detail: array3<Flows>, dismantling: DismantlingTable,
                       recycling: RecyclingTable, ghost e: DetailFn) returns (eol: array2<EolFlow>)
    requires detail.Length0 == cfg.nVehicles && detail.Length1 == cfg.NYears() && detail.Length2 == cfg.NYears()
    requires forall v, r, n | 0 <= v < detail.Length0 && 0 <= r < detail.Length1 && 0 <= n < detail.Length2 ::
               detail[v, r, n] == e(v, r, n)
    requires CoversGrid(vehicles, cfg.nVehicles, cfg.startYear, cfg.endYear)
    requires CoversGrid(dismantling, cfg.nVehicles, cfg.startYear, cfg.endYear)
    requires cfg.nVehicles > 0 ==> CoversYears(recycling, cfg.startYear, cfg.endYear)
    ensures fresh(eol)
    ensures eol.Length0 == cfg.nVehicles && eol.Length1 == cfg.NYears()
    ensures forall v, n | 0 <= v < eol.Length0 && 0 <= n < eol.Length1 ::
              eol[v, n] == EolRow(cfg, e, vehicles, dismantling, recycling, v, n)
  {
    eol := new EolFlow[cfg.nVehicles, cfg.NYears()]((a, b) => NoEol);
    var veh := 0;
    while veh < cfg.nVehicles
      invariant 0 <= veh <= cfg.nVehicles
      invariant RowsDone(eol, cfg, e, vehicles, dismantling, recycling, veh)
    {
      VehicleRows(eol, detail, cfg, vehicles, dismantling, recycling, e, veh);
      veh := veh + 1;
    }
  }
}
