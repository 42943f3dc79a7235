/** Stage 5 of the calculation: closed-loop rates (`calc_closedloop`). Per
    year, the polymer demand of the year's new registrations is compared with
    the recycled supply; the supply a producer can use is capped at the
    maximum recycled share of demand, and the closed-loop rate is the share
    of demand the usable recycled polymer covers. */
module ClosedLoop {
  import opened Wrappers
  import opened Tables
  import opened Recycling

  /** The type of an `eol` table's contents, by (vehicle index, year index). */
  type EolFn = (nat, nat) -> EolFlow

  /** Polymer demand of the registrations of vehicle index `a` in year index `n`. */
  function NewDemand(cfg: Config, regs: RegistrationTable, vehicles: VehicleTable, a: nat, n: nat): PerPolymer<real> {
    PolymerMass(RegAt(regs, a + 1, cfg.startYear + n), VehicleAt(vehicles, a + 1, cfg.startYear + n))
  }

  /** Plastic mass of the registrations of vehicle index `a` in year index `n`. */
  function NewPlastic(cfg: Config, regs: RegistrationTable, vehicles: VehicleTable, a: nat, n: nat): real {
    PlasticMass(RegAt(regs, a + 1, cfg.startYear + n), VehicleAt(vehicles, a + 1, cfg.startYear + n))
  }

  /** Demand of year index `n` over the vehicle indices below `k`. */
  function Demand(cfg: Config, regs: RegistrationTable, vehicles: VehicleTable, n: nat, k: nat): PerPolymer<real>
    decreases k
  {
    if k == 0 then NoPolymer else Plus(Demand(cfg, regs, vehicles, n, k - 1), NewDemand(cfg, regs, vehicles, k - 1, n))
  }

  function DemandPlastic(cfg: Config, regs: RegistrationTable, vehicles: VehicleTable, n: nat, k: nat): real
    decreases k
  {
    if k == 0 then 0.0 else DemandPlastic(cfg, regs, vehicles, n, k - 1) + NewPlastic(cfg, regs, vehicles, k - 1, n)
  }

  /** Recycled supply of year index `n`: the recycling outputs of the vehicle indices below `k`. */
  function Supply(ev: EolFn, n: nat, k: nat): PerPolymer<real>
    decreases k
  {
    if k == 0 then NoPolymer else Plus(Supply(ev, n, k - 1), ev(k - 1, n).recyclingOutput)
  }

  /** The usable supply: when the converted supply `supply * eff` exceeds the
      maximum recycled share of demand, the supply is cut back to what converts
      to exactly that share. `None` where that cut divides by a zero efficiency. */
  function Cap(supply: real, eff: real, demand: real, maxShare: real): (r: Option<real>)
    ensures r.None? <==> eff == 0.0 && demand * maxShare / 100.0 < 0.0
    ensures r.Some? ==> r.value * eff <= demand * maxShare / 100.0
    ensures r.Some? ==> (r.value == supply <==> supply * eff <= demand * maxShare / 100.0)
  {
    var limit := demand * maxShare / 100.0;
    if supply * eff > limit then
      (if eff == 0.0 then None
       else
         assert limit / eff * eff == limit;
         Some(limit / eff))
    else Some(supply)
  }

  /** Closed-loop rate in percent: converted supply over demand. `None` for a
      zero demand or an unusable supply. */
  function Rate(supply: Option<real>, eff: real, demand: real): (r: Option<real>)
    ensures r.Some? <==> supply.Some? && demand != 0.0
    ensures r.Some? ==> r.value * demand == supply.value * eff * 100.0
  {
    if supply.None? || demand == 0.0 then None
    else
      var rate := supply.value * eff / demand * 100.0;
      assert rate * demand == supply.value * eff * 100.0;
      Some(rate)
  }

  function CapAll(supply: PerPolymer<real>, eff: PerPolymer<real>, demand: PerPolymer<real>, maxShare: PerPolymer<real>)
    : (r: PerPolymer<Option<real>>)
    ensures forall p :: r.Get(p) == Cap(supply.Get(p), eff.Get(p), demand.Get(p), maxShare.Get(p))
  {
    PerPolymer(Cap(supply.pp, eff.pp, demand.pp, maxShare.pp), Cap(supply.pa, eff.pa, demand.pa, maxShare.pa),
               Cap(supply.pc, eff.pc, demand.pc, maxShare.pc), Cap(supply.abs, eff.abs, demand.abs, maxShare.abs))
  }

  function RateAll(supply: PerPolymer<Option<real>>, eff: PerPolymer<real>, demand: PerPolymer<real>): (r: PerPolymer<Option<real>>)
    ensures forall p :: r.Get(p) == Rate(supply.Get(p), eff.Get(p), demand.Get(p))
  {
    PerPolymer(Rate(supply.pp, eff.pp, demand.pp), Rate(supply.pa, eff.pa, demand.pa),
               Rate(supply.pc, eff.pc, demand.pc), Rate(supply.abs, eff.abs, demand.abs))
  }

  predicate AllSome(q: PerPolymer<Option<real>>) {
    q.pp.Some? && q.pa.Some? && q.pc.Some? && q.abs.Some?
  }

  /** Sum of the four supplies; not finite as soon as one of them is not. */
  function SupplyTotal(q: PerPolymer<Option<real>>): (r: Option<real>)
    ensures r.Some? <==> AllSome(q)
  {
    if AllSome(q) then Some(q.pp.value + q.pa.value + q.pc.value + q.abs.value) else None
  }

  /** Overall closed-loop rate: converted supply of all polymers over the plastic demand. */
  function TotalRate(supply: PerPolymer<Option<real>>, eff: PerPolymer<real>, demandPlastic: real): (r: Option<real>)
    ensures r.Some? <==> AllSome(supply) && demandPlastic != 0.0
  {
    if !AllSome(supply) || demandPlastic == 0.0 then None
    else
      var converted := supply.pp.value * eff.pp + supply.pa.value * eff.pa + supply.pc.value * eff.pc + supply.abs.value * eff.abs;
      Some(converted / demandPlastic * 100.0)
  }

  /** The row `closedloop[year]` once demand, plastic demand and supply of the year are summed. */
  function RowOf(demand: PerPolymer<real>, demandPlastic: real, supply: PerPolymer<real>, p: ProductionSpec): ClosedLoopYear {
    var eff := PerPolymer(p.efficiency.pp / 100.0, p.efficiency.pa / 100.0, p.efficiency.pc / 100.0, p.efficiency.abs / 100.0);
    var capped := CapAll(supply, eff, demand, p.maxShare);
    ClosedLoopYear(demand, demandPlastic, capped, SupplyTotal(capped), RateAll(capped, eff, demand), TotalRate(capped, eff, demandPlastic))
  }

  /** The row `closedloop[startYear + n]`. */
  function ClosedLoopRow(cfg: Config, regs: RegistrationTable, vehicles: VehicleTable, ev: EolFn, production: ProductionTable, n: nat)
    : ClosedLoopYear
  {
    RowOf(Demand(cfg, regs, vehicles, n, cfg.nVehicles), DemandPlastic(cfg, regs, vehicles, n, cfg.nVehicles),
          Supply(ev, n, cfg.nVehicles), ProductionAt(production, cfg.startYear + n))
  }

  // ------------------------------------------------------------ properties

  /** The cap never asks for more recycled input than the maximum share of
      demand, and never raises the supply: with a positive efficiency it is
      finite, at most the raw supply, and converts to at most the limit. */
  lemma CapBounds(supply: real, eff: real, demand: real, maxShare: real)
    requires eff > 0.0
    ensures var c := Cap(supply, eff, demand, maxShare);
            && c.Some?
            && c.value <= supply
            && c.value * eff <= demand * maxShare / 100.0
  {
    var limit := demand * maxShare / 100.0;
    if supply * eff > limit {
      var c := limit / eff;
      assert c * eff == limit;
      CutBelow(supply, eff, c);
    }
  }

  lemma CutBelow(supply: real, eff: real, c: real)
    requires eff > 0.0 && supply * eff > c * eff
    ensures c <= supply
  {
  }

  /** A supply within the limit is left as it is: capping twice is capping once. */
  lemma CapIdempotent(supply: real, eff: real, demand: real, maxShare: real)
    requires Cap(supply, eff, demand, maxShare).Some?
    ensures var c := Cap(supply, eff, demand, maxShare).value;
            Cap(c, eff, demand, maxShare) == Some(c)
  {
    var limit := demand * maxShare / 100.0;
    if supply * eff > limit {
      var c := limit / eff;
      assert c * eff == limit;
    }
  }

  /** Exactly the supplies the cap lets through unchanged: those whose
      converted mass is within the maximum share of demand. */
  lemma CapUnchangedIff(supply: real, eff: real, demand: real, maxShare: real)
    requires eff != 0.0
    ensures Cap(supply, eff, demand, maxShare) == Some(supply) <==> supply * eff <= demand * maxShare / 100.0
  {
    var limit := demand * maxShare / 100.0;
    if supply * eff > limit {
      var c := limit / eff;
      assert c * eff == limit;
      assert c != supply;
    }
  }

  /** With a non-negative demand and maximum share the cap is always
      finite: the cut that divides by the efficiency is only reached with a
      non-zero efficiency. */
  lemma CapFinite(supply: real, eff: real, demand: real, maxShare: real)
    requires demand >= 0.0 && maxShare >= 0.0
    ensures Cap(supply, eff, demand, maxShare).Some?
    ensures supply * eff > demand * maxShare / 100.0 ==> eff != 0.0
  {
    assert demand * maxShare >= 0.0;
  }

  /** The closed-loop rate of a polymer never exceeds its maximum recycled
      share, whatever the efficiency, and is non-negative for a non-negative
      supply and efficiency. */
  lemma RateWithinMaxShare(supply: real, eff: real, demand: real, maxShare: real)
    requires demand > 0.0 && maxShare >= 0.0
    ensures var r := Rate(Cap(supply, eff, demand, maxShare), eff, demand);
            && r.Some?
            && r.value <= maxShare
            && (supply >= 0.0 && eff >= 0.0 ==> r.value >= 0.0)
  {
    CapFinite(supply, eff, demand, maxShare);
    var c := Cap(supply, eff, demand, maxShare).value;
    var converted := c * eff;
    var limit := demand * maxShare / 100.0;
    assert converted <= limit;
    ShareBound(converted, demand, maxShare);
    if supply >= 0.0 && eff >= 0.0 {
      if supply * eff > limit {
        assert converted == limit by {
          assert c == limit / eff;
        }
        assert limit >= 0.0 by {
          assert demand * maxShare >= 0.0;
        }
      } else {
        assert c == supply;
        assert converted >= 0.0;
      }
      assert converted / demand * 100.0 >= 0.0;
    }
  }

  lemma ShareBound(converted: real, demand: real, maxShare: real)
    requires demand > 0.0 && converted <= demand * maxShare / 100.0
    ensures converted / demand * 100.0 <= maxShare
  {
    var q := converted / demand;
    assert q * demand == converted;
    if q * 100.0 > maxShare {
      assert q * 100.0 * demand > maxShare * demand;
    }
  }

  /** Where every rate is finite, the overall rate is the demand-weighted mean
      of the polymer rates over the plastic demand. */
  lemma TotalIsWeightedRate(row: ClosedLoopYear, eff: PerPolymer<real>)
    requires AllSome(row.supply) && row.demandPlastic != 0.0
    requires row.demand.pp != 0.0 && row.demand.pa != 0.0 && row.demand.pc != 0.0 && row.demand.abs != 0.0
    requires row.rate == RateAll(row.supply, eff, row.demand)
    requires row.total == TotalRate(row.supply, eff, row.demandPlastic)
    ensures AllSome(row.rate)
    ensures row.total.value == (row.rate.pp.value * row.demand.pp + row.rate.pa.value * row.demand.pa
                                + row.rate.pc.value * row.demand.pc + row.rate.abs.value * row.demand.abs) / row.demandPlastic
  {
    var s := row.supply;
    WeightedTerm(s.pp.value, eff.pp, row.demand.pp);
    WeightedTerm(s.pa.value, eff.pa, row.demand.pa);
    WeightedTerm(s.pc.value, eff.pc, row.demand.pc);
    WeightedTerm(s.abs.value, eff.abs, row.demand.abs);
    var converted := s.pp.value * eff.pp + s.pa.value * eff.pa + s.pc.value * eff.pc + s.abs.value * eff.abs;
    var weighted := row.rate.pp.value * row.demand.pp + row.rate.pa.value * row.demand.pa
                    + row.rate.pc.value * row.demand.pc + row.rate.abs.value * row.demand.abs;
    assert weighted == converted * 100.0;
    assert row.total.value == converted / row.demandPlastic * 100.0;
    assert converted / row.demandPlastic * 100.0 == converted * 100.0 / row.demandPlastic;
  }

  lemma WeightedTerm(s: real, eff: real, demand: real)
    requires demand != 0.0
    ensures s * eff / demand * 100.0 * demand == s * eff * 100.0
  {
    var q := s * eff / demand;
    assert q * demand == s * eff;
  }

  /** The polymer shares of vehicles 1 to `k` in `year` add up to 100 %. */
  predicate SharesComplete(vehicles: VehicleTable, k: nat, year: int) {
    forall id | 1 <= id <= k :: Total(VehicleAt(vehicles, id, year).content) == 100.0
  }

  /** When every vehicle's polymer shares add up to 100 %, the plastic demand
      is the sum of the four polymer demands. */
  lemma {:induction false} PlasticDemandIsTotal(cfg: Config, regs: RegistrationTable, vehicles: VehicleTable, n: nat, k: nat)
    requires SharesComplete(vehicles, k, cfg.startYear + n)
    ensures DemandPlastic(cfg, regs, vehicles, n, k) == Total(Demand(cfg, regs, vehicles, n, k))
    decreases k
  {
    if k > 0 {
      PlasticDemandIsTotal(cfg, regs, vehicles, n, k - 1);
      var s := VehicleAt(vehicles, k, cfg.startYear + n);
      var count := RegAt(regs, k, cfg.startYear + n);
      assert Total(s.content) == 100.0;
      PolymerMassTotal(count, s);
      assert Total(NewDemand(cfg, regs, vehicles, k - 1, n)) == NewPlastic(cfg, regs, vehicles, k - 1, n);
      TotalPlus(Demand(cfg, regs, vehicles, n, k - 1), NewDemand(cfg, regs, vehicles, k - 1, n));
    }
  }

  lemma TotalPlus(a: PerPolymer<real>, b: PerPolymer<real>)
    ensures Total(Plus(a, b)) == Total(a) + Total(b)
  {
  }

  // ------------------------------------------------------------- the method

  /** The vehicle loop of one year: demand, plastic demand and raw supply. */
  method SumYear(cfg: Config, regs: RegistrationTable, vehicles: VehicleTable, eol: array2<EolFlow>, ghost ev: EolFn, n: nat)
    returns (demand: PerPolymer<real>, demandPlastic: real, supply: PerPolymer<real>)
    requires eol.Length0 == cfg.nVehicles && n < eol.Length1
    requires forall v, c | 0 <= v < eol.Length0 && 0 <= c < eol.Length1 :: eol[v, c] == ev(v, c)
    requires CoversGrid(regs, cfg.nVehicles, cfg.startYear + n, cfg.startYear + n)
    requires CoversGrid(vehicles, cfg.nVehicles, cfg.startYear + n, cfg.startYear + n)
    ensures demand == Demand(cfg, regs, vehicles, n, cfg.nVehicles)
    ensures demandPlastic == DemandPlastic(cfg, regs, vehicles, n, cfg.nVehicles)
    ensures supply == Supply(ev, n, cfg.nVehicles)
  {
    demand, demandPlastic, supply := NoPolymer, 0.0, NoPolymer;
    var veh := 0;
    while veh < cfg.nVehicles
      invariant 0 <= veh <= cfg.nVehicles
      invariant demand == Demand(cfg, regs, vehicles, n, veh)
      invariant demandPlastic == DemandPlastic(cfg, regs, vehicles, n, veh)
      invariant supply == Supply(ev, n, veh)
    {
      var nVeh := regs[(veh + 1, cfg.startYear + n)];
      var s := vehicles[(veh + 1, cfg.startYear + n)];
      demand := Plus(demand, PolymerMass(nVeh, s));
      demandPlastic := demandPlastic + PlasticMass(nVeh, s);
      supply := Plus(supply, eol[veh, n].recyclingOutput);
      veh := veh + 1;
    }
  }

  /** `calc_closedloop`: one row per year of the run. */
  method CalcClosedLoop(cfg: Config, vehicles: VehicleTable, regs: RegistrationTable, eol: array2<EolFlow>, ghost ev: EolFn,
                        production: ProductionTable) returns (closedloop: array<ClosedLoopYear>)
    requires eol.Length0 == cfg.nVehicles && eol.Length1 == cfg.NYears()
    requires forall v, c | 0 <= v < eol.Length0 && 0 <= c < eol.Length1 :: eol[v, c] == ev(v, c)
    requires CoversGrid(regs, cfg.nVehicles, cfg.startYear, cfg.endYear)
    requires CoversGrid(vehicles, cfg.nVehicles, cfg.startYear, cfg.endYear)
    requires CoversYears(production, cfg.startYear, cfg.endYear)
    ensures fresh(closedloop)
    ensures closedloop.Length == cfg.NYears()
    ensures forall n | 0 <= n < closedloop.Length :: closedloop[n] == ClosedLoopRow(cfg, regs, vehicles, ev, production, n)
  {
    closedloop := new ClosedLoopYear[cfg.NYears()](_ => NoClosedLoop);
    var yearNow := 0;
    while yearNow < cfg.NYears()
      invariant 0 <= yearNow <= cfg.NYears()
      invariant forall n | 0 <= n < yearNow :: closedloop[n] == ClosedLoopRow(cfg, regs, vehicles, ev, production, n)
    {
      var demand, demandPlastic, supply := SumYear(cfg, regs, vehicles, eol, ev, yearNow);
      closedloop[yearNow] := RowOf(demand, demandPlastic, supply, production[cfg.startYear + yearNow]);
      yearNow := yearNow + 1;
    }
  }
}
