/** The whole calculation (`calc_all`): the five stages run in order on one
    scenario, and the value-level description of its result that the
    sensitivity analysis compares runs with. */
module Pipeline {
  import opened Wrappers
  import opened Tables
  import opened Registrations
  import opened Fleet
  import opened EndOfLife
  import opened Recycling
  import opened ClosedLoop

  /** The five tables `calc_all` returns. */
  datatype Outputs = Outputs(
    registrations: RegistrationTable,
    detail: array3<Flows>,
    fleet: array2<Flows>,
    eol: array2<EolFlow>,
    closedloop: array<ClosedLoopYear>)

  /** Registrations after projection from the scenario's last historical year. */
  function ProjectedRegs(sc: Scenario): RegistrationTable {
    Projected(sc.registrations, sc.cfg, Growth(sc.cagr), InitYear(sc))
  }

  /** `fleet_detail` as `calc_fleet` leaves it. */
  function CohortsOf(sc: Scenario): DetailFn {
    DetailOf(sc.cfg, ProjectedRegs(sc), sc.pdf)
  }

  /** `fleet_detail` and `fleet` as `calc_eol` leaves them. */
  function DetailAfterEol(sc: Scenario): DetailFn {
    EolTable(sc.cfg, CohortsOf(sc), sc.loss)
  }

  function FleetAfterEol(sc: Scenario): FleetFn {
    (v: nat, n: nat) => EolFleetCell(sc.cfg, CohortsOf(sc), FleetOf(sc.cfg, ProjectedRegs(sc), sc.pdf), sc.loss, v, n)
  }

  /** `eol` as `calc_recycling` leaves it. */
  function EolOf(sc: Scenario): EolFn {
    (v: nat, n: nat) => EolRow(sc.cfg, DetailAfterEol(sc), sc.vehicles, sc.dismantling, sc.recycling, v, n)
  }

  /** `closedloop`, one row per year of the run. */
  function ClosedLoopOf(sc: Scenario): (r: seq<ClosedLoopYear>)
    ensures |r| == sc.cfg.NYears()
  {
    seq(sc.cfg.NYears(), (n: int) requires 0 <= n =>
      ClosedLoopRow(sc.cfg, ProjectedRegs(sc), sc.vehicles, EolOf(sc), sc.production, n))
  }

  /** The result of `calc_all` on `sc` as a value: the error it raises, or its
      closed-loop table. */
  function Simulate(sc: Scenario): (r: Result<seq<ClosedLoopYear>, Error>)
    ensures r.Success? <==> sc.nInitYears > 0 && Covers(sc)
  {
    if sc.nInitYears == 0 then Failure(ConfigurationError)
    else if !Covers(sc) then Failure(DataShapeError)
    else Success(ClosedLoopOf(sc))
  }

  /** With a baseline year and every historical key present, the projected
      registrations cover every vehicle and year of the run. */
  lemma ProjectionCovers(sc: Scenario)
    requires sc.nInitYears > 0 && Covers(sc)
    ensures CoversGrid(ProjectedRegs(sc), sc.cfg.nVehicles, sc.cfg.startYear, sc.cfg.endYear)
  {
    var c := sc.cfg;
    forall id: int, year: int | 1 <= id <= c.nVehicles && c.startYear <= year <= c.endYear
      ensures (id, year) in ProjectedRegs(sc)
    {
      ProjectedAt(sc.registrations, c, Growth(sc.cagr), InitYear(sc), id, year);
    }
  }

  /** The four stages after projection, on a scenario with a baseline year
      and every key the stages read: each table as its stage leaves it. */
  method Stages(sc: Scenario, registrations: RegistrationTable) returns (o: Outputs)
    requires sc.nInitYears > 0 && Covers(sc) && registrations == ProjectedRegs(sc)
    ensures fresh(o.detail) && fresh(o.fleet) && fresh(o.eol) && fresh(o.closedloop)
    ensures o.registrations == registrations
    ensures Shaped(o.detail, o.fleet, sc.cfg)
    ensures forall v, q, n | 0 <= v < o.detail.Length0 && 0 <= q < o.detail.Length1 && 0 <= n < o.detail.Length2 ::
              o.detail[v, q, n] == DetailAfterEol(sc)(v, q, n)
    ensures forall v, n | 0 <= v < o.fleet.Length0 && 0 <= n < o.fleet.Length1 :: o.fleet[v, n] == FleetAfterEol(sc)(v, n)
    ensures o.eol.Length0 == sc.cfg.nVehicles && o.eol.Length1 == sc.cfg.NYears()
    ensures forall v, n | 0 <= v < o.eol.Length0 && 0 <= n < o.eol.Length1 :: o.eol[v, n] == EolOf(sc)(v, n)
    ensures o.closedloop[..] == ClosedLoopOf(sc)
  {
    var c := sc.cfg;
    ProjectionCovers(sc);
    var detail, fleet := CalcFleet(c, registrations, sc.pdf);
    ghost var d := CohortsOf(sc);
    ghost var f := FleetOf(c, registrations, sc.pdf);
    CalcEol(detail, fleet, c, sc.loss, d, f);

    var eol := CalcRecycling(c, sc.vehicles, detail, sc.dismantling, sc.recycling, DetailAfterEol(sc));
    var closedloop := CalcClosedLoop(c, sc.vehicles, registrations, eol, EolOf(sc), sc.production);
    assert closedloop[..] == ClosedLoopOf(sc);
    o := Outputs(registrations, detail, fleet, eol, closedloop);
  }

  /** `calc_all`: projection, fleet, end of life, recycling and closed-loop
      rates, each stage on the tables the previous one produced. Fails like the
      source when no baseline year exists, and when an input lacks a key one
      of the stages reads. */
  method CalcAll(sc: Scenario) returns (r: Result<Outputs, Error>)
    ensures r.Failure? <==> Simulate(sc).Failure?
    ensures r.Failure? ==> r.error == Simulate(sc).error
    ensures r.Success? ==>
      && fresh(r.value.detail) && fresh(r.value.fleet) && fresh(r.value.eol) && fresh(r.value.closedloop)
      && r.value.registrations == ProjectedRegs(sc)
      && Shaped(r.value.detail, r.value.fleet, sc.cfg)
      && (forall v, q, n | 0 <= v < r.value.detail.Length0 && 0 <= q < r.value.detail.Length1 && 0 <= n < r.value.detail.Length2 ::
            r.value.detail[v, q, n] == DetailAfterEol(sc)(v, q, n))
      && (forall v, n | 0 <= v < r.value.fleet.Length0 && 0 <= n < r.value.fleet.Length1 ::
            r.value.fleet[v, n] == FleetAfterEol(sc)(v, n))
      && r.value.eol.Length0 == sc.cfg.nVehicles && r.value.eol.Length1 == sc.cfg.NYears()
      && (forall v, n | 0 <= v < r.value.eol.Length0 && 0 <= n < r.value.eol.Length1 ::
            r.value.eol[v, n] == EolOf(sc)(v, n))
      && r.value.closedloop[..] == Simulate(sc).value
  {
    var c := sc.cfg;
    if sc.nInitYears > 0 && !Covers(sc) {
      return Failure(DataShapeError);
    }
    var regs := CalcRegistrations(c, sc.cagr, sc.nInitYears, sc.registrations);
    if regs.Failure? {
      return Failure(regs.error);
    }
    var o := Stages(sc, regs.value);
    return Success(o);
  }
}
