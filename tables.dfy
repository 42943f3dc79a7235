/** The tables of one scenario: the leaf inputs read from the workbook, and the
    row types of the tables the calculation produces.

    Keys follow the source's pandas indices: vehicle-model ids run from 1 to
    `nVehicles`, years are calendar years. The calculated tables are arrays
    indexed by `id - 1` and `year - startYear`. */
module Tables {
  import opened Wrappers

  datatype Polymer = PP | PA | PC | ABS

  const Polymers: seq<Polymer> := [PP, PA, PC, ABS]

  /** One value per polymer: the source's `*_pp`, `*_pa`, `*_pc`, `*_abs` column groups. */
  datatype PerPolymer<T> = PerPolymer(pp: T, pa: T, pc: T, abs: T) {
    function Get(p: Polymer): T {
      match p
      case PP => pp
      case PA => pa
      case PC => pc
      case ABS => abs
    }

    function Set(p: Polymer, x: T): (r: PerPolymer<T>)
      ensures r.Get(p) == x
      ensures forall q :: q != p ==> r.Get(q) == Get(q)
    {
      match p
      case PP => this.(pp := x)
      case PA => this.(pa := x)
      case PC => this.(pc := x)
      case ABS => this.(abs := x)
    }
  }

  /** The per-polymer table whose entry for `p` is `f(p)`. */
  function Lift<T>(f: Polymer -> T): (r: PerPolymer<T>)
    ensures forall p :: r.Get(p) == f(p)
  {
    PerPolymer(f(PP), f(PA), f(PC), f(ABS))
  }

  const NoPolymer: PerPolymer<real> := PerPolymer(0.0, 0.0, 0.0, 0.0)

  function Total(q: PerPolymer<real>): real {
    q.pp + q.pa + q.pc + q.abs
  }

  function Plus(a: PerPolymer<real>, b: PerPolymer<real>): (r: PerPolymer<real>)
    ensures forall p :: r.Get(p) == a.Get(p) + b.Get(p)
  {
    PerPolymer(a.pp + b.pp, a.pa + b.pa, a.pc + b.pc, a.abs + b.abs)
  }

  // ---------------------------------------------------------------- inputs

  /** Sheet "vehicles_data": mass in kg, plastic share of the mass and polymer
      shares of the plastic, all shares in percent. */
  datatype VehicleSpec = VehicleSpec(totalMass: real, plasticContent: real, content: PerPolymer<real>)

  /** Sheet "loss": percentages of the exits that are exported or whose whereabouts are unknown. */
  datatype LossRates = LossRates(exports: real, unknownWhereabouts: real)

  /** Sheet "production": conversion efficiency of recycled input and the
      maximum recycled share of demand, both per polymer and in percent. */
  datatype ProductionSpec = ProductionSpec(efficiency: PerPolymer<real>, maxShare: PerPolymer<real>)

  type VehicleTable = map<(int, int), VehicleSpec>
  type RegistrationTable = map<(int, int), real>
  type LossTable = map<int, LossRates>
  /** kg of each polymer recovered by dismantling one vehicle. */
  type DismantlingTable = map<(int, int), PerPolymer<real>>
  /** Recycling efficiency of the post-dismantling fraction, per polymer, in percent. */
  type RecyclingTable = map<int, PerPolymer<real>>
  type ProductionTable = map<int, ProductionSpec>

  /** The Weibull density with the run's shape and scale, as a function of age in
      years. The source evaluates it with a foreign numeric library. */
  type Density = nat -> real

  datatype Config = Config(startYear: int, endYear: int, nVehicles: nat) {
    /** Number of years in `range(startYear, endYear + 1)`. */
    function NYears(): nat {
      if endYear >= startYear then endYear - startYear + 1 else 0
    }
  }

  /** Every leaf input of one full calculation (the arguments of `calc_all`). */
  datatype Scenario = Scenario(
    cfg: Config,
    vehicles: VehicleTable,
    cagr: real,
    nInitYears: nat,
    registrations: RegistrationTable,
    loss: LossTable,
    dismantling: DismantlingTable,
    recycling: RecyclingTable,
    production: ProductionTable,
    pdf: Density)

  datatype Error =
    | ConfigurationError  // no registration year to project from
    | DataShapeError      // an input table lacks a key the calculation reads

  // --------------------------------------------------------------- lookups
  // Reading a missing key raises in the source. Every operation that reads a
  // table requires (or checks) the keys it reads, so the zero returned for a
  // missing key below is never used by a modelled run.

  const NoVehicle := VehicleSpec(0.0, 0.0, NoPolymer)
  const NoLoss := LossRates(0.0, 0.0)
  const NoProduction := ProductionSpec(NoPolymer, NoPolymer)

  function RegAt(t: RegistrationTable, id: int, year: int): real {
    if (id, year) in t then t[(id, year)] else 0.0
  }

  function VehicleAt(t: VehicleTable, id: int, year: int): VehicleSpec {
    if (id, year) in t then t[(id, year)] else NoVehicle
  }

  function LossAt(t: LossTable, year: int): LossRates {
    if year in t then t[year] else NoLoss
  }

  function DismantlingAt(t: DismantlingTable, id: int, year: int): PerPolymer<real> {
    if (id, year) in t then t[(id, year)] else NoPolymer
  }

  function RecyclingAt(t: RecyclingTable, year: int): PerPolymer<real> {
    if year in t then t[year] else NoPolymer
  }

  function ProductionAt(t: ProductionTable, year: int): ProductionSpec {
    if year in t then t[year] else NoProduction
  }

  /** `t` has a row for every vehicle id 1..n and every year in [from, to]. */
  predicate CoversGrid<V>(t: map<(int, int), V>, n: nat, from: int, to: int) {
    forall id: int, year: int | 1 <= id <= n && from <= year <= to :: (id, year) in t
  }

  /** `t` has a row for every year in [from, to]. */
  predicate CoversYears<V>(t: map<int, V>, from: int, to: int) {
    forall year: int | from <= year <= to :: year in t
  }

  /** The last year with historical registrations. */
  function InitYear(sc: Scenario): int {
    sc.cfg.startYear + sc.nInitYears - 1
  }

  /** Every key that one full calculation reads exists. Loss and recycling rows
      are read only inside the per-vehicle loops, so they are needed only when
      there is a vehicle. */
  predicate Covers(sc: Scenario) {
    var c := sc.cfg;
    && CoversGrid(sc.registrations, c.nVehicles, c.startYear,
                  if InitYear(sc) < c.endYear then InitYear(sc) else c.endYear)
    && CoversGrid(sc.vehicles, c.nVehicles, c.startYear, c.endYear)
    && CoversGrid(sc.dismantling, c.nVehicles, c.startYear, c.endYear)
    && (c.nVehicles > 0 ==> CoversYears(sc.loss, c.startYear, c.endYear))
    && (c.nVehicles > 0 ==> CoversYears(sc.recycling, c.startYear, c.endYear))
    && CoversYears(sc.production, c.startYear, c.endYear)
  }

  // ---------------------------------------------------------------- outputs

  /** One cell of `fleet_detail` (per vehicle, registration year and current
      year) or of `fleet` (per vehicle and current year). */
  datatype Flows = Flows(stock: real, elvsExit: real, elvsExport: real, elvsUnknown: real, elvsRecycling: real)

  const NoFlows := Flows(0.0, 0.0, 0.0, 0.0, 0.0)

  /** The contents of a `fleet_detail` table as a function of (vehicle index,
      registration year index, current year index), and of a `fleet` table as
      a function of (vehicle index, year index). */
  type DetailFn = (nat, nat, nat) -> Flows
  type FleetFn = (nat, nat) -> Flows

  /** One row of `eol`: polymer masses and vehicle count entering recycling, the
      dismantled masses and the recycling output. */
  datatype EolFlow = EolFlow(
    input: PerPolymer<real>,
    inputElvs: real,
    dismantlingOutput: PerPolymer<real>,
    recyclingOutput: PerPolymer<real>,
    recyclingOutputTotal: real)

  const NoEol := EolFlow(NoPolymer, 0.0, NoPolymer, NoPolymer, 0.0)

  /** One row of `closedloop`. Supplies and rates are `None` where the source
      divides by zero and stores an infinite or not-a-number value. */
  datatype ClosedLoopYear = ClosedLoopYear(
    demand: PerPolymer<real>,
    demandPlastic: real,
    supply: PerPolymer<Option<real>>,
    supplyTotal: Option<real>,
    rate: PerPolymer<Option<real>>,
    total: Option<real>)

  /** The zero row every table starts from. */
  const NoClosedLoop := ClosedLoopYear(NoPolymer, 0.0, PerPolymer(Some(0.0), Some(0.0), Some(0.0), Some(0.0)),
                                       Some(0.0), PerPolymer(Some(0.0), Some(0.0), Some(0.0), Some(0.0)), Some(0.0))
}
