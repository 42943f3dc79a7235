/** The sensitivity analysis (`run_sa`): one plus and one minus run of the
    whole calculation per catalogue entry, with the closed-loop results, the
    titles and the tables of every run collected in catalogue order. */
module Analyzer {
  import opened Wrappers
  import opened Tables
  import opened Pipeline
  import opened Parameters
  import opened Perturbation

  /** What a run is filed under its key: its inputs and the tables it computed. */
  datatype Audit = Audit(inputs: Scenario, outputs: Outputs)

  /** The names of the ten tables each audit entry lists. */
  const TmpElements: seq<string> :=
    ["vehicles_data", "cagr", "registrations", "fleet_detail", "fleet", "eol", "loss", "dismantling", "recycling", "production"]

  /** Everything `run_sa` returns. */
  datatype Sweep = Sweep(
    plus: seq<seq<ClosedLoopYear>>,
    minus: seq<seq<ClosedLoopYear>>,
    titles: seq<string>,
    tmpPlus: map<string, Audit>,
    tmpMinus: map<string, Audit>,
    tmpElements: seq<string>)

  /** The keys of the first `k` catalogue entries, in order. */
  function NamesUpTo(cat: seq<Param>, k: nat): (r: seq<string>)
    requires k <= |cat|
    ensures |r| == k && forall m | 0 <= m < k :: r[m] == Name(cat[m])
  {
    seq(k, m requires 0 <= m < k => Name(cat[m]))
  }

  /** The inputs of the plus (or minus) runs of the first `k` catalogue entries. */
  ghost function InputsUpTo(sc: Scenario, s: real, cat: seq<Param>, k: nat, plus: bool): (r: seq<Scenario>)
    requires SaCovers(sc) && k <= |cat|
    requires forall m | 0 <= m < |cat| :: InCatalogue(sc.cfg.nVehicles, cat[m])
    ensures |r| == k && forall m | 0 <= m < k :: r[m] == Perturbed(sc, cat[m], s, plus)
  {
    seq(k, m requires 0 <= m < k => Perturbed(sc, cat[m], s, plus))
  }

  /** A dictionary holding exactly one audit entry per key, the `m`-th key's
      entry being a run on the `m`-th inputs. */
  ghost predicate FiledUnder(d: map<string, Audit>, keys: seq<string>, inputs: seq<Scenario>)
    requires |keys| == |inputs|
  {
    && (forall x :: x in d <==> x in keys)
    && |d| == |keys|
    && forall m | 0 <= m < |keys| :: keys[m] in d && d[keys[m]].inputs == inputs[m]
  }

  /** Filing an audit entry under a new key keeps a dictionary filed. */
  lemma FileNew(d: map<string, Audit>, keys: seq<string>, inputs: seq<Scenario>, key: string, a: Audit)
    requires |keys| == |inputs| && FiledUnder(d, keys, inputs)
    requires key !in keys
    ensures FiledUnder(d[key := a], keys + [key], inputs + [a.inputs])
  {
    var keys', inputs' := keys + [key], inputs + [a.inputs];
    assert key !in d;
    forall m | 0 <= m < |keys'|
      ensures keys'[m] in d[key := a] && d[key := a][keys'[m]].inputs == inputs'[m]
    {
      if m < |keys| {
        assert keys'[m] == keys[m] && keys[m] != key;
      }
    }
  }

  /** The closed-loop tables and titles of the first `k` catalogue entries, in order. */
  ghost predicate RunsFiled(sc: Scenario, s: real, cat: seq<Param>, k: nat, w: Sweep)
    requires SaCovers(sc) && k <= |cat|
    requires forall m | 0 <= m < |cat| :: InCatalogue(sc.cfg.nVehicles, cat[m])
  {
    && |w.plus| == k && |w.minus| == k && |w.titles| == k
    && forall m | 0 <= m < k ::
         && w.plus[m] == ClosedLoopOf(Perturbed(sc, cat[m], s, true))
         && w.minus[m] == ClosedLoopOf(Perturbed(sc, cat[m], s, false))
         && w.titles[m] == Title(cat[m])
  }

  /** The sweep holds the runs of the first `k` catalogue entries, in order:
      their closed-loop tables, their titles, and their audit entries under
      their keys. */
  ghost predicate SweptUpTo(sc: Scenario, s: real, cat: seq<Param>, k: nat, w: Sweep)
    requires SaCovers(sc) && k <= |cat|
    requires forall m | 0 <= m < |cat| :: InCatalogue(sc.cfg.nVehicles, cat[m])
  {
    && RunsFiled(sc, s, cat, k, w)
    && FiledUnder(w.tmpPlus, NamesUpTo(cat, k), InputsUpTo(sc, s, cat, k, true))
    && FiledUnder(w.tmpMinus, NamesUpTo(cat, k), InputsUpTo(sc, s, cat, k, false))
    && w.tmpElements == TmpElements
  }

  /** One calculation on perturbed inputs; it cannot fail when the baseline cannot. */
  method RunPerturbed(sc: Scenario, c: Param, s: real, plus: bool) returns (inputs: Scenario, outputs: Outputs)
    requires sc.nInitYears > 0 && SaCovers(sc) && InCatalogue(sc.cfg.nVehicles, c)
    ensures inputs == Perturbed(sc, c, s, plus)
    ensures outputs.closedloop[..] == ClosedLoopOf(inputs)
  {
    inputs := PerturbScenario(sc, c, s, plus);
    PerturbedCovers(sc, c, s, plus);
    PerturbedTouchesOneInput(sc, c, s, plus);
    var r := CalcAll(inputs);
    assert r.Success?;
    outputs := r.value;
  }

  /** The key of entry `k` is not among the keys of the entries before it. */
  lemma FreshName(n: nat, k: nat)
    requires k < |Catalogue(n)|
    ensures Name(Catalogue(n)[k]) !in NamesUpTo(Catalogue(n), k)
  {
    var cat := Catalogue(n);
    forall m | 0 <= m < k
      ensures NamesUpTo(cat, k)[m] != Name(cat[k])
    {
      CatalogueDistinct(n, m, k);
      if Name(cat[m]) == Name(cat[k]) {
        NameInjective(cat[m], cat[k]);
      }
    }
  }

  /** The sweep after filing the runs of catalogue entry `c`. */
  function Filed(w: Sweep, c: Param, up: Audit, upRows: seq<ClosedLoopYear>,
                 down: Audit, downRows: seq<ClosedLoopYear>): Sweep
  {
    w.(plus := w.plus + [upRows],
       minus := w.minus + [downRows],
       titles := w.titles + [Title(c)],
       tmpPlus := w.tmpPlus[Name(c) := up],
       tmpMinus := w.tmpMinus[Name(c) := down])
  }

  /** Appending the runs of entry `k` extends the closed-loop tables and
      titles of the first `k` entries to those of the first `k + 1`. */
  lemma RunsExtend(sc: Scenario, s: real, cat: seq<Param>, k: nat, w: Sweep,
                   up: Audit, upRows: seq<ClosedLoopYear>, down: Audit, downRows: seq<ClosedLoopYear>)
    requires SaCovers(sc) && k < |cat|
    requires forall m | 0 <= m < |cat| :: InCatalogue(sc.cfg.nVehicles, cat[m])
    requires RunsFiled(sc, s, cat, k, w)
    requires upRows == ClosedLoopOf(Perturbed(sc, cat[k], s, true))
    requires downRows == ClosedLoopOf(Perturbed(sc, cat[k], s, false))
    ensures RunsFiled(sc, s, cat, k + 1, Filed(w, cat[k], up, upRows, down, downRows))
  {
    var next := Filed(w, cat[k], up, upRows, down, downRows);
    forall m | 0 <= m < k + 1
      ensures && next.plus[m] == ClosedLoopOf(Perturbed(sc, cat[m], s, true))
              && next.minus[m] == ClosedLoopOf(Perturbed(sc, cat[m], s, false))
              && next.titles[m] == Title(cat[m])
    {
      if m < k {
        assert next.plus[m] == w.plus[m] && next.minus[m] == w.minus[m];
      }
    }
  }

  lemma NamesStep(cat: seq<Param>, k: nat)
    requires k < |cat|
    ensures NamesUpTo(cat, k + 1) == NamesUpTo(cat, k) + [Name(cat[k])]
  {
  }

  lemma InputsStep(sc: Scenario, s: real, cat: seq<Param>, k: nat, plus: bool)
    requires SaCovers(sc) && k < |cat|
    requires forall m | 0 <= m < |cat| :: InCatalogue(sc.cfg.nVehicles, cat[m])
    ensures InputsUpTo(sc, s, cat, k + 1, plus) == InputsUpTo(sc, s, cat, k, plus) + [Perturbed(sc, cat[k], s, plus)]
  {
  }

  /** Filing the runs of entry `k`, whose key is new, extends a sweep of the
      first `k` entries to one of the first `k + 1`. */
  lemma FiledExtends(sc: Scenario, s: real, cat: seq<Param>, k: nat, w: Sweep,
                     up: Audit, upRows: seq<ClosedLoopYear>, down: Audit, downRows: seq<ClosedLoopYear>)
    requires SaCovers(sc) && k < |cat|
    requires forall m | 0 <= m < |cat| :: InCatalogue(sc.cfg.nVehicles, cat[m])
    requires Name(cat[k]) !in NamesUpTo(cat, k)
    requires SweptUpTo(sc, s, cat, k, w)
    requires up.inputs == Perturbed(sc, cat[k], s, true) && upRows == ClosedLoopOf(up.inputs)
    requires down.inputs == Perturbed(sc, cat[k], s, false) && downRows == ClosedLoopOf(down.inputs)
    ensures SweptUpTo(sc, s, cat, k + 1, Filed(w, cat[k], up, upRows, down, downRows))
  {
    RunsExtend(sc, s, cat, k, w, up, upRows, down, downRows);
    NamesStep(cat, k);
    InputsStep(sc, s, cat, k, true);
    InputsStep(sc, s, cat, k, false);
    FileNew(w.tmpPlus, NamesUpTo(cat, k), InputsUpTo(sc, s, cat, k, true), Name(cat[k]), up);
    FileNew(w.tmpMinus, NamesUpTo(cat, k), InputsUpTo(sc, s, cat, k, false), Name(cat[k]), down);
  }

  /** One pass of the loops of `run_sa`: the plus run, the minus run and the
      title of catalogue entry `k`. */
  method RunEntry(sc: Scenario, s: real, cat: seq<Param>, k: nat, w: Sweep) returns (next: Sweep)
    requires sc.nInitYears > 0 && SaCovers(sc)
    requires cat == Catalogue(sc.cfg.nVehicles) && k < |cat|
    requires forall m | 0 <= m < |cat| :: InCatalogue(sc.cfg.nVehicles, cat[m])
    requires SweptUpTo(sc, s, cat, k, w)
    ensures SweptUpTo(sc, s, cat, k + 1, next)
  {
    var c := cat[k];
    FreshName(sc.cfg.nVehicles, k);
    var upIn, upOut := RunPerturbed(sc, c, s, true);
    var downIn, downOut := RunPerturbed(sc, c, s, false);
    var upRows := upOut.closedloop[..];
    var downRows := downOut.closedloop[..];
    FiledExtends(sc, s, cat, k, w, Audit(upIn, upOut), upRows, Audit(downIn, downOut), downRows);
    next := Filed(w, c, Audit(upIn, upOut), upRows, Audit(downIn, downOut), downRows);
  }

  /** `run_sa`: fails like the calculation when there is no baseline year or
      an input key is missing; otherwise runs the catalogue in order, one plus
      and one minus run per entry, and files each run's closed-loop table,
      title and tables. */
  method RunSa(sc: Scenario, s: real) returns (r: Result<Sweep, Error>)
    ensures r.Success? <==> sc.nInitYears > 0 && SaCovers(sc)
    ensures r.Failure? && SaCovers(sc) ==> r.error == ConfigurationError
    ensures r.Failure? && sc.nInitYears > 0 ==> r.error == DataShapeError
    ensures r.Success? ==>
      var cat := Catalogue(sc.cfg.nVehicles);
      && |cat| == 10 * sc.cfg.nVehicles + 15
      && (forall k | 0 <= k < |cat| :: InCatalogue(sc.cfg.nVehicles, cat[k]))
      && SweptUpTo(sc, s, cat, |cat|, r.value)
      && |r.value.plus| == |cat| && |r.value.minus| == |cat| && |r.value.titles| == |cat|
      && |r.value.tmpPlus| == |cat| && |r.value.tmpMinus| == |cat|
      && (forall k | 0 <= k < |cat| ::
            && r.value.plus[k] == ClosedLoopOf(Perturbed(sc, cat[k], s, true))
            && r.value.minus[k] == ClosedLoopOf(Perturbed(sc, cat[k], s, false))
            && r.value.titles[k] == Title(cat[k])
            && Name(cat[k]) in r.value.tmpPlus && Name(cat[k]) in r.value.tmpMinus
            && r.value.tmpPlus[Name(cat[k])].inputs == Perturbed(sc, cat[k], s, true)
            && r.value.tmpMinus[Name(cat[k])].inputs == Perturbed(sc, cat[k], s, false))
  {
    if !SaCovers(sc) {
      return Failure(DataShapeError);
    }
    if sc.nInitYears == 0 {
      return Failure(ConfigurationError);
    }
    var cat := Catalogue(sc.cfg.nVehicles);
    CatalogueLayout(sc.cfg.nVehicles);
    var w := Sweep([], [], [], map[], map[], TmpElements);
    for k := 0 to |cat|
      invariant SweptUpTo(sc, s, cat, k, w)
    {
      w := RunEntry(sc, s, cat, k, w);
    }
    assert RunsFiled(sc, s, cat, |cat|, w);
    forall k | 0 <= k < |cat|
      ensures Name(cat[k]) in w.tmpPlus && w.tmpPlus[Name(cat[k])].inputs == Perturbed(sc, cat[k], s, true)
      ensures Name(cat[k]) in w.tmpMinus && w.tmpMinus[Name(cat[k])].inputs == Perturbed(sc, cat[k], s, false)
    {
      assert NamesUpTo(cat, |cat|)[k] == Name(cat[k]);
    }
    return Success(w);
  }

  /** At zero sensitivity, with every capped percentage at most 100, every run
      reproduces the baseline closed-loop table. */
  lemma ZeroSensitivityRuns(sc: Scenario, c: Param, plus: bool)
    requires sc.nInitYears > 0 && SaCovers(sc) && InCatalogue(sc.cfg.nVehicles, c)
    requires PercentagesAtMost100(sc)
    ensures Simulate(sc).Success?
    ensures ClosedLoopOf(Perturbed(sc, c, 0.0, plus)) == Simulate(sc).value
  {
    ZeroSensitivityUnchanged(sc, c, plus);
  }
}
