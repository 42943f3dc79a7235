# CAPsim closed-loop model in Dafny

CAPsim estimates how much of the plastic in new passenger cars can come back
from end-of-life vehicles. For every vehicle model and every year of a run, it
works through five steps:

1. It projects registrations forward from the last historical year with a
   compound annual growth rate (CAGR).
2. It follows each registration cohort through the fleet. Vehicles leave the
   fleet by a lifetime density that is floored to whole vehicles, and stock
   can never go negative.
3. It splits the vehicles leaving the fleet into exports, vehicles with
   unknown whereabouts, and vehicles that enter recycling.
4. It turns the vehicles entering recycling into polymer masses (PP, PA, PC
   and ABS). Dismantled parts are taken off, and a recycling efficiency turns
   what remains into recyclate.
5. It compares that recyclate supply with the polymer demand of the year's new
   registrations. Supply is capped at the maximum recycled-input share after
   production losses, and the result is a closed-loop rate per polymer plus a
   demand-weighted total rate.

The sensitivity analysis repeats the whole calculation twice for every input
parameter, once raised and once lowered by a relative sensitivity. Shares are
capped at 100 % on the raised side. It collects each run's closed-loop table,
a title and the run's tables under a key. The plotting routine then reduces
these runs in two ways:

- a min/max band around the baseline rates for every year;
- for one year, a tornado ranking of the parameters by how far they move the
  rate.

The model is split into modules:

- `Tables` holds the input tables as maps keyed like the source's indices.
- `Registrations`, `Fleet`, `EndOfLife`, `Recycling` and `ClosedLoop` are the
  five calculator stages, and `Pipeline` is `calc_all`.
  - Each stage that fills a table cell by cell is a method over arrays. It is
    proved equal, cell for cell, to a function of the scenario.
  - The properties of the calculation are lemmas about those functions.
- `Parameters` is the ordered catalogue of perturbed parameters, with their
  keys and titles.
- `Perturbation` holds the edits of one run.
- `Analyzer` is `run_sa`.
- `Columns`, `Envelope` and `Tornado` are the aggregations in the plotting
  routine.

The lifetime density (a Weibull density in the source) is a parameter of the
scenario, a function from age to a density value. Numbers are exact reals. A
rate that the source would compute as infinite or undefined (a division by a
zero demand or a zero efficiency) is `None`.

A missing table key, a `KeyError` in the source, is a `DataShapeError` in
`CalcAll` and `RunSa`. Both check up front that every key the stages read is
present. The stage methods require that coverage.

## Model

| member | source | states |
|---|---|---|
| Registrations.ProjectedValueClosedForm | calculator.py:47-54 | a projected registration count is the last historical count times (1 + CAGR/100) to the power of the years since then |
| Registrations.ProjectionGrowsYearly | calculator.py:52-54 | every projected year is the year before (or the historical count) times the growth factor |
| Registrations.ProjectedAt | calculator.py:40-58 | the projected table holds the historical keys with their values unchanged, plus exactly the keys (vehicle, year) after the last historical year up to the end year, each with the closed-form value |
| Registrations.Projected | calculator.py:40-41 | when the historical data already reach the end year the table is returned unchanged |
| Registrations.CalcRegistrations | calculator.py:33-58 | fails with a configuration error exactly when there is no historical year; otherwise returns the projected table |
| Fleet.RawExitBounds | calculator.py:98 | the floored exit count lies between 0 and registrations times density |
| Fleet.Cohort | calculator.py:92-119 | one cohort's stock, clamped exits and running raw-exit sum at each age, the clamp keyed on the running sum; its bounds and both clamp cases are stated by `Fleet.CohortInvariant` |
| Fleet.CohortInvariant | calculator.py:94-119 | per cohort and age: stock between 0 and registrations; exits between 0 and the floored raw value; exits are cut only once the raw exits exceed the registrations; and the stock is registrations minus raw exits until then, and the clamped previous stock minus exits after |
| Fleet.CohortStockNonIncreasing | calculator.py:94-119 | a cohort's stock never grows with age |
| Fleet.CohortExitsTotal | calculator.py:94-119 | the exits up to an age add up to registrations minus the remaining stock, and lie between 0 and registrations |
| Fleet.StockPastDiagonal | calculator.py:134-141 | cohorts registered after the current year add no stock |
| Fleet.StockBounds | calculator.py:134-141 | a partial stock sum lies between 0 and the registrations summed over the same cohorts |
| Fleet.FleetStockBounds | calculator.py:134-141 | a vehicle's fleet stock lies between 0 and all registrations up to that year |
| Fleet.FillCohort | calculator.py:88-119 | one cohort's cells get the cohort's stock and exits, and no other cell changes |
| Fleet.CohortTable | calculator.py:74-119 | the detailed fleet table holds each cohort's stock and exits, and zero before registration |
| Fleet.StockTable | calculator.py:124-141 | the fleet table's stock is the sum of the cohort stocks registered up to the year |
| Fleet.CalcFleet | calculator.py:71-143 | both tables equal their cell functions for every vehicle, registration year and current year |
| EndOfLife.EolCell | calculator.py:161-227 | the end-of-life passes never change a cell's stock, and leave cohorts not yet registered untouched |
| EndOfLife.CellSplitConserves | calculator.py:197-224 | per cohort, exported plus unknown plus recycled vehicles equal the exits |
| EndOfLife.FleetSplitConserves | calculator.py:188-227 | the same balance holds for the fleet totals |
| EndOfLife.OlderCohortsBalance | calculator.py:161-178 | summed over older cohorts, this year's stock is last year's stock minus this year's exits |
| EndOfLife.StockFlowBalance | calculator.py:161-178 | fleet stock = last year's stock − exits + the new cohort's stock |
| EndOfLife.RecomputedExitMatches | calculator.py:172-175 | exits recomputed from the stock change equal the exits the fleet step recorded |
| EndOfLife.SplitNonNegative | calculator.py:197-224 | with loss shares in [0, 100] summing to at most 100 and a non-growing stock, every flow of a cohort is non-negative |
| EndOfLife.EolFlowsNonNegative | calculator.py:151-230 | with non-negative registrations and density, every end-of-life flow is non-negative |
| EndOfLife.ExitStep | calculator.py:172-176 | writing a cohort's stock drop as its exits gives the cell its post-first-pass state and adds the drop to the year's running total |
| EndOfLife.ExitCohorts | calculator.py:170-177 | the inner loop leaves every older cohort's exit equal to its stock drop and returns their sum, the fleet total of exits |
| EndOfLife.ExitsOfYear | calculator.py:162-178 | one year's pass over one vehicle fills exactly that year's exit cells |
| EndOfLife.RecomputeExits | calculator.py:156-178 | the first pass leaves the exit columns recomputed and the other columns unchanged |
| EndOfLife.LossStep | calculator.py:197-204 | writing a cohort's exports and unknown whereabouts as percentages of its exits gives the post-second-pass cell and adds both shares to the running totals |
| EndOfLife.SplitCohorts | calculator.py:191-205 | the inner loop fills every older cohort's export and unknown-whereabouts cells from the year's loss rates and returns their sums |
| EndOfLife.LossesOfYear | calculator.py:189-207 | one year's export and unknown-whereabouts cells for one vehicle |
| EndOfLife.SplitLosses | calculator.py:183-207 | the second pass fills export and unknown-whereabouts columns |
| EndOfLife.RecyclingStep | calculator.py:222-225 | writing exits minus exports minus unknown whereabouts gives the post-third-pass cell and adds it to the running total |
| EndOfLife.RecycleCohorts | calculator.py:220-226 | the inner loop fills every older cohort's recycling cell and returns their sum |
| EndOfLife.RecyclingOfYear | calculator.py:218-227 | one year's recycling cells for one vehicle |
| EndOfLife.RecyclingShare | calculator.py:212-227 | the third pass fills the recycling column |
| EndOfLife.CalcEol | calculator.py:151-230 | after the three passes both tables equal the end-of-life cell functions |
| Recycling.PolymerMassTotal | calculator.py:291-294 | the four polymer masses sum to the plastic mass times the summed contents / 100, and to the plastic mass when the contents add up to 100 |
| Recycling.InputElvsIsFlowSum | calculator.py:283-300 | the vehicles entering recycling summed over cohorts equal the fleet total of the recycling flow |
| Recycling.InputElvsMatchesFleet | calculator.py:283-307 | the recycling input count agrees with the fleet table's recycling column |
| Recycling.EolRow | calculator.py:275-352 | a row's recycling input is the sum, over every cohort registered up to the year, of the vehicles entering recycling and their polymer masses |
| Recycling.RecyclingOutputBounds | calculator.py:331-346 | with efficiency in [0, 100] and non-negative bodies, recyclate lies between 0 and the bodies' mass |
| Recycling.RecycledWithin | calculator.py:343-346 | recycling a non-negative remainder at an efficiency in [0, 100] yields between nothing and all of it |
| Recycling.InputOfYear | calculator.py:277-301 | the polymer masses and vehicle count of one year's recycling input equal the sums over every cohort registered up to that year |
| Recycling.OutputStep | calculator.py:319-352 | adding the dismantling and recycling outputs to a row that holds only its input yields the final row |
| Recycling.VehicleInputs | calculator.py:275-307 | the first year loop fills the input columns of one vehicle's rows and nothing else |
| Recycling.VehicleOutputs | calculator.py:310-352 | the second year loop completes one vehicle's rows with dismantling and recycling outputs |
| Recycling.VehicleRows | calculator.py:266-352 | one vehicle's rows of the end-of-life table equal the row function, and earlier rows are unchanged |
| Recycling.CalcRecycling | calculator.py:242-354 | every row of the end-of-life table equals the row function |
| ClosedLoop.Cap | calculator.py:436-443 | the capped supply is undefined exactly when the cut would divide by a zero efficiency, which needs demand × max share < 0; when defined it converts to at most demand × max share / 100, and it equals the raw supply exactly when that supply is within the limit |
| ClosedLoop.CapFinite | calculator.py:436-443 | for non-negative demand and max share the cap is always defined: the cut is only reached with a non-zero efficiency |
| ClosedLoop.Rate | calculator.py:453-456 | a rate exists exactly when the supply is defined and demand is non-zero, and rate × demand = converted supply × 100 |
| ClosedLoop.CapBounds | calculator.py:436-443 | with positive efficiency the capped supply exists, never exceeds the supply, and after production losses never exceeds demand × max share / 100 |
| ClosedLoop.CapIdempotent | calculator.py:436-443 | capping a capped supply changes nothing |
| ClosedLoop.CapUnchangedIff | calculator.py:436-443 | supply is kept exactly when supply × efficiency is within the limit |
| ClosedLoop.RateWithinMaxShare | calculator.py:436-456 | for positive demand and non-negative max share, whatever the efficiency (zero included), a polymer's closed-loop rate exists and never exceeds its max recycled share; it is non-negative for non-negative supply and efficiency |
| ClosedLoop.SupplyTotal | calculator.py:449 | the total supply exists exactly when every polymer supply does |
| ClosedLoop.TotalRate | calculator.py:451-457 | the total rate exists exactly when every supply exists and the plastic demand is non-zero |
| ClosedLoop.TotalIsWeightedRate | calculator.py:451-457 | the total rate is the demand-weighted mean of the polymer rates |
| ClosedLoop.PlasticDemandIsTotal | calculator.py:417-421 | when every vehicle's polymer contents add up to 100, the plastic demand equals the sum of the polymer demands |
| ClosedLoop.SumYear | calculator.py:391-426 | the per-year sums over vehicles equal the demand, plastic demand and supply functions |
| ClosedLoop.CalcClosedLoop | calculator.py:366-459 | every row of the closed-loop table equals the row function of its year |
| Pipeline.ClosedLoopOf | calculator.py:367-388 | the closed-loop table has one row per year of the run |
| Pipeline.Simulate | calculator.py:467-495 | the calculation succeeds exactly when a historical year exists and every key read is present |
| Pipeline.ProjectionCovers | calculator.py:45-56 | the projected registrations cover every vehicle and year of the run |
| Pipeline.Stages | calculator.py:477-495 | on a scenario with a baseline year and every key present, each stage's table equals its stage function applied to the previous stage's result |
| Pipeline.CalcAll | calculator.py:467-495 | fails exactly when `Simulate` fails, with the same error; otherwise every output table equals the chained stage functions and the closed-loop table equals `Simulate`'s result |
| Parameters.Catalogue | analyzer.py:41-346 | the parameters `run_sa` perturbs, in its order: 10 n + 15 of them for n vehicles (positions and distinctness in `Parameters.CatalogueLayout` and `Parameters.CatalogueDistinct`) |
| Parameters.CatalogueLayout | analyzer.py:41-346 | the catalogue has 10 n + 15 entries in the source's order, each a parameter of the run |
| Parameters.CatalogueDistinct | analyzer.py:41-346 | no parameter is run twice |
| Parameters.Name | analyzer.py:54 | the key each run is filed under in `sa_tmp_plus` and `sa_tmp_minus` (the f-strings at analyzer.py:54, 97, 130, 165, 205, 245, 285 and 325); it reads back by `Parameters.DecodeName` and is injective by `Parameters.NameInjective` |
| Parameters.Title | analyzer.py:74 | the title each run appends to `sa_titles` (the f-strings at analyzer.py:74, 117, 146, 185, 226, 266, 306 and 346) |
| Parameters.DecodeName | analyzer.py:54 | every key reads back as the parameter it was made from |
| Parameters.NameInjective | analyzer.py:97 | different parameters get different keys, so no run overwrites another's entry |
| Perturbation.Adjust | analyzer.py:91 | a raised percentage is at most 100 and at most value × (1 + s), and equals value × (1 + s) whenever that is within 100, as `min(value * (1 + sensitivity), 100)` |
| Perturbation.Capped | analyzer.py:159 | the percentages capped at 100 on the raised side are every perturbed field except total masses, dismantled masses and the CAGR (analyzer.py:48, 124 and 199 are uncapped; 91, 159, 239, 279 and 319 are capped) |
| Perturbation.AdjustBrackets | analyzer.py:91 | for a non-negative value and sensitivity, the lowered value ≤ the value ≤ the raised value (capped at 100 where the source caps) |
| Perturbation.Perturbed | analyzer.py:43-346 | the inputs of one run: the input table its parameter lives in, copied with that field scaled for every year of the run; the other inputs unchanged (`Perturbation.PerturbedTouchesOneInput`) |
| Perturbation.PerturbedTouchesOneInput | analyzer.py:55 | a run changes only the table its parameter lives in |
| Perturbation.PerturbedVehicleRows | analyzer.py:44-48 | only the targeted vehicle's rows for the run's years are edited, and keys are unchanged |
| Perturbation.PerturbedYearRows | analyzer.py:155-159 | yearly tables are edited for the run's years only, and keys are unchanged |
| Perturbation.PerturbedCovers | analyzer.py:44 | a perturbed scenario still has every key the calculation reads |
| Perturbation.ZeroSensitivityUnchanged | analyzer.py:41-346 | at zero sensitivity, with capped shares at most 100, every run's inputs equal the baseline |
| Perturbation.EditVehicleRows | analyzer.py:46-48 | the loop over years rewrites exactly the targeted vehicle's rows |
| Perturbation.EditYearRows | analyzer.py:157-159 | the loop over years rewrites exactly the run's years |
| Perturbation.PerturbScenario | analyzer.py:41-346 | the edited copy equals the perturbed scenario |
| Analyzer.RunPerturbed | analyzer.py:50-52 | one run on perturbed inputs succeeds, and its closed-loop table is the calculation's result |
| Analyzer.RunEntry | analyzer.py:43-74 | one catalogue entry appends its plus and minus tables and its title, and files both runs under its new key |
| Analyzer.RunSa | analyzer.py:27-407 | succeeds exactly when a historical year and every key exist; otherwise gives the matching error. On success there are 10 n + 15 plus tables, minus tables and titles in catalogue order, and both dictionaries hold exactly one entry per key, each recording that run's inputs |
| Analyzer.ZeroSensitivityRuns | analyzer.py:27-407 | at zero sensitivity every run reproduces the baseline closed-loop table |
| Envelope.Max3 | plotter_sa.py:99 | the three-way maximum is one of its arguments and no smaller than any of them |
| Envelope.Min3 | plotter_sa.py:101 | the three-way minimum is one of its arguments and no larger than any of them |
| Envelope.Upper | plotter_sa.py:92-100 | the running maximum of the baseline and the first runs in one year; never below the baseline |
| Envelope.Lower | plotter_sa.py:93-102 | the running minimum of the baseline and the first runs in one year; never above the baseline |
| Envelope.UpperIsMaximum | plotter_sa.py:92-101 | the upper edge is at least the baseline and every folded run, and equals one of them |
| Envelope.LowerIsMinimum | plotter_sa.py:92-101 | the lower edge is at most the baseline and every folded run, and equals one of them |
| Envelope.Envelope | plotter_sa.py:92-104 | per year: min ≤ baseline ≤ max, and every plus and minus result lies in [min, max]; with no runs both edges are the baseline |
| Envelope.BandOf | plotter_sa.py:107-109 | a band's three series have one entry per year, the baseline is the column itself, and min ≤ baseline ≤ max |
| Envelope.ColumnBand | plotter_sa.py:90-109 | the loops for one column produce that column's band |
| Envelope.ResultsRange | plotter_sa.py:86-201 | `results_range` has exactly the keys PP, PA, PC, ABS and total, each holding its column's band |
| Tornado.Deviation | plotter_sa.py:412-413 | a deviation exists exactly when the baseline is non-zero, reproduces the value as base × (1 + d/100), and is zero exactly when the value equals the baseline |
| Tornado.Spectrum | plotter_sa.py:415 | the spread is non-negative, at least each deviation's magnitude, and zero exactly when both deviations are zero |
| Tornado.Moving | plotter_sa.py:419 | the filter keeps exactly the bars with positive spread |
| Tornado.MovingKeepsOrder | plotter_sa.py:419 | the filter keeps catalogue order |
| Tornado.Insert | plotter_sa.py:423 | insertion adds exactly one bar |
| Tornado.Sort | plotter_sa.py:423 | the sorted list is a permutation of its input |
| Tornado.SortRanks | plotter_sa.py:423 | the sorted list is ascending by spread with ties in catalogue order, and is a permutation |
| Tornado.AllBars | plotter_sa.py:406-419 | bar l carries title l, both deviations of parameter l, and a positive spread exactly when a run moved the rate |
| Tornado.Ranking | plotter_sa.py:406-427 | a ranking exists exactly when the baseline rate is non-zero |
| Tornado.SortDistinct | plotter_sa.py:423-427 | sorting bars whose positions increase puts no parameter twice |
| Tornado.RankingRanked | plotter_sa.py:423-427 | the chart is ascending by spread with equal spreads in catalogue order, and no parameter appears twice |
| Tornado.RankingShowsMovers | plotter_sa.py:412-427 | each bar keeps its own title and deviations aligned, and a parameter has a bar exactly when one of its runs changed the rate |
| Tornado.ChartAt | plotter_sa.py:406-410 | the chart for a year (the target year here, the last plotted year at plotter_sa.py:488-492) exists exactly when all rates it reads are finite and the baseline rate is non-zero |

## Left out

- Floating point: the model computes over exact reals. Infinite and undefined
  results become `None`, so the NaN ordering of Python's `max`/`min` and the
  NaN filtering of `spec > 0` are not modelled. `Envelope.Plottable` and
  `Tornado.ChartAt` require finite rates instead.
- The Weibull density (`scipy.stats.weibull_min.pdf` with `shape` and
  `scale`) is a function parameter of the scenario. Only its non-negativity is
  used.
- The commented-out Weibull shape and scale perturbations of `run_sa`
  (analyzer.py:351-404) do not run in the source and are not modelled.
- Reading the Excel inputs, writing the results, `main.py`, all plotting and
  all progress messages are not part of this model. `reader.py`, `writer.py`,
  `writer_sa.py`, `plotter.py` and `plotter_sa_multi.py` are not part of this
  model either.
- Analyzer.RunSa: the eight parameter blocks of `run_sa` are one loop over
  the catalogue, which lists the parameters in the blocks' order.
- Analyzer.RunSa: of each audit entry, only the run's inputs are stated. The
  output tables in the entry are the ones that run computed.
- Analyzer.RunSa: when the historical year is missing and a key is missing
  too, the model reports the missing key. The source first reads the rows
  its first block edits (for at least one vehicle, vehicle 1's `total_mass`
  rows of the run years, analyzer.py:46-47). It raises a `KeyError` only
  when one of those rows is missing. Otherwise its first `calc_all` raises
  the `ValueError` of calculator.py:37-38.
- Pipeline.CalcAll: a missing key is reported before the stages run. The
  source raises its `KeyError` in the middle of a stage.
- Data frames are values in the model. `copy()` followed by cell writes
  becomes a map rebuilt with the edited rows, so aliasing between frames is
  not modelled.
- Tornado: the temporary data frame of unfiltered deviations (plotter_sa.py:429-438)
  holds the same values as `Tornado.Deviations`. Its pandas layout is not
  modelled.
