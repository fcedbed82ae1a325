# GigOptimizer selection engine

This project models the project-selection engine of GigOptimizer, a tool
that tells a freelancer which projects to accept this month. Each project
has a total pay, a number of hours and a skill-match score. The engine
`optimize_projects` does three things:

1. It keeps the projects whose skill match is at least the threshold, in
   their original order.
2. It picks a subset of those projects that earns the most in total while
   its hours fit in the available hours.
3. It reports the earnings, hours used, hours left, counts and utilisation.

The source hands step 2 to a general mixed-integer solver with one binary
variable per project. The model solves it with its own exact 0/1 knapsack
algorithms instead and proves them optimal against every 0/1 choice that
fits.

Modules:

- `Projects` (`projects.dfy`): the project record, pay and hour totals,
  `Pick` (the rows a 0/1 vector selects, in order) and the eligibility
  filter.
- `Knapsack` (`knapsack.dfy`): the include/exclude selection `Select`, its
  optimality, and a dynamic-programming table method `SolveByTable` that is
  proved to return exactly `Select`'s vector.
- `GigOptimizer` (`optimizer.dfy`): the three outcomes (no projects, none
  eligible, optimized), the metrics, `OptimizeProjects`, a method version
  that uses the table, and the sample project table as a fixture.

Pay, hours, skill match, threshold and available hours are natural
numbers, because the entry form and sliders only produce whole numbers
(`app.py:182-200`, `app.py:265-271`). Utilisation is an exact `real`.

`projectsAvailable` is `n_projects`, the number of projects before
filtering (`app.py:95`, `app.py:141`), not the size of the eligible pool.

## Model

| member | source | states |
|---|---|---|
| `Projects.SumsOfJoin` | app.py:132-133 | `Pay` and `Hours`, the `.sum()` of the pay and hours columns, are additive: the total of two lists joined is the sum of their totals |
| `Projects.Pick` | app.py:129-130 | picking rows by a 0/1 vector (as `iloc[selected_indices]` does, and as the mask does at line 102) yields no more rows than the table, each of them a row of the table; with `PickKeepsChosen` and `PickSplit` below (every chosen row is kept, in table order) and `PickFirst` (an unchosen row adds no row), it is exactly the chosen rows in table order |
| `Projects.PickKeepsChosen` | app.py:129-130 | every row whose decision is set is in the pick, so the pick loses no chosen row |
| `Projects.PickSplit` | app.py:129-130 | picking from a table split at any point is picking from each part and joining the results, so the picked rows keep the table's order |
| `Projects.PickPayAtMost` | app.py:129-132 | the pay of any picked subset is at most the pay of the whole list |
| `Projects.EligibleMask` | app.py:101 | the mask has one entry per row, set exactly when that row's skill match is at least the threshold (`Qualifies`) |
| `Projects.Eligible` | app.py:101-102 | the pool holds exactly the projects that `Qualifies` (skill match at least the threshold; equality qualifies), and it is never longer than the input |
| `Projects.EligibleIsMaskedPick` | app.py:101-102 | the pool is the input rows chosen by the per-row mask `skill_match >= threshold`, so it keeps their original relative order |
| `Projects.EligibleEmptyIff` | app.py:104-105 | the pool is empty exactly when no project meets the threshold |
| `Projects.AllQualifyKeepsAll` | app.py:83 | when every project qualifies (as with the default threshold 0) the pool is the whole input |
| `Projects.EligibleRefines` | app.py:101-102 | filtering at a higher threshold equals filtering the lower threshold's pool again, so the pool never grows as the threshold rises |
| `Projects.PickFirst` | app.py:129-133 | the pay, hours and count of a selection are the first row's share (if chosen) plus those of the rest |
| `Knapsack.Select` | app.py:114-126 | the 0/1 vector is `Feasible`: one entry per eligible project, and its chosen hours fit in the available hours (the constraint of app.py:114-118) |
| `Knapsack.MaxPay` | app.py:109-112 | the objective value reached by the selection is at most the pay of all eligible projects together |
| `Knapsack.SelectIsOptimal` | app.py:87-91 | no 0/1 vector whose hours fit the available hours earns more than the selection |
| `Knapsack.SelectIsOptimalForAll` | app.py:109-126 | the same optimality, quantified over every fitting vector at once |
| `Knapsack.MaxPayStep` | app.py:118-126 | the optimal selection and pay obey the include/exclude recurrence on the first project |
| `Knapsack.SelectAt` | app.py:118-126 | the same recurrence at any position of the list |
| `Knapsack.MaxPayAt` | app.py:118-126 | the optimal pay from position `i` on follows from the optimal pay from `i + 1` on, with and without the project at `i` |
| `Knapsack.WalkStep` | app.py:118-126 | appending the decision at position `i` to a correct prefix keeps the prefix plus the rest's selection equal to the whole selection |
| `Knapsack.MaxPayMonotone` | app.py:87-91 | more available hours never lower the optimal pay |
| `Knapsack.NothingFitsSelectsNothing` | app.py:118-126 | when every project needs more hours than are available, the optimum is the empty selection with pay 0 |
| `Knapsack.FillTable` | app.py:126 | every table cell `[k, d]` holds the optimal pay of the projects from `k` on within `d` hours |
| `Knapsack.FillRow` | app.py:126 | filling row `i` from row `i + 1` makes that row hold the optimal pay too and keeps the later rows correct |
| `Knapsack.ReadBack` | app.py:126-130 | reading decisions off a correct table yields exactly the include/exclude selection |
| `Knapsack.SolveByTable` | app.py:126-130 | the table method returns exactly the include/exclude selection |
| `GigOptimizer.Outcome.ErrorMessage` | app.py:97-105 | the message is empty exactly when the optimization succeeded |
| `GigOptimizer.Utilization` | app.py:142 | utilisation is 0 when no hours are available; otherwise it times the available hours equals hours used times 100, and it lies in [0, 100] when the hours fit |
| `GigOptimizer.Summarize` | app.py:129-143 | a fitting vector yields a success whose selection is the rows it picks; earnings and hours are the sums over that selection, available hours is the input, hours remaining is available minus used and never negative, the selected count is the selection's length, the available count is the table's length, and utilisation is `Utilization` of the hours and lies in [0, 100] |
| `GigOptimizer.OptimizeProjects` | app.py:83-145 | an empty table, and only an empty one, gives "no projects"; a non-empty table with no qualifying project, and only that, gives "none eligible"; a success selects a fitting subsequence of the pool, and its earnings, hours, available hours, hours remaining (never negative), selected count, available count (the count before filtering) and utilisation are as the results dictionary defines them |
| `GigOptimizer.OptimizeProjectsIsOptimal` | app.py:87-91 | a success earns at least as much as every choice of eligible projects that fits the available hours |
| `GigOptimizer.SelectedAreEligible` | app.py:101-102 | every selected project is in the input and meets the threshold |
| `GigOptimizer.EarningsMonotoneInHours` | app.py:87-91 | with the threshold fixed, more available hours never lower the optimal earnings |
| `GigOptimizer.OptimizeProjectsByTable` | app.py:83-145 | the table-based method returns the same outcome as `OptimizeProjects` |
| `GigOptimizer.SampleProjects` | app.py:152-171 | the sample table has eight projects, each needing at least one hour and scored at most 100, as the entry form allows |
| `GigOptimizer.SampleThreshold90` | app.py:152-171 | in the sample table a threshold of 90 keeps only the projects scored 95 and 90, in order |
| `GigOptimizer.SampleFirstFour` | app.py:152-171 | for the first four sample projects and 80 hours, the plan takes the second and third, earning 5000 in 75 hours with 5 hours left |
| `GigOptimizer.FourProjectPlan` | app.py:167-168 | for pays 2500, 1800, 3200 and 1500 and hours 40, 25, 50 and 20 with 80 hours, the selection is the second and third project, paying 5000 in 75 hours |
| `GigOptimizer.ThreeProjectPlan` | app.py:167-168 | the optimum of the last three of those projects within 40 and within 80 hours |
| `GigOptimizer.TwoProjectPlan` | app.py:167-168 | the optimum of the last two of those projects at the hours the larger plans reach |
| `GigOptimizer.OneProject` | app.py:118-126 | a single project is taken exactly when it fits and pays something |

## Left out

- The solver call itself (`milp`) is replaced by `Select` and `SolveByTable`. The solver's failure result and the exception path (`app.py:147-149`) are not modelled, because both algorithms here always succeed.
- Ties: when several subsets earn the same maximum, the source returns whichever one the solver finds. The model takes a project only when that pays strictly more than leaving it out. Only the total pay, feasibility and the subsequence property are claimed to match the source, not the particular subset.
- The `> 0.5` rounding of the solver's vector and the float conversion of inputs (`app.py:129`, `app.py:279-282`) are not modelled; values are whole numbers.
- The user interface (page setup, sidebar, forms, tabs, session state, charts and the "skip these projects" list) is presentation only and is not part of this model.
- `GigOptimizer.Outcome.ErrorMessage` covers the two messages the engine returns before solving; the solver-failure messages are left out with the solver.
