# RosterPro weekly scheduler: a Dafny model

This project models the core of the RosterPro scheduling microservice.

- **The formulation.** `solve_weekly_schedule` turns a weekly input into a constraint model:
  - a 0/1 assignment per (staff id, day, shift);
  - an unmet-demand slack per declared (day, shift, role);
  - five hard constraints;
  - fairness deviation variables;
  - a weighted objective.
- **The response.** It decodes a found solution into a response:
  - the per-day schedule;
  - the per-staff summary;
  - the sparse unmet-demand report;
  - the status.
- **The validators** of the `SchedulerInput` request model.

The constraint search itself is not modelled. It is a parameter `solver: int -> SolverResult`: it receives the time budget and returns a status and values. The only thing assumed of it is `Engine.SolverSound`: a solution it reports as optimal or feasible satisfies the hard constraints and the fairness bounds (`Formulation.Admissible`). Everything proved about a returned roster follows from that assumption.

Modules, in dependency order:

- `wrappers.dfy` (Wrappers): `Option`, `Result`.
- `seqs.dfy` (Seqs): occurrence counts, duplicate removal, subsequences.
- `dicts.dfy` (Dicts): insertion-ordered dictionaries with distinct keys (Python `dict`) and `.get`.
- `input.dfy` (Input): the request model and its validators.
- `formulation.dfy` (Formulation): decision variables, hard constraints, fairness bounds, objective.
- `properties.dfy` (ModelProperties): what every solution of the model satisfies; the fairness and objective lemmas.
- `roster.dfy` (Roster): decoding into schedule, summary and violation report.
- `roster_properties.dfy` (RosterProperties): the decoded parts in terms of the assignment.
- `engine.dfy` (Engine): time budget, status mapping, `SolveWeeklySchedule`, and the guarantees of the response.

Modelling choices:

- **Python dictionaries** keep their insertion order: the shift map, the requirements and their inner role maps, and unavailability. They are sequences of pairs with distinct keys. Shift iteration order and violation order follow from that order. The per-role cap maps are only read with `.get`, so they are Dafny `map`s.
- **Staff ids are not assumed distinct**, because the source never checks them.
  - `roles` is built by a dict comprehension, so the last declaration of an id wins (`Formulation.RoleOfLastEntry`).
  - Loops over `staff_ids` see every declaration. An id declared twice is listed twice in a shift list, counted twice in coverage and in the summary, and counted twice in the role headcount used for the fairness target.
  - The dictionaries keyed by id (`shift_dev`, `night_dev`) sum over the distinct ids.
  - `Engine.SummaryWithDistinctIds` gives the plain counts when ids are distinct.
- **Night detection in the summary** and the night penalty use `s.lower() == "night"`. This is modelled as ASCII case folding. The no-consecutive-nights constraint uses the exact name `"Night"`.
- **The fairness target** is `int(len(days) / max(len(users), 1))`. It is modelled as integer division, which agrees with it on non-negative operands.
- **The violation report** is a `map`. When two slots produce the same `"<day>-<shift>-<role>"` key, for example because of duplicate day labels or hyphens in names, the later slot overwrites the earlier one, as in the source's dict comprehension. Reporting is exact whenever keys are distinct (`RosterProperties.ViolationExact`).
- **Validation** is in two stages. The field checks (seven days, positive shift hours, positive `min_rest_hours`) are all collected first. The "after" model validator runs only when they pass. It checks requirement roles before unavailability and stops at the first failure.

The objective is labelled "OBJECTIVE (PRIORITIZED)" at app/engine/solver.py:125, but the priority is conditional. The deviation terms are summed over all distinct staff ids, and each term can be as large as the number of days. So one unit of unmet demand outweighs every fairness term only when `(10 + 5) * distinct_ids * days < 1000`. `ModelProperties.CoverageDominatesFairness` assumes exactly that.

## Model

| member | source | states |
|---|---|---|
| Input.ShiftHoursPositive | app/models/scheduler_input.py:33-38 | the shift map is accepted, and returned unchanged, exactly when every shift has positive hours; a rejection names the first shift in map order with hours <= 0 |
| Input.FirstNonPositiveShiftUnique | app/models/scheduler_input.py:35-37 | the shift a rejection names is determined by the map |
| Input.FieldErrors | app/models/scheduler_input.py:11-38 | no field error exactly when there are 7 days, all shift hours are positive and `min_rest_hours > 0`; each of the three offences is reported iff it occurs, at most once and in field order; every reported error is a real offence; the shift error names the first non-positive shift |
| Input.ValidateRolesAndDays | app/models/scheduler_input.py:44-67 | succeeds, returning the input unchanged, iff every requirement role is some staff member's role and every unavailability id and day is declared; a failure is a real offence and the first one in the validator's order: the first unknown role in requirements order, else the first unclean unavailability entry, by its id when that is unknown, else by its first undeclared day |
| Input.FirstCrossFieldErrorUnique | app/models/scheduler_input.py:50-65 | that order leaves exactly one possible error, so the error reported is determined by the input |
| Input.Validate | app/models/scheduler_input.py:11-67 | accepts exactly the valid inputs and returns them unchanged; rejections are non-empty lists of real offences; when a field is wrong, exactly the field errors as above; when fields are fine but the input is invalid, the single first cross-field error |
| Formulation.RoleOfLastEntry | app/engine/solver.py:21-22 | `roles[u]` is the role of the last staff entry with id `u` |
| Formulation.Target | app/engine/solver.py:101-104 | the fairness target of a role lies between 0 and the number of days |
| ModelProperties.DemandsDeclared | app/engine/solver.py:38-44 | a slack variable exists for (day, shift, role, required) exactly when the day is in range and `requirements[shift][role] == required` |
| ModelProperties.DemandShiftDeclared | app/engine/solver.py:57-61 | when requirement shifts are declared shifts, every coverage slot names a declared shift |
| ModelProperties.CoverageIsExact | app/engine/solver.py:38-66 | in a feasible solution a slot is never over-staffed, and its unmet value is exactly the shortfall `required - staffed` |
| ModelProperties.AssignedAtMostHeadcount | app/engine/solver.py:59-64 | the staff counted for a role on a slot never exceed the role's headcount |
| ModelProperties.ShortfallAtLeastMissingStaff | app/engine/solver.py:56-66 | a slot's unmet value is at least the requirement minus the role's headcount |
| ModelProperties.FullShortfallUnderZeroCap | app/engine/solver.py:56-74 | a role capped at zero shifts a week leaves every one of its slots entirely unmet |
| ModelProperties.ConsecutiveNightShortfall | app/engine/solver.py:56-94 | two "Night" slots of one role on consecutive days are together short by at least their combined requirement minus the role's headcount |
| ModelProperties.TotalShiftsAtMostDays | app/engine/solver.py:50-53 | with one shift per day, nobody works more shifts than there are days |
| ModelProperties.TotalNightsAtMostTotalShifts | app/engine/solver.py:115-122 | the night penalty counted for a staff member never exceeds their shift count |
| ModelProperties.ExactDeviationsFair | app/engine/solver.py:100-122 | the exact deviations, the distance between total shifts and target and the night count, satisfy every fairness bound |
| ModelProperties.DeviationsNeverRaised | app/engine/solver.py:106-122 | for every distinct staff id, the exact deviation and night count are at most the values the bounds admitted |
| ModelProperties.TightenedObjective | app/engine/solver.py:127-131 | lowering the deviations to their exact values never raises the objective |
| ModelProperties.TighteningNeverCosts | app/engine/solver.py:106-131 | the tightened solution is still admissible and costs no more |
| ModelProperties.OptimalDeviationsAreExact | app/engine/solver.py:106-131 | a solution no worse than its tightening, for instance an optimal one, reports exactly the distance between total shifts and target and exactly the night count for every staff member |
| ModelProperties.CoverageDominatesFairness | app/engine/solver.py:127-131 | when 15 times the number of distinct staff ids times the number of days is below 1000, any admissible solution with less total unmet demand has a strictly smaller objective |
| Roster.OnShift | app/engine/solver.py:155-164 | a shift list is a subsequence of the staff ids in declaration order and contains exactly the ids assigned to that shift that day |
| Roster.Violations | app/engine/solver.py:179-184 | every reported shortfall is positive |
| RosterProperties.OnShiftOccurrences | app/engine/solver.py:155-164 | an id occurs in a shift list once per declaration when assigned, and not at all otherwise |
| RosterProperties.OnShiftRoleCount | app/engine/solver.py:155-164 | the staff of a role in a shift list are exactly the staff the coverage constraint counts |
| RosterProperties.ShiftListsKeys | app/engine/solver.py:155-164 | a day's shift map has every declared shift as a key, in declaration order |
| RosterProperties.ShiftListsLookup | app/engine/solver.py:155-164 | looking a declared shift up in a day's map gives the staff assigned to it |
| RosterProperties.ListsContainingIsShiftsOn | app/engine/solver.py:51-53 | the number of a day's lists that name a staff member is the number of shifts they work that day |
| RosterProperties.WorkedShiftsIsTotalShifts | app/engine/solver.py:69-74 | the shifts a staff member is listed on across the schedule are the shifts the weekly cap bounds |
| RosterProperties.WorkedHoursIsTotalHours | app/engine/solver.py:76-86 | the hours of the shifts a staff member is listed on are the hours the weekly hour cap bounds |
| RosterProperties.ScheduleTouchCounts | app/engine/solver.py:152-162 | walking the schedule increments a staff member's counters once per declaration per shift, and per night shift, worked |
| RosterProperties.TouchesFromStaff | app/engine/solver.py:171-178 | every id the walk meets has a role, so `roles[u]` is defined |
| RosterProperties.SummaryTallies | app/engine/solver.py:146-178 | the summary has one entry per id met, in order of first meeting, carrying the id's role and how often, and how often at night, it was met |
| RosterProperties.ViolationSource | app/engine/solver.py:179-184 | every reported key is the key of a slot with positive unmet demand and carries that slot's value |
| RosterProperties.ViolationExact | app/engine/solver.py:179-184 | when keys are distinct, a slot is reported iff its unmet value is positive, and it is reported with that value |
| Engine.TimeBudget | app/engine/solver.py:136-137 | the budget is the smaller of `max_time` and 5 seconds |
| Engine.DefaultBudgetIsCapped | app/engine/solver.py:5 | with `max_time` left at its default of 20, the search still gets 5 seconds |
| Engine.Decode | app/engine/solver.py:168-169 | a decoded solution is a roster whose status is SUCCESS exactly when the search proved optimality, and never FAILED |
| Engine.DecodedShape | app/engine/solver.py:151-166 | the schedule has one entry per input day, in order and labelled with it, each keyed by every declared shift, each list drawn from the staff in declaration order |
| Engine.DecodedLists | app/engine/solver.py:155-164 | each list names exactly the staff assigned to that shift that day, once per declaration |
| Engine.DecodedSummary | app/engine/solver.py:145-178 | the summary lists, without repeats and in order of first appearance, exactly the staff with at least one shift, each with their role, shift count and night-shift count |
| Engine.DecodedViolations | app/engine/solver.py:179-184 | every reported value is some same-keyed slot's positive unmet value; with distinct keys, exactly the slots with positive unmet value are reported |
| Engine.StaffedPlusUnmet | app/engine/solver.py:56-66 | in a decoded feasible solution, the listed staff of a slot's role plus its unmet value make up its requirement |
| Engine.DecodedCaps | app/engine/solver.py:68-86 | capped staff are listed on no more shifts, and no more hours, than their role's caps |
| Engine.DecodedOneListPerDay | app/engine/solver.py:50-53 | nobody is listed on two shifts of the same day |
| Engine.DecodedNoNightPairs | app/engine/solver.py:88-94 | when a shift is named exactly "Night", nobody is listed on it on two consecutive days, with no wrap from the last day to the first |
| Engine.DecodedShortfalls | app/engine/solver.py:56-66 | no slot is over-staffed in the roster; every reported value is a same-keyed slot's shortfall, and with distinct keys a slot is reported iff it is short |
| Engine.DecodedRespectsRules | app/engine/solver.py:50-94 | a decoded feasible solution obeys every hard constraint as far as the roster alone can show |
| Engine.SummaryWithDistinctIds | app/engine/solver.py:157-162 | with distinct staff ids, summary totals are the plain shift and night counts, and every listed staff member works at least once |
| Engine.SolveWeeklySchedule | app/engine/solver.py:5-191 | SUCCESS iff the search proved optimality; PARTIAL iff it only found a solution; otherwise exactly `{FAILED, "No feasible schedule found"}`; a returned roster is shaped, exact, summarised and reported as above and obeys the hard constraints |

## Left out

- The constraint search (`CpSolver`, `Solve`, the eight-worker hint) is not modelled. It is an external library, represented by the `solver` parameter and trusted only through `Engine.SolverSound`. Optimality is never assumed, so properties that need it are not stated as theorems: monotonicity of unmet demand in the requirement, and the even split of shifts between two staff. `ModelProperties.OptimalDeviationsAreExact` states what optimality would add.
- Engine.SolveWeeklySchedule: requires every requirement shift to be a declared shift. The source does not validate this. It raises `KeyError` at app/engine/solver.py:61 as soon as some staff member has the requirement's role.
- `weekStart` and Pydantic's parsing and type coercion are not modelled. They only concern the shape of the request.
- `unavailability` and `min_rest_hours` are validated, but the solver never constrains them. `preferred_holidays` has only its type checked, and no validator reads it. The model constrains none of the three.
- The HTTP layer is not part of this model: routing, the API-key check, turning exceptions into HTTP 500, settings loaded from the environment, and the health endpoint (app/routes/scheduler.py, app/config.py, app/main.py).
- Validation messages are modelled as a `ValidationError` datatype, not as the message strings.
- The key order of the `unmetDemand` JSON object is not modelled. The report is a `map`.
- `str.lower()` outside ASCII is not modelled. No other character lowercases to a single letter of "night", so night detection is unaffected for practical names.
- Integer widths are not modelled. Python integers are unbounded and the model uses unbounded integers. The solver's 64-bit domains do not matter for weekly counts.

## Findings

None. The conditional priority of the objective is described above. It is how the weights work, not a defect.
