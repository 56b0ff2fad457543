/** The entry point `solve_weekly_schedule`: the time budget handed to the
    search, the search itself (a parameter, trusted only to return
    solutions of the model), and the response built from what it returns.
    The guarantees of a returned roster are stated twice: against the
    assignment it was decoded from, and against the input alone. */
module Engine {
  import opened Wrappers
  import opened Seqs
  import opened Dicts
  import opened Input
  import opened Formulation
  import opened ModelProperties
  import opened Roster
  import opened RosterProperties

  /** Default of the `max_time` argument, in seconds. */
  const DefaultMaxTime := 20

  /** The search never gets more than this many seconds. */
  const MaxSolveSeconds := 5

  const Success := "SUCCESS"
  const Partial := "PARTIAL"
  const FailedStatus := "FAILED"
  const NoScheduleMessage := "No feasible schedule found"

  datatype SolverStatus = Optimal | FoundFeasible | Infeasible | ModelInvalid | Unknown

  /** What the search hands back: a status and the values it settled on. */
  datatype SolverResult = SolverResult(status: SolverStatus, solution: Solution)

  predicate Found(status: SolverStatus) {
    status == Optimal || status == FoundFeasible
  }

  /** All that is assumed of the search: a solution it reports satisfies
      the hard constraints and the fairness bounds. */
  predicate SolverSound(inp: SchedulerInput, res: SolverResult) {
    Found(res.status) ==> Admissible(inp, res.solution)
  }

  /** The budget is `max_time`, but never more than five seconds. */
  function TimeBudget(maxTime: int): (t: int)
    ensures t <= maxTime && t <= MaxSolveSeconds
    ensures t == maxTime || t == MaxSolveSeconds
  {
    if maxTime < MaxSolveSeconds then maxTime else MaxSolveSeconds
  }

  /** A call that leaves `max_time` at its default still gets only the five-second cap. */
  lemma DefaultBudgetIsCapped()
    ensures TimeBudget(DefaultMaxTime) == MaxSolveSeconds
  {
  }

  datatype Response =
    | Solved(status: string, schedule: seq<DayEntry>, summary: seq<SummaryEntry>, unmetDemand: map<string, int>)
    | Failed(status: string, message: string)

  /** The roster built from a found solution. */
  function Decode(inp: SchedulerInput, sol: Solution, optimal: bool): (r: Response)
    ensures r.Solved?
    ensures r.status == Success <==> optimal
    ensures r.status != FailedStatus
  {
    var schedule := Schedule(inp, sol.x);
    TouchesFromStaff(inp, sol.x);
    Solved(if optimal then Success else Partial,
           schedule,
           Summary(Touches(schedule), Roles(inp.staff)),
           Violations(inp, Demands(inp), sol.unmet))
  }

  // ----- What a roster says about the assignment it came from -----

  /** One entry per input day, in input order, each listing every declared
      shift in declaration order; every list is drawn from the staff in
      declaration order. */
  predicate ScheduleShaped(inp: SchedulerInput, schedule: seq<DayEntry>) {
    && |schedule| == |inp.days|
    && forall d :: 0 <= d < |schedule| ==>
         && schedule[d].day == inp.days[d]
         && Keys(schedule[d].shifts) == ShiftNames(inp)
         && forall j :: 0 <= j < |schedule[d].shifts| ==> IsSubsequence(schedule[d].shifts[j].1, StaffIds(inp.staff))
  }

  /** Each list names exactly the staff the assignment puts on that shift
      that day; an id declared k times is listed k times. */
  ghost predicate ListsExact(inp: SchedulerInput, x: Assignment, schedule: seq<DayEntry>) {
    forall d, s, u :: 0 <= d < |schedule| && s in ShiftNames(inp) ==>
      && (u in Staffed(schedule[d], s) <==> u in StaffIds(inp.staff) && x(u, d, s))
      && Occurrences(Staffed(schedule[d], s), u) == if x(u, d, s) then Occurrences(StaffIds(inp.staff), u) else 0
  }

  /** One entry per staff id with at least one shift and no other entry,
      each with the id's role and its shift and night-shift counts (an id
      declared k times is counted k times). */
  ghost predicate SummaryCounts(inp: SchedulerInput, x: Assignment, summary: seq<SummaryEntry>) {
    var ids := StaffIds(inp.staff);
    var roles := Roles(inp.staff);
    var names := ShiftNames(inp);
    && Distinct(UserIds(summary))
    && (forall u :: u in UserIds(summary) <==> u in ids && TotalShifts(x, u, |inp.days|, names) > 0)
    && forall i :: 0 <= i < |summary| ==>
         && summary[i].userId in roles
         && summary[i].role == roles[summary[i].userId]
         && summary[i].totalShifts == Occurrences(ids, summary[i].userId) * TotalShifts(x, summary[i].userId, |inp.days|, names)
         && summary[i].nightShifts == Occurrences(ids, summary[i].userId) * TotalNights(x, summary[i].userId, |inp.days|, names)
  }

  /** Every reported value is the positive unmet value of a slot with that
      key; when no two slots share a key, the report holds exactly the
      slots with positive unmet value. */
  predicate UnmetReported(inp: SchedulerInput, unmet: Unmet, report: map<string, int>) {
    && (forall k :: k in report ==>
          exists dm :: dm in Demands(inp) && ViolationKey(inp, dm) == k && report[k] == unmet(dm.day, dm.shift, dm.role) > 0)
    && (ViolationKeysDistinct(inp, Demands(inp)) ==>
          forall dm :: dm in Demands(inp) ==>
            && (ViolationKey(inp, dm) in report <==> unmet(dm.day, dm.shift, dm.role) > 0)
            && (ViolationKey(inp, dm) in report ==> report[ViolationKey(inp, dm)] == unmet(dm.day, dm.shift, dm.role)))
  }

  /** Day d's list for a declared shift is the staff on it, in declaration order. */
  lemma StaffedIsOnShift(inp: SchedulerInput, x: Assignment, d: nat, s: string)
    requires d < |inp.days| && s in ShiftNames(inp)
    ensures Staffed(Schedule(inp, x)[d], s) == OnShift(x, StaffIds(inp.staff), d, s)
  {
    ScheduleEntry(inp, x, d);
    ShiftListsLookup(x, StaffIds(inp.staff), d, ShiftNames(inp), s);
  }

  lemma DecodedDay(inp: SchedulerInput, x: Assignment, d: nat)
    requires d < |inp.days|
    ensures Schedule(inp, x)[d].day == inp.days[d]
    ensures Keys(Schedule(inp, x)[d].shifts) == ShiftNames(inp)
    ensures forall j :: 0 <= j < |Schedule(inp, x)[d].shifts| ==>
              IsSubsequence(Schedule(inp, x)[d].shifts[j].1, StaffIds(inp.staff))
  {
    ScheduleEntry(inp, x, d);
    ShiftListsKeys(x, StaffIds(inp.staff), d, ShiftNames(inp));
    ShiftListsEntries(x, StaffIds(inp.staff), d, ShiftNames(inp));
  }

  lemma DecodedShape(inp: SchedulerInput, sol: Solution, optimal: bool)
    ensures ScheduleShaped(inp, Decode(inp, sol, optimal).schedule)
  {
    var schedule := Schedule(inp, sol.x);
    assert Decode(inp, sol, optimal).schedule == schedule;
    forall d | 0 <= d < |schedule|
      ensures schedule[d].day == inp.days[d]
      ensures Keys(schedule[d].shifts) == ShiftNames(inp)
      ensures forall j :: 0 <= j < |schedule[d].shifts| ==> IsSubsequence(schedule[d].shifts[j].1, StaffIds(inp.staff))
    {
      DecodedDay(inp, sol.x, d);
    }
  }

  lemma ListedIffAssigned(inp: SchedulerInput, x: Assignment, d: nat, s: string, u: string)
    requires d < |inp.days| && s in ShiftNames(inp)
    ensures u in Staffed(Schedule(inp, x)[d], s) <==> u in StaffIds(inp.staff) && x(u, d, s)
    ensures Occurrences(Staffed(Schedule(inp, x)[d], s), u) == if x(u, d, s) then Occurrences(StaffIds(inp.staff), u) else 0
  {
    StaffedIsOnShift(inp, x, d, s);
    OnShiftOccurrences(x, StaffIds(inp.staff), d, s, u);
  }

  lemma ScheduleListsExact(inp: SchedulerInput, x: Assignment)
    ensures ListsExact(inp, x, Schedule(inp, x))
  {
    forall d, s, u | 0 <= d < |inp.days| && s in ShiftNames(inp)
      ensures u in Staffed(Schedule(inp, x)[d], s) <==> u in StaffIds(inp.staff) && x(u, d, s)
      ensures Occurrences(Staffed(Schedule(inp, x)[d], s), u) == if x(u, d, s) then Occurrences(StaffIds(inp.staff), u) else 0
    {
      ListedIffAssigned(inp, x, d, s, u);
    }
  }

  lemma DecodedLists(inp: SchedulerInput, sol: Solution, optimal: bool)
    ensures ListsExact(inp, sol.x, Decode(inp, sol, optimal).schedule)
  {
    assert Decode(inp, sol, optimal).schedule == Schedule(inp, sol.x);
    ScheduleListsExact(inp, sol.x);
  }

  /** The walk of the schedule meets exactly the staff who work at least once. */
  lemma MetIffWorks(inp: SchedulerInput, x: Assignment, u: string)
    ensures u in TouchUsers(Touches(Schedule(inp, x))) <==>
            u in StaffIds(inp.staff) && TotalShifts(x, u, |inp.days|, ShiftNames(inp)) > 0
  {
    ScheduleTouchCounts(inp, x, u);
    ProductPositive(Occurrences(StaffIds(inp.staff), u), TotalShifts(x, u, |inp.days|, ShiftNames(inp)));
  }

  /** The summary lists staff in the order the schedule first names them. */
  lemma DecodedSummary(inp: SchedulerInput, sol: Solution, optimal: bool)
    ensures SummaryCounts(inp, sol.x, Decode(inp, sol, optimal).summary)
    ensures UserIds(Decode(inp, sol, optimal).summary) == Dedup(TouchUsers(Touches(Decode(inp, sol, optimal).schedule)))
  {
    var ts := Touches(Schedule(inp, sol.x));
    var roles := Roles(inp.staff);
    TouchesFromStaff(inp, sol.x);
    var summary := Summary(ts, roles);
    assert Decode(inp, sol, optimal).summary == summary;
    SummaryTallies(ts, roles);
    forall u
      ensures u in UserIds(summary) <==> u in StaffIds(inp.staff) && TotalShifts(sol.x, u, |inp.days|, ShiftNames(inp)) > 0
    {
      MetIffWorks(inp, sol.x, u);
    }
    forall i | 0 <= i < |summary|
      ensures summary[i].totalShifts == Occurrences(StaffIds(inp.staff), summary[i].userId) * TotalShifts(sol.x, summary[i].userId, |inp.days|, ShiftNames(inp))
      ensures summary[i].nightShifts == Occurrences(StaffIds(inp.staff), summary[i].userId) * TotalNights(sol.x, summary[i].userId, |inp.days|, ShiftNames(inp))
    {
      ScheduleTouchCounts(inp, sol.x, summary[i].userId);
    }
  }

  lemma DecodedViolations(inp: SchedulerInput, sol: Solution, optimal: bool)
    ensures UnmetReported(inp, sol.unmet, Decode(inp, sol, optimal).unmetDemand)
  {
    var ds := Demands(inp);
    var report := Violations(inp, ds, sol.unmet);
    forall k | k in report
      ensures exists dm :: dm in ds && ViolationKey(inp, dm) == k && report[k] == sol.unmet(dm.day, dm.shift, dm.role) > 0
    {
      ViolationSource(inp, ds, sol.unmet, k);
      var i :| 0 <= i < |ds| && ViolationKey(inp, ds[i]) == k && report[k] == sol.unmet(ds[i].day, ds[i].shift, ds[i].role) > 0;
      assert ds[i] in ds;
    }
    if ViolationKeysDistinct(inp, ds) {
      forall dm | dm in ds
        ensures ViolationKey(inp, dm) in report <==> sol.unmet(dm.day, dm.shift, dm.role) > 0
        ensures ViolationKey(inp, dm) in report ==> report[ViolationKey(inp, dm)] == sol.unmet(dm.day, dm.shift, dm.role)
      {
        ViolationExact(inp, ds, sol.unmet, dm);
      }
    }
  }

  // ----- What a roster says on its own -----

  /** Staff of the demand's role listed on its shift and day. */
  function StaffedCount(inp: SchedulerInput, schedule: seq<DayEntry>, dm: Demand): nat
    requires dm.day < |schedule|
  {
    RoleCount(Staffed(schedule[dm.day], dm.shift), Roles(inp.staff), dm.role)
  }

  /** Nobody is listed on two shifts of one day. */
  predicate OneListPerDay(inp: SchedulerInput, schedule: seq<DayEntry>) {
    forall u, d :: u in StaffIds(inp.staff) && 0 <= d < |schedule| ==> ListsContaining(schedule[d].shifts, u) <= 1
  }

  /** When a shift is named "Night", nobody is listed on it two days running. */
  predicate NoListedNightPairs(inp: SchedulerInput, schedule: seq<DayEntry>) {
    NightShift in ShiftNames(inp) ==>
      forall u, d :: 0 <= d && d + 1 < |schedule| && u in Staffed(schedule[d], NightShift) ==>
        u !in Staffed(schedule[d + 1], NightShift)
  }

  /** Staff whose role is capped are listed within the caps. */
  predicate ListedWithinCaps(inp: SchedulerInput, schedule: seq<DayEntry>) {
    var roles := Roles(inp.staff);
    && (forall u :: u in StaffIds(inp.staff) && roles[u] in inp.maxShiftsPerWeek ==>
          WorkedShifts(schedule, u) <= inp.maxShiftsPerWeek[roles[u]])
    && (forall u :: u in StaffIds(inp.staff) && roles[u] in inp.maxWeeklyHours ==>
          WorkedHours(schedule, inp.shifts, u) <= inp.maxWeeklyHours[roles[u]])
  }

  /** No declared role is over-staffed, and the report gives short slots
      their shortfall (all of them, when no two slots share a key). */
  predicate ShortfallsReported(inp: SchedulerInput, schedule: seq<DayEntry>, report: map<string, int>)
    requires |schedule| == |inp.days|
  {
    && (forall dm :: dm in Demands(inp) ==> StaffedCount(inp, schedule, dm) <= dm.required)
    && (forall k :: k in report ==>
          exists dm :: dm in Demands(inp) && ViolationKey(inp, dm) == k &&
                       report[k] == dm.required - StaffedCount(inp, schedule, dm) > 0)
    && (ViolationKeysDistinct(inp, Demands(inp)) ==>
          forall dm :: dm in Demands(inp) ==>
            (ViolationKey(inp, dm) in report <==> StaffedCount(inp, schedule, dm) < dm.required))
  }

  /** The hard constraints, read off the roster alone. */
  predicate RosterRespectsRules(inp: SchedulerInput, schedule: seq<DayEntry>, report: map<string, int>)
    requires |schedule| == |inp.days|
  {
    && OneListPerDay(inp, schedule)
    && NoListedNightPairs(inp, schedule)
    && ListedWithinCaps(inp, schedule)
    && ShortfallsReported(inp, schedule, report)
  }

  /** A slot's listed staff of its role plus its unmet value make up the requirement. */
  lemma StaffedPlusUnmet(inp: SchedulerInput, sol: Solution, dm: Demand)
    requires RequirementShiftsDeclared(inp)
    requires Feasible(inp, sol.x, sol.unmet)
    requires dm in Demands(inp)
    ensures dm.day < |inp.days|
    ensures StaffedCount(inp, Schedule(inp, sol.x), dm) + sol.unmet(dm.day, dm.shift, dm.role) == dm.required
    ensures 0 <= sol.unmet(dm.day, dm.shift, dm.role)
  {
    DemandShiftDeclared(inp, dm);
    StaffedIsOnShift(inp, sol.x, dm.day, dm.shift);
    OnShiftRoleCount(sol.x, StaffIds(inp.staff), Roles(inp.staff), dm.day, dm.shift, dm.role);
    CoverageIsExact(inp, sol, dm);
  }

  lemma DecodedCaps(inp: SchedulerInput, sol: Solution)
    requires Feasible(inp, sol.x, sol.unmet)
    ensures ListedWithinCaps(inp, Schedule(inp, sol.x))
  {
    var schedule := Schedule(inp, sol.x);
    var roles := Roles(inp.staff);
    assert schedule[..|inp.days|] == schedule;
    forall u | u in StaffIds(inp.staff)
      ensures roles[u] in inp.maxShiftsPerWeek ==> WorkedShifts(schedule, u) <= inp.maxShiftsPerWeek[roles[u]]
      ensures roles[u] in inp.maxWeeklyHours ==> WorkedHours(schedule, inp.shifts, u) <= inp.maxWeeklyHours[roles[u]]
    {
      assert ShiftCapRespected(inp, sol.x, u) && HourCapRespected(inp, sol.x, u);
      WorkedShiftsIsTotalShifts(inp, sol.x, u, |inp.days|);
      WorkedHoursIsTotalHours(inp, sol.x, u, |inp.days|);
    }
  }

  lemma DecodedOneListPerDay(inp: SchedulerInput, sol: Solution)
    requires OneShiftPerDay(inp, sol.x)
    ensures OneListPerDay(inp, Schedule(inp, sol.x))
  {
    var schedule := Schedule(inp, sol.x);
    forall u, d | u in StaffIds(inp.staff) && 0 <= d < |schedule|
      ensures ListsContaining(schedule[d].shifts, u) <= 1
    {
      ScheduleEntry(inp, sol.x, d);
      ListsContainingIsShiftsOn(sol.x, StaffIds(inp.staff), d, ShiftNames(inp), u);
    }
  }

  lemma DecodedNoNightPairs(inp: SchedulerInput, sol: Solution)
    requires NoConsecutiveNights(inp, sol.x)
    ensures NoListedNightPairs(inp, Schedule(inp, sol.x))
  {
    var schedule := Schedule(inp, sol.x);
    if NightShift in ShiftNames(inp) {
      forall u, d | 0 <= d && d + 1 < |schedule| && u in Staffed(schedule[d], NightShift)
        ensures u !in Staffed(schedule[d + 1], NightShift)
      {
        StaffedIsOnShift(inp, sol.x, d, NightShift);
        StaffedIsOnShift(inp, sol.x, d + 1, NightShift);
        assert !NightPair(sol.x, u, d);
      }
    }
  }

  lemma DecodedShortfalls(inp: SchedulerInput, sol: Solution)
    requires RequirementShiftsDeclared(inp)
    requires Feasible(inp, sol.x, sol.unmet)
    ensures ShortfallsReported(inp, Schedule(inp, sol.x), Violations(inp, Demands(inp), sol.unmet))
  {
    var schedule := Schedule(inp, sol.x);
    var report := Violations(inp, Demands(inp), sol.unmet);
    forall dm | dm in Demands(inp)
      ensures StaffedCount(inp, schedule, dm) + sol.unmet(dm.day, dm.shift, dm.role) == dm.required
      ensures 0 <= sol.unmet(dm.day, dm.shift, dm.role)
    {
      StaffedPlusUnmet(inp, sol, dm);
    }
    DecodedViolations(inp, sol, true);
  }

  /** A decoded solution of the model obeys every hard constraint as far as
      the roster alone can tell. */
  lemma DecodedRespectsRules(inp: SchedulerInput, sol: Solution, optimal: bool)
    requires RequirementShiftsDeclared(inp)
    requires Feasible(inp, sol.x, sol.unmet)
    ensures |Decode(inp, sol, optimal).schedule| == |inp.days|
    ensures RosterRespectsRules(inp, Decode(inp, sol, optimal).schedule, Decode(inp, sol, optimal).unmetDemand)
  {
    assert Decode(inp, sol, optimal).schedule == Schedule(inp, sol.x);
    assert Decode(inp, sol, optimal).unmetDemand == Violations(inp, Demands(inp), sol.unmet);
    DecodedCaps(inp, sol);
    DecodedOneListPerDay(inp, sol);
    DecodedNoNightPairs(inp, sol);
    DecodedShortfalls(inp, sol);
  }

  /** With distinct staff ids the summary counts are the plain shift and
      night-shift totals, and every listed id works at least once. */
  lemma SummaryWithDistinctIds(inp: SchedulerInput, x: Assignment, summary: seq<SummaryEntry>, i: nat)
    requires SummaryCounts(inp, x, summary)
    requires Distinct(StaffIds(inp.staff))
    requires i < |summary|
    ensures summary[i].totalShifts == TotalShifts(x, summary[i].userId, |inp.days|, ShiftNames(inp)) > 0
    ensures summary[i].nightShifts == TotalNights(x, summary[i].userId, |inp.days|, ShiftNames(inp))
  {
    assert UserIds(summary)[i] == summary[i].userId;
    OccurrencesOfDistinct(StaffIds(inp.staff), summary[i].userId);
  }

  // ----- The entry point -----

  /** `solve_weekly_schedule(payload, max_time)`, with the search passed in. */
  function SolveWeeklySchedule(inp: SchedulerInput, maxTime: int, solver: int -> SolverResult): (r: Response)
    requires RequirementShiftsDeclared(inp)
    requires SolverSound(inp, solver(TimeBudget(maxTime)))
    ensures r.status == Success <==> solver(TimeBudget(maxTime)).status == Optimal
    ensures r.status == Partial <==> solver(TimeBudget(maxTime)).status == FoundFeasible
    ensures r.Failed? <==> !Found(solver(TimeBudget(maxTime)).status)
    ensures r.Failed? ==> r == Failed(FailedStatus, NoScheduleMessage)
    ensures r.Solved? ==>
      && ScheduleShaped(inp, r.schedule)
      && ListsExact(inp, solver(TimeBudget(maxTime)).solution.x, r.schedule)
      && SummaryCounts(inp, solver(TimeBudget(maxTime)).solution.x, r.summary)
      && UnmetReported(inp, solver(TimeBudget(maxTime)).solution.unmet, r.unmetDemand)
      && RosterRespectsRules(inp, r.schedule, r.unmetDemand)
  {
    var res := solver(TimeBudget(maxTime));
    if Found(res.status) then
      var optimal := res.status == Optimal;
      DecodedShape(inp, res.solution, optimal);
      DecodedLists(inp, res.solution, optimal);
      DecodedSummary(inp, res.solution, optimal);
      DecodedViolations(inp, res.solution, optimal);
      DecodedRespectsRules(inp, res.solution, optimal);
      Decode(inp, res.solution, optimal)
    else
      Failed(FailedStatus, NoScheduleMessage)
  }
}
