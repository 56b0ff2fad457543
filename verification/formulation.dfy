/** The constraint model built by `solve_weekly_schedule`: its decision
    variables, the five hard constraints, the fairness bounds and the
    weighted objective, stated as checkable predicates over a solved
    assignment. The search that produces the assignment is not modelled. */
module Formulation {
  import opened Wrappers
  import opened Seqs
  import opened Dicts
  import opened Input

  /** The solved `x[(u, d, s)]`: staff `u` works shift `s` on day index `d`. */
  type Assignment = (string, nat, string) -> bool

  /** The solved `unmet[(d, shift, role)]`: the shortfall of that slot. */
  type Unmet = (nat, string, string) -> int

  /** Solved values of every model variable. */
  datatype Solution = Solution(
    x: Assignment,
    unmet: Unmet,
    shiftDev: string -> int,               // staff id -> shift-count deviation
    nightDev: string -> int)               // staff id -> night penalty

  /** The one shift name the no-consecutive-nights rule looks for (case-sensitive). */
  const NightShift := "Night"

  const UnmetWeight := 1000
  const ShiftDevWeight := 10
  const NightDevWeight := 5

  /** Staff ids in declaration order; a repeated id stays repeated. */
  function StaffIds(staff: seq<StaffMember>): seq<string> {
    seq(|staff|, i requires 0 <= i < |staff| => staff[i].id)
  }

  /** The id -> role dict: a repeated id takes the role of its last entry. */
  function Roles(staff: seq<StaffMember>): (roles: map<string, string>)
    ensures forall u :: u in roles <==> u in StaffIds(staff)
  {
    if staff == [] then map[]
    else
      var p := staff[..|staff| - 1];
      var last := staff[|staff| - 1];
      assert StaffIds(staff) == StaffIds(p) + [last.id];
      Roles(p)[last.id := last.role]
  }

  /** The role recorded for an id is that of its last entry in `staff`. */
  lemma {:induction false} RoleOfLastEntry(staff: seq<StaffMember>, i: nat)
    requires i < |staff|
    requires forall j :: i < j < |staff| ==> staff[j].id != staff[i].id
    ensures staff[i].id in Roles(staff) && Roles(staff)[staff[i].id] == staff[i].role
  {
    if i < |staff| - 1 {
      RoleOfLastEntry(staff[..|staff| - 1], i);
    }
  }

  predicate HasRole(roles: map<string, string>, u: string, role: string) {
    u in roles && roles[u] == role
  }

  function ShiftNames(inp: SchedulerInput): seq<string> {
    Keys(inp.shifts)
  }

  function LowerAscii(c: char): char {
    if 'A' <= c <= 'Z' then (c as int + 32) as char else c
  }

  /** `s.lower() == "night"`. Only ASCII letters are folded: no other
      character lowercases to a single letter of "night". */
  predicate IsNight(s: string) {
    seq(|s|, i requires 0 <= i < |s| => LowerAscii(s[i])) == "night"
  }

  /** Shifts `u` works on day `d`, over the given shift names. */
  function ShiftsOn(x: Assignment, u: string, d: nat, names: seq<string>): nat {
    if names == [] then 0
    else (if x(u, d, names[0]) then 1 else 0) + ShiftsOn(x, u, d, names[1..])
  }

  /** Night shifts (by lowercase name) `u` works on day `d`. */
  function NightsOn(x: Assignment, u: string, d: nat, names: seq<string>): nat {
    if names == [] then 0
    else (if IsNight(names[0]) && x(u, d, names[0]) then 1 else 0) + NightsOn(x, u, d, names[1..])
  }

  /** Hours `u` works on day `d`. */
  function HoursOn(x: Assignment, u: string, d: nat, shifts: seq<(string, int)>): int {
    if shifts == [] then 0
    else (if x(u, d, shifts[0].0) then shifts[0].1 else 0) + HoursOn(x, u, d, shifts[1..])
  }

  /** Shifts `u` works on days 0 .. n-1. */
  function TotalShifts(x: Assignment, u: string, n: nat, names: seq<string>): nat {
    if n == 0 then 0 else TotalShifts(x, u, n - 1, names) + ShiftsOn(x, u, n - 1, names)
  }

  function TotalNights(x: Assignment, u: string, n: nat, names: seq<string>): nat {
    if n == 0 then 0 else TotalNights(x, u, n - 1, names) + NightsOn(x, u, n - 1, names)
  }

  function TotalHours(x: Assignment, u: string, n: nat, shifts: seq<(string, int)>): int {
    if n == 0 then 0 else TotalHours(x, u, n - 1, shifts) + HoursOn(x, u, n - 1, shifts)
  }

  /** Entries of `ids` (with repetition) whose role is `role` and who work
      `shift` on day `d`: the coverage sum of the source. */
  function Assigned(x: Assignment, ids: seq<string>, roles: map<string, string>,
                    d: nat, shift: string, role: string): nat
  {
    if ids == [] then 0
    else
      var u := ids[|ids| - 1];
      Assigned(x, ids[..|ids| - 1], roles, d, shift, role) + (if HasRole(roles, u, role) && x(u, d, shift) then 1 else 0)
  }

  /** Entries of `ids` (with repetition) whose role is `role`. */
  function Headcount(ids: seq<string>, roles: map<string, string>, role: string): nat {
    if ids == [] then 0
    else Headcount(ids[..|ids| - 1], roles, role) + (if HasRole(roles, ids[|ids| - 1], role) then 1 else 0)
  }

  /** One declared (day, shift, role) coverage requirement. */
  datatype Demand = Demand(day: nat, shift: string, role: string, required: int)

  function RoleDemands(d: nat, shift: string, roleMap: seq<(string, int)>): seq<Demand> {
    seq(|roleMap|, j requires 0 <= j < |roleMap| => Demand(d, shift, roleMap[j].0, roleMap[j].1))
  }

  function DayDemands(d: nat, reqs: seq<(string, Dict<int>)>): (ds: seq<Demand>)
    ensures forall dm :: dm in ds ==> dm.day == d
  {
    if reqs == [] then [] else RoleDemands(d, reqs[0].0, reqs[0].1) + DayDemands(d, reqs[1..])
  }

  function DemandsUpTo(n: nat, reqs: seq<(string, Dict<int>)>): (ds: seq<Demand>)
    ensures forall dm :: dm in ds ==> dm.day < n
  {
    if n == 0 then [] else DemandsUpTo(n - 1, reqs) + DayDemands(n - 1, reqs)
  }

  /** Every requirement, per day, in the order the unmet variables are created. */
  function Demands(inp: SchedulerInput): seq<Demand> {
    DemandsUpTo(|inp.days|, inp.requirements)
  }

  /** `requirements.get(shift, {}).get(role)`. */
  function Required(reqs: Dict<Dict<int>>, shift: string, role: string): Option<int> {
    match Get(reqs, shift)
    case None => None
    case Some(roleMap) => Get(roleMap, role)
  }

  /** Every requirement names a declared shift (otherwise the source fails
      looking up the assignment variable). */
  predicate RequirementShiftsDeclared(inp: SchedulerInput) {
    forall i :: 0 <= i < |inp.requirements| ==> inp.requirements[i].0 in ShiftNames(inp)
  }

  // ----- Hard constraints -----

  /** 1. At most one shift per staff member per day. */
  predicate OneShiftPerDay(inp: SchedulerInput, x: Assignment) {
    var ids := StaffIds(inp.staff);
    var names := ShiftNames(inp);
    forall u, d: nat :: u in ids && d < |inp.days| ==> ShiftsOn(x, u, d, names) <= 1
  }

  /** 2. Assigned staff of the role plus the slack equal the requirement,
      with the slack in [0, required]. */
  predicate Covered(inp: SchedulerInput, x: Assignment, unmet: Unmet, dm: Demand) {
    var staffed := Assigned(x, StaffIds(inp.staff), Roles(inp.staff), dm.day, dm.shift, dm.role);
    var slack := unmet(dm.day, dm.shift, dm.role);
    0 <= slack <= dm.required && staffed + slack == dm.required
  }

  predicate CoverageBalanced(inp: SchedulerInput, x: Assignment, unmet: Unmet) {
    forall dm :: dm in Demands(inp) ==> Covered(inp, x, unmet, dm)
  }

  /** 3. Weekly shift cap for a staff member whose role has one. */
  predicate ShiftCapRespected(inp: SchedulerInput, x: Assignment, u: string) {
    var roles := Roles(inp.staff);
    u in roles && roles[u] in inp.maxShiftsPerWeek ==>
      TotalShifts(x, u, |inp.days|, ShiftNames(inp)) <= inp.maxShiftsPerWeek[roles[u]]
  }

  predicate WithinShiftCaps(inp: SchedulerInput, x: Assignment) {
    forall u {:trigger ShiftCapRespected(inp, x, u)} :: u in Roles(inp.staff) ==> ShiftCapRespected(inp, x, u)
  }

  /** 4. Weekly hour cap for a staff member whose role has one. */
  predicate HourCapRespected(inp: SchedulerInput, x: Assignment, u: string) {
    var roles := Roles(inp.staff);
    u in roles && roles[u] in inp.maxWeeklyHours ==>
      TotalHours(x, u, |inp.days|, inp.shifts) <= inp.maxWeeklyHours[roles[u]]
  }

  predicate WithinHourCaps(inp: SchedulerInput, x: Assignment) {
    forall u {:trigger HourCapRespected(inp, x, u)} :: u in Roles(inp.staff) ==> HourCapRespected(inp, x, u)
  }

  predicate NightPair(x: Assignment, u: string, d: nat) {
    x(u, d, NightShift) && x(u, d + 1, NightShift)
  }

  /** 5. No "Night" on two consecutive days (no wrap-around), when such a shift exists. */
  predicate NoConsecutiveNights(inp: SchedulerInput, x: Assignment) {
    NightShift in ShiftNames(inp) ==>
      forall u, d: nat :: u in StaffIds(inp.staff) && d + 1 < |inp.days| ==> !NightPair(x, u, d)
  }

  /** The five hard constraints. */
  predicate Feasible(inp: SchedulerInput, x: Assignment, unmet: Unmet) {
    && OneShiftPerDay(inp, x)
    && CoverageBalanced(inp, x, unmet)
    && WithinShiftCaps(inp, x)
    && WithinHourCaps(inp, x)
    && NoConsecutiveNights(inp, x)
  }

  // ----- Fairness -----

  function Max(a: int, b: int): int {
    if a < b then b else a
  }

  function Abs(a: int): nat {
    if a < 0 then -a else a
  }

  lemma DivAtMost(n: nat, k: int)
    requires k >= 1
    ensures 0 <= n / k <= n
  {
    assert (n / k) * k + n % k == n;
  }

  /** The integer target shift count for a role: days over headcount, truncated. */
  function Target(inp: SchedulerInput, role: string): (t: nat)
    ensures t <= |inp.days|
  {
    var k := Max(1, Headcount(StaffIds(inp.staff), Roles(inp.staff), role));
    DivAtMost(|inp.days|, k);
    |inp.days| / k
  }

  /** Domains and constraints of one staff member's two deviation variables. */
  predicate DeviationsBounded(inp: SchedulerInput, x: Assignment, shiftDev: string -> int, nightDev: string -> int, u: string) {
    var roles := Roles(inp.staff);
    var n := |inp.days|;
    var names := ShiftNames(inp);
    && u in roles
    && 0 <= shiftDev(u) <= n
    && shiftDev(u) >= TotalShifts(x, u, n, names) - Target(inp, roles[u])
    && shiftDev(u) >= Target(inp, roles[u]) - TotalShifts(x, u, n, names)
    && 0 <= nightDev(u) <= n
    && nightDev(u) >= TotalNights(x, u, n, names)
  }

  /** The deviation variables of every staff member are within their bounds. */
  predicate FairnessBounds(inp: SchedulerInput, x: Assignment, shiftDev: string -> int, nightDev: string -> int) {
    forall u {:trigger DeviationsBounded(inp, x, shiftDev, nightDev, u)} ::
      u in Roles(inp.staff) ==> DeviationsBounded(inp, x, shiftDev, nightDev, u)
  }

  // ----- Objective -----

  function SumUnmet(ds: seq<Demand>, unmet: Unmet): int {
    if ds == [] then 0
    else
      var dm := ds[|ds| - 1];
      SumUnmet(ds[..|ds| - 1], unmet) + unmet(dm.day, dm.shift, dm.role)
  }

  function SumOver(us: seq<string>, f: string -> int): int {
    if us == [] then 0 else SumOver(us[..|us| - 1], f) + f(us[|us| - 1])
  }

  /** The deviation dicts are keyed by staff id, so each id counts once. */
  function DevIds(inp: SchedulerInput): seq<string> {
    Dedup(StaffIds(inp.staff))
  }

  /** Every accepted solution satisfies the hard constraints and the fairness bounds. */
  predicate Admissible(inp: SchedulerInput, sol: Solution) {
    Feasible(inp, sol.x, sol.unmet) && FairnessBounds(inp, sol.x, sol.shiftDev, sol.nightDev)
  }

  function Objective(inp: SchedulerInput, sol: Solution): int {
    var us := DevIds(inp);
    UnmetWeight * SumUnmet(Demands(inp), sol.unmet)
    + ShiftDevWeight * SumOver(us, sol.shiftDev)
    + NightDevWeight * SumOver(us, sol.nightDev)
  }
}
