/** What every solution the model accepts must satisfy: which demands the
    coverage constraint covers, the shortfall it forces, the fairness
    variables at an optimum, and the priority of coverage over fairness. */
module ModelProperties {
  import opened Wrappers
  import opened Seqs
  import opened Dicts
  import opened Input
  import opened Formulation

  // ----- Which demands exist -----

  lemma RoleDemandsMembership(d: nat, shift: string, roleMap: seq<(string, int)>, dm: Demand)
    ensures dm in RoleDemands(d, shift, roleMap) <==>
      dm.day == d && dm.shift == shift && (dm.role, dm.required) in roleMap
  {
    if (dm.role, dm.required) in roleMap && dm.day == d && dm.shift == shift {
      var j :| 0 <= j < |roleMap| && roleMap[j] == (dm.role, dm.required);
      assert RoleDemands(d, shift, roleMap)[j] == dm;
    }
  }

  lemma {:induction false} DayDemandsMembership(d: nat, reqs: seq<(string, Dict<int>)>, dm: Demand)
    ensures dm in DayDemands(d, reqs) <==>
      dm.day == d && exists i :: 0 <= i < |reqs| && reqs[i].0 == dm.shift && (dm.role, dm.required) in reqs[i].1
  {
    if reqs != [] {
      RoleDemandsMembership(d, reqs[0].0, reqs[0].1, dm);
      DayDemandsMembership(d, reqs[1..], dm);
      if exists i :: 0 <= i < |reqs| && reqs[i].0 == dm.shift && (dm.role, dm.required) in reqs[i].1 {
        var i :| 0 <= i < |reqs| && reqs[i].0 == dm.shift && (dm.role, dm.required) in reqs[i].1;
        if i > 0 {
          assert reqs[1..][i - 1] == reqs[i];
        }
      }
      if exists i :: 0 <= i < |reqs[1..]| && reqs[1..][i].0 == dm.shift && (dm.role, dm.required) in reqs[1..][i].1 {
        var i :| 0 <= i < |reqs[1..]| && reqs[1..][i].0 == dm.shift && (dm.role, dm.required) in reqs[1..][i].1;
        assert reqs[i + 1] == reqs[1..][i];
      }
    }
  }

  lemma {:induction false} DemandsUpToMembership(n: nat, reqs: seq<(string, Dict<int>)>, dm: Demand)
    ensures dm in DemandsUpTo(n, reqs) <==> dm.day < n && dm in DayDemands(dm.day, reqs)
  {
    if n > 0 {
      var earlier := DemandsUpTo(n - 1, reqs);
      var last := DayDemands(n - 1, reqs);
      assert DemandsUpTo(n, reqs) == earlier + last;
      DemandsUpToMembership(n - 1, reqs, dm);
      if dm.day == n - 1 && dm in DayDemands(dm.day, reqs) {
        assert dm in last;
      }
    }
  }

  /** The unmet variables, and so the coverage constraints, are exactly one
      per day and per (shift, role, headcount) entry of `requirements`. */
  lemma DemandsDeclared(inp: SchedulerInput, dm: Demand)
    ensures dm in Demands(inp) <==>
      dm.day < |inp.days| && Required(inp.requirements, dm.shift, dm.role) == Some(dm.required)
  {
    var reqs := inp.requirements;
    DemandsUpToMembership(|inp.days|, reqs, dm);
    DayDemandsMembership(dm.day, reqs, dm);
    if exists i :: 0 <= i < |reqs| && reqs[i].0 == dm.shift && (dm.role, dm.required) in reqs[i].1 {
      var i :| 0 <= i < |reqs| && reqs[i].0 == dm.shift && (dm.role, dm.required) in reqs[i].1;
      GetEntry(reqs, dm.shift, reqs[i].1);
      GetEntry(reqs[i].1, dm.role, dm.required);
    }
    if Required(reqs, dm.shift, dm.role) == Some(dm.required) {
      var roleMap := Get(reqs, dm.shift).value;
      var i :| 0 <= i < |reqs| && reqs[i] == (dm.shift, roleMap);
      assert (dm.role, dm.required) in reqs[i].1;
    }
  }

  /** A demand's shift is one of the declared shifts. */
  lemma DemandShiftDeclared(inp: SchedulerInput, dm: Demand)
    requires RequirementShiftsDeclared(inp)
    requires dm in Demands(inp)
    ensures dm.shift in ShiftNames(inp)
  {
    DemandsUpToMembership(|inp.days|, inp.requirements, dm);
    DayDemandsMembership(dm.day, inp.requirements, dm);
  }

  // ----- Counting facts -----

  lemma {:induction false} AssignedAtMostHeadcount(x: Assignment, ids: seq<string>, roles: map<string, string>,
                                                   d: nat, shift: string, role: string)
    ensures Assigned(x, ids, roles, d, shift, role) <= Headcount(ids, roles, role)
  {
    if ids != [] {
      AssignedAtMostHeadcount(x, ids[..|ids| - 1], roles, d, shift, role);
    }
  }

  lemma {:induction false} AssignedNoneWhenIdle(x: Assignment, ids: seq<string>, roles: map<string, string>,
                                                d: nat, shift: string, role: string)
    requires forall u :: u in ids && HasRole(roles, u, role) ==> !x(u, d, shift)
    ensures Assigned(x, ids, roles, d, shift, role) == 0
  {
    if ids != [] {
      var p := ids[..|ids| - 1];
      assert forall u :: u in p ==> u in ids;
      AssignedNoneWhenIdle(x, p, roles, d, shift, role);
    }
  }

  lemma {:induction false} ConsecutiveNightsAtMostHeadcount(x: Assignment, ids: seq<string>,
                                                            roles: map<string, string>, d: nat, role: string)
    requires forall u :: u in ids ==> !NightPair(x, u, d)
    ensures Assigned(x, ids, roles, d, NightShift, role) + Assigned(x, ids, roles, d + 1, NightShift, role)
            <= Headcount(ids, roles, role)
  {
    if ids != [] {
      var p := ids[..|ids| - 1];
      assert forall u :: u in p ==> u in ids;
      assert !NightPair(x, ids[|ids| - 1], d);
      ConsecutiveNightsAtMostHeadcount(x, p, roles, d, role);
    }
  }

  lemma {:induction false} WorkedShiftCounted(x: Assignment, u: string, d: nat, names: seq<string>, s: string)
    requires s in names && x(u, d, s)
    ensures ShiftsOn(x, u, d, names) >= 1
  {
    if names[0] != s {
      WorkedShiftCounted(x, u, d, names[1..], s);
    }
  }

  lemma {:induction false} DayCountedInTotal(x: Assignment, u: string, n: nat, names: seq<string>, d: nat)
    requires d < n
    ensures TotalShifts(x, u, n, names) >= ShiftsOn(x, u, d, names)
  {
    if d < n - 1 {
      DayCountedInTotal(x, u, n - 1, names, d);
    }
  }

  /** One shift per day caps a staff member's week at one shift per day. */
  lemma {:induction false} TotalShiftsAtMostDays(inp: SchedulerInput, x: Assignment, u: string, k: nat)
    requires OneShiftPerDay(inp, x)
    requires u in StaffIds(inp.staff) && k <= |inp.days|
    ensures TotalShifts(x, u, k, ShiftNames(inp)) <= k
  {
    if k > 0 {
      TotalShiftsAtMostDays(inp, x, u, k - 1);
      assert ShiftsOn(x, u, k - 1, ShiftNames(inp)) <= 1;
    }
  }

  lemma {:induction false} NightsOnAtMostShiftsOn(x: Assignment, u: string, d: nat, names: seq<string>)
    ensures NightsOn(x, u, d, names) <= ShiftsOn(x, u, d, names)
  {
    if names != [] {
      NightsOnAtMostShiftsOn(x, u, d, names[1..]);
    }
  }

  lemma {:induction false} TotalNightsAtMostTotalShifts(x: Assignment, u: string, n: nat, names: seq<string>)
    ensures TotalNights(x, u, n, names) <= TotalShifts(x, u, n, names)
  {
    if n > 0 {
      TotalNightsAtMostTotalShifts(x, u, n - 1, names);
      NightsOnAtMostShiftsOn(x, u, n - 1, names);
    }
  }

  // ----- Shortfalls every accepted solution reports -----

  /** Coverage is exact: no declared slot is over-staffed and its unmet
      value is precisely the shortfall. */
  lemma CoverageIsExact(inp: SchedulerInput, sol: Solution, dm: Demand)
    requires Feasible(inp, sol.x, sol.unmet)
    requires dm in Demands(inp)
    ensures var staffed := Assigned(sol.x, StaffIds(inp.staff), Roles(inp.staff), dm.day, dm.shift, dm.role);
      && staffed <= dm.required
      && sol.unmet(dm.day, dm.shift, dm.role) == dm.required - staffed
      && 0 <= sol.unmet(dm.day, dm.shift, dm.role)
  {
    assert Covered(inp, sol.x, sol.unmet, dm);
  }

  /** A slot is short by at least the gap between its requirement and the
      number of staff holding the role (one person cannot fill two places). */
  lemma ShortfallAtLeastMissingStaff(inp: SchedulerInput, sol: Solution, dm: Demand)
    requires Feasible(inp, sol.x, sol.unmet)
    requires dm in Demands(inp)
    ensures sol.unmet(dm.day, dm.shift, dm.role)
            >= dm.required - Headcount(StaffIds(inp.staff), Roles(inp.staff), dm.role)
  {
    assert Covered(inp, sol.x, sol.unmet, dm);
    AssignedAtMostHeadcount(sol.x, StaffIds(inp.staff), Roles(inp.staff), dm.day, dm.shift, dm.role);
  }

  /** A role whose weekly shift cap is zero covers none of its demand. */
  lemma FullShortfallUnderZeroCap(inp: SchedulerInput, sol: Solution, dm: Demand)
    requires Feasible(inp, sol.x, sol.unmet)
    requires RequirementShiftsDeclared(inp)
    requires dm in Demands(inp)
    requires dm.role in inp.maxShiftsPerWeek && inp.maxShiftsPerWeek[dm.role] <= 0
    ensures sol.unmet(dm.day, dm.shift, dm.role) == dm.required
  {
    var ids := StaffIds(inp.staff);
    var roles := Roles(inp.staff);
    var names := ShiftNames(inp);
    DemandShiftDeclared(inp, dm);
    forall u | u in ids && HasRole(roles, u, dm.role)
      ensures !sol.x(u, dm.day, dm.shift)
    {
      assert ShiftCapRespected(inp, sol.x, u);
      assert TotalShifts(sol.x, u, |inp.days|, names) <= 0;
      if sol.x(u, dm.day, dm.shift) {
        WorkedShiftCounted(sol.x, u, dm.day, names, dm.shift);
        DayCountedInTotal(sol.x, u, |inp.days|, names, dm.day);
      }
    }
    AssignedNoneWhenIdle(sol.x, ids, roles, dm.day, dm.shift, dm.role);
    assert Covered(inp, sol.x, sol.unmet, dm);
  }

  /** With a "Night" shift declared, two consecutive nights of one role
      together fall short by at least their combined demand minus the
      role's headcount: nobody can cover both. */
  lemma ConsecutiveNightShortfall(inp: SchedulerInput, sol: Solution, dm1: Demand, dm2: Demand)
    requires Feasible(inp, sol.x, sol.unmet)
    requires NightShift in ShiftNames(inp)
    requires dm1 in Demands(inp) && dm2 in Demands(inp)
    requires dm1.shift == NightShift && dm2.shift == NightShift
    requires dm1.role == dm2.role && dm2.day == dm1.day + 1
    ensures sol.unmet(dm1.day, NightShift, dm1.role) + sol.unmet(dm2.day, NightShift, dm2.role)
            >= dm1.required + dm2.required - Headcount(StaffIds(inp.staff), Roles(inp.staff), dm1.role)
  {
    var ids := StaffIds(inp.staff);
    assert dm2.day < |inp.days|;
    forall u | u in ids
      ensures !NightPair(sol.x, u, dm1.day)
    {
    }
    ConsecutiveNightsAtMostHeadcount(sol.x, ids, Roles(inp.staff), dm1.day, dm1.role);
    assert Covered(inp, sol.x, sol.unmet, dm1);
    assert Covered(inp, sol.x, sol.unmet, dm2);
  }

  // ----- Fairness variables and the objective -----

  lemma {:induction false} SumOverBounds(us: seq<string>, f: string -> int, hi: int)
    requires forall u :: u in us ==> 0 <= f(u) <= hi
    ensures 0 <= SumOver(us, f) <= |us| * hi
  {
    if us != [] {
      var p := us[..|us| - 1];
      assert forall u :: u in p ==> u in us;
      SumOverBounds(p, f, hi);
      assert |us| * hi == |p| * hi + hi;
    }
  }

  lemma {:induction false} SumOverMonotone(us: seq<string>, f: string -> int, g: string -> int)
    requires forall u :: u in us ==> f(u) <= g(u)
    ensures SumOver(us, f) <= SumOver(us, g)
    ensures SumOver(us, f) == SumOver(us, g) ==> forall u :: u in us ==> f(u) == g(u)
  {
    if us != [] {
      var p := us[..|us| - 1];
      assert us == p + [us[|us| - 1]];
      assert forall u :: u in p ==> u in us;
      SumOverMonotone(p, f, g);
    }
  }

  /** The least admissible shift deviation of a staff member: |total - target|. */
  function ExactShiftDev(inp: SchedulerInput, x: Assignment, u: string): int {
    var roles := Roles(inp.staff);
    if u in roles then Abs(TotalShifts(x, u, |inp.days|, ShiftNames(inp)) - Target(inp, roles[u])) else 0
  }

  /** The least admissible night penalty of a staff member: their night count. */
  function ExactNightDev(inp: SchedulerInput, x: Assignment, u: string): int {
    if u in Roles(inp.staff) then TotalNights(x, u, |inp.days|, ShiftNames(inp)) else 0
  }

  /** The same solution with every deviation variable lowered to its least admissible value. */
  function Tightened(inp: SchedulerInput, sol: Solution): Solution {
    sol.(shiftDev := u => ExactShiftDev(inp, sol.x, u), nightDev := u => ExactNightDev(inp, sol.x, u))
  }

  /** The exact deviations lie between 0 and whatever the bounds allowed. */
  lemma TightenedWithinBounds(inp: SchedulerInput, sol: Solution, u: string)
    requires OneShiftPerDay(inp, sol.x)
    requires FairnessBounds(inp, sol.x, sol.shiftDev, sol.nightDev)
    requires u in Roles(inp.staff)
    ensures 0 <= ExactShiftDev(inp, sol.x, u) <= sol.shiftDev(u) <= |inp.days|
    ensures 0 <= ExactNightDev(inp, sol.x, u) <= sol.nightDev(u) <= |inp.days|
  {
    assert DeviationsBounded(inp, sol.x, sol.shiftDev, sol.nightDev, u);
    TotalShiftsAtMostDays(inp, sol.x, u, |inp.days|);
    TotalNightsAtMostTotalShifts(sol.x, u, |inp.days|, ShiftNames(inp));
  }

  /** Lowering each deviation variable to the exact |total - target| and
      the exact night count keeps the solution admissible and never raises
      the objective. */
  lemma TighteningNeverCosts(inp: SchedulerInput, sol: Solution)
    requires Admissible(inp, sol)
    ensures Admissible(inp, Tightened(inp, sol))
    ensures Objective(inp, Tightened(inp, sol)) <= Objective(inp, sol)
  {
    TightenedAdmissible(inp, sol);
    TightenedObjective(inp, sol);
  }

  /** A solution no worse than its tightening, in particular an optimal
      one, reports the true deviation |total - target| and the true night
      count for every staff member: the minimising solver never inflates them. */
  lemma OptimalDeviationsAreExact(inp: SchedulerInput, sol: Solution, u: string)
    requires OneShiftPerDay(inp, sol.x)
    requires FairnessBounds(inp, sol.x, sol.shiftDev, sol.nightDev)
    requires Objective(inp, sol) <= Objective(inp, Tightened(inp, sol))
    requires u in Roles(inp.staff)
    ensures sol.shiftDev(u) == ExactShiftDev(inp, sol.x, u)
    ensures sol.nightDev(u) == ExactNightDev(inp, sol.x, u)
  {
    var us := DevIds(inp);
    assert u in StaffIds(inp.staff);
    assert u in us;
    DeviationsNeverRaised(inp, sol);
    SumOverMonotone(us, Tightened(inp, sol).shiftDev, sol.shiftDev);
    SumOverMonotone(us, Tightened(inp, sol).nightDev, sol.nightDev);
  }

  lemma TightenedAdmissible(inp: SchedulerInput, sol: Solution)
    requires Admissible(inp, sol)
    ensures Admissible(inp, Tightened(inp, sol))
  {
    var t := Tightened(inp, sol);
    assert t.x == sol.x && t.unmet == sol.unmet;
    ExactDeviationsFair(inp, sol);
  }

  lemma ExactDeviationsFair(inp: SchedulerInput, sol: Solution)
    requires OneShiftPerDay(inp, sol.x)
    requires FairnessBounds(inp, sol.x, sol.shiftDev, sol.nightDev)
    ensures FairnessBounds(inp, sol.x, Tightened(inp, sol).shiftDev, Tightened(inp, sol).nightDev)
  {
    var sd := Tightened(inp, sol).shiftDev;
    var nd := Tightened(inp, sol).nightDev;
    forall u | u in Roles(inp.staff)
      ensures DeviationsBounded(inp, sol.x, sd, nd, u)
    {
      TightenedWithinBounds(inp, sol, u);
    }
  }

  /** Each exact deviation is at most the reported one. */
  lemma DeviationsNeverRaised(inp: SchedulerInput, sol: Solution)
    requires OneShiftPerDay(inp, sol.x)
    requires FairnessBounds(inp, sol.x, sol.shiftDev, sol.nightDev)
    ensures forall u :: u in DevIds(inp) ==>
      Tightened(inp, sol).shiftDev(u) <= sol.shiftDev(u) && Tightened(inp, sol).nightDev(u) <= sol.nightDev(u)
  {
    forall u | u in DevIds(inp)
      ensures Tightened(inp, sol).shiftDev(u) <= sol.shiftDev(u) && Tightened(inp, sol).nightDev(u) <= sol.nightDev(u)
    {
      TightenedWithinBounds(inp, sol, u);
    }
  }

  lemma TightenedObjective(inp: SchedulerInput, sol: Solution)
    requires OneShiftPerDay(inp, sol.x)
    requires FairnessBounds(inp, sol.x, sol.shiftDev, sol.nightDev)
    ensures Objective(inp, Tightened(inp, sol)) <= Objective(inp, sol)
  {
    DeviationsNeverRaised(inp, sol);
    SumOverMonotone(DevIds(inp), Tightened(inp, sol).shiftDev, sol.shiftDev);
    SumOverMonotone(DevIds(inp), Tightened(inp, sol).nightDev, sol.nightDev);
  }

  /** Coverage dominates fairness whenever every fairness term together is
      worth less than one unit of unmet demand: each staff member's two
      deviations are at most |days| each, so the bound is
      (10 + 5) * |days| per distinct staff id. */
  lemma CoverageDominatesFairness(inp: SchedulerInput, s1: Solution, s2: Solution)
    requires FairnessBounds(inp, s1.x, s1.shiftDev, s1.nightDev)
    requires FairnessBounds(inp, s2.x, s2.shiftDev, s2.nightDev)
    requires (ShiftDevWeight + NightDevWeight) * (|DevIds(inp)| * |inp.days|) < UnmetWeight
    requires SumUnmet(Demands(inp), s1.unmet) < SumUnmet(Demands(inp), s2.unmet)
    ensures Objective(inp, s1) < Objective(inp, s2)
  {
    var us := DevIds(inp);
    var n := |inp.days|;
    forall u | u in us
      ensures 0 <= s1.shiftDev(u) <= n && 0 <= s1.nightDev(u) <= n
      ensures 0 <= s2.shiftDev(u) <= n && 0 <= s2.nightDev(u) <= n
    {
      assert DeviationsBounded(inp, s1.x, s1.shiftDev, s1.nightDev, u);
      assert DeviationsBounded(inp, s2.x, s2.shiftDev, s2.nightDev, u);
    }
    SumOverBounds(us, s1.shiftDev, n);
    SumOverBounds(us, s1.nightDev, n);
    SumOverBounds(us, s2.shiftDev, n);
    SumOverBounds(us, s2.nightDev, n);
  }
}
