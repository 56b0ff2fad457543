/** The scheduler's request body and its validators: the per-field
    constraints (exactly seven days, positive shift hours, positive minimum
    rest) and the cross-field check that every role and staff member a
    field mentions exists. */
module Input {
  import opened Wrappers
  import opened Dicts

  datatype StaffMember = StaffMember(id: string, role: string)

  /** The parsed request. `weekStart` is left out: nothing downstream reads it. */
  datatype SchedulerInput = SchedulerInput(
    days: seq<string>,
    shifts: Dict<int>,                        // shift name -> hours
    requirements: Dict<Dict<int>>,            // shift name -> role -> headcount
    staff: seq<StaffMember>,
    unavailability: Dict<seq<string>>,        // staff id -> days off
    preferredHolidays: Dict<seq<string>>,     // staff id -> days
    maxShiftsPerWeek: map<string, int>,       // role -> cap
    maxWeeklyHours: map<string, int>,         // role -> cap
    minRestHours: int)

  /** `days` must hold exactly this many labels. */
  const DaysPerWeek := 7

  datatype ValidationError =
    | WrongDayCount(count: nat)
    | NonPositiveShiftHours(shift: string)
    | NonPositiveMinRestHours(hours: int)
    | UnknownRequirementRole(role: string)
    | UnknownUnavailableStaff(userId: string)
    | UnknownUnavailableDay(day: string, userId: string)
  {
    /** Raised while the fields are parsed, before any cross-field check. */
    predicate IsFieldError() {
      WrongDayCount? || NonPositiveShiftHours? || NonPositiveMinRestHours?
    }

    /** Position of the offending field in the declaration (days, shifts,
        min_rest_hours, then the model validator). */
    function FieldIndex(): nat {
      match this
      case WrongDayCount(_) => 0
      case NonPositiveShiftHours(_) => 1
      case NonPositiveMinRestHours(_) => 2
      case _ => 3
    }
  }

  function StaffRoles(inp: SchedulerInput): set<string> {
    set m | m in inp.staff :: m.role
  }

  function StaffIdSet(inp: SchedulerInput): set<string> {
    set m | m in inp.staff :: m.id
  }

  predicate AllHoursPositive(shifts: seq<(string, int)>) {
    forall i :: 0 <= i < |shifts| ==> shifts[i].1 > 0
  }

  /** The constraints declared on the fields themselves. */
  predicate FieldsValid(inp: SchedulerInput) {
    && |inp.days| == DaysPerWeek
    && AllHoursPositive(inp.shifts)
    && inp.minRestHours > 0
  }

  /** Every role named inside `requirements` is held by some staff member. */
  predicate RequirementRolesKnown(inp: SchedulerInput) {
    forall i, j :: 0 <= i < |inp.requirements| && 0 <= j < |inp.requirements[i].1| ==>
      inp.requirements[i].1[j].0 in StaffRoles(inp)
  }

  /** Every staff id and every day in `unavailability` is declared. */
  predicate UnavailabilityKnown(inp: SchedulerInput) {
    forall i :: 0 <= i < |inp.unavailability| ==>
      && inp.unavailability[i].0 in StaffIdSet(inp)
      && forall j :: 0 <= j < |inp.unavailability[i].1| ==> inp.unavailability[i].1[j] in inp.days
  }

  predicate Valid(inp: SchedulerInput) {
    FieldsValid(inp) && RequirementRolesKnown(inp) && UnavailabilityKnown(inp)
  }

  /** The error `e` describes something actually wrong with `inp`. */
  predicate Offends(inp: SchedulerInput, e: ValidationError) {
    match e
    case WrongDayCount(n) => n == |inp.days| && n != DaysPerWeek
    case NonPositiveShiftHours(s) =>
      exists i :: 0 <= i < |inp.shifts| && inp.shifts[i].0 == s && inp.shifts[i].1 <= 0
    case NonPositiveMinRestHours(h) => h == inp.minRestHours && h <= 0
    case UnknownRequirementRole(role) =>
      && role !in StaffRoles(inp)
      && exists i, j :: 0 <= i < |inp.requirements| && 0 <= j < |inp.requirements[i].1| &&
                        inp.requirements[i].1[j].0 == role
    case UnknownUnavailableStaff(u) =>
      u !in StaffIdSet(inp) && u in Keys(inp.unavailability)
    case UnknownUnavailableDay(d, u) =>
      && d !in inp.days
      && exists i :: 0 <= i < |inp.unavailability| && inp.unavailability[i].0 == u &&
                     d in inp.unavailability[i].1
  }

  /** `s` is the first shift, in declaration order, with hours <= 0. */
  predicate FirstNonPositiveShift(shifts: seq<(string, int)>, s: string) {
    exists i :: 0 <= i < |shifts| && shifts[i].0 == s && shifts[i].1 <= 0 && AllHoursPositive(shifts[..i])
  }

  /** The shift the validator reports is determined by the map. */
  lemma FirstNonPositiveShiftUnique(shifts: seq<(string, int)>, s1: string, s2: string)
    requires FirstNonPositiveShift(shifts, s1) && FirstNonPositiveShift(shifts, s2)
    ensures s1 == s2
  {
  }

  /** The `shifts` field validator: the first shift, in declaration order,
      with hours <= 0 is reported; otherwise the map passes unchanged. */
  method ShiftHoursPositive(v: Dict<int>) returns (r: Result<Dict<int>, ValidationError>)
    ensures r.Success? <==> AllHoursPositive(v)
    ensures r.Success? ==> r.value == v
    ensures r.Failure? ==> r.error.NonPositiveShiftHours? && FirstNonPositiveShift(v, r.error.shift)
  {
    var i := 0;
    while i < |v|
      invariant 0 <= i <= |v|
      invariant AllHoursPositive(v[..i])
    {
      if v[i].1 <= 0 {
        return Failure(NonPositiveShiftHours(v[i].0));
      }
      i := i + 1;
    }
    assert v[..i] == v;
    return Success(v);
  }

  /** What the field parsing reports: one error per offending field, in
      field order, each a real offence, the shift error naming the first
      non-positive shift. */
  predicate ReportsFieldErrors(inp: SchedulerInput, errs: seq<ValidationError>) {
    && (|inp.days| != DaysPerWeek <==> WrongDayCount(|inp.days|) in errs)
    && (inp.minRestHours <= 0 <==> NonPositiveMinRestHours(inp.minRestHours) in errs)
    && (!AllHoursPositive(inp.shifts) <==> exists e :: e in errs && e.NonPositiveShiftHours?)
    && (forall e :: e in errs ==> e.IsFieldError() && Offends(inp, e))
    && (forall e :: e in errs && e.NonPositiveShiftHours? ==> FirstNonPositiveShift(inp.shifts, e.shift))
    && (forall a, b :: 0 <= a < b < |errs| ==> errs[a].FieldIndex() < errs[b].FieldIndex())
  }

  /** All field-level errors, in field declaration order (days, shifts,
      min_rest_hours); the framework reports them together. */
  method FieldErrors(inp: SchedulerInput) returns (errs: seq<ValidationError>)
    ensures errs == [] <==> FieldsValid(inp)
    ensures ReportsFieldErrors(inp, errs)
  {
    errs := [];
    if |inp.days| != DaysPerWeek {
      errs := errs + [WrongDayCount(|inp.days|)];
    }
    var shifts := ShiftHoursPositive(inp.shifts);
    if shifts.Failure? {
      assert exists i :: 0 <= i < |inp.shifts| && inp.shifts[i].0 == shifts.error.shift && inp.shifts[i].1 <= 0;
      errs := errs + [shifts.error];
    }
    if inp.minRestHours <= 0 {
      errs := errs + [NonPositiveMinRestHours(inp.minRestHours)];
    }
  }

  /** Every requirement role before position (i, j), in requirements order, is held by some staff member. */
  predicate RolesKnownBefore(inp: SchedulerInput, i: nat, j: nat) {
    forall i', j' :: 0 <= i' < |inp.requirements| && 0 <= j' < |inp.requirements[i'].1| &&
                     (i' < i || (i' == i && j' < j)) ==>
      inp.requirements[i'].1[j'].0 in StaffRoles(inp)
  }

  /** The first `j` days off of unavailability entry `k` are declared days. */
  predicate DaysKnownBefore(inp: SchedulerInput, k: nat, j: nat) {
    k < |inp.unavailability| &&
    forall j' :: 0 <= j' < j && j' < |inp.unavailability[k].1| ==> inp.unavailability[k].1[j'] in inp.days
  }

  /** Unavailability entry `k` names a declared staff id and only declared days. */
  predicate EntryClean(inp: SchedulerInput, k: nat) {
    && k < |inp.unavailability|
    && inp.unavailability[k].0 in StaffIdSet(inp)
    && DaysKnownBefore(inp, k, |inp.unavailability[k].1|)
  }

  /** `e` is the first problem in the model validator's order: the first
      unknown role in requirements order; failing that, the first
      unavailability entry that is not clean, reported by its id when the id
      is unknown and otherwise by its first undeclared day. */
  predicate FirstCrossFieldError(inp: SchedulerInput, e: ValidationError) {
    var reqs := inp.requirements;
    var unav := inp.unavailability;
    match e
    case UnknownRequirementRole(role) =>
      && role !in StaffRoles(inp)
      && exists i, j :: 0 <= i < |reqs| && 0 <= j < |reqs[i].1| && reqs[i].1[j].0 == role && RolesKnownBefore(inp, i, j)
    case UnknownUnavailableStaff(u) =>
      && RequirementRolesKnown(inp)
      && u !in StaffIdSet(inp)
      && exists k :: 0 <= k < |unav| && unav[k].0 == u && forall k' :: 0 <= k' < k ==> EntryClean(inp, k')
    case UnknownUnavailableDay(d, u) =>
      && RequirementRolesKnown(inp)
      && u in StaffIdSet(inp)
      && d !in inp.days
      && exists k, j :: 0 <= k < |unav| && 0 <= j < |unav[k].1| && unav[k].0 == u && unav[k].1[j] == d &&
                        DaysKnownBefore(inp, k, j) && forall k' :: 0 <= k' < k ==> EntryClean(inp, k')
    case _ => false
  }

  /** The model validator: requirement roles are checked first, then each
      unavailability entry (its staff id, then its days) in order. The
      first problem found is reported; a clean input is returned as is. */
  method ValidateRolesAndDays(inp: SchedulerInput) returns (r: Result<SchedulerInput, ValidationError>)
    ensures r.Success? <==> RequirementRolesKnown(inp) && UnavailabilityKnown(inp)
    ensures r.Success? ==> r.value == inp
    ensures r.Failure? ==> Offends(inp, r.error) && FirstCrossFieldError(inp, r.error)
  {
    var staffRoles := StaffRoles(inp);
    var staffIds := StaffIdSet(inp);
    var reqs := inp.requirements;
    var i := 0;
    while i < |reqs|
      invariant 0 <= i <= |reqs|
      invariant RolesKnownBefore(inp, i, 0)
    {
      var roles := reqs[i].1;
      var j := 0;
      while j < |roles|
        invariant 0 <= j <= |roles|
        invariant RolesKnownBefore(inp, i, j)
      {
        if roles[j].0 !in staffRoles {
          return Failure(UnknownRequirementRole(roles[j].0));
        }
        j := j + 1;
      }
      i := i + 1;
    }
    var unav := inp.unavailability;
    var k := 0;
    while k < |unav|
      invariant 0 <= k <= |unav|
      invariant forall k' :: 0 <= k' < k ==> EntryClean(inp, k')
    {
      var (userId, daysOff) := unav[k];
      if userId !in staffIds {
        assert userId == Keys(unav)[k];
        return Failure(UnknownUnavailableStaff(userId));
      }
      var j := 0;
      while j < |daysOff|
        invariant 0 <= j <= |daysOff|
        invariant DaysKnownBefore(inp, k, j)
      {
        if daysOff[j] !in inp.days {
          return Failure(UnknownUnavailableDay(daysOff[j], userId));
        }
        j := j + 1;
      }
      k := k + 1;
    }
    forall i', j' | 0 <= i' < |reqs| && 0 <= j' < |reqs[i'].1|
      ensures reqs[i'].1[j'].0 in StaffRoles(inp)
    {
      assert RolesKnownBefore(inp, |reqs|, 0);
    }
    forall k' | 0 <= k' < |unav|
      ensures unav[k'].0 in StaffIdSet(inp)
      ensures forall j :: 0 <= j < |unav[k'].1| ==> unav[k'].1[j] in inp.days
    {
      assert EntryClean(inp, k');
    }
    return Success(inp);
  }

  /** The model validator's error is determined by the input: two errors
      that are both "the first problem" are the same error. */
  lemma FirstCrossFieldErrorUnique(inp: SchedulerInput, e1: ValidationError, e2: ValidationError)
    requires FirstCrossFieldError(inp, e1) && FirstCrossFieldError(inp, e2)
    ensures e1 == e2
  {
    var reqs := inp.requirements;
    var unav := inp.unavailability;
    if e1.UnknownRequirementRole? || e2.UnknownRequirementRole? {
      RoleErrorsUnique(inp, e1, e2);
    } else {
      var k1, j1 := UnavailabilityPosition(inp, e1);
      var k2, j2 := UnavailabilityPosition(inp, e2);
      if k1 != k2 {
        assert false;
      }
      if e1.UnknownUnavailableDay? && e2.UnknownUnavailableDay? && j1 != j2 {
        assert false;
      }
    }
  }

  lemma RoleErrorsUnique(inp: SchedulerInput, e1: ValidationError, e2: ValidationError)
    requires FirstCrossFieldError(inp, e1) && FirstCrossFieldError(inp, e2)
    requires e1.UnknownRequirementRole? || e2.UnknownRequirementRole?
    ensures e1 == e2
  {
    var reqs := inp.requirements;
    if !e1.UnknownRequirementRole? || !e2.UnknownRequirementRole? {
      assert false;
    } else {
      var i1, j1 :| 0 <= i1 < |reqs| && 0 <= j1 < |reqs[i1].1| && reqs[i1].1[j1].0 == e1.role && RolesKnownBefore(inp, i1, j1);
      var i2, j2 :| 0 <= i2 < |reqs| && 0 <= j2 < |reqs[i2].1| && reqs[i2].1[j2].0 == e2.role && RolesKnownBefore(inp, i2, j2);
      if i1 < i2 || (i1 == i2 && j1 < j2) {
        assert false;
      } else if i2 < i1 || (i1 == i2 && j2 < j1) {
        assert false;
      }
    }
  }

  /** The unavailability entry (and, for a day error, the day position) an
      unavailability error is reported for. */
  lemma UnavailabilityPosition(inp: SchedulerInput, e: ValidationError) returns (k: nat, j: nat)
    requires FirstCrossFieldError(inp, e)
    requires !e.UnknownRequirementRole?
    ensures k < |inp.unavailability| && inp.unavailability[k].0 == e.userId
    ensures forall k' :: 0 <= k' < k ==> EntryClean(inp, k')
    ensures !EntryClean(inp, k)
    ensures e.UnknownUnavailableDay? ==>
      && j < |inp.unavailability[k].1| && inp.unavailability[k].1[j] == e.day
      && e.day !in inp.days && DaysKnownBefore(inp, k, j)
  {
    var unav := inp.unavailability;
    if e.UnknownUnavailableStaff? {
      k :| 0 <= k < |unav| && unav[k].0 == e.userId && forall k' :: 0 <= k' < k ==> EntryClean(inp, k');
      j := 0;
    } else {
      k, j :| 0 <= k < |unav| && 0 <= j < |unav[k].1| && unav[k].0 == e.userId && unav[k].1[j] == e.day &&
              DaysKnownBefore(inp, k, j) && forall k' :: 0 <= k' < k ==> EntryClean(inp, k');
    }
  }

  /** Full request validation: field errors are collected first and, if
      there are any, the cross-field validator does not run. */
  method Validate(inp: SchedulerInput) returns (r: Result<SchedulerInput, seq<ValidationError>>)
    ensures r.Success? <==> Valid(inp)
    ensures r.Success? ==> r.value == inp
    ensures r.Failure? ==> r.error != [] && forall e :: e in r.error ==> Offends(inp, e)
    ensures !FieldsValid(inp) ==> r.Failure? && ReportsFieldErrors(inp, r.error)
    ensures FieldsValid(inp) && !Valid(inp) ==>
      r.Failure? && |r.error| == 1 && FirstCrossFieldError(inp, r.error[0])
  {
    var errs := FieldErrors(inp);
    if errs != [] {
      return Failure(errs);
    }
    var checked := ValidateRolesAndDays(inp);
    match checked
    case Success(v) => return Success(v);
    case Failure(e) => return Failure([e]);
  }
}
