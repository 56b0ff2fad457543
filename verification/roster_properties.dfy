/** How the decoded response parts relate to the solved assignment. */
module RosterProperties {
  import opened Wrappers
  import opened Seqs
  import opened Dicts
  import opened Input
  import opened Formulation
  import opened Roster

  // ----- Shift lists -----

  /** A staff id occurs in a shift list once per declaration when it works
      that shift, and not at all otherwise. */
  lemma {:induction false} OnShiftOccurrences(x: Assignment, ids: seq<string>, d: nat, s: string, u: string)
    ensures Occurrences(OnShift(x, ids, d, s), u) == if x(u, d, s) then Occurrences(ids, u) else 0
  {
    if ids != [] {
      var p := ids[..|ids| - 1];
      var v := ids[|ids| - 1];
      OnShiftOccurrences(x, p, d, s, u);
      var q := OnShift(x, p, d, s);
      if x(v, d, s) {
        assert (q + [v])[..|q + [v]| - 1] == q;
      }
    }
  }

  /** The coverage sum of the model counts exactly the role holders in the decoded list. */
  lemma {:induction false} OnShiftRoleCount(x: Assignment, ids: seq<string>, roles: map<string, string>,
                                            d: nat, s: string, role: string)
    ensures RoleCount(OnShift(x, ids, d, s), roles, role) == Assigned(x, ids, roles, d, s, role)
  {
    if ids != [] {
      var p := ids[..|ids| - 1];
      var v := ids[|ids| - 1];
      OnShiftRoleCount(x, p, roles, d, s, role);
      var q := OnShift(x, p, d, s);
      if x(v, d, s) {
        assert (q + [v])[..|q + [v]| - 1] == q;
      }
    }
  }

  lemma {:induction false} ShiftListsKeys(x: Assignment, ids: seq<string>, d: nat, names: seq<string>)
    ensures Keys(ShiftLists(x, ids, d, names)) == names
  {
    if names != [] {
      ShiftListsKeys(x, ids, d, names[1..]);
      assert Keys(ShiftLists(x, ids, d, names)) == [names[0]] + Keys(ShiftLists(x, ids, d, names[1..]));
    }
  }

  /** Position j of a day's lists is shift `names[j]` with its staff. */
  lemma {:induction false} ShiftListsEntries(x: Assignment, ids: seq<string>, d: nat, names: seq<string>)
    ensures |ShiftLists(x, ids, d, names)| == |names|
    ensures forall j :: 0 <= j < |names| ==> ShiftLists(x, ids, d, names)[j] == (names[j], OnShift(x, ids, d, names[j]))
  {
    if names != [] {
      ShiftListsEntries(x, ids, d, names[1..]);
      var lists := ShiftLists(x, ids, d, names);
      assert lists[1..] == ShiftLists(x, ids, d, names[1..]);
      forall j | 1 <= j < |names|
        ensures lists[j] == (names[j], OnShift(x, ids, d, names[j]))
      {
        assert lists[j] == lists[1..][j - 1];
        assert names[j] == names[1..][j - 1];
      }
    }
  }

  lemma {:induction false} ShiftListsLookup(x: Assignment, ids: seq<string>, d: nat, names: seq<string>, s: string)
    requires s in names
    ensures Get(ShiftLists(x, ids, d, names), s) == Some(OnShift(x, ids, d, s))
  {
    if names[0] != s {
      ShiftListsLookup(x, ids, d, names[1..], s);
      assert ShiftLists(x, ids, d, names)[1..] == ShiftLists(x, ids, d, names[1..]);
    }
  }

  lemma {:induction false} ListsContainingIsShiftsOn(x: Assignment, ids: seq<string>, d: nat, names: seq<string>, u: string)
    ensures ListsContaining(ShiftLists(x, ids, d, names), u) == if u in ids then ShiftsOn(x, u, d, names) else 0
  {
    if names != [] {
      ListsContainingIsShiftsOn(x, ids, d, names[1..], u);
      assert ShiftLists(x, ids, d, names)[1..] == ShiftLists(x, ids, d, names[1..]);
    }
  }

  /** Hours worked on a day, read off the shift lists, are the model's hours sum. */
  lemma {:induction false} DayHoursIsHoursOn(x: Assignment, ids: seq<string>, d: nat,
                                             sh: seq<(string, int)>, all: Dict<int>, u: string)
    requires forall i :: 0 <= i < |sh| ==> sh[i] in all
    requires u in ids
    ensures DayHours(ShiftLists(x, ids, d, Keys(sh)), all, u) == HoursOn(x, u, d, sh)
  {
    if sh != [] {
      assert Keys(sh)[1..] == Keys(sh[1..]);
      assert ShiftLists(x, ids, d, Keys(sh))[1..] == ShiftLists(x, ids, d, Keys(sh[1..]));
      assert forall i :: 0 <= i < |sh[1..]| ==> sh[1..][i] == sh[i + 1];
      DayHoursIsHoursOn(x, ids, d, sh[1..], all, u);
      GetEntry(all, sh[0].0, sh[0].1);
    }
  }

  // ----- Whole schedule -----

  lemma ScheduleEntry(inp: SchedulerInput, x: Assignment, d: nat)
    requires d < |inp.days|
    ensures Schedule(inp, x)[d] == DayEntry(inp.days[d], ShiftLists(x, StaffIds(inp.staff), d, ShiftNames(inp)))
  {
  }

  lemma {:induction false} WorkedShiftsIsTotalShifts(inp: SchedulerInput, x: Assignment, u: string, k: nat)
    requires k <= |inp.days|
    ensures WorkedShifts(Schedule(inp, x)[..k], u)
            == if u in StaffIds(inp.staff) then TotalShifts(x, u, k, ShiftNames(inp)) else 0
  {
    if k > 0 {
      var sched := Schedule(inp, x);
      assert sched[..k][..k - 1] == sched[..k - 1];
      WorkedShiftsIsTotalShifts(inp, x, u, k - 1);
      ListsContainingIsShiftsOn(x, StaffIds(inp.staff), k - 1, ShiftNames(inp), u);
    }
  }

  lemma {:induction false} WorkedHoursIsTotalHours(inp: SchedulerInput, x: Assignment, u: string, k: nat)
    requires k <= |inp.days|
    requires u in StaffIds(inp.staff)
    ensures WorkedHours(Schedule(inp, x)[..k], inp.shifts, u) == TotalHours(x, u, k, inp.shifts)
  {
    if k > 0 {
      var sched := Schedule(inp, x);
      assert sched[..k][..k - 1] == sched[..k - 1];
      WorkedHoursIsTotalHours(inp, x, u, k - 1);
      DayHoursIsHoursOn(x, StaffIds(inp.staff), k - 1, inp.shifts, inp.shifts, u);
    }
  }

  // ----- Touches and the summary -----

  lemma ProductPositive(m: nat, n: nat)
    ensures m * n > 0 <==> m > 0 && n > 0
  {
    if m > 0 && n > 0 {
      assert m * n >= n;
    }
  }

  /** If both parts are m times their counts, so is the whole. */
  lemma ScaledStep(m: nat, earlier: nat, today: nat, total: nat, seen: nat, seenToday: nat, seenAll: nat)
    requires total == earlier + today
    requires seenAll == seen + seenToday
    requires seen == m * earlier && seenToday == m * today
    ensures seenAll == m * total
  {
    Distribute(m, earlier, today);
  }

  lemma Distribute(m: nat, a: nat, b: nat)
    ensures m * (a + b) == m * a + m * b
  {
  }

  lemma TouchUsersAppend(a: seq<Touch>, b: seq<Touch>)
    ensures TouchUsers(a + b) == TouchUsers(a) + TouchUsers(b)
  {
  }

  lemma {:induction false} NightVisitsAppend(a: seq<Touch>, b: seq<Touch>, u: string)
    ensures NightVisits(a + b, u) == NightVisits(a, u) + NightVisits(b, u)
    decreases |b|
  {
    if b == [] {
      assert a + b == a;
    } else {
      var b' := b[..|b| - 1];
      assert (a + b)[..|a + b| - 1] == a + b';
      NightVisitsAppend(a, b', u);
    }
  }

  lemma {:induction false} VisitsAppend(a: seq<Touch>, b: seq<Touch>, u: string)
    ensures Visits(a + b, u) == Visits(a, u) + Visits(b, u)
    ensures NightVisits(a + b, u) == NightVisits(a, u) + NightVisits(b, u)
  {
    TouchUsersAppend(a, b);
    OccurrencesAppend(TouchUsers(a), TouchUsers(b), u);
    NightVisitsAppend(a, b, u);
  }

  lemma {:induction false} NightVisitsAtMostVisits(ts: seq<Touch>, u: string)
    ensures NightVisits(ts, u) <= Visits(ts, u)
  {
    if ts != [] {
      var p := ts[..|ts| - 1];
      NightVisitsAtMostVisits(p, u);
      assert TouchUsers(ts) == TouchUsers(p) + [ts[|ts| - 1].user];
      assert TouchUsers(ts)[..|ts| - 1] == TouchUsers(p);
    }
  }

  /** Walking one shift list meets each listed id once per occurrence. */
  lemma {:induction false} ShiftTouchVisits(night: bool, list: seq<string>, u: string)
    ensures Visits(ShiftTouches(night, list), u) == Occurrences(list, u)
    ensures NightVisits(ShiftTouches(night, list), u) == if night then Occurrences(list, u) else 0
  {
    if list != [] {
      var p := list[..|list| - 1];
      ShiftTouchVisits(night, p, u);
      var t := Touch(list[|list| - 1], night);
      VisitsAppend(ShiftTouches(night, p), [t], u);
      assert TouchUsers([t]) == [t.user];
      assert [t][..0] == [];
      assert list == p + [list[|list| - 1]];
      assert TouchUsers(ShiftTouches(night, p) + [t]) == TouchUsers(ShiftTouches(night, p)) + [t.user];
      OccurrencesAppend(p, [list[|list| - 1]], u);
      assert Occurrences([t.user], u) == (if t.user == u then 1 else 0) by {
        assert [t.user][..0] == [];
      }
    }
  }

  /** One shift's list meets `u` once per declaration when `u` works it. */
  lemma ShiftContribution(x: Assignment, ids: seq<string>, d: nat, s: string, u: string)
    ensures Visits(ShiftTouches(IsNight(s), OnShift(x, ids, d, s)), u)
            == Occurrences(ids, u) * (if x(u, d, s) then 1 else 0)
    ensures NightVisits(ShiftTouches(IsNight(s), OnShift(x, ids, d, s)), u)
            == Occurrences(ids, u) * (if IsNight(s) && x(u, d, s) then 1 else 0)
  {
    ShiftTouchVisits(IsNight(s), OnShift(x, ids, d, s), u);
    OnShiftOccurrences(x, ids, d, s, u);
  }

  lemma {:induction false} DayTouchVisits(x: Assignment, ids: seq<string>, d: nat, names: seq<string>, u: string)
    ensures Visits(DayTouches(ShiftLists(x, ids, d, names)), u) == Occurrences(ids, u) * ShiftsOn(x, u, d, names)
  {
    if names != [] {
      var lists := ShiftLists(x, ids, d, names);
      var rest := ShiftLists(x, ids, d, names[1..]);
      assert lists[1..] == rest;
      var first := ShiftTouches(IsNight(names[0]), OnShift(x, ids, d, names[0]));
      assert DayTouches(lists) == first + DayTouches(rest);
      DayTouchVisits(x, ids, d, names[1..], u);
      VisitsAppend(first, DayTouches(rest), u);
      ShiftContribution(x, ids, d, names[0], u);
      ScaledStep(Occurrences(ids, u), if x(u, d, names[0]) then 1 else 0, ShiftsOn(x, u, d, names[1..]), ShiftsOn(x, u, d, names),
                 Visits(first, u), Visits(DayTouches(rest), u), Visits(DayTouches(lists), u));
    }
  }

  lemma {:induction false} DayTouchNightVisits(x: Assignment, ids: seq<string>, d: nat, names: seq<string>, u: string)
    ensures NightVisits(DayTouches(ShiftLists(x, ids, d, names)), u) == Occurrences(ids, u) * NightsOn(x, u, d, names)
  {
    if names != [] {
      var lists := ShiftLists(x, ids, d, names);
      var rest := ShiftLists(x, ids, d, names[1..]);
      assert lists[1..] == rest;
      var first := ShiftTouches(IsNight(names[0]), OnShift(x, ids, d, names[0]));
      assert DayTouches(lists) == first + DayTouches(rest);
      DayTouchNightVisits(x, ids, d, names[1..], u);
      NightVisitsAppend(first, DayTouches(rest), u);
      ShiftContribution(x, ids, d, names[0], u);
      ScaledStep(Occurrences(ids, u), if IsNight(names[0]) && x(u, d, names[0]) then 1 else 0, NightsOn(x, u, d, names[1..]), NightsOn(x, u, d, names),
                 NightVisits(first, u), NightVisits(DayTouches(rest), u), NightVisits(DayTouches(lists), u));
    }
  }

  /** Walking a schedule that meets `u` m times per shift worked on each
      day meets `u` m times per shift worked over all its days. */
  lemma {:induction false} TouchesVisits(sched: seq<DayEntry>, x: Assignment, m: nat, names: seq<string>, u: string)
    requires forall d :: 0 <= d < |sched| ==> Visits(DayTouches(sched[d].shifts), u) == m * ShiftsOn(x, u, d, names)
    ensures Visits(Touches(sched), u) == m * TotalShifts(x, u, |sched|, names)
  {
    if sched != [] {
      var k := |sched|;
      var p := sched[..k - 1];
      var day := DayTouches(sched[k - 1].shifts);
      assert Touches(sched) == Touches(p) + day;
      forall d | 0 <= d < |p|
        ensures Visits(DayTouches(p[d].shifts), u) == m * ShiftsOn(x, u, d, names)
      {
        assert p[d] == sched[d];
      }
      TouchesVisits(p, x, m, names, u);
      VisitsAppend(Touches(p), day, u);
      ScaledStep(m, TotalShifts(x, u, k - 1, names), ShiftsOn(x, u, k - 1, names), TotalShifts(x, u, k, names),
                 Visits(Touches(p), u), Visits(day, u), Visits(Touches(sched), u));
    }
  }

  /** The night counterpart of `TouchesVisits`. */
  lemma {:induction false} TouchesNightVisits(sched: seq<DayEntry>, x: Assignment, m: nat, names: seq<string>, u: string)
    requires forall d :: 0 <= d < |sched| ==> NightVisits(DayTouches(sched[d].shifts), u) == m * NightsOn(x, u, d, names)
    ensures NightVisits(Touches(sched), u) == m * TotalNights(x, u, |sched|, names)
  {
    if sched != [] {
      var k := |sched|;
      var p := sched[..k - 1];
      var day := DayTouches(sched[k - 1].shifts);
      assert Touches(sched) == Touches(p) + day;
      TouchesNightVisits(p, x, m, names, u);
      NightVisitsAppend(Touches(p), day, u);
      ScaledStep(m, TotalNights(x, u, k - 1, names), NightsOn(x, u, k - 1, names), TotalNights(x, u, k, names),
                 NightVisits(Touches(p), u), NightVisits(day, u), NightVisits(Touches(sched), u));
    }
  }

  lemma ScheduleTouchCounts(inp: SchedulerInput, x: Assignment, u: string)
    ensures Visits(Touches(Schedule(inp, x)), u)
            == Occurrences(StaffIds(inp.staff), u) * TotalShifts(x, u, |inp.days|, ShiftNames(inp))
    ensures NightVisits(Touches(Schedule(inp, x)), u)
            == Occurrences(StaffIds(inp.staff), u) * TotalNights(x, u, |inp.days|, ShiftNames(inp))
  {
    var sched := Schedule(inp, x);
    var ids := StaffIds(inp.staff);
    var names := ShiftNames(inp);
    forall d | 0 <= d < |sched|
      ensures Visits(DayTouches(sched[d].shifts), u) == Occurrences(ids, u) * ShiftsOn(x, u, d, names)
      ensures NightVisits(DayTouches(sched[d].shifts), u) == Occurrences(ids, u) * NightsOn(x, u, d, names)
    {
      ScheduleEntry(inp, x, d);
      DayTouchVisits(x, ids, d, names, u);
      DayTouchNightVisits(x, ids, d, names, u);
    }
    TouchesVisits(sched, x, Occurrences(ids, u), names, u);
    TouchesNightVisits(sched, x, Occurrences(ids, u), names, u);
  }

  /** Only declared staff are met walking the schedule. */
  lemma TouchesFromStaff(inp: SchedulerInput, x: Assignment)
    ensures forall t :: t in Touches(Schedule(inp, x)) ==> t.user in Roles(inp.staff)
  {
    var ts := Touches(Schedule(inp, x));
    forall t | t in ts
      ensures t.user in Roles(inp.staff)
    {
      var i :| 0 <= i < |ts| && ts[i] == t;
      assert TouchUsers(ts)[i] == t.user;
      ScheduleTouchCounts(inp, x, t.user);
      ProductPositive(Occurrences(StaffIds(inp.staff), t.user), TotalShifts(x, t.user, |inp.days|, ShiftNames(inp)));
      assert t.user in StaffIds(inp.staff);
    }
  }

  /** Every entry carries its id's role and how often (and how often at
      night) the id was met in `ts`. */
  ghost predicate Tallied(entries: seq<SummaryEntry>, ts: seq<Touch>, roles: map<string, string>) {
    forall i :: 0 <= i < |entries| ==>
      entries[i].userId in roles && entries[i].role == roles[entries[i].userId]
      && entries[i].totalShifts == Visits(ts, entries[i].userId)
      && entries[i].nightShifts == NightVisits(ts, entries[i].userId)
  }

  /** Summary entries appear in the order their ids were first met, once each. */
  lemma {:induction false} SummaryIds(ts: seq<Touch>, roles: map<string, string>)
    requires forall t :: t in ts ==> t.user in roles
    ensures UserIds(Summary(ts, roles)) == Dedup(TouchUsers(ts))
  {
    if ts != [] {
      var p := ts[..|ts| - 1];
      var t := ts[|ts| - 1];
      assert forall t' :: t' in p ==> t' in ts;
      SummaryIds(p, roles);
      var acc := Summary(p, roles);
      var us := TouchUsers(ts);
      assert us[..|us| - 1] == TouchUsers(p);
      assert us[|us| - 1] == t.user;
      if t.user in UserIds(acc) {
        assert UserIds(Tally(acc, t, roles[t.user])) == UserIds(acc);
      } else {
        assert UserIds(Tally(acc, t, roles[t.user])) == UserIds(acc) + [t.user];
      }
    }
  }

  /** One default-dict update keeps every entry's counts in step with the touches. */
  lemma {:induction false} TallyStep(acc: seq<SummaryEntry>, p: seq<Touch>, t: Touch, roles: map<string, string>)
    requires t.user in roles
    requires Tallied(acc, p, roles)
    requires forall v :: v in UserIds(acc) <==> v in TouchUsers(p)
    ensures Tallied(Tally(acc, t, roles[t.user]), p + [t], roles)
  {
    var r := Tally(acc, t, roles[t.user]);
    var ts := p + [t];
    forall v
      ensures Visits(ts, v) == Visits(p, v) + (if t.user == v then 1 else 0)
      ensures NightVisits(ts, v) == NightVisits(p, v) + (if t.user == v && t.night then 1 else 0)
    {
      VisitsAppend(p, [t], v);
      assert TouchUsers([t]) == [t.user];
      assert [t][..0] == [];
    }
    if t.user !in UserIds(acc) {
      assert t.user !in TouchUsers(p);
      assert Visits(p, t.user) == 0;
      NightVisitsAtMostVisits(p, t.user);
      forall i | 0 <= i < |acc|
        ensures acc[i].userId != t.user
      {
        assert UserIds(acc)[i] == acc[i].userId;
      }
    }
  }

  /** The summary is the default-dict tally of the touches: one entry per
      staff id met, in order of first meeting, carrying the id's role and
      how often (and how often at night) it was met. */
  lemma {:induction false} SummaryTallies(ts: seq<Touch>, roles: map<string, string>)
    requires forall t :: t in ts ==> t.user in roles
    ensures UserIds(Summary(ts, roles)) == Dedup(TouchUsers(ts))
    ensures forall i :: 0 <= i < |Summary(ts, roles)| ==>
      var e := Summary(ts, roles)[i];
      e.userId in roles && e.role == roles[e.userId] && e.totalShifts == Visits(ts, e.userId) && e.nightShifts == NightVisits(ts, e.userId)
  {
    SummaryIds(ts, roles);
    SummaryTallied(ts, roles);
  }

  lemma {:induction false} SummaryTallied(ts: seq<Touch>, roles: map<string, string>)
    requires forall t :: t in ts ==> t.user in roles
    ensures Tallied(Summary(ts, roles), ts, roles)
  {
    if ts != [] {
      var p := ts[..|ts| - 1];
      var t := ts[|ts| - 1];
      assert forall t' :: t' in p ==> t' in ts;
      assert ts == p + [t];
      SummaryTallied(p, roles);
      SummaryIds(p, roles);
      TallyStep(Summary(p, roles), p, t, roles);
    }
  }

  // ----- Violations -----

  predicate ViolationKeysDistinct(inp: SchedulerInput, ds: seq<Demand>)
    requires forall dm :: dm in ds ==> dm.day < |inp.days|
  {
    forall i, j :: 0 <= i < j < |ds| ==> ViolationKey(inp, ds[i]) != ViolationKey(inp, ds[j])
  }

  /** Every reported key is the key of a slot with positive unmet demand,
      reported with that slot's value. */
  lemma {:induction false} ViolationSource(inp: SchedulerInput, ds: seq<Demand>, unmet: Unmet, k: string)
    requires forall dm :: dm in ds ==> dm.day < |inp.days|
    requires k in Violations(inp, ds, unmet)
    ensures exists i :: 0 <= i < |ds| && ViolationKey(inp, ds[i]) == k &&
                        Violations(inp, ds, unmet)[k] == unmet(ds[i].day, ds[i].shift, ds[i].role) > 0
  {
    var p := ds[..|ds| - 1];
    var dm := ds[|ds| - 1];
    if !(ViolationKey(inp, dm) == k && unmet(dm.day, dm.shift, dm.role) > 0) {
      assert forall dm' :: dm' in p ==> dm' in ds;
      ViolationSource(inp, p, unmet, k);
      var i :| 0 <= i < |p| && ViolationKey(inp, p[i]) == k &&
               Violations(inp, p, unmet)[k] == unmet(p[i].day, p[i].shift, p[i].role) > 0;
      assert ds[i] == p[i];
    }
  }

  /** With distinct keys, a slot is reported exactly when its unmet value is
      positive, and it is reported with that value. */
  lemma {:induction false} ViolationExact(inp: SchedulerInput, ds: seq<Demand>, unmet: Unmet, dm: Demand)
    requires forall dm' :: dm' in ds ==> dm'.day < |inp.days|
    requires ViolationKeysDistinct(inp, ds)
    requires dm in ds
    ensures ViolationKey(inp, dm) in Violations(inp, ds, unmet) <==> unmet(dm.day, dm.shift, dm.role) > 0
    ensures unmet(dm.day, dm.shift, dm.role) > 0 ==>
      Violations(inp, ds, unmet)[ViolationKey(inp, dm)] == unmet(dm.day, dm.shift, dm.role)
  {
    var p := ds[..|ds| - 1];
    var last := ds[|ds| - 1];
    assert forall dm' :: dm' in p ==> dm' in ds;
    assert ViolationKeysDistinct(inp, p) by {
      forall i, j | 0 <= i < j < |p|
        ensures ViolationKey(inp, p[i]) != ViolationKey(inp, p[j])
      {
        assert p[i] == ds[i] && p[j] == ds[j];
      }
    }
    var key := ViolationKey(inp, dm);
    if dm == last {
      if key in Violations(inp, p, unmet) && unmet(dm.day, dm.shift, dm.role) <= 0 {
        ViolationSource(inp, p, unmet, key);
      }
    } else {
      var i :| 0 <= i < |ds| && ds[i] == dm;
      assert i < |ds| - 1;
      assert p[i] == dm;
      assert ViolationKey(inp, ds[i]) != ViolationKey(inp, last);
      ViolationExact(inp, p, unmet, dm);
    }
  }
}
