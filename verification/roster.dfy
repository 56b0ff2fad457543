/** Decoding a solved assignment into the response parts: the per-day
    schedule, the per-staff summary and the sparse unmet-demand report,
    together with the facts that tie each part back to the assignment. */
module Roster {
  import opened Wrappers
  import opened Seqs
  import opened Dicts
  import opened Input
  import opened Formulation

  /** One schedule entry: a day label and, per shift name, who works it. */
  datatype DayEntry = DayEntry(day: string, shifts: seq<(string, seq<string>)>)

  datatype SummaryEntry = SummaryEntry(userId: string, role: string, totalShifts: nat, nightShifts: nat)

  /** One increment of the summary: a staff id met while walking the
      schedule, and whether the shift it was met in is a night shift. */
  datatype Touch = Touch(user: string, night: bool)

  // ----- Schedule -----

  /** The staff, in declaration order (repeats kept), who work `s` on day `d`. */
  function OnShift(x: Assignment, ids: seq<string>, d: nat, s: string): (r: seq<string>)
    ensures IsSubsequence(r, ids)
    ensures forall u :: u in r <==> u in ids && x(u, d, s)
  {
    if ids == [] then []
    else
      var p := ids[..|ids| - 1];
      var u := ids[|ids| - 1];
      assert ids == p + [u];
      var q := OnShift(x, p, d, s);
      if x(u, d, s) then
        assert (q + [u])[..|q + [u]| - 1] == q;
        q + [u]
      else q
  }

  function ShiftLists(x: Assignment, ids: seq<string>, d: nat, names: seq<string>): seq<(string, seq<string>)> {
    if names == [] then []
    else [(names[0], OnShift(x, ids, d, names[0]))] + ShiftLists(x, ids, d, names[1..])
  }

  /** The schedule: one entry per input day, in input order. */
  function Schedule(inp: SchedulerInput, x: Assignment): seq<DayEntry> {
    var ids := StaffIds(inp.staff);
    var names := ShiftNames(inp);
    seq(|inp.days|, d requires 0 <= d < |inp.days| => DayEntry(inp.days[d], ShiftLists(x, ids, d, names)))
  }

  /** `entry["shifts"].get(s, [])`. */
  function Staffed(entry: DayEntry, s: string): seq<string> {
    match Get(entry.shifts, s)
    case Some(l) => l
    case None => []
  }

  /** Number of shift lists of a day that contain `u`. */
  function ListsContaining(shifts: seq<(string, seq<string>)>, u: string): nat {
    if shifts == [] then 0
    else (if u in shifts[0].1 then 1 else 0) + ListsContaining(shifts[1..], u)
  }

  /** Shifts `u` works over the whole schedule. */
  function WorkedShifts(schedule: seq<DayEntry>, u: string): nat {
    if schedule == [] then 0
    else WorkedShifts(schedule[..|schedule| - 1], u) + ListsContaining(schedule[|schedule| - 1].shifts, u)
  }

  function HoursOf(shifts: Dict<int>, s: string): int {
    match Get(shifts, s)
    case Some(h) => h
    case None => 0
  }

  /** Hours `u` works on one day of the schedule. */
  function DayHours(lists: seq<(string, seq<string>)>, shifts: Dict<int>, u: string): int {
    if lists == [] then 0
    else (if u in lists[0].1 then HoursOf(shifts, lists[0].0) else 0) + DayHours(lists[1..], shifts, u)
  }

  function WorkedHours(schedule: seq<DayEntry>, shifts: Dict<int>, u: string): int {
    if schedule == [] then 0
    else WorkedHours(schedule[..|schedule| - 1], shifts, u) + DayHours(schedule[|schedule| - 1].shifts, shifts, u)
  }

  /** Entries of a shift list whose role is `role`. */
  function RoleCount(list: seq<string>, roles: map<string, string>, role: string): nat {
    if list == [] then 0
    else RoleCount(list[..|list| - 1], roles, role) + (if HasRole(roles, list[|list| - 1], role) then 1 else 0)
  }

  // ----- Summary -----

  function ShiftTouches(night: bool, list: seq<string>): seq<Touch> {
    if list == [] then []
    else ShiftTouches(night, list[..|list| - 1]) + [Touch(list[|list| - 1], night)]
  }

  function DayTouches(lists: seq<(string, seq<string>)>): seq<Touch> {
    if lists == [] then []
    else ShiftTouches(IsNight(lists[0].0), lists[0].1) + DayTouches(lists[1..])
  }

  /** Every (staff, shift) met walking the schedule day by day, shift by shift. */
  function Touches(schedule: seq<DayEntry>): seq<Touch> {
    if schedule == [] then []
    else Touches(schedule[..|schedule| - 1]) + DayTouches(schedule[|schedule| - 1].shifts)
  }

  function TouchUsers(ts: seq<Touch>): seq<string> {
    seq(|ts|, i requires 0 <= i < |ts| => ts[i].user)
  }

  /** Touches of `u`. */
  function Visits(ts: seq<Touch>, u: string): nat {
    Occurrences(TouchUsers(ts), u)
  }

  /** Night touches of `u`. */
  function NightVisits(ts: seq<Touch>, u: string): nat {
    if ts == [] then 0
    else NightVisits(ts[..|ts| - 1], u) + (if ts[|ts| - 1].user == u && ts[|ts| - 1].night then 1 else 0)
  }

  function UserIds(entries: seq<SummaryEntry>): seq<string> {
    seq(|entries|, i requires 0 <= i < |entries| => entries[i].userId)
  }

  function Bump(e: SummaryEntry, night: bool): SummaryEntry {
    e.(totalShifts := e.totalShifts + 1, nightShifts := e.nightShifts + if night then 1 else 0)
  }

  /** One `summary[u]` update of the default dict: the entry of `t.user`
      is incremented, or created at the end with the staff member's role. */
  function Tally(acc: seq<SummaryEntry>, t: Touch, role: string): seq<SummaryEntry> {
    if t.user in UserIds(acc) then
      seq(|acc|, i requires 0 <= i < |acc| => if acc[i].userId == t.user then Bump(acc[i], t.night) else acc[i])
    else acc + [SummaryEntry(t.user, role, 1, if t.night then 1 else 0)]
  }

  /** The summary list, in the order staff were first met. */
  function Summary(ts: seq<Touch>, roles: map<string, string>): seq<SummaryEntry>
    requires forall t :: t in ts ==> t.user in roles
  {
    if ts == [] then []
    else
      var t := ts[|ts| - 1];
      Tally(Summary(ts[..|ts| - 1], roles), t, roles[t.user])
  }

  // ----- Violations -----

  function ViolationKey(inp: SchedulerInput, dm: Demand): string
    requires dm.day < |inp.days|
  {
    inp.days[dm.day] + "-" + dm.shift + "-" + dm.role
  }

  /** Every slot with a positive unmet value, keyed "<day>-<shift>-<role>";
      a later slot with the same key overwrites an earlier one. */
  function Violations(inp: SchedulerInput, ds: seq<Demand>, unmet: Unmet): (m: map<string, int>)
    requires forall dm :: dm in ds ==> dm.day < |inp.days|
    ensures forall k :: k in m ==> m[k] > 0
  {
    if ds == [] then map[]
    else
      var dm := ds[|ds| - 1];
      var m := Violations(inp, ds[..|ds| - 1], unmet);
      var v := unmet(dm.day, dm.shift, dm.role);
      if v > 0 then m[ViolationKey(inp, dm) := v] else m
  }
}
