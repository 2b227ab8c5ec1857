/** The seat figures of a license card and what its assign and unassign
    handlers do: the number of active assignments, the seats left (which
    can go below zero), and the lookup of the assignment to release. Both
    handlers catch a failure of the store action and only log it. */
module LicenseAssignmentArea {
  import opened Base
  import opened Lists

  /** An assignment of a license to an employee; `status` is the text the
      database holds ('active' for a seat in use). */
  datatype Assignment = Assignment(id: string, employeeId: string, status: string)

  /** The license fields the card reads: `assignments` and `total_quantity`
      may both be absent. */
  datatype License = License(id: string, assignments: Option<seq<Assignment>>, totalQuantity: Option<int>)

  predicate IsActive(a: Assignment) {
    a.status == "active"
  }

  /** The number of active assignments in `s`, counted one by one: the
      length of `filter(a => a.status === 'active')`. */
  function ActiveCount(s: seq<Assignment>): (n: nat)
    ensures n <= |s|
    ensures n == |Filter(IsActive, s)|
  {
    if s == [] then 0
    else
      assert Filter(IsActive, s) == (if IsActive(s[0]) then [s[0]] else []) + Filter(IsActive, s[1..]);
      (if IsActive(s[0]) then 1 else 0) + ActiveCount(s[1..])
  }

  /** `assignedCount`: the number of active assignments, or 0 without
      assignments. */
  function AssignedCount(l: License): (n: nat)
    ensures l.assignments.None? ==> n == 0
    ensures l.assignments.Some? ==> n == |Filter(IsActive, l.assignments.value)| <= |l.assignments.value|
  {
    if l.assignments.Some? then ActiveCount(l.assignments.value) else 0
  }

  /** `availableCount`: the seats, 0 when unknown, less the assigned ones.
      The seats in use and the seats left add up to the seats of the
      license, and the figure goes below zero when more are in use. */
  function AvailableCount(l: License): (available: int)
    ensures AssignedCount(l) + available == l.totalQuantity.GetOr(0)
    ensures available < 0 <==> AssignedCount(l) > l.totalQuantity.GetOr(0)
  {
    l.totalQuantity.GetOr(0) - AssignedCount(l)
  }

  /** The first assignment of `s` held by the employee, whatever its status. */
  function FindAssignment(s: seq<Assignment>, employeeId: string): (r: Option<Assignment>)
    ensures r.None? <==> forall i :: 0 <= i < |s| ==> s[i].employeeId != employeeId
    ensures r.Some? ==> exists i :: 0 <= i < |s| && s[i] == r.value && s[i].employeeId == employeeId
                                    && forall j :: 0 <= j < i ==> s[j].employeeId != employeeId
  {
    if s == [] then None
    else if s[0].employeeId == employeeId then Some(s[0])
    else
      var r := FindAssignment(s[1..], employeeId);
      assert forall i :: 0 < i < |s| ==> s[i] == s[1..][i - 1];
      if r.Some? then
        var k :| 0 <= k < |s[1..]| && s[1..][k] == r.value && s[1..][k].employeeId == employeeId
                 && forall j :: 0 <= j < k ==> s[1..][j].employeeId != employeeId;
        assert s[k + 1] == r.value;
        r
      else r
  }

  /** The store action a handler calls. */
  datatype StoreCall = AssignToEmployee(licenseId: string, employeeId: string)
                     | UnassignLicense(assignmentId: string)

  /** What a handler did: the action it called, if any, and whether it
      logged a failure of that action. A handler never fails itself. */
  datatype HandlerOutcome = HandlerOutcome(call: Option<StoreCall>, errorLogged: bool)

  /** `onAssign(employeeId)`, given what the store action did. */
  function OnAssign(l: License, employeeId: string, response: Call<()>): (r: HandlerOutcome)
    ensures r.call == Some(AssignToEmployee(l.id, employeeId))
    ensures r.errorLogged <==> response.Threw?
  {
    HandlerOutcome(Some(AssignToEmployee(l.id, employeeId)), response.Threw?)
  }

  /** `onUnassign(employeeId)`, given what the store action did when it is
      called: the store is called only for an employee holding some
      assignment, and then releases the first one the employee holds; only
      a failure of that call is logged. */
  function OnUnassign(l: License, employeeId: string, response: Call<()>): (r: HandlerOutcome)
    ensures r.call.Some? <==> l.assignments.Some? && exists i :: 0 <= i < |l.assignments.value|
                                                          && l.assignments.value[i].employeeId == employeeId
    ensures r.call.Some? ==> exists i :: 0 <= i < |l.assignments.value|
                               && r.call == Some(UnassignLicense(l.assignments.value[i].id))
                               && l.assignments.value[i].employeeId == employeeId
                               && forall j :: 0 <= j < i ==> l.assignments.value[j].employeeId != employeeId
    ensures r.errorLogged <==> r.call.Some? && response.Threw?
  {
    var found := if l.assignments.Some? then FindAssignment(l.assignments.value, employeeId) else None;
    match found
    case Some(a) => HandlerOutcome(Some(UnassignLicense(a.id)), response.Threw?)
    case None => HandlerOutcome(None, false)
  }

  // ------------------------------------------------------------ properties

  /** Only active assignments take a seat: adding an assignment in any
      other status changes neither figure. */
  lemma {:induction false} InactiveTakesNoSeat(s: seq<Assignment>, a: Assignment)
    requires !IsActive(a)
    ensures ActiveCount(s + [a]) == ActiveCount(s)
  {
    if s != [] {
      assert (s + [a])[1..] == s[1..] + [a];
      InactiveTakesNoSeat(s[1..], a);
    } else {
      assert [a][1..] == [];
    }
  }

  /** The seats left are not clamped: one seat and two active assignments
      show -1 available. */
  lemma OversubscribedIsNegative()
    ensures var l := License("l1", Some([Assignment("a1", "e1", "active"), Assignment("a2", "e2", "active")]), Some(1));
      AvailableCount(l) == -1
  {
    var s := [Assignment("a1", "e1", "active"), Assignment("a2", "e2", "active")];
    assert s[1..][1..] == [];
  }

  /** A license without assignments and without a seat count shows 0 and 0. */
  lemma AbsentFieldsCountAsZero(id: string)
    ensures AssignedCount(License(id, None, None)) == 0
    ensures AvailableCount(License(id, None, None)) == 0
  {
  }

  /** The lookup ignores the status: an employee's earlier inactive
      assignment is released rather than a later active one. */
  lemma UnassignIgnoresStatus()
    ensures var l := License("l1", Some([Assignment("a1", "e1", "revoked"), Assignment("a2", "e1", "active")]), Some(5));
      OnUnassign(l, "e1", Returned(())).call == Some(UnassignLicense("a1"))
  {
  }

  /** A failing store action is absorbed: the handlers call the same action
      whether it succeeds or fails, and only log the failure. */
  lemma FailuresAreCaught(l: License, employeeId: string, e: Thrown)
    ensures OnAssign(l, employeeId, Threw(e)).call == OnAssign(l, employeeId, Returned(())).call
    ensures OnUnassign(l, employeeId, Threw(e)).call == OnUnassign(l, employeeId, Returned(())).call
    ensures !OnAssign(l, employeeId, Returned(())).errorLogged
    ensures !OnUnassign(l, employeeId, Returned(())).errorLogged
  {
  }
}
