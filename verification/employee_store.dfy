/** The employee store: the loaded employees, a search term and a
    department filter, the filtered view, and the local replacement of an
    employee after a successful update. */
module EmployeeStore {
  import opened Base
  import opened Text
  import opened Lists

  /** The columns of an employee the store reads; `departmentName` is the
      joined `department.name`. */
  datatype Employee = Employee(id: string, firstName: string, lastName: string, email: string,
                               position: string, departmentName: string)

  /** The name the search sees: first name, a space, last name. */
  function FullName(e: Employee): string {
    e.firstName + " " + e.lastName
  }

  /** The search term occurs, ignoring case, in the full name, the e-mail
      address or the position. The empty term finds everyone, and so does
      an employee's own e-mail address in any case. */
  function MatchesSearch(e: Employee, term: string): (found: bool)
    ensures term == "" ==> found
    ensures ToLower(term) == ToLower(e.email) ==> found
  {
    EmptyTermMatches(FullName(e));
    assert OccursAt(ToLower(e.email), ToLower(e.email), 0);
    MatchesIgnoringCase(FullName(e), term) || MatchesIgnoringCase(e.email, term)
    || MatchesIgnoringCase(e.position, term)
  }

  /** The test `getFilteredEmployees` applies to one employee: with no term
      and the department at 'all' everyone shows, and a department filter
      other than 'all' shows only that department. */
  function Shown(e: Employee, term: string, departmentFilter: string): (shown: bool)
    ensures term == "" && departmentFilter == "all" ==> shown
    ensures shown && departmentFilter != "all" ==> e.departmentName == departmentFilter
    ensures shown ==> MatchesSearch(e, term)
  {
    MatchesSearch(e, term) && (departmentFilter == "all" || e.departmentName == departmentFilter)
  }

  /** `getFilteredEmployees`: the employees shown, in their stored order. */
  function FilteredEmployees(employees: seq<Employee>, term: string, departmentFilter: string)
    : (shown: seq<Employee>)
    ensures IsSubsequence(shown, employees)
    ensures forall e :: e in shown <==> e in employees && Shown(e, term, departmentFilter)
  {
    Filter((e: Employee) => Shown(e, term, departmentFilter), employees)
  }

  /** With no search term and the department at 'all', everyone shows. */
  lemma NoFilterShowsAll(employees: seq<Employee>)
    ensures FilteredEmployees(employees, "", "all") == employees
  {
    FilterKeepsAll((e: Employee) => Shown(e, "", "all"), employees);
  }

  /** Because first and last name are searched joined by a space, a term
      that spans the space finds the employee. */
  lemma SearchSpansTheSpace(e: Employee)
    requires e.firstName == "Ann" && e.lastName == "Lee"
    ensures MatchesSearch(e, "n l")
  {
    assert FullName(e) == "Ann Lee";
    assert ToLower("Ann Lee") == "ann lee";
    assert ToLower("n l") == "n l";
    assert OccursAt("ann lee", "n l", 2);
  }

  /** A term found, ignoring case, in the full name, in the first name alone
      or in the last name alone is found by the search. */
  lemma NamePartsAreSearched(e: Employee, term: string)
    ensures MatchesIgnoringCase(FullName(e), term) ==> MatchesSearch(e, term)
    ensures MatchesIgnoringCase(e.firstName, term) ==> MatchesSearch(e, term)
    ensures MatchesIgnoringCase(e.lastName, term) ==> MatchesSearch(e, term)
  {
    var first, last := ToLower(e.firstName), ToLower(e.lastName);
    assert ToLower(FullName(e)) == first + (" " + last);
    IncludesInConcat(first, " " + last, ToLower(term));
    IncludesInConcat(" ", last, ToLower(term));
  }

  /** `employees.map(emp => emp.id === id ? updated : emp)`: every entry
      with the id is replaced by the updated record, and every other entry
      stays where it was. */
  function ReplaceById(employees: seq<Employee>, id: string, updated: Employee): (r: seq<Employee>)
    ensures |r| == |employees|
    ensures forall i :: 0 <= i < |employees| && employees[i].id == id ==> r[i] == updated
    ensures forall i :: 0 <= i < |employees| && employees[i].id != id ==> r[i] == employees[i]
  {
    if employees == [] then []
    else [if employees[0].id == id then updated else employees[0]] + ReplaceById(employees[1..], id, updated)
  }

  /** Applying the same update twice is applying it once, when the updated
      record keeps its id. */
  lemma ReplaceByIdIdempotent(employees: seq<Employee>, id: string, updated: Employee)
    requires updated.id == id
    ensures ReplaceById(ReplaceById(employees, id, updated), id, updated) == ReplaceById(employees, id, updated)
  {
    var once := ReplaceById(employees, id, updated);
    var twice := ReplaceById(once, id, updated);
    assert forall i :: 0 <= i < |employees| ==> twice[i] == once[i];
  }

  class EmployeeStoreState {
    var employees: seq<Employee>
    var isLoading: bool
    var error: Option<string>
    var searchTerm: string
    var departmentFilter: string

    constructor()
      ensures employees == [] && !isLoading && error == None
      ensures searchTerm == "" && departmentFilter == "all"
    {
      employees := [];
      isLoading := false;
      error := None;
      searchTerm := "";
      departmentFilter := "all";
    }

    method SetSearchTerm(term: string)
      modifies this
      ensures searchTerm == term
      ensures employees == old(employees) && isLoading == old(isLoading) && error == old(error)
      ensures departmentFilter == old(departmentFilter)
    {
      searchTerm := term;
    }

    method SetDepartmentFilter(department: string)
      modifies this
      ensures departmentFilter == department
      ensures employees == old(employees) && isLoading == old(isLoading) && error == old(error)
      ensures searchTerm == old(searchTerm)
    {
      departmentFilter := department;
    }

    /** `updateEmployee` given what the update call returned: the stored
        list is updated locally, or, when the call rejected, nothing changes
        and the error is rethrown with the rejection's message. */
    method UpdateEmployee(id: string, response: Call<Employee>) returns (thrown: Option<string>)
      modifies this
      ensures response.Returned? ==> thrown == None && employees == ReplaceById(old(employees), id, response.value)
      ensures response.Threw? ==> thrown == Some(MessageOr(response.error, "Failed to update employee"))
                                  && employees == old(employees)
      ensures isLoading == old(isLoading) && error == old(error)
      ensures searchTerm == old(searchTerm) && departmentFilter == old(departmentFilter)
    {
      if response.Threw? {
        return Some(MessageOr(response.error, "Failed to update employee"));
      }
      var updated := response.value;
      var current := employees;
      var next := [];
      for i := 0 to |current|
        modifies {}
        invariant next == ReplaceById(current[..i], id, updated)
      {
        ReplaceByIdSnoc(current[..i], current[i], id, updated);
        assert current[..i + 1] == current[..i] + [current[i]];
        next := next + [if current[i].id == id then updated else current[i]];
      }
      assert current[..|current|] == current;
      employees := next;
      thrown := None;
    }

    /** `getFilteredEmployees` on the current state. */
    function GetFilteredEmployees(): (shown: seq<Employee>)
      reads this
      ensures IsSubsequence(shown, employees)
      ensures forall e :: e in shown <==> e in employees && Shown(e, searchTerm, departmentFilter)
    {
      FilteredEmployees(employees, searchTerm, departmentFilter)
    }
  }

  /** Replacing over a list with one more entry at the end. */
  lemma {:induction false} ReplaceByIdSnoc(employees: seq<Employee>, last: Employee, id: string, updated: Employee)
    ensures ReplaceById(employees + [last], id, updated)
         == ReplaceById(employees, id, updated) + [if last.id == id then updated else last]
  {
    if employees != [] {
      assert (employees + [last])[1..] == employees[1..] + [last];
      ReplaceByIdSnoc(employees[1..], last, id, updated);
    }
  }
}
