/** The department store's view of the active departments: the stored list
    filtered to status 'active' and sorted by name on a fresh array, so the
    stored list itself is left as it is. `localeCompare` is an ordering on
    names given as a parameter. */
module DepartmentStore {
  import opened Lists

  datatype DepartmentStatus = Active | Inactive

  /** The columns of a department the view reads. */
  datatype Department = Department(id: string, name: string, status: DepartmentStatus)

  /** `le(a, b)` means `a.localeCompare(b) <= 0`: a total preorder. */
  ghost predicate TotalPreorder(le: (string, string) -> bool) {
    && (forall a, b :: le(a, b) || le(b, a))
    && (forall a, b, c :: le(a, b) && le(b, c) ==> le(a, c))
  }

  predicate SortedByName(ds: seq<Department>, le: (string, string) -> bool) {
    forall i, j :: 0 <= i < j < |ds| ==> le(ds[i].name, ds[j].name)
  }

  /** `d` placed before the first department it does not follow. */
  function Insert(d: Department, sorted: seq<Department>, le: (string, string) -> bool): (r: seq<Department>)
    requires TotalPreorder(le)
    requires SortedByName(sorted, le)
    ensures multiset(r) == multiset(sorted) + multiset{d}
    ensures forall x :: x in r ==> x == d || x in sorted
    ensures SortedByName(r, le)
  {
    if sorted == [] then [d]
    else if le(d.name, sorted[0].name) then
      HeadPrecedesRest(sorted, le);
      assert forall y :: y in sorted ==> le(d.name, y.name);
      SortedCons(d, sorted, le);
      [d] + sorted
    else
      var rest := Insert(d, sorted[1..], le);
      HeadPrecedesRest(sorted, le);
      assert le(sorted[0].name, d.name);
      assert sorted == [sorted[0]] + sorted[1..];
      SortedCons(sorted[0], rest, le);
      [sorted[0]] + rest
  }

  /** In a sorted list the first department precedes every one after it. */
  lemma HeadPrecedesRest(sorted: seq<Department>, le: (string, string) -> bool)
    requires sorted != [] && SortedByName(sorted, le)
    ensures forall y :: y in sorted[1..] ==> le(sorted[0].name, y.name)
  {
    forall y | y in sorted[1..] ensures le(sorted[0].name, y.name) {
      var k :| 0 <= k < |sorted[1..]| && sorted[1..][k] == y;
      assert sorted[k + 1] == y;
    }
  }

  /** A department preceding every department of a sorted list can head it. */
  lemma SortedCons(x: Department, rest: seq<Department>, le: (string, string) -> bool)
    requires SortedByName(rest, le)
    requires forall y :: y in rest ==> le(x.name, y.name)
    ensures SortedByName([x] + rest, le)
  {
    var r := [x] + rest;
    forall i, j | 0 <= i < j < |r| ensures le(r[i].name, r[j].name) {
      assert r[j] == rest[j - 1];
      if i > 0 {
        assert r[i] == rest[i - 1];
      }
    }
  }

  /** The departments ordered by name (an insertion sort). */
  function SortByName(ds: seq<Department>, le: (string, string) -> bool): (r: seq<Department>)
    requires TotalPreorder(le)
    ensures multiset(r) == multiset(ds)
    ensures SortedByName(r, le)
  {
    if ds == [] then []
    else
      assert ds == [ds[0]] + ds[1..];
      Insert(ds[0], SortByName(ds[1..], le), le)
  }

  /** `getActiveDepartments`: exactly the active departments, each as often
      as stored, ordered by name. */
  function ActiveDepartments(departments: seq<Department>, le: (string, string) -> bool)
    : (active: seq<Department>)
    requires TotalPreorder(le)
    ensures multiset(active) == multiset(Filter((d: Department) => d.status == Active, departments))
    ensures forall d :: d in active <==> d in departments && d.status == Active
    ensures |active| <= |departments|
    ensures SortedByName(active, le)
  {
    var kept := Filter((d: Department) => d.status == Active, departments);
    var active := SortByName(kept, le);
    assert forall d :: d in active <==> d in kept by {
      forall d ensures d in active <==> d in kept {
        assert d in active <==> multiset(active)[d] > 0;
        assert d in kept <==> multiset(kept)[d] > 0;
      }
    }
    assert |active| == |multiset(active)| == |multiset(kept)| == |kept|;
    active
  }

  /** Each active department appears as often as it is stored, and an
      inactive one never. */
  lemma ActiveCountsExact(departments: seq<Department>, le: (string, string) -> bool, d: Department)
    requires TotalPreorder(le)
    ensures multiset(ActiveDepartments(departments, le))[d]
         == if d.status == Active then multiset(departments)[d] else 0
  {
  }
}
