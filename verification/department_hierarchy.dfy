/** The tree-building part of `getHierarchy`: departments are indexed by id
    (a later department with the same id replaces an earlier one), then each
    hierarchy row in turn either makes a department a root or appends a
    child to its parent's children. Nodes are shared, so the tree is
    described by the root ids and, for every known id, its child ids. */
module DepartmentHierarchy {
  import opened Lists

  type Id = string

  /** A row of `department_hierarchy`. */
  datatype HierarchyRow = HierarchyRow(parentId: Id, childId: Id, level: int)

  /** The columns of a department that a node carries. */
  datatype Department = Department(id: Id, name: string)

  /** The built tree: root ids in order, and each known id's child ids. */
  datatype Hierarchy = Hierarchy(roots: seq<Id>, children: map<Id, seq<Id>>)

  /** `new Map(departments.map(d => [d.id, ...]))`. */
  function DepartmentMap(departments: seq<Department>): (m: map<Id, Department>)
    ensures forall id :: id in m <==> exists d :: d in departments && d.id == id
    ensures forall id :: id in m ==> m[id] in departments && m[id].id == id
  {
    if departments == [] then map[]
    else
      var last := departments[|departments| - 1];
      var init := departments[..|departments| - 1];
      assert forall d :: d in init ==> d in departments;
      assert departments == init + [last];
      DepartmentMap(init)[last.id := last]
  }

  /** The tree before any row: every known department without children. */
  function Initial(known: set<Id>): Hierarchy {
    Hierarchy([], map id | id in known :: [])
  }

  /** What one row does: a level-0 self row of a known department appends
      it to the roots, a row linking two distinct known departments appends
      the child to its parent's list, and no row changes both the roots and
      the children, or the children of any other department. */
  function Step(h: Hierarchy, row: HierarchyRow, known: set<Id>): (r: Hierarchy)
    requires h.children.Keys == known
    ensures r.children.Keys == known
    ensures r.roots == h.roots || r.children == h.children
    ensures r.roots != h.roots ==> IsRootRow(row) && row.childId in known && r.roots == h.roots + [row.childId]
    ensures IsRootRow(row) && row.childId in known ==> r.roots == h.roots + [row.childId]
    ensures forall q :: q in known && q != row.parentId ==> r.children[q] == h.children[q]
    ensures row.parentId in known ==>
              if row.parentId != row.childId && row.childId in known
              then r.children[row.parentId] == h.children[row.parentId] + [row.childId]
              else r.children[row.parentId] == h.children[row.parentId]
  {
    if row.parentId == row.childId then
      if row.level == 0 && row.childId in known then h.(roots := h.roots + [row.childId]) else h
    else if row.parentId in known && row.childId in known then
      h.(children := h.children[row.parentId := h.children[row.parentId] + [row.childId]])
    else h
  }

  /** The tree after the given rows, applied in order: every known id and
      no other has a list of children, and the roots are known ids, at
      most one per row. */
  function Build(rows: seq<HierarchyRow>, known: set<Id>): (h: Hierarchy)
    ensures h.children.Keys == known
    ensures |h.roots| <= |rows|
    ensures forall id :: id in h.roots ==> id in known
  {
    if rows == [] then Initial(known)
    else Step(Build(rows[..|rows| - 1], known), rows[|rows| - 1], known)
  }

  /** `getHierarchy` after both fetches: the node of every known id, and the
      tree the rows describe. */
  method GetHierarchy(rows: seq<HierarchyRow>, departments: seq<Department>)
    returns (nodes: map<Id, Department>, roots: seq<Id>, children: map<Id, seq<Id>>)
    ensures nodes == DepartmentMap(departments)
    ensures Hierarchy(roots, children) == Build(rows, nodes.Keys)
  {
    nodes := map[];
    for i := 0 to |departments|
      invariant nodes == DepartmentMap(departments[..i])
    {
      assert departments[..i + 1][..i] == departments[..i];
      nodes := nodes[departments[i].id := departments[i]];
    }
    assert departments[..|departments|] == departments;
    var known := nodes.Keys;
    roots := [];
    children := map id | id in known :: [];
    for i := 0 to |rows|
      invariant Hierarchy(roots, children) == Build(rows[..i], known)
    {
      assert rows[..i + 1][..i] == rows[..i];
      var h := rows[i];
      if h.parentId == h.childId {
        if h.level == 0 {
          if h.childId in nodes {
            roots := roots + [h.childId];
          }
        }
      } else {
        if h.parentId in nodes && h.childId in nodes {
          children := children[h.parentId := children[h.parentId] + [h.childId]];
        }
      }
    }
    assert rows[..|rows|] == rows;
  }

  // ------------------------------------------------------------ properties

  /** A level-0 row naming one department as its own parent. */
  predicate IsRootRow(row: HierarchyRow) {
    row.parentId == row.childId && row.level == 0
  }

  function RootRowCount(rows: seq<HierarchyRow>): nat {
    if rows == [] then 0
    else RootRowCount(rows[..|rows| - 1]) + (if IsRootRow(rows[|rows| - 1]) then 1 else 0)
  }

  /** The child ids of the rows, in row order. */
  function ChildIds(rows: seq<HierarchyRow>): (ids: seq<Id>)
    ensures |ids| == |rows|
    ensures forall i :: 0 <= i < |rows| ==> ids[i] == rows[i].childId
  {
    if rows == [] then [] else ChildIds(rows[..|rows| - 1]) + [rows[|rows| - 1].childId]
  }

  /** Every root comes from a level-0 self row of a known department, there
      are at most as many roots as such rows, and roots follow row order. */
  lemma {:induction false} RootsFacts(rows: seq<HierarchyRow>, known: set<Id>)
    ensures var roots := Build(rows, known).roots;
      && (forall r :: r in roots ==> r in known && exists i :: 0 <= i < |rows| && IsRootRow(rows[i]) && rows[i].childId == r)
      && |roots| <= RootRowCount(rows)
      && IsSubsequence(roots, ChildIds(rows))
  {
    if rows != [] {
      var init := rows[..|rows| - 1];
      var row := rows[|rows| - 1];
      RootsFacts(init, known);
      var before := Build(init, known).roots;
      assert forall i :: 0 <= i < |init| ==> init[i] == rows[i];
      assert ChildIds(rows) == ChildIds(init) + [row.childId];
      if IsRootRow(row) && row.childId in known {
        SubsequenceAppend(before, ChildIds(init), row.childId);
      } else {
        SubsequenceExtend(before, ChildIds(init), row.childId);
      }
    }
  }

  /** A child id is listed under a parent only for a row linking the two
      distinct, known departments; each such row lists it once more, in
      row order. */
  lemma {:induction false} ChildrenFacts(rows: seq<HierarchyRow>, known: set<Id>, p: Id)
    requires p in known
    ensures var kids := Build(rows, known).children[p];
      && (forall c :: c in kids ==>
            c in known && c != p && exists i :: 0 <= i < |rows| && rows[i].parentId == p && rows[i].childId == c)
      && IsSubsequence(kids, ChildIds(rows))
  {
    if rows != [] {
      var init := rows[..|rows| - 1];
      var row := rows[|rows| - 1];
      ChildrenFacts(init, known, p);
      var before := Build(init, known).children[p];
      assert forall i :: 0 <= i < |init| ==> init[i] == rows[i];
      assert ChildIds(rows) == ChildIds(init) + [row.childId];
      if row.parentId != row.childId && row.parentId == p && row.childId in known {
        SubsequenceAppend(before, ChildIds(init), row.childId);
      } else {
        SubsequenceExtend(before, ChildIds(init), row.childId);
      }
    }
  }

  /** A self row above level 0, and a row naming an unknown department,
      leave the tree as it was. */
  lemma IgnoredRows(rows: seq<HierarchyRow>, row: HierarchyRow, known: set<Id>)
    requires (row.parentId == row.childId && row.level != 0)
          || row.parentId !in known || row.childId !in known
    ensures Build(rows + [row], known) == Build(rows, known)
  {
    assert (rows + [row])[..|rows|] == rows;
  }

  /** A row linking two distinct known departments appends the child to
      the parent's list and changes nothing else. */
  lemma LinkRowAppends(rows: seq<HierarchyRow>, row: HierarchyRow, known: set<Id>)
    requires row.parentId != row.childId && row.parentId in known && row.childId in known
    ensures var before, after := Build(rows, known), Build(rows + [row], known);
      && after.roots == before.roots
      && after.children[row.parentId] == before.children[row.parentId] + [row.childId]
      && forall q :: q in known && q != row.parentId ==> after.children[q] == before.children[q]
  {
    assert (rows + [row])[..|rows|] == rows;
  }
}
