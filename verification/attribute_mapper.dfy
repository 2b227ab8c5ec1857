/** The attribute mapping editor of the directory synchronisation settings:
    an ordered list of pairs from a directory attribute to a system field,
    which can be extended by an empty pair, shortened by removing one
    position, and edited one field of one pair at a time. */
module AttributeMapper {

  datatype Mapping = Mapping(azure: string, system: string)

  /** `keyof Mapping`. */
  datatype Field = Azure | System

  function Get(m: Mapping, field: Field): string {
    match field
    case Azure => m.azure
    case System => m.system
  }

  function Other(field: Field): Field {
    match field
    case Azure => System
    case System => Azure
  }

  /** The pairs the editor starts with. */
  function InitialMappings(): (ms: seq<Mapping>)
    ensures |ms| == 4
  {
    [ Mapping("userPrincipalName", "email"),
      Mapping("givenName", "firstName"),
      Mapping("surname", "lastName"),
      Mapping("department", "departmentName") ]
  }

  const EmptyMapping: Mapping := Mapping("", "")

  /** `mappings.filter((_, i) => i !== index)`, by position from the end. */
  function WithoutIndex(ms: seq<Mapping>, index: int): (r: seq<Mapping>)
    ensures |r| == if 0 <= index < |ms| then |ms| - 1 else |ms|
  {
    if ms == [] then []
    else WithoutIndex(ms[..|ms| - 1], index) + (if |ms| - 1 == index then [] else [ms[|ms| - 1]])
  }

  /** The list with `field` of pair `index` set to `value`. */
  function WithField(ms: seq<Mapping>, index: nat, field: Field, value: string): (r: seq<Mapping>)
    requires index < |ms|
    ensures |r| == |ms|
    ensures Get(r[index], field) == value
    ensures Get(r[index], Other(field)) == Get(ms[index], Other(field))
    ensures forall j :: 0 <= j < |ms| && j != index ==> r[j] == ms[j]
  {
    var m := ms[index];
    ms[index := match field case Azure => m.(azure := value) case System => m.(system := value)]
  }

  class AttributeMapperState {
    var mappings: seq<Mapping>

    constructor()
      ensures mappings == InitialMappings()
    {
      mappings := InitialMappings();
    }

    /** `handleMappingChange(index, field, value)`; the index is one of a
        rendered row, so it is in range. */
    method HandleMappingChange(index: nat, field: Field, value: string)
      requires index < |mappings|
      modifies this
      ensures mappings == WithField(old(mappings), index, field, value)
    {
      var newMappings := mappings;
      var m := newMappings[index];
      match field {
        case Azure => m := m.(azure := value);
        case System => m := m.(system := value);
      }
      newMappings := newMappings[index := m];
      mappings := newMappings;
    }

    /** `addMapping`: an empty pair at the end. */
    method AddMapping()
      modifies this
      ensures mappings == old(mappings) + [EmptyMapping]
    {
      mappings := mappings + [EmptyMapping];
    }

    /** `removeMapping(index)`. */
    method RemoveMapping(index: int)
      modifies this
      ensures mappings == WithoutIndex(old(mappings), index)
    {
      mappings := WithoutIndex(mappings, index);
    }
  }

  // ------------------------------------------------------------ properties

  /** Removing a position in range drops exactly that pair and keeps the
      others in order; any other index leaves the list as it is. */
  lemma {:induction false} WithoutIndexSplices(ms: seq<Mapping>, index: int)
    ensures WithoutIndex(ms, index) == if 0 <= index < |ms| then ms[..index] + ms[index + 1..] else ms
  {
    if ms != [] {
      var init := ms[..|ms| - 1];
      WithoutIndexSplices(init, index);
      if 0 <= index < |ms| - 1 {
        assert init[..index] == ms[..index];
        assert init[index + 1..] + [ms[|ms| - 1]] == ms[index + 1..];
      } else if index == |ms| - 1 {
        assert ms[index + 1..] == [];
      } else {
        assert init + [ms[|ms| - 1]] == ms;
      }
    }
  }

  /** Adding a pair and then removing the last position restores the list. */
  lemma AddThenRemoveRestores(ms: seq<Mapping>)
    ensures WithoutIndex(ms + [EmptyMapping], |ms|) == ms
  {
    WithoutIndexSplices(ms + [EmptyMapping], |ms|);
    assert (ms + [EmptyMapping])[..|ms|] == ms;
  }

  /** Setting a field to the value it has changes nothing, and setting it
      twice keeps the last value. */
  lemma WithFieldLaws(ms: seq<Mapping>, index: nat, field: Field, v: string, w: string)
    requires index < |ms|
    ensures WithField(ms, index, field, Get(ms[index], field)) == ms
    ensures WithField(WithField(ms, index, field, v), index, field, w) == WithField(ms, index, field, w)
  {
  }

  /** Every initial pair names both an attribute and a field. */
  lemma InitialPairsAreFilled()
    ensures forall m :: m in InitialMappings() ==> m.azure != "" && m.system != ""
  {
  }
}
