/** The component registry of src/a2x_pack_ecs_component.c: a table of component kinds
    indexed by number, and a map from each kind's string id to its slot. */
module Component {
  import opened Wrappers

  const UINT_MAX: nat := 0xFFFF_FFFF

  /** `AComponent`. Callbacks are opaque handles; `None` is a NULL pointer. */
  datatype Component = Component(
    size: nat,
    init: Option<Handle>,
    free: Option<Handle>,
    stringId: string,
    bit: nat,
    initWithData: Option<Handle>,
    dataSize: nat,
    dataInit: Option<Handle>,
    dataFree: Option<Handle>)

  /** A zeroed slot as `a_component__init` leaves it: the id "???" and the bit
      `UINT_MAX` mark it undeclared. */
  const Undeclared := Component(0, None, None, "???", UINT_MAX, None, 0, None, None)

  /** A slot straight from `a_mem_zalloc`. */
  const Zeroed := Component(0, None, None, "", 0, None, 0, None, None)

  predicate Declared(c: Component)
  {
    c.bit != UINT_MAX
  }

  /** `g_componentsTable`, `a_component__tableLen` and the `g_components` string map,
      which here maps each registered id to the index of its slot. The table is `null`
      until `a_component__init` runs. The size of the per-instance header
      (`sizeof(AComponentInstance)`) is a parameter of the model. */
  class ComponentTable {
    const headerSize: nat
    var table: array?<Component>
    var tableLen: nat
    var ids: map<string, nat>

    /** Every registered id names a declared slot holding that id, and every declared
        slot is registered under its id and carries its own index as its bit. */
    ghost predicate Valid()
      reads this, table
    {
      && (table == null ==> ids == map[])
      && (table != null ==>
            && tableLen == table.Length <= UINT_MAX
            && (forall id :: id in ids ==>
                  ids[id] < table.Length && table[ids[id]].bit == ids[id] && table[ids[id]].stringId == id)
            && (forall i :: 0 <= i < table.Length && Declared(table[i]) ==>
                  table[i].bit == i && table[i].stringId in ids && ids[table[i].stringId] == i))
    }

    /** Before `a_component__init` there is no table and no id is registered. */
    constructor (headerSize: nat)
      ensures Valid() && table == null && ids == map[] && this.headerSize == headerSize
    {
      this.headerSize := headerSize;
      table := null;
      tableLen := 0;
      ids := map[];
    }

    /** `a_component__init(NumComponents)`: a fresh table of `numComponents`
        undeclared slots and an empty id map. */
    method Init(numComponents: nat)
      requires numComponents <= UINT_MAX
      modifies this
      ensures Valid() && table != null && fresh(table)
      ensures tableLen == numComponents && ids == map[]
      ensures forall i :: 0 <= i < table.Length ==> table[i] == Undeclared
    {
      ids := map[];
      tableLen := numComponents;
      var zeroed := new Component[numComponents](_ => Zeroed);
      var n := numComponents;
      while n > 0
        invariant 0 <= n <= numComponents
        invariant forall i :: n <= i < numComponents ==> zeroed[i] == Undeclared
        invariant forall i :: 0 <= i < n ==> zeroed[i] == Zeroed
        modifies zeroed
      {
        n := n - 1;
        zeroed[n] := zeroed[n].(stringId := "???", bit := UINT_MAX);
      }
      table := zeroed;
    }

    /** The index `a_component__stringToIndex` reports for `id`. */
    function IndexOf(id: string): int
      reads this
    {
      if id in ids then ids[id] else -1
    }

    /** `a_component__stringToIndex`: the registered slot's bit, or -1. */
    method StringToIndex(id: string) returns (r: int)
      requires Valid() && table != null
      ensures r == IndexOf(id)
      ensures r == -1 <==> id !in ids
      ensures r != -1 ==> 0 <= r < table.Length && Declared(table[r]) && table[r].stringId == id
    {
      if id in ids {
        r := table[ids[id]].bit;
      } else {
        r := -1;
      }
    }

    /** `a_component__get` with the debug-build checks: the table must exist, the
        index must be in range and the slot declared. */
    method Get(index: int) returns (c: Component)
      requires Valid() && table != null
      requires 0 <= index < tableLen && Declared(table[index])
      ensures c == table[index]
      ensures c.bit == index && IndexOf(c.stringId) == index
    {
      c := table[index];
    }

    /** `a_component_new`: fatal before init, for a declared slot or for a registered
        id; otherwise fills the slot and registers its id. */
    method New(index: int, stringId: string, size: nat, init: Option<Handle>, free: Option<Handle>)
      requires Valid() && table != null
      requires 0 <= index < table.Length
      requires !Declared(table[index]) && stringId !in ids
      modifies this, table
      ensures Valid() && table == old(table) && tableLen == old(tableLen)
      ensures table[index] == old(table[index]).(size := headerSize + size, init := init, free := free,
                                                 stringId := stringId, bit := index)
      ensures forall i :: 0 <= i < table.Length && i != index ==> table[i] == old(table[i])
      ensures ids == old(ids)[stringId := index]
      ensures IndexOf(stringId) == index && Declared(table[index])
    {
      var c := table[index];
      table[index] := c.(size := headerSize + size, init := init, free := free,
                         stringId := stringId, bit := index);
      ids := ids[stringId := index];
    }

    /** `a_component_newEx`: `a_component_new` with no plain constructor, then the
        data-driven constructor and template data callbacks. */
    method NewEx(index: int, stringId: string, size: nat, initWithData: Option<Handle>,
                 free: Option<Handle>, dataSize: nat, dataInit: Option<Handle>,
                 dataFree: Option<Handle>)
      requires Valid() && table != null
      requires 0 <= index < table.Length
      requires !Declared(table[index]) && stringId !in ids
      modifies this, table
      ensures Valid() && table == old(table) && tableLen == old(tableLen)
      ensures table[index] == old(table[index]).(size := headerSize + size, init := None, free := free,
                                                 stringId := stringId, bit := index,
                                                 initWithData := initWithData, dataSize := dataSize,
                                                 dataInit := dataInit, dataFree := dataFree)
      ensures forall i :: 0 <= i < table.Length && i != index ==> table[i] == old(table[i])
      ensures ids == old(ids)[stringId := index]
    {
      New(index, stringId, size, None, free);
      var c := table[index];
      table[index] := c.(initWithData := initWithData, dataSize := dataSize,
                         dataInit := dataInit, dataFree := dataFree);
    }
  }
}
