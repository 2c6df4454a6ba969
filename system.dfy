/** The system registry of src/a2x_pack_ecs_system.c: a table of systems, each with a
    handler, an optional sort order, the list of entities it runs on and the set of
    components an entity needs to join it. Running a system needs the entity
    scheduler and is modelled in module Ecs. */
module System {
  import opened Wrappers
  import Bitfield
  import Component

  type EntityId = nat

  /** An `ASystemSort` comparator. */
  type Comparator = (EntityId, EntityId) -> int

  /** `ASystem`. `entities == None` is the NULL list of a slot not yet declared. */
  datatype System = System(
    handler: Option<Handle>,
    compare: Option<Comparator>,
    entities: Option<seq<EntityId>>,
    componentBits: seq<bv64>,
    onlyActiveEntities: bool)

  /** A slot as `a_system__init` leaves it. `a_mem_malloc` leaves the other fields
      unset; the model gives them empty values. */
  const Undeclared := System(None, None, None, [], false)

  predicate Declared(s: System)
  {
    s.entities.Some?
  }

  /** `g_systemsTable` and `a_system__tableLen`; the table is `null` until
      `a_system__init` runs. */
  class SystemTable {
    var slots: array?<System>
    var tableLen: nat

    ghost predicate Valid()
      reads this
    {
      slots != null ==> tableLen == slots.Length
    }

    constructor ()
      ensures Valid() && slots == null && tableLen == 0
    {
      slots := null;
      tableLen := 0;
    }

    /** `a_system__init(NumSystems)`: a fresh table whose every slot is undeclared. */
    method Init(numSystems: nat)
      modifies this
      ensures Valid() && slots != null && fresh(slots) && tableLen == numSystems
      ensures forall i :: 0 <= i < slots.Length ==> !Declared(slots[i])
      ensures forall components: Component.ComponentTable :: Sized(components)
    {
      tableLen := numSystems;
      var table := new System[numSystems](_ => System(None, None, Some([]), [], false));
      var n := numSystems;
      while n > 0
        invariant 0 <= n <= numSystems
        invariant forall i :: n <= i < numSystems ==> !Declared(table[i])
        modifies table
      {
        n := n - 1;
        table[n] := table[n].(entities := None);
      }
      slots := table;
    }

    /** `a_system__get` with the debug-build checks: the table must exist, the index
        be in range and the slot declared. */
    method Get(index: int) returns (s: System)
      requires Valid() && slots != null
      requires 0 <= index < tableLen && Declared(slots[index])
      ensures s == slots[index] && Declared(s)
    {
      s := slots[index];
    }

    /** Every declared system's requirement set is as wide as the component table:
        `a_system_new` sizes it by `a_component__tableLen`, and nothing resizes it. */
    ghost predicate Sized(components: Component.ComponentTable)
      reads this, slots, components
    {
      slots != null ==>
        forall i :: 0 <= i < slots.Length && Declared(slots[i]) ==>
          |slots[i].componentBits| == Bitfield.ChunkCount(components.tableLen)
    }

    /** `a_system_new`: fatal before init or for a declared slot; otherwise stores the
        handler, comparator and flag, an empty entity list, and a bit set as wide as
        the component table (`a_bitfield_new(a_component__tableLen)`, which is fatal
        when no component table has been made). */
    method New(index: int, handler: Handle, compare: Option<Comparator>, onlyActiveEntities: bool,
               components: Component.ComponentTable)
      requires Valid() && slots != null
      requires 0 <= index < slots.Length && !Declared(slots[index])
      requires 1 <= components.tableLen <= Bitfield.UINT_MAX
      modifies slots
      ensures slots[index] == System(Some(handler), compare, Some([]),
                                     Bitfield.Zero(Bitfield.ChunkCount(components.tableLen)), onlyActiveEntities)
      ensures forall i :: 0 <= i < slots.Length && i != index ==> slots[i] == old(slots[i])
      ensures Declared(slots[index]) && slots[index].entities == Some([])
      ensures forall c: nat :: c < Bitfield.BITS_PER_CHUNK * |slots[index].componentBits| ==>
                !Bitfield.IsSet(slots[index].componentBits, c)
      ensures old(Sized(components)) ==> Sized(components)
    {
      var bits := Bitfield.Zero(Bitfield.ChunkCount(components.tableLen));
      slots[index] := System(Some(handler), compare, Some([]), bits, onlyActiveEntities);
    }

    /** `a_system_add`: both the system and the component must be declared; the
        component's bit is set in the system's requirements and nothing else changes. */
    method Add(system: int, component: int, components: Component.ComponentTable)
      requires Valid() && slots != null
      requires 0 <= system < tableLen && Declared(slots[system])
      requires components.Valid() && components.table != null
      requires 0 <= component < components.tableLen && Component.Declared(components.table[component])
      requires Sized(components)
      modifies slots
      ensures slots[system] == old(slots[system]).(componentBits := Bitfield.WithBit(old(slots[system]).componentBits, component))
      ensures forall i :: 0 <= i < slots.Length && i != system ==> slots[i] == old(slots[i])
      ensures Bitfield.IsSet(slots[system].componentBits, component)
      ensures forall c: nat :: c < Bitfield.BITS_PER_CHUNK * |slots[system].componentBits| && c != component ==>
                (Bitfield.IsSet(slots[system].componentBits, c) <==> Bitfield.IsSet(old(slots[system]).componentBits, c))
      ensures Sized(components)
    {
      var s := Get(system);
      var c := components.Get(component);
      slots[system] := s.(componentBits := Bitfield.WithBit(s.componentBits, c.bit));
    }
  }
}
