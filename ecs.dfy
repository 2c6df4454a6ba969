/** The entity scheduler of src/a2x_pack_ecs.c and the run loop of
    src/a2x_pack_ecs_system.c. Every entity sits in exactly one of a fixed set of
    lifecycle lists; a tick drains the muted and removed queues, matches new entities
    against the systems' component masks and puts restored entities into the systems
    they match. The pure functions below describe each step on a snapshot of the whole
    state; the `World` class performs the steps as the C code does, one entity at a time. */
module Ecs {
  import opened Wrappers
  import Bitfield
  import Sys = System

  type EntityId = Sys.EntityId

  /** `AEcsListId`. */
  datatype ListId = New | Restore | Default | MutedQueue | RemovedQueue | RemovedLimbo | RemovedFree

  /** The lists whose entities may still sit in systems: the live list and the two
      queues that a flush has not drained yet. */
  predicate Runnable(l: ListId)
  {
    l == Default || l == MutedQueue || l == RemovedQueue
  }

  /** The fields of `AEntity` this code reads or writes. `list` stands for the list
      that `Entity->node` belongs to; the matching lists hold system indices. */
  datatype Entity = Entity(
    componentBits: seq<bv64>,
    active: bool,
    activeRemoved: bool,
    references: nat,
    list: ListId,
    matchingActive: seq<nat>,
    matchingRest: seq<nat>)

  /** The systems a restored entity joins: its active-only matches unless it was flagged
      `A_ENTITY__ACTIVE_REMOVED`, and always the rest. */
  function Targets(ent: Entity): seq<nat>
  {
    (if ent.activeRemoved then [] else ent.matchingActive) + ent.matchingRest
  }

  /** The whole scheduler state: `g_lists`, the entities, and the system table. */
  datatype Snapshot = Snapshot(
    lists: map<ListId, seq<EntityId>>,
    entities: map<EntityId, Entity>,
    systems: seq<Sys.System>)

  predicate NoDup<T(==)>(s: seq<T>)
  {
    forall i, j :: 0 <= i < j < |s| ==> s[i] != s[j]
  }

  lemma NoDupAppend<T>(a: seq<T>, b: seq<T>)
    requires NoDup(a) && NoDup(b)
    requires forall x :: x in a ==> x !in b
    ensures NoDup(a + b)
  {
    forall i, j | 0 <= i < j < |a + b| ensures (a + b)[i] != (a + b)[j] {
      if j < |a| {
        assert (a + b)[i] == a[i] && (a + b)[j] == a[j];
      } else if i >= |a| {
        assert (a + b)[i] == b[i - |a|] && (a + b)[j] == b[j - |a|];
      } else {
        assert (a + b)[i] == a[i] && (a + b)[j] == b[j - |a|];
        assert a[i] in a && b[j - |a|] in b;
      }
    }
  }

  predicate Complete(lists: map<ListId, seq<EntityId>>)
  {
    forall l: ListId :: l in lists
  }

  /** Each entity is in exactly one list, once, and that list is the one it records. */
  predicate OneList(lists: map<ListId, seq<EntityId>>, entities: map<EntityId, Entity>)
  {
    Complete(lists) && ListsNoDup(lists) && ListsRecorded(lists, entities) && EntitiesListed(lists, entities)
  }

  predicate ListsNoDup(lists: map<ListId, seq<EntityId>>)
    requires Complete(lists)
  {
    forall l: ListId :: NoDup(lists[l])
  }

  /** Every listed entity exists and records the list it is in. */
  predicate ListsRecorded(lists: map<ListId, seq<EntityId>>, entities: map<EntityId, Entity>)
    requires Complete(lists)
  {
    forall l: ListId, e :: e in lists[l] ==> e in entities && entities[e].list == l
  }

  /** Every entity is in the list it records. */
  predicate EntitiesListed(lists: map<ListId, seq<EntityId>>, entities: map<EntityId, Entity>)
    requires Complete(lists)
  {
    forall e :: e in entities ==> e in lists[entities[e].list]
  }

  /** The systems an entity has matched exist, carry the right flag, are recorded
      once each, and a new entity has matched none yet. */
  predicate MatchesSane(w: Snapshot)
  {
    forall e :: e in w.entities ==> EntityMatchesSane(w.entities[e], w.systems)
  }

  predicate EntityMatchesSane(ent: Entity, systems: seq<Sys.System>)
  {
    && NoDup(ent.matchingActive + ent.matchingRest)
    && (forall id :: id in ent.matchingActive ==>
          id < |systems| && Sys.Declared(systems[id]) && systems[id].onlyActiveEntities)
    && (forall id :: id in ent.matchingRest ==>
          id < |systems| && Sys.Declared(systems[id]) && !systems[id].onlyActiveEntities)
    && (ent.list == New ==> ent.matchingActive == [] && ent.matchingRest == [])
  }

  /** A declared system holds each of its entities once, and only live entities from
      a runnable list that it is a target of. */
  predicate SystemsSane(w: Snapshot)
  {
    forall i :: 0 <= i < |w.systems| && Sys.Declared(w.systems[i]) ==> SystemSane(w, i)
  }

  predicate SystemSane(w: Snapshot, i: nat)
    requires i < |w.systems| && Sys.Declared(w.systems[i])
  {
    && NoDup(w.systems[i].entities.value)
    && (forall e :: e in w.systems[i].entities.value ==>
          e in w.entities && Runnable(w.entities[e].list) && i in Targets(w.entities[e]))
  }

  /** Two different lists share no entity. */
  lemma Disjoint(lists: map<ListId, seq<EntityId>>, entities: map<EntityId, Entity>, a: ListId, b: ListId)
    requires OneList(lists, entities) && a != b
    ensures forall x :: x in lists[a] ==> x !in lists[b]
  {
    forall x | x in lists[a] ensures x !in lists[b] {
      assert entities[x].list == a;
    }
  }

  predicate Valid(w: Snapshot)
  {
    OneList(w.lists, w.entities) && MatchesSane(w) && SystemsSane(w)
  }

  /** Shape facts the system table keeps whatever happens to its entity lists. */
  ghost predicate SameShape(a: seq<Sys.System>, b: seq<Sys.System>)
  {
    && |a| == |b|
    && (forall i :: 0 <= i < |a| ==>
          && (Sys.Declared(a[i]) <==> Sys.Declared(b[i]))
          && a[i].onlyActiveEntities == b[i].onlyActiveEntities
          && a[i].componentBits == b[i].componentBits
          && a[i].compare == b[i].compare)
  }

  lemma SameShapeTrans(a: seq<Sys.System>, b: seq<Sys.System>, c: seq<Sys.System>)
    requires SameShape(a, b) && SameShape(b, c)
    ensures SameShape(a, c)
  {
  }

  // ---------------------------------------------------------------------------
  // Taking entities out of systems

  /** `s` without the entities in `gone`, in order. */
  function Minus(s: seq<EntityId>, gone: seq<EntityId>): (r: seq<EntityId>)
    ensures forall x :: x in r <==> x in s && x !in gone
    ensures NoDup(s) ==> NoDup(r)
    ensures gone == [] ==> r == s
  {
    if s == [] then []
    else
      var rest := Minus(s[1..], gone);
      assert NoDup(s) ==> s[0] !in s[1..];
      if s[0] in gone then rest else [s[0]] + rest
  }

  /** Removing two sets of entities one after the other removes both. */
  lemma {:induction false} MinusMinus(s: seq<EntityId>, a: seq<EntityId>, b: seq<EntityId>)
    ensures Minus(Minus(s, a), b) == Minus(s, a + b)
    decreases |s|
  {
    if s != [] {
      MinusMinus(s[1..], a, b);
    }
  }

  /** A system with the entities in `gone` taken out of its list. */
  function Evict(s: Sys.System, gone: seq<EntityId>): Sys.System
  {
    if s.entities.Some? then s.(entities := Some(Minus(s.entities.value, gone))) else s
  }

  /** `a_entity__removeFromAllSystems` applied to every entity in `gone`. */
  function EvictAll(systems: seq<Sys.System>, gone: seq<EntityId>): (r: seq<Sys.System>)
    ensures SameShape(systems, r)
  {
    seq(|systems|, i requires 0 <= i < |systems| => Evict(systems[i], gone))
  }

  /** `a_entity__removeFromActiveSystems` applied to every entity in `gone`: only the
      systems that run on active entities lose them. */
  function EvictActive(systems: seq<Sys.System>, gone: seq<EntityId>): (r: seq<Sys.System>)
    ensures SameShape(systems, r)
  {
    seq(|systems|, i requires 0 <= i < |systems| =>
      if systems[i].onlyActiveEntities then Evict(systems[i], gone) else systems[i])
  }

  lemma EvictAllTwice(systems: seq<Sys.System>, a: seq<EntityId>, b: seq<EntityId>)
    ensures EvictAll(EvictAll(systems, a), b) == EvictAll(systems, a + b)
  {
    forall i | 0 <= i < |systems|
      ensures EvictAll(EvictAll(systems, a), b)[i] == EvictAll(systems, a + b)[i]
    {
      if systems[i].entities.Some? {
        MinusMinus(systems[i].entities.value, a, b);
      }
    }
  }

  lemma EvictActiveTwice(systems: seq<Sys.System>, a: seq<EntityId>, b: seq<EntityId>)
    ensures EvictActive(EvictActive(systems, a), b) == EvictActive(systems, a + b)
  {
    forall i | 0 <= i < |systems|
      ensures EvictActive(EvictActive(systems, a), b)[i] == EvictActive(systems, a + b)[i]
    {
      if systems[i].entities.Some? {
        MinusMinus(systems[i].entities.value, a, b);
      }
    }
  }

  // ---------------------------------------------------------------------------
  // Moving entities between lists

  /** The entities of `moved` now recorded as being in `dest`. */
  function Relisted(ents: map<EntityId, Entity>, moved: seq<EntityId>, dest: ListId): (r: map<EntityId, Entity>)
    ensures r.Keys == ents.Keys
  {
    map e | e in ents :: if e in moved then ents[e].(list := dest) else ents[e]
  }

  /** Where a flushed removed entity goes: freed when nothing references it, held in
      limbo otherwise. */
  function Destination(ent: Entity): ListId
  {
    if ent.references == 0 then RemovedFree else RemovedLimbo
  }

  /** The removed entities of `moved` recorded in their destination list. */
  function Routed(ents: map<EntityId, Entity>, moved: seq<EntityId>): (r: map<EntityId, Entity>)
    ensures r.Keys == ents.Keys
  {
    map e | e in ents :: if e in moved then ents[e].(list := Destination(ents[e])) else ents[e]
  }

  /** The entities of `moved` whose destination is `to`, in order. */
  function Bound(moved: seq<EntityId>, ents: map<EntityId, Entity>, to: ListId): (r: seq<EntityId>)
    requires forall e :: e in moved ==> e in ents
    ensures forall e :: e in r <==> e in moved && Destination(ents[e]) == to
    ensures NoDup(moved) ==> NoDup(r)
  {
    if moved == [] then []
    else
      var last := moved[|moved| - 1];
      var front := Bound(moved[..|moved| - 1], ents, to);
      assert moved == moved[..|moved| - 1] + [last];
      assert NoDup(moved) ==> last !in moved[..|moved| - 1];
      front + (if Destination(ents[last]) == to then [last] else [])
  }

  /** List `l` after `a_ecs__entityMoveToList` moves `e` from list `from` to `to`: the
      entity is unlinked from where it was and appended to the target. */
  function MovedList(lists: map<ListId, seq<EntityId>>, from: ListId, e: EntityId, to: ListId, l: ListId): seq<EntityId>
    requires Complete(lists)
  {
    var kept := if l == from then Minus(lists[l], [e]) else lists[l];
    if l == to then kept + [e] else kept
  }

  function MovedLists(lists: map<ListId, seq<EntityId>>, ents: map<EntityId, Entity>, e: EntityId,
                      to: ListId): (r: map<ListId, seq<EntityId>>)
    requires Complete(lists) && e in ents
    ensures Complete(r) && forall l: ListId :: r[l] == MovedList(lists, ents[e].list, e, to, l)
  {
    map l: ListId | l in lists :: MovedList(lists, ents[e].list, e, to, l)
  }

  lemma MovedListSane(lists: map<ListId, seq<EntityId>>, ents: map<EntityId, Entity>, e: EntityId,
                      to: ListId, l: ListId)
    requires Complete(lists) && e in ents && NoDup(lists[l])
    requires forall x :: x in lists[l] ==> x in ents && ents[x].list == l
    ensures NoDup(MovedList(lists, ents[e].list, e, to, l))
    ensures forall x :: x in MovedList(lists, ents[e].list, e, to, l) ==>
              x in ents && (if x == e then to else ents[x].list) == l
    ensures e in MovedList(lists, ents[e].list, e, to, l) <==> l == to
  {
    var from := ents[e].list;
    var kept := if l == from then Minus(lists[l], [e]) else lists[l];
    assert e !in kept;
    if l == to {
      NoDupAppend(kept, [e]);
    }
  }

  /** Moving an entity keeps every entity in exactly one list, and afterwards the
      entity is in the target list and no other. */
  lemma MoveKeepsOneList(lists: map<ListId, seq<EntityId>>, ents: map<EntityId, Entity>, e: EntityId,
                         to: ListId)
    requires OneList(lists, ents) && e in ents
    ensures OneList(MovedLists(lists, ents, e, to), ents[e := ents[e].(list := to)])
    ensures forall l: ListId :: e in MovedLists(lists, ents, e, to)[l] <==> l == to
  {
    MovedListsSane(lists, ents, e, to);
    MovedListsCover(lists, ents, e, to);
  }

  lemma MovedListsSane(lists: map<ListId, seq<EntityId>>, ents: map<EntityId, Entity>, e: EntityId,
                       to: ListId)
    requires OneList(lists, ents) && e in ents
    ensures var moved := MovedLists(lists, ents, e, to); var ents' := ents[e := ents[e].(list := to)];
      forall l: ListId ::
        && NoDup(moved[l])
        && (forall x :: x in moved[l] ==> x in ents' && ents'[x].list == l)
        && (e in moved[l] <==> l == to)
  {
    forall l: ListId {
      MovedListSane(lists, ents, e, to, l);
    }
  }

  lemma MovedListsCover(lists: map<ListId, seq<EntityId>>, ents: map<EntityId, Entity>, e: EntityId,
                        to: ListId)
    requires OneList(lists, ents) && e in ents
    ensures var moved := MovedLists(lists, ents, e, to); var ents' := ents[e := ents[e].(list := to)];
      forall x :: x in ents' ==> x in moved[ents'[x].list]
  {
    var moved := MovedLists(lists, ents, e, to);
    var ents' := ents[e := ents[e].(list := to)];
    forall x | x in ents' ensures x in moved[ents'[x].list] {
      var l := ents'[x].list;
      assert moved[l] == MovedList(lists, ents[e].list, e, to, l);
      if x != e {
        assert x in lists[l];
      }
    }
  }

  // ---------------------------------------------------------------------------
  // Flush

  /** List `l` after `a_ecs__flushEntitiesFromSystems`: the live list gains the muted
      queue, the free list and limbo gain the removed queue split by reference count,
      and both queues are emptied. */
  function FlushedList(lists: map<ListId, seq<EntityId>>, ents: map<EntityId, Entity>, l: ListId): seq<EntityId>
    requires Complete(lists)
    requires forall e :: e in lists[RemovedQueue] ==> e in ents
  {
    match l
    case Default => lists[Default] + lists[MutedQueue]
    case RemovedFree => lists[RemovedFree] + Bound(lists[RemovedQueue], ents, RemovedFree)
    case RemovedLimbo => lists[RemovedLimbo] + Bound(lists[RemovedQueue], ents, RemovedLimbo)
    case MutedQueue => []
    case RemovedQueue => []
    case _ => lists[l]
  }

  /** The list entity `e` records after a flush. */
  function FlushedListOf(lists: map<ListId, seq<EntityId>>, ents: map<EntityId, Entity>, e: EntityId): ListId
    requires Complete(lists) && e in ents
  {
    if e in lists[MutedQueue] then Default
    else if e in lists[RemovedQueue] then Destination(ents[e])
    else ents[e].list
  }

  function FlushedLists(w: Snapshot): (r: map<ListId, seq<EntityId>>)
    requires Complete(w.lists)
    requires forall e :: e in w.lists[RemovedQueue] ==> e in w.entities
    ensures Complete(r) && forall l: ListId :: r[l] == FlushedList(w.lists, w.entities, l)
  {
    map l: ListId | l in w.lists :: FlushedList(w.lists, w.entities, l)
  }

  function FlushedEntities(w: Snapshot): (r: map<EntityId, Entity>)
    requires Complete(w.lists)
    ensures r.Keys == w.entities.Keys
    ensures forall e :: e in r ==> r[e] == w.entities[e].(list := FlushedListOf(w.lists, w.entities, e))
  {
    map e | e in w.entities :: w.entities[e].(list := FlushedListOf(w.lists, w.entities, e))
  }

  /** `a_ecs__flushEntitiesFromSystems`: muted entities leave every system for the
      live list; removed ones leave every system for the free list or limbo. */
  function Flushed(w: Snapshot): (r: Snapshot)
    requires Complete(w.lists)
    requires forall e :: e in w.lists[RemovedQueue] ==> e in w.entities
    ensures Complete(r.lists) && r.entities.Keys == w.entities.Keys && SameShape(w.systems, r.systems)
    ensures r.lists[MutedQueue] == [] && r.lists[RemovedQueue] == []
    ensures r.lists[New] == w.lists[New] && r.lists[Restore] == w.lists[Restore]
  {
    Snapshot(FlushedLists(w), FlushedEntities(w),
             EvictAll(w.systems, w.lists[MutedQueue] + w.lists[RemovedQueue]))
  }

  /** An entity that no declared system holds. */
  predicate OutOfSystems(systems: seq<Sys.System>, e: EntityId)
  {
    forall i :: 0 <= i < |systems| && Sys.Declared(systems[i]) ==> e !in systems[i].entities.value
  }

  lemma MatchesSaneShape(w: Snapshot, entities: map<EntityId, Entity>, systems: seq<Sys.System>)
    requires MatchesSane(w) && SameShape(w.systems, systems)
    requires entities.Keys == w.entities.Keys
    requires forall e :: e in entities ==>
               entities[e] == w.entities[e].(list := entities[e].list) &&
               (entities[e].list == New ==> w.entities[e].list == New)
    ensures MatchesSane(Snapshot(w.lists, entities, systems))
  {
    forall e | e in entities ensures EntityMatchesSane(entities[e], systems) {
      assert EntityMatchesSane(w.entities[e], w.systems);
    }
  }

  lemma FlushedNoDup(w: Snapshot, l: ListId)
    requires OneList(w.lists, w.entities)
    ensures NoDup(FlushedList(w.lists, w.entities, l))
  {
    if l == Default {
      Disjoint(w.lists, w.entities, Default, MutedQueue);
      NoDupAppend(w.lists[Default], w.lists[MutedQueue]);
    } else if l == RemovedFree || l == RemovedLimbo {
      Disjoint(w.lists, w.entities, l, RemovedQueue);
      NoDupAppend(w.lists[l], Bound(w.lists[RemovedQueue], w.entities, l));
    }
  }

  lemma FlushedListed(w: Snapshot, l: ListId, e: EntityId)
    requires Complete(w.lists) && ListsRecorded(w.lists, w.entities)
    requires e in FlushedList(w.lists, w.entities, l)
    ensures e in w.entities && FlushedListOf(w.lists, w.entities, e) == l
  {
    if e in w.lists[MutedQueue] {
      assert w.entities[e].list == MutedQueue;
    } else if e in w.lists[RemovedQueue] {
      assert w.entities[e].list == RemovedQueue;
    }
  }

  lemma FlushedListsOf(w: Snapshot, e: EntityId)
    requires Complete(w.lists) && ListsRecorded(w.lists, w.entities) && EntitiesListed(w.lists, w.entities)
    requires e in w.entities
    ensures e in FlushedLists(w)[FlushedEntities(w)[e].list]
  {
    var l := w.entities[e].list;
    assert e in w.lists[l];
    assert FlushedEntities(w)[e].list == FlushedListOf(w.lists, w.entities, e);
  }

  lemma FlushedAllNoDup(w: Snapshot)
    requires OneList(w.lists, w.entities)
    ensures ListsNoDup(FlushedLists(w))
  {
    forall l: ListId ensures NoDup(FlushedLists(w)[l]) {
      FlushedNoDup(w, l);
    }
  }

  lemma FlushedAllListed(w: Snapshot)
    requires Complete(w.lists) && ListsRecorded(w.lists, w.entities)
    ensures ListsRecorded(FlushedLists(w), FlushedEntities(w))
  {
    forall l: ListId, e | e in FlushedLists(w)[l]
      ensures e in FlushedEntities(w) && FlushedEntities(w)[e].list == l
    {
      FlushedListed(w, l, e);
    }
  }

  lemma FlushedAllListsOf(w: Snapshot)
    requires Complete(w.lists) && ListsRecorded(w.lists, w.entities) && EntitiesListed(w.lists, w.entities)
    ensures EntitiesListed(FlushedLists(w), FlushedEntities(w))
  {
    assert forall e :: e in w.lists[RemovedQueue] ==> e in w.entities;
    var lists := FlushedLists(w);
    var ents := FlushedEntities(w);
    forall e | e in ents ensures e in lists[ents[e].list] {
      FlushedListsOf(w, e);
    }
  }

  lemma FlushedOneList(w: Snapshot)
    requires OneList(w.lists, w.entities)
    ensures OneList(FlushedLists(w), FlushedEntities(w))
  {
    FlushedAllNoDup(w);
    FlushedAllListed(w);
    FlushedAllListsOf(w);
  }

  lemma FlushedSystemsSane(w: Snapshot)
    requires Valid(w)
    ensures SystemsSane(Flushed(w))
  {
    var f := Flushed(w);
    var muted := w.lists[MutedQueue];
    var removed := w.lists[RemovedQueue];
    forall i | 0 <= i < |f.systems| && Sys.Declared(f.systems[i]) ensures SystemSane(f, i) {
      assert SystemSane(w, i);
      assert f.systems[i].entities.value == Minus(w.systems[i].entities.value, muted + removed);
      forall e | e in f.systems[i].entities.value
        ensures e in f.entities && Runnable(f.entities[e].list) && i in Targets(f.entities[e])
      {
        assert e in w.systems[i].entities.value && e !in muted && e !in removed;
        var l := w.entities[e].list;
        assert e in w.lists[l];
        assert f.entities[e] == w.entities[e];
      }
    }
  }

  lemma FlushedMatchesSane(w: Snapshot)
    requires Valid(w)
    ensures MatchesSane(Flushed(w))
  {
    var f := Flushed(w);
    forall e | e in f.entities
      ensures f.entities[e] == w.entities[e].(list := f.entities[e].list)
      ensures f.entities[e].list == New ==> w.entities[e].list == New
    {
    }
    MatchesSaneShape(w, f.entities, f.systems);
  }

  /** A flush keeps the scheduler consistent and leaves both queues empty. */
  lemma FlushKeepsValid(w: Snapshot)
    requires Valid(w)
    ensures Valid(Flushed(w))
    ensures Flushed(w).lists[MutedQueue] == [] && Flushed(w).lists[RemovedQueue] == []
  {
    FlushedOneList(w);
    FlushedMatchesSane(w);
    FlushedSystemsSane(w);
  }

  /** After a flush every muted entity is in the live list and every removed one in
      the free list or in limbo according to its reference count, all of them out of
      every system. */
  lemma FlushedQueues(w: Snapshot)
    requires Valid(w)
    ensures var f := Flushed(w);
      forall e :: e in w.lists[MutedQueue] ==>
        f.entities[e].list == Default && e in f.lists[Default] && OutOfSystems(f.systems, e)
    ensures var f := Flushed(w);
      forall e :: e in w.lists[RemovedQueue] ==>
        && f.entities[e].list == (if w.entities[e].references == 0 then RemovedFree else RemovedLimbo)
        && e in f.lists[f.entities[e].list]
        && OutOfSystems(f.systems, e)
  {
    FlushedMuted(w);
    FlushedRemoved(w);
    FlushedOut(w);
  }

  lemma FlushedMuted(w: Snapshot)
    requires Complete(w.lists) && ListsRecorded(w.lists, w.entities)
    ensures var f := Flushed(w);
      forall e :: e in w.lists[MutedQueue] ==> f.entities[e].list == Default && e in f.lists[Default]
  {
    assert forall e :: e in w.lists[RemovedQueue] ==> e in w.entities && w.entities[e].list == RemovedQueue;
    var f := Flushed(w);
    forall e | e in w.lists[MutedQueue] ensures f.entities[e].list == Default && e in f.lists[Default] {
      assert w.entities[e].list == MutedQueue;
      assert e !in w.lists[RemovedQueue];
    }
  }

  lemma FlushedRemoved(w: Snapshot)
    requires Complete(w.lists) && ListsRecorded(w.lists, w.entities)
    ensures var f := Flushed(w);
      forall e :: e in w.lists[RemovedQueue] ==>
        f.entities[e].list == Destination(w.entities[e]) && e in f.lists[f.entities[e].list]
  {
    assert forall x :: x in w.lists[RemovedQueue] ==> x in w.entities;
    var f := Flushed(w);
    forall e | e in w.lists[RemovedQueue]
      ensures f.entities[e].list == Destination(w.entities[e]) && e in f.lists[f.entities[e].list]
    {
      FlushedRemovedOne(w, e);
    }
  }

  lemma FlushedRemovedOne(w: Snapshot, e: EntityId)
    requires Complete(w.lists) && ListsRecorded(w.lists, w.entities) && e in w.lists[RemovedQueue]
    ensures e in w.entities
    ensures Flushed(w).entities[e].list == Destination(w.entities[e])
    ensures e in Flushed(w).lists[Destination(w.entities[e])]
  {
    assert w.entities[e].list == RemovedQueue;
    assert e !in w.lists[MutedQueue];
    assert e in Bound(w.lists[RemovedQueue], w.entities, Destination(w.entities[e]));
  }

  lemma FlushedOut(w: Snapshot)
    requires Complete(w.lists) && forall e :: e in w.lists[RemovedQueue] ==> e in w.entities
    ensures var f := Flushed(w);
      forall e :: e in w.lists[MutedQueue] + w.lists[RemovedQueue] ==> OutOfSystems(f.systems, e)
  {
    var f := Flushed(w);
    forall e, i | e in w.lists[MutedQueue] + w.lists[RemovedQueue] && 0 <= i < |f.systems| && Sys.Declared(f.systems[i])
      ensures e !in f.systems[i].entities.value
    {
      assert f.systems[i].entities.value == Minus(w.systems[i].entities.value, w.lists[MutedQueue] + w.lists[RemovedQueue]);
    }
  }

  // ---------------------------------------------------------------------------
  // Tick

  /** `a_bitfield_testMask(bits, mask)`: every component the mask requires is present. */
  predicate Qualifies(bits: seq<bv64>, mask: seq<bv64>)
  {
    |mask| <= |bits| && Bitfield.Covers(bits, mask)
  }

  /** The indices from `lo` up of the systems whose mask `bits` covers and whose flag
      is `onlyActive`, from the highest index down, as the countdown loop of
      `a_ecs__tick` records them once it has come down to `lo`. */
  function Matching(bits: seq<bv64>, systems: seq<Sys.System>, lo: nat, onlyActive: bool): (r: seq<nat>)
    requires lo <= |systems|
    requires forall i :: lo <= i < |systems| ==> |systems[i].componentBits| <= |bits|
    ensures forall id: nat :: id in r <==>
              lo <= id < |systems| && Qualifies(bits, systems[id].componentBits)
              && systems[id].onlyActiveEntities == onlyActive
    ensures forall i, j :: 0 <= i < j < |r| ==> r[i] > r[j]
    decreases |systems| - lo
  {
    if lo == |systems| then []
    else
      var above := Matching(bits, systems, lo + 1, onlyActive);
      assert forall k :: 0 <= k < |above| ==> above[k] in above;
      if Bitfield.Covers(bits, systems[lo].componentBits) && systems[lo].onlyActiveEntities == onlyActive
      then above + [lo]
      else above
  }

  lemma UpdateTwice(m: map<EntityId, Entity>, k: EntityId, a: Entity, b: Entity)
    ensures m[k := a][k := b] == m[k := b]
  {
  }

  lemma MatchingStep(bits: seq<bv64>, systems: seq<Sys.System>, lo: nat, onlyActive: bool)
    requires lo < |systems|
    requires forall i :: lo <= i < |systems| ==> |systems[i].componentBits| <= |bits|
    ensures Matching(bits, systems, lo, onlyActive) ==
              Matching(bits, systems, lo + 1, onlyActive)
              + (if Bitfield.Covers(bits, systems[lo].componentBits) && systems[lo].onlyActiveEntities == onlyActive
                 then [lo] else [])
  {
  }

  lemma DescendingNoDup(s: seq<nat>)
    requires forall i, j :: 0 <= i < j < |s| ==> s[i] > s[j]
    ensures NoDup(s)
  {
  }

  /** What a tick with new entities demands: `a_system__get` is fatal for an undeclared
      system, and `a_bitfield_testMask` reads as many chunks of the entity's bits as
      the system's mask has. */
  predicate MasksFit(w: Snapshot)
    requires Complete(w.lists)
  {
    forall e, i :: e in w.lists[New] && 0 <= i < |w.systems| ==>
      && e in w.entities && Sys.Declared(w.systems[i])
      && |w.systems[i].componentBits| <= |w.entities[e].componentBits|
  }

  /** A new entity after the matching loop: it records the systems it matches and
      moves to the restore list. */
  function Match(ent: Entity, systems: seq<Sys.System>): (r: Entity)
    requires forall i :: 0 <= i < |systems| ==> |systems[i].componentBits| <= |ent.componentBits|
  {
    ent.(list := Restore,
         matchingActive := ent.matchingActive + Matching(ent.componentBits, systems, 0, true),
         matchingRest := ent.matchingRest + Matching(ent.componentBits, systems, 0, false))
  }

  /** The entities after the matching loop of `a_ecs__tick`. */
  function MatchedEntities(f: Snapshot): (r: map<EntityId, Entity>)
    requires Complete(f.lists) && MasksFit(f)
    ensures r.Keys == f.entities.Keys
  {
    map e | e in f.entities :: if e in f.lists[New] then Match(f.entities[e], f.systems) else f.entities[e]
  }

  /** The entities of `restoring` that join system `id`, in order. */
  function Joining(restoring: seq<EntityId>, ents: map<EntityId, Entity>, id: nat): (r: seq<EntityId>)
    requires forall e :: e in restoring ==> e in ents
    ensures forall e :: e in r <==> e in restoring && id in Targets(ents[e])
    ensures NoDup(restoring) ==> NoDup(r)
  {
    if restoring == [] then []
    else
      var last := restoring[|restoring| - 1];
      var front := Joining(restoring[..|restoring| - 1], ents, id);
      assert restoring == restoring[..|restoring| - 1] + [last];
      assert NoDup(restoring) ==> last !in restoring[..|restoring| - 1];
      front + (if id in Targets(ents[last]) then [last] else [])
  }

  /** The systems after the restore loop of `a_ecs__tick`: each declared system gains,
      in order, the restored entities that target it. */
  function JoinedSystems(systems: seq<Sys.System>, restoring: seq<EntityId>, ents: map<EntityId, Entity>): (r: seq<Sys.System>)
    requires forall e :: e in restoring ==> e in ents
    ensures SameShape(systems, r)
  {
    seq(|systems|, i requires 0 <= i < |systems| =>
      if Sys.Declared(systems[i])
      then systems[i].(entities := Some(systems[i].entities.value + Joining(restoring, ents, i)))
      else systems[i])
  }

  /** List `l` at the end of a tick that started from the flushed state `f`: the
      restored and new entities have joined the live list, and the new, restore and
      free lists are cleared. */
  function TickedList(f: Snapshot, l: ListId): seq<EntityId>
    requires Complete(f.lists)
  {
    match l
    case New => []
    case Restore => []
    case RemovedFree => []
    case Default => f.lists[Default] + (f.lists[Restore] + f.lists[New])
    case _ => f.lists[l]
  }

  function TickedLists(f: Snapshot): (r: map<ListId, seq<EntityId>>)
    requires Complete(f.lists)
    ensures Complete(r) && forall l: ListId :: r[l] == TickedList(f, l)
  {
    map l: ListId | l in f.lists :: TickedList(f, l)
  }

  /** The entities at the end of a tick from the flushed state `f`: the freed ones are
      gone, and the restored and new ones are live, the new ones with their matches. */
  function TickedEntities(f: Snapshot): (r: map<EntityId, Entity>)
    requires Complete(f.lists) && MasksFit(f)
    ensures forall e :: e in r <==> e in f.entities && e !in f.lists[RemovedFree]
  {
    map e | e in f.entities && e !in f.lists[RemovedFree] ::
      if e in f.lists[Restore] + f.lists[New] then MatchedEntities(f)[e].(list := Default) else f.entities[e]
  }

  /** `a_ecs__tick`: a flush, then new entities are matched against every system and
      queued for restoring, then every entity to restore joins its systems and becomes
      live, and last the new, restore and free lists are cleared. */
  function Ticked(w: Snapshot): (r: Snapshot)
    requires Valid(w) && MasksFit(w)
    ensures SameShape(w.systems, r.systems)
  {
    FlushKeepsValid(w);
    FlushKeepsMasksFit(w);
    var f := Flushed(w);
    SameShapeTrans(w.systems, f.systems,
                   JoinedSystems(f.systems, f.lists[Restore] + f.lists[New], MatchedEntities(f)));
    Snapshot(TickedLists(f),
             TickedEntities(f),
             JoinedSystems(f.systems, f.lists[Restore] + f.lists[New], MatchedEntities(f)))
  }

  lemma FlushKeepsMasksFit(w: Snapshot)
    requires Complete(w.lists) && ListsRecorded(w.lists, w.entities) && MasksFit(w)
    ensures MasksFit(Flushed(w))
  {
    assert forall e :: e in w.lists[RemovedQueue] ==> e in w.entities;
    var f := Flushed(w);
    forall e | e in f.lists[New] ensures e in w.lists[New] && f.entities[e] == w.entities[e] {
      assert w.entities[e].list == New;
      assert e !in w.lists[MutedQueue] && e !in w.lists[RemovedQueue];
    }
  }

  /** Both queues are empty, as a flush leaves them. */
  predicate Drained(f: Snapshot)
    requires Complete(f.lists)
  {
    f.lists[MutedQueue] == [] && f.lists[RemovedQueue] == []
  }

  lemma TickedNoDup(f: Snapshot, l: ListId)
    requires OneList(f.lists, f.entities)
    ensures NoDup(TickedList(f, l))
  {
    if l == Default {
      Disjoint(f.lists, f.entities, Restore, New);
      Disjoint(f.lists, f.entities, Default, Restore);
      Disjoint(f.lists, f.entities, Default, New);
      NoDupAppend(f.lists[Restore], f.lists[New]);
      NoDupAppend(f.lists[Default], f.lists[Restore] + f.lists[New]);
    }
  }

  lemma TickedListed(f: Snapshot, l: ListId, e: EntityId)
    requires OneList(f.lists, f.entities) && MasksFit(f)
    requires e in TickedList(f, l)
    ensures e in TickedEntities(f) && TickedEntities(f)[e].list == l
  {
    assert e in f.lists[f.entities[e].list];
    Disjoint(f.lists, f.entities, f.entities[e].list, RemovedFree);
  }

  lemma TickedListsOf(f: Snapshot, e: EntityId)
    requires OneList(f.lists, f.entities) && MasksFit(f) && Drained(f)
    requires e in TickedEntities(f)
    ensures e in TickedList(f, TickedEntities(f)[e].list)
  {
    var l := f.entities[e].list;
    assert e in f.lists[l];
  }

  lemma TickedAllNoDup(f: Snapshot)
    requires OneList(f.lists, f.entities)
    ensures ListsNoDup(TickedLists(f))
  {
    forall l: ListId ensures NoDup(TickedLists(f)[l]) {
      TickedNoDup(f, l);
    }
  }

  lemma TickedAllListed(f: Snapshot)
    requires OneList(f.lists, f.entities) && MasksFit(f)
    ensures ListsRecorded(TickedLists(f), TickedEntities(f))
  {
    forall l: ListId, e | e in TickedLists(f)[l]
      ensures e in TickedEntities(f) && TickedEntities(f)[e].list == l
    {
      TickedListed(f, l, e);
    }
  }

  lemma TickedAllListsOf(f: Snapshot)
    requires OneList(f.lists, f.entities) && MasksFit(f) && Drained(f)
    ensures EntitiesListed(TickedLists(f), TickedEntities(f))
  {
    forall e | e in TickedEntities(f) ensures e in TickedLists(f)[TickedEntities(f)[e].list] {
      TickedListsOf(f, e);
    }
  }

  lemma TickedOneList(f: Snapshot)
    requires OneList(f.lists, f.entities) && MasksFit(f) && Drained(f)
    ensures OneList(TickedLists(f), TickedEntities(f))
  {
    TickedAllNoDup(f);
    TickedAllListed(f);
    TickedAllListsOf(f);
  }

  lemma EntityMatchesShape(ent: Entity, a: seq<Sys.System>, b: seq<Sys.System>)
    requires EntityMatchesSane(ent, a) && SameShape(a, b)
    ensures EntityMatchesSane(ent, b)
  {
  }

  lemma MatchFresh(ent: Entity, systems: seq<Sys.System>)
    requires ent.matchingActive == [] && ent.matchingRest == []
    requires forall i :: 0 <= i < |systems| ==>
               Sys.Declared(systems[i]) && |systems[i].componentBits| <= |ent.componentBits|
    ensures EntityMatchesSane(Match(ent, systems).(list := Default), systems)
  {
    var act := Matching(ent.componentBits, systems, 0, true);
    var rest := Matching(ent.componentBits, systems, 0, false);
    assert Match(ent, systems).matchingActive == act && Match(ent, systems).matchingRest == rest;
    DescendingNoDup(act);
    DescendingNoDup(rest);
    NoDupAppend(act, rest);
  }

  lemma TickedEntityMatches(f: Snapshot, e: EntityId)
    requires Complete(f.lists) && ListsRecorded(f.lists, f.entities) && MatchesSane(f) && MasksFit(f)
    requires e in TickedEntities(f)
    ensures EntityMatchesSane(TickedEntities(f)[e], f.systems)
  {
    var ent := f.entities[e];
    assert EntityMatchesSane(ent, f.systems);
    var t := TickedEntities(f)[e];
    if e in f.lists[New] {
      assert ent.list == New;
      assert t == Match(ent, f.systems).(list := Default);
      MatchFresh(ent, f.systems);
    } else if e in f.lists[Restore] {
      assert t == ent.(list := Default);
    } else {
      assert t == ent;
    }
  }

  lemma TickedMatchesSane(f: Snapshot)
    requires Valid(f) && MasksFit(f)
    ensures MatchesSane(Snapshot(TickedLists(f), TickedEntities(f),
                                 JoinedSystems(f.systems, f.lists[Restore] + f.lists[New], MatchedEntities(f))))
  {
    var systems := JoinedSystems(f.systems, f.lists[Restore] + f.lists[New], MatchedEntities(f));
    forall e | e in TickedEntities(f) ensures EntityMatchesSane(TickedEntities(f)[e], systems) {
      TickedEntityMatches(f, e);
      EntityMatchesShape(TickedEntities(f)[e], f.systems, systems);
    }
  }

  lemma TickedOldMember(f: Snapshot, i: nat, x: EntityId)
    requires Valid(f) && MasksFit(f) && Drained(f)
    requires i < |f.systems| && Sys.Declared(f.systems[i]) && x in f.systems[i].entities.value
    ensures x !in f.lists[Restore] + f.lists[New]
    ensures x in TickedEntities(f) && TickedEntities(f)[x] == f.entities[x]
  {
    assert SystemSane(f, i);
    var l := f.entities[x].list;
    assert x in f.lists[l];
    assert l == Default;
    Disjoint(f.lists, f.entities, Default, Restore);
    Disjoint(f.lists, f.entities, Default, New);
    Disjoint(f.lists, f.entities, Default, RemovedFree);
  }

  lemma TickedJoiner(f: Snapshot, x: EntityId)
    requires OneList(f.lists, f.entities) && MasksFit(f)
    requires x in f.lists[Restore] + f.lists[New]
    ensures x in TickedEntities(f) && TickedEntities(f)[x] == MatchedEntities(f)[x].(list := Default)
  {
    Disjoint(f.lists, f.entities, Restore, RemovedFree);
    Disjoint(f.lists, f.entities, New, RemovedFree);
  }

  lemma TickedSystemSane(f: Snapshot, i: nat)
    requires Valid(f) && MasksFit(f) && Drained(f)
    requires i < |f.systems| && Sys.Declared(f.systems[i])
    ensures var t := Snapshot(TickedLists(f), TickedEntities(f),
                              JoinedSystems(f.systems, f.lists[Restore] + f.lists[New], MatchedEntities(f)));
            SystemSane(t, i)
  {
    var restoring := f.lists[Restore] + f.lists[New];
    var me := MatchedEntities(f);
    var t := Snapshot(TickedLists(f), TickedEntities(f), JoinedSystems(f.systems, restoring, me));
    var before := f.systems[i].entities.value;
    var joining := Joining(restoring, me, i);
    assert t.systems[i].entities.value == before + joining;
    assert SystemSane(f, i);
    Disjoint(f.lists, f.entities, Restore, New);
    NoDupAppend(f.lists[Restore], f.lists[New]);
    forall x | x in before ensures x !in joining {
      TickedOldMember(f, i, x);
    }
    NoDupAppend(before, joining);
    forall x | x in before + joining
      ensures x in t.entities && Runnable(t.entities[x].list) && i in Targets(t.entities[x])
    {
      if x in before {
        TickedOldMember(f, i, x);
      } else {
        TickedJoiner(f, x);
      }
    }
  }

  lemma TickedSystemsSane(f: Snapshot)
    requires Valid(f) && MasksFit(f) && Drained(f)
    ensures SystemsSane(Snapshot(TickedLists(f), TickedEntities(f),
                                 JoinedSystems(f.systems, f.lists[Restore] + f.lists[New], MatchedEntities(f))))
  {
    var t := Snapshot(TickedLists(f), TickedEntities(f),
                      JoinedSystems(f.systems, f.lists[Restore] + f.lists[New], MatchedEntities(f)));
    forall i | 0 <= i < |t.systems| && Sys.Declared(t.systems[i]) ensures SystemSane(t, i) {
      TickedSystemSane(f, i);
    }
  }

  /** A tick keeps the scheduler consistent. Afterwards the queues and the new, restore
      and free lists are empty, and every entity that was new or waiting to be restored
      is live. */
  lemma TickKeepsValid(w: Snapshot)
    requires Valid(w) && MasksFit(w)
    ensures Valid(Ticked(w))
    ensures forall l: ListId :: l in {New, Restore, RemovedFree, MutedQueue, RemovedQueue} ==> Ticked(w).lists[l] == []
    ensures forall e :: e in w.lists[New] + w.lists[Restore] ==>
              e in Ticked(w).entities && Ticked(w).entities[e].list == Default
  {
    FlushKeepsValid(w);
    FlushKeepsMasksFit(w);
    var f := Flushed(w);
    TickedOneList(f);
    TickedMatchesSane(f);
    TickedSystemsSane(f);
    forall e | e in w.lists[New] + w.lists[Restore]
      ensures e in Ticked(w).entities && Ticked(w).entities[e].list == Default
    {
      assert e in f.lists[Restore] + f.lists[New];
      assert e in f.lists[f.entities[e].list];
      Disjoint(f.lists, f.entities, Restore, RemovedFree);
      Disjoint(f.lists, f.entities, New, RemovedFree);
    }
  }

  /** An entity that was new or waiting to be restored, seen through the flush. */
  lemma FlushKeepsWaiting(w: Snapshot, e: EntityId)
    requires Valid(w) && e in w.lists[New] + w.lists[Restore]
    ensures e in Flushed(w).entities && Flushed(w).entities[e] == w.entities[e]
    ensures forall i :: 0 <= i < |w.systems| && Sys.Declared(w.systems[i]) ==>
              e !in Flushed(w).systems[i].entities.value
  {
    var f := Flushed(w);
    var l := w.entities[e].list;
    assert e in w.lists[l] && (l == New || l == Restore);
    Disjoint(w.lists, w.entities, l, MutedQueue);
    Disjoint(w.lists, w.entities, l, RemovedQueue);
    forall i | 0 <= i < |w.systems| && Sys.Declared(w.systems[i]) ensures e !in f.systems[i].entities.value {
      assert SystemSane(w, i);
    }
  }

  lemma TargetsOfFresh(ent: Entity, systems: seq<Sys.System>, i: nat)
    requires ent.matchingActive == [] && ent.matchingRest == []
    requires forall k :: 0 <= k < |systems| ==> |systems[k].componentBits| <= |ent.componentBits|
    requires i < |systems|
    ensures i in Targets(Match(ent, systems)) <==>
              Qualifies(ent.componentBits, systems[i].componentBits) &&
              (systems[i].onlyActiveEntities ==> !ent.activeRemoved)
  {
    var act := Matching(ent.componentBits, systems, 0, true);
    var rest := Matching(ent.componentBits, systems, 0, false);
    assert Targets(Match(ent, systems)) == (if ent.activeRemoved then [] else act) + rest;
  }

  lemma JoinsFresh(f: Snapshot, e: EntityId, i: nat)
    requires OneList(f.lists, f.entities) && MasksFit(f)
    requires e in f.lists[New] && e in f.entities && i < |f.systems|
    requires f.entities[e].matchingActive == [] && f.entities[e].matchingRest == []
    requires forall k :: 0 <= k < |f.systems| && Sys.Declared(f.systems[k]) ==> e !in f.systems[k].entities.value
    ensures Sys.Declared(f.systems[i])
    ensures forall x :: x in f.lists[Restore] + f.lists[New] ==> x in MatchedEntities(f)
    ensures e in JoinedSystems(f.systems, f.lists[Restore] + f.lists[New], MatchedEntities(f))[i].entities.value <==>
              && Qualifies(f.entities[e].componentBits, f.systems[i].componentBits)
              && (f.systems[i].onlyActiveEntities ==> !f.entities[e].activeRemoved)
  {
    var ent := f.entities[e];
    var me := MatchedEntities(f);
    var restoring := f.lists[Restore] + f.lists[New];
    assert forall x :: x in restoring ==> x in f.lists[f.entities[x].list];
    assert me[e] == Match(ent, f.systems);
    TargetsOfFresh(ent, f.systems, i);
    assert JoinedSystems(f.systems, restoring, me)[i].entities.value ==
           f.systems[i].entities.value + Joining(restoring, me, i);
  }

  /** After a tick a new entity is in exactly the systems whose mask its components
      cover, except that an entity flagged `A_ENTITY__ACTIVE_REMOVED` stays out of
      the systems that only run on active entities. */
  lemma TickJoinsNew(w: Snapshot, e: EntityId, i: nat)
    requires Valid(w) && MasksFit(w)
    requires e in w.lists[New] && e in w.entities && i < |w.systems|
    ensures var t := Ticked(w);
      && Sys.Declared(t.systems[i])
      && (e in t.systems[i].entities.value <==>
            && Qualifies(w.entities[e].componentBits, w.systems[i].componentBits)
            && (w.systems[i].onlyActiveEntities ==> !w.entities[e].activeRemoved))
  {
    assert w.entities[e].list == New && EntityMatchesSane(w.entities[e], w.systems);
    FlushKeepsWaiting(w, e);
    var f := Flushed(w);
    assert f.systems[i].componentBits == w.systems[i].componentBits;
    assert f.systems[i].onlyActiveEntities == w.systems[i].onlyActiveEntities;
    FlushedOneList(w);
    FlushKeepsMasksFit(w);
    JoinsFresh(f, e, i);
    assert Ticked(w).systems == JoinedSystems(f.systems, f.lists[Restore] + f.lists[New], MatchedEntities(f));
  }

  /** After a tick an entity that was waiting to be restored is in exactly the
      systems it targets. */
  lemma TickJoinsRestored(w: Snapshot, e: EntityId, i: nat)
    requires Valid(w) && MasksFit(w)
    requires e in w.lists[Restore] && e in w.entities && i < |w.systems| && Sys.Declared(w.systems[i])
    ensures Sys.Declared(Ticked(w).systems[i])
    ensures e in Ticked(w).systems[i].entities.value <==> i in Targets(w.entities[e])
  {
    FlushKeepsValid(w);
    FlushKeepsMasksFit(w);
    FlushKeepsWaiting(w, e);
    var f := Flushed(w);
    assert w.entities[e].list == Restore;
    Disjoint(f.lists, f.entities, Restore, New);
    assert MatchedEntities(f)[e] == w.entities[e];
  }

  /** A tick frees exactly the entities already in the free list and the removed ones
      that nothing references; every other entity survives. */
  lemma TickFrees(w: Snapshot, e: EntityId)
    requires Valid(w) && MasksFit(w)
    ensures e in Ticked(w).entities <==>
              && e in w.entities && e !in w.lists[RemovedFree]
              && !(e in w.lists[RemovedQueue] && w.entities[e].references == 0)
  {
    FlushKeepsValid(w);
    var f := Flushed(w);
    assert f.lists[RemovedFree] == w.lists[RemovedFree] + Bound(w.lists[RemovedQueue], w.entities, RemovedFree);
  }

  // ---------------------------------------------------------------------------
  // Running a system

  /** `x` placed before the first element of `s` that it does not compare above. */
  function Insert(x: EntityId, s: seq<EntityId>, cmp: Sys.Comparator): (r: seq<EntityId>)
    ensures multiset(r) == multiset(s) + multiset{x}
    ensures r[0] == x || (s != [] && r[0] == s[0])
    ensures x !in s && NoDup(s) ==> NoDup(r)
  {
    if s == [] then [x]
    else if cmp(x, s[0]) <= 0 then
      assert x !in s && NoDup(s) ==> NoDup([x] + s) by {
        if x !in s && NoDup(s) {
          NoDupAppend([x], s);
        }
      }
      [x] + s
    else
      var rest := Insert(x, s[1..], cmp);
      assert s == [s[0]] + s[1..];
      assert s[0] in multiset(s);
      assert x !in s && NoDup(s) ==> NoDup([s[0]] + rest) by {
        if x !in s && NoDup(s) {
          assert s[0] !in s[1..];
          assert s[0] !in multiset(rest);
          NoDupAppend([s[0]], rest);
        }
      }
      [s[0]] + rest
  }

  /** The order `a_list_sort` leaves a system's entities in: an insertion sort by the
      system's comparator. */
  function Sort(s: seq<EntityId>, cmp: Sys.Comparator): (r: seq<EntityId>)
    ensures multiset(r) == multiset(s)
    ensures NoDup(s) ==> NoDup(r)
  {
    if s == [] then []
    else
      var rest := Sort(s[1..], cmp);
      assert s == [s[0]] + s[1..];
      assert NoDup(s) ==> s[0] !in rest && NoDup(rest) by {
        if NoDup(s) {
          assert s[0] !in s[1..];
          assert s[0] !in multiset(s[1..]);
          assert NoDup(s[1..]) by {
            forall i, j | 0 <= i < j < |s[1..]| ensures s[1..][i] != s[1..][j] {
              assert s[1..][i] == s[i + 1] && s[1..][j] == s[j + 1];
            }
          }
        }
      }
      Insert(s[0], rest, cmp)
  }

  predicate SortedBy(s: seq<EntityId>, cmp: Sys.Comparator)
  {
    forall i :: 0 <= i < |s| - 1 ==> cmp(s[i], s[i + 1]) <= 0
  }

  /** A comparator that never calls both `a` above `b` and `b` above `a`. */
  ghost predicate Antisymmetric(cmp: Sys.Comparator)
  {
    forall a: EntityId, b: EntityId :: cmp(a, b) > 0 ==> cmp(b, a) <= 0
  }

  lemma {:induction false} InsertSorted(x: EntityId, s: seq<EntityId>, cmp: Sys.Comparator)
    requires Antisymmetric(cmp) && SortedBy(s, cmp)
    ensures SortedBy(Insert(x, s, cmp), cmp)
  {
    if s != [] && cmp(x, s[0]) > 0 {
      assert SortedBy(s[1..], cmp) by {
        forall i | 0 <= i < |s[1..]| - 1 ensures cmp(s[1..][i], s[1..][i + 1]) <= 0 {
          assert s[1..][i] == s[i + 1] && s[1..][i + 1] == s[i + 2];
        }
      }
      InsertSorted(x, s[1..], cmp);
      var rest := Insert(x, s[1..], cmp);
      assert cmp(s[0], x) <= 0;
      assert rest[0] == x || rest[0] == s[1];
    }
  }

  /** With a comparator that is antisymmetric in sign, the sorted order has no pair
      of neighbours the comparator puts the wrong way round. */
  lemma {:induction false} SortSorted(s: seq<EntityId>, cmp: Sys.Comparator)
    requires Antisymmetric(cmp)
    ensures SortedBy(Sort(s, cmp), cmp)
  {
    if s != [] {
      SortSorted(s[1..], cmp);
      InsertSorted(s[0], Sort(s[1..], cmp), cmp);
    }
  }

  /** The order `a_system_run` visits a system's entities in: sorted when the system
      has a comparator, as listed otherwise. */
  function RunOrder(s: Sys.System): (r: seq<EntityId>)
    requires Sys.Declared(s)
    ensures multiset(r) == multiset(s.entities.value)
    ensures NoDup(s.entities.value) ==> NoDup(r)
  {
    if s.compare.Some? then Sort(s.entities.value, s.compare.value) else s.entities.value
  }

  /** The entities of `order` whose `a_entity_activeGet` is `active`, in order. */
  function ByActivity(order: seq<EntityId>, ents: map<EntityId, Entity>, active: bool): (r: seq<EntityId>)
    requires forall e :: e in order ==> e in ents
    ensures forall e :: e in r <==> e in order && ents[e].active == active
    ensures NoDup(order) ==> NoDup(r)
  {
    if order == [] then []
    else
      var last := order[|order| - 1];
      var front := ByActivity(order[..|order| - 1], ents, active);
      assert order == order[..|order| - 1] + [last];
      assert NoDup(order) ==> last !in order[..|order| - 1];
      front + (if ents[last].active == active then [last] else [])
  }

  /** The entities after `a_entity__removeFromActiveSystems` flags each of `idle`. */
  function Deactivated(ents: map<EntityId, Entity>, idle: seq<EntityId>): (r: map<EntityId, Entity>)
    ensures r.Keys == ents.Keys
    ensures forall e :: e in r ==> r[e].(activeRemoved := ents[e].activeRemoved) == ents[e]
    ensures forall e :: e in r ==> r[e].activeRemoved == (ents[e].activeRemoved || e in idle)
  {
    map e | e in ents :: if e in idle then ents[e].(activeRemoved := true) else ents[e]
  }

  predicate CanRun(w: Snapshot, index: nat)
  {
    Valid(w) && index < |w.systems| && Sys.Declared(w.systems[index])
  }

  lemma MembersKnown(w: Snapshot, index: nat)
    requires CanRun(w, index)
    ensures forall e :: e in RunOrder(w.systems[index]) ==> e in w.entities
  {
    assert SystemSane(w, index);
    var s := w.systems[index];
    forall e | e in RunOrder(s) ensures e in w.entities {
      assert e in multiset(RunOrder(s));
      assert e in multiset(s.entities.value);
    }
  }

  /** The inactive entities a run of an active-only system evicts, in visiting order. */
  function Idle(w: Snapshot, index: nat): seq<EntityId>
    requires CanRun(w, index)
  {
    MembersKnown(w, index);
    if w.systems[index].onlyActiveEntities
    then ByActivity(RunOrder(w.systems[index]), w.entities, false)
    else []
  }

  /** The entities `a_system_run` calls the handler on, in order: the active ones
      for an active-only system, all of them otherwise. */
  function Calls(w: Snapshot, index: nat): seq<EntityId>
    requires CanRun(w, index)
  {
    MembersKnown(w, index);
    if w.systems[index].onlyActiveEntities
    then ByActivity(RunOrder(w.systems[index]), w.entities, true)
    else RunOrder(w.systems[index])
  }

  /** The state after the handler loop of `a_system_run`, before its flush: the
      system's list is in run order, and each idle entity is flagged and out of
      every active-only system. */
  function Dispatched(w: Snapshot, index: nat): (r: Snapshot)
    requires CanRun(w, index)
    ensures r.lists == w.lists && r.entities.Keys == w.entities.Keys
    ensures SameShape(w.systems, r.systems)
  {
    var s := w.systems[index];
    var idle := Idle(w, index);
    var sorted := w.systems[index := s.(entities := Some(RunOrder(s)))];
    SameShapeTrans(w.systems, sorted, EvictActive(sorted, idle));
    Snapshot(w.lists, Deactivated(w.entities, idle), EvictActive(sorted, idle))
  }

  /** `a_system_run`: the handler loop, then a flush. */
  function Ran(w: Snapshot, index: nat): (r: Snapshot)
    requires CanRun(w, index)
    ensures SameShape(w.systems, r.systems) && r.entities.Keys == w.entities.Keys
  {
    var d := Dispatched(w, index);
    SameShapeTrans(w.systems, d.systems, Flushed(d).systems);
    Flushed(d)
  }

  lemma DispatchedOneList(w: Snapshot, index: nat)
    requires CanRun(w, index)
    ensures OneList(Dispatched(w, index).lists, Dispatched(w, index).entities)
  {
    var d := Dispatched(w, index);
    OneListRelabel(w.lists, w.entities, d.entities);
  }

  /** Changing entities in anything but their list keeps the lists consistent. */
  lemma OneListRelabel(lists: map<ListId, seq<EntityId>>, a: map<EntityId, Entity>, b: map<EntityId, Entity>)
    requires OneList(lists, a)
    requires a.Keys == b.Keys && forall e :: e in a ==> b[e].list == a[e].list
    ensures OneList(lists, b)
  {
  }

  lemma DispatchedMatches(w: Snapshot, index: nat)
    requires CanRun(w, index)
    ensures MatchesSane(Dispatched(w, index))
  {
    var d := Dispatched(w, index);
    var s := w.systems[index];
    var sorted := w.systems[index := s.(entities := Some(RunOrder(s)))];
    assert SameShape(w.systems, sorted);
    SameShapeTrans(w.systems, sorted, d.systems);
    forall e | e in d.entities ensures EntityMatchesSane(d.entities[e], d.systems) {
      EntityMatchesShape(w.entities[e], w.systems, d.systems);
    }
  }

  lemma DispatchedSystem(w: Snapshot, index: nat, i: nat)
    requires CanRun(w, index)
    requires i < |w.systems| && Sys.Declared(w.systems[i])
    ensures Sys.Declared(Dispatched(w, index).systems[i])
    ensures SystemSane(Dispatched(w, index), i)
  {
    var d := Dispatched(w, index);
    var s := w.systems[index];
    var idle := Idle(w, index);
    var sorted := w.systems[index := s.(entities := Some(RunOrder(s)))];
    assert SystemSane(w, i);
    var members := sorted[i].entities.value;
    assert NoDup(members) && forall e :: e in members ==> e in w.systems[i].entities.value by {
      if i == index {
        assert forall e :: e in members ==> e in multiset(s.entities.value);
      }
    }
    forall e | e in d.systems[i].entities.value
      ensures e in d.entities && Runnable(d.entities[e].list) && i in Targets(d.entities[e])
    {
      assert EntityMatchesSane(w.entities[e], w.systems);
      if e in idle {
        assert !w.systems[i].onlyActiveEntities;
      }
    }
  }

  lemma DispatchedSystems(w: Snapshot, index: nat)
    requires CanRun(w, index)
    ensures SystemsSane(Dispatched(w, index))
  {
    var d := Dispatched(w, index);
    forall i | 0 <= i < |d.systems| && Sys.Declared(d.systems[i]) ensures SystemSane(d, i) {
      DispatchedSystem(w, index, i);
    }
  }

  /** Running a system keeps the scheduler consistent. */
  lemma RunKeepsValid(w: Snapshot, index: nat)
    requires CanRun(w, index)
    ensures Valid(Ran(w, index))
  {
    DispatchedOneList(w, index);
    DispatchedMatches(w, index);
    DispatchedSystems(w, index);
    FlushKeepsValid(Dispatched(w, index));
  }

  /** The handler of a run sees each of the system's entities at most once: all of
      them for an ordinary system, exactly the active ones for an active-only system,
      in comparator order when the comparator is antisymmetric. */
  lemma RunCalls(w: Snapshot, index: nat)
    requires CanRun(w, index)
    ensures NoDup(Calls(w, index))
    ensures forall e :: e in Calls(w, index) <==>
              e in w.systems[index].entities.value
              && (w.systems[index].onlyActiveEntities ==> w.entities[e].active)
    ensures !w.systems[index].onlyActiveEntities ==>
              multiset(Calls(w, index)) == multiset(w.systems[index].entities.value)
    ensures !w.systems[index].onlyActiveEntities && w.systems[index].compare.Some?
            && Antisymmetric(w.systems[index].compare.value) ==>
              SortedBy(Calls(w, index), w.systems[index].compare.value)
  {
    var s := w.systems[index];
    assert SystemSane(w, index);
    forall e ensures e in RunOrder(s) <==> e in s.entities.value {
      assert e in RunOrder(s) <==> e in multiset(RunOrder(s));
    }
    if !s.onlyActiveEntities && s.compare.Some? && Antisymmetric(s.compare.value) {
      SortSorted(s.entities.value, s.compare.value);
    }
  }

  /** An inactive entity met by a run of an active-only system is flagged and has left
      every active-only system once the run is over; it stays in the others. */
  lemma RunEvictsIdle(w: Snapshot, index: nat, e: EntityId)
    requires CanRun(w, index) && w.systems[index].onlyActiveEntities
    requires e in w.systems[index].entities.value && !w.entities[e].active
    ensures var r := Ran(w, index);
      && e in r.entities && r.entities[e].activeRemoved
      && forall i :: 0 <= i < |w.systems| && Sys.Declared(w.systems[i]) && w.systems[i].onlyActiveEntities
           ==> e !in r.systems[i].entities.value
  {
    var d := Dispatched(w, index);
    DispatchedEvicts(w, index, e);
    RanUnfolds(w, index);
    FlushKeepsOut(d, e);
    var f := Flushed(d);
    forall i | 0 <= i < |w.systems| && Sys.Declared(w.systems[i]) && w.systems[i].onlyActiveEntities
      ensures e !in f.systems[i].entities.value
    {
      assert Sys.Declared(d.systems[i]);
    }
  }

  lemma RanUnfolds(w: Snapshot, index: nat)
    requires CanRun(w, index)
    ensures var d := Dispatched(w, index);
      && Complete(d.lists) && (forall x :: x in d.lists[RemovedQueue] ==> x in d.entities)
      && Ran(w, index) == Flushed(d)
  {
    var d := Dispatched(w, index);
    assert forall x :: x in w.lists[RemovedQueue] ==> x in w.entities;
    assert d.lists == w.lists && d.entities.Keys == w.entities.Keys;
  }

  lemma DispatchedEvicts(w: Snapshot, index: nat, e: EntityId)
    requires CanRun(w, index) && w.systems[index].onlyActiveEntities
    requires e in w.systems[index].entities.value && !w.entities[e].active
    ensures var d := Dispatched(w, index);
      && e in d.entities && d.entities[e].activeRemoved
      && forall i :: 0 <= i < |w.systems| && Sys.Declared(w.systems[i]) && w.systems[i].onlyActiveEntities
           ==> e !in d.systems[i].entities.value
  {
    var s := w.systems[index];
    assert SystemSane(w, index);
    assert e in multiset(s.entities.value);
    assert e in RunOrder(s) by { assert e in multiset(RunOrder(s)); }
    assert e in Idle(w, index);
  }

  /** A flush takes no entity into a system and leaves every flag as it was. */
  lemma FlushKeepsOut(d: Snapshot, e: EntityId)
    requires Complete(d.lists) && forall x :: x in d.lists[RemovedQueue] ==> x in d.entities
    ensures var f := Flushed(d);
      && (e in d.entities ==> f.entities[e].activeRemoved == d.entities[e].activeRemoved)
      && forall i :: 0 <= i < |d.systems| && Sys.Declared(d.systems[i]) && e !in d.systems[i].entities.value
           ==> e !in f.systems[i].entities.value
  {
  }

  // ---------------------------------------------------------------------------
  // The scheduler as the C code runs it

  /** `g_lists` and the entities, beside the system table of module System. */
  class World {
    const table: Sys.SystemTable
    var lists: map<ListId, seq<EntityId>>
    var entities: map<EntityId, Entity>

    function Snap(): Snapshot
      reads this, table, table.slots
      requires table.slots != null
    {
      Snapshot(lists, entities, table.slots[..])
    }

    /** `a_ecs__init`: every list is created empty. */
    constructor (table: Sys.SystemTable)
      ensures this.table == table && entities == map[]
      ensures Complete(lists) && forall l: ListId :: lists[l] == []
      ensures OneList(lists, entities)
    {
      this.table := table;
      var empty := map[New := [], Restore := [], Default := [], MutedQueue := [], RemovedQueue := [],
                       RemovedLimbo := [], RemovedFree := []];
      forall l: ListId ensures l in empty && empty[l] == [] {
        match l
        case New =>
        case Restore =>
        case Default =>
        case MutedQueue =>
        case RemovedQueue =>
        case RemovedLimbo =>
        case RemovedFree =>
      }
      lists := empty;
      entities := map[];
    }

    /** `a_ecs__entityIsInList`: whether the entity's node belongs to the list. */
    method IsInList(e: EntityId, l: ListId) returns (b: bool)
      requires e in entities
      ensures b <==> entities[e].list == l
      ensures OneList(lists, entities) ==> (b <==> e in lists[l])
    {
      b := entities[e].list == l;
    }

    /** `a_ecs__entityAddToList`: appends the entity to the list and points its node there;
        any node it had elsewhere stays where it was. */
    method AddToList(e: EntityId, l: ListId)
      requires e in entities && Complete(lists)
      modifies this
      ensures lists == old(lists)[l := old(lists)[l] + [e]]
      ensures entities == old(entities)[e := old(entities)[e].(list := l)]
    {
      lists := lists[l := lists[l] + [e]];
      entities := entities[e := entities[e].(list := l)];
    }

    /** `a_ecs__entityMoveToList`: unlinks the entity's node and appends it to the list. */
    method MoveToList(e: EntityId, l: ListId)
      requires OneList(lists, entities) && e in entities
      modifies this
      ensures lists == MovedLists(old(lists), old(entities), e, l)
      ensures entities == old(entities)[e := old(entities)[e].(list := l)]
      ensures OneList(lists, entities)
      ensures forall k: ListId :: e in lists[k] <==> k == l
    {
      var from := entities[e].list;
      ghost var before := lists;
      ghost var ents := entities;
      lists := lists[from := Minus(lists[from], [e])];
      lists := lists[l := lists[l] + [e]];
      entities := entities[e := entities[e].(list := l)];
      forall k: ListId ensures lists[k] == MovedList(before, from, e, l, k) {
      }
      ListsEqual(lists, MovedLists(before, ents, e, l));
      MoveKeepsOneList(before, ents, e, l);
    }

    /** `a_entity__removeFromAllSystems`: the entity leaves every system. */
    method RemoveFromAllSystems(e: EntityId)
      requires table.slots != null
      modifies table.slots
      ensures table.slots[..] == EvictAll(old(table.slots[..]), [e])
    {
      var slots := table.slots;
      forall i | 0 <= i < slots.Length {
        slots[i] := Evict(slots[i], [e]);
      }
    }

    /** `a_entity__removeFromActiveSystems`: the entity leaves the active-only systems
        and is flagged so that restoring it does not put it back there. */
    method RemoveFromActiveSystems(e: EntityId)
      requires table.slots != null && e in entities
      modifies this, table.slots
      ensures table.slots[..] == EvictActive(old(table.slots[..]), [e])
      ensures entities == old(entities)[e := old(entities)[e].(activeRemoved := true)]
      ensures lists == old(lists)
    {
      var slots := table.slots;
      forall i | 0 <= i < slots.Length {
        slots[i] := if slots[i].onlyActiveEntities then Evict(slots[i], [e]) else slots[i];
      }
      entities := entities[e := entities[e].(activeRemoved := true)];
    }

    /** `a_ecs__flushEntitiesFromSystems`, entity by entity: each muted entity leaves
        every system and is appended to the live list, each removed one leaves every
        system and is appended to the free list or limbo, then both queues are cleared. */
    method Flush()
      requires table.slots != null && OneList(lists, entities)
      modifies this, table.slots
      ensures Snap() == Flushed(old(Snap()))
    {
      ghost var w := Snap();
      OneListFlushable(lists, entities);
      FlushMuted(w);
      FlushRemoved(w);
      lists := lists[MutedQueue := []];
      lists := lists[RemovedQueue := []];
      FlushingDone(w);
    }

    /** The muted-queue loop of `a_ecs__flushEntitiesFromSystems`. */
    method FlushMuted(ghost w: Snapshot)
      requires table.slots != null && Flushable(w.lists, w.entities) && Snap() == w
      modifies this, table.slots
      ensures Snap() == Flushing(w, |w.lists[MutedQueue]|, 0)
    {
      FlushingStart(w);
      var muted := lists[MutedQueue];
      var i := 0;
      while i < |muted|
        invariant 0 <= i <= |muted| && muted == w.lists[MutedQueue]
        invariant Snap() == Flushing(w, i, 0)
      {
        var e := muted[i];
        MutedStep(w, i);
        RemoveFromAllSystems(e);
        AddToList(e, Default);
        i := i + 1;
      }
    }

    /** The removed-queue loop of `a_ecs__flushEntitiesFromSystems`. */
    method FlushRemoved(ghost w: Snapshot)
      requires table.slots != null && Flushable(w.lists, w.entities)
      requires Snap() == Flushing(w, |w.lists[MutedQueue]|, 0)
      modifies this, table.slots
      ensures Snap() == Flushing(w, |w.lists[MutedQueue]|, |w.lists[RemovedQueue]|)
    {
      var removed := lists[RemovedQueue];
      var j := 0;
      while j < |removed|
        invariant 0 <= j <= |removed| && removed == w.lists[RemovedQueue]
        invariant Snap() == Flushing(w, |w.lists[MutedQueue]|, j)
      {
        RemoveOne(w, j);
        j := j + 1;
      }
    }

    /** One pass of the removed-queue loop: the entity leaves every system and goes to
        the free list when nothing references it, to limbo otherwise. */
    method RemoveOne(ghost w: Snapshot, j: nat)
      requires table.slots != null && Flushable(w.lists, w.entities) && j < |w.lists[RemovedQueue]|
      requires Snap() == Flushing(w, |w.lists[MutedQueue]|, j)
      modifies this, table.slots
      ensures Snap() == Flushing(w, |w.lists[MutedQueue]|, j + 1)
    {
      var e := lists[RemovedQueue][j];
      RemovedStep(w, j);
      RemoveFromAllSystems(e);
      if entities[e].references == 0 {
        AddToList(e, RemovedFree);
      } else {
        AddToList(e, RemovedLimbo);
      }
    }

    /** `a_ecs__tick`: a flush, then the matching loop over the new entities, then the
        restore loop, then the new, restore and free lists are cleared and the freed
        entities dropped. */
    method Tick()
      requires table.slots != null && table.Valid() && Valid(Snap()) && MasksFit(Snap())
      modifies this, table.slots
      ensures Snap() == Ticked(old(Snap()))
    {
      ghost var w := Snap();
      FlushKeepsValid(w);
      FlushKeepsMasksFit(w);
      Flush();
      ghost var f := Snap();
      TickReady(f);
      MatchNew(f);
      RestoreAll(f);
      ClearLists(f);
      TickedUnfolds(w);
    }

    /** The end of `a_ecs__tick`: the new and restore lists are cleared, and the
        entities in the free list are dropped. */
    method ClearLists(ghost f: Snapshot)
      requires table.slots != null && Restorable(f)
      requires Snap() == Restoring(f, |f.lists[Restore] + f.lists[New]|)
      modifies this
      ensures Snap() == Snapshot(TickedLists(f), TickedEntities(f),
                                 JoinedSystems(f.systems, f.lists[Restore] + f.lists[New], MatchedEntities(f)))
    {
      var freed := lists[RemovedFree];
      entities := map x | x in entities && x !in freed :: entities[x];
      lists := lists[New := []][Restore := []][RemovedFree := []];
      TickingDone(f);
    }

    /** The matching loop of `a_ecs__tick`. */
    method MatchNew(ghost f: Snapshot)
      requires table.slots != null && table.Valid() && Snap() == f && Matchable(f)
      modifies this
      ensures Snap() == TickMatching(f, |f.lists[New]|)
    {
      TickMatchingStart(f);
      var newOnes := lists[New];
      var i := 0;
      while i < |newOnes|
        invariant 0 <= i <= |newOnes| && newOnes == f.lists[New]
        invariant Snap() == TickMatching(f, i)
      {
        MatchOne(f, i);
        i := i + 1;
      }
    }

    /** One pass of the matching loop: the entity records its matches and is queued
        for restoring. */
    method MatchOne(ghost f: Snapshot, i: nat)
      requires table.slots != null && table.Valid() && Matchable(f) && i < |f.lists[New]|
      requires Snap() == TickMatching(f, i)
      modifies this
      ensures Snap() == TickMatching(f, i + 1)
    {
      var e := lists[New][i];
      ghost var v := Snap();
      MatchStep(f, i);
      ghost var m := Match(v.entities[e], v.systems);
      ghost var m0 := m.(list := v.entities[e].list);
      MatchSystems(e);
      assert entities == v.entities[e := m0];
      AddToList(e, Restore);
      assert m0.(list := Restore) == m;
      UpdateTwice(v.entities, e, m0, m);
    }

    /** The countdown over the system table for one new entity: every system whose mask
        the entity's components cover is recorded, the active-only ones apart. */
    method MatchSystems(e: EntityId)
      requires table.slots != null && table.Valid() && e in entities
      requires forall i :: 0 <= i < table.slots.Length ==>
                 Sys.Declared(table.slots[i]) && |table.slots[i].componentBits| <= |entities[e].componentBits|
      modifies this
      ensures lists == old(lists)
      ensures var ent := old(entities)[e];
        entities == old(entities)[e := Match(ent, table.slots[..]).(list := ent.list)]
    {
      var ent := entities[e];
      var active, rest := Matches(ent.componentBits);
      entities := entities[e := ent.(matchingActive := ent.matchingActive + active,
                                     matchingRest := ent.matchingRest + rest)];
    }

    /** The scan over the system table, from the last system down, that picks the
        systems whose requirements `bits` covers. */
    method Matches(bits: seq<bv64>) returns (active: seq<nat>, rest: seq<nat>)
      requires table.slots != null && table.Valid()
      requires forall i :: 0 <= i < table.slots.Length ==>
                 Sys.Declared(table.slots[i]) && |table.slots[i].componentBits| <= |bits|
      ensures active == Matching(bits, table.slots[..], 0, true)
      ensures rest == Matching(bits, table.slots[..], 0, false)
    {
      ghost var systems := table.slots[..];
      active := [];
      rest := [];
      var id := table.tableLen;
      while id > 0
        invariant 0 <= id <= |systems|
        invariant active == Matching(bits, systems, id, true)
        invariant rest == Matching(bits, systems, id, false)
      {
        id := id - 1;
        var s := table.Get(id);
        assert s == systems[id];
        MatchingStep(bits, systems, id, true);
        MatchingStep(bits, systems, id, false);
        if Bitfield.Covers(bits, s.componentBits) {
          if s.onlyActiveEntities {
            active := active + [id];
          } else {
            rest := rest + [id];
          }
        }
      }
    }

    /** The restore loop of `a_ecs__tick`. */
    method RestoreAll(ghost f: Snapshot)
      requires table.slots != null && Restorable(f)
      requires Snap() == TickMatching(f, |f.lists[New]|)
      modifies this, table.slots
      ensures Snap() == Restoring(f, |f.lists[Restore] + f.lists[New]|)
    {
      RestoringStart(f);
      var restoring := lists[Restore];
      var k := 0;
      while k < |restoring|
        invariant 0 <= k <= |restoring| && restoring == f.lists[Restore] + f.lists[New]
        invariant Snap() == Restoring(f, k)
      {
        RestoreOne(f, k);
        k := k + 1;
      }
    }

    /** One pass of the restore loop: the entity joins its target systems and moves
        to the live list. */
    method RestoreOne(ghost f: Snapshot, k: nat)
      requires table.slots != null && Restorable(f) && k < |f.lists[Restore] + f.lists[New]|
      requires Snap() == Restoring(f, k)
      modifies this, table.slots
      ensures Snap() == Restoring(f, k + 1)
    {
      var e := lists[Restore][k];
      RestoreStep(f, k);
      JoinSystems(e);
      AddToList(e, Default);
    }

    /** One entity joins the systems it targets: its active-only matches unless it
        is flagged, then the rest, each at the end of the system's list. */
    method JoinSystems(e: EntityId)
      requires table.slots != null && e in entities
      requires forall t :: t in Targets(entities[e]) ==> t < table.slots.Length && Sys.Declared(table.slots[t])
      requires NoDup(Targets(entities[e]))
      modifies table.slots
      ensures table.slots[..] == Joined(old(table.slots[..]), e, Targets(entities[e]))
    {
      var targets := Targets(entities[e]);
      ghost var before := table.slots[..];
      var k := 0;
      while k < |targets|
        invariant 0 <= k <= |targets|
        invariant table.slots[..] == Joined(before, e, targets[..k])
      {
        var t := targets[k];
        assert t in targets;
        PrefixStep(targets, k);
        var s := table.slots[t];
        table.slots[t] := s.(entities := Some(s.entities.value + [e]));
        k := k + 1;
      }
      assert targets[..k] == targets;
    }

    /** `a_system_run`: the system's list is sorted when it has a comparator; the
        handler is called on each entity in turn, except that an active-only system
        evicts its inactive entities instead; then a flush. The calls made are
        returned, in order; what the handler itself does is not modelled. */
    method Run(index: int) returns (calls: seq<EntityId>)
      requires table.slots != null && table.Valid() && 0 <= index && CanRun(Snap(), index)
      modifies this, table.slots
      ensures calls == Calls(old(Snap()), index)
      ensures Snap() == Ran(old(Snap()), index)
    {
      ghost var w := Snap();
      var s := table.Get(index);
      var order := RunOrder(s);
      table.slots[index] := s.(entities := Some(order));
      MembersKnown(w, index);
      if s.onlyActiveEntities {
        calls := DispatchActive(w.entities, order);
      } else {
        DispatchStart(w.entities, table.slots[..]);
        calls := DispatchAll(order);
      }
      assert Snap() == Dispatched(w, index);
      DispatchedOneList(w, index);
      Flush();
    }

    /** The handler loop of `a_system_run` for an active-only system: an inactive
        entity is flagged and taken out of the active-only systems instead of being
        handed to the handler. */
    method DispatchActive(ghost ents: map<EntityId, Entity>, order: seq<EntityId>)
      returns (calls: seq<EntityId>)
      requires table.slots != null && entities == ents
      requires forall e :: e in order ==> e in ents
      modifies this, table.slots
      ensures calls == ByActivity(order, ents, true)
      ensures var idle := ByActivity(order, ents, false);
        && lists == old(lists) && entities == Deactivated(ents, idle)
        && table.slots[..] == EvictActive(old(table.slots[..]), idle)
    {
      ghost var sorted := table.slots[..];
      calls := [];
      ghost var idle: seq<EntityId> := [];
      DispatchStart(ents, sorted);
      var k := 0;
      while k < |order|
        invariant 0 <= k <= |order|
        invariant calls == ByActivity(order[..k], ents, true)
        invariant idle == ByActivity(order[..k], ents, false)
        invariant lists == old(lists) && entities == Deactivated(ents, idle)
        invariant table.slots[..] == EvictActive(sorted, idle)
      {
        var e := order[k];
        PrefixStep(order, k);
        assert e in order;
        ByActivityStep(order[..k], e, ents, true);
        ByActivityStep(order[..k], e, ents, false);
        if entities[e].active {
          calls := calls + [e];
        } else {
          SetAside(ents, sorted, idle, e);
          idle := idle + [e];
        }
        k := k + 1;
      }
      assert order[..k] == order;
    }

    /** An inactive entity met by the handler loop: one more entity flagged and
        evicted from the active-only systems. */
    method SetAside(ghost ents: map<EntityId, Entity>, ghost sorted: seq<Sys.System>,
                    ghost idle: seq<EntityId>, e: EntityId)
      requires table.slots != null && e in ents
      requires entities == Deactivated(ents, idle) && table.slots[..] == EvictActive(sorted, idle)
      modifies this, table.slots
      ensures lists == old(lists) && entities == Deactivated(ents, idle + [e])
      ensures table.slots[..] == EvictActive(sorted, idle + [e])
    {
      DeactivatedStep(ents, idle, e);
      EvictActiveTwice(sorted, idle, [e]);
      RemoveFromActiveSystems(e);
    }

    /** The handler loop of `a_system_run` for any other system: every entity is
        handed to the handler, in order. */
    method DispatchAll(order: seq<EntityId>) returns (calls: seq<EntityId>)
      ensures calls == order
    {
      calls := [];
      var k := 0;
      while k < |order|
        invariant 0 <= k <= |order| && calls == order[..k]
      {
        PrefixStep(order, k);
        calls := calls + [order[k]];
        k := k + 1;
      }
      assert order[..k] == order;
    }
  }

  /** What a flush needs: the queued entities exist and no entity is in both queues. */
  predicate Flushable(lists: map<ListId, seq<EntityId>>, ents: map<EntityId, Entity>)
  {
    && Complete(lists)
    && (forall x :: x in lists[MutedQueue] ==> x in ents)
    && (forall x :: x in lists[RemovedQueue] ==> x in ents && x !in lists[MutedQueue])
  }

  lemma OneListFlushable(lists: map<ListId, seq<EntityId>>, ents: map<EntityId, Entity>)
    requires OneList(lists, ents)
    ensures Flushable(lists, ents)
  {
    Disjoint(lists, ents, RemovedQueue, MutedQueue);
  }

  /** List `l` part-way through a flush: the first `m` muted and the first `r` removed
      entities have been handled, and the queues are not cleared yet. */
  function FlushingList(lists: map<ListId, seq<EntityId>>, ents: map<EntityId, Entity>, m: nat, r: nat,
                        l: ListId): seq<EntityId>
    requires Flushable(lists, ents) && m <= |lists[MutedQueue]| && r <= |lists[RemovedQueue]|
  {
    match l
    case Default => lists[Default] + lists[MutedQueue][..m]
    case RemovedFree => lists[RemovedFree] + Bound(lists[RemovedQueue][..r], ents, RemovedFree)
    case RemovedLimbo => lists[RemovedLimbo] + Bound(lists[RemovedQueue][..r], ents, RemovedLimbo)
    case _ => lists[l]
  }

  function FlushingLists(lists: map<ListId, seq<EntityId>>, ents: map<EntityId, Entity>, m: nat, r: nat):
    (v: map<ListId, seq<EntityId>>)
    requires Flushable(lists, ents) && m <= |lists[MutedQueue]| && r <= |lists[RemovedQueue]|
    ensures Complete(v) && forall l: ListId :: v[l] == FlushingList(lists, ents, m, r, l)
  {
    map l: ListId | l in lists :: FlushingList(lists, ents, m, r, l)
  }

  /** The list entity `x` records part-way through a flush. */
  function FlushingListOf(lists: map<ListId, seq<EntityId>>, ents: map<EntityId, Entity>, m: nat, r: nat,
                          x: EntityId): ListId
    requires Complete(lists) && m <= |lists[MutedQueue]| && r <= |lists[RemovedQueue]| && x in ents
  {
    if x in lists[MutedQueue][..m] then Default
    else if x in lists[RemovedQueue][..r] then Destination(ents[x])
    else ents[x].list
  }

  function FlushingEntities(lists: map<ListId, seq<EntityId>>, ents: map<EntityId, Entity>, m: nat, r: nat):
    (v: map<EntityId, Entity>)
    requires Complete(lists) && m <= |lists[MutedQueue]| && r <= |lists[RemovedQueue]|
    ensures v.Keys == ents.Keys
    ensures forall x :: x in v ==> v[x] == ents[x].(list := FlushingListOf(lists, ents, m, r, x))
  {
    map x | x in ents :: ents[x].(list := FlushingListOf(lists, ents, m, r, x))
  }

  /** The state part-way through a flush from `w`. */
  function Flushing(w: Snapshot, m: nat, r: nat): Snapshot
    requires Flushable(w.lists, w.entities) && m <= |w.lists[MutedQueue]| && r <= |w.lists[RemovedQueue]|
  {
    Snapshot(FlushingLists(w.lists, w.entities, m, r),
             FlushingEntities(w.lists, w.entities, m, r),
             EvictAll(w.systems, w.lists[MutedQueue][..m] + w.lists[RemovedQueue][..r]))
  }

  lemma ListsEqual(a: map<ListId, seq<EntityId>>, b: map<ListId, seq<EntityId>>)
    requires Complete(a) && Complete(b) && forall l: ListId :: a[l] == b[l]
    ensures a == b
  {
    assert a.Keys == b.Keys;
  }

  lemma EntitiesEqual(a: map<EntityId, Entity>, b: map<EntityId, Entity>)
    requires a.Keys == b.Keys && forall x :: x in a ==> a[x] == b[x]
    ensures a == b
  {
  }

  lemma FlushingStart(w: Snapshot)
    requires Flushable(w.lists, w.entities)
    ensures Flushing(w, 0, 0) == w
  {
    var v := Flushing(w, 0, 0);
    forall l: ListId ensures v.lists[l] == w.lists[l] {
      assert w.lists[l] + [] == w.lists[l];
    }
    ListsEqual(v.lists, w.lists);
    EntitiesEqual(v.entities, w.entities);
    assert w.lists[MutedQueue][..0] + w.lists[RemovedQueue][..0] == [];
    forall i | 0 <= i < |w.systems| ensures v.systems[i] == w.systems[i] {
    }
  }

  lemma MutedListsStep(lists: map<ListId, seq<EntityId>>, ents: map<EntityId, Entity>, m: nat)
    requires Flushable(lists, ents) && m < |lists[MutedQueue]|
    ensures var v := FlushingLists(lists, ents, m, 0);
      v[Default := v[Default] + [lists[MutedQueue][m]]] == FlushingLists(lists, ents, m + 1, 0)
  {
    var v := FlushingLists(lists, ents, m, 0);
    var muted := lists[MutedQueue];
    assert muted[..m + 1] == muted[..m] + [muted[m]];
    ListsEqual(v[Default := v[Default] + [muted[m]]], FlushingLists(lists, ents, m + 1, 0));
  }

  lemma MutedEntitiesStep(lists: map<ListId, seq<EntityId>>, ents: map<EntityId, Entity>, m: nat)
    requires Complete(lists) && m < |lists[MutedQueue]| && lists[MutedQueue][m] in ents
    ensures var v := FlushingEntities(lists, ents, m, 0); var e := lists[MutedQueue][m];
      v[e := v[e].(list := Default)] == FlushingEntities(lists, ents, m + 1, 0)
  {
    var muted := lists[MutedQueue];
    assert muted[..m + 1] == muted[..m] + [muted[m]];
    var v := FlushingEntities(lists, ents, m, 0);
    EntitiesEqual(v[muted[m] := v[muted[m]].(list := Default)], FlushingEntities(lists, ents, m + 1, 0));
  }

  /** Handling the next muted entity: it leaves every system and joins the live list. */
  lemma MutedStep(w: Snapshot, m: nat)
    requires Flushable(w.lists, w.entities) && m < |w.lists[MutedQueue]|
    ensures var v := Flushing(w, m, 0); var e := w.lists[MutedQueue][m];
      && e in v.entities
      && Snapshot(v.lists[Default := v.lists[Default] + [e]], v.entities[e := v.entities[e].(list := Default)],
                  EvictAll(v.systems, [e])) == Flushing(w, m + 1, 0)
  {
    var muted := w.lists[MutedQueue];
    assert muted[m] in muted;
    assert muted[..m] + w.lists[RemovedQueue][..0] + [muted[m]] == muted[..m + 1] + w.lists[RemovedQueue][..0];
    EvictAllTwice(w.systems, muted[..m] + w.lists[RemovedQueue][..0], [muted[m]]);
    MutedListsStep(w.lists, w.entities, m);
    MutedEntitiesStep(w.lists, w.entities, m);
  }

  lemma BoundStep(moved: seq<EntityId>, ents: map<EntityId, Entity>, to: ListId, k: nat)
    requires k < |moved| && forall x :: x in moved ==> x in ents
    ensures Bound(moved[..k + 1], ents, to)
            == Bound(moved[..k], ents, to) + (if Destination(ents[moved[k]]) == to then [moved[k]] else [])
  {
    assert moved[..k + 1][..k] == moved[..k];
  }

  lemma RemovedListsStep(lists: map<ListId, seq<EntityId>>, ents: map<EntityId, Entity>, r: nat)
    requires Flushable(lists, ents) && r < |lists[RemovedQueue]|
    ensures var e := lists[RemovedQueue][r];
      && e in ents
      && var v := FlushingLists(lists, ents, |lists[MutedQueue]|, r); var to := Destination(ents[e]);
      v[to := v[to] + [e]] == FlushingLists(lists, ents, |lists[MutedQueue]|, r + 1)
  {
    var removed := lists[RemovedQueue];
    var e := removed[r];
    assert e in removed;
    var m := |lists[MutedQueue]|;
    var v := FlushingLists(lists, ents, m, r);
    var u := FlushingLists(lists, ents, m, r + 1);
    var to := Destination(ents[e]);
    forall l: ListId ensures v[to := v[to] + [e]][l] == u[l] {
      RemovedListStep(lists, ents, r, l);
    }
    ListsEqual(v[to := v[to] + [e]], u);
  }

  lemma RemovedListStep(lists: map<ListId, seq<EntityId>>, ents: map<EntityId, Entity>, r: nat, l: ListId)
    requires Flushable(lists, ents) && r < |lists[RemovedQueue]|
    ensures var e := lists[RemovedQueue][r];
      && e in ents
      && FlushingList(lists, ents, |lists[MutedQueue]|, r + 1, l)
         == FlushingList(lists, ents, |lists[MutedQueue]|, r, l) + (if Destination(ents[e]) == l then [e] else [])
  {
    var removed := lists[RemovedQueue];
    var m := |lists[MutedQueue]|;
    var e := removed[r];
    assert e in removed;
    if l == RemovedFree || l == RemovedLimbo {
      BoundListStep(lists, ents, r, l);
    } else {
      assert Destination(ents[e]) != l;
      assert FlushingList(lists, ents, m, r + 1, l) == FlushingList(lists, ents, m, r, l);
    }
  }

  lemma BoundListStep(lists: map<ListId, seq<EntityId>>, ents: map<EntityId, Entity>, r: nat, l: ListId)
    requires Flushable(lists, ents) && r < |lists[RemovedQueue]| && (l == RemovedFree || l == RemovedLimbo)
    ensures var m := |lists[MutedQueue]|; var e := lists[RemovedQueue][r];
      FlushingList(lists, ents, m, r + 1, l)
      == FlushingList(lists, ents, m, r, l) + (if Destination(ents[e]) == l then [e] else [])
  {
    var removed := lists[RemovedQueue];
    var m := |lists[MutedQueue]|;
    assert FlushingList(lists, ents, m, r + 1, l) == lists[l] + Bound(removed[..r + 1], ents, l);
    assert FlushingList(lists, ents, m, r, l) == lists[l] + Bound(removed[..r], ents, l);
    BoundAppendStep(lists[l], removed, ents, l, r);
  }

  /** One more moved entity extends a list that already holds the bound prefix. */
  lemma BoundAppendStep(base: seq<EntityId>, moved: seq<EntityId>, ents: map<EntityId, Entity>, to: ListId, k: nat)
    requires k < |moved| && forall x :: x in moved ==> x in ents
    ensures base + Bound(moved[..k + 1], ents, to)
            == base + Bound(moved[..k], ents, to) + (if Destination(ents[moved[k]]) == to then [moved[k]] else [])
  {
    BoundStep(moved, ents, to, k);
    AppendAssoc(base, Bound(moved[..k], ents, to), if Destination(ents[moved[k]]) == to then [moved[k]] else []);
  }

  lemma PrefixStep<T>(s: seq<T>, k: nat)
    requires k < |s|
    ensures s[..k + 1] == s[..k] + [s[k]]
  {
  }

  lemma AppendAssoc(a: seq<EntityId>, b: seq<EntityId>, c: seq<EntityId>)
    ensures a + (b + c) == (a + b) + c
  {
  }

  lemma RemovedEntitiesStep(lists: map<ListId, seq<EntityId>>, ents: map<EntityId, Entity>, r: nat)
    requires Flushable(lists, ents) && r < |lists[RemovedQueue]|
    ensures var e := lists[RemovedQueue][r];
      && e in ents
      && var v := FlushingEntities(lists, ents, |lists[MutedQueue]|, r);
      v[e := v[e].(list := Destination(ents[e]))] == FlushingEntities(lists, ents, |lists[MutedQueue]|, r + 1)
  {
    var removed := lists[RemovedQueue];
    var muted := lists[MutedQueue];
    var e := removed[r];
    assert e in removed;
    assert removed[..r + 1] == removed[..r] + [e];
    assert muted[..|muted|] == muted;
    var v := FlushingEntities(lists, ents, |muted|, r);
    EntitiesEqual(v[e := v[e].(list := Destination(ents[e]))], FlushingEntities(lists, ents, |muted|, r + 1));
  }

  /** Handling the next removed entity: it leaves every system and joins the free list
      or limbo by its reference count. */
  lemma RemovedStep(w: Snapshot, r: nat)
    requires Flushable(w.lists, w.entities) && r < |w.lists[RemovedQueue]|
    ensures var v := Flushing(w, |w.lists[MutedQueue]|, r); var e := w.lists[RemovedQueue][r];
      && e in v.entities
      && var to := if v.entities[e].references == 0 then RemovedFree else RemovedLimbo;
      Snapshot(v.lists[to := v.lists[to] + [e]], v.entities[e := v.entities[e].(list := to)],
               EvictAll(v.systems, [e])) == Flushing(w, |w.lists[MutedQueue]|, r + 1)
  {
    var muted := w.lists[MutedQueue];
    var removed := w.lists[RemovedQueue];
    assert removed[..r + 1] == removed[..r] + [removed[r]];
    assert muted[..|muted|] + removed[..r] + [removed[r]] == muted[..|muted|] + removed[..r + 1];
    EvictAllTwice(w.systems, muted[..|muted|] + removed[..r], [removed[r]]);
    RemovedListsStep(w.lists, w.entities, r);
    RemovedEntitiesStep(w.lists, w.entities, r);
  }

  /** Once both queues are handled and cleared the state is the flushed one. */
  lemma FlushingDone(w: Snapshot)
    requires Flushable(w.lists, w.entities)
    ensures var v := Flushing(w, |w.lists[MutedQueue]|, |w.lists[RemovedQueue]|);
      Snapshot(v.lists[MutedQueue := []][RemovedQueue := []], v.entities, v.systems) == Flushed(w)
  {
    var muted := w.lists[MutedQueue];
    var removed := w.lists[RemovedQueue];
    assert muted[..|muted|] == muted && removed[..|removed|] == removed;
    var v := Flushing(w, |muted|, |removed|);
    ListsEqual(v.lists[MutedQueue := []][RemovedQueue := []], FlushedLists(w));
    EntitiesEqual(v.entities, FlushedEntities(w));
  }

  /** The systems after entity `e` is appended to each system of `targets`. */
  function Joined(systems: seq<Sys.System>, e: EntityId, targets: seq<nat>): (r: seq<Sys.System>)
    ensures |r| == |systems|
  {
    seq(|systems|, i requires 0 <= i < |systems| =>
      if i in targets && Sys.Declared(systems[i]) then systems[i].(entities := Some(systems[i].entities.value + [e])) else systems[i])
  }

  /** The entities part-way through the matching loop from the flushed state `f`: the
      first `i` new entities have their matches and are queued for restoring. */
  function MatchedUpTo(f: Snapshot, i: nat): (r: map<EntityId, Entity>)
    requires Complete(f.lists) && MasksFit(f) && i <= |f.lists[New]|
    ensures r.Keys == f.entities.Keys
    ensures forall x :: x in r ==> r[x] == if x in f.lists[New][..i] then MatchedEntities(f)[x] else f.entities[x]
  {
    map x | x in f.entities :: if x in f.lists[New][..i] then MatchedEntities(f)[x] else f.entities[x]
  }

  function TickMatching(f: Snapshot, i: nat): Snapshot
    requires Complete(f.lists) && MasksFit(f) && i <= |f.lists[New]|
  {
    Snapshot(f.lists[Restore := f.lists[Restore] + f.lists[New][..i]], MatchedUpTo(f, i), f.systems)
  }

  lemma TickMatchingStart(f: Snapshot)
    requires Complete(f.lists) && MasksFit(f)
    ensures TickMatching(f, 0) == f
  {
    var v := TickMatching(f, 0);
    assert f.lists[Restore] + f.lists[New][..0] == f.lists[Restore];
    ListsEqual(v.lists, f.lists);
    EntitiesEqual(v.entities, f.entities);
  }

  /** Matching the next new entity. */
  lemma MatchStep(f: Snapshot, i: nat)
    requires Matchable(f) && i < |f.lists[New]|
    ensures var v := TickMatching(f, i); var e := f.lists[New][i];
      && e in v.entities && v.entities[e] == f.entities[e]
      && (forall j :: 0 <= j < |v.systems| ==>
            Sys.Declared(v.systems[j]) && |v.systems[j].componentBits| <= |v.entities[e].componentBits|)
      && Snapshot(v.lists[Restore := v.lists[Restore] + [e]], v.entities[e := Match(v.entities[e], v.systems)],
                  v.systems) == TickMatching(f, i + 1)
  {
    var newOnes := f.lists[New];
    var e := newOnes[i];
    assert e in newOnes;
    assert newOnes[..i + 1] == newOnes[..i] + [e];
    assert e !in newOnes[..i] by {
      forall j | 0 <= j < i ensures newOnes[..i][j] != e {
      }
    }
    MatchListsStep(f, i);
    MatchEntitiesStep(f, i);
  }

  lemma MatchListsStep(f: Snapshot, i: nat)
    requires Matchable(f) && i < |f.lists[New]|
    ensures var v := TickMatching(f, i);
      v.lists[Restore := v.lists[Restore] + [f.lists[New][i]]] == TickMatching(f, i + 1).lists
  {
    var newOnes := f.lists[New];
    assert newOnes[..i + 1] == newOnes[..i] + [newOnes[i]];
    var v := TickMatching(f, i);
    ListsEqual(v.lists[Restore := v.lists[Restore] + [newOnes[i]]], TickMatching(f, i + 1).lists);
  }

  lemma MatchEntitiesStep(f: Snapshot, i: nat)
    requires Matchable(f) && i < |f.lists[New]|
    requires f.lists[New][i] !in f.lists[New][..i]
    ensures var v := MatchedUpTo(f, i); var e := f.lists[New][i];
      e in v && v[e := Match(v[e], f.systems)] == MatchedUpTo(f, i + 1)
  {
    var newOnes := f.lists[New];
    var e := newOnes[i];
    assert e in newOnes;
    assert newOnes[..i + 1] == newOnes[..i] + [e];
    var v := MatchedUpTo(f, i);
    EntitiesEqual(v[e := Match(v[e], f.systems)], MatchedUpTo(f, i + 1));
  }

  /** What the matching loop needs of the flushed state. */
  predicate Matchable(f: Snapshot)
  {
    && Complete(f.lists) && MasksFit(f) && NoDup(f.lists[New])
    && forall x :: x in f.lists[New] ==> x in f.entities
  }

  /** The systems an entity targets exist and are declared, and it targets each once. */
  predicate TargetsSane(ent: Entity, systems: seq<Sys.System>)
  {
    && (forall t :: t in Targets(ent) ==> t < |systems| && Sys.Declared(systems[t]))
    && NoDup(Targets(ent))
  }

  /** What the restore loop needs of the flushed state. */
  predicate Restorable(f: Snapshot)
  {
    && Matchable(f)
    && NoDup(f.lists[Restore] + f.lists[New])
    && (forall x :: x in f.lists[Restore] ==> x in f.entities)
    && forall x :: x in f.lists[Restore] + f.lists[New] ==> TargetsSane(MatchedEntities(f)[x], f.systems)
  }

  lemma TickReady(f: Snapshot)
    requires Valid(f) && MasksFit(f)
    ensures Matchable(f) && Restorable(f)
  {
    RestoringNoDup(f);
    forall x | x in f.lists[Restore] + f.lists[New] ensures TargetsSane(MatchedEntities(f)[x], f.systems) {
      RestoringTargets(f, x);
    }
  }

  /** The entities part-way through the restore loop: the first `k` of `restoring`
      are live. */
  function RestoredUpTo(f: Snapshot, k: nat): (r: map<EntityId, Entity>)
    requires Restorable(f) && k <= |f.lists[Restore] + f.lists[New]|
    ensures r.Keys == f.entities.Keys
    ensures forall x :: x in r ==>
              r[x] == if x in (f.lists[Restore] + f.lists[New])[..k] then MatchedEntities(f)[x].(list := Default)
                      else MatchedEntities(f)[x]
  {
    var restoring := f.lists[Restore] + f.lists[New];
    map x | x in f.entities ::
      if x in restoring[..k] then MatchedEntities(f)[x].(list := Default) else MatchedEntities(f)[x]
  }

  function Restoring(f: Snapshot, k: nat): Snapshot
    requires Restorable(f) && k <= |f.lists[Restore] + f.lists[New]|
  {
    var restoring := f.lists[Restore] + f.lists[New];
    Snapshot(f.lists[Restore := restoring][Default := f.lists[Default] + restoring[..k]],
             RestoredUpTo(f, k),
             JoinedSystems(f.systems, restoring[..k], MatchedEntities(f)))
  }

  lemma RestoringStart(f: Snapshot)
    requires Restorable(f)
    ensures Restoring(f, 0) == TickMatching(f, |f.lists[New]|)
  {
    var restoring := f.lists[Restore] + f.lists[New];
    var v := Restoring(f, 0);
    var u := TickMatching(f, |f.lists[New]|);
    assert f.lists[New][..|f.lists[New]|] == f.lists[New];
    assert f.lists[Default] + restoring[..0] == f.lists[Default];
    ListsEqual(v.lists, u.lists);
    EntitiesEqual(v.entities, u.entities);
    forall j | 0 <= j < |f.systems| ensures v.systems[j] == f.systems[j] {
      if Sys.Declared(f.systems[j]) {
        assert f.systems[j].entities.value + [] == f.systems[j].entities.value;
      }
    }
  }

  lemma NoDupSuffix<T>(a: seq<T>, b: seq<T>)
    requires NoDup(a + b)
    ensures NoDup(b)
  {
    forall i, j | 0 <= i < j < |b| ensures b[i] != b[j] {
      assert (a + b)[|a| + i] == b[i] && (a + b)[|a| + j] == b[j];
    }
  }

  /** Every entity the restore loop visits targets declared systems, each once. */
  lemma RestoringTargets(f: Snapshot, e: EntityId)
    requires Valid(f) && MasksFit(f) && e in f.lists[Restore] + f.lists[New]
    ensures e in MatchedEntities(f)
    ensures forall t :: t in Targets(MatchedEntities(f)[e]) ==> t < |f.systems| && Sys.Declared(f.systems[t])
    ensures NoDup(Targets(MatchedEntities(f)[e]))
  {
    var ent := f.entities[e];
    assert EntityMatchesSane(ent, f.systems);
    var m := MatchedEntities(f)[e];
    if e in f.lists[New] {
      assert ent.list == New;
      MatchFresh(ent, f.systems);
    }
    assert EntityMatchesSane(m.(list := Default), f.systems);
    if m.activeRemoved {
      NoDupSuffix(m.matchingActive, m.matchingRest);
      assert Targets(m) == m.matchingRest;
    } else {
      assert Targets(m) == m.matchingActive + m.matchingRest;
    }
  }

  /** The restore list and the new list share no entity, so together each entity
      appears once. */
  lemma RestoringNoDup(f: Snapshot)
    requires Valid(f)
    ensures NoDup(f.lists[Restore] + f.lists[New])
  {
    Disjoint(f.lists, f.entities, Restore, New);
    NoDupAppend(f.lists[Restore], f.lists[New]);
  }

  lemma JoiningStep(front: seq<EntityId>, e: EntityId, ents: map<EntityId, Entity>, id: nat)
    requires e in ents && forall x :: x in front ==> x in ents
    ensures Joining(front + [e], ents, id) == Joining(front, ents, id) + (if id in Targets(ents[e]) then [e] else [])
  {
    assert (front + [e])[..|front|] == front;
  }

  lemma JoinedStep(systems: seq<Sys.System>, front: seq<EntityId>, e: EntityId, ents: map<EntityId, Entity>)
    requires e in ents && forall x :: x in front ==> x in ents
    requires forall t :: t in Targets(ents[e]) ==> t < |systems| && Sys.Declared(systems[t])
    ensures Joined(JoinedSystems(systems, front, ents), e, Targets(ents[e])) == JoinedSystems(systems, front + [e], ents)
  {
    var targets := Targets(ents[e]);
    var before := JoinedSystems(systems, front, ents);
    var a := Joined(before, e, targets);
    var b := JoinedSystems(systems, front + [e], ents);
    assert |a| == |b|;
    forall j | 0 <= j < |systems| ensures a[j] == b[j] {
      JoiningStep(front, e, ents, j);
      if Sys.Declared(systems[j]) {
        var members := systems[j].entities.value;
        var joining := Joining(front, ents, j);
        assert before[j] == systems[j].(entities := Some(members + joining));
        assert b[j] == systems[j].(entities := Some(members + Joining(front + [e], ents, j)));
        if j in targets {
          assert members + joining + [e] == members + (joining + [e]);
          assert a[j] == systems[j].(entities := Some(members + (joining + [e])));
        } else {
          assert Joining(front + [e], ents, j) == joining;
          assert a[j] == before[j];
        }
      } else {
        assert j !in targets;
        assert a[j] == systems[j] && b[j] == systems[j];
      }
    }
  }

  /** Restoring the next entity. */
  lemma RestoreStep(f: Snapshot, k: nat)
    requires Restorable(f) && k < |f.lists[Restore] + f.lists[New]|
    ensures var v := Restoring(f, k); var e := (f.lists[Restore] + f.lists[New])[k];
      && e in v.entities
      && (forall t :: t in Targets(v.entities[e]) ==> t < |v.systems| && Sys.Declared(v.systems[t]))
      && NoDup(Targets(v.entities[e]))
      && Snapshot(v.lists[Default := v.lists[Default] + [e]], v.entities[e := v.entities[e].(list := Default)],
                  Joined(v.systems, e, Targets(v.entities[e]))) == Restoring(f, k + 1)
  {
    var restoring := f.lists[Restore] + f.lists[New];
    var e := restoring[k];
    assert e in restoring;
    assert restoring[..k + 1] == restoring[..k] + [e];
    assert e !in restoring[..k] by {
      forall j | 0 <= j < k ensures restoring[..k][j] != e {
      }
    }
    var M := MatchedEntities(f);
    var v := Restoring(f, k);
    assert v.entities[e] == M[e];
    assert TargetsSane(M[e], f.systems);
    RestoreListsStep(f, k);
    RestoreEntitiesStep(f, k);
    JoinedStep(f.systems, restoring[..k], e, M);
    assert SameShape(f.systems, v.systems);
  }

  lemma RestoreListsStep(f: Snapshot, k: nat)
    requires Restorable(f) && k < |f.lists[Restore] + f.lists[New]|
    ensures var v := Restoring(f, k); var e := (f.lists[Restore] + f.lists[New])[k];
      v.lists[Default := v.lists[Default] + [e]] == Restoring(f, k + 1).lists
  {
    var restoring := f.lists[Restore] + f.lists[New];
    assert restoring[..k + 1] == restoring[..k] + [restoring[k]];
    var v := Restoring(f, k);
    ListsEqual(v.lists[Default := v.lists[Default] + [restoring[k]]], Restoring(f, k + 1).lists);
  }

  lemma RestoreEntitiesStep(f: Snapshot, k: nat)
    requires Restorable(f) && k < |f.lists[Restore] + f.lists[New]|
    ensures var v := RestoredUpTo(f, k); var e := (f.lists[Restore] + f.lists[New])[k];
      e in v && v[e := v[e].(list := Default)] == RestoredUpTo(f, k + 1)
  {
    var restoring := f.lists[Restore] + f.lists[New];
    var e := restoring[k];
    assert e in restoring;
    assert restoring[..k + 1] == restoring[..k] + [e];
    var v := RestoredUpTo(f, k);
    EntitiesEqual(v[e := v[e].(list := Default)], RestoredUpTo(f, k + 1));
  }

  /** Once every entity is restored and the lists cleared, the state is the ticked one. */
  lemma TickedUnfolds(w: Snapshot)
    requires Valid(w) && MasksFit(w)
    ensures var f := Flushed(w);
      Ticked(w) == Snapshot(TickedLists(f), TickedEntities(f),
                            JoinedSystems(f.systems, f.lists[Restore] + f.lists[New], MatchedEntities(f)))
  {
  }

  lemma TickingDone(f: Snapshot)
    requires Restorable(f)
    ensures var v := Restoring(f, |f.lists[Restore] + f.lists[New]|);
      && v.lists[New := []][Restore := []][RemovedFree := []] == TickedLists(f)
      && (map x | x in v.entities && x !in v.lists[RemovedFree] :: v.entities[x]) == TickedEntities(f)
      && v.systems == JoinedSystems(f.systems, f.lists[Restore] + f.lists[New], MatchedEntities(f))
  {
    var restoring := f.lists[Restore] + f.lists[New];
    assert restoring[..|restoring|] == restoring;
    var v := Restoring(f, |restoring|);
    ListsEqual(v.lists[New := []][Restore := []][RemovedFree := []], TickedLists(f));
    var kept := map x | x in v.entities && x !in v.lists[RemovedFree] :: v.entities[x];
    forall x | x in kept ensures kept[x] == TickedEntities(f)[x] {
      if x !in restoring {
        assert x !in f.lists[New];
      }
    }
    EntitiesEqual(kept, TickedEntities(f));
  }

  lemma DispatchStart(ents: map<EntityId, Entity>, systems: seq<Sys.System>)
    ensures Deactivated(ents, []) == ents && EvictActive(systems, []) == systems
  {
    EntitiesEqual(Deactivated(ents, []), ents);
    forall i | 0 <= i < |systems| ensures EvictActive(systems, [])[i] == systems[i] {
    }
  }

  lemma ByActivityStep(front: seq<EntityId>, e: EntityId, ents: map<EntityId, Entity>, active: bool)
    requires e in ents && forall x :: x in front ==> x in ents
    ensures ByActivity(front + [e], ents, active)
            == ByActivity(front, ents, active) + (if ents[e].active == active then [e] else [])
  {
    assert (front + [e])[..|front|] == front;
  }

  lemma DeactivatedStep(ents: map<EntityId, Entity>, idle: seq<EntityId>, e: EntityId)
    requires e in ents
    ensures Deactivated(ents, idle)[e := Deactivated(ents, idle)[e].(activeRemoved := true)]
            == Deactivated(ents, idle + [e])
  {
    EntitiesEqual(Deactivated(ents, idle)[e := Deactivated(ents, idle)[e].(activeRemoved := true)],
                  Deactivated(ents, idle + [e]));
  }
}
