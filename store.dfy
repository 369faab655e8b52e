/**
 * The parameter store.  A UUIDContainer maps ids to `{uuid, Container}` entries;
 * a ReferenceObject keeps one mutable `{value}` cell per id in such a container
 * and pre-registers eight constants.  A cell object is represented by its id:
 * everything that the source does through the cell (reading or overwriting
 * `.value`) is done here through the id.
 */
module Store {
  import opened Wrappers
  import opened Numbers

  type Id = string

  datatype Entry<T> = Entry(uuid: Id, container: T)

  /** The id generator never repeats itself. */
  ghost predicate Injective(gen: nat -> Id) {
    forall i: nat, j: nat :: i != j ==> gen(i) != gen(j)
  }

  /** Among |keys| + 1 consecutive draws of an injective generator, one misses `keys`. */
  lemma {:induction false} FreshDraw(gen: nat -> Id, keys: set<Id>, from: nat) returns (n: nat)
    requires Injective(gen)
    ensures from <= n <= from + |keys| && gen(n) !in keys
    decreases |keys|
  {
    if gen(from) !in keys {
      n := from;
    } else {
      n := FreshDraw(gen, keys - {gen(from)}, from + 1);
      assert gen(n) != gen(from);
    }
  }

  /**
   * UUIDContainer: the generator is a stream of ids, of which `draws` have been
   * used so far; `uuids` is the dictionary.
   */
  class UUIDContainer<T> {
    const gen: nat -> Id
    var draws: nat
    var uuids: map<Id, Entry<T>>

    /** Every entry records the id it is stored under. */
    ghost predicate Valid()
      reads this
    {
      forall id | id in uuids :: uuids[id].uuid == id
    }

    /** Some future draw of the generator is an id not in use (what makes `add` terminate). */
    ghost predicate CanDrawFresh()
      reads this
    {
      exists n: nat :: draws <= n && gen(n) !in uuids
    }

    constructor (gen: nat -> Id)
      ensures Valid() && this.gen == gen && draws == 0 && uuids == map[]
    {
      this.gen := gen;
      draws := 0;
      uuids := map[];
    }

    /** add: draws ids until one is not in use, and stores the object under it. */
    method Add(obj: T) returns (id: Id)
      requires Valid() && CanDrawFresh()
      modifies this
      ensures Valid()
      ensures old(draws) < draws && id == gen(draws - 1) && id !in old(uuids)
      ensures forall k: nat | old(draws) <= k < draws - 1 :: gen(k) in old(uuids)
      ensures uuids == old(uuids)[id := Entry(id, obj)]
    {
      ghost var w: nat :| draws <= w && gen(w) !in uuids;
      id := gen(draws);
      draws := draws + 1;
      while id in uuids
        invariant old(draws) < draws <= w + 1 && id == gen(draws - 1)
        invariant forall k: nat | old(draws) <= k < draws - 1 :: gen(k) in uuids
        invariant uuids == old(uuids)
        decreases w + 1 - draws
      {
        id := gen(draws);
        draws := draws + 1;
      }
      uuids := uuids[id := Entry(id, obj)];
    }

    /** get: the entry stored under `uuid`, or nothing (undefined). */
    function Get(uuid: Id): (r: Option<Entry<T>>)
      reads this
      ensures r.Some? <==> uuid in uuids
      ensures r.Some? ==> r.value == uuids[uuid]
    {
      if uuid in uuids then Some(uuids[uuid]) else None
    }

    /** remove: deletes the entry and returns it (undefined when there was none). */
    method Remove(uuid: Id) returns (obj: Option<Entry<T>>)
      requires Valid()
      modifies this
      ensures Valid()
      ensures obj == old(Get(uuid)) && Get(uuid) == None
      ensures uuids == old(uuids) - {uuid} && draws == old(draws)
    {
      obj := Get(uuid);
      uuids := uuids - {uuid};
    }

    /** replace: stores `obj` under `uuid` (present or not) and returns the previous entry. */
    method Replace(uuid: Id, obj: T) returns (prev: Option<Entry<T>>)
      requires Valid()
      modifies this
      ensures Valid()
      ensures prev == old(Get(uuid)) && Get(uuid) == Some(Entry(uuid, obj))
      ensures uuids == old(uuids)[uuid := Entry(uuid, obj)] && draws == old(draws)
    {
      prev := Get(uuid);
      uuids := uuids[uuid := Entry(uuid, obj)];
    }

    /** The stored objects, by id. */
    function Containers(): (r: map<Id, T>)
      reads this
      ensures r.Keys == uuids.Keys
    {
      map id | id in uuids :: uuids[id].container
    }

    /** uuidHashTable: the dictionary itself. */
    function UuidHashTable(): (r: map<Id, Entry<T>>)
      reads this
      ensures forall id | id in r :: Get(id) == Some(r[id])
      ensures forall id | id !in r :: Get(id) == None
    {
      uuids
    }

    /** getUUIDS: every id in use, each once (the order of Object.keys is not modelled). */
    method GetUUIDs() returns (ids: seq<Id>)
      ensures |ids| == |uuids|
      ensures forall id :: id in ids <==> id in uuids
      ensures forall i, j | 0 <= i < j < |ids| :: ids[i] != ids[j]
    {
      ids := [];
      var rest := uuids.Keys;
      while rest != {}
        invariant rest <= uuids.Keys
        invariant forall id :: id in ids <==> id in uuids && id !in rest
        invariant forall i, j | 0 <= i < j < |ids| :: ids[i] != ids[j]
        invariant |ids| + |rest| == |uuids|
        decreases |rest|
      {
        var id :| id in rest;
        ids := ids + [id];
        rest := rest - {id};
      }
    }
  }

  /** One more entry in a valid container whose generator never repeats. */
  method Register<T>(container: UUIDContainer<T>, value: T) returns (id: Id)
    requires container.Valid() && Injective(container.gen)
    modifies container
    ensures container.Valid()
    ensures id !in old(container.uuids)
    ensures container.uuids == old(container.uuids)[id := Entry(id, value)]
  {
    var n := FreshDraw(container.gen, container.uuids.Keys, container.draws);
    id := container.Add(value);
  }

  /** Registers the values one after the other, under new and distinct ids. */
  method RegisterAll<T>(container: UUIDContainer<T>, values: seq<T>) returns (ids: seq<Id>)
    requires container.Valid() && Injective(container.gen)
    modifies container
    ensures container.Valid()
    ensures |ids| == |values|
    ensures forall i | 0 <= i < |ids| :: ids[i] !in old(container.uuids)
    ensures forall i, j | 0 <= i < j < |ids| :: ids[i] != ids[j]
    ensures container.uuids.Keys == old(container.uuids.Keys) + set id | id in ids
    ensures forall i | 0 <= i < |ids| :: container.uuids[ids[i]] == Entry(ids[i], values[i])
    ensures forall id | id in old(container.uuids) :: container.uuids[id] == old(container.uuids[id])
  {
    ids := [];
    for k := 0 to |values|
      invariant container.Valid() && |ids| == k
      invariant forall i | 0 <= i < k :: ids[i] !in old(container.uuids)
      invariant forall i, j | 0 <= i < j < k :: ids[i] != ids[j]
      invariant container.uuids.Keys == old(container.uuids.Keys) + set id | id in ids
      invariant forall i | 0 <= i < k :: container.uuids[ids[i]] == Entry(ids[i], values[i])
      invariant forall id | id in old(container.uuids) :: container.uuids[id] == old(container.uuids[id])
    {
      var id := Register(container, values[k]);
      ids := ids + [id];
    }
  }

  /** The values the constructor of ReferenceObject registers: 0, 1, 2, 3, Math.PI, Math.E, Infinity, -Infinity. */
  const CONSTANT_VALUES: seq<Num> :=
    [Zero, One, Two, Fin(3.0), Fin(PI_VALUE), Fin(E_VALUE), PosInf, NegInf]

  /** Registers the eight constants, in order, under new and distinct ids. */
  method RegisterConstants<T>(container: UUIDContainer<T>, embed: Num -> T) returns (ids: seq<Id>)
    requires container.Valid() && Injective(container.gen)
    modifies container
    ensures container.Valid() && |ids| == 8
    ensures forall i | 0 <= i < 8 :: ids[i] !in old(container.uuids)
    ensures forall i, j | 0 <= i < j < 8 :: ids[i] != ids[j]
    ensures container.uuids.Keys == old(container.uuids.Keys) + set id | id in ids
    ensures forall i | 0 <= i < 8 :: container.Containers()[ids[i]] == embed(CONSTANT_VALUES[i])
    ensures forall id | id in old(container.uuids) :: container.Containers()[id] == old(container.Containers())[id]
  {
    ids := RegisterAll(container, seq(8, i requires 0 <= i < 8 => embed(CONSTANT_VALUES[i])));
  }

  /**
   * ReferenceObject: one `{value}` cell per id.  `embed` says how a number is
   * stored in this store's cells (the store of reference matrices holds other
   * things besides numbers).
   */
  class ReferenceObject<T> {
    const parameter: UUIDContainer<T>
    const ZERO: Id
    const ONE: Id
    const TWO: Id
    const THREE: Id
    const PI: Id
    const E: Id
    const INFINITY: Id
    const NEGATIVEINFINITY: Id

    ghost predicate Valid()
      reads this, parameter
    {
      parameter.Valid() && Injective(parameter.gen)
    }

    /** The value of every cell, by id. */
    function Cells(): (r: map<Id, T>)
      reads this, parameter
      ensures r.Keys == parameter.uuids.Keys
    {
      parameter.Containers()
    }

    /** The eight pre-registered constants, in registration order. */
    function Constants(): seq<Id>
      reads this
    {
      [ZERO, ONE, TWO, THREE, PI, E, INFINITY, NEGATIVEINFINITY]
    }

    /**
     * The constructor registers 0, 1, 2, 3, Math.PI, Math.E, Infinity and
     * -Infinity, under eight new and distinct ids, in the given (possibly shared)
     * container, and changes no other cell.
     */
    constructor (parameter: UUIDContainer<T>, embed: Num -> T)
      requires parameter.Valid() && Injective(parameter.gen)
      modifies parameter
      ensures this.parameter == parameter && Valid()
      ensures forall i | 0 <= i < 8 :: Constants()[i] !in old(parameter.uuids)
      ensures forall i, j | 0 <= i < j < 8 :: Constants()[i] != Constants()[j]
      ensures Cells().Keys == old(parameter.uuids.Keys) + set id | id in Constants()
      ensures forall i | 0 <= i < 8 :: Cells()[Constants()[i]] == embed(CONSTANT_VALUES[i])
      ensures forall id | id in old(parameter.uuids) :: Cells()[id] == old(parameter.Containers())[id]
    {
      this.parameter := parameter;
      var ids := RegisterConstants(parameter, embed);
      ZERO, ONE, TWO, THREE, PI, E, INFINITY, NEGATIVEINFINITY :=
        ids[0], ids[1], ids[2], ids[3], ids[4], ids[5], ids[6], ids[7];
      new;
      assert Constants() == ids;
    }

    /** addParameter: a new cell holding `value`, under an id not in use. */
    method AddParameter(value: T) returns (key: Id)
      requires Valid()
      modifies parameter
      ensures Valid()
      ensures key !in old(Cells()) && Cells() == old(Cells())[key := value]
    {
      key := Register(parameter, value);
    }

    /** getParameter: the cell stored under `id`; a missing id is a TypeError (`.Container` of undefined). */
    function GetParameter(id: Id): (r: Result<T>)
      reads this, parameter
      ensures r.Ok? <==> id in Cells()
      ensures r.Ok? ==> r.value == Cells()[id]
    {
      match parameter.Get(id)
      case Some(entry) => Ok(entry.container)
      case None => Err(TypeError)
    }

    /** removeParameter: deletes the cell (nothing happens when there is none). */
    method RemoveParameter(id: Id)
      requires Valid()
      modifies parameter
      ensures Valid()
      ensures Cells() == old(Cells()) - {id}
    {
      var _ := parameter.Remove(id);
    }

    /**
     * `getParameter(id).value = value`: overwrites the cell under `id`, and is a
     * TypeError that changes nothing when there is no such cell.
     */
    method SetValue(id: Id, value: T) returns (r: Outcome)
      requires Valid()
      modifies parameter
      ensures Valid()
      ensures r == if id in old(Cells()) then Pass else Fail(TypeError)
      ensures Cells() == if id in old(Cells()) then old(Cells())[id := value] else old(Cells())
    {
      if parameter.Get(id).None? {
        return Fail(TypeError);
      }
      var _ := parameter.Replace(id, value);
      r := Pass;
    }
  }
}
