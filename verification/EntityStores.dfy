/**
 The simulation's entity table: parallel columns with swap-and-pop removal, and an
 index from entity ids to rows.
 */
module EntityStores {
  import opened SequenceBuffers
  import opened Grid

  datatype Entity = Entity(position: Vec2, velocity: Vec2, kind: nat, owner: nat, lastInput: nat, seed: nat)

  const STILL: Vec2 := Vec2(0.0, 0.0)

  /** The columns and the index, as one value. */
  datatype Table = Table(id: seq<nat>, position: seq<Vec2>, velocity: seq<Vec2>, kind: seq<nat>,
                         owner: seq<nat>, lastInput: seq<nat>, seed: seq<nat>, indexOf: map<nat, nat>)
  {
    /** The columns have one length and the index is an exact inverse of `id`. */
    ghost predicate Valid() {
      && |id| == |position| == |velocity| == |kind| == |owner| == |lastInput| == |seed|
      && (forall i | 0 <= i < |id| :: id[i] in indexOf && indexOf[id[i]] == i)
      && forall e <- indexOf :: indexOf[e] < |id| && id[indexOf[e]] == e
    }

    ghost function Row(i: nat): Entity
      requires Valid() && i < |id|
    {
      Entity(position[i], velocity[i], kind[i], owner[i], lastInput[i], seed[i])
    }

    ghost function Contents(): map<nat, Entity>
      requires Valid()
    {
      map e | e in indexOf :: Row(indexOf[e])
    }
  }

  function SwapPop<T>(s: seq<T>, i: nat): (r: seq<T>)
    requires i < |s|
    ensures |r| == |s| - 1 && forall k | 0 <= k < |r| :: r[k] == if k == i then s[|s| - 1] else s[k]
  {
    s[i := s[|s| - 1]][..|s| - 1]
  }

  ghost function Removed(t: Table, entity: nat): Table
    requires t.Valid() && entity in t.indexOf
  {
    var i := t.indexOf[entity];
    Table(SwapPop(t.id, i), SwapPop(t.position, i), SwapPop(t.velocity, i), SwapPop(t.kind, i),
          SwapPop(t.owner, i), SwapPop(t.lastInput, i), SwapPop(t.seed, i),
          t.indexOf[t.id[|t.id| - 1] := i] - {entity})
  }

  /** The last row copied over row `i`. */
  ghost function Moved(t: Table, i: nat): Table
    requires t.Valid() && i < |t.id|
  {
    var last := |t.id| - 1;
    Table(t.id[i := t.id[last]], t.position[i := t.position[last]], t.velocity[i := t.velocity[last]],
          t.kind[i := t.kind[last]], t.owner[i := t.owner[last]], t.lastInput[i := t.lastInput[last]],
          t.seed[i := t.seed[last]], t.indexOf[t.id[last] := i])
  }

  /** Copying the last row over itself changes nothing. */
  lemma LastStays(t: Table)
    requires t.Valid() && t.id != []
    ensures Moved(t, |t.id| - 1) == t
  {
  }

  /** Swap-and-pop keeps the index exact and every other entity as it was. */
  lemma RemovedKeeps(t: Table, entity: nat)
    requires t.Valid() && entity in t.indexOf
    ensures Removed(t, entity).Valid()
    ensures Removed(t, entity).Contents() == t.Contents() - {entity}
  {
    hide Table.Valid, Table.Contents;
    RemovedValid(t, entity);
    RemovedRows(t, entity);
  }

  lemma RemovedValid(t: Table, entity: nat)
    requires t.Valid() && entity in t.indexOf
    ensures Removed(t, entity).Valid()
  {
    var u, i, last := Removed(t, entity), t.indexOf[entity], |t.id| - 1;
    forall k | 0 <= k < last ensures u.id[k] in u.indexOf && u.indexOf[u.id[k]] == k {
      assert u.id[k] == t.id[if k == i then last else k];
      assert t.indexOf[t.id[last]] == last && t.indexOf[t.id[k]] == k;
    }
    forall e | e in u.indexOf ensures u.indexOf[e] < last && u.id[u.indexOf[e]] == e {
      assert e in t.indexOf && e != entity;
    }
  }

  lemma Widths(t: Table)
    requires t.Valid()
    ensures |t.id| == |t.position| == |t.velocity| == |t.kind| == |t.owner| == |t.lastInput| == |t.seed|
  {
  }

  lemma IndexExact(t: Table, e: nat)
    requires t.Valid() && e in t.indexOf
    ensures t.indexOf[e] < |t.id| && t.id[t.indexOf[e]] == e
  {
  }

  lemma LastIndexed(t: Table)
    requires t.Valid() && t.id != []
    ensures t.id[|t.id| - 1] in t.indexOf && t.indexOf[t.id[|t.id| - 1]] == |t.id| - 1
  {
  }

  /** Contents are equal when the rows of the same ids are. */
  lemma SameRows(u: Table, contents: map<nat, Entity>)
    requires u.Valid() && u.indexOf.Keys == contents.Keys
    requires forall e <- contents :: contents[e] == u.Row(u.indexOf[e])
    ensures u.Contents() == contents
  {
  }

  lemma RowThere(t: Table, e: nat)
    requires t.Valid()
    ensures e in t.Contents() <==> e in t.indexOf
    ensures e in t.indexOf ==> t.Contents()[e] == t.Row(t.indexOf[e])
  {
  }

  lemma RowAt(t: Table, i: nat)
    requires t.Valid() && i < |t.id|
    ensures t.id[i] in t.Contents() && t.Contents()[t.id[i]] == t.Row(i)
  {
  }

  lemma RemovedRow(t: Table, entity: nat, e: nat)
    requires t.Valid() && entity in t.indexOf && Removed(t, entity).Valid() && e in t.indexOf && e != entity
    ensures var u := Removed(t, entity); e in u.indexOf && u.Row(u.indexOf[e]) == t.Row(t.indexOf[e])
  {
    hide Table.Valid, Table.Contents;
    Widths(t);
    IndexExact(t, e);
    IndexExact(t, entity);
    LastIndexed(t);
  }

  lemma RemovedRows(t: Table, entity: nat)
    requires t.Valid() && entity in t.indexOf && Removed(t, entity).Valid()
    ensures Removed(t, entity).Contents() == t.Contents() - {entity}
  {
    hide Table.Valid, Table.Contents, Table.Row;
    var u, contents := Removed(t, entity), t.Contents() - {entity};
    LastIndexed(t);
    forall e: nat ensures (e in contents <==> e in u.indexOf) && (e in u.indexOf ==> u.indexOf[e] < |u.id|) {
      RowThere(t, e);
      if e in t.indexOf && e != entity { RemovedRow(t, entity, e); }
      if e in u.indexOf { IndexExact(u, e); }
    }
    forall e | e in contents ensures contents[e] == u.Row(u.indexOf[e]) {
      RowThere(t, e);
      RemovedRow(t, entity, e);
    }
    SameRows(u, contents);
  }

  ghost function Added(t: Table, entity: nat, e: Entity): Table {
    Table(t.id + [entity], t.position + [e.position], t.velocity + [e.velocity], t.kind + [e.kind],
          t.owner + [e.owner], t.lastInput + [e.lastInput], t.seed + [e.seed], t.indexOf[entity := |t.id|])
  }

  lemma AddedValid(t: Table, entity: nat, e: Entity)
    requires t.Valid() && entity !in t.indexOf
    ensures Added(t, entity, e).Valid()
  {
    var u := Added(t, entity, e);
    forall k | 0 <= k < |u.id| ensures u.id[k] in u.indexOf && u.indexOf[u.id[k]] == k {
      if k < |t.id| { assert t.id[k] in t.indexOf; }
    }
  }

  lemma AddedKeeps(t: Table, entity: nat, e: Entity)
    requires t.Valid() && entity !in t.indexOf
    ensures Added(t, entity, e).Valid()
    ensures Added(t, entity, e).Contents() == t.Contents()[entity := e]
  {
    hide Table.Valid, Table.Contents;
    AddedValid(t, entity, e);
    var u, contents := Added(t, entity, e), t.Contents()[entity := e];
    Widths(t);
    forall f: nat ensures f in contents <==> f in u.indexOf { RowThere(t, f); }
    forall f | f in contents ensures contents[f] == u.Row(u.indexOf[f]) {
      RowThere(t, f);
      if f != entity { IndexExact(t, f); }
    }
    SameRows(u, contents);
  }

  /** A second row with the same id leaves the first one without an index. */
  lemma AddedTwice(t: Table, entity: nat, e: Entity)
    requires t.Valid() && entity in t.indexOf
    ensures !Added(t, entity, e).Valid()
  {
    var u, i := Added(t, entity, e), t.indexOf[entity];
    assert u.id[i] == entity && u.indexOf[u.id[i]] == |t.id|;
  }

  ghost function Placed(t: Table, i: nat, e: Entity): Table
    requires t.Valid() && i < |t.id|
  {
    t.(position := t.position[i := e.position], velocity := t.velocity[i := e.velocity],
       owner := t.owner[i := e.owner], lastInput := t.lastInput[i := e.lastInput])
  }

  lemma PlacedValid(t: Table, i: nat, e: Entity)
    requires t.Valid() && i < |t.id|
    ensures Placed(t, i, e).Valid() && t.id[i] in t.indexOf && t.indexOf[t.id[i]] == i
  {
  }

  lemma PlacedKeeps(t: Table, i: nat, e: Entity)
    requires t.Valid() && i < |t.id| && e.kind == t.kind[i] && e.seed == t.seed[i]
    ensures Placed(t, i, e).Valid()
    ensures Placed(t, i, e).Contents() == t.Contents()[t.id[i] := e]
  {
    hide Table.Valid, Table.Contents;
    PlacedValid(t, i, e);
    Widths(t);
    var u, contents := Placed(t, i, e), t.Contents()[t.id[i] := e];
    forall f: nat ensures f in contents <==> f in u.indexOf { RowThere(t, f); }
    forall f | f in contents ensures contents[f] == u.Row(u.indexOf[f]) {
      RowThere(t, f);
      if f != t.id[i] { IndexExact(t, f); }
    }
    SameRows(u, contents);
  }

  class EntityStore {
    var id: seq<nat>
    var position: seq<Vec2>
    var velocity: seq<Vec2>
    var kind: seq<nat>
    var owner: seq<nat>
    var lastInput: seq<nat>
    var seed: seq<nat>
    var indexOf: map<nat, nat>

    ghost function View(): Table
      reads this
    {
      Table(id, position, velocity, kind, owner, lastInput, seed, indexOf)
    }

    ghost predicate Valid()
      reads this
    {
      View().Valid()
    }

    /** The entities by id. */
    ghost function Contents(): map<nat, Entity>
      requires Valid()
      reads this
    {
      View().Contents()
    }

    constructor ()
      ensures Valid() && Contents() == map[]
    {
      id, position, velocity, kind, owner, lastInput, seed, indexOf := [], [], [], [], [], [], [], map[];
    }

    /** Appends a row.  The index stays exact exactly if the id is new. */
    method Add(entity: nat, entityKind: nat, start: Vec2, client: nat, noise: nat) returns (index: nat)
      requires Valid()
      modifies this
      ensures View() == Added(old(View()), entity, Entity(start, STILL, entityKind, client, 0, noise))
      ensures Valid() <==> entity !in old(Contents())
      ensures Valid() ==> Contents() == old(Contents())[entity := Entity(start, STILL, entityKind, client, 0, noise)]
      ensures index == |old(id)| && id == old(id) + [entity]
    {
      hide Table.Valid, Table.Contents;
      ghost var e := Entity(start, STILL, entityKind, client, 0, noise);
      RowThere(View(), entity);
      if entity in indexOf { AddedTwice(View(), entity, e); } else { AddedKeeps(View(), entity, e); }
      index := |id|;
      id, position, velocity, kind := id + [entity], position + [start], velocity + [STILL], kind + [entityKind];
      owner, lastInput, seed := owner + [client], lastInput + [0], seed + [noise];
      indexOf := indexOf[entity := index];
    }

    method CopyLast(index: nat, last: nat)
      requires Valid() && index < |id| && last == |id| - 1
      modifies this
      ensures View() == Moved(old(View()), index)
    {
      hide Table.Valid;
      Widths(View());
      id := id[index := id[last]];
      position := position[index := position[last]];
      velocity := velocity[index := velocity[last]];
      kind := kind[index := kind[last]];
      owner := owner[index := owner[last]];
      lastInput := lastInput[index := lastInput[last]];
      seed := seed[index := seed[last]];
      indexOf := indexOf[id[index] := index];
    }

    /** The last row takes the place of the one removed. */
    method Remove(entity: nat) returns (found: bool)
      requires Valid()
      modifies this
      ensures Valid() && found == (entity in old(Contents())) && Contents() == old(Contents()) - {entity}
    {
      hide Table.Valid, Table.Contents, Table.Row;
      ghost var before := View();
      RowThere(before, entity);
      if entity !in indexOf {
        assert Contents() - {entity} == Contents();
        return false;
      }
      RemovedKeeps(before, entity);
      Widths(before);
      IndexExact(before, entity);
      LastIndexed(before);
      var index, last := indexOf[entity], |id| - 1;
      if index != last { CopyLast(index, last); } else { LastStays(before); }
      DropLast(before, entity, last);
      found := true;
    }

    method DropLast(ghost before: Table, entity: nat, last: nat)
      requires before.Valid() && entity in before.indexOf && last == |before.id| - 1
      requires View() == Moved(before, before.indexOf[entity])
      modifies this
      ensures View() == Removed(before, entity)
    {
      hide Table.Valid;
      Widths(before);
      IndexExact(before, entity);
      id, position, velocity, kind := id[..last], position[..last], velocity[..last], kind[..last];
      owner, lastInput, seed := owner[..last], lastInput[..last], seed[..last];
      indexOf := indexOf - {entity};
    }

    method Find(entity: nat) returns (index: Option<nat>)
      requires Valid()
      ensures index.Some? <==> entity in Contents()
      ensures index.Some? ==>
                index.value < |id| && id[index.value] == entity && View().Row(index.value) == Contents()[entity]
    {
      index := if entity in indexOf then Some(indexOf[entity]) else None;
    }

    /** Overwrites where an entity is, whose it is, and its last input. */
    method Place(index: nat, at: Vec2, speed: Vec2, client: nat, input: nat)
      requires Valid() && index < |id|
      modifies this`position, this`velocity, this`owner, this`lastInput
      ensures Valid() && id == old(id)
      ensures var e := old(View().Row(index));
              Contents() == old(Contents())
                [id[index] := e.(position := at, velocity := speed, owner := client, lastInput := input)]
    {
      hide Table.Valid, Table.Contents;
      Widths(View());
      ghost var e := View().Row(index);
      PlacedKeeps(View(), index, e.(position := at, velocity := speed, owner := client, lastInput := input));
      position, velocity := position[index := at], velocity[index := speed];
      owner, lastInput := owner[index := client], lastInput[index := input];
    }
  }
}
