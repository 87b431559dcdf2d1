/**
 The simulation's bookkeeping: player slots and their entities, kept in step
 through spawning, adopting, despawning, queueing and applying inputs.
 */
module Worlds {
  import opened SequenceBuffers
  import opened Grid
  import opened EntityStores
  import opened InputLedger

  const PLAYER: nat := 0
  const DRIFTER: nat := 1

  /** Where an input, or having none, takes the entity of a client in one tick. */
  type Movement = (Option<nat>, nat, Entity) -> (Vec2, Vec2)

  datatype PlayerSlot = PlayerSlot(entity: nat, client: nat, slot: Slot)

  /** Every slot has its entity and every owned entity its slot. */
  ghost predicate Matched(players: map<nat, PlayerSlot>, entities: map<nat, Entity>, next: nat) {
    && (forall c <- players :: SlotMatched(players, entities, c))
    && (forall e <- entities :: e < next && OwnerMatched(players, entities, e))
  }

  ghost predicate SlotMatched(players: map<nat, PlayerSlot>, entities: map<nat, Entity>, c: nat)
    requires c in players
  {
    var p := players[c];
    && c != 0 && p.client == c && SlotOk(p.slot)
    && p.entity in entities && entities[p.entity].owner == c && entities[p.entity].lastInput == p.slot.applied
  }

  ghost predicate OwnerMatched(players: map<nat, PlayerSlot>, entities: map<nat, Entity>, e: nat)
    requires e in entities
  {
    entities[e].owner != 0 ==> entities[e].owner in players && players[entities[e].owner].entity == e
  }

  class World {
    const entities: EntityStore
    var players: map<nat, PlayerSlot>
    var nextEntity: nat

    ghost predicate Valid()
      reads this, entities
    {
      entities.Valid() && Matched(players, entities.Contents(), nextEntity)
    }

    constructor ()
      ensures Valid() && players == map[] && fresh(entities) && entities.Contents() == map[]
    {
      entities := new EntityStore();
      players, nextEntity := map[], 1;
    }

    /** A fresh entity for a client.  Slots and entities still match exactly if the
        client is a real one and has no slot yet; otherwise its old entity is orphaned. */
    method SpawnPlayer(client: nat, at: Vec2, noise: nat) returns (entity: nat)
      requires Valid()
      modifies this, entities
      ensures Valid() <==> client != 0 && client !in old(players)
      ensures entities.Valid() && entity == old(nextEntity) && nextEntity == old(nextEntity) + 1
      ensures players == old(players)[client := PlayerSlot(entity, client, Slot([], 0, 0))]
      ensures entities.Contents() == old(entities.Contents())[entity := Entity(at, STILL, PLAYER, client, 0, noise)]
    {
      hide EntityStore.Valid, EntityStore.Contents, Matched;
      ghost var before := entities.Contents();
      KnownEntities(players, before, nextEntity);
      entity := nextEntity;
      nextEntity := nextEntity + 1;
      var _ := entities.Add(entity, PLAYER, at, client, noise);
      players := players[client := PlayerSlot(entity, client, Slot([], 0, 0))];
      AdoptMatches(old(players), before, entities.Contents(), old(nextEntity), nextEntity, entity, client, 0);
    }

    method SpawnDrifter(at: Vec2, noise: nat) returns (entity: nat)
      requires Valid()
      modifies this, entities
      ensures Valid() && players == old(players) && entity == old(nextEntity) && nextEntity == old(nextEntity) + 1
      ensures entities.Contents() == old(entities.Contents())[entity := Entity(at, STILL, DRIFTER, 0, 0, noise)]
    {
      hide EntityStore.Valid, EntityStore.Contents;
      entity := nextEntity;
      nextEntity := nextEntity + 1;
      var _ := entities.Add(entity, DRIFTER, at, 0, noise);
    }

    /** Removes an entity and, if it is a player's, that player's slot. */
    method Despawn(entity: nat)
      requires Valid()
      modifies this`players, entities
      ensures Valid() && nextEntity == old(nextEntity)
      ensures entities.Contents() == old(entities.Contents()) - {entity}
      ensures players == if entity !in old(entities.Contents()) then old(players)
                         else old(players) - {old(entities.Contents()[entity].owner)}
    {
      hide EntityStore.Contents, Table.Row;
      ghost var before := entities.Contents();
      var index := entities.Find(entity);
      if index.None? {
        assert before - {entity} == before;
        return;
      }
      var client := entities.owner[index.value];
      OwnerAt(entities.View(), index.value);
      hide EntityStore.Valid;
      var _ := entities.Remove(entity);
      if client != 0 { players := players - {client}; } else { NobodyZero(players, before, nextEntity); }
      DespawnMatches(old(players), before, nextEntity, entity);
    }

    /** Puts an entity where a ticket or a ghost left it, for a client.  Slots and
        entities still match exactly if it is the client's own, or nobody's and the
        client has none. */
    method Adopt(entity: nat, client: nat, at: Vec2, speed: Vec2, input: nat, noise: nat)
      requires Valid()
      modifies this, entities
      ensures Valid() <==> MayTake(old(players), old(entities.Contents()), entity, client)
      ensures entities.Valid() && players == old(players)[client := PlayerSlot(entity, client, Slot([], input, input))]
      ensures var before, next := old(entities.Contents()), old(nextEntity);
              var e := if entity in before then before[entity] else Entity(at, STILL, PLAYER, client, 0, noise);
              && nextEntity == (if entity !in before && entity >= next then entity + 1 else next)
              && entities.Contents() ==
                   before[entity := e.(position := at, velocity := speed, owner := client, lastInput := input)]
    {
      hide EntityStore.Contents, EntityStore.Valid, Matched;
      ghost var before := entities.Contents();
      KnownEntities(players, before, nextEntity);
      Settle(entity, client, at, speed, input, noise);
      players := players[client := PlayerSlot(entity, client, Slot([], input, input))];
      AdoptMatches(old(players), before, entities.Contents(), old(nextEntity), nextEntity, entity, client, input);
    }

    /** The entity's half of adopting it. */
    method Settle(entity: nat, client: nat, at: Vec2, speed: Vec2, input: nat, noise: nat)
      requires entities.Valid()
      modifies this`nextEntity, entities
      ensures entities.Valid()
      ensures var before, next := old(entities.Contents()), old(nextEntity);
              var e := if entity in before then before[entity] else Entity(at, STILL, PLAYER, client, 0, noise);
              && nextEntity == (if entity !in before && entity >= next then entity + 1 else next)
              && entities.Contents() ==
                   before[entity := e.(position := at, velocity := speed, owner := client, lastInput := input)]
    {
      hide Table.Valid, Table.Contents, Table.Row;
      var existing := entities.Find(entity);
      var index;
      if existing.None? {
        index := entities.Add(entity, PLAYER, at, client, noise);
        if entity >= nextEntity { nextEntity := entity + 1; }
      } else {
        index := existing.value;
      }
      RowAt(entities.View(), index);
      entities.Place(index, at, speed, client, input);
    }

    /** Queues an input, unless the client is unknown or the input is stale.  The queue
        stays in order exactly if this is not a zero before anything else. */
    method Queue(client: nat, n: nat)
      modifies this`players
      ensures old(Valid()) ==> (Valid() <==> (client in old(players) ==> Orderly(old(players)[client].slot, [n])))
      ensures players == if client !in old(players) then old(players)
                         else var p := old(players)[client]; old(players)[client := p.(slot := QueueInput(p.slot, n))]
    {
      hide EntityStore.Valid, EntityStore.Contents;
      if client !in players { return; }
      var p := players[client];
      hide QueueInput, SlotOk, Matched;
      var slot := p.slot;
      if !(n <= slot.highest && slot.highest != 0) {
        QueueIs(slot, n);
        var pending := if |slot.pending| >= MAX_QUEUED then slot.pending[1..] else slot.pending;
        players := players[client := p.(slot := Slot(pending + [n], slot.applied, n))];
      } else {
        QueueIs(slot, n);
        assert players[client := p] == players;
      }
      if old(Valid()) { QueueMatches(old(players), players, entities.Contents(), nextEntity, client, n); }
    }

    /** Every player consumes its oldest queued input, if it has one; `move` is where
        that input, or having none, takes the entity of a client. */
    method ApplyInputs(move: Movement)
      requires Valid()
      modifies this`players, entities
      ensures Valid() && nextEntity == old(nextEntity)
      ensures players == Advanced(old(players), old(players).Keys)
      ensures entities.Contents() == Carried(old(players), old(entities.Contents()), old(players).Keys, move)
    {
      hide EntityStore.Contents, EntityStore.Valid, Advanced, Carried, Matched, ApplyInput;
      ghost var players0, entities0 := players, entities.Contents();
      var todo, done := players.Keys, {};
      NoneMoved(players0, entities0, move);
      while todo != {}
        invariant entities.Valid() && todo !! done && todo + done == players0.Keys
        invariant players == Advanced(players0, done) && entities.Contents() == Carried(players0, entities0, done, move)
        decreases |todo|
      {
        var client :| client in todo;
        ApplyNext(client, move, players0, entities0, done);
        todo, done := todo - {client}, done + {client};
      }
      assert done == players0.Keys;
      MovedMatches(players0, entities0, nextEntity, move);
    }

    /** One more of the players of `players0`. */
    method ApplyNext(client: nat, move: Movement,
                     ghost players0: map<nat, PlayerSlot>, ghost entities0: map<nat, Entity>, ghost done: set<nat>)
      requires Matched(players0, entities0, nextEntity) && client in players0 && client !in done && entities.Valid()
      requires players == Advanced(players0, done) && entities.Contents() == Carried(players0, entities0, done, move)
      modifies this`players, entities
      ensures entities.Valid() && players == Advanced(players0, done + {client})
      ensures entities.Contents() == Carried(players0, entities0, done + {client}, move)
    {
      hide EntityStore.Contents, EntityStore.Valid, Advanced, Carried, Matched, ApplyInput, Stepped;
      NotYet(players0, entities0, nextEntity, done, move, client);
      MoveOne(players0, entities0, nextEntity, done, move, client);
      ApplyOne(client, move);
    }

    method ApplyOne(client: nat, move: Movement)
      requires entities.Valid() && client in players && players[client].entity in entities.Contents()
      requires entities.Contents()[players[client].entity].owner == client
      modifies this`players, entities
      ensures entities.Valid()
      ensures players == old(players)[client := old(players)[client].(slot := ApplyInput(old(players)[client].slot))]
      ensures entities.Contents() == old(entities.Contents())[old(players)[client].entity :=
                Stepped(client, old(entities.Contents()[players[client].entity]), old(players)[client].slot, move)]
    {
      hide EntityStore.Contents;
      var p := players[client];
      var index := entities.Find(p.entity);
      var i := index.value;
      var applied, taken := p.slot.applied, None;
      if p.slot.pending != [] {
        applied, taken := p.slot.pending[0], Some(p.slot.pending[0]);
        players := players[client := p.(slot := Slot(p.slot.pending[1..], applied, p.slot.highest))];
      } else {
        assert players[client := p] == players;
      }
      Widths(entities.View());
      var e := Entity(entities.position[i], entities.velocity[i], entities.kind[i], entities.owner[i],
          entities.lastInput[i], entities.seed[i]);
      var (at, speed) := move(taken, client, e);
      entities.Place(i, at, speed, e.owner, applied);
    }
  }

  /** The input that the next tick applies, if there is one. */
  function Taken(s: Slot): Option<nat> {
    if s.pending == [] then None else Some(s.pending[0])
  }

  /** An entity after a tick took an input from its client's slot. */
  function Stepped(client: nat, e: Entity, s: Slot, move: Movement): Entity {
    var (at, speed) := move(Taken(s), client, e);
    e.(position := at, velocity := speed, lastInput := ApplyInput(s).applied)
  }

  ghost function Advanced(players: map<nat, PlayerSlot>, done: set<nat>): map<nat, PlayerSlot> {
    map c | c in players :: if c in done then players[c].(slot := ApplyInput(players[c].slot)) else players[c]
  }

  ghost function Carried(players: map<nat, PlayerSlot>, entities: map<nat, Entity>, done: set<nat>,
                       move: Movement): map<nat, Entity> {
    map e | e in entities ::
      var owner := entities[e].owner;
      if owner in done && owner in players && players[owner].entity == e
      then Stepped(owner, entities[e], players[owner].slot, move) else entities[e]
  }

  lemma NoneMoved(players: map<nat, PlayerSlot>, entities: map<nat, Entity>, move: Movement)
    ensures Advanced(players, {}) == players && Carried(players, entities, {}, move) == entities
  {
  }

  lemma NotYet(players: map<nat, PlayerSlot>, entities: map<nat, Entity>, next: nat, done: set<nat>,
               move: Movement, client: nat)
    requires Matched(players, entities, next) && client in players && client !in done
    ensures client in Advanced(players, done) && Advanced(players, done)[client] == players[client]
    ensures var e := players[client].entity;
            && e in entities && entities[e].owner == client
            && e in Carried(players, entities, done, move) && Carried(players, entities, done, move)[e] == entities[e]
  {
    assert SlotMatched(players, entities, client);
  }

  lemma MoveOne(players: map<nat, PlayerSlot>, entities: map<nat, Entity>, next: nat, done: set<nat>,
                move: Movement, client: nat)
    requires Matched(players, entities, next) && client in players && client !in done
    requires players[client].entity in entities
    ensures Advanced(players, done + {client})
            == Advanced(players, done)[client := players[client].(slot := ApplyInput(players[client].slot))]
    ensures Carried(players, entities, done + {client}, move)
         == Carried(players, entities, done, move)[players[client].entity :=
              Stepped(client, entities[players[client].entity], players[client].slot, move)]
  {
    hide ApplyInput, SlotOk;
    assert SlotMatched(players, entities, client);
    var e0 := players[client].entity;
    forall e | e in entities && e != e0 ensures entities[e].owner != client || players[client].entity != e { }
  }

  /** An entity after its client's inputs were applied, one each tick. */
  function Driven(client: nat, e: Entity, inputs: seq<nat>, move: Movement): Entity {
    if inputs == [] then e
    else
      var n, before := inputs[|inputs| - 1], Driven(client, e, inputs[..|inputs| - 1], move);
      var (at, speed) := move(Some(n), client, before);
      before.(position := at, velocity := speed, lastInput := n)
  }

  /** Slots and entities after `k` ticks in which nothing else happens. */
  ghost function AfterTicks(players: map<nat, PlayerSlot>, entities: map<nat, Entity>, k: nat, move: Movement)
    : (map<nat, PlayerSlot>, map<nat, Entity>)
  {
    if k == 0 then (players, entities)
    else
      var (p, e) := AfterTicks(players, entities, k - 1, move);
      (Advanced(p, p.Keys), Carried(p, e, p.Keys, move))
  }

  /** Every queued input is applied, each in its turn and none twice: `k` ticks take a
      client's entity where its first `k` inputs take it, and the rest stay queued. */
  lemma {:induction false} InputsInOrder(players: map<nat, PlayerSlot>, entities: map<nat, Entity>, next: nat,
                                         client: nat, k: nat, move: Movement)
    requires Matched(players, entities, next) && client in players && k <= |players[client].slot.pending|
    ensures var (p, e) := AfterTicks(players, entities, k, move);
            var before, entity := players[client].slot, players[client].entity;
            && Matched(p, e, next) && client in p && p[client].entity == entity && entity in entities && entity in e
            && p[client].slot.pending == before.pending[k..] && p[client].slot.highest == before.highest
            && p[client].slot.applied == (if k == 0 then before.applied else before.pending[k - 1])
            && e[entity] == Driven(client, entities[entity], before.pending[..k], move)
  {
    hide Matched, SlotOk, Advanced, Carried, Driven;
    SlotThere(players, entities, next, client);
    DrivenOn(client, entities[players[client].entity], players[client].slot.pending[..k], move);
    if k > 0 {
      InputsInOrder(players, entities, next, client, k - 1, move);
      var (p, e) := AfterTicks(players, entities, k - 1, move);
      MovedMatches(p, e, next, move);
      NextInput(p, e, next, client, move);
      assert players[client].slot.pending[..k][..k - 1] == players[client].slot.pending[..k - 1];
    }
  }

  /** Entities that belong to no player stay as they are. */
  lemma {:induction false} OthersStay(players: map<nat, PlayerSlot>, entities: map<nat, Entity>, k: nat, move: Movement,
                                      e: nat)
    requires e in entities && entities[e].owner !in players
    ensures var (p, es) := AfterTicks(players, entities, k, move);
            p.Keys == players.Keys && es.Keys == entities.Keys && e in es && es[e] == entities[e]
  {
    hide ApplyInput, Stepped;
    if k > 0 { OthersStay(players, entities, k - 1, move, e); }
  }

  lemma NextInput(p: map<nat, PlayerSlot>, e: map<nat, Entity>, next: nat, client: nat, move: Movement)
    requires Matched(p, e, next) && client in p && p[client].slot.pending != []
    ensures var p', e' := Advanced(p, p.Keys), Carried(p, e, p.Keys, move);
            var slot, entity := p[client].slot, p[client].entity;
            && client in p' && p'[client].entity == entity && entity in e && entity in e'
            && p'[client].slot == Slot(slot.pending[1..], slot.pending[0], slot.highest)
            && var (at, speed) := move(Some(slot.pending[0]), client, e[entity]);
               e'[entity] == e[entity].(position := at, velocity := speed, lastInput := slot.pending[0])
  {
    hide SlotOk;
    SlotThere(p, e, next, client);
    hide Matched;
  }

  lemma DrivenOn(client: nat, e: Entity, inputs: seq<nat>, move: Movement)
    ensures inputs == [] ==> Driven(client, e, inputs, move) == e
    ensures inputs != [] ==>
              var n, before := inputs[|inputs| - 1], Driven(client, e, inputs[..|inputs| - 1], move);
              var (at, speed) := move(Some(n), client, before);
              Driven(client, e, inputs, move) == before.(position := at, velocity := speed, lastInput := n)
  {
  }

  lemma ApplyKeeps(s: Slot)
    requires SlotOk(s)
    ensures SlotOk(ApplyInput(s))
  {
  }

  lemma MovedMatches(players: map<nat, PlayerSlot>, entities: map<nat, Entity>, next: nat,
                     move: Movement)
    requires Matched(players, entities, next)
    ensures Matched(Advanced(players, players.Keys), Carried(players, entities, players.Keys, move), next)
  {
    hide ApplyInput, SlotOk;
    var players', entities' := Advanced(players, players.Keys), Carried(players, entities, players.Keys, move);
    forall c | c in players' ensures SlotMatched(players', entities', c) {
      assert SlotMatched(players, entities, c);
      ApplyKeeps(players[c].slot);
    }
    forall e | e in entities' ensures e < next && OwnerMatched(players', entities', e) {
      assert OwnerMatched(players, entities, e);
    }
  }

  lemma QueueIs(s: Slot, n: nat)
    ensures QueueInput(s, n) ==
      if n <= s.highest && s.highest != 0 then s
      else Slot((if |s.pending| >= MAX_QUEUED then s.pending[1..] else s.pending) + [n], s.applied, n)
  {
  }

  lemma QueueMatches(players: map<nat, PlayerSlot>, after: map<nat, PlayerSlot>, entities: map<nat, Entity>, next: nat,
                     client: nat, n: nat)
    requires Matched(players, entities, next) && client in players
    requires after == players[client := players[client].(slot := QueueInput(players[client].slot, n))]
    ensures Matched(after, entities, next) <==> Orderly(players[client].slot, [n])
  {
    hide QueueInput, SlotOk, Matched;
    SlotThere(players, entities, next, client);
    QueueKeeps(players[client].slot, n);
    SlotSwapped(players, after, entities, next, client, QueueInput(players[client].slot, n));
  }

  lemma SlotThere(players: map<nat, PlayerSlot>, entities: map<nat, Entity>, next: nat, client: nat)
    requires Matched(players, entities, next) && client in players
    ensures SlotMatched(players, entities, client)
  {
  }

  /** A changed queue still matches exactly if it is in order. */
  lemma SlotSwapped(players: map<nat, PlayerSlot>, after: map<nat, PlayerSlot>, entities: map<nat, Entity>, next: nat,
                    client: nat, slot: Slot)
    requires Matched(players, entities, next) && client in players && slot.applied == players[client].slot.applied
    requires after == players[client := players[client].(slot := slot)]
    ensures Matched(after, entities, next) <==> SlotOk(slot)
  {
    hide SlotOk;
    if SlotOk(slot) {
      forall c | c in after ensures SlotMatched(after, entities, c) { assert SlotMatched(players, entities, c); }
      forall e | e in entities ensures OwnerMatched(after, entities, e) { assert OwnerMatched(players, entities, e); }
    } else {
      assert !SlotMatched(after, entities, client);
    }
  }

  lemma OwnerAt(t: Table, i: nat)
    requires t.Valid() && i < |t.id|
    ensures t.Row(i).owner == t.owner[i]
  {
  }

  lemma NobodyZero(players: map<nat, PlayerSlot>, entities: map<nat, Entity>, next: nat)
    requires Matched(players, entities, next)
    ensures players - {0} == players
  {
    forall c | c in players ensures c != 0 { assert SlotMatched(players, entities, c); }
  }

  lemma DespawnMatches(players: map<nat, PlayerSlot>, entities: map<nat, Entity>, next: nat, entity: nat)
    requires Matched(players, entities, next) && entity in entities
    ensures Matched(players - {entities[entity].owner}, entities - {entity}, next)
  {
    hide SlotOk;
    var owner, left, rest := entities[entity].owner, players - {entities[entity].owner}, entities - {entity};
    forall c | c in left ensures SlotMatched(left, rest, c) {
      assert SlotMatched(players, entities, c) && OwnerMatched(players, entities, entity);
    }
    forall e | e in rest ensures OwnerMatched(left, rest, e) {
      assert OwnerMatched(players, entities, e) && OwnerMatched(players, entities, entity);
    }
  }

  /** The entity is the client's own, or nobody's while the client has none. */
  predicate MayTake(players: map<nat, PlayerSlot>, entities: map<nat, Entity>, entity: nat, client: nat) {
    && client != 0
    && if entity in entities && entities[entity].owner != 0 then entities[entity].owner == client
       else client !in players
  }

  lemma AdoptMatches(players: map<nat, PlayerSlot>, entities: map<nat, Entity>, after: map<nat, Entity>,
                     next: nat, next': nat, entity: nat, client: nat, input: nat)
    requires Matched(players, entities, next)
    requires entity in after && after == entities[entity := after[entity]]
    requires after[entity].owner == client && after[entity].lastInput == input && next' >= next && entity < next'
    ensures Matched(players[client := PlayerSlot(entity, client, Slot([], input, input))], after, next')
            <==> MayTake(players, entities, entity, client)
  {
    var players' := players[client := PlayerSlot(entity, client, Slot([], input, input))];
    hide SlotOk;
    if MayTake(players, entities, entity, client) {
      assert SlotOk(Slot([], input, input)) by { FreshSlot(input); }
      forall c | c in players' ensures SlotMatched(players', after, c) {
        if c != client { assert SlotMatched(players, entities, c); }
      }
      forall e | e in after ensures e < next' && OwnerMatched(players', after, e) {
        if e != entity { assert OwnerMatched(players, entities, e); }
      }
    } else {
      Mismatch(players, entities, after, entity, client, input);
    }
  }

  /** Otherwise a slot is left without its entity, or an entity without its slot. */
  lemma Mismatch(players: map<nat, PlayerSlot>, entities: map<nat, Entity>, after: map<nat, Entity>, entity: nat,
                 client: nat, input: nat)
    requires forall c <- players :: SlotMatched(players, entities, c)
    requires forall e <- entities :: OwnerMatched(players, entities, e)
    requires entity in after && after == entities[entity := after[entity]] && after[entity].owner == client
    requires !MayTake(players, entities, entity, client)
    ensures var players' := players[client := PlayerSlot(entity, client, Slot([], input, input))];
            || (exists c | c in players' :: !SlotMatched(players', after, c))
            || (exists e | e in after :: !OwnerMatched(players', after, e))
  {
    hide SlotOk;
    var players' := players[client := PlayerSlot(entity, client, Slot([], input, input))];
    if client == 0 {
      assert 0 in players' && !SlotMatched(players', after, 0);
    } else if entity in entities && entities[entity].owner != 0 {
      var owner := entities[entity].owner;
      assert OwnerMatched(players, entities, entity);
      assert owner in players' && !SlotMatched(players', after, owner);
    } else {
      var e := players[client].entity;
      assert SlotMatched(players, entities, client);
      assert e in after && !OwnerMatched(players', after, e);
    }
  }

  lemma KnownEntities(players: map<nat, PlayerSlot>, entities: map<nat, Entity>, next: nat)
    requires Matched(players, entities, next)
    ensures forall e <- entities :: e < next
  {
  }

  lemma FreshSlot(input: nat)
    ensures SlotOk(Slot([], input, input))
  {
  }
}
