/**
 The shard's handlers: each leaves the tables and the world as the functions on them
 say, keeps them in agreement, and does to every player what the cluster model says.
 */
module ShardServers {
  import opened SequenceBuffers
  import opened Grid
  import opened EntityStores
  import opened InputLedger
  import opened Worlds
  import opened ShardTables
  import Regions

  const TICKET_TTL: nat := 30000

  class ShardServer {
    const world: World
    var connections: set<nat>
    var players: map<nat, WorldPlayer>
    var byId: map<string, nat>
    var ghosts: map<string, GhostRecord>
    var redeemed: map<nat, Arrival>
    var nextClient: nat

    ghost function View(): Tables
      reads this, world
    {
      Tables(players, byId, world.players, connections, nextClient, ghosts, redeemed)
    }

    ghost predicate Valid()
      reads this, world, world.entities
    {
      world.Valid() && View().Agree() && nextClient > 0
    }

    ghost function Entities(): map<nat, Entity>
      requires world.entities.Valid()
      reads world, world.entities
    {
      world.entities.Contents()
    }

    /** What the shard holds of player `id` is what `s` holds of it. */
    ghost predicate Shows(id: string, s: InputLedger.Shard)
      reads this, world
    {
      Reflects(View(), id, s)
    }

    constructor ()
      ensures Valid() && players == map[] && fresh(world) && fresh(world.entities)
      ensures forall id :: Shows(id, VACANT)
    {
      world := new World();
      connections, players, byId, ghosts, redeemed, nextClient := {}, map[], map[], map[], map[], 1;
    }

    /** A connection ends.  Its player leaves the world and the tables; unless it was
        being redirected, a ghost stays for `grace`. */
    method RemoveConnection(client: nat, now: nat, grace: nat)
      requires Valid()
      modifies this`connections, this`players, this`byId, this`ghosts, world`players, world.entities
      ensures Valid() && View() == old(View()).Without(client, old(Entities()), now + grace)
      ensures Entities() == old(Entities()) - EntitiesOf(old(View()), {client})
      ensures forall id, s | old(Shows(id, s)) :: Shows(id, if old(View()).IsAt(client, id) then Leave(s) else s)
    {
      hide EntityStore.Contents, EntityStore.Valid, Matched, Tables.Agree, Tables.Without, EntitiesOf, Reflects, Leave;
      ghost var t, entities := View(), Entities();
      LeaveKeepsAgreement(t, client, entities, now + grace);
      forall id, s | Shows(id, s)
        ensures Reflects(t.Without(client, entities, now + grace), id, if t.IsAt(client, id) then Leave(s) else s)
      {
        LeaveReflects(t, entities, world.nextEntity, client, now + grace, id, s);
      }
      Detach(client, now, grace);
    }

    /** What `RemoveConnection` does to the tables and the world. */
    method Detach(client: nat, now: nat, grace: nat)
      requires Valid()
      modifies this`connections, this`players, this`byId, this`ghosts, world`players, world.entities
      ensures world.Valid() && View() == old(View()).Without(client, old(Entities()), now + grace)
      ensures Entities() == old(Entities()) - EntitiesOf(old(View()), {client})
    {
      hide EntityStore.Contents, EntityStore.Valid, Table.Row, Matched, Tables.Agree, EntitiesOf, SlotOk;
      ghost var t, entities := View(), Entities();
      OneEntity(t, entities, client);
      if client !in players {
        Absent(t, client);
        connections := connections - {client};
        return;
      }
      var p := players[client];
      PlayerFacts(t, client);
      SlotThere(world.players, entities, world.nextEntity, client);
      if !p.redirecting {
        var e := Lookup(p.entity);
        ghosts := ghosts[p.playerId :=
          GhostRecord(e.position, e.velocity, e.lastInput, p.region, p.token, now + grace)];
      }
      world.Despawn(p.entity);
      byId := byId - {p.playerId};
      players := players - {client};
      connections := connections - {client};
    }

    method Lookup(entity: nat) returns (e: Entity)
      requires world.entities.Valid() && entity in Entities()
      ensures e == Entities()[entity]
    {
      hide EntityStore.Contents;
      var index := world.entities.Find(entity);
      var i := index.value;
      var store := world.entities;
      Widths(store.View());
      e := Entity(store.position[i], store.velocity[i], store.kind[i], store.owner[i], store.lastInput[i],
          store.seed[i]);
    }

    /** Disconnects the player's previous session, if there is one. */
    method Replace(id: string, now: nat, grace: nat)
      requires Valid()
      modifies this`connections, this`players, this`byId, this`ghosts, world`players, world.entities
      ensures Valid() && id !in byId && View() == old(View()).Replaced(id, old(Entities()), now + grace)
      ensures Entities() == old(Entities()) - StaleEntities(old(View()), id)
      ensures forall s | old(Shows(id, s)) :: Shows(id, Leave(s))
      ensures forall other, s | other != id && old(Shows(other, s)) :: Shows(other, s)
    {
      hide EntityStore.Contents, EntityStore.Valid, Matched, Tables.Agree, GhostsAfter, Reflects, Leave;
      OneStale(View(), Entities(), id);
      if id in byId {
        IdHolder(View(), id);
        RemoveConnection(byId[id], now, grace);
      } else {
        forall s | Shows(id, s) ensures Leave(s) == s { NothingLeaves(View(), id, s); }
      }
    }

    /** The ticket of a credential: remembered from before, or taken out of the store and
        remembered from now on. */
    method Redeem(token: nat, store: Option<Arrival>) returns (ticket: Option<Arrival>)
      requires Valid()
      modifies this`redeemed
      ensures Valid() && ticket == if token in old(redeemed) then Some(old(redeemed)[token]) else store
      ensures View() == old(View()).(redeemed := redeemed)
      ensures redeemed == if ticket.Some? then old(redeemed)[token := ticket.value] else old(redeemed)
      ensures token in old(redeemed) || store.None? ==> View() == old(View())
      ensures token !in old(redeemed) && store.Some? ==>
                forall s, h: Handoff | old(Shows(store.value.playerId, s)) && h.lastInput == store.value.lastInput ::
                  Shows(store.value.playerId, Remembered(s, token, h))
      ensures forall id, s | old(Shows(id, s)) && (store.Some? ==> id != store.value.playerId) :: Shows(id, s)
    {
      hide EntityStore.Contents, EntityStore.Valid, Matched, Tables.Agree, Reflects, Remembered;
      if token in redeemed { return Some(redeemed[token]); }
      ghost var t := View();
      if store.Some? {
        redeemed := redeemed[token := store.value];
        SameAgreement(t, View());
        var v := store.value;
        forall s, h: Handoff | Reflects(t, v.playerId, s) && h.lastInput == v.lastInput
          ensures Shows(v.playerId, Remembered(s, token, h))
        {
          RedeemReflects(t, token, v, h, v.playerId, s);
        }
        forall id, s | Reflects(t, id, s) && id != v.playerId ensures Shows(id, s) {
          RedeemReflects(t, token, v, Handoff(0, 0, v.lastInput), id, s);
        }
      }
      ticket := store;
    }

    /** A player presents a ticket.  It is let in exactly if the ticket is found and is its
        own, and then the shard is as the cluster's arrival with the ticket leaves it. */
    method ConnectTicket(id: string, token: nat, store: Option<Arrival>, region: nat, spawn: Vec2, noise: nat,
                         now: nat, grace: nat) returns (client: Option<nat>)
      requires Valid()
      modifies this, world, world.entities
      ensures Valid()
      ensures var ticket := if token in old(redeemed) then Some(old(redeemed)[token]) else store;
              && (client.Some? <==> ticket.Some? && ticket.value.playerId == id)
              && (client.Some? ==>
                    forall s, h: Handoff | old(Presents(View(), id, s, token, ticket.value, h)) ::
                      Shows(id, TakenIn(Leave(s), token, h)))
      ensures client.Some? ==> forall other, s | other != id && old(Shows(other, s)) :: Shows(other, s)
      ensures client.None? ==>
                && View() == old(View()).(redeemed := redeemed) && Entities() == old(Entities())
                && redeemed == (if store.Some? && token !in old(redeemed) then old(redeemed)[token := store.value]
                                else old(redeemed))
    {
      hide EntityStore.Contents, EntityStore.Valid, Matched, Tables.Agree, Tables.Dialled, Tables.Replaced,
        Tables.Entered, OriginOf, StaleEntities, EntityOf, Reflects, Leave, Settled, Faded, TakenIn, Remembered;
      ghost var t := View();
      var ticket := Redeem(token, store);
      if ticket.None? || ticket.value.playerId != id { return None; }
      var a := Admitted(id, token, region, ticket);
      ghost var after := View();
      ghost var faded := Faded(after.Dialled().Replaced(id, Entities(), now + grace).ghosts, id, now);
      forall s, h: Handoff | Presents(t, id, s, token, ticket.value, h)
        ensures Shows(id, Remembered(s, token, h))
        ensures Settled(Leave(Remembered(s, token, h)), a, faded, h.chain) == TakenIn(Leave(s), token, h)
      {
        TicketArrives(s, a, h, faded);
      }
      var c := Connect(a, spawn, noise, now, grace);
      client := Some(c);
    }

    /** An admitted player gets a fresh client number; its previous session, if any, is
        replaced, and it starts from its ticket, its ghost or the spawn point. */
    method Connect(a: Admitted, spawn: Vec2, noise: nat, now: nat, grace: nat) returns (client: nat)
      requires Valid()
      modifies this, world, world.entities
      ensures Valid() && client == old(nextClient)
      ensures var t := old(View()).Dialled().Replaced(a.playerId, old(Entities()), now + grace);
              var origin := OriginOf(a, t.ghosts, now, spawn);
              && View() == t.Entered(client, a, origin, old(world.nextEntity))
              && Entities() == (old(Entities()) - StaleEntities(old(View()), a.playerId))
                   [old(world.nextEntity) := EntityOf(client, origin, noise)]
              && forall s, chain: nat | old(Shows(a.playerId, s)) ::
                   Shows(a.playerId, Settled(Leave(s), a, Faded(t.ghosts, a.playerId, now), chain))
      ensures forall id, s | id != a.playerId && old(Shows(id, s)) :: Shows(id, s)
    {
      hide EntityStore.Contents, EntityStore.Valid, Matched, Tables.Agree, Tables.Replaced, Tables.Entered,
        GhostsAfter, SlotOk, OriginOf, StaleEntities, EntityOf, Reflects, Leave, Settled, Faded;
      DialKeeps(View());
      StaleDialled(View(), a.playerId);
      ReplaceFrames(View().Dialled(), a.playerId, Entities(), now + grace, nextClient);
      client := Dial();
      Replace(a.playerId, now, grace);
      EnterTables(client, a, spawn, noise, now);
    }

    method Dial() returns (client: nat)
      requires Valid()
      modifies this`nextClient, this`connections
      ensures Valid() && client == old(nextClient) && View() == old(View()).Dialled()
      ensures forall id, s | old(Shows(id, s)) :: Shows(id, s)
    {
      hide EntityStore.Contents, EntityStore.Valid, Matched, Tables.Agree, Reflects;
      ghost var t := View();
      DialKeeps(t);
      client := nextClient;
      nextClient := nextClient + 1;
      connections := connections + {client};
      forall id, s | Reflects(t, id, s) ensures Reflects(t.Dialled(), id, s) { DialReflects(t, id, s); }
    }

    /** A connected client's player enters the world and the tables. */
    method EnterTables(client: nat, a: Admitted, spawn: Vec2, noise: nat, now: nat)
      requires Valid() && client in connections && client !in players && client != 0 && a.playerId !in byId
      modifies this`players, this`byId, this`ghosts, world, world.entities
      ensures Valid()
      ensures var origin := OriginOf(a, old(ghosts), now, spawn);
              && View() == old(View()).Entered(client, a, origin, old(world.nextEntity))
              && Entities() == old(Entities())[old(world.nextEntity) := EntityOf(client, origin, noise)]
      ensures forall s, chain: nat | old(Shows(a.playerId, s)) ::
                Shows(a.playerId, Settled(s, a, Faded(old(ghosts), a.playerId, now), chain))
      ensures forall id, s | id != a.playerId && old(Shows(id, s)) :: Shows(id, s)
    {
      hide EntityStore.Contents, EntityStore.Valid, Matched, Tables.Agree, SlotOk, OriginOf, EntityOf, Reflects,
        Settled, Faded;
      ghost var t, entity := View(), world.nextEntity;
      ghost var t' := t.Entered(client, a, OriginOf(a, t.ghosts, now, spawn), entity);
      forall s, chain: nat | Reflects(t, a.playerId, s)
        ensures Reflects(t', a.playerId, Settled(s, a, Faded(t.ghosts, a.playerId, now), chain))
      {
        EnterReflects(t, client, a, now, spawn, entity, a.playerId, s, chain);
      }
      forall id, s | id != a.playerId && Reflects(t, id, s) ensures Reflects(t', id, s) {
        EnterReflects(t, client, a, now, spawn, entity, id, s, 0);
      }
      EnterKeeps(t, client, a, OriginOf(a, t.ghosts, now, spawn), entity);
      Absent(t, client);
      var origin := Resume(a, spawn, now);
      var number := Appear(client, origin, noise);
      var p := WorldPlayer(client, a.playerId, number, origin.region, a.token, origin.lastInput, false, 0);
      byId := byId[a.playerId := client];
      players := players[client := p];
      assert View() == t';
    }

    /** A client's entity appears where it starts, with a slot for its inputs. */
    method Appear(client: nat, origin: Origin, noise: nat) returns (entity: nat)
      requires world.Valid() && client !in world.players && client != 0
      modifies world, world.entities
      ensures world.Valid() && entity == old(world.nextEntity)
      ensures world.players ==
                old(world.players)[client := PlayerSlot(entity, client, Slot([], origin.lastInput, origin.lastInput))]
      ensures Entities() == old(Entities())[entity := EntityOf(client, origin, noise)]
    {
      hide EntityStore.Contents, EntityStore.Valid, Matched, SlotOk;
      entity := world.SpawnPlayer(client, origin.position, noise);
      world.Adopt(entity, client, origin.position, origin.velocity, origin.lastInput, noise);
    }

    /** Where the player starts; a ghost that is taken up is gone. */
    method Resume(a: Admitted, spawn: Vec2, now: nat) returns (origin: Origin)
      modifies this`ghosts
      ensures origin == OriginOf(a, old(ghosts), now, spawn)
      ensures ghosts == if origin.resumed then old(ghosts) - {a.playerId} else old(ghosts)
    {
      if a.ticket.Some? {
        var t := a.ticket.value;
        return Origin(t.position, t.velocity, t.lastInput, a.region, false);
      }
      if a.playerId in ghosts && ghosts[a.playerId].expires > now && ghosts[a.playerId].token == a.token {
        var g := ghosts[a.playerId];
        ghosts := ghosts - {a.playerId};
        return Origin(g.position, g.velocity, g.lastInput, g.region, true);
      }
      origin := Origin(spawn, STILL, 0, a.region, false);
    }

    /** A client's inputs; one that is being redirected is no longer listened to.  The
        tables stay in order if the inputs are orderly, and only then for as many as a
        packet can carry. */
    method Payload(client: nat, inputs: seq<nat>)
      requires Valid()
      modifies this`players, world`players
      ensures old(Heeds(client)) && !Orderly(old(world.players)[client].slot, inputs) && |inputs| <= MAX_QUEUED ==>
                !Valid()
      ensures (old(Heeds(client)) ==> Orderly(old(world.players)[client].slot, inputs)) ==> Valid()
      ensures !old(Heeds(client)) ==> View() == old(View())
      ensures old(Heeds(client)) ==>
                var p, slot := old(players)[client], old(world.players)[client];
                var queued := QueueAll(slot.slot, inputs);
                View() == old(View()).With(p.(lastInput := queued.highest), slot.(slot := queued))
      ensures forall id, s | old(Shows(id, s)) ::
                Shows(id, if old(View()).IsAt(client, id) && s.copy.Some? then Heard(s, inputs) else s)
    {
      hide EntityStore.Contents, EntityStore.Valid, Matched, Tables.Agree, Tables.With, SlotOk, QueueInput, QueueAll,
        Reflects, Heard;
      ghost var t := View();
      if client !in players { return; }
      PlayerFacts(t, client);
      if players[client].redirecting {
        forall id, s | Shows(id, s) && t.IsAt(client, id) ensures s.copy.Some? ==> Heard(s, inputs) == s {
          SameCopyOf(t, id, s, client);
          HeardNothing(s, inputs);
        }
        return;
      }
      ghost var p, slot := players[client], world.players[client];
      ghost var queued := QueueAll(slot.slot, inputs);
      QueueEach(client, inputs);
      SlotThere(t.slots, Entities(), world.nextEntity, client);
      QueueAllExact(slot.slot, inputs);
      SlotSwapped(t.slots, world.players, Entities(), world.nextEntity, client, queued);
      WithKeeps(t, p.(lastInput := queued.highest), slot.(slot := queued));
      forall id, s | Reflects(t, id, s)
        ensures Shows(id, if t.IsAt(client, id) && s.copy.Some? then Heard(s, inputs) else s)
      {
        PayloadReflects(t, client, inputs, id, s);
      }
    }

    /** Queues a client's inputs one by one. */
    method QueueEach(client: nat, inputs: seq<nat>)
      requires client in players && players[client].client == client && client in world.players
      requires players[client].lastInput == world.players[client].slot.highest
      modifies this`players, world`players
      ensures var p, slot := old(players)[client], old(world.players)[client];
              var queued := QueueAll(slot.slot, inputs);
              && View() == old(View()).With(p.(lastInput := queued.highest), slot.(slot := queued))
              && world.players == old(world.players)[client := slot.(slot := queued)]
    {
      hide QueueInput;
      ghost var p, slot := players[client], world.players[client];
      for i := 0 to |inputs|
        invariant client in players && client in world.players
        invariant world.players == old(world.players)[client := slot.(slot := QueueAll(slot.slot, inputs[..i]))]
        invariant players == old(players)[client := p.(lastInput := QueueAll(slot.slot, inputs[..i]).highest)]
      {
        assert inputs[..i + 1][..i] == inputs[..i];
        OneInput(client, inputs[i]);
      }
      assert inputs[..|inputs|] == inputs;
    }

    /** Is this a player whose inputs are taken? */
    ghost predicate Heeds(client: nat)
      reads this, world
    {
      client in players && !players[client].redirecting && client in world.players
    }

    method OneInput(client: nat, n: nat)
      requires client in players && client in world.players
      requires players[client].lastInput == world.players[client].slot.highest
      modifies this`players, world`players
      ensures var p, slot := old(players)[client], old(world.players)[client];
              var queued := QueueInput(slot.slot, n);
              && world.players == old(world.players)[client := slot.(slot := queued)]
              && players == old(players)[client := p.(lastInput := queued.highest)]
    {
      hide Worlds.World.Valid;
      var p := players[client];
      world.Queue(client, n);
      var last := if n > p.lastInput then n else p.lastInput;
      players := players[client := p.(lastInput := last)];
    }

    /** The player was handed off and drains its queue until the deadline. */
    method Redirect(client: nat, deadline: nat)
      requires Valid() && client in players
      modifies this`players
      ensures Valid()
      ensures players == old(players)[client := old(players)[client].(redirecting := true, deadline := deadline)]
      ensures forall id, s | old(Shows(id, s)) ::
                Shows(id, if old(View()).IsAt(client, id) && s.copy.Some? then SentOff(s) else s)
    {
      hide EntityStore.Contents, EntityStore.Valid, Matched, Tables.Agree, SlotOk, Reflects;
      ghost var t := View();
      PlayerFacts(t, client);
      var p := players[client].(redirecting := true, deadline := deadline);
      assert world.players[client := world.players[client]] == world.players;
      WithKeeps(t, p, t.slots[client]);
      players := players[client := p];
      assert View() == t.With(p, t.slots[client]);
      forall id, s | Reflects(t, id, s)
        ensures Shows(id, if t.IsAt(client, id) && s.copy.Some? then SentOff(s) else s)
      {
        SameCopyOf(t, id, s, client);
        var x := if s.copy.Some? then s.copy.value.(redirecting := true) else NewCopy(0, 0, 0);
        CopyReflects(t, p, t.slots[client], id, s, x);
      }
    }

    /** A player crosses into another of the shard's own regions. */
    method Rezone(client: nat, region: nat)
      requires Valid() && client in players
      modifies this`players
      ensures Valid() && players == old(players)[client := old(players)[client].(region := region)]
      ensures forall id, s | old(Shows(id, s)) :: Shows(id, s)
    {
      hide EntityStore.Contents, EntityStore.Valid, Matched, Tables.Agree, SlotOk, Reflects;
      ghost var t := View();
      PlayerFacts(t, client);
      var p := players[client].(region := region);
      assert world.players[client := world.players[client]] == world.players;
      WithKeeps(t, p, t.slots[client]);
      players := players[client := p];
      assert View() == t.With(p, t.slots[client]);
      forall id, s | Reflects(t, id, s) ensures Shows(id, s) {
        SameCopyOf(t, id, s, client);
        CopyReflects(t, p, t.slots[client], id, s, if s.copy.Some? then s.copy.value else NewCopy(0, 0, 0));
        if t.IsAt(client, id) { assert s.(copy := Some(s.copy.value)) == s; }
      }
    }

    /** Looks whether a player belongs elsewhere: into another region of this shard it
        just crosses, and to another shard it is offered with a ticket.  If the ticket is
        `granted` and the redirect `encodes`, the player is redirected. */
    method CheckMigration(client: nat, m: Regions.RegionMap, owned: set<nat>, issued: nat, granted: bool, encodes: bool,
                          deadline: nat) returns (offer: Option<Arrival>)
      requires Valid() && client in players && m.Valid()
      modifies this`players
      ensures Valid() && players[client].entity in Entities()
      ensures var p := old(players)[client];
              var e := Entities()[p.entity];
              var target := m.HandoffTarget(p.region, e.position);
              var stays := p.redirecting || target.Stay?;
              && offer == (if stays || target.region in owned then None
                           else Some(Arrival(p.playerId, e.position, e.velocity, p.lastInput, target.region, issued)))
              && players == (if stays then old(players)
                             else if target.region in owned then old(players)[client := p.(region := target.region)]
                             else if granted && encodes
                             then old(players)[client := p.(redirecting := true, deadline := deadline)]
                             else old(players))
      ensures !(offer.Some? && granted && encodes) ==> forall id, s | old(Shows(id, s)) :: Shows(id, s)
      ensures offer.Some? && granted && encodes ==>
                forall id, s | old(Shows(id, s)) ::
                  Shows(id, if old(View()).IsAt(client, id) && s.copy.Some? then SentOff(s) else s)
    {
      hide EntityStore.Contents, EntityStore.Valid, Matched, Tables.Agree, SlotOk, Reflects, SentOff,
        Regions.RegionMap.HandoffTarget;
      var p := players[client];
      ghost var t := View();
      var e := Whereabouts(client);
      assert View() == t;
      StillShown(t);
      if p.redirecting { return None; }
      var target := m.HandoffTarget(p.region, e.position);
      if target.Stay? { return None; }
      if target.region in owned {
        Rezone(client, target.region);
        return None;
      }
      offer := Some(Arrival(p.playerId, e.position, e.velocity, p.lastInput, target.region, issued));
      if granted && encodes { Redirect(client, deadline); }
    }

    /** What the tables show is a matter of the tables alone. */
    lemma StillShown(t: Tables)
      requires View() == t
      ensures forall id, s :: Shows(id, s) <==> Reflects(t, id, s)
    {
    }

    /** Where a player is. */
    method Whereabouts(client: nat) returns (e: Entity)
      requires Valid() && client in players
      ensures players[client].entity in Entities() && e == Entities()[players[client].entity]
    {
      hide EntityStore.Contents, EntityStore.Valid, Matched, Tables.Agree, SlotOk;
      PlayerFacts(View(), client);
      SlotThere(world.players, Entities(), world.nextEntity, client);
      e := Lookup(players[client].entity);
    }

    /** Drops every redirected player whose deadline has passed, and no other. */
    method ExpireRedirects(tick: nat, now: nat, grace: nat)
      requires Valid()
      modifies this`connections, this`players, this`byId, this`ghosts, world`players, world.entities
      ensures var t, gone := old(View()), Expired(old(View()), tick);
              && Valid() && View() == Minus(t, gone, IdsOf(t, gone))
              && Entities() == old(Entities()) - EntitiesOf(t, gone)
              && forall id, s | old(Shows(id, s)) :: Shows(id, if id in IdsOf(t, gone) then Leave(s) else s)
      ensures forall c <- old(players) ::
                c !in players <==> old(players)[c].redirecting && old(players)[c].deadline <= tick
    {
      hide Tables.Agree, Matched, EntityStore.Valid, EntityStore.Contents, Expired, Minus, IdsOf, EntitiesOf,
        Reflects, Leave;
      ghost var t, gone: set<nat> := View(), {};
      MinusNone(t, Entities());
      var left := Overdue(tick);
      while left != {}
        invariant gone + left == Expired(t, tick) && gone !! left
        invariant Valid() && View() == Minus(t, gone, IdsOf(t, gone))
        invariant Entities() == old(Entities()) - EntitiesOf(t, gone)
        invariant forall id, s | Reflects(t, id, s) :: Shows(id, if id in IdsOf(t, gone) then Leave(s) else s)
        decreases |left|
      {
        var client :| client in left;
        ExpiredOne(t, tick, client);
        DropRedirected(t, old(Entities()), gone, client, now, grace);
        left, gone := left - {client}, gone + {client};
      }
      assert gone == Expired(t, tick);
      forall c | c in t.players
        ensures c in Minus(t, gone, IdsOf(t, gone)).players
           <==> !(t.players[c].redirecting && t.players[c].deadline <= tick)
      {
        GoneExactly(t, tick, c);
      }
    }

    method Overdue(tick: nat) returns (clients: set<nat>)
      ensures clients == Expired(View(), tick)
    {
      clients := set c | c in players && players[c].redirecting && tick >= players[c].deadline;
    }

    /** One more of the players of `t` that are being redirected leaves. */
    method DropRedirected(ghost t: Tables, ghost entities: map<nat, Entity>, ghost gone: set<nat>,
                          client: nat, now: nat, grace: nat)
      requires Valid() && t.Agree() && client in t.players && t.players[client].redirecting && client !in gone
      requires View() == Minus(t, gone, IdsOf(t, gone)) && Entities() == entities - EntitiesOf(t, gone)
      requires forall id, s | Reflects(t, id, s) :: Shows(id, if id in IdsOf(t, gone) then Leave(s) else s)
      modifies this`connections, this`players, this`byId, this`ghosts, world`players, world.entities
      ensures var more := gone + {client};
              && Valid() && View() == Minus(t, more, IdsOf(t, more)) && Entities() == entities - EntitiesOf(t, more)
              && forall id, s | Reflects(t, id, s) :: Shows(id, if id in IdsOf(t, more) then Leave(s) else s)
    {
      hide EntityStore.Contents, EntityStore.Valid, Matched, Tables.Agree, Tables.Without, SlotOk, Minus, IdsOf,
        EntitiesOf, Reflects, Leave;
      MinusOne(t, entities, gone, client, Entities(), now + grace);
      MinusIds(t, gone, client);
      OneEntity(View(), Entities(), client);
      ghost var before := View();
      assert forall id :: before.IsAt(client, id) <==> id == t.players[client].playerId;
      RemoveConnection(client, now, grace);
    }

    /** Forgets the tickets that were issued too long ago. */
    method ExpireRedeemed(now: nat)
      requires Valid()
      modifies this`redeemed
      ensures Valid() && View() == old(View()).(redeemed := redeemed)
      ensures redeemed == map k | k in old(redeemed) && now <= old(redeemed)[k].issued + TICKET_TTL :: old(redeemed)[k]
      ensures forall id, s | old(Shows(id, s)) ::
                Shows(id, s.(redeemed := map k | k in s.redeemed && k in redeemed :: s.redeemed[k]))
    {
      hide EntityStore.Contents, EntityStore.Valid, Matched, Tables.Agree, Reflects;
      ghost var t := View();
      redeemed := map k | k in redeemed && now <= redeemed[k].issued + TICKET_TTL :: redeemed[k];
      SameAgreement(t, View());
      forall id, s | Reflects(t, id, s)
        ensures Shows(id, s.(redeemed := map k | k in s.redeemed && k in redeemed :: s.redeemed[k]))
      {
        ForgetReflects(t, redeemed, id, s);
      }
    }

    /** Forgets the ghosts whose time has passed. */
    method ExpireGhosts(now: nat)
      requires Valid()
      modifies this`ghosts
      ensures Valid() && View() == old(View()).(ghosts := ghosts)
      ensures ghosts == map id | id in old(ghosts) && now < old(ghosts)[id].expires :: old(ghosts)[id]
      ensures forall id, s | old(Shows(id, s)) ::
                Shows(id, if Faded(old(ghosts), id, now) then s.(leftover := None) else s)
    {
      hide EntityStore.Contents, EntityStore.Valid, Matched, Tables.Agree, Reflects;
      ghost var t := View();
      ghosts := map id | id in ghosts && now < ghosts[id].expires :: ghosts[id];
      SameAgreement(t, View());
      forall id, s | Reflects(t, id, s)
        ensures Shows(id, if Faded(t.ghosts, id, now) then s.(leftover := None) else s)
      {
        FadeReflects(t, ghosts, now, id, s);
      }
    }

    /** The inputs of one tick; see `World.ApplyInputs`. */
    method ApplyInputs(move: Movement)
      requires Valid()
      modifies world`players, world.entities
      ensures Valid() && View() == old(View()).Advanced()
      ensures Entities() == Carried(old(world.players), old(Entities()), old(world.players).Keys, move)
      ensures forall id, s | old(Shows(id, s)) :: Shows(id, Ticked(s))
    {
      hide EntityStore.Contents, EntityStore.Valid, Matched, Tables.Agree, SlotOk, Carried, Reflects, Worlds.Advanced,
        Ticked;
      ghost var t := View();
      forall id, s | Reflects(t, id, s) ensures Reflects(t.Advanced(), id, Ticked(s)) { AdvanceReflects(t, id, s); }
      AdvanceKeeps(t);
      world.ApplyInputs(move);
    }
  }

  /** The cluster knows `ticket` as `h`; a shard that remembers it already has it so. */
  ghost predicate Presents(t: Tables, id: string, s: InputLedger.Shard, token: nat, ticket: Arrival, h: Handoff) {
    && Reflects(t, id, s) && h.lastInput == ticket.lastInput
    && (token in t.redeemed ==> token in s.redeemed && s.redeemed[token] == h)
  }

  function EntityOf(client: nat, origin: Origin, noise: nat): Entity {
    Entity(origin.position, origin.velocity, PLAYER, client, origin.lastInput, noise)
  }

  /** A player that dropped out and comes back with the token of its session resumes
      exactly if it is in time, and then stands where it stood and goes on as it went. */
  lemma ReturnsWhereItWas(t: Tables, entities: map<nat, Entity>, nextEntity: nat, c: nat, expires: nat,
                          a: Admitted, now: nat, spawn: Vec2, client: nat, noise: nat)
    requires t.Agree() && Matched(t.slots, entities, nextEntity) && c in t.players && !t.players[c].redirecting
    requires a.ticket.None? && a.playerId == t.players[c].playerId && a.token == t.players[c].token
    ensures t.players[c].entity in entities
    ensures var e := entities[t.players[c].entity];
            var origin := OriginOf(a, t.Without(c, entities, expires).ghosts, now, spawn);
            var back := EntityOf(client, origin, noise);
            && (origin.resumed <==> now < expires) && back.kind == PLAYER && back.owner == client
            && (origin.resumed ==>
                  && back.position == e.position && back.velocity == e.velocity && back.lastInput == e.lastInput
                  && var there := t.Without(c, entities, expires).Entered(client, a, origin,
                     nextEntity).players[client];
                     there.region == t.players[c].region && there.token == a.token && there.entity == nextEntity)
  {
    hide SlotOk;
    PlayerFacts(t, c);
    SlotThere(t.slots, entities, nextEntity, c);
    hide Matched, Tables.Agree;
  }

  /** The same while its old session is still there: the new one takes its place. */
  lemma ReplacedWhereItWas(t: Tables, entities: map<nat, Entity>, nextEntity: nat, a: Admitted, now: nat, grace: nat,
                           spawn: Vec2, client: nat, noise: nat)
    requires t.Agree() && Matched(t.slots, entities, nextEntity) && a.playerId in t.byId && a.ticket.None? && grace > 0
    requires t.byId[a.playerId] in t.players && !t.players[t.byId[a.playerId]].redirecting
    requires a.token == t.players[t.byId[a.playerId]].token
    ensures t.players[t.byId[a.playerId]].entity in entities
    ensures var e := entities[t.players[t.byId[a.playerId]].entity];
            var left := t.Dialled().Replaced(a.playerId, entities, now + grace);
            var back := EntityOf(client, OriginOf(a, left.ghosts, now, spawn), noise);
            back.position == e.position && back.velocity == e.velocity && back.lastInput == e.lastInput
  {
    hide SlotOk, Matched, OriginOf, EntityOf, GhostsAfter;
    DialKeeps(t);
    IdHolder(t, a.playerId);
    ReturnsWhereItWas(t.Dialled(), entities, nextEntity, t.byId[a.playerId], now + grace, a, now, spawn, client, noise);
  }

  /** A player that arrives with a ticket stands where the ticket says. */
  lemma ArrivesAsTicketSays(a: Admitted, ghosts: map<string, GhostRecord>, now: nat, spawn: Vec2, client: nat,
                            noise: nat)
    requires a.ticket.Some?
    ensures var ticket, entity := a.ticket.value, EntityOf(client, OriginOf(a, ghosts, now, spawn), noise);
            && entity.position == ticket.position && entity.velocity == ticket.velocity
            && entity.lastInput == ticket.lastInput && entity.owner == client && entity.kind == PLAYER
  {
  }

  /** Without a ticket, a player resumes exactly if its ghost is there, in time and of the
      same session, and otherwise starts at rest at the spawn point. */
  lemma ResumesExactly(a: Admitted, ghosts: map<string, GhostRecord>, now: nat, spawn: Vec2, client: nat, noise: nat)
    requires a.ticket.None?
    ensures var origin := OriginOf(a, ghosts, now, spawn);
            var entity := EntityOf(client, origin, noise);
            && (origin.resumed <==> a.playerId in ghosts && now < ghosts[a.playerId].expires
                                    && ghosts[a.playerId].token == a.token)
            && (!origin.resumed ==>
                  && entity.position == spawn && entity.velocity == Vec2(0.0, 0.0) && entity.lastInput == 0
                  && origin.region == a.region)
  {
  }

  /** The entity of the session that a new one for `id` replaces. */
  ghost function StaleEntities(t: Tables, id: string): set<nat> {
    if id in t.byId then EntitiesOf(t, {t.byId[id]}) else {}
  }

  lemma OneEntity(t: Tables, entities: map<nat, Entity>, c: nat)
    ensures c in t.players ==> entities - EntitiesOf(t, {c}) == entities - {t.players[c].entity}
    ensures c !in t.players ==> entities - EntitiesOf(t, {c}) == entities
  {
    if c in t.players {
      assert EntitiesOf(t, {c}) == {t.players[c].entity};
    } else {
      assert EntitiesOf(t, {c}) == {};
    }
  }

  lemma OneStale(t: Tables, entities: map<nat, Entity>, id: string)
    ensures id !in t.byId ==> entities - StaleEntities(t, id) == entities
  {
  }

  lemma StaleDialled(t: Tables, id: string)
    ensures StaleEntities(t.Dialled(), id) == StaleEntities(t, id)
  {
  }

  /** The new connection outlives the session it replaces. */
  lemma ReplaceFrames(t: Tables, id: string, entities: map<nat, Entity>, expires: nat, client: nat)
    requires t.Agree() && client in t.connections && client !in t.players
    ensures var t' := t.Replaced(id, entities, expires);
            client in t'.connections && client !in t'.players && t'.redeemed == t.redeemed && t'.next == t.next
  {
    hide GhostsAfter;
  }

  /** A new connection changes no player. */
  lemma DialReflects(t: Tables, id: string, s: InputLedger.Shard)
    requires Reflects(t, id, s)
    ensures Reflects(t.Dialled(), id, s)
  {
    SameMemory(t, t.Dialled(), id, s.redeemed);
    hide Remembers;
  }

  /** One player's inputs arrive. */
  lemma PayloadReflects(t: Tables, client: nat, inputs: seq<nat>, id: string, s: InputLedger.Shard)
    requires t.Agree() && client in t.players && client in t.slots && !t.players[client].redirecting
    requires Reflects(t, id, s)
    ensures var p, slot := t.players[client], t.slots[client];
            var queued := QueueAll(slot.slot, inputs);
            Reflects(t.With(p.(lastInput := queued.highest), slot.(slot := queued)), id,
                     if t.IsAt(client, id) && s.copy.Some? then Heard(s, inputs) else s)
  {
    hide Tables.Agree, Tables.With, QueueAll, Reflects, Heard, Receive;
    PlayerFacts(t, client);
    var p, slot := t.players[client], t.slots[client];
    var queued := QueueAll(slot.slot, inputs);
    SameCopyOf(t, id, s, client);
    if s.copy.Some? { HeardIs(s, inputs); }
    CopyReflects(t, p.(lastInput := queued.highest), slot.(slot := queued), id, s,
                 if s.copy.Some? then Receive(s.copy.value, inputs) else NewCopy(0, 0, 0));
  }

  /** Forgotten tickets are forgotten for every player. */
  lemma ForgetReflects(t: Tables, left: map<nat, Arrival>, id: string, s: InputLedger.Shard)
    requires Reflects(t, id, s) && forall k <- left :: k in t.redeemed && t.redeemed[k] == left[k]
    ensures Reflects(t.(redeemed := left), id, s.(redeemed := map k | k in s.redeemed && k in left :: s.redeemed[k]))
  {
  }

  lemma FadeReflects(t: Tables, left: map<string, GhostRecord>, now: nat, id: string, s: InputLedger.Shard)
    requires Reflects(t, id, s) && left == map i | i in t.ghosts && now < t.ghosts[i].expires :: t.ghosts[i]
    ensures Reflects(t.(ghosts := left), id, if Faded(t.ghosts, id, now) then s.(leftover := None) else s)
  {
    SameMemory(t, t.(ghosts := left), id, s.redeemed);
    hide Remembers;
  }
}
