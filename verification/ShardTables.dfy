/**
 A shard's tables of who is on it: connections, players, the map from player ids to
 clients, the world's slots, ghosts of players that dropped out, and the tickets that
 were redeemed.  What the handlers do to them, as functions on one value.
 */
module ShardTables {
  import opened SequenceBuffers
  import opened Grid
  import opened EntityStores
  import opened InputLedger
  import opened Worlds

  datatype WorldPlayer = WorldPlayer(
    client: nat, playerId: string, entity: nat, region: nat, token: nat,
    lastInput: nat, redirecting: bool, deadline: nat)

  datatype GhostRecord = GhostRecord(
    position: Vec2, velocity: Vec2, lastInput: nat, region: nat, token: nat, expires: nat)

  /** What a ticket says about a player. */
  datatype Arrival = Arrival(playerId: string, position: Vec2, velocity: Vec2, lastInput: nat, region: nat, issued: nat)

  datatype Admitted = Admitted(playerId: string, token: nat, region: nat, ticket: Option<Arrival>)

  /** Where an admitted player starts from. */
  datatype Origin = Origin(position: Vec2, velocity: Vec2, lastInput: nat, region: nat, resumed: bool)

  /** From its ticket, or its own ghost if that has not expired, or the spawn point. */
  function OriginOf(a: Admitted, ghosts: map<string, GhostRecord>, now: nat, spawn: Vec2): Origin {
    if a.ticket.Some? then
      var t := a.ticket.value;
      Origin(t.position, t.velocity, t.lastInput, a.region, false)
    else if a.playerId in ghosts && ghosts[a.playerId].expires > now && ghosts[a.playerId].token == a.token then
      var g := ghosts[a.playerId];
      Origin(g.position, g.velocity, g.lastInput, g.region, true)
    else Origin(spawn, STILL, 0, a.region, false)
  }

  /** The ghosts once player `p` has left. */
  function GhostsAfter(ghosts: map<string, GhostRecord>, p: WorldPlayer, entities: map<nat, Entity>, expires: nat)
    : map<string, GhostRecord>
  {
    if p.redirecting || p.entity !in entities then ghosts
    else
      var e := entities[p.entity];
      ghosts[p.playerId := GhostRecord(e.position, e.velocity, e.lastInput, p.region, p.token, expires)]
  }

  datatype Tables = Tables(
    players: map<nat, WorldPlayer>, byId: map<string, nat>, slots: map<nat, PlayerSlot>,
    connections: set<nat>, next: nat, ghosts: map<string, GhostRecord>, redeemed: map<nat, Arrival>)
  {
    /** Every player has its connection, its world slot and its place in the id map, and
        the id map names no one else: one player for each id. */
    ghost predicate Agree() {
      && players.Keys == slots.Keys && (forall c <- connections :: c < next)
      && (forall c <- players :: PlayerAgrees(c))
      && forall p <- byId :: byId[p] in players && players[byId[p]].playerId == p
    }

    ghost predicate PlayerAgrees(c: nat)
      requires c in players
    {
      var p := players[c];
      && c in connections && p.client == c && p.playerId in byId && byId[p.playerId] == c
      && c in slots && p.entity == slots[c].entity && p.lastInput == slots[c].slot.highest
    }

    predicate IsAt(c: nat, id: string) {
      c in players && players[c].playerId == id
    }

    /** A new connection gets the next client number. */
    function Dialled(): Tables {
      this.(connections := connections + {next}, next := next + 1)
    }

    /** Connection `c` ends; its player leaves, and a ghost stays unless it was being
        redirected. */
    function Without(c: nat, entities: map<nat, Entity>, expires: nat): Tables {
      var t := this.(players := players - {c}, slots := slots - {c}, connections := connections - {c});
      if c !in players then t
      else t.(byId := byId - {players[c].playerId}, ghosts := GhostsAfter(ghosts, players[c], entities, expires))
    }

    /** The previous session of `id`, if any, ends. */
    function Replaced(id: string, entities: map<nat, Entity>, expires: nat): Tables {
      if id in byId then Without(byId[id], entities, expires) else this
    }

    /** Player `p` is there, under its id. */
    function Plus(p: WorldPlayer, slot: PlayerSlot): Tables {
      With(p, slot).(byId := byId[p.playerId := p.client])
    }

    /** Player `p` has changed. */
    function With(p: WorldPlayer, slot: PlayerSlot): Tables {
      this.(players := players[p.client := p], slots := slots[p.client := slot])
    }

    /** An admitted player enters as `client`; a ghost that it takes up is gone. */
    function Entered(client: nat, a: Admitted, origin: Origin, entity: nat): Tables {
      var p := WorldPlayer(client, a.playerId, entity, origin.region, a.token, origin.lastInput, false, 0);
      this.(ghosts := if origin.resumed then ghosts - {a.playerId} else ghosts)
          .Plus(p, PlayerSlot(entity, client, Slot([], origin.lastInput, origin.lastInput)))
    }

    ghost function Advanced(): Tables {
      this.(slots := Worlds.Advanced(slots, slots.Keys))
    }
  }

  // ---------------------------------------------------------------------------
  // The tables stay in agreement

  /** Two players never share an id or an entity. */
  lemma OnePlayerPerId(t: Tables, entities: map<nat, Entity>, nextEntity: nat, c: nat, d: nat)
    requires t.Agree() && Matched(t.slots, entities, nextEntity) && c in t.players && d in t.players && c != d
    ensures t.players[c].playerId != t.players[d].playerId && t.players[c].entity != t.players[d].entity
  {
    assert t.PlayerAgrees(c) && t.PlayerAgrees(d);
    assert SlotMatched(t.slots, entities, c) && SlotMatched(t.slots, entities, d);
  }

  lemma PlayerFacts(t: Tables, c: nat)
    requires t.Agree() && c in t.players
    ensures t.PlayerAgrees(c)
  {
  }

  lemma Absent(t: Tables, c: nat)
    requires t.Agree() && c !in t.players
    ensures c !in t.slots && t.players - {c} == t.players && t.slots - {c} == t.slots
  {
    assert c !in t.slots.Keys;
  }

  lemma IdHolder(t: Tables, id: string)
    requires t.Agree() && id in t.byId
    ensures t.byId[id] in t.players && t.players[t.byId[id]].playerId == id
  {
  }

  lemma DialKeeps(t: Tables)
    requires t.Agree()
    ensures t.Dialled().Agree() && t.next !in t.players && t.next !in t.slots
  {
    var t' := t.Dialled();
    forall d | d in t.players ensures t'.PlayerAgrees(d) && d != t.next { assert t.PlayerAgrees(d); }
    assert t.next !in t.players.Keys;
  }

  lemma LeaveKeepsAgreement(t: Tables, c: nat, entities: map<nat, Entity>, expires: nat)
    requires t.Agree()
    ensures t.Without(c, entities, expires).Agree()
  {
    hide GhostsAfter;
    var t' := t.Without(c, entities, expires);
    if c in t.players { assert t.PlayerAgrees(c); }
    forall d | d in t'.players ensures t'.PlayerAgrees(d) { assert t.PlayerAgrees(d); }
    assert t'.players.Keys == t'.slots.Keys;
  }

  /** Whoever leaves is gone from every table, and no one else is. */
  lemma LeavesAlone(t: Tables, c: nat, entities: map<nat, Entity>, expires: nat)
    requires t.Agree()
    ensures var t' := t.Without(c, entities, expires);
            && t'.players == t.players - {c} && t'.slots == t.slots - {c} && t'.connections == t.connections - {c}
            && (forall id :: id in t'.byId <==> id in t.byId && t.byId[id] != c)
            && (forall id <- t'.byId :: t'.byId[id] == t.byId[id]) && t'.next == t.next && t'.redeemed == t.redeemed
  {
    hide GhostsAfter, Tables.Agree;
    if c in t.players { PlayerFacts(t, c); }
    forall id | id in t.byId ensures t.byId[id] == c ==>
      c in t.players && t.players[c].playerId == id { IdHolder(t, id); }
  }

  lemma PlusKeeps(t: Tables, p: WorldPlayer, slot: PlayerSlot)
    requires t.Agree() && p.client !in t.players && p.client in t.connections && p.playerId !in t.byId
    requires p.entity == slot.entity && p.lastInput == slot.slot.highest
    ensures t.Plus(p, slot).Agree()
  {
    var t' := t.Plus(p, slot);
    forall d | d in t'.players ensures t'.PlayerAgrees(d) {
      if d != p.client { assert t.PlayerAgrees(d); }
    }
  }

  lemma EnterKeeps(t: Tables, client: nat, a: Admitted, origin: Origin, entity: nat)
    requires t.Agree() && client !in t.players && client in t.connections && a.playerId !in t.byId
    ensures t.Entered(client, a, origin, entity).Agree()
  {
    hide Tables.Plus;
    var left := t.(ghosts := if origin.resumed then t.ghosts - {a.playerId} else t.ghosts);
    SameAgreement(t, left);
    PlusKeeps(left, WorldPlayer(client, a.playerId, entity, origin.region, a.token, origin.lastInput, false, 0),
              PlayerSlot(entity, client, Slot([], origin.lastInput, origin.lastInput)));
  }

  /** Ghosts and tickets have no part in it. */
  lemma SameAgreement(t: Tables, t': Tables)
    requires t.Agree() && t' == t.(ghosts := t'.ghosts, redeemed := t'.redeemed)
    ensures t'.Agree()
  {
    forall d | d in t'.players ensures t'.PlayerAgrees(d) { assert t.PlayerAgrees(d); }
  }

  lemma WithKeeps(t: Tables, p: WorldPlayer, slot: PlayerSlot)
    requires t.Agree() && p.client in t.players && p.playerId == t.players[p.client].playerId
    requires p.entity == t.players[p.client].entity == slot.entity && p.lastInput == slot.slot.highest
    ensures t.With(p, slot).Agree()
  {
    var t' := t.With(p, slot);
    assert t.PlayerAgrees(p.client);
    forall d | d in t'.players ensures t'.PlayerAgrees(d) { assert t.PlayerAgrees(d); }
    assert t'.players.Keys == t'.slots.Keys;
  }

  lemma AdvanceKeeps(t: Tables)
    requires t.Agree()
    ensures t.Advanced().Agree()
  {
    var t' := t.Advanced();
    forall d | d in t'.players ensures t'.PlayerAgrees(d) { assert t.PlayerAgrees(d); }
    assert t'.slots.Keys == t.slots.Keys;
  }

  /** A ghost goes on from the last input that was applied, as `Leave` has it; inputs
      still queued are lost with the player. */
  lemma GhostKeepsApplied(t: Tables, entities: map<nat, Entity>, nextEntity: nat, c: nat, expires: nat)
    requires t.Agree() && Matched(t.slots, entities, nextEntity) && c in t.players && !t.players[c].redirecting
    ensures var p, after := t.players[c], GhostsAfter(t.ghosts, t.players[c], entities, expires);
            && p.playerId in after && c in t.slots
            && after[p.playerId].lastInput == t.slots[c].slot.applied && after[p.playerId].token == p.token
  {
    assert t.PlayerAgrees(c);
    assert SlotMatched(t.slots, entities, c);
  }

  // ---------------------------------------------------------------------------
  // One player of the tables, as the cluster sees it

  /** The tables hold of player `id` what the shard `s` of the cluster model holds of
      it.  Chains and destinations are history and have no counterpart. */
  ghost predicate Reflects(t: Tables, id: string, s: InputLedger.Shard) {
    HasCopy(t, id, s.copy) && HasGhost(t, id, s.leftover) && Remembers(t, id, s.redeemed)
  }

  predicate HasCopy(t: Tables, id: string, copy: Option<Copy>) {
    && (copy.Some? <==> id in t.byId)
    && (id in t.byId ==>
          var c := t.byId[id];
          c in t.players && c in t.slots && SameCopy(t.players[c], t.slots[c], copy.value))
  }

  predicate SameCopy(p: WorldPlayer, slot: PlayerSlot, x: Copy) {
    x.redirecting == p.redirecting && x.token == p.token && x.slot == slot.slot && x.reported == p.lastInput
  }

  predicate HasGhost(t: Tables, id: string, leftover: Option<Ghost>) {
    && (leftover.Some? <==> id in t.ghosts)
    && (id in t.ghosts ==>
          leftover.value.token == t.ghosts[id].token && leftover.value.applied == t.ghosts[id].lastInput)
  }

  ghost predicate Remembers(t: Tables, id: string, redeemed: map<nat, Handoff>) {
    && (forall k: nat :: k in redeemed <==> k in t.redeemed && t.redeemed[k].playerId == id)
    && forall k <- redeemed :: k in t.redeemed && redeemed[k].lastInput == t.redeemed[k].lastInput
  }

  lemma LeaveReflects(t: Tables, entities: map<nat, Entity>, nextEntity: nat, c: nat, expires: nat,
                      id: string, s: InputLedger.Shard)
    requires t.Agree() && Matched(t.slots, entities, nextEntity) && Reflects(t, id, s)
    ensures Reflects(t.Without(c, entities, expires), id, if t.IsAt(c, id) then Leave(s) else s)
  {
    hide Tables.Agree, HasCopy, HasGhost, Remembers, Tables.Without, Leave, Matched;
    LeaveCopy(t, entities, c, expires, id, s);
    LeaveGhost(t, entities, nextEntity, c, expires, id, s);
    LeaveMemory(t, entities, c, expires, s);
    SameMemory(t, t.Without(c, entities, expires), id, s.redeemed);
  }

  lemma LeaveCopy(t: Tables, entities: map<nat, Entity>, c: nat, expires: nat, id: string, s: InputLedger.Shard)
    requires t.Agree() && HasCopy(t, id, s.copy)
    ensures HasCopy(t.Without(c, entities, expires), id, if t.IsAt(c, id) then Leave(s).copy else s.copy)
  {
    hide GhostsAfter, Tables.Agree;
    if c in t.players { PlayerFacts(t, c); }
    if id in t.byId {
      IdHolder(t, id);
      PlayerFacts(t, t.byId[id]);
    }
  }

  lemma LeaveGhost(t: Tables, entities: map<nat, Entity>, nextEntity: nat, c: nat, expires: nat,
                   id: string, s: InputLedger.Shard)
    requires t.Agree() && Matched(t.slots, entities, nextEntity) && HasCopy(t, id, s.copy)
    requires HasGhost(t, id, s.leftover)
    ensures HasGhost(t.Without(c, entities, expires), id, if t.IsAt(c, id) then Leave(s).leftover else s.leftover)
  {
    if c in t.players {
      PlayerFacts(t, c);
      SlotThere(t.slots, entities, nextEntity, c);
    }
    hide Tables.Agree, Matched, SlotOk;
  }

  lemma LeaveMemory(t: Tables, entities: map<nat, Entity>, c: nat, expires: nat, s: InputLedger.Shard)
    ensures t.Without(c, entities, expires).redeemed == t.redeemed && Leave(s).redeemed == s.redeemed
  {
  }

  /** A shard once it has redeemed a ticket: it remembers it. */
  function Remembered(s: InputLedger.Shard, token: nat, t: Handoff): InputLedger.Shard {
    s.(redeemed := s.redeemed[token := t])
  }

  /** A shard once an admitted player is in, on chain `chain` if it has a ticket or
      starts anew. */
  function Settled(s: InputLedger.Shard, a: Admitted, expired: bool, chain: nat): InputLedger.Shard {
    if a.ticket.Some? then s.(copy := Some(NewCopy(a.token, chain, a.ticket.value.lastInput)))
    else LetIn(s, a.token, expired, chain)
  }

  /** The ghost of `id`, if there is one, has expired. */
  predicate Faded(ghosts: map<string, GhostRecord>, id: string, now: nat) {
    id in ghosts && ghosts[id].expires <= now
  }

  /** Redeeming a ticket, replacing the previous session and entering are together the
      cluster's arrival with that ticket. */
  lemma TicketArrives(s: InputLedger.Shard, a: Admitted, t: Handoff, expired: bool)
    requires a.ticket.Some? && a.ticket.value.lastInput == t.lastInput
    ensures Settled(Leave(Remembered(s, a.token, t)), a, expired, t.chain) == TakenIn(Leave(s), a.token, t)
    ensures a.token in s.redeemed && s.redeemed[a.token] == t ==> Remembered(s, a.token, t) == s
  {
    if a.token in s.redeemed && s.redeemed[a.token] == t {
      assert s.redeemed[a.token := t] == s.redeemed;
    }
  }

  /** A ticket is remembered for the player it names, whoever presents it. */
  lemma RedeemReflects(t: Tables, token: nat, ticket: Arrival, h: Handoff, id: string, s: InputLedger.Shard)
    requires Reflects(t, id, s) && token !in t.redeemed && h.lastInput == ticket.lastInput
    ensures Reflects(t.(redeemed := t.redeemed[token := ticket]), id,
                     if id == ticket.playerId then Remembered(s, token, h) else s)
  {
  }

  /** An arrival: the copy is there, and the ghost that is taken up is gone. */
  lemma EnterReflects(t: Tables, client: nat, a: Admitted, now: nat, spawn: Vec2, entity: nat,
                      id: string, s: InputLedger.Shard, chain: nat)
    requires t.Agree() && a.playerId !in t.byId && client !in t.players && Reflects(t, id, s)
    ensures Reflects(t.Entered(client, a, OriginOf(a, t.ghosts, now, spawn), entity), id,
                     if id == a.playerId then Settled(s, a, Faded(t.ghosts, id, now), chain) else s)
  {
    hide Tables.Agree, HasCopy, HasGhost, Remembers, Tables.Entered, Settled, Faded, OriginOf;
    EnterCopy(t, client, a, now, spawn, entity, id, s, chain);
    EnterGhost(t, client, a, now, spawn, entity, id, s, chain);
    EnterMemory(t, client, a, OriginOf(a, t.ghosts, now, spawn), entity, s, Faded(t.ghosts, id, now), chain);
    SameMemory(t, t.Entered(client, a, OriginOf(a, t.ghosts, now, spawn), entity), id, s.redeemed);
  }

  lemma EnterCopy(t: Tables, client: nat, a: Admitted, now: nat, spawn: Vec2, entity: nat,
                  id: string, s: InputLedger.Shard, chain: nat)
    requires t.Agree() && a.playerId !in t.byId && client !in t.players
    requires HasCopy(t, id, s.copy) && HasGhost(t, id, s.leftover)
    ensures HasCopy(t.Entered(client, a, OriginOf(a, t.ghosts, now, spawn), entity), id,
                    if id == a.playerId then Settled(s, a, Faded(t.ghosts, id, now), chain).copy else s.copy)
  {
    hide Tables.Agree, HasGhost, Settled, OriginOf, LetIn;
    if id in t.byId { PlayerFacts(t, t.byId[id]); }
    if id == a.playerId { SettledCopy(t, a, now, spawn, id, s, chain); }
  }

  /** The copy that settles starts where the tables have the player start. */
  lemma SettledCopy(t: Tables, a: Admitted, now: nat, spawn: Vec2, id: string, s: InputLedger.Shard, chain: nat)
    requires id == a.playerId && HasGhost(t, id, s.leftover)
    ensures var from := OriginOf(a, t.ghosts, now, spawn).lastInput;
            var x := Settled(s, a, Faded(t.ghosts, id, now), chain).copy;
            x.Some? && !x.value.redirecting && x.value.token == a.token && x.value.reported == from
            && x.value.slot == Slot([], from, from)
  {
  }

  lemma EnterGhost(t: Tables, client: nat, a: Admitted, now: nat, spawn: Vec2, entity: nat,
                   id: string, s: InputLedger.Shard, chain: nat)
    requires HasGhost(t, id, s.leftover)
    ensures HasGhost(t.Entered(client, a, OriginOf(a, t.ghosts, now, spawn), entity), id,
                     if id == a.playerId then Settled(s, a, Faded(t.ghosts, id, now), chain).leftover else s.leftover)
  {
  }

  lemma EnterMemory(t: Tables, client: nat, a: Admitted, origin: Origin, entity: nat,
                    s: InputLedger.Shard, expired: bool, chain: nat)
    ensures t.Entered(client, a, origin, entity).redeemed == t.redeemed
    ensures Settled(s, a, expired, chain).redeemed == s.redeemed
  {
  }

  lemma AdvanceReflects(t: Tables, id: string, s: InputLedger.Shard)
    requires Reflects(t, id, s)
    ensures Reflects(t.Advanced(), id, Ticked(s))
  {
    hide ApplyInput, Remembers;
    assert Remembers(t.Advanced(), id, s.redeemed) by { SameMemory(t, t.Advanced(), id, s.redeemed); }
  }

  lemma SameMemory(t: Tables, t': Tables, id: string, redeemed: map<nat, Handoff>)
    requires Remembers(t, id, redeemed) && t'.redeemed == t.redeemed
    ensures Remembers(t', id, redeemed)
  {
  }

  lemma NothingLeaves(t: Tables, id: string, s: InputLedger.Shard)
    requires Reflects(t, id, s) && id !in t.byId
    ensures Leave(s) == s
  {
  }

  /** A player in the tables is the copy of its id. */
  lemma SameCopyOf(t: Tables, id: string, s: InputLedger.Shard, c: nat)
    requires t.Agree() && Reflects(t, id, s) && c in t.players
    ensures t.players[c].playerId == id ==>
              s.copy.Some? && c in t.slots && SameCopy(t.players[c], t.slots[c], s.copy.value)
  {
    assert t.PlayerAgrees(c);
  }

  /** One player's copy changes. */
  lemma CopyReflects(t: Tables, p: WorldPlayer, slot: PlayerSlot, id: string, s: InputLedger.Shard, x: Copy)
    requires t.Agree() && p.client in t.players && p.playerId == t.players[p.client].playerId
    requires Reflects(t, id, s) && (id == p.playerId ==> SameCopy(p, slot, x))
    ensures Reflects(t.With(p, slot), id, if id == p.playerId then s.(copy := Some(x)) else s)
  {
    assert t.PlayerAgrees(p.client);
    if id in t.byId { assert t.PlayerAgrees(t.byId[id]); }
  }

  // ---------------------------------------------------------------------------
  // Inputs

  function QueueAll(s: Slot, inputs: seq<nat>): Slot {
    if inputs == [] then s else QueueInput(QueueAll(s, inputs[..|inputs| - 1]), inputs[|inputs| - 1])
  }

  /** Queueing inputs keeps a queue in order if they are orderly, and otherwise a zero
      stays in front of it for as long as nothing has been dropped. */
  lemma {:induction false} QueueAllExact(s: Slot, inputs: seq<nat>)
    requires SlotOk(s)
    ensures var t := QueueAll(s, inputs);
            && t.applied == s.applied && t.highest >= s.highest
            && (Orderly(s, inputs) ==> SlotOk(t) && (inputs != [] ==> t.highest != 0))
            && (!Orderly(s, inputs) ==> |t.pending| <= |inputs|)
            && (!Orderly(s, inputs) && |inputs| <= MAX_QUEUED ==> !SlotOk(t) && t.pending != [] && t.pending[0] == 0)
  {
    if inputs != [] {
      var last := |inputs| - 1;
      var before, n := QueueAll(s, inputs[..last]), inputs[last];
      QueueAllExact(s, inputs[..last]);
      if Orderly(s, inputs) {
        hide SlotOk, QueueInput;
        assert Orderly(s, inputs[..last]);
        QueueKeeps(before, n);
      } else {
        NoneYet(s);
        hide SlotOk;
        if |inputs| <= MAX_QUEUED { ZeroFirst(QueueAll(s, inputs)); }
      }
    }
  }

  /** The inputs that are newer than all before them, the highest so far included; any
      is, while nothing has been received. */
  function Fresh(highest: nat, inputs: seq<nat>): seq<nat>
    decreases |inputs|
  {
    if inputs == [] then []
    else if inputs[0] > highest || highest == 0 then [inputs[0]] + Fresh(inputs[0], inputs[1..])
    else Fresh(highest, inputs[1..])
  }

  function Newest(inputs: seq<nat>, n: nat): seq<nat> {
    if |inputs| <= n then inputs else inputs[|inputs| - n..]
  }

  /** A queue holds the newest 32 of what was there and what is fresh: nothing is lost
      but the oldest inputs of a full queue. */
  lemma {:induction false} QueueAllNewest(s: Slot, inputs: seq<nat>)
    requires |s.pending| <= 32
    ensures QueueAll(s, inputs).pending == Newest(s.pending + Fresh(s.highest, inputs), 32)
    decreases |inputs|
  {
    hide QueueInput, QueueAll, Fresh, Newest;
    FreshFirst(s.highest, inputs);
    QueueOne(s, inputs);
    if inputs == [] {
      NewestAll(s.pending);
    } else {
      var t := QueueInput(s, inputs[0]);
      FirstThenRest(s, inputs);
      QueueAllNewest(t, inputs[1..]);
      if inputs[0] > s.highest || s.highest == 0 {
        NewestAgain(s.pending + [inputs[0]], Fresh(inputs[0], inputs[1..]));
        assert s.pending + [inputs[0]] + Fresh(inputs[0], inputs[1..])
            == s.pending + ([inputs[0]] + Fresh(inputs[0], inputs[1..]));
      }
    }
  }

  lemma FreshFirst(highest: nat, inputs: seq<nat>)
    ensures inputs == [] ==> Fresh(highest, inputs) == []
    ensures inputs != [] ==>
              Fresh(highest, inputs) == if inputs[0] > highest || highest == 0
                                        then [inputs[0]] + Fresh(inputs[0], inputs[1..])
                                        else Fresh(highest, inputs[1..])
  {
  }

  lemma QueueOne(s: Slot, inputs: seq<nat>)
    requires |s.pending| <= 32
    ensures inputs == [] ==> QueueAll(s, inputs) == s
    ensures inputs != [] ==>
              var n, t := inputs[0], QueueInput(s, inputs[0]);
              if n > s.highest || s.highest == 0
              then t.pending == Newest(s.pending + [n], 32) && t.highest == n && |t.pending| <= 32
              else t == s
  {
  }

  lemma NewestAll(inputs: seq<nat>)
    requires |inputs| <= 32
    ensures inputs + [] == inputs && Newest(inputs + [], 32) == inputs
  {
  }

  lemma NewestAgain(a: seq<nat>, b: seq<nat>)
    ensures Newest(Newest(a, 32) + b, 32) == Newest(a + b, 32)
  {
  }

  lemma NoneYet(s: Slot)
    requires SlotOk(s) && s.highest == 0
    ensures s.pending == []
  {
    if s.pending != [] { PendingAbove(s); }
  }

  lemma ZeroFirst(s: Slot)
    requires s.pending != [] && s.pending[0] == 0
    ensures !SlotOk(s)
  {
    assert !(s.applied < s.pending[0]);
  }

  /** What a copy receives is what its slot queues, and it reports the highest. */
  lemma {:induction false} ReceiveIsQueueAll(x: Copy, inputs: seq<nat>)
    requires !x.redirecting && x.reported == x.slot.highest
    ensures var slot := QueueAll(x.slot, inputs); Receive(x, inputs) == x.(slot := slot, reported := slot.highest)
    decreases |inputs|
  {
    if inputs != [] {
      var n, rest := inputs[0], inputs[1..];
      ReceiveIsQueueAll(
        x.(slot := QueueInput(x.slot, n), reported := if n > x.reported then n else x.reported), rest);
      FirstThenRest(x.slot, inputs);
    }
  }

  lemma {:induction false} FirstThenRest(s: Slot, inputs: seq<nat>)
    requires inputs != []
    ensures QueueAll(s, inputs) == QueueAll(QueueInput(s, inputs[0]), inputs[1..])
    decreases |inputs|
  {
    hide QueueInput;
    var last := |inputs| - 1;
    if last == 0 {
      assert inputs[..0] == [] && inputs[1..] == [];
    } else {
      FirstThenRest(s, inputs[..last]);
      assert inputs[..last][1..] == inputs[1..][..last - 1] && inputs[1..][last - 1] == inputs[last];
    }
  }

  lemma HeardNothing(s: InputLedger.Shard, inputs: seq<nat>)
    requires s.copy.Some? && s.copy.value.redirecting
    ensures Heard(s, inputs) == s
  {
  }

  lemma HeardIs(s: InputLedger.Shard, inputs: seq<nat>)
    requires s.copy.Some?
    ensures Heard(s, inputs) == s.(copy := Some(Receive(s.copy.value, inputs)))
    ensures !s.copy.value.redirecting && s.copy.value.reported == s.copy.value.slot.highest ==>
              var slot := QueueAll(s.copy.value.slot, inputs);
              Receive(s.copy.value, inputs) == s.copy.value.(slot := slot, reported := slot.highest)
  {
    if !s.copy.value.redirecting && s.copy.value.reported == s.copy.value.slot.highest {
      ReceiveIsQueueAll(s.copy.value, inputs);
    }
  }

  // ---------------------------------------------------------------------------
  // Redirect expiry

  ghost function Expired(t: Tables, tick: nat): set<nat> {
    set c | c in t.players && t.players[c].redirecting && tick >= t.players[c].deadline
  }

  lemma ExpiredOne(t: Tables, tick: nat, c: nat)
    requires c in Expired(t, tick)
    ensures c in t.players && t.players[c].redirecting
  {
  }

  lemma GoneExactly(t: Tables, tick: nat, c: nat)
    requires c in t.players
    ensures var gone, p := Expired(t, tick), t.players[c];
            c in Minus(t, gone, IdsOf(t, gone)).players <==> !(p.redirecting && p.deadline <= tick)
  {
  }

  /** The tables once the given players, all redirected, have left. */
  function Minus(t: Tables, gone: set<nat>, ids: set<string>): Tables {
    t.(players := t.players - gone, slots := t.slots - gone, connections := t.connections - gone, byId := t.byId - ids)
  }

  ghost function IdsOf(t: Tables, clients: set<nat>): set<string> {
    set c | c in clients && c in t.players :: t.players[c].playerId
  }

  ghost function EntitiesOf(t: Tables, clients: set<nat>): set<nat> {
    set c | c in clients && c in t.players :: t.players[c].entity
  }

  lemma MinusNone(t: Tables, entities: map<nat, Entity>)
    ensures Minus(t, {}, IdsOf(t, {})) == t && entities - EntitiesOf(t, {}) == entities && IdsOf(t, {}) == {}
  {
    assert IdsOf(t, {}) == {} && EntitiesOf(t, {}) == {};
    assert t.players - {} == t.players && t.slots - {} == t.slots && t.byId - {} == t.byId;
  }

  lemma MinusOne(t: Tables, entities: map<nat, Entity>, gone: set<nat>, c: nat, others: map<nat, Entity>, expires: nat)
    requires t.Agree() && c in t.players && t.players[c].redirecting && c !in gone
    ensures var m := Minus(t, gone, IdsOf(t, gone));
            && c in m.players && m.players[c] == t.players[c]
            && m.Without(c, others, expires) == Minus(t, gone + {c}, IdsOf(t, gone + {c}))
            && IdsOf(t, gone + {c}) == IdsOf(t, gone) + {t.players[c].playerId}
    ensures entities - EntitiesOf(t, gone) - {t.players[c].entity} == entities - EntitiesOf(t, gone + {c})
  {
    hide IdsOf, EntitiesOf, Tables.Agree;
    OneMoreOf(t, gone, c);
    MinusTwice(t.players, gone, c);
    MinusTwice(t.slots, gone, c);
    MinusTwice(t.byId, IdsOf(t, gone), t.players[c].playerId);
    MinusTwice(entities, EntitiesOf(t, gone), t.players[c].entity);
  }

  lemma OneMoreOf(t: Tables, gone: set<nat>, c: nat)
    requires c in t.players
    ensures IdsOf(t, gone + {c}) == IdsOf(t, gone) + {t.players[c].playerId}
    ensures EntitiesOf(t, gone + {c}) == EntitiesOf(t, gone) + {t.players[c].entity}
  {
  }

  lemma MinusTwice<K, V>(m: map<K, V>, gone: set<K>, k: K)
    ensures m - gone - {k} == m - (gone + {k})
  {
  }

  /** Ids of different players are different, so each goes on its own. */
  lemma MinusIds(t: Tables, gone: set<nat>, c: nat)
    requires t.Agree() && c in t.players && c !in gone
    ensures t.players[c].playerId !in IdsOf(t, gone)
  {
    forall d | d in gone && d in t.players ensures t.players[d].playerId != t.players[c].playerId {
      assert t.PlayerAgrees(c) && t.PlayerAgrees(d);
    }
  }
}
