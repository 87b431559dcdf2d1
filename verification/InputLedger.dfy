/**
 One player's inputs across shards.  Each shard has at most one copy of the player
 with a queue of numbered inputs; a handoff ticket or a ghost carries the number to
 go on from.  A `chain` names an unbroken line of handoffs and resumes, and
 `consumed` records every input that any shard has applied.
 */
module InputLedger {
  import opened SequenceBuffers

  const MAX_QUEUED: nat := 32

  // ---------------------------------------------------------------------------
  // One copy's queue

  /** The player's slot in a shard's world. */
  datatype Slot = Slot(pending: seq<nat>, applied: nat, highest: nat)

  /** Stale and duplicate inputs are dropped, and the oldest one if the queue is full. */
  function QueueInput(s: Slot, n: nat): Slot {
    if n <= s.highest && s.highest != 0 then s
    else Slot((if |s.pending| >= MAX_QUEUED then s.pending[1..] else s.pending) + [n], s.applied, n)
  }

  function ApplyInput(s: Slot): Slot {
    if s.pending == [] then s else Slot(s.pending[1..], s.pending[0], s.highest)
  }

  /** Inputs are numbered from 1.  A zero is dropped like any stale input once
      something has been received, but not before. */
  predicate Orderly(s: Slot, inputs: seq<nat>) {
    s.highest != 0 || inputs == [] || inputs[0] != 0
  }

  ghost predicate SlotOk(s: Slot) {
    && s.applied <= s.highest
    && (forall i, j | 0 <= i < j < |s.pending| :: s.pending[i] < s.pending[j])
    && forall i | 0 <= i < |s.pending| :: s.applied < s.pending[i] <= s.highest
  }

  // ---------------------------------------------------------------------------
  // Everything that carries the player's inputs

  /** A player on a shard, possibly one that has been handed off. */
  datatype Copy = Copy(redirecting: bool, token: nat, chain: nat, slot: Slot, reported: nat)

  /** What a shard keeps of a player that dropped out. */
  datatype Ghost = Ghost(token: nat, chain: nat, applied: nat)

  datatype Handoff = Handoff(to: nat, chain: nat, lastInput: nat)

  datatype Shard = Shard(copy: Option<Copy>, leftover: Option<Ghost>, redeemed: map<nat, Handoff>)

  const VACANT: Shard := Shard(None, None, map[])

  datatype Ledger = Ledger(
    shards: map<nat, Shard>, tickets: map<nat, Handoff>, consumed: seq<(nat, nat)>, chains: nat)
  {
    function At(a: nat): Shard {
      if a in shards then shards[a] else VACANT
    }

    function With(a: nat, s: Shard): Ledger {
      this.(shards := shards[a := s])
    }
  }

  predicate Live(l: Ledger, a: nat) {
    l.At(a).copy.Some? && !l.At(a).copy.value.redirecting
  }

  /** Where the right to go on with a chain can be. */
  datatype Holder = OnShard(shard: nat) | AsGhost(shard: nat) | AsTicket(token: nat)

  /** The chain a holder can go on with, and the input number it goes on from. */
  datatype Claim = Claim(chain: nat, base: nat)

  function ClaimOf(l: Ledger, h: Holder): Option<Claim> {
    match h
    case OnShard(a) =>
      if Live(l, a) then Some(Claim(l.At(a).copy.value.chain, l.At(a).copy.value.slot.applied)) else None
    case AsGhost(a) =>
      if l.At(a).leftover.Some? then Some(Claim(l.At(a).leftover.value.chain, l.At(a).leftover.value.applied)) else None
    case AsTicket(t) =>
      if t in l.tickets then Some(Claim(l.tickets[t].chain, l.tickets[t].lastInput)) else None
  }

  // ---------------------------------------------------------------------------
  // The invariant

  ghost predicate CopyOk(l: Ledger, a: nat) {
    l.At(a).copy.Some? ==>
      var x := l.At(a).copy.value;
      && SlotOk(x.slot) && x.reported == x.slot.highest && x.chain < l.chains
      && forall n <- x.slot.pending :: (x.chain, n) !in l.consumed
  }

  /** Copies of one chain never wait for the same input. */
  ghost predicate Apart(l: Ledger, a: nat, b: nat) {
    a != b && l.At(a).copy.Some? && l.At(b).copy.Some? && l.At(a).copy.value.chain == l.At(b).copy.value.chain ==>
      forall n <- l.At(a).copy.value.slot.pending :: n !in l.At(b).copy.value.slot.pending
  }

  /** Whoever goes on with a chain starts past all that was consumed in it and all
      that handed-off copies still have to drain. */
  ghost predicate HolderOk(l: Ledger, h: Holder) {
    ClaimOf(l, h).Some? ==>
      var claim := ClaimOf(l, h).value;
      && claim.chain < l.chains
      && (forall e <- l.consumed :: e.0 == claim.chain ==> e.1 <= claim.base)
      && forall a: nat :: Behind(l, a, claim)
  }

  ghost predicate Behind(l: Ledger, a: nat, claim: Claim) {
    l.At(a).copy.Some? && l.At(a).copy.value.redirecting && l.At(a).copy.value.chain == claim.chain ==>
      l.At(a).copy.value.slot.highest <= claim.base
  }

  ghost predicate SoleHolder(l: Ledger, g: Holder, h: Holder) {
    ClaimOf(l, g).Some? && ClaimOf(l, h).Some? && ClaimOf(l, g).value.chain == ClaimOf(l, h).value.chain ==> g == h
  }

  ghost predicate Once(consumed: seq<(nat, nat)>, chains: nat) {
    && (forall i, j | 0 <= i < j < |consumed| :: consumed[i] != consumed[j])
    && forall e <- consumed :: e.0 < chains
  }

  ghost predicate Sound(l: Ledger) {
    && Once(l.consumed, l.chains)
    && (forall a: nat :: CopyOk(l, a))
    && (forall a: nat, b: nat :: Apart(l, a, b))
    && (forall h :: HolderOk(l, h))
    && forall g, h :: SoleHolder(l, g, h)
  }

  // ---------------------------------------------------------------------------
  // Steps

  /** Nothing new: every copy and every claim was there before. */
  ghost predicate Shrinks(l: Ledger, m: Ledger) {
    && m.consumed == l.consumed && m.chains == l.chains
    && (forall a: nat :: m.At(a).copy.None? || m.At(a).copy == l.At(a).copy)
    && forall h :: ClaimOf(m, h).None? || ClaimOf(m, h) == ClaimOf(l, h)
  }

  lemma ShrinkKeeps(l: Ledger, m: Ledger)
    requires Sound(l) && Shrinks(l, m)
    ensures Sound(m)
  {
    forall a: nat ensures CopyOk(m, a) { assert CopyOk(l, a); }
    forall a: nat, b: nat ensures Apart(m, a, b) { assert Apart(l, a, b); }
    forall h ensures HolderOk(m, h) {
      assert HolderOk(l, h);
      if ClaimOf(m, h).Some? {
        forall a: nat ensures Behind(m, a, ClaimOf(m, h).value) { assert Behind(l, a, ClaimOf(l, h).value); }
      }
    }
    forall g, h ensures SoleHolder(m, g, h) { assert SoleHolder(l, g, h); }
  }

  /** A copy leaves; unless it was handed off, its ghost stays. */
  function Leave(s: Shard): Shard {
    if s.copy.None? then s
    else
      var x := s.copy.value;
      if x.redirecting then s.(copy := None)
      else s.(copy := None, leftover := Some(Ghost(x.token, x.chain, x.slot.applied)))
  }

  lemma LeaveKeeps(l: Ledger, a: nat)
    requires Sound(l)
    ensures Sound(l.With(a, Leave(l.At(a))))
  {
    hide Sound;
    var m := l.With(a, Leave(l.At(a)));
    if Live(l, a) {
      Passes(l, m, OnShard(a), AsGhost(a));
    } else {
      ShrinkKeeps(l, m);
    }
  }

  /** The right to a chain passes from one holder to another that starts no earlier;
      everything else only shrinks, and copies only get handed off. */
  ghost predicate PassesOn(l: Ledger, m: Ledger, from: Holder, to: Holder) {
    && m.consumed == l.consumed && m.chains == l.chains
    && ClaimOf(l, from).Some? && ClaimOf(m, to).Some?
    && ClaimOf(m, to).value.chain == ClaimOf(l, from).value.chain
    && ClaimOf(m, to).value.base >= ClaimOf(l, from).value.base
    && (forall h | h != to :: ClaimOf(m, h).None? || (h != from && ClaimOf(m, h) == ClaimOf(l, h)))
    && forall a: nat :: CopyPasses(l, m, a, ClaimOf(m, to).value)
  }

  /** The copy at `a` is gone, unchanged, handed off for `claim`, or new for it. */
  ghost predicate CopyPasses(l: Ledger, m: Ledger, a: nat, claim: Claim) {
    || m.At(a).copy.None?
    || (m.At(a).copy == l.At(a).copy)
    || (l.At(a).copy.Some? && !l.At(a).copy.value.redirecting && m.At(a).copy.value.redirecting
        && m.At(a).copy == Some(l.At(a).copy.value.(redirecting := true))
        && claim.base == l.At(a).copy.value.slot.highest && claim.chain == l.At(a).copy.value.chain)
    || (!m.At(a).copy.value.redirecting && m.At(a).copy.value.chain == claim.chain
        && m.At(a).copy.value.slot == Slot([], claim.base, claim.base) && m.At(a).copy.value.reported == claim.base)
  }

  lemma Passes(l: Ledger, m: Ledger, from: Holder, to: Holder)
    requires Sound(l) && PassesOn(l, m, from, to)
    ensures Sound(m)
  {
    hide Sound, CopyOk, Apart, HolderOk, SoleHolder, Once, CopyPasses, ClaimOf;
    forall a: nat, b: nat, g, h ensures Parts(m, a, b, g, h) {
      Holds(l, a, b, from, h);
      Holds(l, a, b, g, from);
      Holds(l, a, b, g, h);
      PassesCopies(l, m, from, to, a, b);
      PassesHolder(l, m, from, to, h);
      PassesSole(l, m, from, to, g, h);
    }
    Holds(l, 0, 0, from, from);
    IsSound(m);
  }

  lemma PassesCopies(l: Ledger, m: Ledger, from: Holder, to: Holder, a: nat, b: nat)
    requires PassesOn(l, m, from, to) && HolderOk(l, from) && CopyOk(l, a) && CopyOk(l, b) && Apart(l, a, b)
    ensures CopyOk(m, a) && Apart(m, a, b)
  {
    assert CopyPasses(l, m, a, ClaimOf(m, to).value) && CopyPasses(l, m, b, ClaimOf(m, to).value);
    hide PassesOn, ClaimOf;
  }

  lemma PassesHolder(l: Ledger, m: Ledger, from: Holder, to: Holder, h: Holder)
    requires Sound(l) && PassesOn(l, m, from, to)
    ensures HolderOk(m, h)
  {
    hide Sound, CopyOk, SoleHolder, Once, Apart, Behind, CopyPasses, ClaimOf;
    if ClaimOf(m, h).Some? {
      var source := if h == to then from else h;
      Holds(l, 0, 0, from, source);
      forall a: nat ensures Behind(m, a, ClaimOf(m, h).value) {
        Holds(l, a, a, OnShard(a), source);
        BehindStill(l, m, from, to, h, a);
      }
    }
  }

  lemma BehindStill(l: Ledger, m: Ledger, from: Holder, to: Holder, h: Holder, a: nat)
    requires PassesOn(l, m, from, to) && ClaimOf(m, h).Some?
    requires var source := if h == to then from else h;
             && ClaimOf(l, source).Some? && Behind(l, a, ClaimOf(l, source).value)
             && SoleHolder(l, OnShard(a), source) && SoleHolder(l, from, source)
    ensures Behind(m, a, ClaimOf(m, h).value)
  {
    assert CopyPasses(l, m, a, ClaimOf(m, to).value);
  }

  lemma PassesSole(l: Ledger, m: Ledger, from: Holder, to: Holder, g: Holder, h: Holder)
    requires PassesOn(l, m, from, to) && SoleHolder(l, g, h) && SoleHolder(l, from, h) && SoleHolder(l, g, from)
    ensures SoleHolder(m, g, h)
  {
    hide ClaimOf, CopyPasses;
  }

  /** A shard once its copy has been handed off. */
  function SentOff(s: Shard): Shard
    requires s.copy.Some?
  {
    s.(copy := Some(s.copy.value.(redirecting := true)))
  }

  /** The source's half of a handoff: the ticket carries the highest input received,
      and the copy stays behind to drain what it has queued. */
  function HandOff(l: Ledger, a: nat, to: nat, token: nat): Ledger
    requires Live(l, a)
  {
    var x := l.At(a).copy.value;
    l.With(a, SentOff(l.At(a)))
     .(tickets := l.tickets[token := Handoff(to, x.chain, x.reported)])
  }

  lemma HandOffKeeps(l: Ledger, a: nat, to: nat, token: nat)
    requires Sound(l) && Live(l, a) && token !in l.tickets
    ensures Sound(HandOff(l, a, to, token))
  {
    assert CopyOk(l, a);
    Passes(l, HandOff(l, a, to, token), OnShard(a), AsTicket(token));
  }

  function NewCopy(token: nat, chain: nat, from: nat): Copy {
    Copy(false, token, chain, Slot([], from, from), from)
  }

  /** A shard once a player has arrived with a ticket. */
  function TakenIn(s: Shard, token: nat, t: Handoff): Shard {
    s.(copy := Some(NewCopy(token, t.chain, t.lastInput)), redeemed := s.redeemed[token := t])
  }

  function ArriveWithTicket(l: Ledger, a: nat, token: nat, t: Handoff): Ledger {
    l.With(a, TakenIn(l.At(a), token, t))
     .(tickets := l.tickets - {token})
  }

  lemma TicketKeeps(l: Ledger, a: nat, token: nat)
    requires Sound(l) && l.At(a).copy.None? && token in l.tickets
    ensures Sound(ArriveWithTicket(l, a, token, l.tickets[token]))
  {
    Passes(l, ArriveWithTicket(l, a, token, l.tickets[token]), AsTicket(token), OnShard(a));
  }

  predicate Resumable(s: Shard, token: nat) {
    s.leftover.Some? && s.leftover.value.token == token
  }

  /** A shard once a player has arrived without one: it takes up its ghost, if there
      is one for this session, and starts a new chain otherwise. */
  function LetIn(s: Shard, token: nat, expired: bool, newChain: nat): Shard {
    if !expired && Resumable(s, token) then
      s.(copy := Some(NewCopy(token, s.leftover.value.chain, s.leftover.value.applied)), leftover := None)
    else
      s.(copy := Some(NewCopy(token, newChain, 0)))
  }

  function ArriveAlone(l: Ledger, a: nat, token: nat, expired: bool): Ledger {
    l.With(a, LetIn(l.At(a), token, expired, l.chains))
     .(chains := if !expired && Resumable(l.At(a), token) then l.chains else l.chains + 1)
  }

  lemma AloneKeeps(l: Ledger, a: nat, token: nat, expired: bool)
    requires Sound(l) && l.At(a).copy.None?
    ensures Sound(ArriveAlone(l, a, token, expired))
  {
    hide Sound;
    var m := ArriveAlone(l, a, token, expired);
    if !expired && Resumable(l.At(a), token) {
      Passes(l, m, AsGhost(a), OnShard(a));
    } else {
      StartsAnew(l, m, a, token);
    }
  }

  lemma StartsAnew(l: Ledger, m: Ledger, a: nat, token: nat)
    requires Sound(l) && l.At(a).copy.None?
    requires m == l.With(a, l.At(a).(copy := Some(NewCopy(token, l.chains, 0)))).(chains := l.chains + 1)
    ensures Sound(m)
  {
    hide CopyOk, Apart, Behind, HolderOk, SoleHolder, Once;
    forall b: nat ensures CopyOk(m, b) {
      assert CopyOk(l, b);
      NewCopyOk(l, m, a, token, b);
    }
    forall b: nat, c: nat ensures Apart(m, b, c) {
      assert Apart(l, b, c) && CopyOk(l, b) && CopyOk(l, c);
      NewApart(l, m, a, token, b, c);
    }
    forall g, h ensures SoleHolder(m, g, h) {
      assert SoleHolder(l, g, h) && HolderOk(l, g) && HolderOk(l, h);
      NewSole(l, m, a, token, g, h);
    }
    OnceMore(l.consumed, l.chains);
    forall h ensures HolderOk(m, h) {
      if h == OnShard(a) { NewHolder(l, m, a, token); } else { OldHolder(l, m, a, token, h); }
    }
  }

  lemma NewCopyOk(l: Ledger, m: Ledger, a: nat, token: nat, b: nat)
    requires Once(l.consumed, l.chains) && CopyOk(l, b)
    requires m == l.With(a, l.At(a).(copy := Some(NewCopy(token, l.chains, 0)))).(chains := l.chains + 1)
    ensures CopyOk(m, b)
  {
  }

  lemma NewApart(l: Ledger, m: Ledger, a: nat, token: nat, b: nat, c: nat)
    requires CopyOk(l, b) && CopyOk(l, c) && Apart(l, b, c)
    requires m == l.With(a, l.At(a).(copy := Some(NewCopy(token, l.chains, 0)))).(chains := l.chains + 1)
    ensures Apart(m, b, c)
  {
  }

  lemma NewSole(l: Ledger, m: Ledger, a: nat, token: nat, g: Holder, h: Holder)
    requires HolderOk(l, g) && HolderOk(l, h) && SoleHolder(l, g, h) && l.At(a).copy.None?
    requires m == l.With(a, l.At(a).(copy := Some(NewCopy(token, l.chains, 0)))).(chains := l.chains + 1)
    ensures SoleHolder(m, g, h)
  {
    hide Behind;
  }

  lemma OnceMore(consumed: seq<(nat, nat)>, chains: nat)
    requires Once(consumed, chains)
    ensures Once(consumed, chains + 1)
  {
  }

  lemma NewHolder(l: Ledger, m: Ledger, a: nat, token: nat)
    requires Sound(l) && l.At(a).copy.None?
    requires m == l.With(a, l.At(a).(copy := Some(NewCopy(token, l.chains, 0)))).(chains := l.chains + 1)
    ensures HolderOk(m, OnShard(a))
  {
    forall b: nat ensures Behind(m, b, ClaimOf(m, OnShard(a)).value) { assert CopyOk(l, b); }
  }

  lemma OldHolder(l: Ledger, m: Ledger, a: nat, token: nat, h: Holder)
    requires Sound(l) && l.At(a).copy.None? && h != OnShard(a)
    requires m == l.With(a, l.At(a).(copy := Some(NewCopy(token, l.chains, 0)))).(chains := l.chains + 1)
    ensures HolderOk(m, h)
  {
    assert HolderOk(l, h) && ClaimOf(l, h) == ClaimOf(m, h);
    if ClaimOf(m, h).Some? {
      forall b: nat ensures Behind(m, b, ClaimOf(m, h).value) { assert Behind(l, b, ClaimOf(l, h).value); }
    }
  }

  /** Inputs reach a copy; one that has been handed off ignores them. */
  function Receive(x: Copy, inputs: seq<nat>): Copy
    decreases |inputs|
  {
    if x.redirecting || inputs == [] then x
    else
      var n := inputs[0];
      Receive(x.(slot := QueueInput(x.slot, n), reported := if n > x.reported then n else x.reported), inputs[1..])
  }

  /** A shard once inputs have reached its copy. */
  function Heard(s: Shard, inputs: seq<nat>): Shard
    requires s.copy.Some?
  {
    s.(copy := Some(Receive(s.copy.value, inputs)))
  }

  function Deliver(l: Ledger, a: nat, inputs: seq<nat>): Ledger
    requires l.At(a).copy.Some?
  {
    l.With(a, Heard(l.At(a), inputs))
  }

  lemma PendingAbove(s: Slot)
    requires SlotOk(s) && s.pending != []
    ensures s.applied < s.highest
  {
    assert s.applied < s.pending[0] <= s.highest;
  }

  /** A queue stays strictly increasing and above what was applied, exactly if the
      input is orderly. */
  lemma QueueKeeps(s: Slot, n: nat)
    requires SlotOk(s)
    ensures var t := QueueInput(s, n);
            && t.applied == s.applied && t.highest == (if n > s.highest then n else s.highest)
            && (SlotOk(t) <==> Orderly(s, [n]))
            && (Orderly(s, [n]) ==> forall k <- t.pending :: k in s.pending || k > s.highest)
  {
    hide SlotOk, QueueInput;
    if Orderly(s, [n]) { QueueInOrder(s, n); } else { QueueZero(s); }
  }

  lemma QueueInOrder(s: Slot, n: nat)
    requires SlotOk(s) && Orderly(s, [n])
    ensures var t := QueueInput(s, n);
            && t.applied == s.applied && t.highest == (if n > s.highest then n else s.highest)
            && SlotOk(t) && forall k <- t.pending :: k in s.pending || k > s.highest
  {
    if |s.pending| >= MAX_QUEUED { DropFirst(s); }
    hide SlotOk;
    var kept := if |s.pending| >= MAX_QUEUED then s.pending[1..] else s.pending;
    if n > s.highest { AppendNewest(s.(pending := kept), n); }
  }

  /** A zero, before anything was received. */
  lemma QueueZero(s: Slot)
    requires SlotOk(s) && s.highest == 0
    ensures QueueInput(s, 0) == Slot([0], 0, 0) && s.applied == 0 && !SlotOk(Slot([0], 0, 0))
  {
    if s.pending != [] { PendingAbove(s); }
    var t := Slot([0], 0, 0);
    assert t.pending[0] == 0;
  }

  lemma DropFirst(s: Slot)
    requires SlotOk(s) && s.pending != []
    ensures SlotOk(s.(pending := s.pending[1..])) && s.applied < s.pending[0] <= s.highest
    ensures forall k <- s.pending[1..] :: k in s.pending && s.pending[0] < k <= s.highest
  {
  }

  lemma AppendNewest(s: Slot, n: nat)
    requires SlotOk(s) && n > s.highest
    ensures SlotOk(Slot(s.pending + [n], s.applied, n))
  {
  }

  /** Applying the oldest input leaves the others, all past it. */
  lemma ApplyFirst(s: Slot)
    requires SlotOk(s) && s.pending != []
    ensures var t := ApplyInput(s);
            && SlotOk(t) && t.applied == s.pending[0] && t.highest == s.highest && s.applied < t.applied <= t.highest
            && forall k <- t.pending :: k in s.pending && k != s.pending[0]
  {
    DropFirst(s);
  }

  /** A zero before anything else is queued, and consumed, as often as it comes. */
  lemma ZeroRepeats(l: Ledger, a: nat)
    requires l.At(a).copy.Some? && !l.At(a).copy.value.redirecting
    requires l.At(a).copy.value.slot.highest == 0 && SlotOk(l.At(a).copy.value.slot)
    ensures var m := Deliver(l, a, [0, 0]);
            && m.At(a).copy.Some? && Tick(m, a).At(a).copy.Some?
            && var chain := l.At(a).copy.value.chain;
               Tick(Tick(m, a), a).consumed == l.consumed + [(chain, 0), (chain, 0)]
  {
    var x := l.At(a).copy.value;
    if x.slot.pending != [] { PendingAbove(x.slot); }
    var y := x.(slot := QueueInput(x.slot, 0));
    var z := y.(slot := QueueInput(y.slot, 0));
    assert [0, 0][1..] == [0] && [0][1..] == [];
    assert Receive(x, [0, 0]) == Receive(y.(reported := x.reported), [0]) == Receive(z, []) == z;
    assert z.slot.pending == [0, 0];
  }

  lemma {:induction false} DeliverKeeps(l: Ledger, a: nat, inputs: seq<nat>)
    requires Sound(l) && l.At(a).copy.Some?
    requires l.At(a).copy.value.redirecting || Orderly(l.At(a).copy.value.slot, inputs)
    ensures Sound(Deliver(l, a, inputs))
    decreases |inputs|
  {
    hide Sound, QueueInput, SlotOk, CopyOk, Receive;
    var x := l.At(a).copy.value;
    if x.redirecting || inputs == [] {
      NothingReceived(x, inputs);
      ShrinkKeeps(l, Deliver(l, a, inputs));
    } else {
      var n := inputs[0];
      var y := x.(slot := QueueInput(x.slot, n), reported := if n > x.reported then n else x.reported);
      var m := l.With(a, l.At(a).(copy := Some(y)));
      OneInput(l, m, a, n, x, y);
      StillOrderly(l, a, inputs);
      DeliverKeeps(m, a, inputs[1..]);
      FirstReceived(x, inputs);
      assert l.shards[a := m.At(a)][a := Deliver(m, a, inputs[1..]).At(a)]
             == l.shards[a := Deliver(m, a, inputs[1..]).At(a)];
    }
  }

  lemma NothingReceived(x: Copy, inputs: seq<nat>)
    requires x.redirecting || inputs == []
    ensures Receive(x, inputs) == x
  {
  }

  lemma FirstReceived(x: Copy, inputs: seq<nat>)
    requires !x.redirecting && inputs != []
    ensures var n := inputs[0];
            Receive(x, inputs) == Receive(
              x.(slot := QueueInput(x.slot, n), reported := if n > x.reported then n else x.reported), inputs[1..])
  {
    hide QueueInput;
  }

  /** Once an orderly input was queued, any other is. */
  lemma StillOrderly(l: Ledger, a: nat, inputs: seq<nat>)
    requires Sound(l) && l.At(a).copy.Some? && inputs != [] && Orderly(l.At(a).copy.value.slot, inputs)
    ensures Orderly(QueueInput(l.At(a).copy.value.slot, inputs[0]), inputs[1..])
  {
    Holds(l, a, a, OnShard(a), OnShard(a));
    hide Sound, SlotOk, QueueInput;
    QueueKeeps(l.At(a).copy.value.slot, inputs[0]);
  }

  lemma OneInput(l: Ledger, m: Ledger, a: nat, n: nat, x: Copy, y: Copy)
    requires Sound(l) && l.At(a).copy == Some(x) && !x.redirecting && Orderly(x.slot, [n])
    requires y == x.(slot := QueueInput(x.slot, n), reported := if n > x.reported then n else x.reported)
    requires m == l.With(a, l.At(a).(copy := Some(y)))
    ensures Sound(m)
  {
    hide Sound, CopyOk, Apart, HolderOk, SoleHolder, Once, SlotOk, QueueInput;
    Holds(l, a, a, OnShard(a), OnShard(a));
    forall b: nat, c: nat, g, h ensures Parts(m, b, c, g, h) {
      Holds(l, b, c, g, h);
      NewInputCopy(l, m, a, n, x, y, b);
      if b != c && (a == b || a == c) { NewInputApart(l, a, n, x, y, if a == b then c else b); }
      StillApart(l, m, a, x, y, b, c);
      SameClaims(l, m, a, n, x, y, g, h);
    }
    IsSound(m);
  }

  lemma NewInputCopy(l: Ledger, m: Ledger, a: nat, n: nat, x: Copy, y: Copy, b: nat)
    requires CopyOk(l, a) && CopyOk(l, b) && HolderOk(l, OnShard(a))
    requires l.At(a).copy == Some(x) && !x.redirecting && Orderly(x.slot, [n])
    requires y == x.(slot := QueueInput(x.slot, n), reported := if n > x.reported then n else x.reported)
    requires m == l.With(a, l.At(a).(copy := Some(y)))
    ensures CopyOk(m, b)
  {
    QueueKeeps(x.slot, n);
    SlotBounds(x.slot);
    hide SlotOk, QueueInput;
  }

  lemma SlotBounds(s: Slot)
    requires SlotOk(s)
    ensures s.applied <= s.highest
  {
  }

  lemma StillApart(l: Ledger, m: Ledger, a: nat, x: Copy, y: Copy, b: nat, c: nat)
    requires Apart(l, b, c) && l.At(a).copy == Some(x) && y.chain == x.chain
    requires m == l.With(a, l.At(a).(copy := Some(y)))
    requires b != c && (a == b || a == c) ==>
               var z := l.At(if a == b then c else b).copy;
               z.Some? && z.value.chain == x.chain ==> forall k <- y.slot.pending :: k !in z.value.slot.pending
    ensures Apart(m, b, c)
  {
  }

  lemma SameClaims(l: Ledger, m: Ledger, a: nat, n: nat, x: Copy, y: Copy, g: Holder, h: Holder)
    requires HolderOk(l, h) && SoleHolder(l, g, h) && CopyOk(l, a)
    requires l.At(a).copy == Some(x) && !x.redirecting && Orderly(x.slot, [n])
    requires y == x.(slot := QueueInput(x.slot, n), reported := if n > x.reported then n else x.reported)
    requires m == l.With(a, l.At(a).(copy := Some(y)))
    ensures HolderOk(m, h) && SoleHolder(m, g, h)
  {
    hide SlotOk, QueueInput, ClaimOf, Behind;
    QueueKeeps(x.slot, n);
    SameClaim(l, m, a, x, y, g);
    SameClaim(l, m, a, x, y, h);
    if ClaimOf(m, h).Some? {
      forall b: nat ensures Behind(m, b, ClaimOf(m, h).value) { SameBehind(l, m, a, x, y, b, ClaimOf(l, h).value); }
    }
  }

  lemma SameClaim(l: Ledger, m: Ledger, a: nat, x: Copy, y: Copy, h: Holder)
    requires l.At(a).copy == Some(x) && m == l.With(a, l.At(a).(copy := Some(y)))
    requires y.redirecting == x.redirecting && y.chain == x.chain && y.slot.applied == x.slot.applied
    ensures ClaimOf(m, h) == ClaimOf(l, h)
  {
  }

  lemma SameBehind(l: Ledger, m: Ledger, a: nat, x: Copy, y: Copy, b: nat, claim: Claim)
    requires Behind(l, b, claim) && l.At(a).copy == Some(x) && m == l.With(a, l.At(a).(copy := Some(y)))
    requires !x.redirecting && !y.redirecting
    ensures Behind(m, b, claim)
  {
  }

  /** Whatever the live copy queues is past everything the others wait for. */
  lemma NewInputApart(l: Ledger, a: nat, n: nat, x: Copy, y: Copy, b: nat)
    requires Sound(l) && l.At(a).copy == Some(x) && !x.redirecting && Orderly(x.slot, [n]) && b != a
    requires y == x.(slot := QueueInput(x.slot, n), reported := if n > x.reported then n else x.reported)
    ensures l.At(b).copy.Some? && l.At(b).copy.value.chain == x.chain ==>
              forall k <- y.slot.pending :: k !in l.At(b).copy.value.slot.pending
  {
    if l.At(b).copy.Some? && l.At(b).copy.value.chain == x.chain {
      var z := l.At(b).copy.value;
      assert CopyOk(l, a) && CopyOk(l, b) && Apart(l, a, b) && HolderOk(l, OnShard(a));
      assert SoleHolder(l, OnShard(a), OnShard(b));
      assert Behind(l, b, ClaimOf(l, OnShard(a)).value);
      QueueKeeps(x.slot, n);
    }
  }

  /** A shard once its copy has applied its oldest queued input. */
  function Ticked(s: Shard): Shard {
    if s.copy.None? then s else s.(copy := Some(s.copy.value.(slot := ApplyInput(s.copy.value.slot))))
  }

  function Tick(l: Ledger, a: nat): Ledger
    requires l.At(a).copy.Some?
  {
    var x := l.At(a).copy.value;
    if x.slot.pending == [] then l
    else
      l.With(a, Ticked(l.At(a)))
       .(consumed := l.consumed + [(x.chain, x.slot.pending[0])])
  }

  /** The ledger after `k` ticks at one shard, with nothing else in between. */
  function Ticks(l: Ledger, a: nat, k: nat): (m: Ledger)
    requires l.At(a).copy.Some?
    ensures m.At(a).copy.Some?
  {
    if k == 0 then l else Tick(Ticks(l, a, k - 1), a)
  }

  /** Inputs as the ledger records them. */
  function OnChain(chain: nat, inputs: seq<nat>): seq<(nat, nat)> {
    seq(|inputs|, i requires 0 <= i < |inputs| => (chain, inputs[i]))
  }

  /** Every queued input is consumed, in the order of the queue. */
  lemma {:induction false} TicksDrain(l: Ledger, a: nat, k: nat)
    requires l.At(a).copy.Some? && k <= |l.At(a).copy.value.slot.pending|
    ensures var x, y := l.At(a).copy.value, Ticks(l, a, k).At(a).copy.value;
            && Ticks(l, a, k).consumed == l.consumed + OnChain(x.chain, x.slot.pending[..k])
            && y.slot.pending == x.slot.pending[k..] && y.slot.highest == x.slot.highest && y.chain == x.chain
            && y.slot.applied == if k == 0 then x.slot.applied else x.slot.pending[k - 1]
  {
    hide Ticks, ApplyInput, OnChain, Tick;
    var x := l.At(a).copy.value;
    OnChainNext(x.chain, x.slot.pending, k);
    NextTick(l, a, k);
    if k > 0 {
      TicksDrain(l, a, k - 1);
      OneTick(Ticks(l, a, k - 1), a);
      Regroup(l.consumed, OnChain(x.chain, x.slot.pending[..k - 1]), [(x.chain, x.slot.pending[k - 1])]);
    }
  }

  lemma OnChainNext(chain: nat, inputs: seq<nat>, k: nat)
    requires k <= |inputs|
    ensures k == 0 ==> OnChain(chain, inputs[..k]) == []
    ensures k > 0 ==> OnChain(chain, inputs[..k]) == OnChain(chain, inputs[..k - 1]) + [(chain, inputs[k - 1])]
  {
  }

  lemma Regroup<T>(a: seq<T>, b: seq<T>, c: seq<T>)
    ensures a + b + c == a + (b + c)
  {
  }

  lemma NextTick(l: Ledger, a: nat, k: nat)
    requires l.At(a).copy.Some?
    ensures Ticks(l, a, k) == if k == 0 then l else Tick(Ticks(l, a, k - 1), a)
  {
  }

  lemma OneTick(l: Ledger, a: nat)
    requires l.At(a).copy.Some? && l.At(a).copy.value.slot.pending != []
    ensures var x, m := l.At(a).copy.value, Tick(l, a);
            && m.At(a).copy == Some(x.(slot := Slot(x.slot.pending[1..], x.slot.pending[0], x.slot.highest)))
            && m.consumed == l.consumed + [(x.chain, x.slot.pending[0])]
  {
  }

  lemma TickKeeps(l: Ledger, a: nat)
    requires Sound(l) && l.At(a).copy.Some?
    ensures Sound(Tick(l, a))
  {
    var x, m := l.At(a).copy.value, Tick(l, a);
    if x.slot.pending != [] {
      var n := x.slot.pending[0];
      hide Sound, CopyOk, Apart, SoleHolder, HolderOk, Once, Tick;
      forall b: nat, c: nat, g, h ensures Parts(m, b, c, g, h) {
        Holds(l, a, a, g, h);
        Holds(l, b, c, g, h);
        Holds(l, a, b, g, h);
        TickCopy(l, m, a, b);
        TickApart(l, a, b, c);
        TickHolder(l, a, h);
        TickSole(l, a, g, h);
      }
      TickOnce(l, a);
      IsSound(m);
    }
  }

  ghost predicate Parts(l: Ledger, a: nat, b: nat, g: Holder, h: Holder) {
    CopyOk(l, a) && Apart(l, a, b) && HolderOk(l, h) && SoleHolder(l, g, h)
  }

  /** The parts of `Sound`, one at a time. */
  lemma Holds(l: Ledger, a: nat, b: nat, g: Holder, h: Holder)
    requires Sound(l)
    ensures Once(l.consumed, l.chains) && CopyOk(l, a) && CopyOk(l, b) && Apart(l, a, b)
    ensures HolderOk(l, g) && HolderOk(l, h) && SoleHolder(l, g, h)
  {
    hide Once, CopyOk, Apart, HolderOk, SoleHolder;
  }

  lemma IsSound(l: Ledger)
    requires Once(l.consumed, l.chains)
    requires forall a: nat, b: nat, g, h :: Parts(l, a, b, g, h)
    ensures Sound(l)
  {
    hide Once, CopyOk, Apart, HolderOk, SoleHolder;
    var o := OnShard(0);
    forall a: nat ensures CopyOk(l, a) { assert Parts(l, a, a, o, o); }
    forall a: nat, b: nat ensures Apart(l, a, b) { assert Parts(l, a, b, o, o); }
    forall h ensures HolderOk(l, h) { assert Parts(l, 0, 0, o, h); }
    forall g, h ensures SoleHolder(l, g, h) { assert Parts(l, 0, 0, g, h); }
  }

  lemma TickApart(l: Ledger, a: nat, b: nat, c: nat)
    requires Apart(l, b, c) && l.At(a).copy.Some? && CopyOk(l, a) && l.At(a).copy.value.slot.pending != []
    ensures Apart(Tick(l, a), b, c)
  {
    ApplyFirst(l.At(a).copy.value.slot);
    hide SlotOk, ApplyInput;
  }

  lemma TickSole(l: Ledger, a: nat, g: Holder, h: Holder)
    requires SoleHolder(l, g, h) && l.At(a).copy.Some? && l.At(a).copy.value.slot.pending != []
    ensures SoleHolder(Tick(l, a), g, h)
  {
  }

  lemma TickOnce(l: Ledger, a: nat)
    requires Once(l.consumed, l.chains) && l.At(a).copy.Some? && CopyOk(l, a) && l.At(a).copy.value.slot.pending != []
    ensures Once(Tick(l, a).consumed, Tick(l, a).chains)
  {
    var x := l.At(a).copy.value;
    assert x.slot.pending[0] in x.slot.pending;
  }

  lemma TickCopy(l: Ledger, m: Ledger, a: nat, b: nat)
    requires l.At(a).copy.Some? && CopyOk(l, a) && CopyOk(l, b) && Apart(l, a, b)
    requires l.At(a).copy.value.slot.pending != []
    requires m == Tick(l, a)
    ensures CopyOk(m, b)
  {
    ApplyFirst(l.At(a).copy.value.slot);
    hide SlotOk, ApplyInput;
    assert l.At(a).copy.value.slot.pending[0] in l.At(a).copy.value.slot.pending;
  }

  lemma TickHolder(l: Ledger, a: nat, h: Holder)
    requires Sound(l) && l.At(a).copy.Some? && l.At(a).copy.value.slot.pending != []
    ensures HolderOk(Tick(l, a), h)
  {
    var x, m := l.At(a).copy.value, Tick(l, a);
    Holds(l, a, a, OnShard(a), h);
    FirstBounds(l, a);
    hide Sound, CopyOk, SlotOk, Once;
    if ClaimOf(m, h).Some? {
      TickClaim(l, a, h);
      hide ClaimOf, SoleHolder;
      assert Behind(l, a, ClaimOf(l, h).value);
      forall b: nat ensures Behind(m, b, ClaimOf(m, h).value) { assert Behind(l, b, ClaimOf(l, h).value); }
    }
  }

  /** Only the live copy's own claim moves on, past the input it applied. */
  lemma TickClaim(l: Ledger, a: nat, h: Holder)
    requires SoleHolder(l, OnShard(a), h) && l.At(a).copy.Some? && l.At(a).copy.value.slot.pending != []
    requires ClaimOf(Tick(l, a), h).Some?
    requires l.At(a).copy.value.slot.applied < l.At(a).copy.value.slot.pending[0]
    ensures ClaimOf(l, h).Some?
    ensures var x, before, after := l.At(a).copy.value, ClaimOf(l, h).value, ClaimOf(Tick(l, a), h).value;
            && after.chain == before.chain && after.base >= before.base
            && (before.chain == x.chain && !x.redirecting ==> after.base == x.slot.pending[0])
  {
  }

  lemma FirstBounds(l: Ledger, a: nat)
    requires CopyOk(l, a) && l.At(a).copy.Some? && l.At(a).copy.value.slot.pending != []
    ensures var s := l.At(a).copy.value.slot; s.applied < s.pending[0] <= s.highest
  {
    DropFirst(l.At(a).copy.value.slot);
    hide SlotOk;
  }
}
