/**
 One player in a cluster of shards: presence in the shared store, the matchmaker,
 handoff tickets and the client, as steps over the store's atomic commands.  The
 local effects of a shard's handler are taken together with its last command.
 */
module Clusters {
  import opened SequenceBuffers
  import opened InputLedger

  datatype Presence = Presence(shard: nat, token: nat)

  /** How far the matchmaker has come with the client's request. */
  datatype Asking = Idle | Seen(presence: Option<Presence>) | Lost(winner: nat)

  datatype Credential = Session(shard: nat, token: nat) | Migration(shard: nat, token: nat)

  /** The client holds one credential at a time, and one connection, `at` a shard;
      `redirect` was sent to it on that connection and has not arrived yet. */
  datatype Client = Client(
    credential: Option<Credential>, at: Option<nat>, redirect: Option<Credential>, asking: Asking)

  datatype Cluster = Cluster(
    presence: Option<Presence>,
    ledger: Ledger,
    client: Client,
    dead: set<nat>)

  datatype Step =
    | Look                                        // matchmaker reads presence
    | Refresh                                     // and grants the session it names
    | Clear                                       // or finds its shard dead
    | Choose(shard: nat, token: nat)              // claims presence for a new session
    | Own                                         // or takes over the winner of the claim
    | GiveUp
    | Connect(expired: bool)                      // client presents its credential
    | Redirected                                  // its redirect arrives, early or late
    | Drop(shard: nat)                            // shard loses the connection
    | Migrate(shard: nat, to: nat, token: nat, event: bool) // shard hands the player off
    | Touch(shard: nat)                           // shard refreshes presence
    | Payload(shard: nat, inputs: seq<nat>)
    | Advance(shard: nat)                         // shard's tick
    | Die(shard: nat)
    | Restart(shard: nat)
    | Release                                     // client ends its session
    | ForgetGhost(shard: nat)
    | ForgetTicket(token: nat)
    | ForgetRedeemed(shard: nat, token: nat)

  function Start(): Cluster {
    Cluster(None, Ledger(map[], map[], [], 0), Client(None, None, None, Idle), {})
  }

  // ---------------------------------------------------------------------------
  // The store's scripts

  /** Moves presence if `from` holds it, or nobody does; the session stays. */
  function Transfer(presence: Option<Presence>, from: nat, to: nat): Option<Presence> {
    match presence
    case None => Some(Presence(to, 0))
    case Some(p) => if p.shard != from then presence else Some(Presence(to, p.token))
  }

  predicate TransferWorks(presence: Option<Presence>, from: nat) {
    presence.Some? ==> presence.value.shard == from
  }

  predicate ClaimWorks(presence: Option<Presence>, shard: nat) {
    presence.Some? ==> presence.value.shard == shard
  }

  // ---------------------------------------------------------------------------
  // Steps

  /** A session is admitted if presence names this shard and this session. */
  function ConnectSession(c: Cluster, shard: nat, token: nat, expired: bool): Cluster {
    if c.presence != Some(Presence(shard, token)) then c
    else
      var left := c.ledger.With(shard, Leave(c.ledger.At(shard)));
      c.(ledger := ArriveAlone(left, shard, token, expired),
         client := c.client.(at := Some(shard), redirect := None), presence := Some(Presence(shard, token)))
  }

  /** A ticket is redeemed from the shard's cache or taken out of the store; it is
      good only on the shard it is addressed to. */
  function ConnectTicket(c: Cluster, shard: nat, token: nat): Cluster {
    var l := c.ledger;
    var cached := token in l.At(shard).redeemed;
    if !cached && token !in l.tickets then c
    else
      var t := if cached then l.At(shard).redeemed[token] else l.tickets[token];
      if !cached && t.to != shard then c.(ledger := l.(tickets := l.tickets - {token}))
      else
        var left := l.With(shard, Leave(l.At(shard)));
        c.(ledger := ArriveWithTicket(left, shard, token, t),
           client := c.client.(at := Some(shard), redirect := None), presence := Some(Presence(shard, token)))
  }

  /** A shard stores a ticket, if its token is free, and moves presence, in one
      pipeline: presence moves even if the ticket was not stored.  If it did not
      move, the ticket is discarded.  Only if both worked, and the redirect event can
      be encoded, is the player redirected, by that event on its connection. */
  function SendAway(c: Cluster, shard: nat, to: nat, token: nat, event: bool): Cluster
    requires Live(c.ledger, shard)
  {
    if token in c.ledger.tickets then c.(presence := Transfer(c.presence, shard, to))
    else if !TransferWorks(c.presence, shard) then c
    else if !event then
      c.(presence := Transfer(c.presence, shard, to),
         ledger := c.ledger.(tickets := HandOff(c.ledger, shard, to, token).tickets))
    else
      c.(presence := Transfer(c.presence, shard, to), ledger := HandOff(c.ledger, shard, to, token),
         client := if c.client.at == Some(shard) then c.client.(redirect := Some(Migration(to, token))) else c.client)
  }

  function Asked(c: Cluster, step: Step): Cluster
    requires step.Look? || step.Refresh? || step.Clear? || step.Choose? || step.Own? || step.GiveUp?
    requires step.Refresh? || step.Clear? ==> c.client.asking.Seen? && c.client.asking.presence.Some?
    requires step.Own? ==> c.client.asking.Lost?
  {
    var client := c.client;
    match step
    case Look => c.(client := Client(None, None, None, Seen(c.presence)))
    case Refresh =>
      var p := client.asking.presence.value;
      c.(presence := Some(p), client := client.(credential := Some(Session(p.shard, p.token)), asking := Idle))
    case Clear => c.(presence := None, client := client.(asking := Seen(None)))
    case Choose(shard, token) =>
      if !ClaimWorks(c.presence, shard) then c.(client := client.(asking := Lost(c.presence.value.shard)))
      else
        c.(presence := Some(Presence(shard, token)),
           client := client.(credential := Some(Session(shard, token)), asking := Idle))
    case Own =>
      var token := if c.presence.Some? then c.presence.value.token else 0;
      c.(client := client.(credential := Some(Session(client.asking.winner, token)), asking := Idle))
    case GiveUp => c.(client := client.(asking := Idle))
  }

  /** What each step takes for granted, and the hypotheses on runs: the token of a
      handoff is not that of a ticket in the store and its event can be encoded, a
      shard judged dead is dead, the client acts on its one credential, inputs are numbered from 1, and a session
      is released only when no shard holds the player. */
  predicate Enabled(c: Cluster, step: Step) {
    var l, client := c.ledger, c.client;
    match step
    case Look => client.asking.Idle?
    case Refresh => client.asking.Seen? && client.asking.presence.Some?
    case Clear => client.asking.Seen? && client.asking.presence.Some? && client.asking.presence.value.shard in c.dead
    case Choose(_, _) => client.asking == Seen(None)
    case Own => client.asking.Lost?
    case GiveUp => true
    case Connect(_) =>
      client.asking.Idle? && client.credential.Some? && client.credential.value.shard !in c.dead
    case Redirected => client.asking.Idle? && client.redirect.Some?
    case Drop(_) => true
    case Migrate(a, to, token, event) => Live(l, a) && a != to && token !in l.tickets && event
    case Touch(a) => Live(l, a)
    case Payload(a, inputs) => l.At(a).copy.Some? && Orderly(l.At(a).copy.value.slot, inputs)
    case Advance(a) => l.At(a).copy.Some?
    case Die(_) => true
    case Restart(_) => true
    case Release => !Held(c)
    case ForgetGhost(_) => true
    case ForgetTicket(_) => true
    case ForgetRedeemed(_, _) => true
  }

  /** Some shard holds a copy that is not being redirected. */
  predicate Held(c: Cluster) {
    exists a | a in c.ledger.shards :: Live(c.ledger, a)
  }

  function Apply(c: Cluster, step: Step): Cluster
    requires Enabled(c, step)
  {
    var l, client := c.ledger, c.client;
    match step
    case Connect(expired) =>
      (match client.credential.value
       case Session(shard, token) => ConnectSession(c, shard, token, expired)
       case Migration(shard, token) => ConnectTicket(c, shard, token))
    case Redirected => c.(client := client.(credential := client.redirect, redirect := None))
    case Drop(a) => c.(ledger := l.With(a, Leave(l.At(a))))
    case Migrate(a, to, token, event) => SendAway(c, a, to, token, event)
    case Touch(a) => c.(presence := Some(Presence(a, l.At(a).copy.value.token)))
    case Payload(a, inputs) => c.(ledger := Deliver(l, a, inputs))
    case Advance(a) => c.(ledger := Tick(l, a))
    case Die(a) => c.(ledger := l.With(a, VACANT), dead := c.dead + {a})
    case Restart(a) => c.(dead := c.dead - {a})
    case Release => c.(presence := None)
    case ForgetGhost(a) => c.(ledger := l.With(a, l.At(a).(leftover := None)))
    case ForgetTicket(t) => c.(ledger := l.(tickets := l.tickets - {t}))
    case ForgetRedeemed(a, t) => c.(ledger := l.With(a, l.At(a).(redeemed := l.At(a).redeemed - {t})))
    case _ => Asked(c, step)
  }

  // ---------------------------------------------------------------------------
  // At most one shard

  ghost predicate LiveOnlyAt(l: Ledger, a: nat) {
    forall b: nat :: Live(l, b) ==> b == a
  }

  ghost predicate NoneLive(l: Ledger) {
    forall b: nat :: !Live(l, b)
  }

  /** Presence names the shard of a live copy, and so do the client's ticket, its
      connection, and what the matchmaker has read; while a redirect is under way
      there is none. */
  ghost predicate Owned(c: Cluster) {
    && (if c.presence.Some? then LiveOnlyAt(c.ledger, c.presence.value.shard) else NoneLive(c.ledger))
    && (c.client.credential.Some? && c.client.credential.value.Migration? ==>
          LiveOnlyAt(c.ledger, c.client.credential.value.shard))
    && (c.client.at.Some? ==> LiveOnlyAt(c.ledger, c.client.at.value))
    && (c.client.redirect.Some? ==> NoneLive(c.ledger))
    && match c.client.asking
       case Idle => true
       case Seen(None) => NoneLive(c.ledger)
       case Seen(Some(p)) => LiveOnlyAt(c.ledger, p.shard)
       case Lost(_) => NoneLive(c.ledger)
  }

  ghost predicate Inv(c: Cluster) {
    && Owned(c)
    && (forall a <- c.dead :: c.ledger.At(a).copy.None?)
  }

  /** Every live copy was live before. */
  ghost predicate Fewer(l: Ledger, m: Ledger) {
    forall a: nat :: Live(m, a) ==> Live(l, a)
  }

  lemma FewerKeeps(c: Cluster, m: Ledger)
    requires Owned(c) && Fewer(c.ledger, m)
    ensures Owned(c.(ledger := m))
  {
  }

  lemma {:induction false} ReceiveKeepsRedirect(x: Copy, inputs: seq<nat>)
    ensures Receive(x, inputs).redirecting == x.redirecting
    decreases |inputs|
  {
    if !x.redirecting && inputs != [] {
      var n := inputs[0];
      ReceiveKeepsRedirect(x.(slot := QueueInput(x.slot, n), reported := if n > x.reported then n else x.reported),
          inputs[1..]);
    }
  }

  lemma AskedKeeps(c: Cluster, step: Step)
    requires Inv(c) && Enabled(c, step)
    requires step.Look? || step.Refresh? || step.Clear? || step.Choose? || step.Own? || step.GiveUp?
    ensures Inv(Apply(c, step))
  {
    if step.Clear? { assert !Live(c.ledger, c.client.asking.presence.value.shard); }
    hide Live;
  }

  /** All live copies are at `a`, one arrives there, and presence says so. */
  lemma ArrivalKeeps(c: Cluster, a: nat, m: Ledger, c': Cluster)
    requires Inv(c) && a !in c.dead && LiveOnlyAt(c.ledger, a) && c.client.asking.Idle?
    requires forall b: nat | b != a :: m.At(b) == c.ledger.At(b)
    requires c.client.credential.Some? && c.client.credential.value.shard == a
    requires c'.ledger == m && c'.dead == c.dead && c'.client == c.client.(at := Some(a), redirect := None)
    requires c'.presence.Some? && c'.presence.value.shard == a
    ensures Inv(c')
  {
    forall b: nat | Live(m, b) ensures b == a {
      if b != a { assert Live(c.ledger, b); }
    }
  }

  lemma ConnectKeeps(c: Cluster, expired: bool)
    requires Inv(c) && Enabled(c, Connect(expired))
    ensures Inv(Apply(c, Connect(expired)))
  {
    hide Leave;
    var c', l := Apply(c, Connect(expired)), c.ledger;
    match c.client.credential.value
    case Session(a, token) =>
      if c.presence == Some(Presence(a, token)) { ArrivalKeeps(c, a, c'.ledger, c'); }
    case Migration(a, token) =>
      var cached := token in l.At(a).redeemed;
      if cached || (token in l.tickets && l.tickets[token].to == a) {
        ArrivalKeeps(c, a, c'.ledger, c');
      } else {
        FewerKeeps(c, c'.ledger);
      }
  }

  predicate Local(step: Step) {
    || step.Drop? || step.Payload? || step.Advance? || step.Die? || step.Restart?
    || step.ForgetGhost? || step.ForgetTicket? || step.ForgetRedeemed?
  }

  /** Steps within one shard, and expiry, bring no copy to life. */
  lemma LocalFewer(c: Cluster, step: Step)
    requires Local(step) && Enabled(c, step)
    ensures var c' := Apply(c, step);
            && c' == c.(ledger := c'.ledger, dead := c'.dead)
            && Fewer(c.ledger, c'.ledger)
            && forall a: nat :: c.ledger.At(a).copy.None? ==> c'.ledger.At(a).copy.None?
  {
    if step.Payload? { ReceiveKeepsRedirect(c.ledger.At(step.shard).copy.value, step.inputs); }
    hide Receive, QueueInput, ApplyInput;
  }

  lemma LocalKeeps(c: Cluster, step: Step)
    requires Inv(c) && Enabled(c, step) && Local(step)
    ensures Inv(Apply(c, step))
  {
    hide Enabled, Apply, Owned, Fewer;
    var c' := Apply(c, step);
    LocalFewer(c, step);
    LocalDead(c, step);
    FewerKeeps(c, c'.ledger);
    assert c' == c.(ledger := c'.ledger).(dead := c'.dead);
    OwnedIgnoresDead(c.(ledger := c'.ledger), c'.dead);
  }

  lemma LocalDead(c: Cluster, step: Step)
    requires Local(step) && Enabled(c, step)
    ensures var c' := Apply(c, step); forall a <- c'.dead :: a in c.dead || c'.ledger.At(a).copy.None?
  {
    hide Receive, QueueInput, ApplyInput, Live;
  }

  lemma OwnedIgnoresDead(c: Cluster, dead: set<nat>)
    requires Owned(c)
    ensures Owned(c.(dead := dead))
  {
    hide LiveOnlyAt, NoneLive;
  }

  lemma StepKeeps(c: Cluster, step: Step)
    requires Inv(c) && Enabled(c, step)
    ensures Inv(Apply(c, step))
  {
    match step
    case Connect(expired) => ConnectKeeps(c, expired);
    case Redirected => assert NoneLive(c.ledger);
    case Migrate(a, to, token, _) =>
      assert c.presence.Some? && c.presence.value.shard == a;
      forall b: nat ensures !Live(HandOff(c.ledger, a, to, token), b) { assert Live(c.ledger, b) ==> b == a; }
    case Touch(a) => assert LiveOnlyAt(c.ledger, a);
    case Release =>
      forall b: nat ensures !Live(c.ledger, b) { assert Live(c.ledger, b) ==> b in c.ledger.shards; }
    case Look => AskedKeeps(c, step);
    case Refresh => AskedKeeps(c, step);
    case Clear => AskedKeeps(c, step);
    case Choose(_, _) => AskedKeeps(c, step);
    case Own => AskedKeeps(c, step);
    case GiveUp => AskedKeeps(c, step);
    case _ => LocalKeeps(c, step);
  }

  // ---------------------------------------------------------------------------
  // Inputs at most once

  /** The client does not present a ticket that its shard remembers as redeemed. */
  predicate NotRemembered(c: Cluster, step: Step) {
    step.Connect? && c.client.credential.Some? && c.client.credential.value.Migration? ==>
      c.client.credential.value.token !in c.ledger.At(c.client.credential.value.shard).redeemed
  }

  lemma ConnectSound(c: Cluster, expired: bool)
    requires Sound(c.ledger) && Enabled(c, Connect(expired)) && NotRemembered(c, Connect(expired))
    ensures Sound(Apply(c, Connect(expired)).ledger)
  {
    hide Sound, Leave;
    var l, a, token := c.ledger, c.client.credential.value.shard, c.client.credential.value.token;
    var left := l.With(a, Leave(l.At(a)));
    LeaveKeeps(l, a);
    LeaveGone(l.At(a));
    if c.client.credential.value.Session? {
      if c.presence == Some(Presence(a, token)) { AloneKeeps(left, a, token, expired); }
    } else if token in l.tickets {
      if l.tickets[token].to == a { TicketKeeps(left, a, token); } else { TicketGone(l, token); }
    }
  }

  lemma LeaveGone(s: Shard)
    ensures Leave(s).copy.None? && Leave(s).redeemed == s.redeemed
  {
  }

  lemma StepSound(c: Cluster, step: Step)
    requires Sound(c.ledger) && Enabled(c, step) && NotRemembered(c, step)
    ensures Sound(Apply(c, step).ledger)
  {
    hide Sound, Leave, Receive, Shrinks, ConnectSession, ConnectTicket, HandOff, Tick;
    var l := c.ledger;
    match step
    case Connect(expired) => ConnectSound(c, expired);
    case Drop(a) => LeaveKeeps(l, a);
    case Migrate(a, to, token, _) => HandOffKeeps(l, a, to, token);
    case Payload(a, inputs) => DeliverKeeps(l, a, inputs);
    case Advance(a) => TickKeeps(l, a);
    case Die(a) => LessAt(l, a, VACANT);
    case ForgetGhost(a) => LessAt(l, a, l.At(a).(leftover := None));
    case ForgetTicket(t) => TicketGone(l, t);
    case ForgetRedeemed(a, t) => LessAt(l, a, l.At(a).(redeemed := l.At(a).redeemed - {t}));
    case _ =>
  }

  lemma LessAt(l: Ledger, a: nat, s: Shard)
    requires Sound(l) && (s.copy.None? || s.copy == l.At(a).copy)
    requires (s.leftover.None? || s.leftover == l.At(a).leftover)
    ensures Sound(l.With(a, s))
  {
    hide Sound;
    ShrinkKeeps(l, l.With(a, s));
  }

  lemma TicketGone(l: Ledger, t: nat)
    requires Sound(l)
    ensures Sound(l.(tickets := l.tickets - {t}))
  {
    hide Sound;
    ShrinkKeeps(l, l.(tickets := l.tickets - {t}));
  }

  // ---------------------------------------------------------------------------
  // Whole runs

  /** The cluster after a list of steps, if each was enabled; a strict run also
      presents no ticket that its shard remembers. */
  function RunFrom(c: Cluster, steps: seq<Step>, strict: bool): Option<Cluster>
    decreases |steps|
  {
    if steps == [] then Some(c)
    else if Enabled(c, steps[0]) && (strict ==> NotRemembered(c, steps[0])) then
      RunFrom(Apply(c, steps[0]), steps[1..], strict)
    else None
  }

  lemma {:induction false} RunKeeps(c: Cluster, steps: seq<Step>, strict: bool)
    requires Inv(c) && RunFrom(c, steps, strict).Some?
    ensures Inv(RunFrom(c, steps, strict).value)
    decreases |steps|
  {
    hide Inv, Apply, Enabled, NotRemembered;
    if steps != [] {
      StepKeeps(c, steps[0]);
      RunKeeps(Apply(c, steps[0]), steps[1..], strict);
    }
  }

  lemma {:induction false} RunSound(c: Cluster, steps: seq<Step>)
    requires Sound(c.ledger) && RunFrom(c, steps, true).Some?
    ensures Sound(RunFrom(c, steps, true).value.ledger)
    decreases |steps|
  {
    hide Sound, Apply, Enabled, NotRemembered;
    if steps != [] {
      StepSound(c, steps[0]);
      RunSound(Apply(c, steps[0]), steps[1..]);
    }
  }

  /** In every reachable state at most one shard holds a copy of the player that is
      not being redirected, and presence names that shard. */
  lemma AtMostOneShard(steps: seq<Step>, strict: bool, a: nat, b: nat)
    requires RunFrom(Start(), steps, strict).Some?
    ensures var c := RunFrom(Start(), steps, strict).value;
            && (Live(c.ledger, a) && Live(c.ledger, b) ==> a == b)
            && (Live(c.ledger, a) ==> c.presence.Some? && c.presence.value.shard == a)
  {
    RunKeeps(Start(), steps, strict);
  }

  /** In every strict run no input is consumed twice along a chain of handoffs and
      resumes; each queue is strictly increasing and past what its copy consumed,
      and nothing that is still queued anywhere has been consumed. */
  lemma InputsOnce(steps: seq<Step>, a: nat, b: nat)
    requires RunFrom(Start(), steps, true).Some?
    ensures var l := RunFrom(Start(), steps, true).value.ledger;
            && (forall i, j | 0 <= i < j < |l.consumed| :: l.consumed[i] != l.consumed[j])
            && (l.At(a).copy.Some? ==>
                  var x := l.At(a).copy.value;
                  && SlotOk(x.slot)
                  && (forall n <- x.slot.pending :: (x.chain, n) !in l.consumed)
                  && (a != b && l.At(b).copy.Some? && l.At(b).copy.value.chain == x.chain ==>
                        forall n <- x.slot.pending :: n !in l.At(b).copy.value.slot.pending))
  {
    RunSound(Start(), steps);
    var l := RunFrom(Start(), steps, true).value.ledger;
    assert CopyOk(l, a) && Apart(l, a, b);
  }

  // ---------------------------------------------------------------------------
  // Where the hypotheses bite: runs that end with two live copies

  /** No two shards hold the player. */
  ghost predicate AtMostOne(c: Cluster) {
    forall a: nat, b: nat :: Live(c.ledger, a) && Live(c.ledger, b) ==> a == b
  }

  /** Nor ever will, whatever enabled steps follow. */
  ghost predicate StaysOne(c: Cluster) {
    forall steps :: RunFrom(c, steps, false).Some? ==> AtMostOne(RunFrom(c, steps, false).value)
  }

  lemma InvStaysOne(c: Cluster)
    requires Inv(c)
    ensures StaysOne(c)
  {
    forall steps | RunFrom(c, steps, false).Some? ensures AtMostOne(RunFrom(c, steps, false).value) {
      RunKeeps(c, steps, false);
    }
  }

  lemma TwoEnd(c: Cluster, steps: seq<Step>, a: nat, b: nat)
    requires RunFrom(c, steps, false).Some? && a != b
    requires Live(RunFrom(c, steps, false).value.ledger, a) && Live(RunFrom(c, steps, false).value.ledger, b)
    ensures !StaysOne(c)
  {
  }

  lemma RunStep(c: Cluster, step: Step, rest: seq<Step>, strict: bool)
    requires Enabled(c, step) && (strict ==> NotRemembered(c, step))
    ensures RunFrom(c, [step] + rest, strict) == RunFrom(Apply(c, step), rest, strict)
  {
    hide Enabled, Apply, NotRemembered;
    assert ([step] + rest)[1..] == rest;
  }

  lemma RunNone(c: Cluster, strict: bool)
    ensures RunFrom(c, [], strict) == Some(c)
  {
  }

  lemma {:induction false} RunAppend(c: Cluster, steps: seq<Step>, more: seq<Step>, strict: bool)
    requires RunFrom(c, steps, strict).Some?
    ensures RunFrom(c, steps + more, strict) == RunFrom(RunFrom(c, steps, strict).value, more, strict)
    decreases |steps|
  {
    hide Enabled, Apply, NotRemembered;
    if steps == [] {
      assert steps + more == more;
    } else {
      assert (steps + more)[1..] == steps[1..] + more;
      RunAppend(Apply(c, steps[0]), steps[1..], more, strict);
    }
  }

  /** Two steps that make any state one in which the client can ask for a session on
      `shard`. */
  function Ready(c: Cluster, shard: nat): Cluster {
    c.(client := c.client.(asking := Idle), dead := c.dead - {shard})
  }

  lemma GetReady(c: Cluster, shard: nat, rest: seq<Step>, strict: bool)
    ensures RunFrom(c, [GiveUp, Restart(shard)] + rest, strict) == RunFrom(Ready(c, shard), rest, strict)
  {
    var c1 := Apply(c, GiveUp);
    RunStep(c, GiveUp, [Restart(shard)] + rest, strict);
    RunStep(c1, Restart(shard), rest, strict);
    assert [GiveUp, Restart(shard)] + rest == [GiveUp] + ([Restart(shard)] + rest);
  }

  /** A client without a session gets a new one on a shard that holds no trace of it. */
  lemma NewSession(c: Cluster, shard: nat, token: nat, strict: bool)
    requires c.presence == None && c.client.asking.Idle? && shard !in c.dead && c.ledger.At(shard) == VACANT
    ensures var d := RunFrom(c, [Look, Choose(shard, token), Connect(false)], strict);
            && d.Some? && d.value.presence == Some(Presence(shard, token)) && d.value.client.asking.Idle?
            && d.value.client.at == Some(shard) && d.value.dead == c.dead
            && var copy := Some(NewCopy(token, c.ledger.chains, 0));
               d.value.ledger == c.ledger.With(shard, VACANT.(copy := copy)).(chains := c.ledger.chains + 1)
  {
    var steps := [Look, Choose(shard, token), Connect(false)];
    var c1 := Apply(c, Look);
    var c2 := Apply(c1, Choose(shard, token));
    assert c.ledger.With(shard, Leave(c.ledger.At(shard))).At(shard) == VACANT;
    var c3 := Apply(c2, Connect(false));
    assert steps == [Look] + [Choose(shard, token), Connect(false)];
    RunStep(c, Look, [Choose(shard, token), Connect(false)], strict);
    assert [Choose(shard, token), Connect(false)] == [Choose(shard, token)] + [Connect(false)];
    RunStep(c1, Choose(shard, token), [Connect(false)], strict);
    RunStep(c2, Connect(false), [], strict);
    assert [Connect(false)] + [] == [Connect(false)];
    assert c.ledger.With(shard, VACANT).With(shard, c3.ledger.At(shard)) == c.ledger.With(shard, c3.ledger.At(shard));
  }

  /** Asking again where presence is leads to a live copy there; other shards stay. */
  lemma Rejoin(c: Cluster, strict: bool)
    requires c.presence.Some? && c.client.asking.Idle? && c.presence.value.shard !in c.dead
    ensures var d := RunFrom(c, [Look, Refresh, Connect(false)], strict);
            && d.Some? && Live(d.value.ledger, c.presence.value.shard) && d.value.presence == c.presence
            && d.value.client.asking.Idle? && d.value.ledger.tickets == c.ledger.tickets && d.value.dead == c.dead
            && forall b: nat | b != c.presence.value.shard :: d.value.ledger.At(b) == c.ledger.At(b)
  {
    hide Leave;
    var c1 := Apply(c, Look);
    var c2 := Apply(c1, Refresh);
    var c3 := Apply(c2, Connect(false));
    assert [Look, Refresh, Connect(false)] == [Look] + [Refresh, Connect(false)];
    RunStep(c, Look, [Refresh, Connect(false)], strict);
    assert [Refresh, Connect(false)] == [Refresh] + [Connect(false)];
    RunStep(c1, Refresh, [Connect(false)], strict);
    assert [Connect(false)] + [] == [Connect(false)];
    RunStep(c2, Connect(false), [], strict);
    RunNone(c3, strict);
  }

  lemma Unused(s: set<nat>) returns (n: nat)
    ensures n !in s
  {
    n := 0;
    var rest := s;
    while rest != {}
      invariant forall k <- s :: k in rest || k < n
      decreases |rest|
    {
      var k :| k in rest;
      rest := rest - {k};
      if k >= n { n := k + 1; }
    }
  }

  /** Whatever enabled steps follow, releasing a session leaves at most one live copy
      exactly if no shard holds the player at the time. */
  lemma ReleaseExact(c: Cluster)
    requires Inv(c)
    ensures StaysOne(c.(presence := None)) <==> !Held(c)
  {
    if Held(c) { ReleaseSplits(c); } else { ReleaseKeeps(c); }
  }

  lemma ReleaseKeeps(c: Cluster)
    requires Inv(c) && !Held(c)
    ensures StaysOne(c.(presence := None))
  {
    hide StaysOne;
    forall b: nat ensures !Live(c.ledger, b) { assert Live(c.ledger, b) ==> b in c.ledger.shards; }
    InvStaysOne(c.(presence := None));
  }

  /** From every state in which a shard holds the player, a release and a new session
      end with two live copies. */
  lemma ReleaseSplits(c: Cluster)
    requires Held(c)
    ensures !StaysOne(c.(presence := None))
  {
    hide RunFrom, Apply, Enabled, StaysOne;
    var a: nat :| a in c.ledger.shards && Live(c.ledger, a);
    var shard := Unused(c.ledger.shards.Keys);
    var d, rest := c.(presence := None), [Look, Choose(shard, 0), Connect(false)];
    GetReady(d, shard, rest, false);
    NewSession(Ready(d, shard), shard, 0, false);
    TwoEnd(d, [GiveUp, Restart(shard)] + rest, a, shard);
  }

  /** A handoff keeps at most one live copy, whatever follows, exactly if its token is
      free and its event can be encoded: otherwise presence has moved and the source
      still holds the player. */
  lemma HandoffExact(c: Cluster, a: nat, to: nat, token: nat, event: bool)
    requires Inv(c) && Live(c.ledger, a) && a != to
    ensures StaysOne(SendAway(c, a, to, token, event)) <==> token !in c.ledger.tickets && event
    ensures Inv(SendAway(c, a, to, token, event)) <==> token !in c.ledger.tickets && event
  {
    if token in c.ledger.tickets || !event {
      HandoffSplits(c, a, to, token, event);
      assert Live(SendAway(c, a, to, token, event).ledger, a);
    } else {
      StepKeeps(c, Migrate(a, to, token, event));
      InvStaysOne(SendAway(c, a, to, token, event));
    }
  }

  /** From every state in which the token is taken, or the event too long, a handoff
      and a new request for a session end with two live copies. */
  lemma HandoffSplits(c: Cluster, a: nat, to: nat, token: nat, event: bool)
    requires Inv(c) && Live(c.ledger, a) && a != to && (token in c.ledger.tickets || !event)
    ensures !StaysOne(SendAway(c, a, to, token, event))
  {
    hide RunFrom, Apply, Enabled, StaysOne;
    var d, rest := SendAway(c, a, to, token, event), [Look, Refresh, Connect(false)];
    assert d.presence.Some? && d.presence.value.shard == to;
    GetReady(d, to, rest, false);
    Rejoin(Ready(d, to), false);
    assert Ready(d, to).ledger.At(a) == c.ledger.At(a);
    TwoEnd(d, [GiveUp, Restart(to)] + rest, a, to);
  }

  /** A handoff as it should go: the player ends on the destination, which goes on
      after the last input that the source had received, while the source keeps what it
      has queued; presence names the destination. */
  lemma HandoffArrives(c: Cluster, a: nat, to: nat, token: nat)
    requires Inv(c) && Sound(c.ledger) && Live(c.ledger, a) && a != to && token !in c.ledger.tickets
    requires c.client.at == Some(a) && c.client.asking.Idle? && to !in c.dead && token !in c.ledger.At(to).redeemed
    ensures var x, d := c.ledger.At(a).copy.value, RunFrom(c,
            [Migrate(a, to, token, true), Redirected, Connect(false)], true);
            && d.Some? && d.value.ledger.At(to).copy == Some(NewCopy(token, x.chain, x.slot.highest))
            && d.value.ledger.At(a).copy == Some(x.(redirecting := true))
            && d.value.ledger.consumed == c.ledger.consumed
            && d.value.presence == Some(Presence(to, token)) && d.value.client.at == Some(to)
  {
    hide RunFrom, Leave;
    LiveFacts(c, a);
    hide Sound, Inv;
    var migrate, rest := Migrate(a, to, token, true), [Redirected, Connect(false)];
    var c1 := Apply(c, migrate);
    var c2 := Apply(c1, Redirected);
    assert [migrate, Redirected, Connect(false)] == [migrate] + rest && rest == [Redirected] + [Connect(false)];
    assert [Connect(false)] == [Connect(false)] + [];
    RunStep(c, migrate, rest, true);
    RunStep(c1, Redirected, [Connect(false)], true);
    RunStep(c2, Connect(false), [], true);
    RunNone(Apply(c2, Connect(false)), true);
  }

  /** A player that asks for its session instead is sent to the destination, under the
      token that it had. */
  lemma HandoffKeepsSession(c: Cluster, a: nat, to: nat, token: nat, event: bool)
    requires Inv(c) && Live(c.ledger, a) && a != to && c.client.asking.Idle?
    ensures c.presence.Some?
    ensures var d := SendAway(c, a, to, token, event);
            && Enabled(d, Look) && Enabled(Apply(d, Look), Refresh)
            && Apply(Apply(d, Look), Refresh).client.credential == Some(Session(to, c.presence.value.token))
  {
    hide HandOff;
  }

  lemma LiveFacts(c: Cluster, a: nat)
    requires Inv(c) && Sound(c.ledger) && Live(c.ledger, a)
    ensures TransferWorks(c.presence, a)
    ensures var x := c.ledger.At(a).copy.value; x.reported == x.slot.highest && !x.redirecting
  {
    Holds(c.ledger, a, a, OnShard(a), OnShard(a));
    hide Sound, SlotOk;
  }

  /** Such a state is reachable: a player that was handed off asks for a session
      instead of using its ticket, and the ticket stays in the store. */
  lemma TokenTakenReachable()
    ensures var opening := [Look, Choose(0, 1), Connect(false)];
            var c := RunFrom(Start(), opening + ([Migrate(0, 1, 2, true)] + [Look, Refresh, Connect(false)]), true);
            c.Some? && Live(c.value.ledger, 1) && 2 in c.value.ledger.tickets
  {
    hide RunFrom;
    var opening, again := [Look, Choose(0, 1), Connect(false)], [Look, Refresh, Connect(false)];
    NewSession(Start(), 0, 1, true);
    RunAppend(Start(), opening, [Migrate(0, 1, 2, true)] + again, true);
    var c0 := RunFrom(Start(), opening, true).value;
    assert c0.ledger.At(0).copy == Some(NewCopy(1, 0, 0));
    var c1 := Apply(c0, Migrate(0, 1, 2, true));
    RunStep(c0, Migrate(0, 1, 2, true), again, true);
    assert 2 in c1.ledger.tickets && c1.presence == Some(Presence(1, 1));
    Rejoin(c1, true);
  }

  // ---------------------------------------------------------------------------
  // Where the hypotheses bite: inputs consumed twice

  /** The client holds a ticket that its shard still remembers as redeemed. */
  predicate CanReuse(c: Cluster, a: nat, token: nat, t: Handoff) {
    && c.client.credential == Some(Migration(a, token)) && c.client.asking.Idle? && a !in c.dead
    && token in c.ledger.At(a).redeemed && c.ledger.At(a).redeemed[token] == t
  }

  /** Using it, and sending the first input after it, consumes that input, whether or
      not it was consumed before; and the ticket can then be used again. */
  lemma ReuseConsumes(c: Cluster, a: nat, token: nat, t: Handoff)
    requires CanReuse(c, a, token, t)
    ensures var n := t.lastInput + 1;
            var d := RunFrom(c, [Connect(false), Payload(a, [n]), Advance(a)], false);
            d.Some? && CanReuse(d.value, a, token, t) && d.value.ledger.consumed == c.ledger.consumed + [(t.chain, n)]
  {
    var n := t.lastInput + 1;
    var c1, rest := Apply(c, Connect(false)), [Payload(a, [n]), Advance(a)];
    ReuseConnect(c, a, token, t);
    ReuseInput(c1, a, token, t);
    var c2 := Apply(c1, Payload(a, [n]));
    hide RunFrom, Apply, Enabled, CanReuse;
    assert [Connect(false), Payload(a, [n]), Advance(a)] == [Connect(false)] + rest;
    assert rest == [Payload(a, [n])] + [Advance(a)] && [Advance(a)] == [Advance(a)] + [];
    RunStep(c, Connect(false), rest, false);
    RunStep(c1, Payload(a, [n]), [Advance(a)], false);
    RunStep(c2, Advance(a), [], false);
    RunNone(Apply(c2, Advance(a)), false);
  }

  lemma ReuseConnect(c: Cluster, a: nat, token: nat, t: Handoff)
    requires CanReuse(c, a, token, t)
    ensures Enabled(c, Connect(false))
    ensures var d := Apply(c, Connect(false));
            && CanReuse(d, a, token, t) && d.ledger.consumed == c.ledger.consumed
            && d.ledger.At(a).copy == Some(NewCopy(token, t.chain, t.lastInput))
  {
    hide Leave;
  }

  lemma ReuseInput(c: Cluster, a: nat, token: nat, t: Handoff)
    requires CanReuse(c, a, token, t) && c.ledger.At(a).copy == Some(NewCopy(token, t.chain, t.lastInput))
    ensures var n := t.lastInput + 1;
            && Enabled(c, Payload(a, [n]))
            && var d := Apply(c, Payload(a, [n]));
               && Enabled(d, Advance(a))
               && var e := Apply(d, Advance(a));
                  CanReuse(e, a, token, t) && e.ledger.consumed == c.ledger.consumed + [(t.chain, n)]
  {
    hide Enabled, Apply;
    FirstPayload(c, a, NewCopy(token, t.chain, t.lastInput), t.lastInput + 1);
    AdvanceOne(Apply(c, Payload(a, [t.lastInput + 1])), a);
  }

  lemma FirstPayload(c: Cluster, a: nat, x: Copy, n: nat)
    requires c.ledger.At(a).copy == Some(x) && !x.redirecting && x.slot.pending == [] && n > x.slot.highest
    requires n > x.reported
    ensures Enabled(c, Payload(a, [n]))
    ensures var d := Apply(c, Payload(a, [n]));
            && d == c.(ledger := d.ledger) && d.ledger.consumed == c.ledger.consumed
            && d.ledger.At(a) == c.ledger.At(a).(copy := Some(x.(slot := Slot([n], x.slot.applied, n), reported := n)))
  {
    var y := x.(slot := QueueInput(x.slot, n), reported := n);
    assert y.slot == Slot([n], x.slot.applied, n);
    assert Receive(x, [n]) == Receive(y, []) == y by { assert [n][1..] == []; }
    hide Receive, QueueInput;
  }

  lemma AdvanceOne(c: Cluster, a: nat)
    requires c.ledger.At(a).copy.Some? && c.ledger.At(a).copy.value.slot.pending != []
    ensures Enabled(c, Advance(a))
    ensures var x, d := c.ledger.At(a).copy.value, Apply(c, Advance(a));
            && d == c.(ledger := d.ledger) && d.ledger.consumed == c.ledger.consumed + [(x.chain, x.slot.pending[0])]
            && d.ledger.At(a).redeemed == c.ledger.At(a).redeemed
  {
  }

  /** Such a state is reachable: one handoff, and one use of its ticket. */
  lemma ReuseReachable()
    ensures var c := RunFrom(Start(),
            [Look, Choose(0, 1), Connect(false)] + [Migrate(0, 1, 2, true), Redirected, Connect(false)], true);
            c.Some? && CanReuse(c.value, 1, 2, Handoff(1, 0, 0))
  {
    hide RunFrom;
    var opening, rest := [Look, Choose(0, 1), Connect(false)], [Migrate(0, 1, 2, true), Redirected, Connect(false)];
    NewSession(Start(), 0, 1, true);
    RunAppend(Start(), opening, rest, true);
    var c0 := RunFrom(Start(), opening, true).value;
    assert c0.ledger.At(0).copy == Some(NewCopy(1, 0, 0));
    var c1 := Apply(c0, Migrate(0, 1, 2, true));
    assert c1.ledger.tickets == map[2 := Handoff(1, 0, 0)] && c1.ledger.At(1) == VACANT;
    var c2 := Apply(c1, Redirected);
    assert c2.client.credential == Some(Migration(1, 2));
    assert rest == [Migrate(0, 1, 2, true)] + [Redirected, Connect(false)]
           && [Redirected, Connect(false)] == [Redirected] + [Connect(false)];
    assert [Connect(false)] == [Connect(false)] + [];
    RunStep(c0, Migrate(0, 1, 2, true), [Redirected, Connect(false)], true);
    RunStep(c1, Redirected, [Connect(false)], true);
    RunStep(c2, Connect(false), [], true);
    RunNone(Apply(c2, Connect(false)), true);
  }

  /** So without that hypothesis an input can be consumed twice. */
  lemma ReuseRepeats(c: Cluster, a: nat, token: nat, t: Handoff)
    requires CanReuse(c, a, token, t)
    ensures var n := t.lastInput + 1;
            var once := [Connect(false), Payload(a, [n]), Advance(a)];
            var d := RunFrom(c, once + once, false);
            d.Some? && d.value.ledger.consumed == c.ledger.consumed + [(t.chain, n), (t.chain, n)]
  {
    hide RunFrom, CanReuse;
    var n := t.lastInput + 1;
    var once := [Connect(false), Payload(a, [n]), Advance(a)];
    ReuseConsumes(c, a, token, t);
    RunAppend(c, once, once, false);
    ReuseConsumes(RunFrom(c, once, false).value, a, token, t);
  }

  /** No input consumed twice. */
  ghost predicate ConsumedOnce(l: Ledger) {
    forall i, j | 0 <= i < j < |l.consumed| :: l.consumed[i] != l.consumed[j]
  }

  /** The guard on tickets is the exact one.  From a sound state in which the client
      can present a ticket: if the shard does not remember it, no run that keeps the
      guard consumes an input twice; if it does, presenting it twice can. */
  lemma TicketGuardExact(c: Cluster, a: nat, token: nat, expired: bool)
    requires Sound(c.ledger) && c.client.credential == Some(Migration(a, token)) && c.client.asking.Idle?
    requires a !in c.dead
    ensures token !in c.ledger.At(a).redeemed ==>
              forall steps :: RunFrom(Apply(c, Connect(expired)), steps, true).Some? ==>
                ConsumedOnce(RunFrom(Apply(c, Connect(expired)), steps, true).value.ledger)
    ensures token in c.ledger.At(a).redeemed ==>
              exists steps :: RunFrom(c, steps, false).Some? && !ConsumedOnce(RunFrom(c, steps, false).value.ledger)
  {
    hide RunFrom, Apply, Sound, CanReuse;
    if token in c.ledger.At(a).redeemed {
      var t := c.ledger.At(a).redeemed[token];
      CanReuseIs(c, a, token, t);
      ReuseRepeats(c, a, token, t);
      var n := t.lastInput + 1;
      var once := [Connect(false), Payload(a, [n]), Advance(a)];
      var k, l := |c.ledger.consumed|, RunFrom(c, once + once, false).value.ledger;
      assert l.consumed[k] == l.consumed[k + 1];
    } else {
      ConnectSound(c, expired);
      var d := Apply(c, Connect(expired));
      forall steps | RunFrom(d, steps, true).Some? ensures ConsumedOnce(RunFrom(d, steps, true).value.ledger) {
        RunSound(d, steps);
        SoundConsumedOnce(RunFrom(d, steps, true).value.ledger);
      }
    }
  }

  lemma CanReuseIs(c: Cluster, a: nat, token: nat, t: Handoff)
    requires c.client.credential == Some(Migration(a, token)) && c.client.asking.Idle? && a !in c.dead
    requires token in c.ledger.At(a).redeemed && c.ledger.At(a).redeemed[token] == t
    ensures CanReuse(c, a, token, t)
  {
  }

  lemma SoundConsumedOnce(l: Ledger)
    requires Sound(l)
    ensures ConsumedOnce(l)
  {
  }
}
