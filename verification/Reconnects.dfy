/**
 A player's session across connections: presence names not only the shard but also
 the session of the live copy, so a player that comes back is known for who it is.
 */
module Reconnects {
  import opened SequenceBuffers
  import opened InputLedger
  import opened Clusters

  /** `p` is the shard and the session of whatever copy is live. */
  ghost predicate NamesLive(l: Ledger, p: Option<Presence>) {
    forall a: nat :: IsNamed(l, p, a)
  }

  ghost predicate IsNamed(l: Ledger, p: Option<Presence>, a: nat) {
    Live(l, a) ==> p == Some(Presence(a, l.At(a).copy.value.token))
  }

  ghost predicate Known(c: Cluster) {
    NamesLive(c.ledger, c.presence) && (c.client.asking.Seen? ==> NamesLive(c.ledger, c.client.asking.presence))
  }

  // ---------------------------------------------------------------------------
  // Every step keeps it

  lemma {:induction false} ReceiveKeepsToken(x: Copy, inputs: seq<nat>)
    ensures Receive(x, inputs).token == x.token
    decreases |inputs|
  {
    hide QueueInput;
    if !x.redirecting && inputs != [] {
      var n := inputs[0];
      ReceiveKeepsToken(
        x.(slot := QueueInput(x.slot, n), reported := if n > x.reported then n else x.reported), inputs[1..]);
    }
  }

  /** Every live copy was live before, in the same session. */
  ghost predicate SameSessions(l: Ledger, m: Ledger) {
    forall a: nat :: Live(m, a) ==> Live(l, a) && m.At(a).copy.value.token == l.At(a).copy.value.token
  }

  lemma SameSessionsKnown(c: Cluster, c': Cluster)
    requires Known(c) && SameSessions(c.ledger, c'.ledger)
    requires c'.presence == c.presence && c'.client.asking == c.client.asking
    ensures Known(c')
  {
    hide Live;
    forall a: nat ensures IsNamed(c'.ledger, c'.presence, a) { assert IsNamed(c.ledger, c.presence, a); }
    if c.client.asking.Seen? {
      forall a: nat ensures IsNamed(c'.ledger, c'.client.asking.presence, a) {
        assert IsNamed(c.ledger, c.client.asking.presence, a);
      }
    }
  }

  lemma NoneKnown(c: Cluster)
    requires NoneLive(c.ledger)
    ensures Known(c)
  {
  }

  lemma LocalKnown(c: Cluster, step: Step)
    requires Known(c) && Enabled(c, step) && Local(step)
    ensures Known(Apply(c, step))
  {
    hide Known;
    LocalSessions(c, step);
    SameSessionsKnown(c, Apply(c, step));
  }

  lemma LocalSessions(c: Cluster, step: Step)
    requires Local(step) && Enabled(c, step)
    ensures var c' := Apply(c, step);
            SameSessions(c.ledger, c'.ledger) && c'.presence == c.presence && c'.client == c.client
  {
    if step.Payload? {
      ReceiveKeepsToken(c.ledger.At(step.shard).copy.value, step.inputs);
      ReceiveKeepsRedirect(c.ledger.At(step.shard).copy.value, step.inputs);
    }
    hide Receive, QueueInput, ApplyInput;
  }

  lemma ConnectKnown(c: Cluster, expired: bool)
    requires Inv(c) && Known(c) && Enabled(c, Connect(expired))
    ensures Known(Apply(c, Connect(expired)))
  {
    hide Leave;
    StepKeeps(c, Connect(expired));
    var c' := Apply(c, Connect(expired));
    forall a: nat ensures IsNamed(c'.ledger, c'.presence, a) { assert IsNamed(c.ledger, c.presence, a); }
  }

  lemma MigrateKnown(c: Cluster, step: Step)
    requires Inv(c) && Known(c) && Enabled(c, step) && step.Migrate?
    ensures Known(Apply(c, step))
  {
    StepKeeps(c, step);
    var m := HandOff(c.ledger, step.shard, step.to, step.token);
    assert c.presence.Some? && c.presence.value.shard == step.shard;
    forall b: nat ensures !Live(m, b) { assert Live(c.ledger, b) ==> b == step.shard; }
    NoneKnown(Apply(c, step));
  }

  /** Asking never takes a session away from a live copy. */
  lemma AskedKnown(c: Cluster, step: Step)
    requires Inv(c) && Known(c) && Enabled(c, step)
    requires step.Look? || step.Refresh? || step.Clear? || step.Choose? || step.Own? || step.GiveUp?
    ensures Known(Apply(c, step))
  {
    hide Live, NamesLive;
    if step.Clear? || step.Choose? {
      NoneLiveNow(c, step);
      NoneKnown(Apply(c, step));
    }
  }

  lemma NoneLiveNow(c: Cluster, step: Step)
    requires Inv(c) && Enabled(c, step) && (step.Clear? || step.Choose?)
    ensures NoneLive(c.ledger)
  {
  }

  lemma OtherKnown(c: Cluster, step: Step)
    requires Inv(c) && Known(c) && Enabled(c, step) && (step.Redirected? || step.Touch? || step.Release?)
    ensures Known(Apply(c, step))
  {
    StepKeeps(c, step);
    if step.Release? {
      forall b: nat ensures !Live(c.ledger, b) { assert Live(c.ledger, b) ==> b in c.ledger.shards; }
      NoneKnown(Apply(c, step));
    }
  }

  lemma StepKnown(c: Cluster, step: Step)
    requires Inv(c) && Known(c) && Enabled(c, step)
    ensures Known(Apply(c, step))
  {
    hide Inv, Known, Apply, Enabled;
    if Local(step) {
      LocalKnown(c, step);
    } else {
      match step
      case Connect(expired) => ConnectKnown(c, expired);
      case Migrate(_, _, _, _) => MigrateKnown(c, step);
      case Redirected => OtherKnown(c, step);
      case Touch(_) => OtherKnown(c, step);
      case Release => OtherKnown(c, step);
      case _ => AskedKnown(c, step);
    }
  }

  lemma {:induction false} RunKnown(c: Cluster, steps: seq<Step>, strict: bool)
    requires Inv(c) && Known(c) && RunFrom(c, steps, strict).Some?
    ensures Known(RunFrom(c, steps, strict).value)
    decreases |steps|
  {
    hide Inv, Known, Apply, Enabled, NotRemembered;
    if steps != [] {
      StepKeeps(c, steps[0]);
      StepKnown(c, steps[0]);
      RunKnown(Apply(c, steps[0]), steps[1..], strict);
    }
  }

  /** In every reachable state presence names the shard and the session of the live copy,
      if there is one. */
  lemma PresenceIsSession(steps: seq<Step>, strict: bool, a: nat)
    requires RunFrom(Start(), steps, strict).Some? && Live(RunFrom(Start(), steps, strict).value.ledger, a)
    ensures var c := RunFrom(Start(), steps, strict).value;
            c.presence == Some(Presence(a, c.ledger.At(a).copy.value.token))
  {
    hide RunFrom, Live;
    NothingLive();
    RunKnown(Start(), steps, strict);
    var c := RunFrom(Start(), steps, strict).value;
    assert IsNamed(c.ledger, c.presence, a);
  }

  lemma NothingLive()
    ensures Inv(Start()) && Known(Start())
  {
  }

  // ---------------------------------------------------------------------------
  // Coming back

  /** What a player is on a shard once it has come back to it: the same session, and the
      same chain from the last input applied, unless its ghost had expired. */
  function Back(x: Copy, expired: bool, newChain: nat): Copy {
    if expired then NewCopy(x.token, newChain, 0) else NewCopy(x.token, x.chain, x.slot.applied)
  }

  /** A player whose connection broke asks for its session and resumes it: on the same
      shard, in the same session, on the same chain, from the last input applied.  It
      does so too if the shard has not noticed yet. */
  lemma ReconnectResumes(c: Cluster, a: nat, dropped: bool, expired: bool)
    requires Inv(c) && Known(c) && Live(c.ledger, a) && c.client.asking.Idle? && a !in c.dead
    ensures var x, again := c.ledger.At(a).copy.value, [Look, Refresh, Connect(expired)];
            var d := RunFrom(c, (if dropped then [Drop(a)] else []) + again, true);
            && d.Some? && d.value.ledger.At(a).copy == Some(Back(x, expired, c.ledger.chains))
            && d.value.presence == Some(Presence(a, x.token)) && d.value.client.at == Some(a)
            && d.value.ledger.consumed == c.ledger.consumed
  {
    hide RunFrom, Inv;
    assert IsNamed(c.ledger, c.presence, a);
    hide Known;
    var x, again := c.ledger.At(a).copy.value, [Look, Refresh, Connect(expired)];
    if dropped {
      var c1 := Apply(c, Drop(a));
      LeaveGone(c.ledger.At(a));
      assert c1.ledger.At(a) == Leave(c.ledger.At(a));
      AskAgain(c1, a, x, expired);
      RunStep(c, Drop(a), again, true);
    } else {
      assert [] + again == again;
      AskAgain(c, a, x, expired);
    }
  }

  lemma AskAgain(c: Cluster, a: nat, x: Copy, expired: bool)
    requires c.client.asking.Idle? && a !in c.dead && c.presence == Some(Presence(a, x.token)) && !x.redirecting
    requires Leave(c.ledger.At(a)).leftover == Some(Ghost(x.token, x.chain, x.slot.applied))
    requires Leave(c.ledger.At(a)).copy == None
    ensures var d := RunFrom(c, [Look, Refresh, Connect(expired)], true);
            && d.Some? && d.value.ledger.At(a).copy == Some(Back(x, expired, c.ledger.chains))
            && d.value.presence == Some(Presence(a, x.token)) && d.value.client.at == Some(a)
            && d.value.ledger.consumed == c.ledger.consumed
  {
    hide RunFrom, Leave;
    var c1 := Apply(c, Look);
    var c2 := Apply(c1, Refresh);
    var rest := [Refresh, Connect(expired)];
    assert [Look, Refresh, Connect(expired)] == [Look] + rest && rest == [Refresh] + [Connect(expired)];
    assert [Connect(expired)] + [] == [Connect(expired)];
    RunStep(c, Look, rest, true);
    RunStep(c1, Refresh, [Connect(expired)], true);
    RunStep(c2, Connect(expired), [], true);
    RunNone(Apply(c2, Connect(expired)), true);
  }

  // ---------------------------------------------------------------------------
  // Getting in where the session was not

  /** A player whose shard has died is given a session on any shard that is up. */
  lemma Reassigned(c: Cluster, shard: nat, token: nat)
    requires c.client.asking.Idle? && c.presence.Some? && c.presence.value.shard in c.dead
    requires shard !in c.dead && c.ledger.At(shard) == VACANT
    ensures var d := RunFrom(c, [Look, Clear, Choose(shard, token), Connect(false)], true);
            && d.Some? && d.value.ledger.At(shard).copy == Some(NewCopy(token, c.ledger.chains, 0))
            && d.value.presence == Some(Presence(shard, token)) && d.value.client.at == Some(shard)
  {
    hide RunFrom;
    var c1 := Apply(c, Look);
    var c2 := Apply(c1, Clear);
    var c3 := Apply(c2, Choose(shard, token));
    assert c.ledger.With(shard, Leave(c.ledger.At(shard))).At(shard) == VACANT;
    var last, rest := [Connect(false)], [Choose(shard, token), Connect(false)];
    assert [Look, Clear, Choose(shard, token), Connect(false)] == [Look] + ([Clear] + rest);
    assert rest == [Choose(shard, token)] + last && last == last + [];
    RunStep(c, Look, [Clear] + rest, true);
    RunStep(c1, Clear, rest, true);
    RunStep(c2, Choose(shard, token), last, true);
    RunStep(c3, Connect(false), [], true);
    RunNone(Apply(c3, Connect(false)), true);
  }

  /** A claim that comes too late changes nothing and leads to the winner's session. */
  lemma LostClaim(c: Cluster, shard: nat, token: nat)
    requires c.client.asking == Seen(None) && c.presence.Some? && c.presence.value.shard != shard
    requires c.presence.value.shard !in c.dead
    ensures var won := c.presence.value;
            var d := RunFrom(c, [Choose(shard, token), Own, Connect(false)], true);
            && d.Some? && d.value.presence == c.presence && d.value.client.at == Some(won.shard)
            && d.value.ledger.At(won.shard).copy.Some? && !d.value.ledger.At(won.shard).copy.value.redirecting
            && d.value.ledger.At(won.shard).copy.value.token == won.token
  {
    hide RunFrom, Leave;
    var c1 := Apply(c, Choose(shard, token));
    var c2 := Apply(c1, Own);
    var last, rest := [Connect(false)], [Own, Connect(false)];
    assert [Choose(shard, token), Own, Connect(false)] == [Choose(shard, token)] + rest;
    assert rest == [Own] + last && last == last + [];
    RunStep(c, Choose(shard, token), rest, true);
    RunStep(c1, Own, last, true);
    RunStep(c2, Connect(false), [], true);
    RunNone(Apply(c2, Connect(false)), true);
  }
}
