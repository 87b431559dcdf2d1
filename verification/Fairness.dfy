/**
 Bounded waiting: an entity that stays a candidate is sent within a bounded
 number of encodes, whatever best choice each encode makes and however its rivals
 come and go.
 */
module Fairness {
  import opened Sequence
  import opened SequenceBuffers
  import opened Snapshot
  import opened Replication

  /** One encode as the scheduler sees it: the priority of each candidate, and
      which were sent. */
  datatype Round = Round(rank: map<u32, real>, chosen: set<u32>) {
    predicate Deferred(id: u32) {
      id in rank && id !in chosen
    }
  }

  /** The credit entity `id` has at encode `t`. */
  function Credit(rounds: seq<Round>, t: nat, id: u32): real
    requires t <= |rounds|
  {
    if t > 0 && rounds[t - 1].Deferred(id) then rounds[t - 1].rank[id] else 0.0
  }

  const STEP: real := 0.01
  const VIEWER_BONUS: real := 1000000.0

  function Bonus(id: u32, viewer: u32): real {
    if id == viewer then VIEWER_BONUS else 0.0
  }

  /** Each candidate gains at least a step and at most the falloff and a step; the
      chosen are the best, at least two of them, or everyone. */
  ghost predicate FairRound(rounds: seq<Round>, t: nat, viewer: u32, falloff: real, limit: nat)
    requires t < |rounds|
  {
    var r := rounds[t];
    && r.chosen <= r.rank.Keys && |r.rank| <= limit
    && (forall id <- r.rank ::
          Credit(rounds, t, id) + STEP <= r.rank[id] - Bonus(id, viewer) <= Credit(rounds, t, id) + falloff + STEP)
    && (r.chosen == r.rank.Keys || |r.chosen| >= 2)
    && (forall a, b :: a in r.chosen && r.Deferred(b) ==> r.rank[a] >= r.rank[b])
  }

  ghost predicate FairRun(rounds: seq<Round>, viewer: u32, falloff: real, limit: nat) {
    falloff >= 0.0 && forall t | 0 <= t < |rounds| :: FairRound(rounds, t, viewer, falloff, limit)
  }

  /** For how many encodes in a row `id` has been deferred just before `t`. */
  function Age(rounds: seq<Round>, t: nat, id: u32): nat
    requires t <= |rounds|
  {
    if t > 0 && rounds[t - 1].Deferred(id) then 1 + Age(rounds, t - 1, id) else 0
  }

  /** The most credit that `age` encodes can give. */
  function Cap(age: nat, gain: real): real {
    age as real * gain
  }

  lemma CapStep(age: nat, gain: real)
    ensures Cap(age + 1, gain) == Cap(age, gain) + gain && Cap(0, gain) == 0.0
  {
  }

  lemma {:induction false} AgeMeansDeferred(rounds: seq<Round>, t: nat, id: u32, d: nat)
    requires t <= |rounds| && 0 < d <= Age(rounds, t, id)
    ensures d <= t && rounds[t - d].Deferred(id)
    decreases t
  {
    if d > 1 { AgeMeansDeferred(rounds, t - 1, id, d - 1); }
  }

  /** A rival's credit is bounded by its age. */
  lemma {:induction false} CreditUpper(rounds: seq<Round>, t: nat, id: u32, viewer: u32, falloff: real, limit: nat)
    requires FairRun(rounds, viewer, falloff, limit) && t <= |rounds| && id != viewer
    ensures Credit(rounds, t, id) <= Cap(Age(rounds, t, id), falloff + STEP)
    decreases t
  {
    hide Cap;
    CapStep(0, falloff + STEP);
    if t > 0 && rounds[t - 1].Deferred(id) {
      CreditUpper(rounds, t - 1, id, viewer, falloff, limit);
      assert FairRound(rounds, t - 1, viewer, falloff, limit);
      CapStep(Age(rounds, t - 1, id), falloff + STEP);
    }
  }

  /** The one that waits gains a step each time. */
  lemma {:induction false} CreditLower(rounds: seq<Round>, from: nat, t: nat, id: u32, viewer: u32, falloff: real,
                                       limit: nat)
    requires FairRun(rounds, viewer, falloff, limit) && from <= t <= |rounds|
    requires forall k | from <= k < t :: rounds[k].Deferred(id)
    ensures Credit(rounds, t, id) >= STEP * (t - from) as real
    decreases t
  {
    if t > from {
      CreditLower(rounds, from, t - 1, id, viewer, falloff, limit);
      assert FairRound(rounds, t - 1, viewer, falloff, limit);
    } else {
      CreditNonNegative(rounds, t, id, viewer, falloff, limit);
    }
  }

  lemma {:induction false} CreditNonNegative(rounds: seq<Round>, t: nat, id: u32, viewer: u32, falloff: real,
                                             limit: nat)
    requires FairRun(rounds, viewer, falloff, limit) && t <= |rounds|
    ensures Credit(rounds, t, id) >= 0.0
    decreases t
  {
    if t > 0 {
      CreditNonNegative(rounds, t - 1, id, viewer, falloff, limit);
      assert FairRound(rounds, t - 1, viewer, falloff, limit);
    }
  }

  /** When `e` has waited long enough, whoever is preferred to it has waited for
      more than `limit` encodes. */
  lemma OldRival(rounds: seq<Round>, from: nat, t: nat, e: u32, viewer: u32, falloff: real, limit: nat) returns (r: u32)
    requires FairRun(rounds, viewer, falloff, limit) && from <= t < |rounds|
    requires forall k | from <= k <= t :: rounds[k].Deferred(e)
    requires STEP * (t - from) as real >= Cap(limit, falloff + STEP)
    ensures r in rounds[t].chosen && r != e && Age(rounds, t, r) >= limit
  {
    hide Cap, Credit, Age;
    var round := rounds[t];
    assert FairRound(rounds, t, viewer, falloff, limit);
    hide FairRun;
    assert round.chosen != round.rank.Keys by { assert e in round.rank.Keys; }
    r := Other(round.chosen, viewer);
    CreditLower(rounds, from, t, e, viewer, falloff, limit);
    CreditUpper(rounds, t, r, viewer, falloff, limit);
    assert round.rank[r] >= round.rank[e];
    Outwaited(Age(rounds, t, r), limit, falloff + STEP, STEP * (t - from) as real, round.rank[r]);
  }

  lemma Outwaited(age: nat, limit: nat, gain: real, waited: real, rank: real)
    requires gain > 0.0 && rank <= Cap(age, gain) + gain && rank >= waited + STEP && waited >= Cap(limit, gain)
    ensures age >= limit
  {
    CapStep(age, gain);
    Cancel(age + 1, limit, gain);
  }

  lemma Other(s: set<u32>, viewer: u32) returns (r: u32)
    requires |s| >= 2
    ensures r in s && r != viewer
  {
    if s <= {viewer} {
      SubsetSize(s, {viewer});
      r := viewer;
    } else {
      r :| r in s && r != viewer;
    }
  }

  lemma SubsetSize(a: set<u32>, b: set<u32>)
    requires a <= b
    ensures |a| <= |b|
  {
    assert b == a + (b - a);
  }

  lemma Cancel(a: nat, b: nat, q: real)
    requires q > 0.0 && Cap(a, q) > Cap(b, q)
    ensures a > b
  {
    Scale(a, b, q);
  }

  lemma Scale(a: nat, b: nat, q: real)
    requires q > 0.0
    ensures a <= b ==> Cap(a, q) <= Cap(b, q)
  {
  }

  /** The rivals chosen in `k` late encodes in a row are distinct, and all were
      candidates at the first of them. */
  lemma {:induction false} DistinctRivals(rounds: seq<Round>, from: nat, start: nat, k: nat, e: u32, viewer: u32,
                                          falloff: real, limit: nat)
    returns (rivals: set<u32>)
    requires FairRun(rounds, viewer, falloff, limit) && from <= start && start + k <= |rounds| && k <= limit
    requires start < |rounds|
    requires forall t | from <= t < start + k :: rounds[t].Deferred(e)
    requires STEP * (start - from) as real >= Cap(limit, falloff + STEP)
    ensures |rivals| == k && e !in rivals && rivals <= rounds[start].rank.Keys
    ensures forall r <- rivals :: exists t | start <= t < start + k :: r in rounds[t].chosen
    decreases k
  {
    if k == 0 { return {}; }
    rivals := DistinctRivals(rounds, from, start, k - 1, e, viewer, falloff, limit);
    var t := start + k - 1;
    var r := OldRival(rounds, from, t, e, viewer, falloff, limit);
    if k > 1 {
      AgeMeansDeferred(rounds, t, r, k - 1);
    } else {
      assert FairRound(rounds, start, viewer, falloff, limit);
    }
    NotYetChosen(rounds, start, t, r, limit);
    rivals := rivals + {r};
  }

  lemma NotYetChosen(rounds: seq<Round>, start: nat, t: nat, r: u32, limit: nat)
    requires start <= t < |rounds| && t - start < limit <= Age(rounds, t, r)
    ensures forall u | start <= u < t :: r !in rounds[u].chosen
  {
    forall u | start <= u < t ensures r !in rounds[u].chosen {
      AgeMeansDeferred(rounds, t, r, t - u);
    }
  }

  /** No candidate waits `limit * (falloff + 0.01) / 0.01 + limit` encodes. */
  lemma NoStarvation(rounds: seq<Round>, from: nat, span: nat, e: u32, viewer: u32, falloff: real, limit: nat)
    requires FairRun(rounds, viewer, falloff, limit) && from + span <= |rounds| && 0 < limit
    requires forall t | from <= t < from + span :: e in rounds[t].rank
    requires span as real >= limit as real * (falloff + STEP) / STEP + limit as real
    ensures exists t | from <= t < from + span :: e in rounds[t].chosen
  {
    if !exists t | from <= t < from + span :: e in rounds[t].chosen {
      forall t | from <= t < from + span ensures rounds[t].Deferred(e) {}
      SpanBound(span, limit, falloff);
      var start := from + span - limit;
      var rivals := DistinctRivals(rounds, from, start, limit, e, viewer, falloff, limit);
      var all := rounds[start].rank.Keys;
      assert FairRound(rounds, start, viewer, falloff, limit);
      assert |rivals + {e}| == limit + 1;
      SubsetSize(rivals + {e}, all);
    }
  }

  lemma SpanBound(span: nat, limit: nat, falloff: real)
    requires falloff >= 0.0 && span as real >= limit as real * (falloff + STEP) / STEP + limit as real
    ensures span >= limit && STEP * (span - limit) as real >= Cap(limit, falloff + STEP)
  {
    var x := limit as real * (falloff + STEP);
    assert x >= 0.0;
    assert x / STEP * STEP == x;
    assert (span - limit) as real == span as real - limit as real;
  }

  // ---------------------------------------------------------------------------
  // Encodes are fair rounds

  /** One encode of a viewer's snapshots, with the choice it made. */
  datatype Encoding = Encoding(server: Server, budgetBits: nat, scene: Scene, choice: seq<bool>)

  ghost function RankAt(falloff: real, x: Encoding): seq<Option<real>>
    requires x.scene.Valid()
  {
    Ranking(x.server, Baseline(x.server, x.scene.tick), falloff, x.scene)
  }

  ghost predicate Candidate(falloff: real, x: Encoding, id: u32)
    requires x.scene.Valid()
  {
    exists i | 0 <= i < |x.scene.current| :: RankAt(falloff, x)[i].Some? && x.scene.current[i].id == id
  }

  ghost predicate IsChosen(x: Encoding, id: u32) {
    exists i | 0 <= i < |x.scene.current| && i < |x.choice| :: x.choice[i] && x.scene.current[i].id == id
  }

  /** A valid encode with room for at least two records and at most `limit`
      candidates. */
  ghost predicate Contended(falloff: real, x: Encoding, limit: nat) {
    && x.scene.Valid() && RingSorted(x.server.history)
    && Chooses(x.server, falloff, x.budgetBits, x.scene, x.choice)
    && (BaselineSorted(x.server, x.scene.tick);
        FitCount(x.budgetBits - |HeadBits(x.scene, Baseline(x.server, x.scene.tick))|) >= 2)
    && Count(Candidates(RankAt(falloff, x))) <= limit
  }

  /** Successive encodes for one viewer, starting with no credit.  Between two of
      them anything but the credit may change. */
  ghost predicate Encodings(xs: seq<Encoding>, viewer: u32, falloff: real, limit: nat) {
    && falloff >= 0.0
    && (forall t | 0 <= t < |xs| :: Contended(falloff, xs[t], limit) && xs[t].scene.viewer == viewer)
    && (xs != [] ==> xs[0].server.priority == [])
    && (forall t | 0 < t < |xs| :: Follows(falloff, xs[t - 1], xs[t]))
  }

  ghost predicate Follows(falloff: real, x: Encoding, y: Encoding) {
    && x.scene.Valid() && |x.choice| == |x.scene.current|
    && y.server.priority == AfterEncode(x.server, falloff, x.scene, x.choice).priority
  }

  /** The ids whose flag is set. */
  function Flagged(current: seq<EntityWireState>, flags: seq<bool>, n: nat): set<u32>
    requires n <= |current| == |flags|
  {
    if n == 0 then {}
    else Flagged(current, flags, n - 1) + (if flags[n - 1] then {current[n - 1].id} else {})
  }

  /** Is `id` that of a flagged entity among the first `n`? */
  ghost predicate FlaggedBy(current: seq<EntityWireState>, flags: seq<bool>, n: nat, id: u32)
    requires n <= |current| == |flags|
  {
    exists i | 0 <= i < n :: flags[i] && current[i].id == id
  }

  lemma {:induction false} FlaggedMember(current: seq<EntityWireState>, flags: seq<bool>, n: nat, id: u32)
    requires n <= |current| == |flags|
    ensures id in Flagged(current, flags, n) <==> FlaggedBy(current, flags, n, id)
  {
    if n > 0 { FlaggedMember(current, flags, n - 1, id); }
  }

  lemma {:induction false} FlaggedSize(current: seq<EntityWireState>, flags: seq<bool>, n: nat)
    requires n <= |current| == |flags| && Sorted(current)
    ensures |Flagged(current, flags, n)| == Count(flags[..n])
  {
    hide Flagged, Count, Sorted;
    NextFlagged(current, flags, n);
    if n > 0 {
      FlaggedSize(current, flags, n - 1);
      NotYetFlagged(current, flags, n - 1);
    }
  }

  lemma NextFlagged(current: seq<EntityWireState>, flags: seq<bool>, n: nat)
    requires n <= |current| == |flags|
    ensures n == 0 ==> Flagged(current, flags, n) == {} && Count(flags[..n]) == 0
    ensures n > 0 ==>
              && Flagged(current, flags, n)
                 == Flagged(current, flags, n - 1) + (if flags[n - 1] then {current[n - 1].id} else {})
              && Count(flags[..n]) == Count(flags[..n - 1]) + (if flags[n - 1] then 1 else 0)
  {
    if n > 0 { assert flags[..n][..n - 1] == flags[..n - 1]; }
  }

  lemma NotYetFlagged(current: seq<EntityWireState>, flags: seq<bool>, n: nat)
    requires n < |current| == |flags| && Sorted(current)
    ensures current[n].id !in Flagged(current, flags, n)
  {
    FlaggedMember(current, flags, n, current[n].id);
  }

  ghost function RoundOf(falloff: real, x: Encoding): Round
    requires x.scene.Valid() && |x.choice| == |x.scene.current|
  {
    RoundFrom(x.scene.current, RankAt(falloff, x), x.choice)
  }

  ghost function RoundFrom(current: seq<EntityWireState>, rank: seq<Option<real>>, choice: seq<bool>): (r: Round)
    requires Sorted(current) && |current| == |rank| == |choice|
  {
    Round(RankMap(current, rank), Flagged(current, choice, |current|))
  }

  ghost function RankMap(current: seq<EntityWireState>, rank: seq<Option<real>>): map<u32, real>
    requires Sorted(current) && |current| == |rank|
  {
    map i | 0 <= i < |current| && rank[i].Some? :: current[i].id := rank[i].value
  }

  lemma RankMapIs(current: seq<EntityWireState>, rank: seq<Option<real>>)
    requires Sorted(current) && |current| == |rank|
    ensures forall id <- RankMap(current, rank) :: exists i | 0 <= i < |current| :: rank[i].Some? && current[i].id == id
    ensures forall i | 0 <= i < |current| :: rank[i].Some? <==> current[i].id in RankMap(current, rank)
    ensures forall i | 0 <= i < |current| && rank[i].Some? :: RankMap(current, rank)[current[i].id] == rank[i].value
  {
  }

  lemma FlaggedAt(current: seq<EntityWireState>, flags: seq<bool>)
    requires |current| == |flags| && Sorted(current)
    ensures forall i | 0 <= i < |current| :: current[i].id in Flagged(current, flags, |current|) <==> flags[i]
    ensures forall id <- Flagged(current, flags, |current|) :: FlaggedBy(current, flags, |current|, id)
  {
    hide Flagged;
    forall id ensures id in Flagged(current, flags, |current|) <==> FlaggedBy(current, flags, |current|, id) {
      FlaggedMember(current, flags, |current|, id);
    }
  }

  lemma RankKeys(current: seq<EntityWireState>, rank: seq<Option<real>>)
    requires Sorted(current) && |current| == |rank|
    ensures RankMap(current, rank).Keys == Flagged(current, Candidates(rank), |current|)
  {
    hide Flagged, RankMap, Sorted;
    var flags := Candidates(rank);
    RankMapIs(current, rank);
    forall id
      ensures id in RankMap(current, rank) <==> id in Flagged(current, flags, |current|)
    {
      FlaggedMember(current, flags, |current|, id);
    }
  }

  lemma RoundFromIs(current: seq<EntityWireState>, rank: seq<Option<real>>, choice: seq<bool>)
    requires Sorted(current) && |current| == |rank| == |choice|
    ensures var r := RoundFrom(current, rank, choice);
            && (forall id <- r.rank :: exists i | 0 <= i < |current| :: rank[i].Some? && current[i].id == id)
            && (forall i | 0 <= i < |current| :: rank[i].Some? <==> current[i].id in r.rank)
            && (forall i | 0 <= i < |current| && rank[i].Some? :: r.rank[current[i].id] == rank[i].value)
            && (forall i | 0 <= i < |current| :: current[i].id in r.chosen <==> choice[i])
            && (forall id <- r.chosen :: exists i | 0 <= i < |current| :: choice[i] && current[i].id == id)
  {
    hide Flagged, RankMap, Sorted;
    FlaggedAt(current, choice);
    RankMapIs(current, rank);
  }

  lemma {:induction false} CreditIsCarried(current: seq<EntityWireState>, rank: seq<Option<real>>, sent: seq<bool>,
                                           n: nat, id: u32)
    requires n <= |current| == |rank| == |sent| && Sorted(current)
    ensures forall i | 0 <= i < n :: current[i].id == id ==>
              CreditOf(CarryOver(current, rank, sent, n), id)
              == if !sent[i] && rank[i].Some? && rank[i].value >= 0.0 then rank[i].value else 0.0
    ensures (forall i | 0 <= i < n :: current[i].id != id) ==> CreditOf(CarryOver(current, rank, sent, n), id) == 0.0
  {
    if n > 0 {
      CreditIsCarried(current, rank, sent, n - 1, id);
      var head := CarryOver(current, rank, sent, n - 1);
      if !sent[n - 1] && rank[n - 1].Some? && rank[n - 1].value >= 0.0 {
        CreditAppend(head, Carried(current[n - 1].id, rank[n - 1].value), id);
        if current[n - 1].id == id { NoCredit(current, rank, sent, n - 1, id); }
      }
    }
  }

  lemma {:induction false} NoCredit(current: seq<EntityWireState>, rank: seq<Option<real>>, sent: seq<bool>, n: nat,
                                    id: u32)
    requires n <= |current| == |rank| == |sent| && forall i | 0 <= i < n :: current[i].id != id
    ensures forall c <- CarryOver(current, rank, sent, n) :: c.id != id
  {
    if n > 0 { NoCredit(current, rank, sent, n - 1, id); }
  }

  lemma {:induction false} CreditAppend(head: seq<Carried>, c: Carried, id: u32)
    ensures id != c.id ==> CreditOf(head + [c], id) == CreditOf(head, id)
    ensures id == c.id && (forall x <- head :: x.id != id) ==> CreditOf(head + [c], id) == c.priority
  {
    if head == [] {
      assert head + [c] == [c];
    } else {
      assert (head + [c])[1..] == head[1..] + [c];
      CreditAppend(head[1..], c, id);
    }
  }

  ghost function Rounds(falloff: real, xs: seq<Encoding>): (rs: seq<Round>)
    requires forall t | 0 <= t < |xs| :: xs[t].scene.Valid() && |xs[t].choice| == |xs[t].scene.current|
    ensures |rs| == |xs| && forall t | 0 <= t < |xs| :: rs[t] == RoundOf(falloff, xs[t])
  {
    seq(|xs|, t requires 0 <= t < |xs| => RoundOf(falloff, xs[t]))
  }

  lemma SizesAgree(xs: seq<Encoding>, viewer: u32, falloff: real, limit: nat)
    requires Encodings(xs, viewer, falloff, limit)
    ensures forall t | 0 <= t < |xs| :: xs[t].scene.Valid() && |xs[t].choice| == |xs[t].scene.current|
  {
    forall t | 0 <= t < |xs| ensures |xs[t].choice| == |xs[t].scene.current| {
      assert Contended(falloff, xs[t], limit);
    }
  }

  /** The abstract credit is the one the encoder carries. */
  lemma CreditsAgree(xs: seq<Encoding>, viewer: u32, falloff: real, limit: nat, t: nat, id: u32)
    requires Encodings(xs, viewer, falloff, limit) && t < |xs|
    requires forall t | 0 <= t < |xs| :: xs[t].scene.Valid() && |xs[t].choice| == |xs[t].scene.current|
    ensures Credit(Rounds(falloff, xs), t, id) == CreditOf(xs[t].server.priority, id)
  {
    hide Encodings, Follows, Contended, RankAt, RoundOf, CreditOf, Scene.Valid;
    EncodingAt(xs, viewer, falloff, limit, t);
    if t > 0 {
      RanksNonNegative(xs, viewer, falloff, limit, t - 1);
      CarriedOn(falloff, xs[t - 1], xs[t], id);
    } else {
      NoneCarried(id);
    }
  }

  lemma EncodingAt(xs: seq<Encoding>, viewer: u32, falloff: real, limit: nat, t: nat)
    requires Encodings(xs, viewer, falloff, limit) && t < |xs|
    ensures falloff >= 0.0 && Contended(falloff, xs[t], limit) && xs[t].scene.viewer == viewer
    ensures if t == 0 then xs[t].server.priority == [] else Follows(falloff, xs[t - 1], xs[t])
  {
    hide Contended, Follows;
  }

  lemma NoneCarried(id: u32)
    ensures CreditOf([], id) == 0.0
  {
  }

  /** From one encode to the next, what was deferred keeps its rank as credit. */
  lemma CarriedOn(falloff: real, x: Encoding, y: Encoding, id: u32)
    requires Follows(falloff, x, y)
    requires forall i | 0 <= i < |x.scene.current| :: RankAt(falloff, x)[i].Some? ==> RankAt(falloff, x)[i].value >= 0.0
    ensures CreditOf(y.server.priority, id) ==
            if RoundOf(falloff, x).Deferred(id) then RoundOf(falloff, x).rank[id] else 0.0
  {
    hide Ranking, RoundFrom, CarryOver, CreditOf, Baseline, Sorted;
    CreditOfRound(x.scene.current, RankAt(falloff, x), x.choice, id);
  }

  /** Credits are never negative, so neither are the priorities built on them. */
  lemma RanksNonNegative(xs: seq<Encoding>, viewer: u32, falloff: real, limit: nat, t: nat)
    requires Encodings(xs, viewer, falloff, limit) && t < |xs| && xs[t].scene.Valid()
    requires t > 0 ==> xs[t - 1].scene.Valid() && |xs[t - 1].choice| == |xs[t - 1].scene.current|
    ensures forall i | 0 <= i < |xs[t].scene.current| :: RankAt(falloff, xs[t])[i].Some? ==>
              RankAt(falloff, xs[t])[i].value >= 0.0
  {
    hide Encodings, Follows, Contended, RankAt, CreditOf, Scene.Valid;
    EncodingAt(xs, viewer, falloff, limit, t);
    forall id ensures CreditOf(xs[t].server.priority, id) >= 0.0 {
      if t > 0 { CreditsNonNegative(falloff, xs[t - 1], xs[t], id); } else { NoneCarried(id); }
    }
    RanksFromCredits(falloff, xs[t]);
  }

  lemma CreditsNonNegative(falloff: real, x: Encoding, y: Encoding, id: u32)
    requires Follows(falloff, x, y)
    ensures CreditOf(y.server.priority, id) >= 0.0
  {
    hide Ranking, CarryOver, CreditOf, Baseline;
    CreditIsCarried(x.scene.current, RankAt(falloff, x), x.choice, |x.scene.current|, id);
  }

  lemma RanksFromCredits(falloff: real, x: Encoding)
    requires x.scene.Valid() && falloff >= 0.0 && forall id :: CreditOf(x.server.priority, id) >= 0.0
    ensures forall i | 0 <= i < |x.scene.current| :: RankAt(falloff, x)[i].Some? ==> RankAt(falloff, x)[i].value >= 0.0
  {
    hide CreditOf, Changed, PriorityOf, Baseline, Sorted;
    forall i | 0 <= i < |x.scene.current| && RankAt(falloff, x)[i].Some? ensures RankAt(falloff, x)[i].value >= 0.0 {
      var id := x.scene.current[i].id;
      PriorityBounds(CreditOf(x.server.priority, id), x.scene.closeness[i], falloff, id == x.scene.viewer);
    }
  }

  lemma CreditOfRound(current: seq<EntityWireState>, rank: seq<Option<real>>, choice: seq<bool>, id: u32)
    requires Sorted(current) && |current| == |rank| == |choice|
    requires forall i | 0 <= i < |current| :: rank[i].Some? ==> rank[i].value >= 0.0
    ensures var r := RoundFrom(current, rank, choice);
            CreditOf(CarryOver(current, rank, choice, |current|), id) == if r.Deferred(id) then r.rank[id] else 0.0
  {
    hide CarryOver, CreditOf, RoundFrom;
    CreditIsCarried(current, rank, choice, |current|, id);
    RoundFromIs(current, rank, choice);
    var r := RoundFrom(current, rank, choice);
    if i :| 0 <= i < |current| && current[i].id == id {
      assert id in r.rank <==> rank[i].Some?;
    }
  }

  lemma EncodeIsFair(xs: seq<Encoding>, viewer: u32, falloff: real, limit: nat, t: nat)
    requires Encodings(xs, viewer, falloff, limit) && t < |xs|
    requires forall t | 0 <= t < |xs| :: xs[t].scene.Valid() && |xs[t].choice| == |xs[t].scene.current|
    ensures FairRound(Rounds(falloff, xs), t, viewer, falloff, limit)
  {
    hide Encodings, Contended, Ranking, Rounds, RoundOf, Credit, CreditOf, Sorted, Scene.Valid;
    var x, rounds := xs[t], Rounds(falloff, xs);
    var r := rounds[t];
    EncodingAt(xs, viewer, falloff, limit, t);
    RankSizes(falloff, x, limit);
    forall id | id in r.rank
      ensures Credit(rounds, t, id) + STEP <= r.rank[id] - Bonus(id, viewer) <= Credit(rounds, t, id) + falloff + STEP
    {
      CreditsAgree(xs, viewer, falloff, limit, t, id);
      RankBounds(falloff, x, viewer, id);
    }
  }

  lemma RankBounds(falloff: real, x: Encoding, viewer: u32, id: u32)
    requires x.scene.Valid() && |x.choice| == |x.scene.current| && falloff >= 0.0 && x.scene.viewer == viewer
    requires id in RoundOf(falloff, x).rank
    ensures var c := CreditOf(x.server.priority, id);
            c + STEP <= RoundOf(falloff, x).rank[id] - Bonus(id, viewer) <= c + falloff + STEP
  {
    hide RoundFrom, CreditOf, Changed, PriorityOf, Baseline;
    var rank := RankAt(falloff, x);
    RoundFromIs(x.scene.current, rank, x.choice);
    var i :| 0 <= i < |x.scene.current| && rank[i].Some? && x.scene.current[i].id == id;
    PriorityBounds(CreditOf(x.server.priority, id), x.scene.closeness[i], falloff, id == viewer);
  }

  lemma PriorityBounds(credit: real, closeness: real, falloff: real, isViewer: bool)
    requires 0.0 <= closeness <= 1.0 && falloff >= 0.0
    ensures var bonus := if isViewer then VIEWER_BONUS else 0.0;
            credit + STEP <= PriorityOf(credit, closeness, falloff, isViewer) - bonus <= credit + falloff + STEP
  {
    assert 0.0 <= closeness * falloff <= 1.0 * falloff;
  }

  lemma RankSizes(falloff: real, x: Encoding, limit: nat)
    requires Contended(falloff, x, limit) && |x.choice| == |x.scene.current|
    ensures var r := RoundOf(falloff, x);
            && r.chosen <= r.rank.Keys && |r.rank| <= limit
            && (r.chosen == r.rank.Keys || |r.chosen| >= 2)
            && (forall a, b :: a in r.chosen && r.Deferred(b) ==> r.rank[a] >= r.rank[b])
  {
    hide Ranking, HeadBits, FitCount, TopSet, RoundFrom;
    BaselineSorted(x.server, x.scene.tick);
    BestAreChosen(x.scene.current, RankAt(falloff, x), x.choice, limit,
                  FitCount(x.budgetBits - |HeadBits(x.scene, Baseline(x.server, x.scene.tick))|));
  }

  lemma BestAreChosen(current: seq<EntityWireState>, rank: seq<Option<real>>, choice: seq<bool>, limit: nat, fits: nat)
    requires Sorted(current) && |current| == |rank| && TopSet(choice, rank, fits) && fits >= 2
    requires Count(Candidates(rank)) <= limit
    ensures var r := RoundFrom(current, rank, choice);
            && r.chosen <= r.rank.Keys && |r.rank| <= limit
            && (r.chosen == r.rank.Keys || |r.chosen| >= 2)
            && (forall a, b :: a in r.chosen && r.Deferred(b) ==> r.rank[a] >= r.rank[b])
  {
    hide RoundFrom, Count, Candidates, Sorted;
    var r := RoundFrom(current, rank, choice);
    RoundSizes(current, rank, choice);
    forall a | a in r.chosen ensures a in r.rank && forall b | r.Deferred(b) :: r.rank[a] >= r.rank[b] {
      Preferred(current, rank, choice, fits, a);
    }
    hide TopSet;
    TopSizes(choice, rank, fits);
    if Count(Candidates(rank)) <= fits { SameSize(r.chosen, r.rank.Keys); }
  }

  lemma TopSizes(choice: seq<bool>, rank: seq<Option<real>>, fits: nat)
    requires TopSet(choice, rank, fits)
    ensures Count(choice) == if Count(Candidates(rank)) <= fits then Count(Candidates(rank)) else fits
  {
  }

  lemma Preferred(current: seq<EntityWireState>, rank: seq<Option<real>>, choice: seq<bool>, fits: nat, a: u32)
    requires Sorted(current) && |current| == |rank| && TopSet(choice, rank, fits)
    requires a in RoundFrom(current, rank, choice).chosen
    ensures var r := RoundFrom(current, rank, choice);
            a in r.rank && forall b | r.Deferred(b) :: r.rank[a] >= r.rank[b]
  {
    hide RoundFrom, Count, Candidates, Sorted;
    var r := RoundFrom(current, rank, choice);
    RoundFromIs(current, rank, choice);
    var i :| 0 <= i < |current| && choice[i] && current[i].id == a;
    forall b | r.Deferred(b) ensures r.rank[a] >= r.rank[b] {
      var j :| 0 <= j < |current| && rank[j].Some? && current[j].id == b;
    }
  }

  lemma RoundSizes(current: seq<EntityWireState>, rank: seq<Option<real>>, choice: seq<bool>)
    requires Sorted(current) && |current| == |rank| == |choice|
    ensures var r := RoundFrom(current, rank, choice);
            |r.rank| == |r.rank.Keys| == Count(Candidates(rank)) && |r.chosen| == Count(choice)
  {
    hide Flagged, Count, Sorted, RankMap, Candidates;
    var flags := Candidates(rank);
    FlaggedSize(current, choice, |current|);
    FlaggedSize(current, flags, |current|);
    assert choice[..|current|] == choice && flags[..|current|] == flags;
    RankKeys(current, rank);
    KeyCount(RankMap(current, rank));
  }

  lemma KeyCount(m: map<u32, real>)
    ensures |m| == |m.Keys|
  {
  }

  lemma SameSize(a: set<u32>, b: set<u32>)
    requires a <= b && |a| == |b|
    ensures a == b
  {
    assert b == a + (b - a);
  }

  /** Bounded waiting: with at most `limit` candidates and room for at least two
      records at each encode, an entity that stays a candidate is sent within
      `limit * (falloff + 0.01) / 0.01 + limit` encodes. */
  lemma BoundedWaiting(xs: seq<Encoding>, viewer: u32, falloff: real, limit: nat, from: nat, span: nat, e: u32)
    requires Encodings(xs, viewer, falloff, limit) && from + span <= |xs| && 0 < limit
    requires forall t | from <= t < from + span :: xs[t].scene.Valid() && Candidate(falloff, xs[t], e)
    requires span as real >= limit as real * (falloff + STEP) / STEP + limit as real
    ensures exists t | from <= t < from + span :: IsChosen(xs[t], e)
  {
    hide Contended, FairRound, Ranking, Candidates, Follows, Rounds, RoundFrom, Sorted, Scene.Valid;
    SizesAgree(xs, viewer, falloff, limit);
    var rounds := Rounds(falloff, xs);
    forall t | 0 <= t < |rounds| ensures FairRound(rounds, t, viewer, falloff, limit) {
      EncodeIsFair(xs, viewer, falloff, limit, t);
    }
    forall t | from <= t < from + span ensures e in rounds[t].rank {
      assert Candidate(falloff, xs[t], e);
      RoundOfIs(falloff, xs[t]);
    }
    NoStarvation(rounds, from, span, e, viewer, falloff, limit);
    var t :| from <= t < from + span && e in rounds[t].chosen;
    RoundOfIs(falloff, xs[t]);
  }

  lemma RoundOfIs(falloff: real, x: Encoding)
    requires x.scene.Valid() && |x.choice| == |x.scene.current|
    ensures forall id :: Candidate(falloff, x, id) ==> id in RoundOf(falloff, x).rank
    ensures forall id <- RoundOf(falloff, x).chosen :: IsChosen(x, id)
  {
    hide RoundFrom, Ranking;
    RoundFromIs(x.scene.current, RankAt(falloff, x), x.choice);
  }
}
