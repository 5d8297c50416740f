/**
 What a call of `top_up_prekeys` is for: that the exchange has prekeys to serve afterwards, that each is
 under an id not used before, and that a fallback newer than all of them follows.
 */
module PrekeySupply {
  import opened Wrappers
  import opened Sets
  import opened PrekeyPool
  import opened PrekeyExchange

  function Min(a: nat, b: nat): nat { if a <= b then a else b }

  /** The rows a call goes on with: all of them, or none of the one-time ones where they had run away. */
  function Kept(r: Rows): Rows { if |r.oneTime| > RUNAWAY then r.(oneTime := {}, unpublished := {}) else r }

  lemma {:induction false} GoesOnWithKept(r: Rows, clock: nat, a: Answers)
    requires r.Valid() && Begin(r, clock, a).Go?
    ensures Begin(r, clock, a).rows == Kept(r)
  {
  }

  lemma {:induction false} DoneOffersAll(n: Minting, a: Answers)
    requires n.m.Valid() && OfferSteps(n, a).outcome == Done
    ensures OfferSteps(n, a).rows.oneTime == n.m.oneTime && OfferSteps(n, a).rows.unpublished == {}
  {
    OfferOnlyRemoves(n, a);
  }

  lemma {:induction false} NewlyAcknowledged(r: Rows, next: nat, short: nat)
    requires r.Valid() && forall x :: x in r.oneTime ==> x < next
    ensures |Minted(r, next, short).oneTime - (r.oneTime - r.unpublished)| == |r.unpublished| + short
    ensures Minted(r, next, short).oneTime != r.oneTime <==> short > 0
  {
    SizeAfterMint(r, next, short);
    var m := Minted(r, next, short);
    assert m.oneTime - (r.oneTime - r.unpublished) == m.unpublished;
    if short > 0 { assert next in m.oneTime && next !in r.oneTime; }
  }

  /**
   A call that succeeds, told that `n` are served, has made good what is missing: of those that the
   exchange had acknowledged before, no more than it says it has, and those it acknowledges now,
   there are sixteen at least; and where anything was minted there are sixty-four.
   */
  lemma {:induction false} SuccessIsEnough(r: Rows, clock: nat, a: Answers, n: nat)
    requires r.Valid() && a.count == Counted(n) && TopUp(r, clock, a).outcome == Done
    ensures var after := TopUp(r, clock, a).rows;
      var before := Kept(r).oneTime - Kept(r).unpublished;
      var covered := Min(|before|, n) + |after.oneTime - before|;
      && after.unpublished == {} && Kept(r).oneTime <= after.oneTime
      && covered >= 16
      && (after.oneTime != Kept(r).oneTime ==> covered == 64)
      && (after.oneTime != Kept(r).oneTime <==> Min(|before|, n) + |Kept(r).unpublished| < 16)
  {
    BeginIsSmall(r, clock, a);
    GoesOnWithKept(r, clock, a);
    var k, next := Kept(r), Begin(r, clock, a).next;
    DoneOffersAll(Mint(k, next, a.count), a);
    NewlyAcknowledged(k, next, Short(k, a.count));
  }

  /** Told nothing of what is served, it goes by what was acknowledged. */
  lemma {:induction false} SuccessUntold(r: Rows, clock: nat, a: Answers)
    requires r.Valid() && a.count == CountLost && TopUp(r, clock, a).outcome == Done
    ensures var after := TopUp(r, clock, a).rows;
      && after.unpublished == {} && |after.oneTime| >= LOW_WATER
      && (after.oneTime != Kept(r).oneTime <==> |Kept(r).oneTime| < LOW_WATER)
      && (after.oneTime != Kept(r).oneTime ==> |after.oneTime| == POOL)
  {
    BeginIsSmall(r, clock, a);
    GoesOnWithKept(r, clock, a);
    var k, next := Kept(r), Begin(r, clock, a).next;
    DoneOffersAll(Mint(k, next, a.count), a);
    NewlyAcknowledged(k, next, Short(k, a.count));
    SizeAfterMint(k, next, Short(k, a.count));
    assert |k.oneTime| == |k.oneTime - k.unpublished| + |k.unpublished|;
  }

  // ---- what the exchange then has ------------------------------------------------

  /** Nobody is served anything, and nothing is cleared, from the call's `k`th step on. */
  ghost predicate Quiet(others: Others, from: nat) {
    forall k, m :: k >= from && m in others(k) ==> !m.PeerTakes? && !m.ClearArrives?
  }

  /** The exchange acknowledges a batch only where it had nothing of it before, and has it now. */
  ghost predicate TakenAsOffered(b: Both, ids: seq<nat>, replies: seq<PublishReply>, others: Others, k: nat)
    decreases |ids|
  {
    ids == [] || ReplyTo(replies) != Took ||
    var b' := AfterSend(b, BatchOf(ids), others, k);
    && BatchOf(ids) !! b.exchange.seen && BatchOf(ids) <= b'.exchange.seen
    && TakenAsOffered(b', ids[FirstBatch(ids)..], replies[1..], others, k + 2)
  }

  lemma {:induction false} MeanwhileServes(b: Both, moves: seq<Move>)
    requires b.exchange.Valid() && forall m :: m in moves ==> !m.PeerTakes? && !m.ClearArrives?
    ensures var b' := Meanwhile(b, moves);
      && b'.exchange.Valid() && b.exchange.serving <= b'.exchange.serving
      && b'.exchange.seen - b'.exchange.serving == b.exchange.seen - b.exchange.serving
    decreases |moves|
  {
    if moves != [] {
      var b1 := if ByOthers(moves[0]) && Allowed(b, moves[0]) then Moved(b, moves[0]) else b;
      assert moves[0] in moves;
      MeanwhileServes(b1, moves[1..]);
    }
  }

  lemma {:induction false} SendServes(b: Both, batch: set<nat>, others: Others, k: nat)
    requires b.exchange.Valid() && Quiet(others, k)
    ensures var b' := AfterSend(b, batch, others, k);
      && b'.exchange.Valid() && b.exchange.serving <= b'.exchange.serving
      && b'.exchange.seen - b'.exchange.serving == b.exchange.seen - b.exchange.serving
  {
    var b1 := Meanwhile(b, others(k));
    MeanwhileServes(b, others(k));
    MeanwhileServes(Moved(b1, Send(batch)), others(k + 1));
  }

  lemma {:induction false} OfferServes(
      b: Both, pool: Rows, ids: seq<nat>, all: set<nat>, replies: seq<PublishReply>, others: Others, k: nat)
    requires b.exchange.Valid() && Quiet(others, k) && TakenAsOffered(b, ids, replies, others, k)
    requires PublishAll(pool, ids, all, replies).outcome == Done
    ensures var end := OfferEnds(b, pool, ids, all, replies, others, k).exchange;
      && end.Valid() && b.exchange.serving <= end.serving
      && forall x :: x in ids ==> x in end.serving && x !in b.exchange.seen
    decreases |ids|
  {
    if ids != [] {
      var b', n := AfterSend(b, BatchOf(ids), others, k), FirstBatch(ids);
      SendServes(b, BatchOf(ids), others, k);
      assert ReplyTo(replies) == Took;
      NewIsServed(b.exchange, b'.exchange, BatchOf(ids));
      var rest := pool.(unpublished := pool.unpublished - BatchOf(ids));
      OfferServes(b', rest, ids[n..], all, replies[1..], others, k + 2);
      forall x | x in ids ensures x in OfferEnds(b, pool, ids, all, replies, others, k).exchange.serving
        ensures x !in b.exchange.seen
      {
        FirstOrLater(ids, x);
      }
    }
  }

  lemma {:induction false} NewIsServed(x: Exchange, x': Exchange, batch: set<nat>)
    requires x'.seen - x'.serving == x.seen - x.serving && batch !! x.seen && batch <= x'.seen
    ensures batch <= x'.serving
  {
    forall i | i in batch ensures i in x'.serving { assert i !in x.seen - x.serving; }
  }

  lemma {:induction false} FirstOrLater(ids: seq<nat>, x: nat)
    requires x in ids
    ensures x in BatchOf(ids) || x in ids[FirstBatch(ids)..]
  {
    var i :| 0 <= i < |ids| && ids[i] == x;
    if i >= FirstBatch(ids) { assert ids[FirstBatch(ids)..][i - FirstBatch(ids)] == x; }
  }

  /** Offering everything that waits, with success, adds all of it to what is served. */
  lemma {:induction false} OfferingServes(b: Both, n: Minting, a: Answers, others: Others)
    requires b.exchange.Valid() && Quiet(others, 1) && OfferSteps(n, a).outcome == Done
    requires TakenAsOffered(b, Ascending(n.m.unpublished), a.publish, others, 1)
    ensures |OfferAllEnds(b, n, a, others).exchange.serving| >= |b.exchange.serving| + |n.m.unpublished|
  {
    var ids := Ascending(n.m.unpublished);
    OfferServes(b, n.m, ids, n.m.unpublished, a.publish, others, 1);
    var end := OfferAllEnds(b, n, a, others).exchange;
    assert forall x :: x in n.m.unpublished ==> x in ids;
    SubsetSize(b.exchange.serving + n.m.unpublished, end.serving);
    assert b.exchange.serving !! n.m.unpublished;
  }

  /** What waits once what is short has been minted, and what is said to be served, make `LOW_WATER`. */
  lemma {:induction false} MintCovers(r: Rows, next: nat, n: nat)
    requires r.Valid() && forall x :: x in r.oneTime ==> x < next
    ensures n + |Mint(r, next, Counted(n)).m.unpublished| >= LOW_WATER
  {
    SizeAfterMint(r, next, Short(r, Counted(n)));
  }

  /**
   And so the exchange can serve. Where it said no more than it had, took what it acknowledged, and nobody
   was served meanwhile, a call that succeeds leaves it with `LOW_WATER` prekeys or more.
   */
  lemma {:induction false} SuccessServes(b: Both, clock: nat, a: Answers, others: Others, n: nat)
    requires BothInv(b) && a.count == Counted(n) && TopUp(b.rows, clock, a).outcome == Done
    requires n <= |Meanwhile(b, others(0)).exchange.serving| && Quiet(others, 1)
    requires Begin(b.rows, clock, a).Go? ==>
      var m := MintingOf(b.rows, clock, a).m;
      TakenAsOffered(Meanwhile(b, others(0)).(rows := m), Ascending(m.unpublished), a.publish, others, 1)
    ensures |CallEnds(b, clock, a, others).exchange.serving| >= LOW_WATER
  {
    var b0 := Meanwhile(b, others(0));
    BeginIsSmall(b.rows, clock, a);
    MeanwhileReaches(b, others(0));
    ReachesKeepsInv(b, b0);
    var go, k := Begin(b.rows, clock, a), MintingOf(b.rows, clock, a);
    OfferingServes(b0.(rows := k.m), k, a, others);
    MintCovers(go.rows, go.next, n);
  }

  // ---- the ids -----------------------------------------------------------------

  /** The fallback the device is left with. */
  ghost predicate FallbackIs(r: Rows, after: Rows, due: bool, id: nat) {
    if due then
      && after.fallback == Some(id)
      && after.spent == r.spent + (if r.fallback.Some? then {r.fallback.value} else {})
    else after.fallback == r.fallback && after.spent == r.spent
  }

  /** Where ids start: above every row, or, with no rows, at the clock; and no lower than the exchange said. */
  ghost predicate StartsAt(r: Rows, clock: nat, a: Answers, next: nat) {
    && (forall x :: x in r.Ids() ==> x < next)
    && (r.Ids() == {} ==> clock <= next && 1 <= next)
    && (AskedToClear(r) ==> ToldToResume(a) <= next)
    && forall z :: 0 <= z < next ==> TooLow(r, clock, a, z)
  }

  /** There is a row at or above the id, or it is below where ids are to start. */
  ghost predicate TooLow(r: Rows, clock: nat, a: Answers, z: nat) {
    || (exists x :: x in r.Ids() && z <= x)
    || (r.Ids() == {} && (z < clock || z < 1))
    || (AskedToClear(r) && z < ToldToResume(a))
  }

  /** A pool with no secret at all asks the exchange to clear what it has. */
  predicate AskedToClear(r: Rows) { r.oneTime == {} && r.fallback.None? }

  /** The id the exchange names, or the one after the fallback it has, where it does not know how to clear. */
  function ToldToResume(a: Answers): nat {
    match a.clearEmpty
    case Cleared(id) => id
    case NoClear(Some(id)) => id + 1
    case _ => 0
  }

  /** Done, an offering leaves what it offered acknowledged, and the fallback that was due. */
  lemma {:induction false} DoneLeaves(n: Minting, a: Answers, due: bool, left: Rows)
    requires n.m.Valid() && OfferSteps(n, a) == Topped(left, Done)
    requires due == (n.m.fallback.None? || n.m.unpublished != {})
    ensures left.oneTime == n.m.oneTime && left.unpublished == {} && FallbackIs(n.m, left, due, n.after)
  {
    DoneOffersAll(n, a);
    PublishOnlyRemoves(n.m, Ascending(n.m.unpublished), n.m.unpublished, a.publish);
  }

  lemma {:induction false} MintLeaves(k: Rows, next: nat, short: nat, m: Rows)
    requires k.Valid() && (forall x :: x in k.oneTime ==> x < next) && m == Minted(k, next, short)
    ensures m.fallback == k.fallback && m.spent == k.spent && m.Valid()
    ensures m.unpublished != {} <==> k.unpublished != {} || short > 0
    ensures Consecutive(m.oneTime, k.oneTime, next, next + short)
  {
    SizeAfterMint(k, next, short);
    if short > 0 { assert next in Range(next, short); }
  }

  /** What is in `after` and was not in `before` are the ids from `next` up to `id`. */
  ghost predicate Consecutive(after: set<nat>, before: set<nat>, next: nat, id: nat) {
    before <= after && forall y :: y in after && y !in before <==> next <= y < id
  }

  /** With ids from `next` up to `id` minted, whether a fallback was due, and what was left. */
  ghost predicate MintedSo(k: Rows, after: Rows, next: nat, id: nat) {
    && next <= id && Consecutive(after.oneTime, k.oneTime, next, id)
    && FallbackIs(k, after, k.fallback.None? || k.unpublished != {} || next < id, id)
  }

  /**
   The ids minted are consecutive, from where ids start; and a fallback above all of them follows wherever anything
   was offered.
   */
  lemma {:induction false} IdsAreNew(
      k: Rows, next: nat, a: Answers, short: nat, n: Minting, after: Rows)
    requires k.Valid() && (forall x :: x in k.oneTime ==> x < next)
    requires n.m == Minted(k, next, short) && n.after == next + short && OfferSteps(n, a) == Topped(after, Done)
    ensures MintedSo(k, after, next, n.after)
  {
    var m, due := n.m, k.fallback.None? || k.unpublished != {} || short > 0;
    MintLeaves(k, next, short, m);
    DoneLeaves(n, a, due, after);
    OfThisMinting(k, m, after, next, n.after, due);
  }

  lemma {:induction false} OfThisMinting(k: Rows, m: Rows, after: Rows, next: nat, id: nat, due: bool)
    requires m.fallback == k.fallback && m.spent == k.spent && after.oneTime == m.oneTime
    requires FallbackIs(m, after, due, id) && Consecutive(m.oneTime, k.oneTime, next, id) && next <= id
    requires due == (k.fallback.None? || k.unpublished != {} || next < id)
    ensures MintedSo(k, after, next, id)
  {
  }

  /** The id a call that gets as far as minting starts from. */
  ghost function FirstId(r: Rows, clock: nat, a: Answers): nat
    requires Begin(r, clock, a).Go?
  {
    Begin(r, clock, a).next
  }

  lemma {:induction false} DoneGoes(r: Rows, clock: nat, a: Answers)
    requires r.Valid() && TopUp(r, clock, a).outcome == Done
    ensures Begin(r, clock, a).Go?
  {
    BeginIsSmall(r, clock, a);
  }

  /** Ids start at the first that is new. */
  lemma {:induction false} StartsLowest(r: Rows, clock: nat, a: Answers, k: Rows)
    requires r.Valid() && k == Kept(r) && Begin(r, clock, a).Go?
    ensures StartsAt(k, clock, a, FirstId(r, clock, a))
  {
    GoesOnWithKept(r, clock, a);
    StartIsLowest(k, clock, a);
  }

  /** A call that is done has minted what is short, from there, and offered what then waits. */
  lemma {:induction false} StartsFrom(r: Rows, clock: nat, a: Answers, k: Rows, after: Rows, next: nat, short: nat)
      returns (n: Minting)
    requires r.Valid() && k == Kept(r) && TopUp(r, clock, a) == Topped(after, Done)
    requires Begin(r, clock, a).Go? && next == FirstId(r, clock, a) && short == Short(k, a.count)
    ensures k.Valid() && forall x :: x in k.oneTime ==> x < next
    ensures n == Minting(Minted(k, next, short), next + short) && OfferSteps(n, a) == Topped(after, Done)
  {
    BeginIsSmall(r, clock, a);
    GoesOnWithKept(r, clock, a);
    n := Mint(k, next, a.count);
  }

  lemma {:induction false} StartIsLowest(k: Rows, clock: nat, a: Answers)
    requires Loaded(k, clock, a.clearEmpty).Go?
    ensures StartsAt(k, clock, a, Loaded(k, clock, a.clearEmpty).next)
  {
    if k.Ids() != {} { assert Top(k.Ids()) in k.Ids(); }
  }

  // ---- how it ends ---------------------------------------------------------------

  /** How many publishes it takes to offer so many ids. */
  function Batches(n: nat): nat { (n + 63) / 64 }

  /** The first publish not acknowledged is the `i`th. */
  ghost predicate FirstNotTaken(replies: seq<PublishReply>, i: nat) {
    i <= |replies| && (forall j :: 0 <= j < i ==> replies[j] == Took) && (i < |replies| ==> replies[i] != Took)
  }

  /**
   Offering is done exactly where every publish is acknowledged, and refused exactly where the first that is not is
   refused; what no answer comes to is as one that failed.
   */
  lemma {:induction false} OfferingEndsSo(r: Rows, ids: seq<nat>, all: set<nat>, replies: seq<PublishReply>, i: nat)
    requires FirstNotTaken(replies, i)
    ensures var outcome := PublishAll(r, ids, all, replies).outcome;
      && (outcome == Done <==> i >= Batches(|ids|))
      && (outcome == Refused <==> i < Batches(|ids|) && i < |replies| && replies[i] == PublishRefused)
    decreases |ids|
  {
    if ids != [] && i > 0 {
      var n := FirstBatch(ids);
      assert replies[0] == Took;
      assert FirstNotTaken(replies[1..], i - 1) by {
        assert forall j :: 0 <= j < i - 1 ==> replies[1..][j] == replies[j + 1];
      }
      OfferingEndsSo(r.(unpublished := r.unpublished - BatchOf(ids)), ids[n..], all, replies[1..], i - 1);
      assert Batches(|ids|) == 1 + Batches(|ids[n..]|);
    }
  }

  /**
   A call that offers what waits, and then a fallback where one is due, ends as the first answer that is not
   an acknowledgement says.
   */
  lemma {:induction false} OffersEndSo(n: Minting, a: Answers, i: nat)
    requires n.m.Valid() && FirstNotTaken(a.publish, i)
    ensures var outcome, batches := OfferSteps(n, a).outcome, Batches(|n.m.unpublished|);
      var due := n.m.fallback.None? || n.m.unpublished != {};
      && (outcome == Done <==> i >= batches && (due ==> a.fallback == Took))
      && (outcome == Refused <==>
            || (i < batches && i < |a.publish| && a.publish[i] == PublishRefused)
            || (i >= batches && due && a.fallback == PublishRefused))
  {
    OfferingEndsSo(n.m, Ascending(n.m.unpublished), n.m.unpublished, a.publish, i);
    PublishOnlyRemoves(n.m, Ascending(n.m.unpublished), n.m.unpublished, a.publish);
  }

  /**
   Refused before anything is offered, a call leaves no one-time secret; a count that makes no sense, and a
   `Clear` that fails where one is needed, leave the rows as they were.
   */
  lemma {:induction false} RefusalMeans(r: Rows, clock: nat, a: Answers)
    requires r.Valid()
    ensures a.count == CountRefused ==> TopUp(r, clock, a) == Topped(r.(oneTime := {}, unpublished := {}), Refused)
    ensures a.count == CountMalformed ==> TopUp(r, clock, a) == Topped(r, Failed)
    ensures a.count != CountRefused && ClearFails(r, a) ==> TopUp(r, clock, a) == Topped(r, Failed)
  {
    if AskedToClear(r) { assert |r.oneTime| == 0; }
    assert a.count != CountRefused && ClearFails(r, a) ==> Begin(r, clock, a) == Stop(Topped(r, Failed));
  }

  /** `Clear` is needed, of rows that ran away or of none at all, and fails. */
  predicate ClearFails(r: Rows, a: Answers) {
    if |r.oneTime| > 256 then a.clearRunaway.ClearFailed? else AskedToClear(r) && a.clearEmpty.ClearFailed?
  }

  /** Failed, a call has lost nothing, unless the rows had run away. */
  lemma {:induction false} FailedLosesNothing(r: Rows, clock: nat, a: Answers)
    requires r.Valid() && TopUp(r, clock, a).outcome == Failed && |r.oneTime| <= 256
    ensures r.oneTime <= TopUp(r, clock, a).rows.oneTime
  {
    if Begin(r, clock, a).Go? {
      var n := Mint(r, Begin(r, clock, a).next, a.count);
      PublishOnlyRemoves(n.m, Ascending(n.m.unpublished), n.m.unpublished, a.publish);
    }
  }

  /** Refused at an offer, it leaves what had been acknowledged before, and nothing that waits. */
  lemma {:induction false} DiscardMeans(r: Rows, ids: seq<nat>, all: set<nat>, replies: seq<PublishReply>)
    requires r.Valid() && (forall x :: x in ids <==> x in r.unpublished) && r.unpublished <= all
    requires (forall i, j :: 0 <= i < j < |ids| ==> ids[i] != ids[j]) && all <= r.oneTime
    requires PublishAll(r, ids, all, replies).outcome == Refused
    ensures var t := PublishAll(r, ids, all, replies);
      t.rows.unpublished == {} && t.rows.oneTime <= r.oneTime && r.oneTime - r.unpublished <= t.rows.oneTime
    decreases |ids|
  {
    var n, batch := FirstBatch(ids), BatchOf(ids);
    if ReplyTo(replies) == Took {
      var rest := r.(unpublished := r.unpublished - batch);
      forall x ensures x in ids[n..] <==> x in rest.unpublished {
        if x in ids { FirstOrLater(ids, x); }
      }
      DiscardMeans(rest, ids[n..], all, replies[1..]);
    }
  }

  lemma {:induction false} TakenAllIsDone(r: Rows, next: nat, a: Answers)
    requires r.Valid() && forall x :: x in r.oneTime ==> x < next
    requires |r.unpublished| + Short(r, a.count) <= 64 && a.publish == [Took] && a.fallback == Took
    ensures Offer(r, next, a).outcome == Done
  {
    SizeAfterMint(r, next, Short(r, a.count));
    OffersEndSo(Mint(r, next, a.count), a, 1);
  }

  lemma {:induction false} TakesMeans(x: Exchange, next: nat, short: nat)
    ensures Takes(x, Range(next, short)) <==>
      (forall id :: next <= id < next + short ==> id !in x.seen) && |x.serving| + short <= 128
  {
    assert forall id :: id in Range(next, short) <==> next <= id < next + short;
  }

  /**
   Against an exchange that keeps its rules, a call that finds too little is refused, and leaves the rows as they
   were, exactly where some id it mints has been there before or the exchange would have more than it keeps.
   */
  lemma {:induction false} RefusedExactly(r: Rows, x: Exchange, clock: nat)
    requires Low(r, |x.serving|)
    ensures var next, short := NextId(r, clock), Short(r, Counted(|x.serving|));
      var t := TopUp(r, clock, HonestAnswers(x, Range(next, short)));
      && 48 < short <= 64
      && (t == Topped(r, Refused) <==> t.outcome != Done)
      && (t.outcome != Done <==>
            (exists id :: next <= id < next + short && id in x.seen) || |x.serving| + short > 128)
  {
    var next, short := NextId(r, clock), Short(r, Counted(|x.serving|));
    var h := HonestAnswers(x, Range(next, short));
    LowMints(r, |x.serving|, clock);
    Begins(r, clock, h);
    TakesMeans(x, next, short);
    if Takes(x, Range(next, short)) {
      TakenAllIsDone(r, next, h);
    } else {
      OfferNotTaken(r, next, h, PublishRefused);
      DiscardUndoesMint(r, next, short);
    }
  }

  /**
   A pool wiped for a refusal keeps its fallback, and so is not taken for an empty one: while the exchange still
   serves more than half of what it keeps, none of which can be answered any more, every call is refused.
   */
  lemma {:induction false} WipedWhileServed(r: Rows, x: Exchange, clock: nat)
    requires r.Valid() && r.fallback.Some? && forall id :: id in x.seen ==> id <= r.fallback.value
    ensures var wiped := TopUp(r, clock, HonestAnswers(x, {}).(count := CountRefused)).rows;
      && wiped.oneTime == {} && wiped.fallback == r.fallback
      && (TopUp(wiped, clock, HonestAnswers(x, Range(NextId(wiped, clock), 64))) == Topped(wiped, Refused) <==>
            |x.serving| > 64)
  {
    var wiped := Wipe(r);
    assert |wiped.oneTime - wiped.unpublished| == 0;
    assert r.fallback.value in wiped.Ids();
    RefusedExactly(wiped, x, clock);
    assert Short(wiped, Counted(|x.serving|)) == 64;
  }
}
