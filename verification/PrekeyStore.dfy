/**
 `top_up_prekeys` in place. The store carries, as a ghost, the whole of what its writes
 are up against: the exchange, and what is on its way to it.
 */
module PrekeyStore {
  import opened Wrappers
  import opened Sets
  import opened PrekeyPool
  import opened PrekeyExchange

  method Largest(s: set<nat>) returns (t: nat)
    requires s != {}
    ensures t == Top(s)
  {
    t :| t in s;
    var rest := s - {t};
    while rest != {}
      invariant t in s && rest <= s && forall x :: x in s && x !in rest ==> x <= t
      decreases rest
    {
      var x :| x in rest;
      if x > t { t := x; }
      rest := rest - {x};
    }
  }

  lemma {:induction false} TopGoesFirst(below: seq<nat>, t: nat, q: seq<nat>)
    ensures below + [t] + q == below + ([t] + q)
  {
  }

  method InOrder(s: set<nat>) returns (q: seq<nat>)
    ensures q == Ascending(s)
  {
    q := [];
    var rest := s;
    while rest != {}
      invariant Ascending(s) == Ascending(rest) + q
      decreases |rest|
    {
      var t := Largest(rest);
      assert Ascending(rest) == Ascending(rest - {t}) + [t];
      rest := rest - {t};
      TopGoesFirst(Ascending(rest), t, q);
      q := [t] + q;
    }
  }

  method Resume(r: Rows, clock: nat) returns (next: nat)
    ensures next == NextId(r, clock)
  {
    var ids := r.Ids();
    if ids == {} {
      next := if clock > 1 then clock else 1;
    } else {
      var t := Largest(ids);
      next := t + 1;
    }
  }

  /** At none of these moments do the durable rows hold a secret outside `ids`. */
  ghost predicate Within(moments: seq<Both>, ids: set<nat>) {
    forall i :: 0 <= i < |moments| ==> moments[i].rows.oneTime <= ids
  }

  /** At each of these moments the durable rows are small, or are the ones found there. */
  ghost predicate Small(moments: seq<Both>, found: Rows) {
    forall i :: 0 <= i < |moments| ==> |moments[i].rows.oneTime| <= 5 * POOL || moments[i].rows == found
  }

  lemma {:induction false} WithinIsSmall(moments: seq<Both>, ids: set<nat>, found: Rows)
    requires Within(moments, ids) && |ids| <= 5 * POOL
    ensures Small(moments, found)
  {
    forall i | 0 <= i < |moments| ensures |moments[i].rows.oneTime| <= 5 * POOL {
      SubsetSize(moments[i].rows.oneTime, ids);
    }
  }

  /** The durable pool of one device at one exchange. */
  class PoolStore {
    var rows: Rows
    /** The durable rows, with the exchange and the network as they are. */
    ghost var world: Both
    /**
     Every such state since the store was opened: one for each write, each sending, and each time the
     others moved.
     */
    ghost var trace: seq<Both>

    ghost predicate Valid()
      reads this
    {
      rows.Valid() && world.rows == rows && trace != [] && trace[|trace| - 1] == world
    }

    constructor (x: Exchange)
      ensures Valid() && world == Both(NO_ROWS, x, {}) && trace == [world]
    {
      rows := NO_ROWS;
      world := Both(NO_ROWS, x, {});
      trace := [Both(NO_ROWS, x, {})];
    }

    /** `save_pool`: the one way the durable rows change. */
    method Save(r: Rows)
      modifies this
      ensures rows == r && world == old(world).(rows := r) && trace == old(trace) + [world]
    {
      rows := r;
      world := world.(rows := r);
      trace := trace + [world];
    }

    /** The others do what they can. */
    ghost method Wait(moves: seq<Move>)
      modifies this`world, this`trace
      ensures world == Meanwhile(old(world), moves) && trace == old(trace) + [world]
    {
      world := Meanwhile(world, moves);
      trace := trace + [world];
    }

    /** A batch is handed to the network. */
    ghost method Dispatch(batch: set<nat>)
      modifies this`world, this`trace
      ensures world == Moved(old(world), Send(batch)) && trace == old(trace) + [world]
    {
      world := Moved(world, Send(batch));
      trace := trace + [world];
    }

    /** Post one batch: what was durable before is durable throughout. */
    method Post(batch: set<nat>, reply: PublishReply, ghost others: Others, ghost k: nat)
      returns (answer: PublishReply)
      requires Valid()
      modifies this`world, this`trace
      ensures Valid() && answer == reply && world == AfterSend(old(world), batch, others, k)
      ensures trace == old(trace) + SendMoments(old(world), batch, others, k)
    {
      Wait(others(k));
      Dispatch(batch);
      Wait(others(k + 1));
      answer := reply;
    }

    /** Offer `ids` a batch at a time; the rows are saved once, where the offering ends. */
    method OfferBatches(m: Rows, ids: seq<nat>, replies: seq<PublishReply>, ghost others: Others)
      returns (outcome: Outcome)
      requires Valid() && rows == m
      modifies this
      ensures Valid() && Topped(rows, outcome) == PublishAll(m, ids, m.unpublished, replies)
      ensures world == OfferEnds(old(world), m, ids, m.unpublished, replies, others, 1)
      ensures trace == old(trace)
        + (if ids == [] then [] else OfferMoments(old(world), m, ids, m.unpublished, replies, others, 1))
    {
      if ids == [] { return Done; }
      ghost var goal := trace + OfferMoments(world, m, ids, m.unpublished, replies, others, 1);
      ghost var k := 1;
      var pool, left, answers := m, ids, replies;
      while left != []
        invariant Valid() && rows == m && pool == m.(unpublished := pool.unpublished) && pool.Valid()
        invariant PublishAll(m, ids, m.unpublished, replies) == PublishAll(pool, left, m.unpublished, answers)
        invariant OfferEnds(old(world), m, ids, m.unpublished, replies, others, 1)
               == OfferEnds(world, pool, left, m.unpublished, answers, others, k)
        invariant trace + OfferMoments(world, pool, left, m.unpublished, answers, others, k) == goal
        decreases |left|
      {
        var n, batch := FirstBatch(left), BatchOf(left);
        OneTurn(trace, world, pool, left, m.unpublished, answers, others, k);
        var reply := Post(batch, ReplyTo(answers), others, k);
        match reply
        case Took =>
          pool := pool.(unpublished := pool.unpublished - batch);
          left, answers, k := left[n..], answers[1..], k + 2;
        case PublishRefused =>
          Save(Discarded(pool, m.unpublished));
          return Refused;
        case PublishLost =>
          Save(pool);
          return Failed;
      }
      Save(pool);
      outcome := Done;
    }

    /** Save first, so that no prekey is offered whose secret is not durable; then offer what is waiting. */
    method SaveAndOffer(m: Rows, replies: seq<PublishReply>, ghost others: Others) returns (outcome: Outcome)
      requires Valid() && m.Valid()
      modifies this
      ensures Valid() && Topped(rows, outcome) == PublishAll(m, Ascending(m.unpublished), m.unpublished, replies)
      ensures var b := old(world).(rows := m);
        && world == OfferEnds(b, m, Ascending(m.unpublished), m.unpublished, replies, others, 1)
        && trace == old(trace) + [b] + Offering(b, m, replies, others)
    {
      Save(m);
      var waiting := InOrder(m.unpublished);
      outcome := OfferBatches(m, waiting, replies, others);
    }

    /** A fallback after every batch that went in, and where there is none. */
    method FollowWithFallback(outcome0: Outcome, due: bool, id: nat, reply: PublishReply) returns (outcome: Outcome)
      requires Valid()
      modifies this
      ensures Valid() && Topped(rows, outcome) == Followed(Topped(old(rows), outcome0), due, id, reply)
      ensures world == if outcome0 == Done && due then Moved(old(world), SaveFallback(id)) else old(world)
      ensures trace == old(trace) + if outcome0 == Done && due then [world] else []
    {
      outcome := outcome0;
      if outcome == Done && due {
        Save(MintFallback(rows, id));
        outcome := if reply.Took? then Done else if reply.PublishRefused? then Refused else Failed;
      }
    }

    /** From the loaded pool on: save what was minted, offer everything waiting, and follow with a fallback. */
    method OfferMinted(n: Minting, a: Answers, ghost others: Others) returns (outcome: Outcome)
      requires Valid() && n.m.Valid()
      modifies this
      ensures Valid() && Topped(rows, outcome) == OfferSteps(n, a)
      ensures world == OfferAllEnds(old(world).(rows := n.m), n, a, others)
      ensures trace == old(trace) + OfferAllMoments(old(world).(rows := n.m), n, a, others)
    {
      ghost var t0, b1 := trace, world.(rows := n.m);
      OfferingEnds(b1, n, a, others);
      var due := n.m.fallback.None? || n.m.unpublished != {};
      ghost var mid, last := Offering(b1, n.m, a.publish, others), OfferAllEnds(b1, n, a, others);
      ghost var follows := FallbackFollows(n, a.publish);
      var went := SaveAndOffer(n.m, a.publish, others);
      outcome := FollowWithFallback(went, due, n.after, a.fallback);
      assert world == last;
      InOneLine(t0, b1, mid, if follows then [last] else []);
    }

    /** Up to the pool being loaded: ask for the count, and start over where the pool ran away or is new. */
    method BeginCall(clock: nat, a: Answers, ghost others: Others) returns (ready: Option<nat>, outcome: Outcome)
      requires Valid()
      modifies this
      ensures Valid() && Begin(old(rows), clock, a)
        == if ready.Some? then Go(rows, ready.value) else Stop(Topped(rows, outcome))
      ensures world == Meanwhile(old(world), others(0)).(rows := rows)
      ensures trace == old(trace) + BeginMoments(old(world), a, others)
    {
      Wait(others(0));
      if a.count.CountRefused? {
        Save(Wipe(rows));
        return None, Refused;
      }
      if a.count.CountMalformed? { return None, Failed; }
      if |rows.oneTime| > RUNAWAY {
        if ResumeAt(a.clearRunaway).None? { return None, Failed; }
        Save(Wipe(rows));
      }
      var next := Resume(rows, clock);
      if rows.oneTime == {} && rows.fallback.None? {
        var resume := ResumeAt(a.clearEmpty);
        if resume.None? { return None, Failed; }
        if resume.value > next { next := resume.value; }
      }
      return Some(next), Done;
    }

    /**
     `top_up_prekeys`, whatever is answered and whatever the others do around it. It leaves what
     is specified and passes through the moments specified, none of which holds more than five
     pools unless it found more. Where nothing was waiting, every one of them is safe whatever is
     answered in truth; without refusals, so it is where the rows have not run away.
     */
    method TopUpPrekeys(clock: nat, a: Answers, ghost others: Others) returns (outcome: Outcome)
      requires Valid()
      modifies this
      ensures Valid() && Topped(rows, outcome) == TopUp(old(rows), clock, a)
      ensures world == CallEnds(old(world), clock, a, others)
      ensures trace == old(trace) + CallMoments(old(world), clock, a, others)
      ensures Small(CallMoments(old(world), clock, a, others), old(rows))
      ensures BothInv(old(world)) && HonestCall(old(world), clock, a, others) && NoneLeftBehind(old(rows)) ==>
        AllSafe(CallMoments(old(world), clock, a, others))
      ensures BothInv(old(world)) && TruthfulCall(old(world), clock, a, others) && old(rows).unpublished == {} ==>
        AllSafe(CallMoments(old(world), clock, a, others))
    {
      PromisesOfACall(world, clock, a, others);
      outcome := MakeCall(clock, a, others);
    }

    method MakeCall(clock: nat, a: Answers, ghost others: Others) returns (outcome: Outcome)
      requires Valid()
      modifies this
      ensures Valid() && Topped(rows, outcome) == TopUp(old(rows), clock, a)
      ensures world == CallEnds(old(world), clock, a, others)
      ensures trace == old(trace) + CallMoments(old(world), clock, a, others)
    {
      ghost var b := world;
      var ready: Option<nat>;
      ready, outcome := BeginCall(clock, a, others);
      if ready.None? {
        NothingOffered(b, clock, a, others);
      } else {
        BeginIsSmall(b.rows, clock, a);
        ghost var found, b0, t1 := rows, world, trace;
        var n;
        n, outcome := OfferFrom(ready.value, a, others);
        ghost var moments := OfferAllMoments(b0.(rows := n.m), n, a, others);
        CallConcludes(b, clock, a, others, found, ready.value, n, b0, world, Topped(rows, outcome), moments);
        InTwo(old(trace), BeginMoments(b, a, others), moments);
      }
    }

    /** From the loaded pool on: mint what is short, and offer it. */
    method OfferFrom(next: nat, a: Answers, ghost others: Others) returns (n: Minting, outcome: Outcome)
      requires Valid() && forall x :: x in rows.oneTime ==> x < next
      modifies this
      ensures Valid() && Topped(rows, outcome) == OfferSteps(n, a)
      ensures n == Mint(old(rows), next, a.count)
      ensures world == OfferAllEnds(old(world).(rows := n.m), n, a, others)
      ensures trace == old(trace) + OfferAllMoments(old(world).(rows := n.m), n, a, others)
    {
      n := Mint(rows, next, a.count);
      outcome := OfferMinted(n, a, others);
    }
  }

  lemma {:induction false} InTwo(t: seq<Both>, x: seq<Both>, y: seq<Both>)
    ensures t + x + y == t + (x + y)
  {
  }

  lemma {:induction false} NothingOffered(b: Both, clock: nat, a: Answers, others: Others)
    requires b.rows.Valid() && Begin(b.rows, clock, a).Stop?
    ensures CallMoments(b, clock, a, others) == BeginMoments(b, a, others)
    ensures TopUp(b.rows, clock, a) == Begin(b.rows, clock, a).t
    ensures CallEnds(b, clock, a, others) == Meanwhile(b, others(0)).(rows := Begin(b.rows, clock, a).t.rows)
  {
  }

  /** Where a call that has begun ends. */
  lemma {:induction false} CallConcludes(
      b: Both, clock: nat, a: Answers, others: Others, rows: Rows, next: nat, n: Minting,
      b0: Both, end: Both, t: Topped, moments: seq<Both>)
    requires b.rows.Valid() && rows.Valid() && Begin(b.rows, clock, a) == Go(rows, next)
    requires (forall x :: x in rows.oneTime ==> x < next) && b0 == Meanwhile(b, others(0)).(rows := rows)
    requires n == Mint(rows, next, a.count)
    requires end == OfferAllEnds(b0.(rows := n.m), n, a, others) && t == OfferSteps(n, a)
    requires moments == OfferAllMoments(b0.(rows := n.m), n, a, others)
    ensures t == TopUp(b.rows, clock, a) && end == CallEnds(b, clock, a, others)
    ensures BeginMoments(b, a, others) + moments == CallMoments(b, clock, a, others)
  {
    BegunEnds(b, clock, a, others, n, b0.(rows := n.m));
  }

  lemma {:induction false} InOneLine(t: seq<Both>, b: Both, x: seq<Both>, y: seq<Both>)
    ensures t + [b] + x + y == t + ([b] + x + y)
  {
  }

  /** How an offering ends: the moments after its save, and the fallback. */
  lemma {:induction false} OfferingEnds(b: Both, n: Minting, a: Answers, others: Others)
    requires n.m.Valid()
    ensures var t := PublishAll(n.m, Ascending(n.m.unpublished), n.m.unpublished, a.publish);
      && t.rows.Valid()
      && (t.outcome == Done && (n.m.fallback.None? || n.m.unpublished != {}) <==> FallbackFollows(n, a.publish))
      && OfferEnds(b, n.m, Ascending(n.m.unpublished), n.m.unpublished, a.publish, others, 1).rows == t.rows
  {
    PublishOnlyRemoves(n.m, Ascending(n.m.unpublished), n.m.unpublished, a.publish);
    OfferEndsAsPublished(b, n.m, Ascending(n.m.unpublished), n.m.unpublished, a.publish, others, 1);
  }

  /** One turn of the offering, in terms of all its moments. */
  lemma {:induction false} OneTurn(
      trace: seq<Both>, b: Both, pool: Rows, ids: seq<nat>, all: set<nat>, replies: seq<PublishReply>,
      others: Others, k: nat)
    requires ids != []
    ensures var b' := AfterSend(b, BatchOf(ids), others, k);
      var pool' := pool.(unpublished := pool.unpublished - BatchOf(ids));
      trace + OfferMoments(b, pool, ids, all, replies, others, k)
        == trace + SendMoments(b, BatchOf(ids), others, k) +
           match ReplyTo(replies)
           case Took => OfferMoments(b', pool', ids[FirstBatch(ids)..], all, replies[1..], others, k + 2)
           case PublishRefused => [b'.(rows := Discarded(pool, all))]
           case PublishLost => [b'.(rows := pool)]
  {
  }

  /** What is left of a call that has begun. */
  lemma {:induction false} BegunEnds(b: Both, clock: nat, a: Answers, others: Others, n: Minting, b1: Both)
    requires b.rows.Valid() && Begin(b.rows, clock, a).Go? && n == MintingOf(b.rows, clock, a)
    requires b1 == Meanwhile(b, others(0)).(rows := n.m)
    ensures CallEnds(b, clock, a, others) == OfferAllEnds(b1, n, a, others)
    ensures CallMoments(b, clock, a, others) == BeginMoments(b, a, others) + OfferAllMoments(b1, n, a, others)
  {
  }

  /** Every moment of an offering holds no more than it was given. */
  lemma {:induction false} OfferIsWithin(
      b: Both, pool: Rows, ids: seq<nat>, all: set<nat>, replies: seq<PublishReply>, others: Others, k: nat)
    requires pool.oneTime == b.rows.oneTime
    ensures Within(OfferMoments(b, pool, ids, all, replies, others, k), b.rows.oneTime)
    decreases |ids|
  {
    if ids != [] && ReplyTo(replies) == Took {
      OfferIsWithin(
        AfterSend(b, BatchOf(ids), others, k), pool.(unpublished := pool.unpublished - BatchOf(ids)),
        ids[FirstBatch(ids)..], all, replies[1..], others, k + 2);
    }
  }

  lemma {:induction false} OfferAllIsWithin(b: Both, n: Minting, a: Answers, others: Others)
    requires b.rows == n.m
    ensures Within(OfferAllMoments(b, n, a, others), n.m.oneTime)
  {
    var ids := Ascending(n.m.unpublished);
    OfferIsWithin(b, n.m, ids, n.m.unpublished, a.publish, others, 1);
    LastMoment(b, n.m, ids, n.m.unpublished, a.publish, others, 1);
  }

  lemma {:induction false} BeginsSmall(b: Both, a: Answers, others: Others)
    ensures Small(BeginMoments(b, a, others), b.rows)
  {
  }

  lemma {:induction false} SmallJoin(first: seq<Both>, then_: seq<Both>, found: Rows)
    requires Small(first, found) && Small(then_, found)
    ensures Small(first + then_, found)
  {
  }

  lemma {:induction false} CallIsSmall(b: Both, clock: nat, a: Answers, others: Others)
    requires b.rows.Valid()
    ensures Small(CallMoments(b, clock, a, others), b.rows)
  {
    BeginsSmall(b, a, others);
    if Begin(b.rows, clock, a).Stop? {
      assert CallMoments(b, clock, a, others) == BeginMoments(b, a, others);
    } else {
      var n := TopUpOffers(b.rows, clock, a);
      var b1 := Meanwhile(b, others(0)).(rows := n.m);
      OfferAllIsWithin(b1, n, a, others);
      WithinIsSmall(OfferAllMoments(b1, n, a, others), n.m.oneTime, b.rows);
      SmallJoin(BeginMoments(b, a, others), OfferAllMoments(b1, n, a, others), b.rows);
      BegunEnds(b, clock, a, others, n, b1);
    }
  }

  lemma {:induction false} PromisesOfACall(b: Both, clock: nat, a: Answers, others: Others)
    requires b.rows.Valid()
    ensures Small(CallMoments(b, clock, a, others), b.rows)
    ensures BothInv(b) && HonestCall(b, clock, a, others) && NoneLeftBehind(b.rows) ==>
      AllSafe(CallMoments(b, clock, a, others))
    ensures BothInv(b) && TruthfulCall(b, clock, a, others) && b.rows.unpublished == {} ==>
      AllSafe(CallMoments(b, clock, a, others))
  {
    CallIsSmall(b, clock, a, others);
    if BothInv(b) && HonestCall(b, clock, a, others) && NoneLeftBehind(b.rows) { CallIsSafe(b, clock, a, others); }
    if BothInv(b) && TruthfulCall(b, clock, a, others) && b.rows.unpublished == {} {
      NothingWaitingIsSafe(b, clock, a, others);
    }
  }
}
