/**
 SIP-23's prekey pool: minting, publishing, being refused, and starting again.

 Secrets are named by their ids. The rows are what is durable; the pool in memory
 is loaded from them at the start of every call and has one thing more, the next id.
 */
module PrekeyPool {
  import opened Wrappers
  import opened Sets

  const POOL := 64
  const LOW_WATER := 16
  const MAX_PUBLISH := 64
  const MAX_STORED := 128
  const RUNAWAY := 4 * POOL

  /**
   The `prekey` table: unspent one-time ids and which of them no exchange has acknowledged, the
   fallback, the spent.
   */
  datatype Rows = Rows(oneTime: set<nat>, unpublished: set<nat>, fallback: Option<nat>, spent: set<nat>)
  {
    ghost predicate Valid() { unpublished <= oneTime }

    function Ids(): set<nat> {
      oneTime + spent + (if fallback.Some? then {fallback.value} else {})
    }
  }

  const NO_ROWS := Rows({}, {}, None, {})

  /** The greatest of a set of ids. */
  ghost function Top(s: set<nat>): (t: nat)
    ensures s != {} ==> t in s
    ensures forall x :: x in s ==> x <= t
  {
    if s == {} then 0
    else
      var x :| x in s;
      var rest := Top(s - {x});
      assert forall y :: y in s ==> y == x || y in s - {x};
      if s - {x} == {} || x >= rest then x else rest
  }

  /** Ids in ascending order. */
  ghost function Ascending(s: set<nat>): (q: seq<nat>)
    ensures |q| == |s| && forall x :: x in q <==> x in s
    decreases |s|
  {
    if s == {} then [] else Ascending(s - {Top(s)}) + [Top(s)]
  }

  /** `Store::pool`: ids resume above every row, or at the clock where there is no row at all. */
  ghost function NextId(r: Rows, clock: nat): (n: nat)
    ensures forall x :: x in r.Ids() ==> x < n
  {
    if r.Ids() == {} then (if clock > 1 then clock else 1) else Top(r.Ids()) + 1
  }

  function Wipe(r: Rows): Rows { r.(oneTime := {}, unpublished := {}) }

  /** `n` consecutive ids from `from`. */
  function Range(from: nat, n: nat): (s: set<nat>)
    ensures |s| == n && forall x :: x in s <==> from <= x < from + n
  {
    if n == 0 then {} else Range(from, n - 1) + {from + n - 1}
  }

  // ---- what the exchange may answer ----------------------------------------

  datatype CountReply = Counted(n: nat) | CountMalformed | CountRefused | CountLost
  /** `Clear`, or what an exchange without it leaves to go by, or no answer. */
  datatype ClearReply = Cleared(nextId: nat) | NoClear(fallbackId: Option<nat>) | ClearFailed
  datatype PublishReply = Took | PublishRefused | PublishLost

  datatype Answers = Answers(
    count: CountReply, clearRunaway: ClearReply, clearEmpty: ClearReply,
    publish: seq<PublishReply>, fallback: PublishReply)

  datatype Outcome = Done | Refused | Failed

  datatype Topped = Topped(rows: Rows, outcome: Outcome)

  /** `restart_pool`: where ids may resume, if the exchange said. */
  function ResumeAt(c: ClearReply): Option<nat> {
    match c
    case Cleared(n) => Some(n)
    case NoClear(f) => if f.Some? then Some(f.value + 1) else None
    case ClearFailed => None
  }

  /** As many ids as one publish may offer. */
  function FirstBatch(ids: seq<nat>): nat { if |ids| < MAX_PUBLISH then |ids| else MAX_PUBLISH }

  function BatchOf(ids: seq<nat>): set<nat> { set i | 0 <= i < FirstBatch(ids) :: ids[i] }

  /** `discard_unpublished`: of what was offered, what no exchange acknowledged goes. */
  function Discarded(r: Rows, offered: set<nat>): Rows {
    r.(oneTime := r.oneTime - (offered * r.unpublished), unpublished := r.unpublished - offered)
  }

  /** Envelopes were opened, and the one-time secrets they named go. */
  function SpendIds(r: Rows, ids: set<nat>): Rows {
    r.(oneTime := r.oneTime - ids, unpublished := r.unpublished - ids, spent := r.spent + (ids * r.oneTime))
  }

  /** The batches of `ids`, each offered once; `all` is everything this call offers. */
  ghost function PublishAll(r: Rows, ids: seq<nat>, all: set<nat>, replies: seq<PublishReply>): (t: Topped)
    decreases |ids|
  {
    if ids == [] then Topped(r, Done)
    else
      var n, batch := FirstBatch(ids), BatchOf(ids);
      match (if replies == [] then PublishLost else replies[0])
      case Took => PublishAll(r.(unpublished := r.unpublished - batch), ids[n..], all, replies[1..])
      case PublishRefused => Topped(Discarded(r, all), Refused)
      case PublishLost => Topped(r, Failed)
  }

  /** One-time prekeys the exchange is believed to hold: acknowledged, and no more than it says. */
  function Have(r: Rows, count: CountReply): nat
    requires r.unpublished <= r.oneTime
  {
    var published := |r.oneTime - r.unpublished|;
    if count.Counted? && count.n < published then count.n else published
  }

  function Short(r: Rows, count: CountReply): nat
    requires r.unpublished <= r.oneTime
  {
    var covered := Have(r, count) + |r.unpublished|;
    if covered < LOW_WATER then POOL - covered else 0
  }

  /** The rows once what is short has been minted at `next`. */
  function Minted(r: Rows, next: nat, short: nat): Rows {
    r.(oneTime := r.oneTime + Range(next, short), unpublished := r.unpublished + Range(next, short))
  }

  function MintFallback(r: Rows, id: nat): Rows {
    r.(fallback := Some(id), spent := if r.fallback.Some? then r.spent + {r.fallback.value} else r.spent)
  }

  /** A fallback after every batch that went in, and where there is none. */
  function Followed(t: Topped, due: bool, id: nat, reply: PublishReply): Topped {
    if t.outcome != Done || !due then t
    else
      var said := if reply.Took? then Done else if reply.PublishRefused? then Refused else Failed;
      Topped(MintFallback(t.rows, id), said)
  }

  /** What a call that goes on to offer has minted by then, and at which id it stopped. */
  datatype Minting = Minting(m: Rows, after: nat)

  function Mint(r: Rows, next: nat, count: CountReply): Minting
    requires r.unpublished <= r.oneTime
  {
    Minting(Minted(r, next, Short(r, count)), next + Short(r, count))
  }

  /** Offering everything that waits, and following it with a fallback. */
  ghost function OfferSteps(n: Minting, a: Answers): Topped {
    var t := PublishAll(n.m, Ascending(n.m.unpublished), n.m.unpublished, a.publish);
    Followed(t, n.m.fallback.None? || n.m.unpublished != {}, n.after, a.fallback)
  }

  /** From the loaded pool on. */
  ghost function Offer(r: Rows, next: nat, a: Answers): Topped
    requires r.Valid()
  {
    OfferSteps(Mint(r, next, a.count), a)
  }

  /** Whether a call gets as far as offering anything, from which rows, and where its ids start. */
  datatype Ready = Stop(t: Topped) | Go(rows: Rows, next: nat)

  ghost function Loaded(r: Rows, clock: nat, clearEmpty: ClearReply): Ready {
    var next := NextId(r, clock);
    if r.oneTime != {} || r.fallback.Some? then Go(r, next)
    else match ResumeAt(clearEmpty)
      case None => Stop(Topped(r, Failed))
      case Some(n) => Go(r, if n > next then n else next)
  }

  ghost function Begin(r: Rows, clock: nat, a: Answers): Ready {
    if a.count.CountRefused? then Stop(Topped(Wipe(r), Refused))
    else if a.count.CountMalformed? then Stop(Topped(r, Failed))
    else if |r.oneTime| <= RUNAWAY then Loaded(r, clock, a.clearEmpty)
    else if ResumeAt(a.clearRunaway).None? then Stop(Topped(r, Failed))
    else Loaded(Wipe(r), clock, a.clearEmpty)
  }

  /** `top_up_prekeys`, whatever the exchange answers. */
  ghost function TopUp(r: Rows, clock: nat, a: Answers): Topped
    requires r.Valid()
  {
    match Begin(r, clock, a)
    case Stop(t) => t
    case Go(rows, next) => Offer(rows, next, a)
  }

  // ---- the bound -----------------------------------------------------------

  lemma {:induction false} PublishOnlyRemoves(r: Rows, ids: seq<nat>, all: set<nat>, replies: seq<PublishReply>)
    requires r.Valid()
    ensures var t := PublishAll(r, ids, all, replies);
      && t.rows.Valid() && t.rows.oneTime <= r.oneTime && t.rows.fallback == r.fallback && t.rows.spent == r.spent
      && (t.outcome == Done ==> t.rows.oneTime == r.oneTime && t.rows.unpublished == r.unpublished - set x | x in ids)
      && (t.outcome == Failed ==> t.rows.oneTime == r.oneTime)
    decreases |ids|
  {
    if ids != [] {
      var n, batch := FirstBatch(ids), BatchOf(ids);
      var reply := if replies == [] then PublishLost else replies[0];
      if reply == Took {
        PublishOnlyRemoves(r.(unpublished := r.unpublished - batch), ids[n..], all, replies[1..]);
        assert (set x | x in ids) == batch + set x | x in ids[n..];
      }
    }
  }

  lemma {:induction false} SizeAfterMint(r: Rows, next: nat, short: nat)
    requires r.Valid() && forall x :: x in r.oneTime ==> x < next
    ensures Minted(r, next, short).Valid()
    ensures |Minted(r, next, short).oneTime| == |r.oneTime| + short
    ensures |Minted(r, next, short).unpublished| == |r.unpublished| + short
  {
    assert r.oneTime !! Range(next, short);
    assert r.unpublished !! Range(next, short);
  }

  /** Offering only ever takes away, and takes nothing where it succeeds. */
  lemma {:induction false} OfferOnlyRemoves(n: Minting, a: Answers)
    requires n.m.Valid()
    ensures var t := OfferSteps(n, a);
      && t.rows.Valid() && t.rows.oneTime <= n.m.oneTime
      && (t.outcome == Done ==> t.rows.unpublished == {} && t.rows.oneTime == n.m.oneTime)
  {
    PublishOnlyRemoves(n.m, Ascending(n.m.unpublished), n.m.unpublished, a.publish);
    assert (set x | x in Ascending(n.m.unpublished)) == n.m.unpublished;
  }

  /** Minting what is short leaves enough, and not too much. */
  lemma {:induction false} MintIsBounded(r: Rows, next: nat, count: CountReply)
    requires r.Valid() && |r.oneTime| <= RUNAWAY && forall x :: x in r.oneTime ==> x < next
    ensures var m := Mint(r, next, count).m;
      m.Valid() && r.oneTime <= m.oneTime && LOW_WATER <= |m.oneTime| <= 5 * POOL
  {
    SizeAfterMint(r, next, Short(r, count));
    assert |r.oneTime| == |r.oneTime - r.unpublished| + |r.unpublished|;
  }

  lemma {:induction false} OfferIsBounded(r: Rows, next: nat, a: Answers)
    requires r.Valid() && |r.oneTime| <= RUNAWAY && forall x :: x in r.oneTime ==> x < next
    ensures var t := Offer(r, next, a);
      && t.rows.Valid()
      && |Mint(r, next, a.count).m.oneTime| <= 5 * POOL
      && |t.rows.oneTime| <= 5 * POOL
      && (t.outcome == Done ==> t.rows.unpublished == {} && |t.rows.oneTime| >= LOW_WATER)
  {
    var n := Mint(r, next, a.count);
    MintIsBounded(r, next, a.count);
    OfferOnlyRemoves(n, a);
    SubsetSize(OfferSteps(n, a).rows.oneTime, n.m.oneTime);
  }

  lemma {:induction false} BeginIsSmall(r: Rows, clock: nat, a: Answers)
    requires r.Valid()
    ensures match Begin(r, clock, a)
      case Stop(t) => t.rows.Valid() && t.outcome != Done && (t.rows == r || t.rows.oneTime == {})
      case Go(rows, next) => rows.Valid() && |rows.oneTime| <= RUNAWAY && forall x :: x in rows.oneTime ==> x < next
  {
    if |r.oneTime| <= RUNAWAY {
      LoadedIsAbove(r, clock, a.clearEmpty);
    } else {
      LoadedIsAbove(Wipe(r), clock, a.clearEmpty);
    }
  }

  lemma {:induction false} LoadedIsAbove(r: Rows, clock: nat, clearEmpty: ClearReply)
    ensures match Loaded(r, clock, clearEmpty)
      case Stop(t) => t == Topped(r, Failed)
      case Go(rows, next) => rows == r && forall x :: x in r.Ids() ==> x < next
  {
  }

  /**
   One run, from rows of any size and with any answers: it leaves at most five pools
   of secrets unless it left the rows as they were, and a run that succeeds leaves
   at least `LOW_WATER` acknowledged and none waiting.
   */
  lemma {:induction false} RunIsBounded(r: Rows, clock: nat, a: Answers)
    requires r.Valid()
    ensures var t := TopUp(r, clock, a);
      && t.rows.Valid()
      && (|t.rows.oneTime| <= 5 * POOL || t.rows == r)
      && (t.outcome == Done ==> t.rows.unpublished == {} && |t.rows.oneTime| >= LOW_WATER)
  {
    BeginIsSmall(r, clock, a);
    match Begin(r, clock, a)
    case Stop(_) =>
    case Go(rows, next) => OfferIsBounded(rows, next, a);
  }

  /** One thing that happens to the rows: a top-up, or envelopes opened and their secrets spent. */
  datatype Event = ToppedUp(clock: nat, answers: Answers) | Spent(ids: set<nat>)

  ghost function After(events: seq<Event>): (r: Rows)
    ensures r.Valid()
    decreases |events|
  {
    if events == [] then NO_ROWS
    else
      var r := After(events[..|events| - 1]);
      match events[|events| - 1]
      case ToppedUp(clock, a) => RunIsBounded(r, clock, a); TopUp(r, clock, a).rows
      case Spent(ids) => SpendIds(r, ids)
  }

  /** From a fresh store, however often it runs and whatever is answered, never more than five pools. */
  lemma {:induction false} NeverMoreThanFivePools(events: seq<Event>)
    ensures |After(events).oneTime| <= 5 * 64
    decreases |events|
  {
    if events != [] {
      NeverMoreThanFivePools(events[..|events| - 1]);
      var r := After(events[..|events| - 1]);
      match events[|events| - 1]
      case ToppedUp(clock, a) => RunIsBounded(r, clock, a);
      case Spent(ids) => SubsetSize(r.oneTime - ids, r.oneTime);
    }
  }
}
