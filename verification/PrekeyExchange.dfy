/**
 The prekey pool with the exchange in sight: what a device has durable, what the
 exchange serves, and what is between them. A call of `top_up_prekeys` is a run of
 small moves, with others moving in between; a crash is a run that stops.
 */
module PrekeyExchange {
  import opened Wrappers
  import opened Sets
  import opened PrekeyPool

  /** What the exchange keeps for the device: what it can still serve, what it served, and every id it ever took. */
  datatype Exchange = Exchange(serving: set<nat>, given: set<nat>, seen: set<nat>)
  {
    ghost predicate Valid() { serving <= seen && given <= seen && serving !! given }
  }

  /** The exchange's `publish`: all or nothing, never an id it has had, never past its own limit. */
  predicate Takes(x: Exchange, batch: set<nat>) {
    batch !! x.seen && |x.serving| + |batch| <= MAX_STORED
  }

  function Published(x: Exchange, batch: set<nat>): Exchange {
    x.(serving := x.serving + batch, seen := x.seen + batch)
  }

  /** Everything still served has its secret in the durable rows. */
  predicate Answerable(x: Exchange, r: Rows) { x.serving <= r.oneTime }

  /** The device's durable rows, the exchange, and publishes sent whose fate is open. */
  datatype Both = Both(rows: Rows, exchange: Exchange, onTheWay: set<set<nat>>)

  /** One durable write or one message taking effect. */
  datatype Move =
    | MintAndSave(ids: set<nat>)        // new secrets are made durable
    | Send(batch: set<nat>)             // a batch the durable rows hold is offered
    | MarkPublished(ids: set<nat>)      // acknowledgements are recorded
    | SpendSaved(ids: set<nat>)         // envelopes were opened, and the secrets go
    | WipeSaved                         // the rows go
    | SaveFallback(id: nat)             // a new fallback is made durable
    | Arrive(batch: set<nat>)           // an offer reaches the exchange, and is taken
    | Vanish(batch: set<nat>)           // or is lost, or refused
    | PeerTakes(id: nat)                // somebody is served one
    | ClearArrives                      // `Clear` reaches the exchange

  /** What happens without the device doing anything. */
  predicate ByOthers(m: Move) { m.Arrive? || m.Vanish? || m.PeerTakes? || m.ClearArrives? }

  /** Could an offer still be taken? */
  predicate Pending(x: Exchange, batch: set<nat>) { batch !! x.seen }

  predicate Allowed(b: Both, m: Move) {
    match m
    case MintAndSave(ids) => ids !! b.rows.oneTime
    case Send(batch) => batch <= b.rows.unpublished
    case MarkPublished(ids) => ids <= b.exchange.seen
    // An envelope is sealed under a prekey somebody was served.
    case SpendSaved(ids) => ids <= b.exchange.given
    // The client knows what `Clear` told it, and that nothing of its own is waiting.
    case WipeSaved => b.exchange.serving == {} && b.rows.unpublished == {}
    case SaveFallback(_) => true
    case Arrive(batch) => batch in b.onTheWay && Takes(b.exchange, batch)
    case Vanish(batch) => batch in b.onTheWay
    case PeerTakes(id) => id in b.exchange.serving
    case ClearArrives => true
  }

  function Moved(b: Both, m: Move): Both {
    match m
    case MintAndSave(ids) =>
      b.(rows := b.rows.(oneTime := b.rows.oneTime + ids, unpublished := b.rows.unpublished + ids))
    case Send(batch) => b.(onTheWay := b.onTheWay + {batch})
    case MarkPublished(ids) => b.(rows := b.rows.(unpublished := b.rows.unpublished - ids))
    case SpendSaved(ids) => b.(rows := SpendIds(b.rows, ids))
    case WipeSaved => b.(rows := Wipe(b.rows))
    case SaveFallback(id) => b.(rows := MintFallback(b.rows, id))
    case Arrive(batch) => b.(exchange := Published(b.exchange, batch), onTheWay := b.onTheWay - {batch})
    case Vanish(batch) => b.(onTheWay := b.onTheWay - {batch})
    case PeerTakes(id) =>
      b.(exchange := b.exchange.(serving := b.exchange.serving - {id}, given := b.exchange.given + {id}))
    case ClearArrives => b.(exchange := b.exchange.(serving := {}))
  }

  /** Whatever is served has its secret durable, and so has whatever may yet be, which is waiting there. */
  ghost predicate BothInv(b: Both) {
    && b.rows.Valid() && b.exchange.Valid() && Answerable(b.exchange, b.rows)
    && forall batch :: batch in b.onTheWay && Pending(b.exchange, batch) ==> batch <= b.rows.unpublished
  }

  lemma {:induction false} MoveKeepsInv(b: Both, m: Move)
    requires BothInv(b) && Allowed(b, m)
    ensures BothInv(Moved(b, m))
  {
  }

  /** After `Clear`, the rows may go, whatever is on its way, exactly where nothing is waiting in them. */
  lemma {:induction false} WipeIsSafeExactly(r: Rows)
    requires r.Valid()
    ensures (forall b: Both | b.rows == r && BothInv(b) && b.exchange.serving == {} :: BothInv(Moved(b, WipeSaved)))
      <==> r.unpublished == {}
  {
    if r.unpublished == {} {
      forall b: Both | b.rows == r && BothInv(b) && b.exchange.serving == {} ensures BothInv(Moved(b, WipeSaved)) {
        MoveKeepsInv(b, WipeSaved);
      }
    } else {
      var x :| x in r.unpublished;
      LateBatch(r, x);
    }
  }

  /** A device with one waiting prekey on its way to an exchange that has nothing. */
  ghost function Late(r: Rows, x: nat): Both { Both(r, Exchange({}, {}, {}), {{x}}) }

  lemma {:induction false} LateBatch(r: Rows, x: nat)
    requires r.Valid() && x in r.unpublished
    ensures BothInv(Late(r, x)) && !BothInv(Moved(Late(r, x), WipeSaved))
  {
    var b := Late(r, x);
    assert {x} in b.onTheWay && Pending(b.exchange, {x});
    assert {x} <= r.unpublished;
    assert x in {x} && x !in Wipe(r).unpublished;
  }

  function Play(b: Both, moves: seq<Move>): Both
    decreases |moves|
  {
    if moves == [] then b else Play(Moved(b, moves[0]), moves[1..])
  }

  ghost predicate Playable(b: Both, moves: seq<Move>)
    decreases |moves|
  {
    moves == [] || (Allowed(b, moves[0]) && Playable(Moved(b, moves[0]), moves[1..]))
  }

  /**
   Without refusals, at every crash point of every run: whatever the exchange can
   still serve, the rows can still open.
   */
  lemma {:induction false} ServedIsAnswerable(b: Both, moves: seq<Move>)
    requires BothInv(b) && Playable(b, moves)
    ensures BothInv(Play(b, moves))
    decreases |moves|
  {
    if moves != [] {
      MoveKeepsInv(b, moves[0]);
      ServedIsAnswerable(Moved(b, moves[0]), moves[1..]);
    }
  }

  /** Some run leads from one to the other. */
  ghost predicate Reaches(b: Both, b': Both) { exists moves :: Playable(b, moves) && Play(b, moves) == b' }

  lemma {:induction false} StepReaches(b: Both, m: Move)
    requires Allowed(b, m)
    ensures Reaches(b, Moved(b, m))
  {
    assert [m][1..] == [];
    assert Playable(b, [m]) && Play(b, [m]) == Moved(b, m);
  }

  lemma {:induction false} StayReaches(b: Both)
    ensures Reaches(b, b)
  {
    assert Playable(b, []) && Play(b, []) == b;
  }

  lemma {:induction false} ThenPlays(b: Both, first: seq<Move>, then_: seq<Move>)
    requires Playable(b, first) && Playable(Play(b, first), then_)
    ensures Playable(b, first + then_) && Play(b, first + then_) == Play(Play(b, first), then_)
    decreases |first|
  {
    if first == [] {
      assert first + then_ == then_;
    } else {
      ThenPlays(Moved(b, first[0]), first[1..], then_);
      assert (first + then_)[1..] == first[1..] + then_;
    }
  }

  lemma {:induction false} ThenReaches(b: Both, b1: Both, b2: Both)
    requires Reaches(b, b1) && Reaches(b1, b2)
    ensures Reaches(b, b2)
  {
    var first :| Playable(b, first) && Play(b, first) == b1;
    var then_ :| Playable(b1, then_) && Play(b1, then_) == b2;
    ThenPlays(b, first, then_);
  }

  lemma {:induction false} ReachesKeepsInv(b: Both, b': Both)
    requires BothInv(b) && Reaches(b, b')
    ensures BothInv(b')
  {
    var moves :| Playable(b, moves) && Play(b, moves) == b';
    ServedIsAnswerable(b, moves);
  }

  // ---- a call, and the others around it --------------------------------------

  /** What the others try to do before the call's `k`th step. */
  type Others = nat -> seq<Move>

  /** They do what of it they can. */
  function Meanwhile(b: Both, moves: seq<Move>): (b': Both)
    ensures b'.rows == b.rows && b.exchange.seen <= b'.exchange.seen
    decreases |moves|
  {
    if moves == [] then b
    else Meanwhile(if ByOthers(moves[0]) && Allowed(b, moves[0]) then Moved(b, moves[0]) else b, moves[1..])
  }

  lemma {:induction false} MeanwhileReaches(b: Both, moves: seq<Move>)
    ensures Reaches(b, Meanwhile(b, moves))
    decreases |moves|
  {
    if moves == [] {
      StayReaches(b);
    } else {
      var b1 := if ByOthers(moves[0]) && Allowed(b, moves[0]) then Moved(b, moves[0]) else b;
      if b1 == b { StayReaches(b); } else { StepReaches(b, moves[0]); }
      MeanwhileReaches(b1, moves[1..]);
      ThenReaches(b, b1, Meanwhile(b1, moves[1..]));
    }
  }

  /** A batch sent, and whatever happens until its answer is in. */
  function AfterSend(b: Both, batch: set<nat>, others: Others, k: nat): (b': Both)
    ensures b'.rows == b.rows && b.exchange.seen <= b'.exchange.seen
  {
    Meanwhile(Moved(Meanwhile(b, others(k)), Send(batch)), others(k + 1))
  }

  lemma {:induction false} SendReaches(b: Both, batch: set<nat>, others: Others, k: nat)
    requires batch <= b.rows.unpublished
    ensures Reaches(b, AfterSend(b, batch, others, k))
  {
    var b1 := Meanwhile(b, others(k));
    var b2 := Moved(b1, Send(batch));
    MeanwhileReaches(b, others(k));
    StepReaches(b1, Send(batch));
    ThenReaches(b, b1, b2);
    MeanwhileReaches(b2, others(k + 1));
    ThenReaches(b, b2, AfterSend(b, batch, others, k));
  }

  function ReplyTo(replies: seq<PublishReply>): PublishReply { if replies == [] then PublishLost else replies[0] }

  /** No batch is refused, and one acknowledged is one the exchange had by then. */
  ghost predicate HonestReplies(b: Both, ids: seq<nat>, replies: seq<PublishReply>, others: Others, k: nat)
    decreases |ids|
  {
    ids == [] ||
    var b' := AfterSend(b, BatchOf(ids), others, k);
    match ReplyTo(replies)
    case PublishLost => true
    case PublishRefused => false
    case Took =>
      BatchOf(ids) <= b'.exchange.seen && HonestReplies(b', ids[FirstBatch(ids)..], replies[1..], others, k + 2)
  }

  /** Where offering leaves all three: `pool` is what is in memory, and is saved where the offering ends. */
  ghost function OfferEnds(
      b: Both, pool: Rows, ids: seq<nat>, all: set<nat>, replies: seq<PublishReply>, others: Others, k: nat): Both
    decreases |ids|
  {
    if ids == [] then b.(rows := pool)
    else
      var b' := AfterSend(b, BatchOf(ids), others, k);
      match ReplyTo(replies)
      case Took =>
        var rest := pool.(unpublished := pool.unpublished - BatchOf(ids));
        OfferEnds(b', rest, ids[FirstBatch(ids)..], all, replies[1..], others, k + 2)
      case PublishRefused => b'.(rows := Discarded(pool, all))
      case PublishLost => b'.(rows := pool)
  }

  lemma {:induction false} OfferEndsAsPublished(
      b: Both, pool: Rows, ids: seq<nat>, all: set<nat>, replies: seq<PublishReply>, others: Others, k: nat)
    ensures OfferEnds(b, pool, ids, all, replies, others, k).rows == PublishAll(pool, ids, all, replies).rows
    decreases |ids|
  {
    if ids != [] && ReplyTo(replies) == Took {
      OfferEndsAsPublished(
        AfterSend(b, BatchOf(ids), others, k), pool.(unpublished := pool.unpublished - BatchOf(ids)),
        ids[FirstBatch(ids)..], all, replies[1..], others, k + 2);
    }
  }

  /** The moments of one sending: before it, as it goes, and once its answer is in. */
  ghost function SendMoments(b: Both, batch: set<nat>, others: Others, k: nat): seq<Both> {
    var b1 := Meanwhile(b, others(k));
    [b1, Moved(b1, Send(batch)), AfterSend(b, batch, others, k)]
  }

  /** The moments of an offering, batch by batch, with the one save that ends it. */
  ghost function OfferMoments(
      b: Both, pool: Rows, ids: seq<nat>, all: set<nat>, replies: seq<PublishReply>, others: Others, k: nat): seq<Both>
    decreases |ids|
  {
    if ids == [] then [b.(rows := pool)]
    else
      var b' := AfterSend(b, BatchOf(ids), others, k);
      var pool' := pool.(unpublished := pool.unpublished - BatchOf(ids));
      SendMoments(b, BatchOf(ids), others, k) +
      match ReplyTo(replies)
      case Took => OfferMoments(b', pool', ids[FirstBatch(ids)..], all, replies[1..], others, k + 2)
      case PublishRefused => [b'.(rows := Discarded(pool, all))]
      case PublishLost => [b'.(rows := pool)]
  }

  /** At every one of these moments whatever is served, or may yet be, has its secret durable. */
  ghost predicate AllSafe(moments: seq<Both>) {
    moments == [] || (BothInv(moments[0]) && AllSafe(moments[1..]))
  }

  lemma {:induction false} SafeJoin(first: seq<Both>, then_: seq<Both>)
    ensures AllSafe(first + then_) <==> AllSafe(first) && AllSafe(then_)
    decreases |first|
  {
    if first == [] {
      assert first + then_ == then_;
    } else {
      SafeJoin(first[1..], then_);
      assert (first + then_)[1..] == first[1..] + then_;
    }
  }

  lemma {:induction false} SafeOne(b: Both)
    ensures AllSafe([b]) <==> BothInv(b)
  {
    assert [b][1..] == [];
  }

  /** Safe throughout is safe at each moment. */
  lemma {:induction false} SafeEverywhere(moments: seq<Both>, i: nat)
    requires AllSafe(moments) && i < |moments|
    ensures BothInv(moments[i])
    decreases |moments|
  {
    if i > 0 { SafeEverywhere(moments[1..], i - 1); }
  }

  lemma {:induction false} SendIsSafe(b: Both, batch: set<nat>, others: Others, k: nat)
    requires BothInv(b) && batch <= b.rows.unpublished
    ensures AllSafe(SendMoments(b, batch, others, k)) && BothInv(AfterSend(b, batch, others, k))
  {
    var b1 := Meanwhile(b, others(k));
    var b2, b3 := Moved(b1, Send(batch)), AfterSend(b, batch, others, k);
    MeanwhileReaches(b, others(k));
    ReachesKeepsInv(b, b1);
    MoveKeepsInv(b1, Send(batch));
    SendReaches(b, batch, others, k);
    ReachesKeepsInv(b, b3);
    SafeOne(b3);
    assert [b1, b2, b3][1..] == [b2, b3] && [b2, b3][1..] == [b3];
  }

  /** What was acknowledged so far is all that memory has ahead of the durable rows. */
  ghost predicate Ahead(b: Both, pool: Rows, taken: set<nat>) {
    pool == b.rows.(unpublished := b.rows.unpublished - taken) && taken <= b.exchange.seen
  }

  /** The one save, where the offering ends. */
  lemma {:induction false} SaveReaches(b: Both, b': Both, pool: Rows, taken: set<nat>)
    requires Reaches(b, b') && Ahead(b', pool, taken)
    ensures Reaches(b, b'.(rows := pool))
  {
    StepReaches(b', MarkPublished(taken));
    ThenReaches(b, b', Moved(b', MarkPublished(taken)));
  }

  lemma {:induction false} OfferReaches(
      b: Both, pool: Rows, ids: seq<nat>, all: set<nat>, replies: seq<PublishReply>, others: Others, k: nat,
      taken: set<nat>)
    requires (forall i :: i in ids ==> i in b.rows.unpublished) && Ahead(b, pool, taken)
    requires HonestReplies(b, ids, replies, others, k)
    ensures Reaches(b, OfferEnds(b, pool, ids, all, replies, others, k))
    decreases |ids|
  {
    if ids == [] {
      StayReaches(b);
      SaveReaches(b, b, pool, taken);
    } else {
      var batch, b' := BatchOf(ids), AfterSend(b, BatchOf(ids), others, k);
      SendReaches(b, batch, others, k);
      if ReplyTo(replies) == PublishLost {
        SaveReaches(b, b', pool, taken);
      } else {
        var pool' := pool.(unpublished := pool.unpublished - batch);
        assert b.rows.unpublished - taken - batch == b.rows.unpublished - (taken + batch);
        OfferReaches(b', pool', ids[FirstBatch(ids)..], all, replies[1..], others, k + 2, taken + batch);
        ThenReaches(b, b', OfferEnds(b', pool', ids[FirstBatch(ids)..], all, replies[1..], others, k + 2));
      }
    }
  }

  lemma {:induction false} SaveIsSafe(b: Both, pool: Rows, taken: set<nat>)
    requires BothInv(b) && Ahead(b, pool, taken)
    ensures AllSafe([b.(rows := pool)])
  {
    MoveKeepsInv(b, MarkPublished(taken));
    SafeOne(b.(rows := pool));
  }

  lemma {:induction false} OfferIsSafe(
      b: Both, pool: Rows, ids: seq<nat>, all: set<nat>, replies: seq<PublishReply>, others: Others, k: nat,
      taken: set<nat>)
    requires BothInv(b) && (forall i :: i in ids ==> i in b.rows.unpublished) && Ahead(b, pool, taken)
    requires HonestReplies(b, ids, replies, others, k)
    ensures AllSafe(OfferMoments(b, pool, ids, all, replies, others, k))
    decreases |ids|
  {
    if ids == [] {
      SaveIsSafe(b, pool, taken);
    } else {
      var batch, b' := BatchOf(ids), AfterSend(b, BatchOf(ids), others, k);
      SendIsSafe(b, batch, others, k);
      var sent := SendMoments(b, batch, others, k);
      if ReplyTo(replies) == PublishLost {
        SaveIsSafe(b', pool, taken);
        SafeJoin(sent, [b'.(rows := pool)]);
      } else {
        var pool', left := pool.(unpublished := pool.unpublished - batch), ids[FirstBatch(ids)..];
        assert b.rows.unpublished - taken - batch == b.rows.unpublished - (taken + batch);
        OfferIsSafe(b', pool', left, all, replies[1..], others, k + 2, taken + batch);
        SafeJoin(sent, OfferMoments(b', pool', left, all, replies[1..], others, k + 2));
      }
    }
  }

  /** The rows are wiped: they ran away, and the exchange answered. */
  predicate Wipes(r: Rows, a: Answers) {
    |r.oneTime| > RUNAWAY && ResumeAt(a.clearRunaway).Some? && !a.count.CountMalformed? && !a.count.CountRefused?
  }

  /** What a call that goes on to offer has minted by then. */
  ghost function MintingOf(r: Rows, clock: nat, a: Answers): Minting
    requires r.Valid() && Begin(r, clock, a).Go?
  {
    Mint(Begin(r, clock, a).rows, Begin(r, clock, a).next, a.count)
  }

  /** Where offering everything that waits leaves all three, a fallback made where one is due. */
  ghost function OfferAllEnds(b: Both, n: Minting, a: Answers, others: Others): Both {
    var b' := OfferEnds(b, n.m, Ascending(n.m.unpublished), n.m.unpublished, a.publish, others, 1);
    if FallbackFollows(n, a.publish) then Moved(b', SaveFallback(n.after)) else b'
  }

  /** Where a call leaves rows, exchange and network. */
  ghost function CallEnds(b: Both, clock: nat, a: Answers, others: Others): Both
    requires b.rows.Valid()
  {
    var b0 := Meanwhile(b, others(0));
    match Begin(b.rows, clock, a)
    case Stop(t) => b0.(rows := t.rows)
    case Go(_, _) =>
      var n := MintingOf(b.rows, clock, a);
      OfferAllEnds(b0.(rows := n.m), n, a, others)
  }

  /** The moments of offering everything that waits, if anything does. */
  ghost function Offering(b: Both, m: Rows, replies: seq<PublishReply>, others: Others): seq<Both> {
    var ids := Ascending(m.unpublished);
    if ids == [] then [] else OfferMoments(b, m, ids, m.unpublished, replies, others, 1)
  }

  /** Whether a fallback follows. */
  ghost predicate FallbackFollows(n: Minting, replies: seq<PublishReply>) {
    && PublishAll(n.m, Ascending(n.m.unpublished), n.m.unpublished, replies).outcome == Done
    && (n.m.fallback.None? || n.m.unpublished != {})
  }

  /** The moments from the rows being saved with what was minted, to the fallback. */
  ghost function OfferAllMoments(b: Both, n: Minting, a: Answers, others: Others): seq<Both> {
    [b] + Offering(b, n.m, a.publish, others)
    + (if FallbackFollows(n, a.publish) then [OfferAllEnds(b, n, a, others)] else [])
  }

  /** The moments up to the pool being loaded. */
  function BeginMoments(b: Both, a: Answers, others: Others): seq<Both> {
    var b0 := Meanwhile(b, others(0));
    [b0] + (if a.count.CountRefused? || Wipes(b.rows, a) then [b0.(rows := Wipe(b.rows))] else [])
  }

  /** Every moment of a call. */
  ghost function CallMoments(b: Both, clock: nat, a: Answers, others: Others): seq<Both>
    requires b.rows.Valid()
  {
    BeginMoments(b, a, others) +
    match Begin(b.rows, clock, a)
    case Stop(_) => []
    case Go(_, _) =>
      var n := MintingOf(b.rows, clock, a);
      OfferAllMoments(Meanwhile(b, others(0)).(rows := n.m), n, a, others)
  }

  /** A call is not turned away at the door, and where it is told that `Clear` was done, it was. */
  predicate LetIn(r: Rows, a: Answers, others: Others) {
    !a.count.CountRefused? && (Wipes(r, a) ==> a.clearRunaway.Cleared? && ClearArrives in others(0))
  }

  /** The exchange supports `Clear`, refuses nothing and says nothing untrue. */
  ghost predicate HonestCall(b: Both, clock: nat, a: Answers, others: Others)
    requires b.rows.Valid()
  {
    && LetIn(b.rows, a, others)
    && match Begin(b.rows, clock, a)
       case Stop(_) => true
       case Go(_, _) =>
         var n := MintingOf(b.rows, clock, a);
         HonestReplies(
           Meanwhile(b, others(0)).(rows := n.m), Ascending(n.m.unpublished), a.publish, others, 1)
  }

  /** The guard a client has: it holds no more than it should, or nothing in it is waiting. */
  predicate NoneLeftBehind(r: Rows) { |r.oneTime| <= RUNAWAY || r.unpublished == {} }

  /** Once cleared, with nothing waiting, the exchange stays empty. */
  lemma {:induction false} StaysEmpty(b: Both, moves: seq<Move>)
    requires BothInv(b) && b.rows.unpublished == {} && (b.exchange.serving == {} || ClearArrives in moves)
    ensures Meanwhile(b, moves).exchange.serving == {}
    decreases |moves|
  {
    if moves != [] {
      var b1 := if ByOthers(moves[0]) && Allowed(b, moves[0]) then Moved(b, moves[0]) else b;
      if b1 != b { MoveKeepsInv(b, moves[0]); }
      if b.exchange.serving == {} && moves[0].Arrive? && Allowed(b, moves[0]) { assert moves[0].batch == {}; }
      assert moves == [moves[0]] + moves[1..];
      StaysEmpty(b1, moves[1..]);
    }
  }

  lemma {:induction false} WipeIsAllowed(b: Both, a: Answers, others: Others)
    requires BothInv(b) && NoneLeftBehind(b.rows) && LetIn(b.rows, a, others) && Wipes(b.rows, a)
    ensures Allowed(Meanwhile(b, others(0)), WipeSaved)
  {
    StaysEmpty(b, others(0));
  }

  /** The rows a call has minted are the ones it found, wiped or not, and new ids above them all. */
  lemma {:induction false} MintedAbove(r: Rows, clock: nat, a: Answers) returns (rows: Rows, ids: set<nat>)
    requires r.Valid() && Begin(r, clock, a).Go?
    ensures rows == (if Wipes(r, a) then Wipe(r) else r) && ids !! rows.oneTime
    ensures MintingOf(r, clock, a).m == rows.(oneTime := rows.oneTime + ids, unpublished := rows.unpublished + ids)
    ensures MintingOf(r, clock, a).m.Valid()
  {
    BeginIsSmall(r, clock, a);
    rows := Begin(r, clock, a).rows;
    ids := Range(Begin(r, clock, a).next, Short(rows, a.count));
  }

  /** Up to the rows being saved with what was minted. */
  lemma {:induction false} StartReaches(b: Both, b0: Both, wipes: bool, rows: Rows, ids: set<nat>, m: Rows)
    requires Reaches(b, b0) && (wipes ==> Allowed(b0, WipeSaved)) && rows == (if wipes then Wipe(b0.rows) else b0.rows)
    requires ids !! rows.oneTime && m == rows.(oneTime := rows.oneTime + ids, unpublished := rows.unpublished + ids)
    ensures Reaches(b, b0.(rows := m))
  {
    var b1 := b0.(rows := rows);
    if wipes {
      StepReaches(b0, WipeSaved);
      ThenReaches(b, b0, b1);
    }
    StepReaches(b1, MintAndSave(ids));
    ThenReaches(b, b1, Moved(b1, MintAndSave(ids)));
  }

  lemma {:induction false} OfferAllReaches(b: Both, n: Minting, a: Answers, others: Others)
    requires b.rows == n.m && HonestReplies(b, Ascending(n.m.unpublished), a.publish, others, 1)
    ensures Reaches(b, OfferAllEnds(b, n, a, others))
  {
    var ids := Ascending(n.m.unpublished);
    var b' := OfferEnds(b, n.m, ids, n.m.unpublished, a.publish, others, 1);
    assert n.m.unpublished - {} == n.m.unpublished;
    OfferReaches(b, n.m, ids, n.m.unpublished, a.publish, others, 1, {});
    StepReaches(b', SaveFallback(n.after));
    ThenReaches(b, b', Moved(b', SaveFallback(n.after)));
  }

  /** What `top_up_prekeys` does against such an exchange is a run of those moves and the others'. */
  lemma {:induction false} CallIsMoves(b: Both, clock: nat, a: Answers, others: Others)
    requires BothInv(b) && HonestCall(b, clock, a, others) && NoneLeftBehind(b.rows)
    ensures Reaches(b, CallEnds(b, clock, a, others))
  {
    var b0 := Meanwhile(b, others(0));
    MeanwhileReaches(b, others(0));
    if Wipes(b.rows, a) { WipeIsAllowed(b, a, others); }
    if Begin(b.rows, clock, a).Stop? {
      StopReaches(b, b0, clock, a);
    } else {
      var rows, ids := MintedAbove(b.rows, clock, a);
      var n := MintingOf(b.rows, clock, a);
      StartReaches(b, b0, Wipes(b.rows, a), rows, ids, n.m);
      var b1 := b0.(rows := n.m);
      OfferAllReaches(b1, n, a, others);
      ThenReaches(b, b1, OfferAllEnds(b1, n, a, others));
    }
  }

  lemma {:induction false} StopReaches(b: Both, b0: Both, clock: nat, a: Answers)
    requires b.rows.Valid() && b0.rows == b.rows && Reaches(b, b0)
    requires Begin(b.rows, clock, a).Stop? && !a.count.CountRefused?
    requires Wipes(b.rows, a) ==> Allowed(b0, WipeSaved)
    ensures Reaches(b, b0.(rows := Begin(b.rows, clock, a).t.rows))
  {
    if Wipes(b.rows, a) {
      StepReaches(b0, WipeSaved);
      ThenReaches(b, b0, Moved(b0, WipeSaved));
    }
  }

  lemma {:induction false} OfferEndsGive(b: Both, n: Minting, a: Answers, others: Others, goal: Rows)
    requires goal == OfferSteps(n, a).rows
    ensures OfferAllEnds(b, n, a, others).rows == goal
  {
    OfferEndsAsPublished(b, n.m, Ascending(n.m.unpublished), n.m.unpublished, a.publish, others, 1);
  }

  lemma {:induction false} TopUpOffers(r: Rows, clock: nat, a: Answers) returns (n: Minting)
    requires r.Valid() && Begin(r, clock, a).Go?
    ensures n == MintingOf(r, clock, a) && TopUp(r, clock, a) == OfferSteps(n, a)
    ensures n.m.Valid() && |n.m.oneTime| <= 5 * POOL
  {
    BeginIsSmall(r, clock, a);
    n := MintingOf(r, clock, a);
    MintIsBounded(Begin(r, clock, a).rows, Begin(r, clock, a).next, a.count);
  }

  /** The rows a call leaves are those specified, whatever is answered. */
  lemma {:induction false} CallEndsAsSpecified(b: Both, clock: nat, a: Answers, others: Others)
    requires b.rows.Valid()
    ensures CallEnds(b, clock, a, others).rows == TopUp(b.rows, clock, a).rows
  {
    if Begin(b.rows, clock, a).Go? {
      var n := TopUpOffers(b.rows, clock, a);
      OfferEndsGive(Meanwhile(b, others(0)).(rows := n.m), n, a, others, OfferSteps(n, a).rows);
    }
  }

  /** So whatever the others do around it, a call leaves everything the exchange serves, or may yet, answerable. */
  lemma {:induction false} CallKeepsAnswerable(b: Both, clock: nat, a: Answers, others: Others)
    requires BothInv(b) && HonestCall(b, clock, a, others) && NoneLeftBehind(b.rows)
    ensures BothInv(CallEnds(b, clock, a, others))
    ensures CallEnds(b, clock, a, others).rows == TopUp(b.rows, clock, a).rows
  {
    CallIsMoves(b, clock, a, others);
    ReachesKeepsInv(b, CallEnds(b, clock, a, others));
    CallEndsAsSpecified(b, clock, a, others);
  }

  /** Why the wipe must not overtake a publish: one still on its way then leaves the exchange serving what is gone. */
  lemma {:induction false} LatePublishIsUnanswerable(b: Both, batch: set<nat>)
    requires batch in b.onTheWay && batch != {} && Takes(b.exchange, batch)
    ensures var wiped := b.(rows := Wipe(b.rows));
      && Allowed(wiped, Arrive(batch))
      && !Answerable(Moved(wiped, Arrive(batch)).exchange, Moved(wiped, Arrive(batch)).rows)
  {
    var x :| x in batch;
    assert x in Published(b.exchange, batch).serving;
  }

  // ---- a refusal, and what it does -----------------------------------------

  /** As honest, with refusals: a batch refused is off the network, and nothing of it is served that was not before. */
  ghost predicate TruthfulReplies(b: Both, ids: seq<nat>, replies: seq<PublishReply>, others: Others, k: nat)
    decreases |ids|
  {
    ids == [] ||
    var b' := AfterSend(b, BatchOf(ids), others, k);
    match ReplyTo(replies)
    case PublishLost => true
    case PublishRefused => BatchOf(ids) !in b'.onTheWay && b'.exchange.serving * BatchOf(ids) <= b.exchange.serving
    case Took =>
      BatchOf(ids) <= b'.exchange.seen && TruthfulReplies(b', ids[FirstBatch(ids)..], replies[1..], others, k + 2)
  }

  /** A call the exchange does not turn away at the door, answered with the truth. */
  ghost predicate TruthfulCall(b: Both, clock: nat, a: Answers, others: Others)
    requires b.rows.Valid()
  {
    && LetIn(b.rows, a, others)
    && match Begin(b.rows, clock, a)
       case Stop(_) => true
       case Go(_, _) =>
         var n := MintingOf(b.rows, clock, a);
         TruthfulReplies(
           Meanwhile(b, others(0)).(rows := n.m), Ascending(n.m.unpublished), a.publish, others, 1)
  }

  /** Of new ids only those in `taken` are served, and only `sent` may yet be; all else is of `known`. */
  ghost predicate OnlyTaken(b: Both, known: set<nat>, taken: set<nat>, sent: set<nat>) {
    && b.exchange.Valid() && b.exchange.serving <= known + taken + sent
    && forall batch :: batch in b.onTheWay && Pending(b.exchange, batch) ==> batch == {} || batch == sent
  }

  lemma {:induction false} MeanwhileOnlyTaken(
      b: Both, moves: seq<Move>, known: set<nat>, taken: set<nat>, sent: set<nat>)
    requires OnlyTaken(b, known, taken, sent)
    ensures OnlyTaken(Meanwhile(b, moves), known, taken, sent)
    decreases |moves|
  {
    if moves != [] {
      var b1 := if ByOthers(moves[0]) && Allowed(b, moves[0]) then Moved(b, moves[0]) else b;
      MeanwhileOnlyTaken(b1, moves[1..], known, taken, sent);
    }
  }

  lemma {:induction false} SendOnlyTaken(
      b: Both, batch: set<nat>, others: Others, k: nat, known: set<nat>, taken: set<nat>)
    requires OnlyTaken(b, known, taken, {})
    ensures OnlyTaken(AfterSend(b, batch, others, k), known, taken, batch)
  {
    var b1 := Meanwhile(b, others(k));
    MeanwhileOnlyTaken(b, others(k), known, taken, {});
    var b2 := Moved(b1, Send(batch));
    assert b1.exchange.serving <= known + taken + batch;
    MeanwhileOnlyTaken(b2, others(k + 1), known, taken, batch);
  }

  /** Offering nothing but new ids is safe at every moment, whatever is answered. */
  lemma {:induction false} NewOfferIsSafe(
      b: Both, pool: Rows, ids: seq<nat>, minted: set<nat>, replies: seq<PublishReply>, others: Others, k: nat,
      known: set<nat>, taken: set<nat>)
    requires b.rows.oneTime == known + minted && b.rows.unpublished == minted && known !! minted && taken <= minted
    requires BothInv(b) && OnlyTaken(b, known, taken, {}) && Ahead(b, pool, taken)
    requires (forall i :: i in ids ==> i in minted) && TruthfulReplies(b, ids, replies, others, k)
    ensures AllSafe(OfferMoments(b, pool, ids, minted, replies, others, k))
    decreases |ids|
  {
    if ids == [] {
      SaveIsSafe(b, pool, taken);
    } else {
      var batch, b' := BatchOf(ids), AfterSend(b, BatchOf(ids), others, k);
      SendIsSafe(b, batch, others, k);
      SendOnlyTaken(b, batch, others, k, known, taken);
      var sent := SendMoments(b, batch, others, k);
      match ReplyTo(replies)
      case PublishLost =>
        SaveIsSafe(b', pool, taken);
        SafeJoin(sent, [b'.(rows := pool)]);
      case PublishRefused =>
        DiscardIsSafe(b', pool, batch, minted, known, taken);
        SafeOne(b'.(rows := Discarded(pool, minted)));
        SafeJoin(sent, [b'.(rows := Discarded(pool, minted))]);
      case Took =>
        var pool', left := pool.(unpublished := pool.unpublished - batch), ids[FirstBatch(ids)..];
        assert minted - taken - batch == minted - (taken + batch);
        NewOfferIsSafe(b', pool', left, minted, replies[1..], others, k + 2, known, taken + batch);
        SafeJoin(sent, OfferMoments(b', pool', left, minted, replies[1..], others, k + 2));
    }
  }

  lemma {:induction false} DiscardIsSafe(
      b: Both, pool: Rows, batch: set<nat>, minted: set<nat>, known: set<nat>, taken: set<nat>)
    requires b.rows.oneTime == known + minted && b.rows.unpublished == minted && known !! minted && taken <= minted
    requires OnlyTaken(b, known, taken, batch) && Ahead(b, pool, taken)
    requires batch !in b.onTheWay && b.exchange.serving * batch <= known + taken
    ensures BothInv(b.(rows := Discarded(pool, minted)))
  {
    var r := Discarded(pool, minted);
    assert r.oneTime == known + taken && r.unpublished == {};
  }

  /** The last moment of an offering is where it ends. */
  lemma {:induction false} LastMoment(
      b: Both, pool: Rows, ids: seq<nat>, all: set<nat>, replies: seq<PublishReply>, others: Others, k: nat)
    ensures var ms := OfferMoments(b, pool, ids, all, replies, others, k);
      ms != [] && ms[|ms| - 1] == OfferEnds(b, pool, ids, all, replies, others, k)
    decreases |ids|
  {
    if ids != [] && ReplyTo(replies) == Took {
      LastMoment(
        AfterSend(b, BatchOf(ids), others, k), pool.(unpublished := pool.unpublished - BatchOf(ids)),
        ids[FirstBatch(ids)..], all, replies[1..], others, k + 2);
    }
  }

  /** A safe offering, with the save before it and the fallback after it. */
  lemma {:induction false} OfferAllIsSafe(b: Both, n: Minting, a: Answers, others: Others)
    requires BothInv(b) && b.rows == n.m && AllSafe(Offering(b, n.m, a.publish, others))
    ensures AllSafe(OfferAllMoments(b, n, a, others))
  {
    var ids := Ascending(n.m.unpublished);
    var ms := Offering(b, n.m, a.publish, others);
    var b' := OfferEnds(b, n.m, ids, n.m.unpublished, a.publish, others, 1);
    SafeOne(b);
    SafeJoin([b], ms);
    if ids == [] {
      assert b' == b;
    } else {
      LastMoment(b, n.m, ids, n.m.unpublished, a.publish, others, 1);
      SafeEverywhere(ms, |ms| - 1);
    }
    MoveKeepsInv(b', SaveFallback(n.after));
    var last := if FallbackFollows(n, a.publish) then [OfferAllEnds(b, n, a, others)] else [];
    SafeOne(Moved(b', SaveFallback(n.after)));
    SafeJoin([b] + ms, last);
  }

  lemma {:induction false} MintIsSafe(b: Both, clock: nat, a: Answers, others: Others) returns (b0: Both, n: Minting)
    requires BothInv(b) && NoneLeftBehind(b.rows) && LetIn(b.rows, a, others) && Begin(b.rows, clock, a).Go?
    ensures b0 == Meanwhile(b, others(0)) && n == MintingOf(b.rows, clock, a) && BothInv(b0.(rows := n.m))
  {
    b0, n := Meanwhile(b, others(0)), MintingOf(b.rows, clock, a);
    MeanwhileReaches(b, others(0));
    var rows, ids := MintedAbove(b.rows, clock, a);
    if Wipes(b.rows, a) { WipeIsAllowed(b, a, others); }
    StartReaches(b, b0, Wipes(b.rows, a), rows, ids, n.m);
    ReachesKeepsInv(b, b0.(rows := n.m));
  }

  /** A call is safe where it wipes only what it may, and its offering is. */
  lemma {:induction false} CallIsSafeSo(b: Both, clock: nat, a: Answers, others: Others, offered: seq<Both>)
    requires BothInv(b) && NoneLeftBehind(b.rows) && LetIn(b.rows, a, others) && AllSafe(offered)
    requires offered == if Begin(b.rows, clock, a).Stop? then [] else
      OfferAllMoments(
        Meanwhile(b, others(0)).(rows := MintingOf(b.rows, clock, a).m), MintingOf(b.rows, clock, a), a, others)
    ensures AllSafe(CallMoments(b, clock, a, others))
  {
    var b0 := Meanwhile(b, others(0));
    var wiped := b0.(rows := Wipe(b.rows));
    MeanwhileReaches(b, others(0));
    ReachesKeepsInv(b, b0);
    SafeOne(b0);
    if Wipes(b.rows, a) {
      WipeIsAllowed(b, a, others);
      MoveKeepsInv(b0, WipeSaved);
      SafeOne(wiped);
      SafeJoin([b0], [wiped]);
      SafeJoin([b0] + [wiped], offered);
    } else {
      SafeJoin([b0] + [], offered);
    }
  }

  /**
   Against an exchange that refuses nothing and says nothing untrue, with others acting at any
   time, every moment of a call is safe, where the rows are not to go with something waiting in them.
   */
  lemma {:induction false} CallIsSafe(b: Both, clock: nat, a: Answers, others: Others)
    requires BothInv(b) && HonestCall(b, clock, a, others) && NoneLeftBehind(b.rows)
    ensures AllSafe(CallMoments(b, clock, a, others))
  {
    if Begin(b.rows, clock, a).Stop? {
      CallIsSafeSo(b, clock, a, others, []);
    } else {
      var b0, n := MintIsSafe(b, clock, a, others);
      var b1, ids := b0.(rows := n.m), Ascending(n.m.unpublished);
      assert n.m.unpublished - {} == n.m.unpublished;
      OfferIsSafe(b1, n.m, ids, n.m.unpublished, a.publish, others, 1, {});
      OfferAllIsSafe(b1, n, a, others);
      CallIsSafeSo(b, clock, a, others, OfferAllMoments(b1, n, a, others));
    }
  }

  /** With nothing waiting when it begins, a call is safe whatever is answered. */
  lemma {:induction false} NothingWaitingIsSafe(b: Both, clock: nat, a: Answers, others: Others)
    requires BothInv(b) && TruthfulCall(b, clock, a, others) && b.rows.unpublished == {}
    ensures AllSafe(CallMoments(b, clock, a, others))
  {
    if Begin(b.rows, clock, a).Stop? {
      CallIsSafeSo(b, clock, a, others, []);
    } else {
      var b0, n := MintIsSafe(b, clock, a, others);
      NewOfferAll(b, b0, clock, n, a, others);
      CallIsSafeSo(b, clock, a, others, OfferAllMoments(b0.(rows := n.m), n, a, others));
    }
  }

  lemma {:induction false} NewOfferAll(b: Both, b0: Both, clock: nat, n: Minting, a: Answers, others: Others)
    requires BothInv(b) && b.rows.unpublished == {} && Begin(b.rows, clock, a).Go?
    requires b0 == Meanwhile(b, others(0)) && n == MintingOf(b.rows, clock, a) && LetIn(b.rows, a, others)
    requires BothInv(b0.(rows := n.m))
    requires TruthfulReplies(b0.(rows := n.m), Ascending(n.m.unpublished), a.publish, others, 1)
    ensures AllSafe(OfferAllMoments(b0.(rows := n.m), n, a, others))
  {
    var rows, ids := MintedAbove(b.rows, clock, a);
    var b1 := b0.(rows := n.m);
    MeanwhileReaches(b, others(0));
    ReachesKeepsInv(b, b0);
    if Wipes(b.rows, a) { StaysEmpty(b, others(0)); }
    assert n.m.unpublished == ids && ids - {} == ids;
    assert OnlyTaken(b1, rows.oneTime, {}, {});
    NewOfferIsSafe(b1, n.m, Ascending(ids), ids, a.publish, others, 1, rows.oneTime, {});
    OfferAllIsSafe(b1, n, a, others);
  }

  /** What a safe call gives back: its wipe was safe, and so was where its offering ended. */
  lemma {:induction false} SafeCallGives(b: Both, clock: nat, a: Answers, others: Others)
    requires b.rows.Valid() && AllSafe(CallMoments(b, clock, a, others))
    ensures Wipes(b.rows, a) ==> BothInv(Meanwhile(b, others(0)).(rows := Wipe(b.rows)))
    ensures Begin(b.rows, clock, a).Go? ==>
      var n := MintingOf(b.rows, clock, a);
      AllSafe(OfferAllMoments(Meanwhile(b, others(0)).(rows := n.m), n, a, others))
  {
    var b0 := Meanwhile(b, others(0));
    var wiped := if a.count.CountRefused? || Wipes(b.rows, a) then [b0.(rows := Wipe(b.rows))] else [];
    var offered := match Begin(b.rows, clock, a)
      case Stop(_) => []
      case Go(_, _) =>
        var n := MintingOf(b.rows, clock, a);
        OfferAllMoments(b0.(rows := n.m), n, a, others);
    SafeJoin([b0] + wiped, offered);
    SafeJoin([b0], wiped);
    if Wipes(b.rows, a) { SafeOne(b0.(rows := Wipe(b.rows))); }
  }

  lemma {:induction false} SafeOfferGives(b: Both, n: Minting, a: Answers, others: Others)
    requires AllSafe(OfferAllMoments(b, n, a, others)) && Ascending(n.m.unpublished) != []
    ensures BothInv(OfferEnds(b, n.m, Ascending(n.m.unpublished), n.m.unpublished, a.publish, others, 1))
  {
    var ids := Ascending(n.m.unpublished);
    var ms := Offering(b, n.m, a.publish, others);
    SafeJoin([b] + ms, if FallbackFollows(n, a.publish) then [OfferAllEnds(b, n, a, others)] else []);
    SafeJoin([b], ms);
    LastMoment(b, n.m, ids, n.m.unpublished, a.publish, others, 1);
    SafeEverywhere(ms, |ms| - 1);
  }

  /** An exchange that took the first of what waits, unknown to the device, and refuses to take it again. */
  ghost function Unheard(r: Rows, first: nat): Both { Both(r, Exchange({first}, {}, {first}), {}) }

  ghost function Refusing(): Answers { Answers(CountLost, ClearFailed, ClearFailed, [PublishRefused], Took) }

  /** The refused batch leaves the network. */
  ghost function Dropping(batch: set<nat>): Others { k => if k == 2 then [Vanish(batch)] else [] }

  lemma {:induction false} AscendingRises(s: set<nat>)
    ensures forall i, j :: 0 <= i < j < |Ascending(s)| ==> Ascending(s)[i] < Ascending(s)[j]
    decreases |s|
  {
    if s != {} {
      var t := Top(s);
      AscendingRises(s - {t});
      var q := Ascending(s - {t});
      forall i, j | 0 <= i < j < |q| + 1 ensures (q + [t])[i] < (q + [t])[j] {
        assert q[i] in q;
      }
    }
  }

  /** What waited longest is offered first. */
  lemma {:induction false} WaitingComesFirst(waiting: set<nat>, next: nat, short: nat) returns (first: nat)
    requires waiting != {} && forall x :: x in waiting ==> x < next
    ensures first in waiting && first in BatchOf(Ascending(waiting + Range(next, short)))
  {
    var all := waiting + Range(next, short);
    var ids := Ascending(all);
    AscendingRises(all);
    first := ids[0];
    assert first in ids;
    var x :| x in waiting;
    assert x in ids;
    var i :| 0 <= i < |ids| && ids[i] == x;
    assert first <= x;
  }

  lemma {:induction false} SentAndDropped(b: Both, batch: set<nat>)
    requires b.onTheWay == {}
    ensures AfterSend(b, batch, Dropping(batch), 1) == b
  {
    var others := Dropping(batch);
    var b2 := Moved(b, Send(batch));
    assert others(1) == [] && others(2) == [Vanish(batch)];
    assert Meanwhile(b, []) == b;
    assert [Vanish(batch)][1..] == [];
    assert Moved(b2, Vanish(batch)).onTheWay == {};
    assert Meanwhile(b2, [Vanish(batch)]) == Moved(b2, Vanish(batch));
  }

  /** A first batch refused, and nothing else said. */
  lemma {:induction false} RefusedAtOnce(b: Both, n: Minting, ids: seq<nat>)
    requires b.rows == n.m && b.onTheWay == {} && ids == Ascending(n.m.unpublished) && ids != []
    ensures var others := Dropping(BatchOf(ids));
      && TruthfulReplies(b, ids, Refusing().publish, others, 1)
      && OfferEnds(b, n.m, ids, n.m.unpublished, Refusing().publish, others, 1)
         == b.(rows := Discarded(n.m, n.m.unpublished))
  {
    SentAndDropped(b, BatchOf(ids));
  }

  /** Every moment of the call is safe, with these answers and others around it, if they are the truth. */
  ghost predicate SafeUnder(r: Rows, clock: nat, b: Both, a: Answers, others: Others)
    requires r.Valid()
  {
    b.rows == r && BothInv(b) && TruthfulCall(b, clock, a, others) ==> AllSafe(CallMoments(b, clock, a, others))
  }

  /** ... and if nothing is refused either. */
  ghost predicate CrashSafeUnder(r: Rows, clock: nat, b: Both, a: Answers, others: Others)
    requires r.Valid()
  {
    b.rows == r && BothInv(b) && HonestCall(b, clock, a, others) ==> AllSafe(CallMoments(b, clock, a, others))
  }

  lemma {:induction false} WaitingCanBeLost(r: Rows, clock: nat)
    requires r.Valid() && r.unpublished != {} && |r.oneTime| <= RUNAWAY
    ensures exists b, a, others :: !SafeUnder(r, clock, b, a, others)
  {
    var a, next := Refusing(), NextId(r, clock);
    assert Begin(r, clock, a) == Go(r, next);
    var n := MintingOf(r, clock, a);
    assert forall x :: x in r.unpublished ==> x in r.Ids();
    var first := WaitingComesFirst(r.unpublished, next, Short(r, a.count));
    LostTo(r, clock, n, first);
  }

  lemma {:induction false} LostTo(r: Rows, clock: nat, n: Minting, first: nat)
    requires r.Valid() && |r.oneTime| <= RUNAWAY && first in r.unpublished
    requires Begin(r, clock, Refusing()).Go? && n == MintingOf(r, clock, Refusing())
    requires first in n.m.unpublished
    ensures !SafeUnder(r, clock, Unheard(r, first), Refusing(), Dropping(BatchOf(Ascending(n.m.unpublished))))
  {
    var ids := Ascending(n.m.unpublished);
    assert first in ids;
    var b, others := Unheard(r, first), Dropping(BatchOf(ids));
    RefusedCall(b, clock, n, ids);
    DiscardedIsGone(n.m, first);
    EndsBadly(b, clock, Refusing(), others, n, b.(rows := Discarded(n.m, n.m.unpublished)));
    ShowsUnsafe(r, clock, b, Refusing(), others);
  }

  lemma {:induction false} EndsBadly(b: Both, clock: nat, a: Answers, others: Others, n: Minting, end: Both)
    requires b.rows.Valid() && Begin(b.rows, clock, a).Go? && n == MintingOf(b.rows, clock, a)
    requires Meanwhile(b, others(0)) == b && Ascending(n.m.unpublished) != [] && !BothInv(end)
    requires end
      == OfferEnds(b.(rows := n.m), n.m, Ascending(n.m.unpublished), n.m.unpublished, a.publish, others, 1)
    ensures !AllSafe(CallMoments(b, clock, a, others))
  {
    if AllSafe(CallMoments(b, clock, a, others)) {
      SafeCallGives(b, clock, a, others);
      SafeOfferGives(b.(rows := n.m), n, a, others);
      assert false;
    }
  }

  lemma {:induction false} ShowsUnsafe(r: Rows, clock: nat, b: Both, a: Answers, others: Others)
    requires r.Valid() && b.rows == r && BothInv(b) && TruthfulCall(b, clock, a, others)
    requires !AllSafe(CallMoments(b, clock, a, others))
    ensures !SafeUnder(r, clock, b, a, others)
  {
  }

  lemma {:induction false} DiscardedIsGone(m: Rows, x: nat)
    requires x in m.unpublished
    ensures x !in Discarded(m, m.unpublished).oneTime
  {
  }

  lemma {:induction false} RefusedCall(b: Both, clock: nat, n: Minting, ids: seq<nat>)
    requires b.rows.Valid() && |b.rows.oneTime| <= RUNAWAY && b.onTheWay == {}
    requires Begin(b.rows, clock, Refusing()).Go?
    requires n == MintingOf(b.rows, clock, Refusing()) && ids == Ascending(n.m.unpublished) && ids != []
    ensures var others := Dropping(BatchOf(ids));
      && TruthfulCall(b, clock, Refusing(), others)
      && Meanwhile(b, others(0)) == b
      && OfferEnds(b.(rows := n.m), n.m, ids, n.m.unpublished, Refusing().publish, others, 1)
         == b.(rows := Discarded(n.m, n.m.unpublished))
  {
    assert Meanwhile(b, Dropping(BatchOf(ids))(0)) == b;
    RefusedAtOnce(b.(rows := n.m), n, ids);
  }

  /** The runaway call: `Clear` is done, and nothing else is ever answered. */
  ghost function ClearedOnly(): Answers { Answers(CountLost, Cleared(0), ClearFailed, [], Took) }

  ghost function ClearFirst(): Others { k => if k == 0 then [ClearArrives] else [] }

  /**
   Rows that ran away, with one of them still on its way: the exchange is cleared, the rows
   go, and the publish that then arrives is one nobody can answer.
   */
  lemma {:induction false} RunawayLosesWaiting(r: Rows, clock: nat, x: nat)
    requires r.Valid() && |r.oneTime| > RUNAWAY && x in r.unpublished
    ensures var b := Late(r, x);
      && BothInv(b) && HonestCall(b, clock, ClearedOnly(), ClearFirst())
      && !AllSafe(CallMoments(b, clock, ClearedOnly(), ClearFirst()))
      && var wiped := b.(rows := Wipe(r));
         Allowed(wiped, Arrive({x})) && !Answerable(Moved(wiped, Arrive({x})).exchange, Moved(wiped, Arrive({x})).rows)
  {
    var b, a, others := Late(r, x), ClearedOnly(), ClearFirst();
    LateBatch(r, x);
    assert ClearArrives in others(0);
    assert [ClearArrives][1..] == [];
    assert Meanwhile(b, [ClearArrives]) == b;
    SilentIsHonest(b, clock);
    if AllSafe(CallMoments(b, clock, a, others)) {
      SafeCallGives(b, clock, a, others);
      assert false;
    }
    LatePublishIsUnanswerable(b, {x});
  }

  lemma {:induction false} SilentIsHonest(b: Both, clock: nat)
    requires b.rows.Valid() && ClearArrives in ClearFirst()(0)
    ensures HonestCall(b, clock, ClearedOnly(), ClearFirst())
  {
  }

  /**
   Discarding what is refused, and wiping what ran away, are safe at every moment, whatever is
   answered in truth and whatever the others do, exactly where nothing was waiting when the call began.
   */
  lemma {:induction false} DiscardIsSafeExactly(r: Rows, clock: nat)
    requires r.Valid()
    ensures (forall b, a, others :: SafeUnder(r, clock, b, a, others)) <==> r.unpublished == {}
  {
    if r.unpublished == {} {
      forall b: Both, a, others ensures SafeUnder(r, clock, b, a, others) {
        if b.rows == r && BothInv(b) && TruthfulCall(b, clock, a, others) {
          NothingWaitingIsSafe(b, clock, a, others);
        }
      }
    } else if |r.oneTime| <= RUNAWAY {
      WaitingCanBeLost(r, clock);
    } else {
      var x :| x in r.unpublished;
      RunawayLosesWaiting(r, clock, x);
      HonestIsTruthful(Late(r, x), clock, ClearedOnly(), ClearFirst());
      assert !SafeUnder(r, clock, Late(r, x), ClearedOnly(), ClearFirst());
    }
  }

  lemma {:induction false} HonestIsTruthful(b: Both, clock: nat, a: Answers, others: Others)
    requires b.rows.Valid() && HonestCall(b, clock, a, others)
    ensures TruthfulCall(b, clock, a, others)
  {
    if Begin(b.rows, clock, a).Go? {
      var n := MintingOf(b.rows, clock, a);
      HonestRepliesAreTruthful(
        Meanwhile(b, others(0)).(rows := n.m), Ascending(n.m.unpublished), a.publish, others, 1);
    }
  }

  lemma {:induction false} HonestRepliesAreTruthful(
      b: Both, ids: seq<nat>, replies: seq<PublishReply>, others: Others, k: nat)
    requires HonestReplies(b, ids, replies, others, k)
    ensures TruthfulReplies(b, ids, replies, others, k)
    decreases |ids|
  {
    if ids != [] && ReplyTo(replies) == Took {
      HonestRepliesAreTruthful(
        AfterSend(b, BatchOf(ids), others, k), ids[FirstBatch(ids)..], replies[1..], others, k + 2);
    }
  }

  /**
   Without refusals, every moment a call may stop at is safe, whatever is said in truth and whatever
   the others do, exactly where the rows have not run away, or nothing was waiting in them.
   */
  lemma {:induction false} CrashSafeExactly(r: Rows, clock: nat)
    requires r.Valid()
    ensures (forall b, a, others :: CrashSafeUnder(r, clock, b, a, others)) <==> NoneLeftBehind(r)
  {
    if NoneLeftBehind(r) {
      forall b: Both, a, others ensures CrashSafeUnder(r, clock, b, a, others) {
        if b.rows == r && BothInv(b) && HonestCall(b, clock, a, others) { CallIsSafe(b, clock, a, others); }
      }
    } else {
      var x :| x in r.unpublished;
      RunawayLosesWaiting(r, clock, x);
      assert !CrashSafeUnder(r, clock, Late(r, x), ClearedOnly(), ClearFirst());
    }
  }

  /** What an honest exchange answers to one call that offers `batch` at once. */
  function HonestAnswers(x: Exchange, batch: set<nat>): Answers {
    Answers(Counted(|x.serving|), ClearFailed, ClearFailed, [if Takes(x, batch) then Took else PublishRefused], Took)
  }

  /** Rows between calls of a device that has published before: a fallback, nothing waiting, and little left. */
  ghost predicate Low(r: Rows, served: nat) {
    && r.Valid() && r.unpublished == {} && r.fallback.Some?
    && Have(r, Counted(served)) < LOW_WATER && |r.oneTime| <= RUNAWAY - POOL
  }

  lemma {:induction false} Begins(r: Rows, clock: nat, a: Answers)
    requires r.fallback.Some? && |r.oneTime| <= RUNAWAY && a.count.Counted?
    ensures Begin(r, clock, a) == Go(r, NextId(r, clock))
  {
  }

  /** A call whose ids all fit in one batch, and whose batch is not taken. */
  lemma {:induction false} OneBatch(m: Rows, reply: PublishReply)
    requires m.Valid() && 0 < |m.unpublished| <= MAX_PUBLISH && reply != Took
    ensures PublishAll(m, Ascending(m.unpublished), m.unpublished, [reply]) ==
      if reply == PublishRefused then Topped(m.(oneTime := m.oneTime - m.unpublished, unpublished := {}), Refused)
      else Topped(m, Failed)
  {
    assert m.unpublished * m.unpublished == m.unpublished;
    assert m.unpublished - m.unpublished == {};
  }

  lemma {:induction false} OfferNotTaken(r: Rows, next: nat, a: Answers, reply: PublishReply)
    requires r.Valid() && a.publish == [reply] && reply != Took
    requires forall i :: i in r.oneTime ==> i < next
    requires 0 < |r.unpublished| + Short(r, a.count) <= MAX_PUBLISH
    ensures var m := Minted(r, next, Short(r, a.count));
      Offer(r, next, a) ==
        if reply == PublishRefused then Topped(m.(oneTime := m.oneTime - m.unpublished, unpublished := {}), Refused)
        else Topped(m, Failed)
  {
    SizeAfterMint(r, next, Short(r, a.count));
    OneBatch(Minted(r, next, Short(r, a.count)), reply);
  }

  /** Discarding what was minted leaves what there was. */
  lemma {:induction false} DiscardUndoesMint(r: Rows, next: nat, short: nat)
    requires r.unpublished == {} && forall i :: i in r.oneTime ==> i < next
    ensures var m := Minted(r, next, short); m.(oneTime := m.oneTime - m.unpublished, unpublished := {}) == r
    ensures Minted(r, next, short).unpublished == Range(next, short)
  {
    var m := Minted(r, next, short);
    assert m.unpublished == Range(next, short);
    assert m.oneTime - m.unpublished == r.oneTime;
  }

  lemma {:induction false} LowMints(r: Rows, served: nat, clock: nat)
    requires Low(r, served)
    ensures POOL - LOW_WATER < Short(r, Counted(served)) <= POOL
    ensures forall i :: i in r.oneTime ==> i < NextId(r, clock)
  {
    assert forall i :: i in r.oneTime ==> i in r.Ids();
  }

  /** A call that mints ids the exchange has had is refused, and leaves the rows as it found them. */
  lemma {:induction false} RefusedForGood(r: Rows, x: Exchange, clock: nat)
    requires Low(r, |x.serving|) && NextId(r, clock) in x.seen
    ensures TopUp(r, clock, HonestAnswers(x, Range(NextId(r, clock), Short(r, Counted(|x.serving|)))))
         == Topped(r, Refused)
  {
    var next, short := NextId(r, clock), Short(r, Counted(|x.serving|));
    var h := HonestAnswers(x, Range(next, short));
    LowMints(r, |x.serving|, clock);
    assert next in Range(next, short);
    Begins(r, clock, h);
    OfferNotTaken(r, next, h, PublishRefused);
    DiscardUndoesMint(r, next, short);
  }

  /**
   A lost acknowledgement is not made good by offering again. The exchange took the
   batch; the next call offers the same ids, is refused for reusing them, and discards
   the secrets of prekeys the exchange is serving.
   */
  lemma {:induction false} LostAcknowledgement(r: Rows, x: Exchange, clock: nat, a: Answers)
    requires Low(r, |x.serving|) && a.count == Counted(|x.serving|) && a.publish == [PublishLost]
    requires Takes(x, Range(NextId(r, clock), Short(r, a.count)))
    ensures var next, short := NextId(r, clock), Short(r, a.count);
      var batch := Range(next, short);
      var x' := Published(x, batch);
      && TopUp(r, clock, a) == Topped(Minted(r, next, short), Failed)
      && TopUp(Minted(r, next, short), clock, HonestAnswers(x', batch)) == Topped(r, Refused)
      && next in x'.seen && !Answerable(x', r)
  {
    var next, short := NextId(r, clock), Short(r, a.count);
    LowMints(r, |x.serving|, clock);
    Begins(r, clock, a);
    OfferNotTaken(r, next, a, PublishLost);
    var x' := Published(x, Range(next, short));
    assert next in Range(next, short);
    OfferedAgain(r, next, short, x', clock);
    assert next in x'.serving && next !in r.oneTime;
  }

  /** The second call finds everything waiting, mints nothing more, and is refused. */
  lemma {:induction false} OfferedAgain(r: Rows, next: nat, short: nat, x: Exchange, clock: nat)
    requires r.Valid() && r.unpublished == {} && r.fallback.Some? && |r.oneTime| <= RUNAWAY - POOL
    requires LOW_WATER <= short <= POOL && (forall i :: i in r.oneTime ==> i < next) && next in x.seen
    ensures TopUp(Minted(r, next, short), clock, HonestAnswers(x, Range(next, short))) == Topped(r, Refused)
  {
    var m := Minted(r, next, short);
    var h := HonestAnswers(x, Range(next, short));
    SizeAfterMint(r, next, short);
    DiscardUndoesMint(r, next, short);
    assert next in Range(next, short);
    Begins(m, clock, h);
    assert forall i :: i in m.oneTime ==> i in m.Ids();
    OfferedAsTheyAre(m, NextId(m, clock), h);
  }

  /** Where enough is waiting, a refused call mints nothing and discards what waited. */
  lemma {:induction false} OfferedAsTheyAre(m: Rows, next: nat, a: Answers)
    requires m.Valid() && LOW_WATER <= |m.unpublished| <= MAX_PUBLISH && a.publish == [PublishRefused]
    requires forall i :: i in m.oneTime ==> i < next
    ensures Offer(m, next, a) == Topped(m.(oneTime := m.oneTime - m.unpublished, unpublished := {}), Refused)
  {
    assert Short(m, a.count) == 0;
    OfferNotTaken(m, next, a, PublishRefused);
    assert Minted(m, next, 0) == m;
  }

  /** An id that went without being marked spent is minted again after a reload exactly where no row is above it. */
  lemma {:induction false} ReloadedIdsComeBack(r: Rows, id: nat, clock: nat)
    requires r.Ids() != {} && id !in r.Ids()
    ensures NextId(r, clock) <= id <==> forall x :: x in r.Ids() ==> x < id
  {
  }
}
