/**
 The SIP-87 protocol around one device that joins an agreed channel: committers
 that publish envelopes before they post the entry explaining them, an exchange
 that orders the log, and a device that fetches and collects at any moment.

 The channel was made by `create_agreed_group`: its first commit admits nobody, and
 nobody is invited before that commit's entry is in the log. The log is not pruned.
 */
module WelcomeProtocol {
  import opened Wrappers
  import opened ChainAgreement
  import opened AgreedChannel
  import opened KeyCollection

  /** A log entry, as far as key agreement can see it. Its sequence number is its index. */
  type Log = seq<Option<Commit>>

  /** How far `create_agreed_group` has got; `firstAt` is where its first commit landed. */
  datatype Phase = Created | FirstPut(first: Commit) | Open(firstAt: nat)

  /** An envelope sealed to the device, and whether its sealer meant it as a `Welcome`. */
  datatype Sealed = Sealed(env: Envelope, welcome: bool)

  /** What the device is in the middle of: envelopes in hand, a page read, and whether it reached the end. */
  datatype Busy = Busy(inHand: seq<Sealed>, readTo: Option<nat>, settled: bool)

  const IDLE := Busy([], None, false)

  /** An envelope the device opened, the reading it opened it under, and the commits it had read by then. */
  datatype Opening = Opening(sealed: Sealed, reading: Reading, table: CommitTable)

  datatype World = World(
    phase: Phase,
    log: Log,
    epoch: Epoch,
    won: map<Epoch, Commit>,         // the commit whose envelopes the exchange took for each epoch
    member: bool,                    // the device's account may read the channel
    mail: seq<Sealed>,               // envelopes the exchange holds for the device
    store: Store,                    // the device's durable rows
    pool: Pool,
    since: nat,                      // the device's read cursor
    busy: Busy,
    openings: seq<Opening>)          // every envelope it ever opened

  ghost predicate Init(w: World) {
    && w.phase == Created && w.log == [] && w.epoch == 0 && w.won == map[] && !w.member
    && w.mail == [] && w.store == Store(None, map[], [], map[]) && w.since == 0
    && w.busy == IDLE && w.openings == []
  }

  // ---- what the others do ------------------------------------------------

  /** The creator's first commit: envelopes first, for nobody. */
  ghost predicate PutFirst(w: World, w': World) {
    && w.phase == Created && w'.phase.FirstPut?
    && w'.phase.first.epoch == 1 && w'.phase.first.adds == []
    && w' == w.(phase := w'.phase, epoch := 1, won := w.won[1 := w'.phase.first])
  }

  /** The creator's first commit reaches the log, and only now is the channel opened to anybody. */
  ghost predicate PostFirst(w: World, w': World) {
    && w.phase.FirstPut?
    && w' == w.(phase := Open(|w.log|), log := w.log + [Some(w.phase.first)])
  }

  ghost predicate SeatOrUnseat(w: World, w': World) {
    w.phase.Open? && w' == w.(member := !w.member)
  }

  /** Some member commits: the exchange takes its envelopes at the next epoch, perhaps one for the device. */
  ghost predicate PutEnvelopes(w: World, w': World, c: Commit, forDevice: Option<Envelope>, me: PubKey) {
    && w.phase.Open? && c.epoch == w.epoch + 1
    && (c.Admits(me) ==> w.member)
    && (forDevice.Some? ==> w.member && forDevice.value.toEpoch == c.epoch)
    && w' == w.(
         epoch := c.epoch,
         won := w.won[c.epoch := c],
         mail := if forDevice.None? then w.mail else w.mail + [Sealed(forDevice.value, c.Admits(me))])
  }

  /** The entry follows, if it follows at all: the exchange takes a post only at its current epoch. */
  ghost predicate PostCommit(w: World, w': World) {
    && w.phase.Open? && w.epoch in w.won
    && w' == w.(log := w.log + [Some(w.won[w.epoch])])
  }

  /** Anything else anybody says. */
  ghost predicate PostOther(w: World, w': World) {
    w' == w.(log := w.log + [None])
  }

  // ---- what the device does ----------------------------------------------

  /** `KeyGet`: whatever selection of its envelopes the exchange serves. */
  ghost predicate Collect(w: World, w': World) {
    && w.member && (forall s :: s in w'.busy.inHand ==> s in w.mail)
    && w' == w.(busy := w.busy.(inHand := w'.busy.inHand))
  }

  /** `collect_keys` asks where the log ends, and compares its cursor. */
  ghost predicate CompareCursor(w: World, w': World) {
    w.member && w' == w.(busy := w.busy.(settled := w.since >= |w.log|))
  }

  /** The commits of a page of the log, noted at their places. */
  function Note(t: CommitTable, log: Log, from: nat, to: nat): (t': CommitTable)
    requires from <= to <= |log|
    decreases (to)
  {
    if from == to then t
    else
      var t0 := Note(t, log, from, to - 1);
      match log[to - 1]
      case None => t0
      case Some(c) => PutCommit(t0, to - 1, c)
  }

  /** A fetch of a page from at or below the cursor, and `note_commits` over it. */
  ghost predicate Fetch(w: World, w': World, from: nat, to: nat) {
    && w.member && from <= w.since && from <= to <= |w.log|
    && w' == w.(
         store := w.store.(commits := Note(w.store.commits, w.log, from, to)),
         busy := w.busy.(readTo := Some(to), settled := to >= |w.log|))
  }

  /** `absorb_keys` over the envelopes in hand. */
  ghost predicate Absorb(w: World, w': World, me: PubKey) {
    var envs := Envelopes(w.busy.inHand);
    var h := AbsorbAll(Hand(w.store, w.pool), w.store.agreement, me, envs, w.busy.settled);
    && (w'.since == 0 || w'.since == w.since)
    && w' == w.(
        store := h.store, pool := h.pool, since := w'.since,
        busy := w.busy.(inHand := []),
        openings := w.openings + Openings(w.store, w.pool, w.store.agreement, me, w.busy.inHand, w.busy.settled))
  }

  /** `fold_entries` over the page read, and the cursor moved past it. */
  ghost predicate Fold(w: World, w': World) {
    && w.busy.readTo.Some?
    && (w'.since == w.busy.readTo.value || (w'.since == w.since && w.since > w.busy.readTo.value))
    && w' == w.(store := AdvanceAgreement(w.store), since := w'.since, busy := w.busy.(readTo := None))
  }

  /** The device stops, or a request of its fails: what it had in hand is gone. */
  ghost predicate Stop(w: World, w': World) { w' == w.(busy := IDLE) }

  function Envelopes(ss: seq<Sealed>): (es: seq<Envelope>)
    ensures |es| == |ss| && forall i :: 0 <= i < |ss| ==> es[i] == ss[i].env
  {
    seq(|ss|, i requires 0 <= i < |ss| => ss[i].env)
  }

  /** The envelopes `absorb_keys` spends a prekey on, in the order it does. */
  ghost function Openings(
      st: Store, p: Pool, held: Option<Chain>, me: PubKey, ss: seq<Sealed>, settled: bool): seq<Opening>
  {
    if ss == [] then []
    else
      var init := ss[..|ss| - 1];
      var h := AbsorbAll(Hand(st, p), held, me, Envelopes(init), settled);
      var s := ss[|ss| - 1];
      var reading := Classify(h.store, held, me, s.env, settled);
      Openings(st, p, held, me, init, settled)
      + (if reading.Leave? || TakeSecret(h.pool, s.env.prekeyId).None? then []
         else [Opening(s, reading, h.store.commits)])
  }

  ghost predicate Step(w: World, w': World, me: PubKey) {
    || PutFirst(w, w') || PostFirst(w, w') || SeatOrUnseat(w, w')
    || (exists c: Commit, forDevice: Option<Envelope> :: PutEnvelopes(w, w', c, forDevice, me))
    || PostCommit(w, w') || PostOther(w, w')
    || Collect(w, w') || CompareCursor(w, w') || (exists from: nat, to: nat :: Fetch(w, w', from, to))
    || Absorb(w, w', me) || Fold(w, w') || Stop(w, w')
  }

  // ---- what every step keeps ---------------------------------------------

  /** The commits in `log[..to]` have all been noted. */
  ghost predicate NotedTo(t: CommitTable, log: Log, to: nat) {
    to <= |log| && forall i :: 0 <= i < to && log[i].Some? ==> i < |t| && t[i] == log[i]
  }

  /** The device has noted nothing but what the log holds. */
  ghost predicate NotedOnly(t: CommitTable, log: Log) {
    forall i :: 0 <= i < |t| && t[i].Some? ==> i < |log| && t[i] == log[i]
  }

  /** The log holds only winning commits, and an envelope is a `Welcome` just where its commit admits the device. */
  ghost predicate HonestOthers(w: World, me: PubKey) {
    && (forall e :: e in w.won ==> 1 <= e <= w.epoch && w.won[e].epoch == e)
    && (forall i :: 0 <= i < |w.log| && w.log[i].Some? ==>
          w.log[i].value.epoch in w.won && w.won[w.log[i].value.epoch] == w.log[i].value)
    && (forall s :: s in w.mail ==> s.env.toEpoch in w.won && s.welcome == w.won[s.env.toEpoch].Admits(me))
    && (w.phase.Created? ==> w.epoch == 0)
    && (w.phase.FirstPut? ==> 1 in w.won && w.won[1] == w.phase.first)
  }

  /** Nobody outside the creator's own devices reaches the channel before its first commit is in the log. */
  ghost predicate FirstCommitFirst(w: World) {
    && (w.phase.Open? ==> w.phase.firstAt < |w.log| && w.log[w.phase.firstAt].Some?)
    && (!w.phase.Open? ==> !w.member && w.mail == [] && !w.busy.settled)
  }

  ghost predicate Reads(w: World) {
    && NotedTo(w.store.commits, w.log, w.since)
    && NotedOnly(w.store.commits, w.log)
    && (w.busy.readTo.Some? ==> NotedTo(w.store.commits, w.log, w.busy.readTo.value))
    && (w.busy.settled ==>
          w.phase.Open? && w.phase.firstAt < |w.store.commits| && w.store.commits[w.phase.firstAt].Some?)
    && (forall s :: s in w.busy.inHand ==> s in w.mail)
  }

  /** An envelope was opened with its own epoch's commit read, and for what its sealer meant it as. */
  ghost predicate RightlyOpened(o: Opening, w: World, me: PubKey) {
    && (exists i :: 0 <= i < |o.table| && i < |w.log| && o.table[i].Some? && o.table[i] == w.log[i]
                    && o.table[i].value.epoch == o.sealed.env.toEpoch)
    && (o.sealed.welcome ==> o.reading.AsWelcome? && o.reading.commit.epoch == o.sealed.env.toEpoch
                             && o.reading.commit.Admits(me))
    && (!o.sealed.welcome ==> o.reading.AsCommitSecret?)
  }

  ghost predicate Inv(w: World, me: PubKey) {
    && HonestOthers(w, me) && FirstCommitFirst(w) && Reads(w)
    && (forall o :: o in w.openings ==> RightlyOpened(o, w, me))
  }

  lemma {:induction false} NoteNotes(t: CommitTable, log: Log, from: nat, to: nat)
    requires from <= to <= |log| && NotedOnly(t, log)
    ensures NotedOnly(Note(t, log, from, to), log)
    ensures Extends(t, Note(t, log, from, to))
    ensures forall i :: (from <= i < to && log[i].Some? ==>
                           i < |Note(t, log, from, to)| && Note(t, log, from, to)[i] == log[i])
    decreases (to)
  {
    if from < to {
      NoteNotes(t, log, from, to - 1);
      var t0 := Note(t, log, from, to - 1);
      if log[to - 1].Some? {
        var t1 := PutCommit(t0, to - 1, log[to - 1].value);
        assert Extends(t0, t1);
        assert t1[to - 1] == log[to - 1];
      }
    }
  }

  lemma {:induction false} FetchKeepsReads(w: World, w': World, from: nat, to: nat, me: PubKey)
    requires Inv(w, me) && Fetch(w, w', from, to)
    ensures Reads(w')
  {
    NoteNotes(w.store.commits, w.log, from, to);
    var t, t' := w.store.commits, w'.store.commits;
    forall i | 0 <= i < to && w.log[i].Some?
      ensures i < |t'| && t'[i] == w.log[i]
    {
      if i < from { assert t[i] == w.log[i]; }
    }
    assert NotedTo(t', w.log, to);
    forall i | 0 <= i < w.since && w.log[i].Some?
      ensures i < |t'| && t'[i] == w.log[i]
    {
      assert t[i] == w.log[i];
    }
  }

  /** Whether settled or not, an envelope in hand is opened only rightly. */
  lemma {:induction false} OpenedRightly(w: World, me: PubKey, h: Hand, s: Sealed)
    requires Inv(w, me) && s in w.mail && h.store.commits == w.store.commits
    ensures var reading := Classify(h.store, w.store.agreement, me, s.env, w.busy.settled);
      !reading.Leave? ==> RightlyOpened(Opening(s, reading, h.store.commits), w, me)
  {
    var t := w.store.commits;
    var reading := Classify(h.store, w.store.agreement, me, s.env, w.busy.settled);
    var commits := CommitsAt(t, s.env.toEpoch);
    if w.busy.settled {
      assert t[w.phase.firstAt] == w.log[w.phase.firstAt];
      assert HighestCommit(t) > 0;
    }
    if !reading.Leave? {
      assert commits != [];
      assert commits[0] in commits;
      var i :| 0 <= i < |t| && t[i] == Some(commits[0]);
      assert t[i] == w.log[i];
      forall c | c in commits
        ensures c == w.won[s.env.toEpoch]
      {
        var j :| 0 <= j < |t| && t[j] == Some(c);
        assert t[j] == w.log[j];
      }
    }
  }

  lemma {:induction false} OpeningsRight(w: World, me: PubKey, ss: seq<Sealed>)
    requires Inv(w, me) && forall s :: s in ss ==> s in w.mail
    ensures forall o :: o in Openings(w.store, w.pool, w.store.agreement, me, ss, w.busy.settled) ==>
      RightlyOpened(o, w, me)
    decreases |ss|
  {
    if ss != [] {
      var init, s := ss[..|ss| - 1], ss[|ss| - 1];
      OpeningsRight(w, me, init);
      AbsorbLeavesCommits(Hand(w.store, w.pool), w.store.agreement, me, Envelopes(init), w.busy.settled);
      assert s in ss;
      OpenedRightly(w, me, AbsorbAll(Hand(w.store, w.pool), w.store.agreement, me, Envelopes(init), w.busy.settled), s);
    }
  }

  /** Appending to the log takes nothing away from an opening that was right. */
  lemma {:induction false} StillRight(o: Opening, w: World, w': World, me: PubKey)
    requires RightlyOpened(o, w, me) && w.log <= w'.log
    ensures RightlyOpened(o, w', me)
  {
    var i :| 0 <= i < |o.table| && i < |w.log| && o.table[i].Some? && o.table[i] == w.log[i]
             && o.table[i].value.epoch == o.sealed.env.toEpoch;
    assert w'.log[i] == w.log[i];
  }

  lemma {:induction false} OpeningsStay(w: World, w': World, me: PubKey)
    requires (forall o :: o in w.openings ==> RightlyOpened(o, w, me)) && w.log <= w'.log && w'.openings == w.openings
    ensures forall o :: o in w'.openings ==> RightlyOpened(o, w', me)
  {
    forall o | o in w'.openings ensures RightlyOpened(o, w', me) { StillRight(o, w, w', me); }
  }

  lemma {:induction false} OthersKeepInv(w: World, w': World, me: PubKey)
    requires Inv(w, me)
    requires PutFirst(w, w') || PostFirst(w, w') || SeatOrUnseat(w, w') || PostCommit(w, w') || PostOther(w, w')
    ensures Inv(w', me)
  {
    OpeningsStay(w, w', me);
  }

  lemma {:induction false} PutKeepsInv(w: World, w': World, c: Commit, forDevice: Option<Envelope>, me: PubKey)
    requires Inv(w, me) && PutEnvelopes(w, w', c, forDevice, me)
    ensures Inv(w', me)
  {
    OpeningsStay(w, w', me);
  }

  lemma {:induction false} DeviceKeepsInv(w: World, w': World, me: PubKey)
    requires Inv(w, me)
    requires Collect(w, w') || CompareCursor(w, w') || Fold(w, w') || Stop(w, w')
    ensures Inv(w', me)
  {
    OpeningsStay(w, w', me);
  }

  lemma {:induction false} FetchKeepsInv(w: World, w': World, from: nat, to: nat, me: PubKey)
    requires Inv(w, me) && Fetch(w, w', from, to)
    ensures Inv(w', me)
  {
    FetchKeepsReads(w, w', from, to, me);
    OpeningsStay(w, w', me);
  }

  lemma {:induction false} AbsorbKeepsInv(w: World, w': World, me: PubKey)
    requires Inv(w, me) && Absorb(w, w', me)
    ensures Inv(w', me)
  {
    OpeningsRight(w, me, w.busy.inHand);
    AbsorbLeavesCommits(Hand(w.store, w.pool), w.store.agreement, me, Envelopes(w.busy.inHand), w.busy.settled);
    forall o | o in w'.openings ensures RightlyOpened(o, w', me) {
      StillRight(o, w, w', me);
    }
  }

  lemma {:induction false} StepKeepsInv(w: World, w': World, me: PubKey)
    requires Inv(w, me) && Step(w, w', me)
    ensures Inv(w', me)
  {
    if PutFirst(w, w') || PostFirst(w, w') || SeatOrUnseat(w, w') || PostCommit(w, w') || PostOther(w, w') {
      OthersKeepInv(w, w', me);
    } else if Collect(w, w') || CompareCursor(w, w') || Fold(w, w') || Stop(w, w') {
      DeviceKeepsInv(w, w', me);
    } else if exists from: nat, to: nat :: Fetch(w, w', from, to) {
      var from: nat, to: nat :| Fetch(w, w', from, to);
      FetchKeepsInv(w, w', from, to, me);
    } else if Absorb(w, w', me) {
      AbsorbKeepsInv(w, w', me);
    } else {
      var c, forDevice :| PutEnvelopes(w, w', c, forDevice, me);
      PutKeepsInv(w, w', c, forDevice, me);
    }
  }

  ghost predicate IsRun(run: seq<World>, me: PubKey) {
    run != [] && Init(run[0]) && forall i :: 0 <= i < |run| - 1 ==> Step(run[i], run[i + 1], me)
  }

  lemma {:induction false} RunTakesStep(w: World, w': World, run: seq<World>, me: PubKey, n: nat)
    requires IsRun(run, me) && 0 < n < |run| && w == run[n - 1] && w' == run[n]
    ensures Step(w, w', me)
  {
    assert Step(run[n - 1], run[n - 1 + 1], me);
  }

  lemma {:induction false} NextKeepsInv(w: World, w': World, run: seq<World>, me: PubKey, n: nat)
    requires IsRun(run, me) && 0 < n < |run| && w == run[n - 1] && w' == run[n] && Inv(w, me)
    ensures Inv(w', me)
  {
    RunTakesStep(w, w', run, me, n);
    StepKeepsInv(w, w', me);
  }

  lemma {:induction false} FirstHasInv(w: World, me: PubKey)
    requires Init(w)
    ensures Inv(w, me)
  {
  }

  lemma {:induction false} RunsKeepInv(run: seq<World>, me: PubKey, n: nat)
    requires IsRun(run, me) && n < |run|
    ensures Inv(run[n], me)
    decreases n
  {
    if n == 0 {
      FirstHasInv(run[0], me);
    } else {
      RunsKeepInv(run, me, n - 1);
      NextKeepsInv(run[n - 1], run[n], run, me, n);
    }
  }

  /**
   Over every interleaving, every envelope the device ever opened was opened with
   its own epoch's commit read, a `Welcome` as a `Welcome`, a commit secret as a
   commit secret, and none as an admin-minted key.
   */
  lemma {:induction false} NothingIsMisread(run: seq<World>, me: PubKey, n: nat, o: Opening)
    requires IsRun(run, me) && n < |run| && o in run[n].openings
    ensures exists i :: 0 <= i < |o.table| && o.table[i].Some? && o.table[i].value.epoch == o.sealed.env.toEpoch
    ensures o.sealed.welcome <==> o.reading.AsWelcome?
    ensures !o.sealed.welcome <==> o.reading.AsCommitSecret?
    ensures !o.reading.AsAdminKey?
  {
    RunsKeepInv(run, me, n);
    assert RightlyOpened(o, run[n], me);
  }

  /**
   What the first, empty commit is for. Where a `Welcome` is published for the
   channel's first epoch, a device that has read the whole log, with no commit in
   it yet, takes the `Welcome` for an admin-minted key.
   */
  lemma {:induction false} WelcomeAtFirstEpochIsMisread(me: PubKey, env: Envelope)
    requires env.toEpoch == 1
    ensures Classify(Store(None, map[], [], map[]), None, me, env, true) == AsAdminKey
  {
  }

  // ---- an admitted device can join ----------------------------------------------

  /** An envelope as `commit` seals a `Welcome`: the chain, the past keys chosen, and the current one. */
  function WelcomeEnvelope(c: Commit, after: Chain, past: seq<Bytes32>, id: nat): Envelope
    requires |past| < c.epoch
  {
    var s := WelcomeSlots(c, after.chain, KeyFor(after), past);
    Envelope(s.fromEpoch, c.epoch, id, true, Some(s.values))
  }

  lemma {:induction false} OnlyWinnerIsNoted(w: World, me: PubKey, t: CommitTable, c: Commit)
    requires Inv(w, me) && NotedOnly(t, w.log) && c.epoch in w.won && w.won[c.epoch] == c
    ensures forall d :: d in CommitsAt(t, c.epoch) ==> d == c
  {
    forall d | d in CommitsAt(t, c.epoch) ensures d == c {
      var i :| 0 <= i < |t| && t[i] == Some(d);
      assert i < |w.log| && w.log[i] == Some(d);
    }
  }

  /**
   Nothing but others stops a device that is admitted: from any state in which it has no chain and is idle, the
   commit's envelopes and its entry, a collection, a fetch and the opening bring it to the chain the commit made,
   and the fold to the end of the log.
   */
  lemma {:induction false} CanJoin(w: World, me: PubKey, c: Commit, after: Chain, past: seq<Bytes32>, id: nat)
      returns (w1: World, w2: World, w3: World, w4: World, w5: World, w6: World)
    requires Inv(w, me) && w.phase.Open? && w.member && w.busy == IDLE && w.store.agreement.None?
    requires c.epoch == w.epoch + 1 && c.Admits(me) && Welcomed(c, after.chain) == after && |past| < c.epoch
    requires TakeSecret(w.pool, id).Some?
    ensures Step(w, w1, me) && Step(w1, w2, me) && Step(w2, w3, me) && Step(w3, w4, me) && Step(w4, w5, me)
    ensures w5.store.agreement == Some(after) && c.epoch in w5.store.keys
    ensures Step(w5, w6, me) && w6.since == |w6.log| && w6.busy == IDLE.(settled := true)
    ensures w6.store == AdvanceAgreement(w5.store)
  {
    var env := WelcomeEnvelope(c, after, past, id);
    var sealed := Sealed(env, true);
    w1 := w.(epoch := c.epoch, won := w.won[c.epoch := c], mail := w.mail + [sealed]);
    assert PutEnvelopes(w, w1, c, Some(env), me);
    w2 := w1.(log := w1.log + [Some(c)]);
    assert PostCommit(w1, w2);
    w3 := w2.(busy := w2.busy.(inHand := [sealed]));
    assert Collect(w2, w3);
    var to := |w3.log|;
    var t := Note(w3.store.commits, w3.log, 0, to);
    w4 := w3.(store := w3.store.(commits := t), busy := w3.busy.(readTo := Some(to), settled := true));
    assert Fetch(w3, w4, 0, to);
    StepKeepsInv(w, w1, me);
    StepKeepsInv(w1, w2, me);
    StepKeepsInv(w2, w3, me);
    StepKeepsInv(w3, w4, me);
    w5 := JoinsByAbsorbing(w4, me, c, after, past, id);
    w6 := w5.(store := AdvanceAgreement(w5.store), since := to, busy := w5.busy.(readTo := None));
    assert Fold(w5, w6);
  }

  lemma {:induction false} ReadAsWelcome(w: World, me: PubKey, c: Commit, env: Envelope)
    requires Inv(w, me) && c.epoch in w.won && w.won[c.epoch] == c && Some(c) in w.store.commits
    requires c.epoch == env.toEpoch > 0 && c.Admits(me)
    ensures Classify(w.store, None, me, env, w.busy.settled) == AsWelcome(c)
  {
    WelcomeIsTaken(w.store, me, env, w.busy.settled, c);
    OnlyWinnerIsNoted(w, me, w.store.commits, c);
  }

  lemma {:induction false} WelcomeOpens(
      h: Hand, me: PubKey, c: Commit, after: Chain, past: seq<Bytes32>, env: Envelope, settled: bool)
    requires |past| < c.epoch && Welcomed(c, after.chain) == after
    requires env == WelcomeEnvelope(c, after, past, env.prekeyId)
    requires Classify(h.store, None, me, env, settled) == AsWelcome(c) && TakeSecret(h.pool, env.prekeyId).Some?
    ensures var st := AbsorbOne(h, None, me, env, settled).store;
      st.agreement == Some(after) && c.epoch in st.keys
  {
    WelcomeRoundTrip(c, after, past);
    PutKeysHold(h.store.keys, c.epoch - |past|, past + [KeyFor(after)]);
  }

  lemma {:induction false} AbsorbIsAStep(w: World, me: PubKey, s: Sealed, h: Hand) returns (w': World)
    requires w.busy.inHand == [s] && w.store.agreement.None?
    requires h == AbsorbOne(Hand(w.store, w.pool), None, me, s.env, w.busy.settled)
    ensures Step(w, w', me) && w'.store == h.store && w'.log == w.log && w'.busy == w.busy.(inHand := [])
  {
    var envs := Envelopes(w.busy.inHand);
    assert envs == [s.env] && envs[..0] == [];
    assert AbsorbAll(Hand(w.store, w.pool), None, me, envs[..0], w.busy.settled) == Hand(w.store, w.pool);
    assert h == AbsorbAll(Hand(w.store, w.pool), None, me, envs, w.busy.settled);
    w' := w.(store := h.store, pool := h.pool, busy := w.busy.(inHand := []),
             openings := w.openings + Openings(w.store, w.pool, None, me, w.busy.inHand, w.busy.settled));
    assert Absorb(w, w', me);
  }

  lemma {:induction false} JoinsByAbsorbing(
      w: World, me: PubKey, c: Commit, after: Chain, past: seq<Bytes32>, id: nat) returns (w': World)
    requires Inv(w, me) && w.store.agreement.None? && TakeSecret(w.pool, id).Some?
    requires c.epoch > 0 && c.Admits(me) && Welcomed(c, after.chain) == after && |past| < c.epoch
    requires c.epoch in w.won && w.won[c.epoch] == c && Some(c) in w.store.commits
    requires w.busy.inHand == [Sealed(WelcomeEnvelope(c, after, past, id), true)]
    ensures Step(w, w', me) && w'.store.agreement == Some(after) && c.epoch in w'.store.keys
    ensures w'.log == w.log && w'.busy == w.busy.(inHand := [])
  {
    var env, h := WelcomeEnvelope(c, after, past, id), Hand(w.store, w.pool);
    ReadAsWelcome(w, me, c, env);
    WelcomeOpens(h, me, c, after, past, env, w.busy.settled);
    w' := AbsorbIsAStep(w, me, Sealed(env, true), AbsorbOne(h, None, me, env, w.busy.settled));
  }
}
