/**
 Collecting channel keys on one device: telling a `Welcome`, a commit secret and
 an admin-minted key apart before an envelope is opened, opening it, and keeping
 what it held. Opening spends the SIP-23 prekey, so none of it can be done twice.
 */
module KeyCollection {
  import opened Wrappers
  import opened ChainAgreement
  import opened AgreedChannel
  import PrekeyPool
  import PrekeyExchange

  /** An envelope as served: its range, its prekey, and what checking and opening it would say. */
  datatype Envelope = Envelope(
    fromEpoch: Epoch,
    toEpoch: Epoch,
    prekeyId: nat,
    attested: bool,
    slots: Option<seq<Bytes32>>)

  /** The prekey pool, as loaded from its rows. */
  type Pool = PrekeyPool.Rows

  /** `Pool::take`: a one-time secret goes as it is used; a spent or unknown id is refused. */
  function TakeSecret(p: Pool, id: nat): Option<Pool> {
    if id == 0 || id in p.spent then None
    else if id in p.oneTime then Some(PrekeyPool.SpendIds(p, {id}))
    else if p.fallback == Some(id) then Some(p)
    else None
  }

  /** `commits_at`, in log order. */
  function CommitsAt(t: CommitTable, epoch: Epoch): (cs: seq<Commit>)
    ensures forall c :: c in cs <==> Some(c) in t && c.epoch == epoch
  {
    if t == [] then []
    else
      var init := CommitsAt(t[..|t| - 1], epoch);
      var row := t[|t| - 1];
      assert t == t[..|t| - 1] + [row];
      if row.Some? && row.value.epoch == epoch then init + [row.value] else init
  }

  function FirstAdmitting(cs: seq<Commit>, me: PubKey): (r: Option<Commit>)
    ensures r.Some? ==> r.value in cs && r.value.Admits(me)
    ensures r.None? ==> forall c :: c in cs ==> !c.Admits(me)
  {
    if cs == [] then None
    else if cs[0].Admits(me) then Some(cs[0])
    else FirstAdmitting(cs[1..], me)
  }

  /** What the log says an envelope is, decided before it is opened. */
  datatype Reading = Leave | AsWelcome(commit: Commit) | AsCommitSecret | AsAdminKey

  function Classify(st: Store, held: Option<Chain>, me: PubKey, env: Envelope, settled: bool): Reading {
    var commits := CommitsAt(st.commits, env.toEpoch);
    var welcome := FirstAdmitting(commits, me);
    var agreed := held.Some? || HighestCommit(st.commits) > 0;
    if agreed && commits == [] then Leave
    else if !agreed && !settled then Leave
    else if welcome.Some? then
      if held.Some? && held.value.epoch >= welcome.value.epoch then Leave else AsWelcome(welcome.value)
    else if commits != [] then
      if env.toEpoch in st.keys then Leave else AsCommitSecret
    else
      if env.fromEpoch in st.keys then Leave else AsAdminKey
  }

  /** What an opened envelope adds to the store under the reading it was given. */
  function Keep(st: Store, env: Envelope, reading: Reading, slots: seq<Bytes32>): Store {
    match reading
    case Leave => st
    case AsWelcome(commit) => KeepWelcome(st, ReadWelcome(commit, Slots(env.fromEpoch, slots)))
    case AsCommitSecret =>
      if slots == [] then st
      else AdvanceAgreement(st.(secrets := PutSecret(st.secrets, env.toEpoch, slots[0])))
    case AsAdminKey => st.(keys := PutKeys(st.keys, env.fromEpoch, slots))
  }

  function KeepWelcome(st: Store, r: Result<WelcomeRead, Refused>): Store {
    match r
    case Err(_) => st
    case Ok(w) => st.(agreement := Some(w.chain), keys := PutKeys(st.keys, w.firstEpoch, w.keys))
  }

  /** A device's rows for the channel, and its prekey pool as held in memory. */
  datatype Hand = Hand(store: Store, pool: Pool)

  /** One envelope of `absorb_keys`. The prekey is spent even where the envelope then fails a check. */
  function AbsorbOne(h: Hand, held: Option<Chain>, me: PubKey, env: Envelope, settled: bool): Hand {
    var reading := Classify(h.store, held, me, env, settled);
    var taken := TakeSecret(h.pool, env.prekeyId);
    if reading.Leave? || taken.None? then h
    else if !env.attested || env.slots.None? then h.(pool := taken.value)
    else Hand(Keep(h.store, env, reading, env.slots.value), taken.value)
  }

  function AbsorbAll(h: Hand, held: Option<Chain>, me: PubKey, envs: seq<Envelope>, settled: bool): Hand {
    if envs == [] then h
    else AbsorbOne(AbsorbAll(h, held, me, envs[..|envs| - 1], settled), held, me, envs[|envs| - 1], settled)
  }

  /** Collecting never touches the commits read. */
  lemma {:induction false} AbsorbLeavesCommits(
      h: Hand, held: Option<Chain>, me: PubKey, envs: seq<Envelope>, settled: bool)
    ensures AbsorbAll(h, held, me, envs, settled).store.commits == h.store.commits
    decreases |envs|
  {
    if envs != [] { AbsorbLeavesCommits(h, held, me, envs[..|envs| - 1], settled); }
  }

  /** What `put_key` over a range leaves: the keys held, and each new one where none was. */
  ghost predicate KeysPut(keys: map<Epoch, Bytes32>, first: Epoch, ks: seq<Bytes32>, keys': map<Epoch, Bytes32>) {
    && (forall e :: e in keys ==> e in keys' && keys'[e] == keys[e])
    && (forall e :: e in keys' && e !in keys ==> first <= e < first + |ks| && keys'[e] == ks[e - first])
    && (forall e :: first <= e < first + |ks| ==> e in keys')
  }

  lemma {:induction false} PutKeysHold(keys: map<Epoch, Bytes32>, first: Epoch, ks: seq<Bytes32>)
    ensures KeysPut(keys, first, ks, PutKeys(keys, first, ks))
    decreases |ks|
  {
    if ks != [] {
      PutKeysHold(PutKey(keys, first, ks[0]), first + 1, ks[1..]);
    }
  }

  /** The chain stands at or past the epoch already. */
  predicate Passed(st: Store, e: Epoch) { st.agreement.Some? && st.agreement.value.epoch >= e }

  /** A commit secret is put to use: it waits at its epoch, or the chain is derived with it. */
  ghost predicate PutToUse(st: Store, e: Epoch, x: Bytes32, st': Store) {
    !Passed(st, e) && st' == AdvanceAgreement(st.(secrets := st.secrets[e := x]))
  }

  /** The slot the store has for it is free, or holds the same. */
  predicate Vacant(st: Store, e: Epoch, x: Bytes32) { e !in st.secrets || st.secrets[e] == x }

  /** With two secrets for an epoch ahead, a device ends in two places. */
  lemma {:induction false} SecretsShow(st: Store, e: Epoch, x: Bytes32, y: Bytes32)
    requires !Passed(st, e) && x != y
    ensures AdvanceAgreement(st.(secrets := st.secrets[e := x])) != AdvanceAgreement(st.(secrets := st.secrets[e := y]))
  {
    var sx, sy := st.secrets[e := x], st.secrets[e := y];
    if st.agreement.Some? {
      var p := Progress(st.agreement.value, st.keys);
      var rx, ry := CatchUp(p, st.commits, sx), CatchUp(p, st.commits, sy);
      if rx.chain.epoch == ry.chain.epoch {
        if rx.chain.epoch >= e {
          ChainRecords(p, st.commits, sx, e);
          ChainRecords(p, st.commits, sy, e);
        } else {
          assert Above(sx, rx.chain.epoch)[e] == x && Above(sy, ry.chain.epoch)[e] == y;
        }
      }
    } else {
      assert sx[e] == x && sy[e] == y;
    }
  }

  /** A commit secret opened is put to use exactly where its slot is vacant and its epoch not yet reached. */
  lemma {:induction false} SecretIsUsedExactly(st: Store, env: Envelope, slots: seq<Bytes32>)
    requires slots != []
    ensures PutToUse(st, env.toEpoch, slots[0], Keep(st, env, AsCommitSecret, slots)) <==>
      Vacant(st, env.toEpoch, slots[0]) && !Passed(st, env.toEpoch)
  {
    var e, x := env.toEpoch, slots[0];
    if e in st.secrets {
      assert st.secrets == st.secrets[e := st.secrets[e]];
      if st.secrets[e] != x && !Passed(st, e) { SecretsShow(st, e, x, st.secrets[e]); }
    }
  }

  /**
   What an opened envelope's content does to the store. No key held is replaced. A `Welcome`
   that reads gives its chain, and its keys where none is held; so do admin-minted keys. A
   commit secret is put to use if and only if no other is held for its epoch and the chain is below it.
   */
  lemma {:induction false} KeepKeeps(st: Store, env: Envelope, reading: Reading, slots: seq<Bytes32>)
    ensures var st' := Keep(st, env, reading, slots);
      && (forall e :: e in st.keys ==> e in st'.keys && st'.keys[e] == st.keys[e])
      && (reading.AsWelcome? ==>
            match ReadWelcome(reading.commit, Slots(env.fromEpoch, slots))
            case Err(_) => st' == st
            case Ok(w) => st'.agreement == Some(w.chain) && KeysPut(st.keys, w.firstEpoch, w.keys, st'.keys))
      && (reading.AsCommitSecret? && slots != [] ==>
            (PutToUse(st, env.toEpoch, slots[0], st') <==>
               Vacant(st, env.toEpoch, slots[0]) && !Passed(st, env.toEpoch)))
      && (reading.AsAdminKey? ==> KeysPut(st.keys, env.fromEpoch, slots, st'.keys))
  {
    match reading
    case Leave =>
    case AsWelcome(c) =>
      var r := ReadWelcome(c, Slots(env.fromEpoch, slots));
      if r.Ok? { PutKeysHold(st.keys, r.value.firstEpoch, r.value.keys); }
    case AsCommitSecret =>
      if slots != [] {
        SecretIsUsedExactly(st, env, slots);
        DerivingKeepsKeys(st.(secrets := PutSecret(st.secrets, env.toEpoch, slots[0])));
      }
    case AsAdminKey => PutKeysHold(st.keys, env.fromEpoch, slots);
  }

  lemma {:induction false} DerivingKeepsKeys(st: Store)
    ensures var st' := AdvanceAgreement(st); forall e :: e in st.keys ==> e in st'.keys && st'.keys[e] == st.keys[e]
  {
    if st.agreement.Some? { CatchUpIsLongestRun(Progress(st.agreement.value, st.keys), st.commits, st.secrets); }
  }

  /**
   A second secret for an epoch is opened and lost: its prekey is spent, and the store is
   left as if it had never come.
   */
  lemma {:induction false} SecondSecretIsLost(h: Hand, me: PubKey, env: Envelope, settled: bool, x: Bytes32)
    requires Classify(h.store, h.store.agreement, me, env, settled) == AsCommitSecret
    requires env.attested && env.slots == Some([x])
    requires env.prekeyId != 0 && env.prekeyId in h.pool.oneTime && env.prekeyId !in h.pool.spent
    requires env.toEpoch in h.store.secrets && h.store.secrets[env.toEpoch] != x
    ensures var h' := AbsorbOne(h, h.store.agreement, me, env, settled);
      && h'.store == AdvanceAgreement(h.store) && env.prekeyId in h'.pool.spent && env.prekeyId !in h'.pool.oneTime
      && !PutToUse(h.store, env.toEpoch, x, h'.store)
  {
    SecretIsUsedExactly(h.store, env, [x]);
  }

  /** Where the secret held is the wrong one, the right one is lost so, and the chain that it would have moved stays. */
  lemma {:induction false} WrongSecretBlocks(c: Chain, k: Commit, env: Envelope, wrong: Bytes32, right: Bytes32)
    requires Advance(c, k, right).Ok? && wrong != right && env.toEpoch == c.epoch + 1
    ensures var held := Store(Some(c), map[], [Some(k)], map[env.toEpoch := wrong]);
      && Keep(held, env, AsCommitSecret, [right]) == held
      && Keep(held.(secrets := map[]), env, AsCommitSecret, [right]).agreement == Some(Advance(c, k, right).value.chain)
  {
    var e, t := env.toEpoch, [Some(k)];
    assert FirstFit(t, 0, c, wrong) == FirstFit(t, 1, c, wrong) == None;
    var free: Secrets := map[];
    assert PutSecret(free, e, right) == map[e := right];
    var d := Advance(c, k, right).value;
    assert FirstFit(t, 0, c, right) == Some(d);
    var none: map<Epoch, Bytes32> := map[];
    var p, q, s := Progress(c, none), Progress(d.chain, PutKey(none, e, d.key)), map[e := right];
    assert Next(p, t, s) == Some(q) && Next(q, t, s) == None;
    assert CatchUp(q, t, s) == q;
    assert CatchUp(p, t, s) == q;
    var held := map[e := wrong];
    assert Above(held, c.epoch) == held;
  }

  // ---- stopped between two writes ---------------------------------------------

  /**
   A `Welcome`'s chain is written first, and then its keys one by one. Stopped after `j` of
   them, the device leaves the envelope from then on, and never derives the key of the epoch
   it was admitted at; it ends where it would have exactly where it held the keys that are missing already.
   */
  lemma {:induction false} WelcomeStoppedHalfway(
      st: Store, me: PubKey, env: Envelope, settled: bool, held: Option<Chain>, commit: Commit, w: WelcomeRead, j: nat)
    requires Classify(st, held, me, env, settled) == AsWelcome(commit) && env.toEpoch == commit.epoch
    requires env.slots.Some? && ReadWelcome(commit, Slots(env.fromEpoch, env.slots.value)) == Ok(w) && j <= |w.keys|
    ensures var st1 := st.(agreement := Some(w.chain), keys := PutKeys(st.keys, w.firstEpoch, w.keys[..j]));
      && Classify(st1, st1.agreement, me, env, settled) == Leave
      && (j < |w.keys| && commit.epoch !in st.keys ==> commit.epoch !in AdvanceAgreement(st1).keys)
      && (st1 == Keep(st, env, AsWelcome(commit), env.slots.value) <==>
            forall e :: w.firstEpoch + j <= e <= w.chain.epoch ==> e in st.keys)
  {
    var keys1 := PutKeys(st.keys, w.firstEpoch, w.keys[..j]);
    OnlyHigherKeys(Progress(w.chain, keys1), st.commits, st.secrets);
    PutKeysHold(st.keys, w.firstEpoch, w.keys[..j]);
    KeysPutInPart(st.keys, w.firstEpoch, w.keys, j);
  }

  lemma {:induction false} KeysPutInPart(keys: map<Epoch, Bytes32>, first: Epoch, ks: seq<Bytes32>, j: nat)
    requires j <= |ks|
    ensures PutKeys(keys, first, ks[..j]) == PutKeys(keys, first, ks) <==>
      forall e :: first + j <= e < first + |ks| ==> e in keys
  {
    var part, all := PutKeys(keys, first, ks[..j]), PutKeys(keys, first, ks);
    PutKeysHold(keys, first, ks[..j]);
    PutKeysHold(keys, first, ks);
    if forall e :: first + j <= e < first + |ks| ==> e in keys {
      assert part.Keys == all.Keys;
      assert forall e :: e in all ==> part[e] == all[e];
    } else {
      var e :| first + j <= e < first + |ks| && e !in keys;
      assert e in all && e !in part;
    }
  }

  /** Deriving gives keys above the chain only. */
  lemma {:induction false} OnlyHigherKeys(p: Progress, t: CommitTable, s: Secrets)
    ensures forall e :: e in CatchUp(p, t, s).keys && e !in p.keys ==> e > p.chain.epoch
    decreases HighestCommit(t) - p.chain.epoch
  {
    match Next(p, t, s)
    case None =>
    case Some(q) => OnlyHigherKeys(q, t, s);
  }

  // ---- the prekeys spent --------------------------------------------------------

  /** The prekeys a batch of envelopes names. */
  function Named(envs: seq<Envelope>): set<nat> { set i | 0 <= i < |envs| :: envs[i].prekeyId }

  /** Collecting spends one-time secrets that envelopes named, and does nothing else to the pool. */
  lemma {:induction false} AbsorbSpends(
      h: Hand, held: Option<Chain>, me: PubKey, envs: seq<Envelope>, settled: bool) returns (ids: set<nat>)
    ensures ids <= Named(envs) * h.pool.oneTime
    ensures AbsorbAll(h, held, me, envs, settled).pool == PrekeyPool.SpendIds(h.pool, ids)
    decreases |envs|
  {
    if envs == [] {
      ids := {};
      assert PrekeyPool.SpendIds(h.pool, {}) == h.pool;
    } else {
      var init, env := envs[..|envs| - 1], envs[|envs| - 1];
      ids := AbsorbSpends(h, held, me, init, settled);
      assert Named(init) <= Named(envs);
      var before := AbsorbAll(h, held, me, init, settled);
      if AbsorbOne(before, held, me, env, settled).pool != before.pool {
        SpendOneMore(h.pool, ids, env.prekeyId);
        ids := ids + {env.prekeyId};
      }
    }
  }

  lemma {:induction false} SpendOneMore(p: Pool, ids: set<nat>, id: nat)
    requires id in PrekeyPool.SpendIds(p, ids).oneTime
    ensures PrekeyPool.SpendIds(PrekeyPool.SpendIds(p, ids), {id}) == PrekeyPool.SpendIds(p, ids + {id})
  {
  }

  /**
   Where envelopes are sealed under prekeys the exchange gave out, saving the pool after a
   collection is an allowed move.
   */
  lemma {:induction false} CollectingIsAMove(
      b: PrekeyExchange.Both, st: Store, held: Option<Chain>, me: PubKey, envs: seq<Envelope>, settled: bool)
      returns (m: PrekeyExchange.Move)
    requires PrekeyExchange.BothInv(b) && Named(envs) * b.rows.oneTime <= b.exchange.given
    ensures PrekeyExchange.Allowed(b, m)
    ensures PrekeyExchange.Moved(b, m) == b.(rows := AbsorbAll(Hand(st, b.rows), held, me, envs, settled).pool)
    ensures PrekeyExchange.BothInv(b.(rows := AbsorbAll(Hand(st, b.rows), held, me, envs, settled).pool))
  {
    var ids := AbsorbSpends(Hand(st, b.rows), held, me, envs, settled);
    m := PrekeyExchange.SpendSaved(ids);
    PrekeyExchange.MoveKeepsInv(b, m);
  }

  /** Over a whole collection, no epoch key already held goes or changes. */
  lemma {:induction false} AbsorbKeepsKeys(h: Hand, held: Option<Chain>, me: PubKey, envs: seq<Envelope>, settled: bool)
    ensures var h' := AbsorbAll(h, held, me, envs, settled);
      forall e :: e in h.store.keys ==> e in h'.store.keys && h'.store.keys[e] == h.store.keys[e]
    decreases |envs|
  {
    if envs != [] {
      AbsorbKeepsKeys(h, held, me, envs[..|envs| - 1], settled);
      var before := AbsorbAll(h, held, me, envs[..|envs| - 1], settled);
      var env := envs[|envs| - 1];
      if env.slots.Some? {
        KeepKeeps(before.store, env, Classify(before.store, held, me, env, settled), env.slots.value);
      }
    }
  }

  /**
   An envelope is taken for an admin-minted key exactly when this device has no
   sign at all that the channel is agreed, and has read the log to its end.
   */
  lemma {:induction false} AdminReadingExactly(st: Store, held: Option<Chain>, me: PubKey, env: Envelope, settled: bool)
    requires env.toEpoch > 0
    ensures Classify(st, held, me, env, settled).AsAdminKey? <==>
      && held.None? && settled && env.fromEpoch !in st.keys
      && forall i :: 0 <= i < |st.commits| && st.commits[i].Some? ==> st.commits[i].value.epoch == 0
  {
    HighestCommitExactly(st.commits);
    var commits := CommitsAt(st.commits, env.toEpoch);
    if commits != [] {
      assert commits[0] in commits && Some(commits[0]) in st.commits;
    }
  }

  lemma {:induction false} HighestCommitExactly(t: CommitTable)
    ensures HighestCommit(t) > 0 <==> exists i :: 0 <= i < |t| && t[i].Some? && t[i].value.epoch > 0
    decreases |t|
  {
    if t != [] {
      HighestCommitExactly(t[..|t| - 1]);
    }
  }

  /** A device with no chain that has read the commit admitting it does take its `Welcome`. */
  lemma {:induction false} WelcomeIsTaken(st: Store, me: PubKey, env: Envelope, settled: bool, c: Commit)
    requires Some(c) in st.commits && c.epoch == env.toEpoch > 0 && c.Admits(me)
    ensures Classify(st, None, me, env, settled).AsWelcome?
    ensures Classify(st, None, me, env, settled).commit.epoch == env.toEpoch
    ensures Classify(st, None, me, env, settled).commit.Admits(me)
  {
    assert c in CommitsAt(st.commits, env.toEpoch);
    HighestCommitExactly(st.commits);
  }

  /** Every durable state from `from` on holds the pool `p`. */
  ghost predicate PoolKept(disk: seq<Durable>, from: nat, p: Pool) {
    forall i :: from <= i < |disk| ==> disk[i].pool == p
  }

  /** From every durable state from `from` on, deriving ends at `end`. */
  ghost predicate EndingAt(disk: seq<Durable>, from: nat, end: Store)
    decreases |disk|
  {
    |disk| <= from || (AdvanceAgreement(disk[|disk| - 1].store) == end && EndingAt(disk[..|disk| - 1], from, end))
  }

  // ---- what one device does, in place ------------------------------------

  /** What would survive the process stopping at some moment. */
  datatype Durable = Durable(store: Store, pool: Pool)

  /** The channel rows and the prekey pool of one device's store, and the writes made to them. */
  class KeyStore {
    const me: PubKey
    var agreement: Option<Chain>
    var keys: map<Epoch, Bytes32>
    var commits: CommitTable
    var secrets: Secrets
    var pool: Pool
    /** The read cursor, put back to the beginning when entries held unread became readable. */
    var since: nat
    /** The durable states passed through, one per write. */
    ghost var disk: seq<Durable>

    constructor (account: PubKey, held: Pool)
      ensures me == account && pool == held && View() == Store(None, map[], [], map[])
    {
      me := account;
      agreement, keys, commits, secrets, pool, since := None, map[], [], map[], held, 0;
      disk := [];
    }

    ghost function View(): Store
      reads this
    {
      Store(agreement, keys, commits, secrets)
    }

    /** `note_commits`: `bodies[i]` is the commit at sequence number `first + i`, where there is one. */
    method NoteCommits(first: nat, bodies: seq<Option<Commit>>)
      modifies this`commits
      ensures forall i :: 0 <= i < |bodies| && bodies[i].Some? ==> first + i < |commits| && commits[first + i].Some?
      ensures forall i {:trigger commits[i]} :: 0 <= i < |commits| && commits[i].Some? ==>
        || (i < |old(commits)| && commits[i] == old(commits)[i])
        || (first <= i < first + |bodies| && commits[i] == bodies[i - first])
      ensures Extends(old(commits), commits)
    {
      var n := 0;
      while n < |bodies|
        invariant n <= |bodies|
        invariant Extends(old(commits), commits)
        invariant forall i :: 0 <= i < n && bodies[i].Some? ==> first + i < |commits| && commits[first + i].Some?
        invariant forall i {:trigger commits[i]} :: 0 <= i < |commits| && commits[i].Some? ==>
          || (i < |old(commits)| && commits[i] == old(commits)[i])
          || (first <= i < first + n && commits[i] == bodies[i - first])
      {
        if bodies[n].Some? {
          commits := PutCommit(commits, first + n, bodies[n].value);
        }
        n := n + 1;
      }
    }

    /** A row was written: what is durable now is the current view, with the pool last saved. */
    ghost method Wrote()
      modifies this`disk
      ensures disk == old(disk) + [Durable(View(), pool)]
    {
      disk := disk + [Durable(View(), pool)];
    }

    /** Write one derived epoch: its key, the chain it moves, and the secret it spends. */
    method KeepDerived(d: Derived, ghost end: Store, ghost from: nat)
      requires agreement.Some? && AdvanceAgreement(View()) == end && EndingAt(disk, from, end)
      requires Next(Progress(agreement.value, keys), commits, secrets)
            == Some(Progress(d.chain, PutKey(keys, d.chain.epoch, d.key)))
      modifies this`agreement, this`keys, this`secrets, this`since, this`disk
      ensures agreement == Some(d.chain) && keys == PutKey(old(keys), d.chain.epoch, d.key)
      ensures secrets == old(secrets) - {d.chain.epoch} && since == 0
      ensures old(disk) <= disk && PoolKept(disk, |old(disk)|, pool)
      ensures AdvanceAgreement(View()) == end && EndingAt(disk, from, end)
    {
      var epoch, keys' := d.chain.epoch, PutKey(keys, d.chain.epoch, d.key);
      ghost var st := View();
      ghost var one := st.(keys := keys');
      ghost var two := one.(agreement := Some(d.chain));
      ghost var three := two.(secrets := st.secrets - {epoch});
      StoppedWhileDeriving(st, Progress(d.chain, keys'));
      assert AdvanceAgreement(one) == end && AdvanceAgreement(two) == end && AdvanceAgreement(three) == end;
      keys := keys';
      WroteOnTheWay(one, end, from);
      agreement := Some(d.chain);
      WroteOnTheWay(two, end, from);
      secrets := secrets - {epoch};
      WroteOnTheWay(three, end, from);
      since := 0;
    }

    /** A row was written, from which deriving still ends at `end`. */
    ghost method WroteOnTheWay(st: Store, end: Store, from: nat)
      requires st == View() && AdvanceAgreement(st) == end && EndingAt(disk, from, end)
      modifies this`disk
      ensures disk == old(disk) + [Durable(View(), pool)] && EndingAt(disk, from, end)
    {
      assert (disk + [Durable(View(), pool)])[..|disk|] == disk;
      disk := disk + [Durable(View(), pool)];
    }

    /**
     `advance_agreement`: derive every epoch both halves of are held, and forget the spent
     secrets. Stopped at any write, deriving again ends where it would have.
     */
    method DeriveEpochs(ghost from: nat)
      requires EndingAt(disk, from, AdvanceAgreement(View()))
      modifies this`agreement, this`keys, this`secrets, this`since, this`disk
      ensures View() == AdvanceAgreement(old(View()))
      ensures old(disk) <= disk && PoolKept(disk, |old(disk)|, pool) && EndingAt(disk, from, View())
      ensures since == old(since) || since == 0
    {
      if agreement.None? { return; }
      ghost var end := AdvanceAgreement(View());
      var ceiling := HighestCommit(commits);
      var moved := true;
      while moved && agreement.value.epoch < ceiling
        invariant agreement.Some? && AdvanceAgreement(View()) == end && EndingAt(disk, from, end)
        invariant !moved ==> Next(Progress(agreement.value, keys), commits, secrets).None?
        invariant old(disk) <= disk && PoolKept(disk, |old(disk)|, pool)
        invariant since == old(since) || since == 0
        decreases ceiling - agreement.value.epoch, moved
      {
        moved := DeriveOne(agreement.value, end, from);
      }
      DerivedAlready(View());
      secrets := Above(secrets, agreement.value.epoch);
      WroteOnTheWay(View(), end, from);
    }

    /** One turn of the loop: derive the next epoch, or stop. */
    method DeriveOne(chain: Chain, ghost end: Store, ghost from: nat) returns (moved: bool)
      requires agreement == Some(chain) && AdvanceAgreement(View()) == end && EndingAt(disk, from, end)
      modifies this`agreement, this`keys, this`secrets, this`since, this`disk
      ensures agreement.Some? && AdvanceAgreement(View()) == end && EndingAt(disk, from, end)
      ensures agreement.value.epoch == if moved then chain.epoch + 1 else chain.epoch
      ensures !moved ==> Next(Progress(agreement.value, keys), commits, secrets).None?
      ensures old(disk) <= disk && PoolKept(disk, |old(disk)|, pool)
      ensures since == old(since) || since == 0
    {
      if chain.epoch + 1 !in secrets { return false; }
      var next := TryCommits(chain, secrets[chain.epoch + 1]);
      if next.None? { return false; }
      KeepDerived(next.value, end, from);
      return true;
    }

    /** Each held commit for the next epoch in turn; the first that takes the chain on is the one. */
    method TryCommits(chain: Chain, secret: Bytes32) returns (moved: Option<Derived>)
      ensures moved == FirstFit(commits, 0, chain, secret)
    {
      var i := 0;
      while i < |commits|
        invariant i <= |commits|
        invariant FirstFit(commits, 0, chain, secret) == FirstFit(commits, i, chain, secret)
      {
        if commits[i].Some? && commits[i].value.epoch == chain.epoch + 1 {
          var attempt := Advance(chain, commits[i].value, secret);
          if attempt.Ok? { return Some(attempt.value); }
        }
        i := i + 1;
      }
      return None;
    }

    /** Write what one opened envelope held. A commit secret's writes can be stopped anywhere. */
    method KeepOpened(env: Envelope, reading: Reading, slots: seq<Bytes32>) returns (readable: bool)
      modifies this`agreement, this`keys, this`secrets, this`since, this`disk
      ensures View() == Keep(old(View()), env, reading, slots)
      ensures old(disk) <= disk && PoolKept(disk, |old(disk)|, pool)
      ensures reading.AsCommitSecret? ==> EndingAt(disk, |old(disk)|, View())
    {
      readable := false;
      match reading
      case Leave =>
      case AsWelcome(commit) =>
        var read := ReadWelcome(commit, Slots(env.fromEpoch, slots));
        if read.Ok? {
          agreement := Some(read.value.chain);
          Wrote();
          PutEach(read.value.firstEpoch, read.value.keys);
          readable := true;
        }
      case AsCommitSecret =>
        // Where this derives an epoch, the derivation puts the cursor back itself.
        if slots != [] {
          secrets := PutSecret(secrets, env.toEpoch, slots[0]);
          WroteOnTheWay(View(), AdvanceAgreement(View()), |old(disk)|);
          DeriveEpochs(|old(disk)|);
        }
      case AsAdminKey =>
        PutEach(env.fromEpoch, slots);
        readable := slots != [];
    }

    /** `put_key`, for each of a range. */
    method PutEach(first: Epoch, ks: seq<Bytes32>)
      modifies this`keys, this`disk
      ensures keys == PutKeys(old(keys), first, ks)
      ensures old(disk) <= disk && PoolKept(disk, |old(disk)|, pool)
    {
      assert ks[0..] == ks;
      for i := 0 to |ks|
        invariant PutKeys(keys, first + i, ks[i..]) == PutKeys(old(keys), first, ks)
        invariant old(disk) <= disk && PoolKept(disk, |old(disk)|, pool)
      {
        assert ks[i..][1..] == ks[i + 1..];
        keys := PutKey(keys, first + i, ks[i]);
        Wrote();
      }
    }

    /**
     `absorb_keys`. Every durable state before the last holds the pool exactly as it
     was, so nothing an envelope held can be lost between the content being written
     and the secret that opened it being gone.
     */
    method AbsorbKeys(envs: seq<Envelope>, settled: bool)
      modifies this`agreement, this`keys, this`secrets, this`pool, this`since, this`disk
      ensures Hand(View(), pool) == AbsorbAll(Hand(old(View()), old(pool)), old(agreement), me, envs, settled)
      ensures old(disk) <= disk
      ensures forall i :: |old(disk)| <= i < |disk| ==>
        disk[i].pool == old(pool) || (i == |disk| - 1 && disk[i] == Durable(View(), pool))
    {
      if envs == [] { return; }
      var held := agreement;
      var mine := pool;
      ghost var start := Hand(View(), pool);
      var n, readable := 0, false;
      while n < |envs|
        invariant n <= |envs| && pool == old(pool)
        invariant Hand(View(), mine) == AbsorbAll(start, held, me, envs[..n], settled)
        invariant old(disk) <= disk && PoolKept(disk, |old(disk)|, old(pool))
      {
        var env := envs[n];
        assert envs[..n + 1][..n] == envs[..n];
        var reading := Classify(Store(agreement, keys, commits, secrets), held, me, env, settled);
        var taken := TakeSecret(mine, env.prekeyId);
        n := n + 1;
        if reading.Leave? || taken.None? { continue; }
        mine := taken.value;
        if !env.attested || env.slots.None? { continue; }
        var kept := KeepOpened(env, reading, env.slots.value);
        readable := readable || kept;
      }
      assert envs[..n] == envs;
      pool := mine;
      Wrote();
      if readable { since := 0; }
    }
  }
}
