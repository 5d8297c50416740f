/**
 What a member device does with a commit: the envelope that carries its secret is read as one, opened,
 and the chain moves. The readings of an envelope are told here by what is in the rows.
 */
module FollowingCommits {
  import opened Wrappers
  import opened ChainAgreement
  import opened AgreedChannel
  import opened KeyCollection
  import PrekeyPool

  // ---- the four readings ---------------------------------------------------

  /** A commit for the epoch an envelope ends at has been read. */
  ghost predicate CommitIsRead(st: Store, env: Envelope) {
    exists c :: Some(c) in st.commits && c.epoch == env.toEpoch
  }

  /** One of them names the account among those it adds. */
  ghost predicate IsAdmitted(st: Store, env: Envelope, me: PubKey) {
    exists c :: Some(c) in st.commits && c.epoch == env.toEpoch && me in c.adds
  }

  /** The channel is known to be agreed, or the log has been read to its end. */
  ghost predicate KnowsTheKind(st: Store, held: Option<Chain>, settled: bool) {
    held.Some? || settled || exists c :: Some(c) in st.commits && c.epoch > 0
  }

  lemma {:induction false} CommitsAtExactly(st: Store, env: Envelope, me: PubKey)
    ensures CommitsAt(st.commits, env.toEpoch) != [] <==> CommitIsRead(st, env)
    ensures FirstAdmitting(CommitsAt(st.commits, env.toEpoch), me).Some? <==> IsAdmitted(st, env, me)
  {
    var cs := CommitsAt(st.commits, env.toEpoch);
    if cs != [] { assert cs[0] in cs; }
    var first := FirstAdmitting(cs, me);
    if first.Some? { assert Some(first.value) in st.commits && first.value.Admits(me); }
    if IsAdmitted(st, env, me) {
      var c :| Some(c) in st.commits && c.epoch == env.toEpoch && me in c.adds;
      assert c in cs && c.Admits(me);
    }
  }

  lemma {:induction false} AgreedExactly(t: CommitTable)
    ensures HighestCommit(t) > 0 <==> exists c :: Some(c) in t && c.epoch > 0
  {
    HighestCommitExactly(t);
    if i :| 0 <= i < |t| && t[i].Some? && t[i].value.epoch > 0 { assert Some(t[i].value) in t; }
    if c :| Some(c) in t && c.epoch > 0 { var i :| 0 <= i < |t| && t[i] == Some(c); }
  }

  /**
   Whatever the chain held: an envelope is a commit secret where a commit for its epoch has been read,
   none such admits the account, and the epoch's key is not held; a `Welcome` where one admits it and the
   chain is below that epoch; left for later, or for good, in every other case of an agreed channel.
   */
  lemma {:induction false} ReadingExactly(st: Store, held: Option<Chain>, me: PubKey, env: Envelope, settled: bool)
    ensures var reading := Classify(st, held, me, env, settled);
      && (reading.AsCommitSecret? <==>
            && CommitIsRead(st, env) && !IsAdmitted(st, env, me) && env.toEpoch !in st.keys
            && KnowsTheKind(st, held, settled))
      && (reading.AsWelcome? <==>
            && IsAdmitted(st, env, me) && !(held.Some? && held.value.epoch >= env.toEpoch)
            && KnowsTheKind(st, held, settled))
      && (reading.AsAdminKey? <==>
            && held.None? && settled && env.fromEpoch !in st.keys && !CommitIsRead(st, env)
            && forall c :: Some(c) in st.commits ==> c.epoch == 0)
      && (reading.AsWelcome? ==>
            Some(reading.commit) in st.commits && reading.commit.epoch == env.toEpoch && me in reading.commit.adds)
  {
    CommitsAtExactly(st, env, me);
    AgreedExactly(st.commits);
  }

  // ---- what it takes to open one ------------------------------------------------

  /** The secret of a prekey can be had: a one-time secret not yet spent, or the fallback's. */
  predicate Usable(p: Pool, id: nat) { id > 0 && id !in p.spent && (id in p.oneTime || p.fallback == Some(id)) }

  /**
   Nothing is kept of an envelope unless it was to be read, its prekey's secret is there, its publisher
   is who it says and it opens; and its one-time secret goes exactly where the first two hold.
   */
  lemma {:induction false} KeptOnlyIfAttested(h: Hand, held: Option<Chain>, me: PubKey, env: Envelope, settled: bool)
    ensures var h', reading := AbsorbOne(h, held, me, env, settled), Classify(h.store, held, me, env, settled);
      && (h'.store != h.store ==>
            reading != Leave && Usable(h.pool, env.prekeyId) && env.attested && env.slots.Some?)
      && (!reading.Leave? && Usable(h.pool, env.prekeyId) && env.attested && env.slots.Some? ==>
            h'.store == Keep(h.store, env, reading, env.slots.value))
      && h'.pool.oneTime == (if reading.Leave? || !Usable(h.pool, env.prekeyId) then h.pool.oneTime
                             else h.pool.oneTime - {env.prekeyId})
      && h'.pool.fallback == h.pool.fallback
  {
  }

  // ---- a commit followed ----------------------------------------------------------

  /** An attested envelope at the next epoch, carrying the secret `x`, that the device has not used yet. */
  ghost predicate Carries(h: Hand, me: PubKey, env: Envelope, c: Chain, x: Bytes32) {
    && h.store.agreement == Some(c) && env.toEpoch == c.epoch + 1
    && env.attested && env.slots == Some([x]) && Usable(h.pool, env.prekeyId)
    && env.toEpoch !in h.store.keys
    && (env.toEpoch in h.store.secrets ==> h.store.secrets[env.toEpoch] == x)
    && !IsAdmitted(h.store, env, me)
  }

  lemma {:induction false} SecretIsRead(
      h: Hand, held: Option<Chain>, me: PubKey, env: Envelope, settled: bool, k: Commit)
    requires Some(k) in h.store.commits && k.epoch == env.toEpoch > 0
    requires !IsAdmitted(h.store, env, me) && env.toEpoch !in h.store.keys
    ensures Classify(h.store, held, me, env, settled) == AsCommitSecret
  {
    ReadingExactly(h.store, held, me, env, settled);
  }

  /** The store once the secret has been opened. */
  lemma {:induction false} SecretIsKept(
      h: Hand, held: Option<Chain>, me: PubKey, env: Envelope, settled: bool, k: Commit, x: Bytes32)
    requires Some(k) in h.store.commits && k.epoch == env.toEpoch > 0
    requires !IsAdmitted(h.store, env, me) && env.toEpoch !in h.store.keys
    requires env.attested && env.slots == Some([x]) && Usable(h.pool, env.prekeyId)
    ensures AbsorbOne(h, held, me, env, settled).store
         == AdvanceAgreement(h.store.(secrets := PutSecret(h.store.secrets, env.toEpoch, x)))
  {
    SecretIsRead(h, held, me, env, settled, k);
    KeptOnlyIfAttested(h, held, me, env, settled);
  }

  lemma {:induction false} NextIsThere(p: Progress, t: CommitTable, s: Secrets, k: Commit, x: Bytes32)
    requires Some(k) in t && Advance(p.chain, k, x).Ok? && p.chain.epoch + 1 in s && s[p.chain.epoch + 1] == x
    ensures Next(p, t, s).Some?
  {
    var i :| 0 <= i < |t| && t[i] == Some(k);
    FirstFitFinds(t, 0, p.chain, x, i);
  }

  /** With the commit read and its secret opened, the chain has moved on, whatever was held when collecting began. */
  lemma {:induction false} SecretMovesTheChain(
      h: Hand, held: Option<Chain>, me: PubKey, env: Envelope, settled: bool, c: Chain, k: Commit, x: Bytes32)
    requires Carries(h, me, env, c, x) && Some(k) in h.store.commits && Advance(c, k, x).Ok?
    ensures var st := AbsorbOne(h, held, me, env, settled).store;
      && st.agreement.Some? && st.agreement.value.epoch >= c.epoch + 1
      && env.toEpoch in st.keys && env.toEpoch !in st.secrets
  {
    SecretIsKept(h, held, me, env, settled, k, x);
    var p, t, s := Progress(c, h.store.keys), h.store.commits, PutSecret(h.store.secrets, env.toEpoch, x);
    NextIsThere(p, t, s, k, x);
    CatchUpIsLongestRun(p, t, s);
  }

  /** Where one commit fits, the next epoch's key is the one that commit and its secret give. */
  lemma {:induction false} KeyOfTheFit(p: Progress, t: CommitTable, s: Secrets, k: Commit, x: Bytes32, d: Derived)
    requires Some(k) in t && Advance(p.chain, k, x) == Ok(d) && OneFits(t, p.chain, x)
    requires d.chain.epoch in s && s[d.chain.epoch] == x && d.chain.epoch !in p.keys
    ensures var keys := CatchUp(p, t, s).keys; d.chain.epoch in keys && keys[d.chain.epoch] == d.key
  {
    NextIsThere(p, t, s, k, x);
    var i :| 0 <= i < |t| && t[i] == Some(k);
    var j := FirstFitSource(t, 0, p.chain, x);
    assert Fits(t[i], p.chain, x) && Fits(t[j], p.chain, x);
    CatchUpIsLongestRun(Next(p, t, s).value, t, s);
  }

  /**
   And where no other commit fits, the key of the epoch is the channel's: a member that stood at the
   history's chain holds, once it has read the commit and opened the secret, the key everybody else derived.
   */
  lemma {:induction false} MemberFollows(
      h: Hand, held: Option<Chain>, me: PubKey, env: Envelope, settled: bool,
      chains: seq<Chain>, acts: seq<Act>, n: nat)
    requires Histories(chains, acts) && 1 <= n <= |acts|
    requires Carries(h, me, env, chains[n - 1], acts[n - 1].secret)
    requires Some(CommitFor(n, chains[n - 1], acts[n - 1])) in h.store.commits
    requires OneFits(h.store.commits, chains[n - 1], acts[n - 1].secret)
    ensures var st := AbsorbOne(h, held, me, env, settled).store;
      n in st.keys && st.keys[n] == KeyFor(chains[n])
  {
    var c, k, x := chains[n - 1], CommitFor(n, chains[n - 1], acts[n - 1]), acts[n - 1].secret;
    HistoryStep(chains, acts, n);
    SecretIsKept(h, held, me, env, settled, k, x);
    var p, t, s := Progress(c, h.store.keys), h.store.commits, PutSecret(h.store.secrets, env.toEpoch, x);
    KeyOfTheFit(p, t, s, k, x, Derived(chains[n], KeyFor(chains[n])));
  }

  /** Of an agreed channel, what ends at an epoch whose commit has not been read is left, prekey and all. */
  lemma {:induction false} LeftForLater(h: Hand, held: Option<Chain>, me: PubKey, env: Envelope, settled: bool)
    requires !CommitIsRead(h.store, env) && (held.Some? || exists c :: Some(c) in h.store.commits && c.epoch > 0)
    ensures AbsorbOne(h, held, me, env, settled) == h
  {
    ReadingExactly(h.store, held, me, env, settled);
    CommitsAtExactly(h.store, env, me);
  }

  // ---- a whole collection -----------------------------------------------------

  /** The commits of `t` are the history's own. */
  ghost predicate HonestRows(chains: seq<Chain>, acts: seq<Act>, t: CommitTable)
    requires |chains| == |acts| + 1
  {
    forall i :: 0 <= i < |t| && t[i].Some? ==>
      && 1 <= t[i].value.epoch <= |acts|
      && t[i].value == CommitFor(t[i].value.epoch, chains[t[i].value.epoch - 1], acts[t[i].value.epoch - 1])
  }

  ghost predicate TrueSecrets(acts: seq<Act>, s: Secrets) {
    forall e :: e in s ==> 1 <= e <= |acts| && s[e] == acts[e - 1].secret
  }

  /** The device stands in the history, with a key for each epoch since `from` and none it has not come to. */
  ghost predicate Stands(chains: seq<Chain>, p: Progress, from: nat) {
    && from <= p.chain.epoch < |chains| && p.chain == chains[p.chain.epoch]
    && (forall e :: e in p.keys ==> e <= p.chain.epoch)
    && (forall e :: from < e <= p.chain.epoch ==> e in p.keys && p.keys[e] == KeyFor(chains[e]))
  }

  lemma {:induction false} NextStands(
      chains: seq<Chain>, acts: seq<Act>, p: Progress, t: CommitTable, s: Secrets, from: nat)
    requires Histories(chains, acts) && HonestRows(chains, acts, t) && TrueSecrets(acts, s) && Stands(chains, p, from)
    requires Next(p, t, s).Some?
    ensures Stands(chains, Next(p, t, s).value, from)
  {
    var e := p.chain.epoch + 1;
    var i := FirstFitSource(t, 0, p.chain, s[e]);
    HistoryStep(chains, acts, e);
  }

  lemma {:induction false} CatchUpStands(
      chains: seq<Chain>, acts: seq<Act>, p: Progress, t: CommitTable, s: Secrets, from: nat)
    requires Histories(chains, acts) && HonestRows(chains, acts, t) && TrueSecrets(acts, s) && Stands(chains, p, from)
    ensures Stands(chains, CatchUp(p, t, s), from)
    decreases HighestCommit(t) - p.chain.epoch
  {
    match Next(p, t, s)
    case None =>
    case Some(q) =>
      NextStands(chains, acts, p, t, s, from);
      CatchUpStands(chains, acts, q, t, s, from);
  }

  /** An envelope as its committer made it, for a device that `acts` neither admits nor leaves out. */
  ghost predicate Honest(acts: seq<Act>, me: PubKey, from: nat, env: Envelope) {
    && env.attested && from < env.toEpoch <= |acts|
    && env.slots == Some([acts[env.toEpoch - 1].secret])
    && me !in acts[env.toEpoch - 1].adds
  }

  /** Where a device has got to in a collection: `done` of its envelopes are used, or wait to be. */
  ghost predicate Going(
      chains: seq<Chain>, acts: seq<Act>, from: nat, t: CommitTable, st: Store, done: seq<Envelope>)
    requires |chains| == |acts| + 1
  {
    && st.agreement.Some? && Stands(chains, Progress(st.agreement.value, st.keys), from)
    && st.commits == t && HonestRows(chains, acts, t) && TrueSecrets(acts, st.secrets)
    && Next(Progress(st.agreement.value, st.keys), t, st.secrets).None?
    && forall env :: env in done ==> env.toEpoch <= st.agreement.value.epoch || env.toEpoch in st.secrets
  }

  lemma {:induction false} DerivedAll(p: Progress, t: CommitTable, s: Secrets, r: Progress)
    requires r == CatchUp(p, t, s)
    ensures Next(r, t, Above(s, r.chain.epoch)).None?
    ensures forall e :: e in s && e > r.chain.epoch ==> e in Above(s, r.chain.epoch)
  {
    assert Next(r, t, Above(s, r.chain.epoch)) == Next(r, t, s);
  }

  lemma {:induction false} OneMoreSecret(acts: seq<Act>, s: Secrets, e: Epoch, s': Secrets)
    requires TrueSecrets(acts, s) && 1 <= e <= |acts| && s' == PutSecret(s, e, acts[e - 1].secret)
    ensures TrueSecrets(acts, s') && e in s' && forall d :: d in s ==> d in s'
  {
  }

  lemma {:induction false} DerivingGoesOn(
      chains: seq<Chain>, acts: seq<Act>, from: nat, t: CommitTable, st: Store, done: seq<Envelope>, env: Envelope,
      s: Secrets)
    requires Histories(chains, acts) && Going(chains, acts, from, t, st, done)
    requires 1 <= env.toEpoch <= |acts| && s == PutSecret(st.secrets, env.toEpoch, acts[env.toEpoch - 1].secret)
    ensures Going(chains, acts, from, t, AdvanceAgreement(st.(secrets := s)), done + [env])
  {
    var p := Progress(st.agreement.value, st.keys);
    OneMoreSecret(acts, st.secrets, env.toEpoch, s);
    CatchUpStands(chains, acts, p, t, s, from);
    var r := CatchUp(p, t, s);
    DerivedAll(p, t, s, r);
    assert AdvanceAgreement(st.(secrets := s)) == Store(Some(r.chain), r.keys, t, Above(s, r.chain.epoch));
  }

  /** What was read of the commit for an epoch says whether the device is admitted there. */
  lemma {:induction false} NotAdmitted(
      chains: seq<Chain>, acts: seq<Act>, me: PubKey, from: nat, st: Store, env: Envelope)
    requires |chains| == |acts| + 1 && HonestRows(chains, acts, st.commits) && Honest(acts, me, from, env)
    ensures !IsAdmitted(st, env, me)
  {
  }

  lemma {:induction false} OneMoreCollected(
      chains: seq<Chain>, acts: seq<Act>, from: nat, t: CommitTable, h: Hand, held: Option<Chain>, me: PubKey,
      done: seq<Envelope>, env: Envelope, settled: bool)
    requires Histories(chains, acts) && Going(chains, acts, from, t, h.store, done)
    requires Honest(acts, me, from, env) && Usable(h.pool, env.prekeyId) && CommitIsRead(h.store, env)
    ensures Going(chains, acts, from, t, AbsorbOne(h, held, me, env, settled).store, done + [env])
  {
    NotAdmitted(chains, acts, me, from, h.store, env);
    var k :| Some(k) in h.store.commits && k.epoch == env.toEpoch;
    if env.toEpoch !in h.store.keys {
      var x := acts[env.toEpoch - 1].secret;
      SecretIsKept(h, held, me, env, settled, k, x);
      DerivingGoesOn(chains, acts, from, t, h.store, done, env, PutSecret(h.store.secrets, env.toEpoch, x));
    } else {
      KeptOnlyIfAttested(h, held, me, env, settled);
      ReadingExactly(h.store, held, me, env, settled);
    }
  }

  /** Every envelope has a usable prekey of its own. */
  ghost predicate OwnPrekeys(p: Pool, envs: seq<Envelope>) {
    && (forall i :: 0 <= i < |envs| ==> Usable(p, envs[i].prekeyId))
    && (forall i, j :: 0 <= i < j < |envs| ==> envs[i].prekeyId != envs[j].prekeyId)
  }

  lemma {:induction false} StillUsable(
      h: Hand, held: Option<Chain>, me: PubKey, envs: seq<Envelope>, settled: bool, n: nat, id: nat)
    requires n <= |envs| && Usable(h.pool, id) && forall i :: 0 <= i < n ==> envs[i].prekeyId != id
    ensures Usable(AbsorbAll(h, held, me, envs[..n], settled).pool, id)
  {
    var ids := AbsorbSpends(h, held, me, envs[..n], settled);
    assert id !in Named(envs[..n]);
  }

  lemma {:induction false} CollectedSoFar(
      chains: seq<Chain>, acts: seq<Act>, from: nat, t: CommitTable, h: Hand, held: Option<Chain>, me: PubKey,
      envs: seq<Envelope>, settled: bool, n: nat)
    requires Histories(chains, acts) && Going(chains, acts, from, t, h.store, []) && n <= |envs|
    requires OwnPrekeys(h.pool, envs)
    requires forall env :: env in envs ==> Honest(acts, me, from, env) && CommitIsRead(h.store, env)
    ensures Going(chains, acts, from, t, AbsorbAll(h, held, me, envs[..n], settled).store, envs[..n])
    decreases n
  {
    if n > 0 {
      CollectedSoFar(chains, acts, from, t, h, held, me, envs, settled, n - 1);
      assert envs[..n][..n - 1] == envs[..n - 1] && envs[..n - 1] + [envs[n - 1]] == envs[..n];
      var before := AbsorbAll(h, held, me, envs[..n - 1], settled);
      StillUsable(h, held, me, envs, settled, n - 1, envs[n - 1].prekeyId);
      assert envs[n - 1] in envs;
      OneMoreCollected(chains, acts, from, t, before, held, me, envs[..n - 1], envs[n - 1], settled);
    }
  }

  ghost predicate HasRead(chains: seq<Chain>, acts: seq<Act>, t: CommitTable, e: Epoch)
    requires |chains| == |acts| + 1
  {
    1 <= e <= |acts| && Some(CommitFor(e, chains[e - 1], acts[e - 1])) in t
  }

  ghost predicate Serves(envs: seq<Envelope>, e: Epoch) { exists i :: 0 <= i < |envs| && envs[i].toEpoch == e }

  /**
   One collection brings a member up to date. Having read the commits up to some epoch, and derived what
   it could, it is served the envelope of each epoch it lacks, in any order and others among them: it then
   stands at that epoch or beyond, on the channel's own chain, with the channel's own key of every epoch.
   */
  lemma {:induction false} CollectionCatchesUp(
      chains: seq<Chain>, acts: seq<Act>, h: Hand, held: Option<Chain>, me: PubKey, envs: seq<Envelope>,
      settled: bool, from: nat, upTo: nat)
    requires Histories(chains, acts) && from <= upTo <= |acts|
    requires Going(chains, acts, from, h.store.commits, h.store, []) && OwnPrekeys(h.pool, envs)
    requires forall env :: env in envs ==> Honest(acts, me, from, env) && CommitIsRead(h.store, env)
    requires forall e :: from < e <= upTo ==> HasRead(chains, acts, h.store.commits, e) && Serves(envs, e)
    ensures var st := AbsorbAll(h, held, me, envs, settled).store;
      && st.agreement.Some? && upTo <= st.agreement.value.epoch
      && Stands(chains, Progress(st.agreement.value, st.keys), from)
  {
    var t := h.store.commits;
    assert envs[..|envs|] == envs;
    CollectedSoFar(chains, acts, from, t, h, held, me, envs, settled, |envs|);
    var st := AbsorbAll(h, held, me, envs, settled).store;
    var e := st.agreement.value.epoch + 1;
    if e <= upTo {
      assert HasRead(chains, acts, t, e) && Serves(envs, e);
      NotHalted(chains, acts, from, t, st, envs, e);
      assert false;
    }
  }

  /** Nobody stands still before an epoch whose commit is read and whose envelope is used. */
  lemma {:induction false} NotHalted(
      chains: seq<Chain>, acts: seq<Act>, from: nat, t: CommitTable, st: Store, done: seq<Envelope>, e: Epoch)
    requires Histories(chains, acts) && Going(chains, acts, from, t, st, done)
    requires HasRead(chains, acts, t, e) && Serves(done, e)
    ensures st.agreement.value.epoch + 1 != e
  {
    var c := st.agreement.value;
    if c.epoch + 1 == e {
      var i :| 0 <= i < |done| && done[i].toEpoch == e;
      assert done[i] in done;
      HistoryStep(chains, acts, e);
      var k := CommitFor(e, chains[e - 1], acts[e - 1]);
      NextIsThere(Progress(c, st.keys), t, st.secrets, k, acts[e - 1].secret);
    }
  }
}
