/**
 SIP-87 key agreement: the chain every member device of an agreed channel keeps.

 Hashes, public keys and random strings are free terms. A transcript therefore
 records every commit in it, and a chain every commit secret, but nothing below
 relies on more than that equal inputs give equal outputs.
 */
module ChainAgreement {
  import opened Wrappers

  type Epoch = nat
  datatype PubKey = PubKey(id: nat)

  /** Thirty-two bytes: drawn at random, or the output of one of the hashes. */
  datatype Bytes32 =
    | Random(n: nat)
    | PublicOf(secret: Bytes32)
    | GenesisTranscript
    | TranscriptOf(previous: Bytes32, commit: Commit)
    | ChainOf(prevChain: Bytes32, commitSecret: Bytes32, chainTranscript: Bytes32)
    | EpochKeyOf(keyChain: Bytes32, keyTranscript: Bytes32)

  /** A commit body, without its signature: what is hashed into the transcript. */
  datatype Commit = Commit(
    epoch: Epoch,
    committer: PubKey,
    adds: seq<PubKey>,
    removes: seq<PubKey>,
    contribution: Bytes32,
    transcript: Bytes32)
  {
    predicate Admits(account: PubKey) { account in adds }
  }

  datatype Chain = Chain(epoch: Epoch, chain: Bytes32, transcript: Bytes32)

  datatype Refused =
    | WrongEpoch(held: Epoch, commit: Epoch)
    | TranscriptDiffers
    | ContributionDiffers
    | WelcomeDisagrees

  /** A chain moved on, and the key of the epoch it now stands at. */
  datatype Derived = Derived(chain: Chain, key: Bytes32)

  function KeyFor(c: Chain): Bytes32 { EpochKeyOf(c.chain, c.transcript) }

  /** `Chain::advance`: the three mandatory checks, in the order they are made. */
  function Advance(c: Chain, commit: Commit, secret: Bytes32): (r: Result<Derived, Refused>)
    ensures r.Ok? <==>
      commit.epoch == c.epoch + 1 && commit.transcript == c.transcript && commit.contribution == PublicOf(secret)
    ensures r.Ok? ==> r.value.chain.epoch == c.epoch + 1 && r.value.key == KeyFor(r.value.chain)
    ensures r.Err? ==>
      && (r.error.WrongEpoch? <==> commit.epoch != c.epoch + 1)
      && (r.error.ContributionDiffers? ==> commit.transcript == c.transcript)
  {
    if commit.epoch != c.epoch + 1 then Err(WrongEpoch(c.epoch, commit.epoch))
    else if commit.transcript != c.transcript then Err(TranscriptDiffers)
    else if PublicOf(secret) != commit.contribution then Err(ContributionDiffers)
    else
      var next := TranscriptOf(c.transcript, commit);
      var moved := Chain(commit.epoch, ChainOf(c.chain, secret, next), next);
      Ok(Derived(moved, KeyFor(moved)))
  }

  /** `Chain::welcomed`: where a `Welcome` puts a joining device. */
  function Welcomed(commit: Commit, chain: Bytes32): Chain {
    Chain(commit.epoch, chain, TranscriptOf(commit.transcript, commit))
  }

  /** What an envelope carries: the epoch its range starts at, and one value per slot. */
  datatype Slots = Slots(fromEpoch: Epoch, values: seq<Bytes32>)

  /** `welcome`: the chain in the first slot of the range, the current key in the last. */
  function WelcomeSlots(commit: Commit, chain: Bytes32, current: Bytes32, history: seq<Bytes32>): (s: Slots)
    requires |history| < commit.epoch
    ensures s.fromEpoch + |s.values| - 1 == commit.epoch
  {
    Slots(commit.epoch - |history| - 1, [chain] + history + [current])
  }

  datatype WelcomeRead = WelcomeRead(chain: Chain, firstEpoch: Epoch, keys: seq<Bytes32>)

  /** `read_welcome`: refuses a range ending elsewhere and a key the chain does not derive. */
  function ReadWelcome(commit: Commit, s: Slots): (r: Result<WelcomeRead, Refused>)
    ensures r.Ok? ==>
      && |r.value.keys| > 0
      && r.value.firstEpoch + |r.value.keys| - 1 == commit.epoch == r.value.chain.epoch
      && r.value.keys[|r.value.keys| - 1] == KeyFor(r.value.chain)
  {
    var to := s.fromEpoch + (if |s.values| == 0 then 0 else |s.values| - 1);
    if |s.values| < 2 || to != commit.epoch then Err(WrongEpoch(to, commit.epoch))
    else
      var c := Welcomed(commit, s.values[0]);
      var keys := s.values[1..];
      if keys[|keys| - 1] != KeyFor(c) then Err(WelcomeDisagrees)
      else Ok(WelcomeRead(c, s.fromEpoch + 1, keys))
  }

  // ---- a channel's own history ------------------------------------------

  /** One honest commit: everything but what the chain it is made from decides. */
  datatype Act = Act(committer: PubKey, adds: seq<PubKey>, removes: seq<PubKey>, secret: Bytes32)

  /** The commit a device builds for the epoch after the exchange's, from the chain it holds. */
  function CommitFor(epoch: Epoch, c: Chain, a: Act): Commit {
    Commit(epoch, a.committer, a.adds, a.removes, PublicOf(a.secret), c.transcript)
  }

  /** The derivation `commit` makes before it publishes anything. */
  function Committing(epoch: Epoch, c: Chain, a: Act): Result<Derived, Refused> {
    Advance(c, CommitFor(epoch, c, a), a.secret)
  }

  /** A device can commit exactly when its chain stands at the exchange's epoch. */
  lemma {:induction false} CommitsExactlyWhenCurrent(epoch: Epoch, c: Chain, a: Act)
    ensures Committing(epoch, c, a).Ok? <==> c.epoch + 1 == epoch
  {
  }

  /** The channel's chains: `chains[i]` is where members stand once `i` of `acts` are committed. */
  ghost predicate Histories(chains: seq<Chain>, acts: seq<Act>) {
    && |chains| == |acts| + 1
    && chains[0].epoch == 0
    && (forall i :: 0 <= i < |acts| ==>
          Committing(i + 1, chains[i], acts[i]) == Ok(Derived(chains[i + 1], KeyFor(chains[i + 1]))))
  }

  /** Every run of acts has a history from a freshly created chain, and only one. */
  lemma {:induction false} HistoryExists(origin: Chain, acts: seq<Act>) returns (chains: seq<Chain>)
    requires origin.epoch == 0
    ensures Histories(chains, acts) && chains[0] == origin
    ensures forall other :: Histories(other, acts) && other[0] == origin ==> other == chains
    decreases |acts|
  {
    if acts == [] {
      chains := [origin];
    } else {
      var n := |acts| - 1;
      var shorter := HistoryExists(origin, acts[..n]);
      HistoryEpochs(shorter, acts[..n], n);
      var d := Committing(n + 1, shorter[n], acts[n]).value;
      chains := shorter + [d.chain];
      assert forall i :: 0 <= i < n ==> acts[..n][i] == acts[i];
      forall other | Histories(other, acts) && other[0] == origin
        ensures other == chains
      {
        assert Histories(other[..n + 1], acts[..n]);
        assert other[..n + 1] == shorter;
        assert other == other[..n + 1] + [other[n + 1]];
      }
    }
  }

  lemma {:induction false} HistoryEpochs(chains: seq<Chain>, acts: seq<Act>, n: nat)
    requires Histories(chains, acts) && n <= |acts|
    ensures chains[n].epoch == n
    decreases n
  {
    if n > 0 {
      HistoryEpochs(chains, acts, n - 1);
      assert Committing(n - 1 + 1, chains[n - 1], acts[n - 1]).Ok?;
    }
  }

  /** How a device meets one commit of the history. */
  datatype Way =
    | Committed                                   // it made the commit
    | Secret                                      // it was sent the commit secret
    | Welcome(history: nat)                       // it was admitted, with that many past keys
    | Missed                                      // it was not a member, or not reached

  /** What a device holds of the channel: its chain if any, and its epoch keys. */
  datatype Member = Member(chain: Option<Chain>, keys: map<Epoch, Bytes32>)

  /** `put_key` keeps a key already held (`ON CONFLICT DO NOTHING`). */
  function PutKey(keys: map<Epoch, Bytes32>, epoch: Epoch, key: Bytes32): map<Epoch, Bytes32> {
    if epoch in keys then keys else keys[epoch := key]
  }

  function PutKeys(keys: map<Epoch, Bytes32>, first: Epoch, ks: seq<Bytes32>): map<Epoch, Bytes32>
    decreases |ks|
  {
    if ks == [] then keys else PutKeys(PutKey(keys, first, ks[0]), first + 1, ks[1..])
  }

  /** Keep a derivation, or leave everything as it was where it was refused. */
  function Take(m: Member, r: Result<Derived, Refused>): Member {
    match r
    case Ok(d) => Member(Some(d.chain), PutKey(m.keys, d.chain.epoch, d.key))
    case Err(_) => m
  }

  /** The keys of epochs `from..to`, which an inviter may include in a `Welcome`. */
  function KeysBetween(chains: seq<Chain>, from: nat, to: nat): (ks: seq<Bytes32>)
    requires from <= to <= |chains|
  {
    seq(to - from, j requires 0 <= j < to - from => KeyFor(chains[from + j]))
  }

  /** One device's step over the commit creating epoch `n`, by whichever way it met it. */
  function Meet(chains: seq<Chain>, act: Act, n: nat, m: Member, w: Way): Member
    requires 1 <= n < |chains|
  {
    var commit := CommitFor(n, chains[n - 1], act);
    match w
    case Missed => m
    case Committed =>
      if m.chain.None? then m else Take(m, Committing(n, m.chain.value, act))
    case Secret =>
      if m.chain.None? then m else Take(m, Advance(m.chain.value, commit, act.secret))
    case Welcome(h) =>
      if h >= n then m
      else
        var slots := WelcomeSlots(commit, chains[n].chain, KeyFor(chains[n]), KeysBetween(chains, n - h, n));
        var r := ReadWelcome(commit, slots);
        if r.Err? then m
        else Member(Some(r.value.chain), PutKeys(m.keys, r.value.firstEpoch, r.value.keys))
  }

  /** A device over the first `n` commits of the history, each met its own way. */
  function Follow(chains: seq<Chain>, acts: seq<Act>, ways: seq<Way>, m: Member, n: nat): Member
    requires |ways| == |acts| && |chains| == |acts| + 1 && n <= |acts|
  {
    if n == 0 then m
    else Meet(chains, acts[n - 1], n, Follow(chains, acts, ways, m, n - 1), ways[n - 1])
  }

  /** Everything a device holds is the channel's own: its chain, and each of its keys. */
  ghost predicate Truthful(chains: seq<Chain>, n: nat, m: Member)
    requires n < |chains|
  {
    && (m.chain.Some? ==> m.chain.value.epoch <= n && m.chain.value == chains[m.chain.value.epoch])
    && TrueKeys(chains, n, m.keys)
  }

  ghost predicate TrueKeys(chains: seq<Chain>, n: nat, keys: map<Epoch, Bytes32>)
    requires n < |chains|
  {
    forall e :: e in keys ==> 0 < e <= n && keys[e] == KeyFor(chains[e])
  }

  /** It met the newest commit, with a chain to meet it by. */
  ghost predicate Current(ways: seq<Way>, n: nat, m: Member, origin: Chain)
    requires n <= |ways|
  {
    if n == 0 then m.chain == Some(origin)
    else match ways[n - 1]
      case Missed => false
      case Welcome(h) => h < n
      case _ => Current(ways, n - 1, m, origin)
  }

  /** What the history's step gives its committer is what a `Welcome` for it gives a joiner. */
  lemma {:induction false} HistoryStep(chains: seq<Chain>, acts: seq<Act>, n: nat)
    requires Histories(chains, acts) && 1 <= n <= |acts|
    ensures Committing(n, chains[n - 1], acts[n - 1]) == Ok(Derived(chains[n], KeyFor(chains[n])))
    ensures Welcomed(CommitFor(n, chains[n - 1], acts[n - 1]), chains[n].chain) == chains[n]
    ensures chains[n - 1].epoch == n - 1 && chains[n].epoch == n
  {
    HistoryEpochs(chains, acts, n - 1);
    assert Committing(n - 1 + 1, chains[n - 1], acts[n - 1])
        == Ok(Derived(chains[n - 1 + 1], KeyFor(chains[n - 1 + 1])));
  }

  lemma {:induction false} PutKeysTrue(
      chains: seq<Chain>, n: nat, keys: map<Epoch, Bytes32>, first: nat, ks: seq<Bytes32>)
    requires n < |chains| && 1 <= first <= first + |ks| == n + 1
    requires TrueKeys(chains, n, keys)
    requires forall j :: 0 <= j < |ks| ==> ks[j] == KeyFor(chains[first + j])
    ensures TrueKeys(chains, n, PutKeys(keys, first, ks))
    ensures forall e :: e in keys || first <= e <= n ==> e in PutKeys(keys, first, ks)
    decreases |ks|
  {
    if ks != [] {
      assert ks[0] == KeyFor(chains[first + 0]);
      PutKeysTrue(chains, n, PutKey(keys, first, ks[0]), first + 1, ks[1..]);
    }
  }

  /** `read_welcome` undoes `welcome`, for any amount of history. */
  lemma {:induction false} WelcomeRoundTrip(commit: Commit, after: Chain, past: seq<Bytes32>)
    requires |past| < commit.epoch && Welcomed(commit, after.chain) == after
    ensures ReadWelcome(commit, WelcomeSlots(commit, after.chain, KeyFor(after), past))
         == Ok(WelcomeRead(after, commit.epoch - |past|, past + [KeyFor(after)]))
  {
    var s := WelcomeSlots(commit, after.chain, KeyFor(after), past);
    assert s.values[1..] == past + [KeyFor(after)];
  }

  lemma {:induction false} WelcomeIsTruthful(chains: seq<Chain>, acts: seq<Act>, n: nat, m: Member, h: nat)
    requires Histories(chains, acts) && 1 <= n <= |acts| && h < n
    requires Truthful(chains, n - 1, m)
    ensures var m' := Meet(chains, acts[n - 1], n, m, Welcome(h));
      && Truthful(chains, n, m')
      && m'.chain == Some(chains[n])
      && n in m'.keys
  {
    HistoryStep(chains, acts, n);
    WelcomeStep(chains, acts[n - 1], n, m, h);
  }

  lemma {:induction false} WelcomeStep(chains: seq<Chain>, act: Act, n: nat, m: Member, h: nat)
    requires 1 <= n < |chains| && h < n && chains[n].epoch == n
    requires Welcomed(CommitFor(n, chains[n - 1], act), chains[n].chain) == chains[n]
    requires Truthful(chains, n - 1, m)
    ensures var m' := Meet(chains, act, n, m, Welcome(h));
      Truthful(chains, n, m') && m'.chain == Some(chains[n]) && n in m'.keys
  {
    var ks := KeysBetween(chains, n - h, n) + [KeyFor(chains[n])];
    WelcomeGives(chains, act, n, m, h);
    PutKeysTrue(chains, n, m.keys, n - h, ks);
  }

  lemma {:induction false} WelcomeGives(chains: seq<Chain>, act: Act, n: nat, m: Member, h: nat)
    requires 1 <= n < |chains| && h < n && chains[n].epoch == n
    requires Welcomed(CommitFor(n, chains[n - 1], act), chains[n].chain) == chains[n]
    ensures var ks := KeysBetween(chains, n - h, n) + [KeyFor(chains[n])];
      && Meet(chains, act, n, m, Welcome(h)) == Member(Some(chains[n]), PutKeys(m.keys, n - h, ks))
      && |ks| == h + 1 && forall j :: 0 <= j < |ks| ==> ks[j] == KeyFor(chains[n - h + j])
  {
    WelcomeRoundTrip(CommitFor(n, chains[n - 1], act), chains[n], KeysBetween(chains, n - h, n));
  }

  /** Committing, and deriving from a commit secret, move exactly a chain that stands one epoch below. */
  lemma {:induction false} MovingIsTruthful(chains: seq<Chain>, acts: seq<Act>, n: nat, m: Member, w: Way)
    requires Histories(chains, acts) && 1 <= n <= |acts| && (w.Committed? || w.Secret?)
    requires Truthful(chains, n - 1, m)
    ensures var m' := Meet(chains, acts[n - 1], n, m, w);
      && Truthful(chains, n, m')
      && (m.chain == Some(chains[n - 1]) ==> m'.chain == Some(chains[n]) && n in m'.keys)
      && (m.chain != Some(chains[n - 1]) ==> m' == m)
  {
    HistoryStep(chains, acts, n);
    if m.chain.Some? && m.chain != Some(chains[n - 1]) {
      assert m.chain.value.epoch != n - 1;
      CommitsExactlyWhenCurrent(n, m.chain.value, acts[n - 1]);
    }
  }

  /**
   The three ways agree. Whatever mixture of committing, deriving, being welcomed
   (any number of times, with any amount of history) and missing commits a device
   went through, it holds nothing but the channel's own chain and keys; and a
   device that met the newest commit stands at the newest chain.
   */
  lemma {:induction false} WaysAgree(chains: seq<Chain>, acts: seq<Act>, ways: seq<Way>, m: Member, n: nat)
    requires Histories(chains, acts) && |ways| == |acts| && n <= |acts|
    requires Truthful(chains, 0, m)
    ensures var d := Follow(chains, acts, ways, m, n);
      && Truthful(chains, n, d)
      && (Current(ways, n, m, chains[0]) ==> d.chain == Some(chains[n]) && (n > 0 ==> n in d.keys))
    decreases n
  {
    if n > 0 {
      WaysAgree(chains, acts, ways, m, n - 1);
      var before := Follow(chains, acts, ways, m, n - 1);
      match ways[n - 1] {
        case Missed =>
        case Welcome(h) => if h < n { WelcomeIsTruthful(chains, acts, n, before, h); }
        case _ => MovingIsTruthful(chains, acts, n, before, ways[n - 1]);
      }
    }
  }

  /** Two devices, each by its own ways, hold one chain, one transcript and one key wherever they overlap. */
  lemma {:induction false} DevicesAgree(
      chains: seq<Chain>, acts: seq<Act>, ways1: seq<Way>, ways2: seq<Way>, m1: Member, m2: Member, n1: nat, n2: nat)
    requires Histories(chains, acts) && |ways1| == |ways2| == |acts| && n1 <= |acts| && n2 <= |acts|
    requires Truthful(chains, 0, m1) && Truthful(chains, 0, m2)
    ensures var d1 := Follow(chains, acts, ways1, m1, n1);
            var d2 := Follow(chains, acts, ways2, m2, n2);
            && (d1.chain.Some? && d2.chain.Some? && d1.chain.value.epoch == d2.chain.value.epoch ==>
                  d1.chain == d2.chain)
            && (forall e :: e in d1.keys && e in d2.keys ==> d1.keys[e] == d2.keys[e])
  {
    WaysAgree(chains, acts, ways1, m1, n1);
    WaysAgree(chains, acts, ways2, m2, n2);
  }

  // ---- what a key says -------------------------------------------------------

  lemma {:induction false} SameChainSameAct(
      chains1: seq<Chain>, acts1: seq<Act>, chains2: seq<Chain>, acts2: seq<Act>, n: nat)
    requires Histories(chains1, acts1) && Histories(chains2, acts2) && 1 <= n <= |acts1| && n <= |acts2|
    requires chains1[n].chain == chains2[n].chain && chains1[n].transcript == chains2[n].transcript
    ensures chains1[n - 1] == chains2[n - 1] && acts1[n - 1] == acts2[n - 1]
  {
    HistoryStep(chains1, acts1, n);
    HistoryStep(chains2, acts2, n);
  }

  /**
   One key, one history. Two members who hold one epoch key, by whatever histories they came to it, came by
   the same chains from the first, and by the same commits: who made each, whom it added and removed, and its secret.
   */
  lemma {:induction false} OneKeyOneHistory(
      chains1: seq<Chain>, acts1: seq<Act>, chains2: seq<Chain>, acts2: seq<Act>, n: nat, i: nat)
    requires Histories(chains1, acts1) && Histories(chains2, acts2) && i <= n <= |acts1| && n <= |acts2|
    requires KeyFor(chains1[n]) == KeyFor(chains2[n])
    ensures chains1[i] == chains2[i] && (i < n ==> acts1[i] == acts2[i])
    decreases n - i
  {
    if i == n {
      HistoryEpochs(chains1, acts1, n);
      HistoryEpochs(chains2, acts2, n);
    } else {
      OneKeyOneHistory(chains1, acts1, chains2, acts2, n, i + 1);
      SameChainSameAct(chains1, acts1, chains2, acts2, i + 1);
    }
  }

  /** A `Welcome` that ends in the true key is taken exactly where it starts with the true chain. */
  lemma {:induction false} WrongChainIsRefused(commit: Commit, after: Chain, s: Slots)
    requires Welcomed(commit, after.chain) == after
    requires |s.values| >= 2 && s.fromEpoch + |s.values| - 1 == commit.epoch
    requires s.values[|s.values| - 1] == KeyFor(after)
    ensures ReadWelcome(commit, s).Ok? <==> s.values[0] == after.chain
    ensures ReadWelcome(commit, s).Ok? ==> ReadWelcome(commit, s).value.chain == after
  {
  }
}
