/**
 The durable half of an agreed channel on one device: the commits it has read,
 the commit secrets it has opened, and the chain the two are mixed into.

 `AdvanceAgreement` is the one place either arrival leads to. The theorem is that
 the order of arrival does not matter.
 */
module AgreedChannel {
  import opened Wrappers
  import opened ChainAgreement

  /** The `commitment` table of one channel, indexed by log sequence number. */
  type CommitTable = seq<Option<Commit>>
  type Secrets = map<Epoch, Bytes32>

  function Blank(n: nat): CommitTable { seq(n, _ => None) }

  /** `put_commit`: a row already held for a sequence number stays. */
  function PutCommit(t: CommitTable, at: nat, c: Commit): (t': CommitTable)
    ensures at < |t'| && |t| <= |t'|
  {
    if at >= |t| then t + Blank(at - |t|) + [Some(c)]
    else if t[at].Some? then t
    else t[at := Some(c)]
  }

  /** `put_contribution`: a secret already held for an epoch stays. */
  function PutSecret(s: Secrets, epoch: Epoch, secret: Bytes32): Secrets {
    if epoch in s then s else s[epoch := secret]
  }

  /** `forget_contributions_to`. */
  function Above(s: Secrets, epoch: Epoch): Secrets { map e | e in s && e > epoch :: s[e] }

  /** `highest_commit`. */
  function HighestCommit(t: CommitTable): (h: Epoch)
    ensures forall i :: 0 <= i < |t| && t[i].Some? ==> t[i].value.epoch <= h
  {
    if t == [] then 0
    else
      var rest := HighestCommit(t[..|t| - 1]);
      match t[|t| - 1]
      case None => rest
      case Some(c) => if c.epoch > rest then c.epoch else rest
  }

  predicate Fits(row: Option<Commit>, c: Chain, secret: Bytes32) {
    row.Some? && Advance(c, row.value, secret).Ok?
  }

  /** The first held commit, in log order from `from`, that takes `c` on with `secret`. */
  function FirstFit(t: CommitTable, from: nat, c: Chain, secret: Bytes32): (r: Option<Derived>)
    requires from <= |t|
    ensures r.Some? ==> r.value.chain.epoch == c.epoch + 1 <= HighestCommit(t)
    decreases |t| - from
  {
    if from == |t| then None
    else if Fits(t[from], c, secret) then Some(Advance(c, t[from].value, secret).value)
    else FirstFit(t, from + 1, c, secret)
  }

  /** Some held commit takes `c` on with `secret`. */
  ghost predicate AnyFits(t: CommitTable, c: Chain, secret: Bytes32) {
    exists i :: 0 <= i < |t| && Fits(t[i], c, secret)
  }

  lemma {:induction false} FirstFitSource(t: CommitTable, from: nat, c: Chain, secret: Bytes32) returns (i: nat)
    requires from <= |t| && FirstFit(t, from, c, secret).Some?
    ensures from <= i < |t| && Fits(t[i], c, secret)
    ensures Advance(c, t[i].value, secret) == Ok(FirstFit(t, from, c, secret).value)
    ensures forall j :: from <= j < i ==> !Fits(t[j], c, secret)
    decreases |t| - from
  {
    if Fits(t[from], c, secret) { i := from; } else { i := FirstFitSource(t, from + 1, c, secret); }
  }

  lemma {:induction false} FirstFitFinds(t: CommitTable, from: nat, c: Chain, secret: Bytes32, i: nat)
    requires from <= i < |t| && Fits(t[i], c, secret)
    ensures FirstFit(t, from, c, secret).Some?
    decreases |t| - from
  {
    if from < i { FirstFitFinds(t, from + 1, c, secret, i); }
  }

  lemma {:induction false} FirstFitExactly(t: CommitTable, c: Chain, secret: Bytes32)
    ensures FirstFit(t, 0, c, secret).Some? <==> AnyFits(t, c, secret)
  {
    if FirstFit(t, 0, c, secret).Some? {
      var i := FirstFitSource(t, 0, c, secret);
    }
    if AnyFits(t, c, secret) {
      var i :| 0 <= i < |t| && Fits(t[i], c, secret);
      FirstFitFinds(t, 0, c, secret, i);
    }
  }

  /** How far a device has come: its chain, and the epoch keys it holds. */
  datatype Progress = Progress(chain: Chain, keys: map<Epoch, Bytes32>)

  /** One epoch further, where both halves of it are held. */
  function Next(p: Progress, t: CommitTable, s: Secrets): (r: Option<Progress>)
    ensures r.Some? ==> r.value.chain.epoch == p.chain.epoch + 1 <= HighestCommit(t)
  {
    if p.chain.epoch + 1 !in s then None
    else match FirstFit(t, 0, p.chain, s[p.chain.epoch + 1])
      case None => None
      case Some(d) => Some(Progress(d.chain, PutKey(p.keys, d.chain.epoch, d.key)))
  }

  /** Every epoch both halves of are held, in turn, from `p`. */
  function CatchUp(p: Progress, t: CommitTable, s: Secrets): (r: Progress)
    ensures Next(r, t, s).None?
    ensures r.chain.epoch >= p.chain.epoch
    decreases HighestCommit(t) - p.chain.epoch
  {
    match Next(p, t, s)
    case None => p
    case Some(q) => CatchUp(q, t, s)
  }

  /** Both halves of epoch `e` are held: its secret, and a commit publishing that secret's contribution. */
  ghost predicate BothHalves(t: CommitTable, s: Secrets, e: Epoch) {
    && e in s
    && exists i :: 0 <= i < |t| && t[i].Some? && t[i].value.epoch == e && t[i].value.contribution == PublicOf(s[e])
  }

  lemma {:induction false} NextHoldsBoth(p: Progress, t: CommitTable, s: Secrets)
    requires Next(p, t, s).Some?
    ensures BothHalves(t, s, p.chain.epoch + 1)
  {
    var i := FirstFitSource(t, 0, p.chain, s[p.chain.epoch + 1]);
  }

  /**
   The result is the longest unbroken run: both halves of every epoch up to it are
   held and its key is kept, and the epoch after it lacks a secret or a commit that fits.
   */
  lemma {:induction false} CatchUpIsLongestRun(p: Progress, t: CommitTable, s: Secrets)
    ensures var r := CatchUp(p, t, s);
      && (forall e :: p.chain.epoch < e <= r.chain.epoch ==> BothHalves(t, s, e) && e in r.keys)
      && (r.chain.epoch + 1 in s ==> !AnyFits(t, r.chain, s[r.chain.epoch + 1]))
      && (forall e :: e in p.keys ==> e in r.keys && r.keys[e] == p.keys[e])
    decreases HighestCommit(t) - p.chain.epoch
  {
    match Next(p, t, s)
    case None =>
      if p.chain.epoch + 1 in s { FirstFitExactly(t, p.chain, s[p.chain.epoch + 1]); }
    case Some(q) =>
      NextHoldsBoth(p, t, s);
      CatchUpIsLongestRun(q, t, s);
  }

  /** Everything the device keeps for the channel that an arrival can touch. */
  datatype Store = Store(agreement: Option<Chain>, keys: map<Epoch, Bytes32>, commits: CommitTable, secrets: Secrets)

  /** `advance_agreement`, on the durable rows. */
  function AdvanceAgreement(st: Store): Store {
    if st.agreement.None? then st
    else
      var r := CatchUp(Progress(st.agreement.value, st.keys), st.commits, st.secrets);
      Store(Some(r.chain), r.keys, st.commits, Above(st.secrets, r.chain.epoch))
  }

  // ---- arrivals in any order --------------------------------------------

  datatype Arrival = CommitRead(at: nat, commit: Commit) | SecretOpened(epoch: Epoch, secret: Bytes32)

  /** One arrival: the row it brings, and then everything it makes derivable. */
  function Arrive(st: Store, a: Arrival): Store {
    match a
    case CommitRead(at, c) => AdvanceAgreement(st.(commits := PutCommit(st.commits, at, c)))
    case SecretOpened(e, x) => AdvanceAgreement(st.(secrets := PutSecret(st.secrets, e, x)))
  }

  function ArriveAll(st: Store, arrivals: seq<Arrival>): Store {
    if arrivals == [] then st
    else Arrive(ArriveAll(st, arrivals[..|arrivals| - 1]), arrivals[|arrivals| - 1])
  }

  function PutRow(t: CommitTable, a: Arrival): CommitTable {
    if a.CommitRead? then PutCommit(t, a.at, a.commit) else t
  }

  function PutBrought(s: Secrets, a: Arrival): Secrets {
    if a.SecretOpened? then PutSecret(s, a.epoch, a.secret) else s
  }

  /** The commit rows a run of arrivals leaves behind. */
  function Rows(t: CommitTable, arrivals: seq<Arrival>): CommitTable {
    if arrivals == [] then t
    else PutRow(Rows(t, arrivals[..|arrivals| - 1]), arrivals[|arrivals| - 1])
  }

  /** Every secret a run of arrivals brought, spent or not. */
  function Brought(s: Secrets, arrivals: seq<Arrival>): Secrets {
    if arrivals == [] then s
    else PutBrought(Brought(s, arrivals[..|arrivals| - 1]), arrivals[|arrivals| - 1])
  }

  predicate SamePlace(c: Commit, d: Commit) {
    c.epoch == d.epoch && c.transcript == d.transcript && c.contribution == d.contribution
  }

  /** No two different commits claim one place: one epoch, one transcript, one contribution. */
  ghost predicate Unambiguous(t: CommitTable) {
    forall i, j :: 0 <= i < |t| && 0 <= j < |t| && t[i].Some? && t[j].Some? ==>
      (SamePlace(t[i].value, t[j].value) ==> t[i] == t[j])
  }

  ghost predicate Extends(t: CommitTable, t': CommitTable) {
    |t| <= |t'| && forall i :: 0 <= i < |t| && t[i].Some? ==> t'[i] == t[i]
  }

  ghost predicate Keeps(s: Secrets, s': Secrets) {
    forall e :: e in s ==> e in s' && s'[e] == s[e]
  }

  /** Of the commits held, those that take `c` on with `x` are all one commit. */
  ghost predicate OneFits(t: CommitTable, c: Chain, x: Bytes32) {
    forall i, j :: 0 <= i < |t| && 0 <= j < |t| && Fits(t[i], c, x) && Fits(t[j], c, x) ==> t[i] == t[j]
  }

  /** There is one way on: at each chain the device comes to, one commit that fits the secret held. */
  ghost predicate OneWay(p: Progress, t: CommitTable, s: Secrets)
    decreases HighestCommit(t) - p.chain.epoch
  {
    && (p.chain.epoch + 1 in s ==> OneFits(t, p.chain, s[p.chain.epoch + 1]))
    && match Next(p, t, s)
       case None => true
       case Some(q) => OneWay(q, t, s)
  }

  /** So it is where no two commits claim one place, whatever secrets are held. */
  lemma {:induction false} UnambiguousIsOneWay(p: Progress, t: CommitTable, s: Secrets)
    requires Unambiguous(t)
    ensures OneWay(p, t, s)
    decreases HighestCommit(t) - p.chain.epoch
  {
    if p.chain.epoch + 1 in s {
      var x := s[p.chain.epoch + 1];
      forall i, j | 0 <= i < |t| && 0 <= j < |t| && Fits(t[i], p.chain, x) && Fits(t[j], p.chain, x)
        ensures t[i] == t[j]
      {
        assert SamePlace(t[i].value, t[j].value);
      }
    }
    match Next(p, t, s)
    case None =>
    case Some(q) => UnambiguousIsOneWay(q, t, s);
  }

  /** With more rows and more secrets in hand, a step that could be taken is still the step taken. */
  lemma {:induction false} NextIsStable(p: Progress, t: CommitTable, s: Secrets, t': CommitTable, s': Secrets)
    requires Extends(t, t') && Keeps(s, s') && Next(p, t, s).Some?
    requires OneFits(t', p.chain, s[p.chain.epoch + 1])
    ensures Next(p, t', s') == Next(p, t, s)
  {
    var x := s[p.chain.epoch + 1];
    var i := FirstFitSource(t, 0, p.chain, x);
    assert t'[i] == t[i];
    FirstFitFinds(t', 0, p.chain, x, i);
    var j := FirstFitSource(t', 0, p.chain, x);
    assert t'[i] == t'[j];
  }

  /** With less in hand there is one way on as well. */
  lemma {:induction false} OneWayBelow(p: Progress, t: CommitTable, s: Secrets, t': CommitTable, s': Secrets)
    requires Extends(t, t') && Keeps(s, s') && OneWay(p, t', s')
    ensures OneWay(p, t, s)
    decreases HighestCommit(t) - p.chain.epoch
  {
    if p.chain.epoch + 1 in s {
      var x := s[p.chain.epoch + 1];
      forall i, j | 0 <= i < |t| && 0 <= j < |t| && Fits(t[i], p.chain, x) && Fits(t[j], p.chain, x)
        ensures t[i] == t[j]
      {
        assert t'[i] == t[i] && t'[j] == t[j];
      }
    }
    match Next(p, t, s)
    case None =>
    case Some(q) =>
      NextIsStable(p, t, s, t', s');
      OneWayBelow(q, t, s, t', s');
  }

  /** With `t'` and `s'` a device takes the steps it takes with `t` and `s`. */
  ghost predicate Agrees(p: Progress, t: CommitTable, s: Secrets, t': CommitTable, s': Secrets)
    decreases HighestCommit(t) - p.chain.epoch
  {
    match Next(p, t, s)
    case None => true
    case Some(q) => Next(p, t', s') == Some(q) && Agrees(q, t, s, t', s')
  }

  lemma {:induction false} OneWayAgrees(p: Progress, t: CommitTable, s: Secrets, t': CommitTable, s': Secrets)
    requires Extends(t, t') && Keeps(s, s') && OneWay(p, t', s')
    ensures Agrees(p, t, s, t', s')
    decreases HighestCommit(t) - p.chain.epoch
  {
    match Next(p, t, s)
    case None =>
    case Some(q) =>
      NextIsStable(p, t, s, t', s');
      OneWayAgrees(q, t, s, t', s');
  }

  /** More secrets, and the same commits, change no step taken. */
  lemma {:induction false} SameTableAgrees(p: Progress, t: CommitTable, s: Secrets, s': Secrets)
    requires Keeps(s, s')
    ensures Agrees(p, t, s, t, s')
    decreases HighestCommit(t) - p.chain.epoch
  {
    match Next(p, t, s)
    case None =>
    case Some(q) => SameTableAgrees(q, t, s, s');
  }

  /** Stopping part of the way, with less in hand, loses nothing. */
  lemma {:induction false} CatchUpResumes(p: Progress, t: CommitTable, s: Secrets, t': CommitTable, s': Secrets)
    requires Agrees(p, t, s, t', s')
    ensures CatchUp(CatchUp(p, t, s), t', s') == CatchUp(p, t', s')
    decreases HighestCommit(t) - p.chain.epoch
  {
    match Next(p, t, s)
    case None =>
    case Some(q) => CatchUpResumes(q, t, s, t', s');
  }

  /** Secrets the chain has passed are never looked at again. */
  lemma {:induction false} PassedSecretsAreSpent(p: Progress, t: CommitTable, s: Secrets, low: Epoch)
    requires low <= p.chain.epoch
    ensures CatchUp(p, t, Above(s, low)) == CatchUp(p, t, s)
    decreases HighestCommit(t) - p.chain.epoch
  {
    assert Next(p, t, Above(s, low)) == Next(p, t, s);
    match Next(p, t, s)
    case None =>
    case Some(q) => PassedSecretsAreSpent(q, t, s, low);
  }

  /** What a device must hold once `t` and `s` are all that ever arrived. */
  ghost function Settled(c: Chain, keys: map<Epoch, Bytes32>, t: CommitTable, s: Secrets): Store {
    var r := CatchUp(Progress(c, keys), t, s);
    Store(Some(r.chain), r.keys, t, Above(s, r.chain.epoch))
  }

  lemma {:induction false} SettledResumes(
      c: Chain, keys: map<Epoch, Bytes32>, t: CommitTable, s: Secrets, t': CommitTable, s': Secrets)
    requires Agrees(Progress(c, keys), t, s, t', s')
    ensures var r := CatchUp(Progress(c, keys), t, s);
      AdvanceAgreement(Store(Some(r.chain), r.keys, t', Above(s', r.chain.epoch))) == Settled(c, keys, t', s')
  {
    var r := CatchUp(Progress(c, keys), t, s);
    var low := r.chain.epoch;
    CatchUpResumes(Progress(c, keys), t, s, t', s');
    PassedSecretsAreSpent(r, t', s', low);
    var r' := CatchUp(Progress(c, keys), t', s');
    assert Above(Above(s', low), r'.chain.epoch) == Above(s', r'.chain.epoch);
  }

  /** A secret for an epoch already derived is dropped on arrival. */
  lemma {:induction false} LateSecret(r: Progress, t: CommitTable, s: Secrets, e: Epoch, x: Bytes32)
    requires Next(r, t, s).None? && e <= r.chain.epoch
    ensures var low := Above(s, r.chain.epoch);
      AdvanceAgreement(Store(Some(r.chain), r.keys, t, PutSecret(low, e, x))) == Store(Some(r.chain), r.keys, t, low)
  {
    var low := Above(s, r.chain.epoch);
    var put := PutSecret(low, e, x);
    PassedSecretsAreSpent(r, t, put, r.chain.epoch);
    PassedSecretsAreSpent(r, t, s, r.chain.epoch);
    assert Above(put, r.chain.epoch) == low;
  }

  /** One arrival, to a device that has derived all it can. */
  lemma {:induction false} ArrivalSettles(
      c: Chain, keys: map<Epoch, Bytes32>, t: CommitTable, s: Secrets, a: Arrival)
    requires Agrees(Progress(c, keys), t, s, PutRow(t, a), PutBrought(s, a))
    ensures Arrive(Settled(c, keys, t, s), a) == Settled(c, keys, PutRow(t, a), PutBrought(s, a))
  {
    var t', s' := PutRow(t, a), PutBrought(s, a);
    var r := CatchUp(Progress(c, keys), t, s);
    SettledResumes(c, keys, t, s, t', s');
    if a.SecretOpened? {
      if a.epoch <= r.chain.epoch {
        LateSecret(r, t, s, a.epoch, a.secret);
        assert Above(s', r.chain.epoch) == Above(s, r.chain.epoch);
        LateSecret(r, t, s', a.epoch, a.secret);
      } else {
        assert PutSecret(Above(s, r.chain.epoch), a.epoch, a.secret) == Above(s', r.chain.epoch);
      }
    }
  }

  /** Step by step: however the arrivals fell, the device stands where all of them together put it. */
  lemma {:induction false} ArrivalsSettle(
      c: Chain, keys: map<Epoch, Bytes32>, t: CommitTable, s: Secrets, arrivals: seq<Arrival>)
    requires OneWay(Progress(c, keys), Rows(t, arrivals), Brought(s, arrivals))
    ensures ArriveAll(Settled(c, keys, t, s), arrivals)
         == Settled(c, keys, Rows(t, arrivals), Brought(s, arrivals))
    decreases |arrivals|
  {
    if arrivals != [] {
      var init, a := arrivals[..|arrivals| - 1], arrivals[|arrivals| - 1];
      var t0, s0, p := Rows(t, init), Brought(s, init), Progress(c, keys);
      OneWayBelow(p, t0, s0, PutRow(t0, a), PutBrought(s0, a));
      ArrivalsSettle(c, keys, t, s, init);
      OneWayAgrees(p, t0, s0, PutRow(t0, a), PutBrought(s0, a));
      ArrivalSettles(c, keys, t0, s0, a);
    }
  }

  // ---- one set of arrivals, two orders -----------------------------------

  /** One log position holds one commit, and one epoch was sent one secret. */
  ghost predicate Consistent(arrivals: seq<Arrival>) {
    forall i, j :: 0 <= i < |arrivals| && 0 <= j < |arrivals| ==>
      && (arrivals[i].CommitRead? && arrivals[j].CommitRead? && arrivals[i].at == arrivals[j].at ==>
            arrivals[i] == arrivals[j])
      && (arrivals[i].SecretOpened? && arrivals[j].SecretOpened? && arrivals[i].epoch == arrivals[j].epoch ==>
            arrivals[i] == arrivals[j])
  }

  ghost predicate SameArrivals(a: seq<Arrival>, b: seq<Arrival>) {
    forall x :: x in a <==> x in b
  }

  ghost predicate SameCommits(a: seq<Arrival>, b: seq<Arrival>) {
    forall x: Arrival :: x.CommitRead? ==> (x in a <==> x in b)
  }

  ghost predicate SameBrought(a: seq<Arrival>, b: seq<Arrival>) {
    forall x: Arrival :: x.SecretOpened? ==> (x in a <==> x in b)
  }

  /** From an empty table, exactly the commits read are in it, each at its place. */
  lemma {:induction false} RowsAre(arrivals: seq<Arrival>, i: nat, c: Commit)
    requires Consistent(arrivals)
    ensures (i < |Rows([], arrivals)| && Rows([], arrivals)[i] == Some(c)) <==> CommitRead(i, c) in arrivals
    decreases |arrivals|
  {
    if arrivals != [] {
      var init, a := arrivals[..|arrivals| - 1], arrivals[|arrivals| - 1];
      assert arrivals == init + [a];
      assert Consistent(init);
      RowsAre(init, i, c);
      if a.CommitRead? && a.at == i {
        if i < |Rows([], init)| && Rows([], init)[i].Some? {
          RowsAre(init, i, Rows([], init)[i].value);
        }
      }
    }
  }

  lemma {:induction false} RowsReach(arrivals: seq<Arrival>) returns (c: Commit)
    requires Rows([], arrivals) != []
    ensures var n := |Rows([], arrivals)| - 1; Rows([], arrivals)[n] == Some(c)
    decreases |arrivals|
  {
    var init, a := arrivals[..|arrivals| - 1], arrivals[|arrivals| - 1];
    var before := Rows([], init);
    if a.CommitRead? && a.at >= |before| {
      c := a.commit;
    } else {
      c := RowsReach(init);
    }
  }

  lemma {:induction false} RowsNoLonger(a: seq<Arrival>, b: seq<Arrival>)
    requires Consistent(a) && Consistent(b) && SameCommits(a, b)
    ensures |Rows([], a)| <= |Rows([], b)|
  {
    if Rows([], a) != [] {
      var c := RowsReach(a);
      RowsAre(a, |Rows([], a)| - 1, c);
      RowsAre(b, |Rows([], a)| - 1, c);
    }
  }

  lemma {:induction false} SameRows(a: seq<Arrival>, b: seq<Arrival>)
    requires Consistent(a) && Consistent(b) && SameCommits(a, b)
    ensures Rows([], a) == Rows([], b)
  {
    RowsNoLonger(a, b);
    RowsNoLonger(b, a);
    var ra, rb := Rows([], a), Rows([], b);
    forall i | 0 <= i < |ra| ensures ra[i] == rb[i] {
      if ra[i].Some? { RowsAre(a, i, ra[i].value); RowsAre(b, i, ra[i].value); }
      if rb[i].Some? { RowsAre(a, i, rb[i].value); RowsAre(b, i, rb[i].value); }
    }
  }

  lemma {:induction false} BroughtAre(arrivals: seq<Arrival>, e: Epoch, x: Bytes32)
    requires Consistent(arrivals)
    ensures (e in Brought(map[], arrivals) && Brought(map[], arrivals)[e] == x) <==> SecretOpened(e, x) in arrivals
    decreases |arrivals|
  {
    if arrivals != [] {
      var init, a := arrivals[..|arrivals| - 1], arrivals[|arrivals| - 1];
      assert arrivals == init + [a];
      assert Consistent(init);
      BroughtAre(init, e, x);
      if a.SecretOpened? && a.epoch == e && e in Brought(map[], init) {
        BroughtAre(init, e, Brought(map[], init)[e]);
      }
    }
  }

  lemma {:induction false} SameSecrets(a: seq<Arrival>, b: seq<Arrival>)
    requires Consistent(a) && Consistent(b) && SameBrought(a, b)
    ensures Brought(map[], a) == Brought(map[], b)
  {
    var sa, sb := Brought(map[], a), Brought(map[], b);
    forall e ensures e in sa <==> e in sb
      ensures e in sa ==> sa[e] == sb[e]
    {
      if e in sa { BroughtAre(a, e, sa[e]); BroughtAre(b, e, sa[e]); }
      if e in sb { BroughtAre(a, e, sb[e]); BroughtAre(b, e, sb[e]); }
    }
    assert sa.Keys == sb.Keys;
  }

  /**
   Confluence. Where there is one way on, the same commits and commit secrets, arriving in any
   two orders and any number of times each, leave the same chain, the same keys and the same
   waiting secrets: those of the longest unbroken run.
   */
  lemma {:induction false} ArrivalOrderDoesNotMatter(
      c: Chain, keys: map<Epoch, Bytes32>, a: seq<Arrival>, b: seq<Arrival>)
    requires Consistent(a) && Consistent(b) && SameArrivals(a, b)
    requires OneWay(Progress(c, keys), Rows([], a), Brought(map[], a))
    ensures var start := Store(Some(c), keys, [], map[]);
      && ArriveAll(start, a) == ArriveAll(start, b)
      && ArriveAll(start, a) == Settled(c, keys, Rows([], a), Brought(map[], a))
  {
    SameRows(a, b);
    SameSecrets(a, b);
    ArrivalsSettle(c, keys, [], map[], a);
    ArrivalsSettle(c, keys, [], map[], b);
    assert Settled(c, keys, [], map[]) == Store(Some(c), keys, [], map[]);
  }

  /** A commit secret the chain has not reached is still there, whatever else arrived. */
  lemma {:induction false} SecretsAboveSurvive(
      c: Chain, keys: map<Epoch, Bytes32>, a: seq<Arrival>, e: Epoch, x: Bytes32)
    requires Consistent(a) && SecretOpened(e, x) in a
    requires OneWay(Progress(c, keys), Rows([], a), Brought(map[], a))
    ensures var st := ArriveAll(Store(Some(c), keys, [], map[]), a);
      && st.agreement.Some?
      && (e > st.agreement.value.epoch ==> e in st.secrets && st.secrets[e] == x)
      && (e <= st.agreement.value.epoch ==> e !in st.secrets)
  {
    ArrivalOrderDoesNotMatter(c, keys, a, a);
    BroughtAre(a, e, x);
  }

  /**
   As `ArriveAll`, but a commit read is derived from at once only where `derive` says so:
   `note_commits` writes the rows of a page and leaves deriving for later.
   */
  function ArriveLazily(st: Store, arrivals: seq<Arrival>, derive: nat -> bool): Store {
    if arrivals == [] then st
    else
      var n := |arrivals| - 1;
      var before, a := ArriveLazily(st, arrivals[..n], derive), arrivals[n];
      if a.CommitRead? && !derive(n) then before.(commits := PutCommit(before.commits, a.at, a.commit))
      else Arrive(before, a)
  }

  /** All of `t` and `s` has arrived, and the device has derived from `t0` and `s0`, perhaps less. */
  ghost predicate Behind(
      st: Store, c: Chain, keys: map<Epoch, Bytes32>, t: CommitTable, s: Secrets, t0: CommitTable, s0: Secrets)
  {
    && Extends(t0, t) && Keeps(s0, s)
    && var r := CatchUp(Progress(c, keys), t0, s0);
       st == Store(Some(r.chain), r.keys, t, Above(s, r.chain.epoch))
  }

  /** A secret that arrives, to a device that may be behind. */
  lemma {:induction false} SecretCatchesUp(
      st: Store, c: Chain, keys: map<Epoch, Bytes32>, t: CommitTable, s: Secrets, t0: CommitTable, s0: Secrets,
      e: Epoch, x: Bytes32)
    requires Behind(st, c, keys, t, s, t0, s0) && OneWay(Progress(c, keys), t, PutSecret(s, e, x))
    ensures Arrive(st, SecretOpened(e, x)) == Settled(c, keys, t, PutSecret(s, e, x))
  {
    var r := CatchUp(Progress(c, keys), t0, s0);
    var low, s' := r.chain.epoch, PutSecret(s, e, x);
    OneWayAgrees(Progress(c, keys), t0, s0, t, s');
    SettledResumes(c, keys, t0, s0, t, s');
    AboveWithOneMore(s, low, e, x);
    SameAbove(r.chain, r.keys, t, PutSecret(Above(s, low), e, x), Above(s', low));
  }

  lemma {:induction false} AboveWithOneMore(s: Secrets, low: Epoch, e: Epoch, x: Bytes32)
    ensures Above(PutSecret(Above(s, low), e, x), low) == Above(Above(PutSecret(s, e, x), low), low)
  {
  }

  /** Secrets at or below the chain make no difference. */
  lemma {:induction false} SameAbove(c: Chain, keys: map<Epoch, Bytes32>, t: CommitTable, s1: Secrets, s2: Secrets)
    requires Above(s1, c.epoch) == Above(s2, c.epoch)
    ensures AdvanceAgreement(Store(Some(c), keys, t, s1)) == AdvanceAgreement(Store(Some(c), keys, t, s2))
  {
    var p, low := Progress(c, keys), c.epoch;
    PassedSecretsAreSpent(p, t, s1, low);
    PassedSecretsAreSpent(p, t, s2, low);
    HigherStill(s1, low, CatchUp(p, t, s1).chain.epoch);
    HigherStill(s2, low, CatchUp(p, t, s1).chain.epoch);
  }

  lemma {:induction false} HigherStill(s: Secrets, low: Epoch, high: Epoch)
    requires low <= high
    ensures Above(Above(s, low), high) == Above(s, high)
  {
  }

  lemma {:induction false} ArrivalCatchesUp(
      st: Store, c: Chain, keys: map<Epoch, Bytes32>, t: CommitTable, s: Secrets, t0: CommitTable, s0: Secrets,
      a: Arrival)
    requires Behind(st, c, keys, t, s, t0, s0) && OneWay(Progress(c, keys), PutRow(t, a), PutBrought(s, a))
    ensures Arrive(st, a) == Settled(c, keys, PutRow(t, a), PutBrought(s, a))
  {
    match a
    case CommitRead(at, k) =>
      OneWayAgrees(Progress(c, keys), t0, s0, PutRow(t, a), s);
      SettledResumes(c, keys, t0, s0, PutRow(t, a), s);
    case SecretOpened(e, x) => SecretCatchesUp(st, c, keys, t, s, t0, s0, e, x);
  }

  lemma {:induction false} LazilyBehind(
      c: Chain, keys: map<Epoch, Bytes32>, arrivals: seq<Arrival>, derive: nat -> bool)
      returns (t0: CommitTable, s0: Secrets)
    requires OneWay(Progress(c, keys), Rows([], arrivals), Brought(map[], arrivals))
    ensures var st := ArriveLazily(Store(Some(c), keys, [], map[]), arrivals, derive);
      Behind(st, c, keys, Rows([], arrivals), Brought(map[], arrivals), t0, s0)
    decreases |arrivals|
  {
    var start := Store(Some(c), keys, [], map[]);
    if arrivals == [] {
      t0, s0 := [], map[];
      assert Above(map[], c.epoch) == map[];
    } else {
      var n := |arrivals| - 1;
      var init, a := arrivals[..n], arrivals[n];
      var t, s := Rows([], init), Brought(map[], init);
      OneWayBelow(Progress(c, keys), t, s, PutRow(t, a), PutBrought(s, a));
      t0, s0 := LazilyBehind(c, keys, init, derive);
      var st := ArriveLazily(start, init, derive);
      if a.SecretOpened? || derive(n) {
        ArrivalCatchesUp(st, c, keys, t, s, t0, s0, a);
        t0, s0 := PutRow(t, a), PutBrought(s, a);
      } else {
        assert Extends(t, PutRow(t, a));
      }
    }
  }

  /**
   Nor does it matter when a device derives: rows noted in any order and derived from at any
   moments, once it does derive the device stands where everything that arrived puts it.
   */
  lemma {:induction false} DerivingLaterIsTheSame(
      c: Chain, keys: map<Epoch, Bytes32>, arrivals: seq<Arrival>, derive: nat -> bool)
    requires OneWay(Progress(c, keys), Rows([], arrivals), Brought(map[], arrivals))
    ensures AdvanceAgreement(ArriveLazily(Store(Some(c), keys, [], map[]), arrivals, derive))
         == Settled(c, keys, Rows([], arrivals), Brought(map[], arrivals))
  {
    var t0, s0 := LazilyBehind(c, keys, arrivals, derive);
    OneWayAgrees(Progress(c, keys), t0, s0, Rows([], arrivals), Brought(map[], arrivals));
    SettledResumes(c, keys, t0, s0, Rows([], arrivals), Brought(map[], arrivals));
  }

  // ---- a chain records what made it ----------------------------------------

  /** A chain secret, `n` commits ago. */
  function Unwound(c: Bytes32, n: nat): Bytes32 {
    if n == 0 || !c.ChainOf? then c else Unwound(c.prevChain, n - 1)
  }

  lemma {:induction false} UnwoundFurther(c: Bytes32, n: nat)
    requires Unwound(c, n).ChainOf?
    ensures Unwound(c, n + 1) == Unwound(c, n).prevChain
    decreases n
  {
    if n > 0 { UnwoundFurther(c.prevChain, n - 1); }
  }

  /** From where a chain has come to, each commit secret on the way can be read back. */
  lemma {:induction false} ChainRecords(p: Progress, t: CommitTable, s: Secrets, e: Epoch)
    requires p.chain.epoch <= e <= CatchUp(p, t, s).chain.epoch
    ensures var r := CatchUp(p, t, s); var back := Unwound(r.chain.chain, r.chain.epoch - e);
      if e == p.chain.epoch then back == p.chain.chain else e in s && back.ChainOf? && back.commitSecret == s[e]
    decreases HighestCommit(t) - p.chain.epoch
  {
    match Next(p, t, s)
    case None =>
    case Some(q) =>
      var r := CatchUp(p, t, s);
      var i := FirstFitSource(t, 0, p.chain, s[p.chain.epoch + 1]);
      ChainRecords(q, t, s, q.chain.epoch);
      if e == p.chain.epoch {
        UnwoundFurther(r.chain.chain, r.chain.epoch - q.chain.epoch);
      } else {
        ChainRecords(q, t, s, e);
      }
  }

  // ---- stopping part of the way ----------------------------------------------

  /**
   One epoch's writes are the key, the chain and the secret spent; stopped after any of them,
   deriving again ends the same.
   */
  lemma {:induction false} StoppedWhileDeriving(st: Store, q: Progress)
    requires st.agreement.Some? && Next(Progress(st.agreement.value, st.keys), st.commits, st.secrets) == Some(q)
    ensures AdvanceAgreement(st.(keys := q.keys)) == AdvanceAgreement(st)
    ensures AdvanceAgreement(st.(keys := q.keys, agreement := Some(q.chain))) == AdvanceAgreement(st)
    ensures AdvanceAgreement(st.(keys := q.keys, agreement := Some(q.chain), secrets := st.secrets - {q.chain.epoch}))
         == AdvanceAgreement(st)
  {
    var e, s := q.chain.epoch, st.secrets;
    assert Next(Progress(st.agreement.value, q.keys), st.commits, s) == Some(q);
    PassedSecretsAreSpent(q, st.commits, s, e);
    PassedSecretsAreSpent(q, st.commits, s - {e}, e);
    assert Above(s, e) == Above(s - {e}, e);
    var low := CatchUp(q, st.commits, s).chain.epoch;
    assert Above(s, low) == Above(s - {e}, low);
  }

  /** Having derived everything, deriving again changes nothing, whether or not the spent secrets have gone. */
  lemma {:induction false} DerivedAlready(st: Store)
    requires st.agreement.Some? && Next(Progress(st.agreement.value, st.keys), st.commits, st.secrets).None?
    ensures AdvanceAgreement(st.(secrets := Above(st.secrets, st.agreement.value.epoch))) == AdvanceAgreement(st)
    ensures AdvanceAgreement(st) == st.(secrets := Above(st.secrets, st.agreement.value.epoch))
  {
    var p, low := Progress(st.agreement.value, st.keys), st.agreement.value.epoch;
    PassedSecretsAreSpent(p, st.commits, st.secrets, low);
    assert Above(Above(st.secrets, low), low) == Above(st.secrets, low);
  }

  /**
   The shortest such case: two different commits that fit where the device starts take it to two
   places in two orders.
   */
  lemma {:induction false} AmbiguousCommitsDiverge(c: Chain, x: Bytes32, k0: Commit, k1: Commit)
    requires Advance(c, k0, x).Ok? && Advance(c, k1, x).Ok? && k0 != k1
    ensures !Unambiguous([Some(k0), Some(k1)])
    ensures var start := Store(Some(c), map[], [], map[]);
      Arrive(Arrive(Arrive(start, CommitRead(0, k0)), CommitRead(1, k1)), SecretOpened(c.epoch + 1, x)).agreement
      != Arrive(Arrive(Arrive(start, CommitRead(1, k1)), SecretOpened(c.epoch + 1, x)), CommitRead(0, k0)).agreement
  {
    var t0: CommitTable := [Some(k0), Some(k1)];
    var t1: CommitTable := [None, Some(k1)];
    assert SamePlace(t0[0].value, t0[1].value);
    var start := Store(Some(c), map[], [], map[]);
    var e := c.epoch + 1;
    // Read both, then open the secret: the commit at the lower position is taken.
    var a0 := Arrive(start, CommitRead(0, k0));
    assert a0 == start.(commits := [Some(k0)]);
    var a1 := Arrive(a0, CommitRead(1, k1));
    assert a1 == start.(commits := t0);
    assert FirstFit(t0, 0, c, x) == Some(Advance(c, k0, x).value);
    var d0 := Advance(c, k0, x).value;
    assert Next(Progress(c, map[]), t0, map[e := x]) == Some(Progress(d0.chain, map[e := d0.key]));
    assert CatchUp(Progress(c, map[]), t0, map[e := x]) == Progress(d0.chain, map[e := d0.key]);
    assert Arrive(a1, SecretOpened(e, x)).agreement == Some(d0.chain);
    // Open the secret before the lower position is read: the other commit is taken.
    var b0 := Arrive(start, CommitRead(1, k1));
    assert PutCommit([], 1, k1) == t1;
    assert b0 == start.(commits := t1);
    assert FirstFit(t1, 1, c, x) == Some(Advance(c, k1, x).value);
    var d1 := Advance(c, k1, x).value;
    assert Next(Progress(c, map[]), t1, map[e := x]) == Some(Progress(d1.chain, map[e := d1.key]));
    assert CatchUp(Progress(c, map[]), t1, map[e := x]) == Progress(d1.chain, map[e := d1.key]);
    var b1 := Arrive(b0, SecretOpened(e, x));
    assert b1 == Store(Some(d1.chain), map[e := d1.key], t1, map[]);
    assert Arrive(b1, CommitRead(0, k0)).agreement == Some(d1.chain);
  }
}
