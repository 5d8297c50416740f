/**
 When the order of arrival matters, exactly.

 `AgreedChannel.ArrivalOrderDoesNotMatter` says that it does not where there is one way on. Here is
 the other half: where, at some chain the device comes to, two different commits fit the secret
 held, holding back the one that would be taken until the chain has passed leaves another chain.
 */
module ArrivalOrder {
  import opened Wrappers
  import opened ChainAgreement
  import opened AgreedChannel

  // ---- a transcript records its commits ------------------------------------

  /** A transcript, `n` commits ago. */
  function Earlier(x: Bytes32, n: nat): Bytes32 {
    if n == 0 || !x.TranscriptOf? then x else Earlier(x.previous, n - 1)
  }

  lemma {:induction false} EarlierStill(x: Bytes32, m: nat, n: nat)
    ensures Earlier(x, m + n) == Earlier(Earlier(x, m), n)
    decreases m
  {
    if m > 0 && x.TranscriptOf? { EarlierStill(x.previous, m - 1, n); }
  }

  /** `d` is `c`, or was reached from it by commits. */
  ghost predicate Descends(c: Chain, d: Chain) {
    c.epoch <= d.epoch && Earlier(d.transcript, d.epoch - c.epoch) == c.transcript
  }

  lemma {:induction false} DescendsFurther(b: Chain, c: Chain, d: Chain)
    requires Descends(b, c) && Descends(c, d)
    ensures Descends(b, d)
  {
    EarlierStill(d.transcript, d.epoch - c.epoch, c.epoch - b.epoch);
  }

  lemma {:induction false} NextDescends(p: Progress, t: CommitTable, s: Secrets)
    requires Next(p, t, s).Some?
    ensures Descends(p.chain, Next(p, t, s).value.chain)
  {
    var i := FirstFitSource(t, 0, p.chain, s[p.chain.epoch + 1]);
    var next := TranscriptOf(p.chain.transcript, t[i].value);
    assert Earlier(next, 1) == Earlier(next.previous, 0);
  }

  lemma {:induction false} CatchUpDescends(p: Progress, t: CommitTable, s: Secrets)
    ensures Descends(p.chain, CatchUp(p, t, s).chain)
    decreases HighestCommit(t) - p.chain.epoch
  {
    match Next(p, t, s)
    case None =>
    case Some(q) =>
      NextDescends(p, t, s);
      CatchUpDescends(q, t, s);
      DescendsFurther(p.chain, q.chain, CatchUp(q, t, s).chain);
  }

  /** Nothing that arrives takes a device off the way it has come. */
  lemma {:induction false} ArrivalsDescend(st: Store, arrivals: seq<Arrival>)
    requires st.agreement.Some?
    ensures var end := ArriveAll(st, arrivals).agreement;
      end.Some? && Descends(st.agreement.value, end.value)
    decreases |arrivals|
  {
    if arrivals != [] {
      var init, a := arrivals[..|arrivals| - 1], arrivals[|arrivals| - 1];
      ArrivalsDescend(st, init);
      var before := ArriveAll(st, init);
      var put := before.(commits := PutRow(before.commits, a), secrets := PutBrought(before.secrets, a));
      assert Arrive(before, a) == AdvanceAgreement(put);
      CatchUpDescends(Progress(put.agreement.value, put.keys), put.commits, put.secrets);
      DescendsFurther(st.agreement.value, before.agreement.value, AdvanceAgreement(put).agreement.value);
    }
  }

  // ---- the chains a device comes to -----------------------------------------

  /** Deriving from `p`, the device comes to `q`. */
  ghost predicate Reaches(p: Progress, t: CommitTable, s: Secrets, q: Progress)
    decreases HighestCommit(t) - p.chain.epoch
  {
    || p == q
    || match Next(p, t, s)
       case None => false
       case Some(r) => Reaches(r, t, s, q)
  }

  lemma {:induction false} ReachedIsPassed(p: Progress, t: CommitTable, s: Secrets, q: Progress)
    requires Reaches(p, t, s, q)
    ensures CatchUp(p, t, s) == CatchUp(q, t, s) && p.chain.epoch <= q.chain.epoch
    decreases HighestCommit(t) - p.chain.epoch
  {
    if p != q { ReachedIsPassed(Next(p, t, s).value, t, s, q); }
  }

  /** Where there is not one way on, there is a place where two commits fit. */
  lemma {:induction false} TwoFitSomewhere(p: Progress, t: CommitTable, s: Secrets) returns (q: Progress)
    requires !OneWay(p, t, s)
    ensures Reaches(p, t, s, q) && q.chain.epoch + 1 in s && !OneFits(t, q.chain, s[q.chain.epoch + 1])
    decreases HighestCommit(t) - p.chain.epoch
  {
    if p.chain.epoch + 1 in s && !OneFits(t, p.chain, s[p.chain.epoch + 1]) {
      q := p;
    } else {
      q := TwoFitSomewhere(Next(p, t, s).value, t, s);
    }
  }

  /** `u` is `t` without the rows holding `k`. */
  ghost predicate Lacks(t: CommitTable, k: Commit, u: CommitTable) {
    forall i: nat, d: Commit :: Held(u, i, d) <==> Held(t, i, d) && d != k
  }

  predicate Held(t: CommitTable, i: nat, d: Commit) { i < |t| && t[i] == Some(d) }

  /** Where `k` does not fit, leaving it out makes no difference. */
  lemma {:induction false} NextWithout(p: Progress, t: CommitTable, s: Secrets, k: Commit, u: CommitTable)
    requires Lacks(t, k, u) && k.epoch != p.chain.epoch + 1
    ensures Next(p, u, s) == Next(p, t, s)
  {
    var c := p.chain;
    if c.epoch + 1 in s {
      var x := s[c.epoch + 1];
      if FirstFit(t, 0, c, x).Some? {
        var i := FirstFitSource(t, 0, c, x);
        assert Held(t, i, t[i].value);
        assert Held(u, i, t[i].value);
        FirstFitFinds(u, 0, c, x, i);
        var j := FirstFitSource(u, 0, c, x);
        assert Held(u, j, u[j].value);
        assert Held(t, j, u[j].value);
      } else if FirstFit(u, 0, c, x).Some? {
        var j := FirstFitSource(u, 0, c, x);
        assert Held(u, j, u[j].value);
        assert Held(t, j, u[j].value);
        FirstFitFinds(t, 0, c, x, j);
      }
    }
  }

  lemma {:induction false} ReachedWithout(
      p: Progress, t: CommitTable, s: Secrets, q: Progress, k: Commit, u: CommitTable)
    requires Reaches(p, t, s, q) && Lacks(t, k, u) && k.epoch == q.chain.epoch + 1
    ensures Reaches(p, u, s, q)
    decreases HighestCommit(t) - p.chain.epoch
  {
    if p != q {
      var r := Next(p, t, s).value;
      ReachedIsPassed(r, t, s, q);
      NextWithout(p, t, s, k, u);
      ReachedWithout(r, t, s, q, k, u);
    }
  }

  /** The step taken from `q` records the commit taken. */
  ghost predicate Takes(q: Progress, t: CommitTable, s: Secrets, k: Commit) {
    && Next(q, t, s).Some?
    && k.epoch == q.chain.epoch + 1
    && Next(q, t, s).value.chain.transcript == TranscriptOf(q.chain.transcript, k)
  }

  lemma {:induction false} SomethingIsTaken(q: Progress, t: CommitTable, s: Secrets, i: nat) returns (k: Commit, j: nat)
    requires q.chain.epoch + 1 in s && i < |t| && Fits(t[i], q.chain, s[q.chain.epoch + 1])
    ensures Takes(q, t, s, k) && Held(t, j, k)
  {
    var x := s[q.chain.epoch + 1];
    FirstFitFinds(t, 0, q.chain, x, i);
    j := FirstFitSource(t, 0, q.chain, x);
    k := t[j].value;
  }

  /** Without the commit that would be taken, another one is. */
  lemma {:induction false} AnotherIsTaken(q: Progress, t: CommitTable, s: Secrets, k: Commit, u: CommitTable)
      returns (k': Commit)
    requires q.chain.epoch + 1 in s && !OneFits(t, q.chain, s[q.chain.epoch + 1]) && Lacks(t, k, u)
    ensures Takes(q, u, s, k') && k' != k
  {
    var x := s[q.chain.epoch + 1];
    var i, j :| 0 <= i < |t| && 0 <= j < |t| && Fits(t[i], q.chain, x) && Fits(t[j], q.chain, x) && t[i] != t[j];
    var other := if t[i] == Some(k) then j else i;
    assert Held(t, other, t[other].value);
    assert Held(u, other, t[other].value);
    var at;
    k', at := SomethingIsTaken(q, u, s, other);
  }

  /** What was taken from a place the device came to stays in its transcript. */
  lemma {:induction false} TakenIsRecorded(p: Progress, t: CommitTable, s: Secrets, q: Progress, k: Commit)
    requires Reaches(p, t, s, q) && Takes(q, t, s, k)
    ensures Descends(Next(q, t, s).value.chain, CatchUp(p, t, s).chain)
  {
    ReachedIsPassed(p, t, s, q);
    CatchUpDescends(Next(q, t, s).value, t, s);
  }

  // ---- two orders of one set of arrivals -------------------------------------

  /** The arrivals for which `f` holds, in their order. */
  function Pick(a: seq<Arrival>, f: Arrival -> bool): (r: seq<Arrival>)
    ensures forall x :: x in r <==> x in a && f(x)
  {
    if a == [] then [] else if f(a[0]) then [a[0]] + Pick(a[1..], f) else Pick(a[1..], f)
  }

  lemma {:induction false} FewerAreConsistent(a: seq<Arrival>, b: seq<Arrival>)
    requires Consistent(a) && forall x :: x in b ==> x in a
    ensures Consistent(b)
  {
    forall i, j | 0 <= i < |b| && 0 <= j < |b|
      ensures && (b[i].CommitRead? && b[j].CommitRead? && b[i].at == b[j].at ==> b[i] == b[j])
              && (b[i].SecretOpened? && b[j].SecretOpened? && b[i].epoch == b[j].epoch ==> b[i] == b[j])
    {
      assert b[i] in a && b[j] in a;
    }
  }

  lemma {:induction false} ArriveInParts(st: Store, x: seq<Arrival>, y: seq<Arrival>)
    ensures ArriveAll(st, x + y) == ArriveAll(ArriveAll(st, x), y)
    decreases |y|
  {
    if y == [] {
      assert x + y == x;
    } else {
      var n := |y| - 1;
      ArriveInParts(st, x, y[..n]);
      assert (x + y)[..|x + y| - 1] == x + y[..n];
    }
  }

  /** With no secret in hand, commits are only kept. */
  lemma {:induction false} CommitsOnly(c: Chain, keys: map<Epoch, Bytes32>, cs: seq<Arrival>)
    requires forall x :: x in cs ==> x.CommitRead?
    ensures ArriveAll(Store(Some(c), keys, [], map[]), cs) == Settled(c, keys, Rows([], cs), map[])
    decreases |cs|
  {
    if cs == [] {
      assert Settled(c, keys, [], map[]) == Store(Some(c), keys, [], map[]);
    } else {
      var init, a := cs[..|cs| - 1], cs[|cs| - 1];
      CommitsOnly(c, keys, init);
      assert a in cs;
      ArrivalSettles(c, keys, Rows([], init), map[], a);
    }
  }

  /** With every commit in hand, the order of the secrets does not matter. */
  lemma {:induction false} SecretsOnly(c: Chain, keys: map<Epoch, Bytes32>, t: CommitTable, ss: seq<Arrival>)
    requires forall x :: x in ss ==> x.SecretOpened?
    ensures ArriveAll(Settled(c, keys, t, map[]), ss) == Settled(c, keys, t, Brought(map[], ss))
    decreases |ss|
  {
    if ss != [] {
      var init, a := ss[..|ss| - 1], ss[|ss| - 1];
      SecretsOnly(c, keys, t, init);
      assert a in ss;
      var s := Brought(map[], init);
      SameTableAgrees(Progress(c, keys), t, s, PutBrought(s, a));
      ArrivalSettles(c, keys, t, s, a);
    }
  }

  /** Every commit, and then every secret. */
  lemma {:induction false} CommitsThenSecrets(
      c: Chain, keys: map<Epoch, Bytes32>, cs: seq<Arrival>, ss: seq<Arrival>)
    requires (forall x :: x in cs ==> x.CommitRead?) && (forall x :: x in ss ==> x.SecretOpened?)
    ensures ArriveAll(Store(Some(c), keys, [], map[]), cs + ss) == Settled(c, keys, Rows([], cs), Brought(map[], ss))
  {
    var start := Store(Some(c), keys, [], map[]);
    ArriveInParts(start, cs, ss);
    CommitsOnly(c, keys, cs);
    SecretsOnly(c, keys, Rows([], cs), ss);
  }

  function CommitsIn(a: seq<Arrival>): (r: seq<Arrival>) { Pick(a, (x: Arrival) => x.CommitRead?) }

  function SecretsIn(a: seq<Arrival>): (r: seq<Arrival>) { Pick(a, (x: Arrival) => x.SecretOpened?) }

  function Others(a: seq<Arrival>, k: Commit): (r: seq<Arrival>) {
    Pick(a, (x: Arrival) => x.CommitRead? && x.commit != k)
  }

  function Late(a: seq<Arrival>, k: Commit): (r: seq<Arrival>) {
    Pick(a, (x: Arrival) => x.CommitRead? && x.commit == k)
  }

  lemma {:induction false} OthersLack(a: seq<Arrival>, k: Commit)
    requires Consistent(a)
    ensures Lacks(Rows([], a), k, Rows([], Others(a, k)))
  {
    var o := Others(a, k);
    FewerAreConsistent(a, o);
    forall i: nat, d: Commit ensures Held(Rows([], o), i, d) <==> Held(Rows([], a), i, d) && d != k {
      RowsAre(a, i, d);
      RowsAre(o, i, d);
    }
  }

  /** The first of the two orders: every commit is read before a secret is opened. */
  lemma {:induction false} CommitsFirst(c: Chain, keys: map<Epoch, Bytes32>, a: seq<Arrival>)
    requires Consistent(a)
    ensures SameArrivals(a, CommitsIn(a) + SecretsIn(a))
    ensures ArriveAll(Store(Some(c), keys, [], map[]), CommitsIn(a) + SecretsIn(a))
         == Settled(c, keys, Rows([], a), Brought(map[], a))
  {
    CommitsThenSecrets(c, keys, CommitsIn(a), SecretsIn(a));
    FewerAreConsistent(a, CommitsIn(a));
    FewerAreConsistent(a, SecretsIn(a));
    SameRows(a, CommitsIn(a));
    SameSecrets(a, SecretsIn(a));
  }

  /** The second: the rows of one commit are read only when everything else has been derived from. */
  lemma {:induction false} OneCommitLast(c: Chain, keys: map<Epoch, Bytes32>, a: seq<Arrival>, k: Commit)
    requires Consistent(a)
    ensures SameArrivals(a, Others(a, k) + SecretsIn(a) + Late(a, k))
    ensures var end := ArriveAll(Store(Some(c), keys, [], map[]), Others(a, k) + SecretsIn(a) + Late(a, k)).agreement;
      && end.Some?
      && Descends(CatchUp(Progress(c, keys), Rows([], Others(a, k)), Brought(map[], a)).chain, end.value)
  {
    var start := Store(Some(c), keys, [], map[]);
    FewerAreConsistent(a, SecretsIn(a));
    SameSecrets(a, SecretsIn(a));
    CommitsThenSecrets(c, keys, Others(a, k), SecretsIn(a));
    ArriveInParts(start, Others(a, k) + SecretsIn(a), Late(a, k));
    ArrivalsDescend(ArriveAll(start, Others(a, k) + SecretsIn(a)), Late(a, k));
  }

  /** Chains that took two different commits at one place never meet again. */
  lemma {:induction false} NeverMeet(c1: Chain, c2: Chain, d1: Chain, d2: Chain)
    requires Descends(c1, d1) && Descends(c2, d2) && c1.epoch == c2.epoch && c1.transcript != c2.transcript
    ensures d1 != d2
  {
  }

  /** Where two different commits fit at a place the device comes to, two orders end apart. */
  lemma {:induction false} TwoFitDiverges(c: Chain, keys: map<Epoch, Bytes32>, a: seq<Arrival>)
      returns (b1: seq<Arrival>, b2: seq<Arrival>)
    requires Consistent(a) && !OneWay(Progress(c, keys), Rows([], a), Brought(map[], a))
    ensures SameArrivals(a, b1) && SameArrivals(a, b2)
    ensures var start := Store(Some(c), keys, [], map[]);
      ArriveAll(start, b1).agreement != ArriveAll(start, b2).agreement
  {
    var p, t, s := Progress(c, keys), Rows([], a), Brought(map[], a);
    var q := TwoFitSomewhere(p, t, s);
    var x := s[q.chain.epoch + 1];
    var i, j :| 0 <= i < |t| && 0 <= j < |t| && Fits(t[i], q.chain, x) && Fits(t[j], q.chain, x) && t[i] != t[j];
    var k, at := SomethingIsTaken(q, t, s, i);
    var u := Rows([], Others(a, k));
    OthersLack(a, k);
    ReachedWithout(p, t, s, q, k, u);
    var k' := AnotherIsTaken(q, t, s, k, u);
    TakenIsRecorded(p, t, s, q, k);
    TakenIsRecorded(p, u, s, q, k');
    CommitsFirst(c, keys, a);
    OneCommitLast(c, keys, a, k);
    b1, b2 := CommitsIn(a) + SecretsIn(a), Others(a, k) + SecretsIn(a) + Late(a, k);
    var end := ArriveAll(Store(Some(c), keys, [], map[]), b2).agreement.value;
    var passed := Next(q, u, s).value.chain;
    DescendsFurther(passed, CatchUp(p, u, s).chain, end);
    NeverMeet(Next(q, t, s).value.chain, passed, CatchUp(p, t, s).chain, end);
  }

  /**
   Every order of the same arrivals ends alike exactly where, at each chain the device comes to
   with all of them in hand, the commits that fit the secret held are one commit.
   */
  lemma {:induction false} OrderMattersExactly(c: Chain, keys: map<Epoch, Bytes32>, a: seq<Arrival>)
    requires Consistent(a)
    ensures var start := Store(Some(c), keys, [], map[]);
      (forall b :: SameArrivals(a, b) ==> ArriveAll(start, b) == ArriveAll(start, a))
      <==> OneWay(Progress(c, keys), Rows([], a), Brought(map[], a))
  {
    var start := Store(Some(c), keys, [], map[]);
    if OneWay(Progress(c, keys), Rows([], a), Brought(map[], a)) {
      forall b | SameArrivals(a, b) ensures ArriveAll(start, b) == ArriveAll(start, a) {
        FewerAreConsistent(a, b);
        ArrivalOrderDoesNotMatter(c, keys, a, b);
      }
    } else {
      var b1, b2 := TwoFitDiverges(c, keys, a);
    }
  }
}
