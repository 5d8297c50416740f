/**
 `fold_entries`: opening, verifying and keeping a run of log entries.

 A body is sealed under a key for one device, epoch and counter, and opens for
 exactly those. A counter must not be decrypted twice, and a message not kept here
 is one this client can never read again.
 */
module LogFold {
  import opened Wrappers
  import opened ChainAgreement
  import opened LogEntries
  import opened Receipts

  datatype Counter = Counter(device: PubKey, epoch: nat, msgSeq: nat)

  /** A message row: who, when, what kind, and its words where they were opened. */
  datatype Kept = Kept(account: PubKey, posted: nat, kind: Kind, plain: Option<Body>)

  /** The rows of one channel that folding writes. */
  datatype Disk = Disk(
    seen: set<Counter>,
    messages: map<nat, Kept>,
    signed: map<nat, Entry>,
    timers: map<nat, nat>,
    commits: map<nat, Commit>)

  const EMPTY_DISK := Disk({}, map[], map[], map[], map[])

  /**
   What one call is given: whom it checks against, the time, whether it keeps signed copies, and
   the redactions honoured.
   */
  datatype Call = Call(reader: Reader, keys: map<Epoch, Bytes32>, now: nat, keepSigned: bool, honoured: set<nat>)

  /** What the timeline is told about one entry. */
  datatype Shown = Shown(seq_: nat, verdict: Verdict, standing: Standing, body: Option<Body>)

  /** Where a call is in its run of entries; `opened` records every sealed body it decrypted. */
  datatype Pass = Pass(
    disk: Disk,
    replay: set<Counter>,
    marks: Marks,
    lastHead: Option<(nat, Hash)>,
    reaskHome: bool,
    shown: seq<Shown>,
    opened_: seq<Counter>)

  function CounterOf(e: Entry): Counter { Counter(e.device, e.epoch, e.msgSeq) }

  /** `commit_signed_in`: the commit a member's entry carries in the clear, where it carries one. */
  function CommitIn(e: Entry): Option<Commit> {
    if e.kind.Member? && e.body.CommitBody? && e.body.commit.committer == e.account && e.body.signer == e.device
    then Some(e.body.commit) else None
  }

  /** A sealed body opens under its own key for its own device, epoch and counter. */
  function OpenBody(key: Bytes32, e: Entry): Option<Body> {
    match e.body
    case SealedBody(k, epoch, device, counter, plain) =>
      if k == key && epoch == e.epoch && device == e.device && counter == e.msgSeq then Some(plain) else None
    case _ => None
  }

  function Plain(keys: map<Epoch, Bytes32>, e: Entry): Option<Body> {
    if CommitIn(e).Some? || e.epoch == 0 then Some(e.body)
    else if e.epoch in keys then OpenBody(keys[e.epoch], e)
    else None
  }

  /** Did reading this entry decrypt something? */
  predicate Decrypts(keys: map<Epoch, Bytes32>, e: Entry) {
    CommitIn(e).None? && e.epoch != 0 && Plain(keys, e).Some?
  }

  /** What is stored for an entry: a redacted one as empty, not as unreadable. */
  function Words_(keys: map<Epoch, Bytes32>, e: Entry): Option<Body> {
    if e.body == Nothing then Some(Nothing) else Plain(keys, e)
  }

  /** `put_message`: a body already held stays, an absent one is filled in. */
  function PutMessage(ms: map<nat, Kept>, at: nat, k: Kept): map<nat, Kept> {
    if at !in ms then ms[at := k]
    else if ms[at].plain.Some? then ms
    else ms[at := ms[at].(plain := k.plain)]
  }

  function Redact(ms: map<nat, Kept>, at: nat): map<nat, Kept> {
    if at in ms then ms[at := ms[at].(plain := Some(Nothing))] else ms
  }

  predicate Expired(c: Call, e: Entry) { e.expiresAfter > 0 && c.now >= e.posted + e.expiresAfter }

  function PutNew<T>(m: map<nat, T>, at: nat, v: T): map<nat, T> { if at in m then m else m[at := v] }

  /** What is written for an entry that is neither forged nor past its time. */
  function Keep(c: Call, d: Disk, e: Entry): Disk {
    var ms := PutMessage(d.messages, e.seq_, Kept(e.account, e.posted, e.kind, Words_(c.keys, e)));
    var redacted := if e.body == Nothing then Redact(ms, e.seq_) else ms;
    var plain := Plain(c.keys, e);
    Disk(
      d.seen,
      if CommitIn(e).None? && plain.Some? && plain.value.Redaction? && e.seq_ in c.honoured
      then Redact(redacted, plain.value.target) else redacted,
      if c.keepSigned && e.stamp.Some? then PutNew(d.signed, e.seq_, e) else d.signed,
      if e.expiresAfter > 0 then d.timers[e.seq_ := e.posted + e.expiresAfter] else d.timers,
      if CommitIn(e).Some? then PutNew(d.commits, e.seq_, CommitIn(e).value) else d.commits)
  }

  /** The rows after one entry: its counter where it was read, and the rest unless it is forged or past its time. */
  function Written(c: Call, d: Disk, e: Entry, verdict: Verdict): Disk {
    var read := Plain(c.keys, e).Some? && e.kind.Member?;
    var d' := d.(seen := if read then d.seen + {CounterOf(e)} else d.seen);
    if verdict == Forged || Expired(c, e) then d' else Keep(c, d', e)
  }

  /**
   The rows after each write `Keep` is made of, in turn; a write the entry does not call for leaves
   them as they are.
   */
  function Stages(c: Call, d: Disk, e: Entry): (r: seq<Disk>)
    ensures |r| == 5 && r[4] == Keep(c, d, e)
  {
    var plain := Plain(c.keys, e);
    var d1 := if c.keepSigned && e.stamp.Some? then d.(signed := PutNew(d.signed, e.seq_, e)) else d;
    var row := Kept(e.account, e.posted, e.kind, Words_(c.keys, e));
    var d2 := d1.(messages := PutMessage(d1.messages, e.seq_, row));
    var d3 := if e.expiresAfter > 0 then d2.(timers := d2.timers[e.seq_ := e.posted + e.expiresAfter]) else d2;
    var d4 := if e.body == Nothing then d3.(messages := Redact(d3.messages, e.seq_)) else d3;
    var d5 :=
      if CommitIn(e).Some? then d4.(commits := PutNew(d4.commits, e.seq_, CommitIn(e).value))
      else if plain.Some? && plain.value.Redaction? && e.seq_ in c.honoured
      then d4.(messages := Redact(d4.messages, plain.value.target)) else d4;
    [d1, d2, d3, d4, d5]
  }

  /** The rows after each write for one entry: its counter comes first. */
  function WriteMoments(c: Call, d: Disk, e: Entry, verdict: Verdict): (r: seq<Disk>)
    ensures |r| > 0 && r[|r| - 1] == Written(c, d, e, verdict)
  {
    var read := Plain(c.keys, e).Some? && e.kind.Member?;
    var d' := d.(seen := if read then d.seen + {CounterOf(e)} else d.seen);
    [d'] + (if verdict == Forged || Expired(c, e) then [] else Stages(c, d', e))
  }

  /** The messages whose timers have run out. */
  function Due(d: Disk, now: nat): (gone: set<nat>) { set at | at in d.timers && d.timers[at] <= now }

  function Without(d: Disk, gone: set<nat>): Disk {
    d.(messages := d.messages - gone, signed := d.signed - gone, timers := d.timers - gone)
  }

  /** `expire_timed`, in one channel. */
  function ExpireRows(d: Disk, now: nat): Disk { Without(d, Due(d, now)) }

  /** A counter already met, under a body that would have to be opened. */
  predicate Replayed(p: Pass, e: Entry) { e.kind.Member? && CommitIn(e).None? && CounterOf(e) in p.replay }

  /** The head of the entry before, where that is the last one read. */
  function HeldHead(lastHead: Option<(nat, Hash)>, e: Entry): Option<Hash> {
    if lastHead.Some? && lastHead.value.0 + 1 == e.seq_ then Some(lastHead.value.1) else None
  }

  function StandingOf(c: Call, lastHead: Option<(nat, Hash)>, e: Entry): Standing {
    StandingUnder(c.reader.keys, c.reader.channel, c.reader.instance, e, HeldHead(lastHead, e))
  }

  /** What a reader is shown of an entry: never a forged one's words, and of an expired one nothing. */
  function ShownFor(c: Call, e: Entry, verdict: Verdict, standing: Standing): seq<Shown> {
    if verdict == Forged then [Shown(e.seq_, verdict, standing, None)]
    else if Expired(c, e) then []
    else [Shown(e.seq_, verdict, standing, Words_(c.keys, e))]
  }

  /** One entry of the run. */
  function FoldOne(c: Call, p: Pass, e: Entry): Pass {
    if Replayed(p, e) then p else FoldFresh(c, p, e)
  }

  /** ... whose counter was not met before. */
  function FoldFresh(c: Call, p: Pass, e: Entry): Pass {
    var judged := VerdictFor(c.reader, p.marks, e);
    var standing := StandingOf(c, p.lastHead, e);
    Pass(
      Written(c, p.disk, e, judged.verdict),
      if e.kind.Member? && CommitIn(e).None? then p.replay + {CounterOf(e)} else p.replay,
      judged.marks,
      if e.stamp.Some? then Some((e.seq_, e.stamp.value.head)) else p.lastHead,
      p.reaskHome || standing == Repudiated,
      p.shown + ShownFor(c, e, judged.verdict, standing),
      if Decrypts(c.keys, e) then p.opened_ + [CounterOf(e)] else p.opened_)
  }

  /** The rows after each write one turn of the run makes. */
  function TurnMoments(c: Call, p: Pass, e: Entry): seq<Disk> {
    if Replayed(p, e) then [] else WriteMoments(c, p.disk, e, VerdictFor(c.reader, p.marks, e).verdict)
  }

  function Start(d: Disk, before: seq<Counter>): Pass { Pass(d, d.seen, map[], None, false, [], before) }

  function FoldRun(c: Call, p: Pass, es: seq<Entry>): Pass {
    if es == [] then p else FoldOne(c, FoldRun(c, p, es[..|es| - 1]), es[|es| - 1])
  }

  /** The rows after each write of a run: wherever the program is stopped, it is found with one of these. */
  function RunMoments(c: Call, p: Pass, es: seq<Entry>): seq<Disk> {
    if es == [] then []
    else RunMoments(c, p, es[..|es| - 1]) + TurnMoments(c, FoldRun(c, p, es[..|es| - 1]), es[|es| - 1])
  }

  /** Over the first `n` entries a run comes to `q`, writing `run`. */
  ghost predicate RunTo(c: Call, p: Pass, es: seq<Entry>, n: nat, q: Pass, run: seq<Disk>) {
    n <= |es| && q == FoldRun(c, p, es[..n]) && run == RunMoments(c, p, es[..n])
  }

  lemma {:induction false} OneTurnMore(
      c: Call, p: Pass, es: seq<Entry>, n: nat, q: Pass, run: seq<Disk>, q': Pass, moments: seq<Disk>)
    requires n < |es| && RunTo(c, p, es, n, q, run)
    requires q' == FoldOne(c, q, es[n]) && moments == TurnMoments(c, q, es[n])
    ensures RunTo(c, p, es, n + 1, q', run + moments)
  {
    assert es[..n + 1][..n] == es[..n];
  }

  lemma {:induction false} RunIsWhole(c: Call, p: Pass, es: seq<Entry>, q: Pass, run: seq<Disk>)
    requires RunTo(c, p, es, |es|, q, run)
    ensures q == FoldRun(c, p, es) && run == RunMoments(c, p, es)
  {
    assert es[..|es|] == es;
  }

  /** `last` is the highest number among the first `n` entries, or `since` where that is higher. */
  ghost predicate Highest(since: nat, es: seq<Entry>, n: nat, last: nat) {
    && n <= |es| && last >= since
    && (forall i :: 0 <= i < n ==> es[i].seq_ <= last)
    && (last == since || exists i :: 0 <= i < n && es[i].seq_ == last)
  }

  lemma {:induction false} HighestOfOneMore(since: nat, es: seq<Entry>, n: nat, last: nat)
    requires n < |es| && Highest(since, es, n, last)
    ensures Highest(since, es, n + 1, if es[n].seq_ > last then es[n].seq_ else last)
  {
    var last' := if es[n].seq_ > last then es[n].seq_ else last;
    assert last' == last || es[n].seq_ == last';
  }

  lemma {:induction false} HighestOfAll(since: nat, es: seq<Entry>, last: nat)
    requires Highest(since, es, |es|, last)
    ensures last >= since && forall e :: e in es ==> e.seq_ <= last
    ensures last == since || exists e :: e in es && e.seq_ == last
  {
  }

  lemma {:induction false} InTwoSteps(before: seq<Disk>, x: seq<Disk>, y: seq<Disk>)
    ensures (before + x) + y == before + (x + y)
  {
  }

  /** From every state from `from` on, expiring at `now` ends at `end`. */
  ghost predicate AllExpireTo(trace: seq<Disk>, from: nat, now: nat, end: Disk)
    decreases |trace|
  {
    |trace| <= from
    || (ExpireRows(trace[|trace| - 1], now) == end && AllExpireTo(trace[..|trace| - 1], from, now, end))
  }

  lemma {:induction false} ExpireOnwards(trace: seq<Disk>, from: nat, now: nat, end: Disk, d: Disk)
    requires AllExpireTo(trace, from, now, end) && ExpireRows(d, now) == end
    ensures AllExpireTo(trace + [d], from, now, end)
  {
    assert (trace + [d])[..|trace|] == trace;
  }

  lemma {:induction false} MinusTwice<T>(m: map<nat, T>, a: set<nat>, gone: set<nat>, c: set<nat>)
    requires c <= a <= gone
    ensures m - a - (gone - c) == m - gone
  {
  }

  /** Part of the way: a timer goes only once the message and its copy have. */
  lemma {:induction false} PartlyExpired(d: Disk, now: nat, a: set<nat>, b: set<nat>, c: set<nat>, m: Disk)
    requires c <= a <= Due(d, now) && c <= b <= Due(d, now)
    requires m == d.(messages := d.messages - a, signed := d.signed - b, timers := d.timers - c)
    ensures ExpireRows(m, now) == ExpireRows(d, now)
  {
    var gone := Due(d, now);
    assert Due(m, now) == gone - c;
    MinusTwice(d.messages, a, gone, c);
    MinusTwice(d.signed, b, gone, c);
    MinusTwice(d.timers, c, gone, c);
  }

  lemma {:induction false} OneMoreMinus<T>(m: map<nat, T>, done: set<nat>, at: nat)
    ensures m - done - {at} == m - (done + {at})
  {
  }

  /** A verdict is `Forged` by the two checks alone, whatever chains were seen. */
  lemma {:induction false} ForgedIsNotSigned(rd: Reader, marks: Marks, e: Entry)
    ensures VerdictFor(rd, marks, e).verdict == Forged <==> Check(rd, e) == NotSigned
  {
  }

  /** One channel's rows in the store. */
  class ChannelRows {
    var seen: set<Counter>
    var messages: map<nat, Kept>
    var signed: map<nat, Entry>
    var timers: map<nat, nat>
    var commits: map<nat, Commit>
    /** Every sealed body this store's owner has decrypted, in order. */
    ghost var decrypted: seq<Counter>
    /** The rows as each write has left them, in order. */
    ghost var trace: seq<Disk>

    constructor ()
      ensures View() == EMPTY_DISK && decrypted == [] && trace == []
    {
      seen, messages, signed, timers, commits := {}, map[], map[], map[], map[];
      decrypted, trace := [], [];
    }

    ghost function View(): Disk
      reads this
    {
      Disk(seen, messages, signed, timers, commits)
    }

    method FoldEntries(c: Call, since: nat, entries: seq<Entry>) returns (last: nat, reaskHome: bool, shown: seq<Shown>)
      modifies this
      ensures var p := FoldRun(c, Start(old(View()), old(decrypted)), entries);
        View() == p.disk && decrypted == p.opened_ && reaskHome == p.reaskHome && shown == p.shown
      ensures trace == old(trace) + RunMoments(c, Start(old(View()), old(decrypted)), entries)
      ensures last >= since && forall e :: e in entries ==> e.seq_ <= last
      ensures last == since || exists e :: e in entries && e.seq_ == last
    {
      var replay := seen;
      var book := new ChainBook();
      var lastHead: Option<(nat, Hash)> := None;
      last, reaskHome, shown := since, false, [];
      ghost var p := Start(View(), decrypted);
      ghost var before, q, run := trace, p, [];
      var n := 0;
      while n < |entries|
        invariant 0 <= n <= |entries| && fresh(book)
        invariant q == Pass(View(), replay, book.marks, lastHead, reaskHome, shown, decrypted)
        invariant RunTo(c, p, entries, n, q, run) && trace == before + run
        invariant Highest(since, entries, n, last)
      {
        HighestOfOneMore(since, entries, n, last);
        if entries[n].seq_ > last { last := entries[n].seq_; }
        ghost var moments;
        replay, lastHead, reaskHome, shown, q, moments :=
          FoldNext(c, entries, n, book, replay, lastHead, reaskHome, shown, p, q, run);
        InTwoSteps(before, run, moments);
        run, n := run + moments, n + 1;
      }
      HighestOfAll(since, entries, last);
      RunIsWhole(c, p, entries, q, run);
    }

    /** One turn of the loop, as part of the run. */
    method FoldNext(
        c: Call, entries: seq<Entry>, n: nat, book: ChainBook,
        replay0: set<Counter>, lastHead0: Option<(nat, Hash)>, reask0: bool, shown0: seq<Shown>,
        ghost p: Pass, ghost before: Pass, ghost run: seq<Disk>)
      returns (
        replay: set<Counter>, lastHead: Option<(nat, Hash)>, reaskHome: bool, shown: seq<Shown>,
        ghost q: Pass, ghost moments: seq<Disk>)
      requires n < |entries| && RunTo(c, p, entries, n, before, run)
      requires before == Pass(View(), replay0, book.marks, lastHead0, reask0, shown0, decrypted)
      modifies this, book
      ensures q == Pass(View(), replay, book.marks, lastHead, reaskHome, shown, decrypted)
      ensures RunTo(c, p, entries, n + 1, q, run + moments) && trace == old(trace) + moments
    {
      var e := entries[n];
      q, moments := FoldOne(c, before, e), TurnMoments(c, before, e);
      OneTurnMore(c, p, entries, n, before, run, q, moments);
      replay, lastHead, reaskHome, shown :=
        FoldEntry(c, e, book, replay0, lastHead0, reask0, shown0, before, q, moments);
    }

    /** The body of the loop. */
    method FoldEntry(
        c: Call, e: Entry, book: ChainBook,
        replay0: set<Counter>, lastHead0: Option<(nat, Hash)>, reask0: bool, shown0: seq<Shown>,
        ghost p: Pass, ghost q: Pass, ghost moments: seq<Disk>)
      returns (replay: set<Counter>, lastHead: Option<(nat, Hash)>, reaskHome: bool, shown: seq<Shown>)
      requires p == Pass(View(), replay0, book.marks, lastHead0, reask0, shown0, decrypted)
      requires q == FoldOne(c, p, e) && moments == TurnMoments(c, p, e)
      modifies this, book
      ensures Pass(View(), replay, book.marks, lastHead, reaskHome, shown, decrypted) == q
      ensures trace == old(trace) + moments
    {
      replay, lastHead, reaskHome, shown := replay0, lastHead0, reask0, shown0;
      if e.kind.Member? && CommitIn(e).None? && CounterOf(e) in replay { return; }
      replay, lastHead, reaskHome, shown := FoldUnmet(c, e, book, replay0, lastHead0, reask0, shown0);
    }

    method FoldUnmet(
        c: Call, e: Entry, book: ChainBook,
        replay0: set<Counter>, lastHead0: Option<(nat, Hash)>, reask0: bool, shown0: seq<Shown>)
      returns (replay: set<Counter>, lastHead: Option<(nat, Hash)>, reaskHome: bool, shown: seq<Shown>)
      modifies this, book
      ensures Pass(View(), replay, book.marks, lastHead, reaskHome, shown, decrypted)
           == FoldFresh(c, Pass(old(View()), replay0, old(book.marks), lastHead0, reask0, shown0, old(decrypted)), e)
      ensures trace == old(trace) + WriteMoments(c, old(View()), e, VerdictFor(c.reader, old(book.marks), e).verdict)
    {
      replay, lastHead, reaskHome := replay0, lastHead0, reask0;
      if e.kind.Member? && CommitIn(e).None? { replay := replay + {CounterOf(e)}; }
      if Decrypts(c.keys, e) { decrypted := decrypted + [CounterOf(e)]; }
      var verdict := book.Rule(c.reader, e);
      var standing := Stand(c, e, lastHead0);
      if e.stamp.Some? { lastHead := Some((e.seq_, e.stamp.value.head)); }
      if standing == Repudiated { reaskHome := true; }
      WriteEntry(c, e, verdict);
      shown := shown0 + ShownFor(c, e, verdict, standing);
    }

    /** The receipt's standing, against the head of the entry before where it is held. */
    method Stand(c: Call, e: Entry, lastHead: Option<(nat, Hash)>) returns (standing: Standing)
      ensures standing == StandingOf(c, lastHead, e)
    {
      var held := if lastHead.Some? && lastHead.value.0 + 1 == e.seq_ then Some(lastHead.value.1) else None;
      standing := StandingUnderKeys(c.reader.keys, c.reader.channel, c.reader.instance, e, held);
    }

    /**
     `expire_timed`: of each message whose timer has run out the row, the signed copy, and last the timer, so
     that expiring again from any state on the way ends the same.
     */
    method Expire(now: nat) returns (gone: set<nat>)
      modifies this`messages, this`signed, this`timers, this`trace
      ensures gone == Due(old(View()), now) && View() == ExpireRows(old(View()), now)
      ensures old(trace) <= trace && AllExpireTo(trace, |old(trace)|, now, ExpireRows(old(View()), now))
    {
      gone := Due(Disk(seen, messages, signed, timers, commits), now);
      ghost var d, from := View(), |trace|;
      var todo := gone;
      while todo != {}
        invariant todo <= gone && View() == Without(d, gone - todo)
        invariant old(trace) <= trace && AllExpireTo(trace, from, now, ExpireRows(d, now))
        decreases todo
      {
        var at :| at in todo;
        ghost var done := gone - todo;
        ExpireOne(at, now, d, done, from);
        todo := todo - {at};
        assert gone - todo == done + {at};
      }
    }

    method ExpireOne(at: nat, now: nat, ghost d: Disk, ghost done: set<nat>, ghost from: nat)
      requires View() == Without(d, done) && at in Due(d, now) && done <= Due(d, now) && from <= |trace|
      requires AllExpireTo(trace, from, now, ExpireRows(d, now))
      modifies this`messages, this`signed, this`timers, this`trace
      ensures View() == Without(d, done + {at}) && old(trace) <= trace
      ensures AllExpireTo(trace, from, now, ExpireRows(d, now))
    {
      ghost var end, t, v := ExpireRows(d, now), trace, View();
      ghost var one := v.(messages := v.messages - {at});
      ghost var two := one.(signed := one.signed - {at});
      ghost var three := two.(timers := two.timers - {at});
      OneMoreMinus(d.messages, done, at);
      OneMoreMinus(d.signed, done, at);
      OneMoreMinus(d.timers, done, at);
      PartlyExpired(d, now, done + {at}, done, done, one);
      PartlyExpired(d, now, done + {at}, done + {at}, done, two);
      PartlyExpired(d, now, done + {at}, done + {at}, done + {at}, three);
      ExpireOnwards(t, from, now, end, one);
      ExpireOnwards(t + [one], from, now, end, two);
      ExpireOnwards(t + [one] + [two], from, now, end, three);
      messages := messages - {at};
      trace := trace + [View()];
      signed := signed - {at};
      trace := trace + [View()];
      timers := timers - {at};
      trace := trace + [View()];
    }

    /** The rows one entry that got past the replay check leaves, and those it leaves on the way. */
    method WriteEntry(c: Call, e: Entry, verdict: Verdict)
      modifies this`seen, this`messages, this`signed, this`timers, this`commits, this`trace
      ensures View() == Written(c, old(View()), e, verdict)
      ensures trace == old(trace) + WriteMoments(c, old(View()), e, verdict)
    {
      var plain := Plain(c.keys, e);
      if plain.Some? && e.kind.Member? { seen := seen + {CounterOf(e)}; }
      ghost var before, d := trace, View();
      trace := before + [d];
      if verdict == Forged { return; }
      if e.expiresAfter > 0 && c.now >= e.posted + e.expiresAfter { return; }
      ghost var stages := Stages(c, d, e);
      KeepEntry(c, e, plain, stages);
      InTwoSteps(before, [d], stages);
    }

    /** The writes after the counter's, in their order. */
    method KeepEntry(c: Call, e: Entry, plain: Option<Body>, ghost stages: seq<Disk>)
      requires plain == Plain(c.keys, e) && stages == Stages(c, View(), e)
      modifies this`messages, this`signed, this`timers, this`commits, this`trace
      ensures View() == stages[4] && trace == old(trace) + stages
    {
      if c.keepSigned && e.stamp.Some? { signed := PutNew(signed, e.seq_, e); }
      ghost var d1 := View();
      var words := if e.body == Nothing then Some(Nothing) else plain;
      messages := PutMessage(messages, e.seq_, Kept(e.account, e.posted, e.kind, words));
      ghost var d2 := View();
      if e.expiresAfter > 0 { timers := timers[e.seq_ := e.posted + e.expiresAfter]; }
      ghost var d3 := View();
      if e.body == Nothing { messages := Redact(messages, e.seq_); }
      ghost var d4 := View();
      var commit := CommitIn(e);
      if commit.Some? {
        commits := PutNew(commits, e.seq_, commit.value);
      } else if plain.Some? && plain.value.Redaction? && e.seq_ in c.honoured {
        messages := Redact(messages, plain.value.target);
      }
      trace := trace + [d1, d2, d3, d4, View()];
    }
  }

  // ---- no counter is opened twice ------------------------------------------

  ghost predicate Distinct(cs: seq<Counter>) {
    forall i, j :: 0 <= i < j < |cs| ==> cs[i] != cs[j]
  }

  /** Epoch 0 is unsealed by construction, and the exchange's own entries are all at it. */
  predicate SystemUnsealed(e: Entry) { e.kind.System? ==> e.epoch == 0 }

  ghost predicate OpenedOnce(p: Pass) {
    Distinct(p.opened_) && forall x :: x in p.opened_ ==> x in p.replay && x in p.disk.seen
  }

  lemma {:induction false} FoldOneOpensOnce(c: Call, p: Pass, e: Entry)
    requires OpenedOnce(p) && SystemUnsealed(e)
    ensures OpenedOnce(FoldOne(c, p, e))
  {
    var q := FoldOne(c, p, e);
    assert q.disk.seen >= p.disk.seen;
    if !Replayed(p, e) && Decrypts(c.keys, e) {
      assert CounterOf(e) !in p.opened_;
    }
  }

  /**
   One entry, exactly: nothing is opened twice unless it is an exchange's own entry, sealed, under
   a counter opened before.
   */
  lemma {:induction false} OpensAgainExactly(c: Call, p: Pass, e: Entry)
    requires OpenedOnce(p)
    ensures Distinct(FoldOne(c, p, e).opened_) <==>
      !(e.kind.System? && Decrypts(c.keys, e) && CounterOf(e) in p.opened_)
  {
    var q, n := FoldOne(c, p, e), |p.opened_|;
    if !Replayed(p, e) && Decrypts(c.keys, e) {
      assert q.opened_ == p.opened_ + [CounterOf(e)];
      if i :| 0 <= i < n && p.opened_[i] == CounterOf(e) {
        assert q.opened_[i] == q.opened_[n];
      }
    }
  }

  lemma {:induction false} FoldRunOpensOnce(c: Call, p: Pass, es: seq<Entry>)
    requires OpenedOnce(p) && forall e :: e in es ==> SystemUnsealed(e)
    ensures OpenedOnce(FoldRun(c, p, es))
    decreases |es|
  {
    if es != [] {
      FoldRunOpensOnce(c, p, es[..|es| - 1]);
      FoldOneOpensOnce(c, FoldRun(c, p, es[..|es| - 1]), es[|es| - 1]);
    }
  }

  /** One call to fold: what it was given, and the entries it was run over. */
  datatype Folded = Folded(call: Call, entries: seq<Entry>)

  /** Calls in turn, each starting from the rows the last one left. */
  function FoldCalls(d: Disk, calls: seq<Folded>): Pass {
    if calls == [] then Start(d, [])
    else
      var before := FoldCalls(d, calls[..|calls| - 1]);
      var last := calls[|calls| - 1];
      FoldRun(last.call, Start(before.disk, before.opened_), last.entries)
  }

  /**
   Over any sequence of folds, of any entries however they overlap, with any keys
   coming and going between them: no device's counter is opened twice under an
   epoch, as long as what the exchange serves as its own is unsealed.
   */
  lemma {:induction false} NothingIsOpenedTwice(calls: seq<Folded>)
    requires forall i, e :: 0 <= i < |calls| && e in calls[i].entries ==> SystemUnsealed(e)
    ensures Distinct(FoldCalls(EMPTY_DISK, calls).opened_)
    ensures forall x :: x in FoldCalls(EMPTY_DISK, calls).opened_ ==> x in FoldCalls(EMPTY_DISK, calls).disk.seen
    decreases |calls|
  {
    if calls != [] {
      var init, last := calls[..|calls| - 1], calls[|calls| - 1];
      assert forall i :: 0 <= i < |init| ==> init[i] == calls[i];
      NothingIsOpenedTwice(init);
      var before := FoldCalls(EMPTY_DISK, init);
      FoldRunOpensOnce(last.call, Start(before.disk, before.opened_), last.entries);
    }
  }

  /**
   The condition is needed: a member's sealed entry served a second time as one of
   the exchange's own is decrypted a second time, replay set or not.
   */
  lemma {:induction false} RelabelledIsOpenedTwice(c: Call, e: Entry)
    requires e.kind.Member? && e.epoch != 0 && e.epoch in c.keys && OpenBody(c.keys[e.epoch], e).Some?
    ensures var p := FoldRun(c, Start(EMPTY_DISK, []), [e, e.(kind := System)]);
      p.opened_ == [CounterOf(e), CounterOf(e)] && !Distinct(p.opened_)
  {
    var es := [e, e.(kind := System)];
    var p := FoldRun(c, Start(EMPTY_DISK, []), es);
    assert es[..1] == [e] && [e][..|[e]| - 1] == [];
    var p0 := FoldRun(c, Start(EMPTY_DISK, []), [e]);
    assert FoldRun(c, Start(EMPTY_DISK, []), []) == Start(EMPTY_DISK, []);
    assert p0.opened_ == [CounterOf(e)];
    assert p.opened_ == [CounterOf(e), CounterOf(e)];
    assert p.opened_[0] == p.opened_[1];
  }

  // ---- folding again with more keys ----------------------------------------

  /** A log as an honest channel has it: one entry per number, one use per counter, no timers and no redactions. */
  ghost predicate PlainLog(log: seq<Entry>, honoured: set<nat>) {
    && (forall i, j :: 0 <= i < j < |log| ==> log[i].seq_ != log[j].seq_)
    && (forall i, j :: 0 <= i < j < |log| && log[i].kind.Member? && log[j].kind.Member? ==>
          CounterOf(log[i]) != CounterOf(log[j]))
    && (forall i :: 0 <= i < |log| ==> log[i].expiresAfter == 0)
    && honoured == {}
  }

  predicate Storable(rd: Reader, e: Entry) { Check(rd, e) != NotSigned }

  predicate FewerKeys(k1: map<Epoch, Bytes32>, k2: map<Epoch, Bytes32>) {
    forall e :: e in k1 ==> e in k2 && k2[e] == k1[e]
  }

  /** The row an entry should end up with, once all of `keys` are held. */
  function Row(keys: map<Epoch, Bytes32>, e: Entry): Kept { Kept(e.account, e.posted, e.kind, Words_(keys, e)) }

  /** A row is the entry's own, complete or still unread. */
  predicate RowSoFar(k: Kept, keys: map<Epoch, Bytes32>, e: Entry) {
    k == Row(keys, e) || k == Row(keys, e).(plain := None)
  }

  /** The rows so far come from `log`, and a counter marked seen has its message in full. */
  ghost predicate Faithful(rd: Reader, log: seq<Entry>, keys: map<Epoch, Bytes32>, d: Disk) {
    && (forall at :: at in d.messages ==> exists i :: 0 <= i < |log| && log[i].seq_ == at && Storable(rd, log[i]))
    && (forall i :: 0 <= i < |log| && log[i].seq_ in d.messages ==> RowSoFar(d.messages[log[i].seq_], keys, log[i]))
    && (forall i :: 0 <= i < |log| && log[i].kind.Member? && Storable(rd, log[i]) && CounterOf(log[i]) in d.seen ==>
          log[i].seq_ in d.messages && d.messages[log[i].seq_] == Row(keys, log[i]))
  }

  /** Writing one entry of the log, with some of the keys, writes its row and no other. */
  lemma {:induction false} KeepWritesRow(c: Call, log: seq<Entry>, keys: map<Epoch, Bytes32>, d: Disk, n: nat)
    requires PlainLog(log, c.honoured) && FewerKeys(c.keys, keys) && n < |log|
    requires log[n].seq_ in d.messages ==> RowSoFar(d.messages[log[n].seq_], keys, log[n])
    ensures var d' := Keep(c, d, log[n]);
      && d'.seen == d.seen
      && d'.messages.Keys == d.messages.Keys + {log[n].seq_}
      && (forall at :: at in d.messages && at != log[n].seq_ ==> d'.messages[at] == d.messages[at])
      && RowSoFar(d'.messages[log[n].seq_], keys, log[n])
      && (Plain(c.keys, log[n]).Some? || c.keys == keys ==> d'.messages[log[n].seq_] == Row(keys, log[n]))
  {
    var e := log[n];
    assert e.expiresAfter == 0;
    assert Plain(c.keys, e).Some? ==> Plain(keys, e) == Plain(c.keys, e);
  }

  lemma {:induction false} FoldOneIsFaithful(c: Call, log: seq<Entry>, keys: map<Epoch, Bytes32>, p: Pass, n: nat)
    requires PlainLog(log, c.honoured) && FewerKeys(c.keys, keys) && n < |log|
    requires Faithful(c.reader, log, keys, p.disk)
    ensures Faithful(c.reader, log, keys, FoldOne(c, p, log[n]).disk)
    ensures p.disk.seen <= FoldOne(c, p, log[n]).disk.seen
  {
    var e := log[n];
    var q := FoldOne(c, p, e);
    if !Replayed(p, e) {
      ForgedIsNotSigned(c.reader, p.marks, e);
      if Storable(c.reader, e) {
        KeepIsFaithful(c, log, keys, p.disk, q.disk.seen, n);
        assert q.disk == Keep(c, p.disk.(seen := q.disk.seen), e);
      } else {
        assert forall i :: 0 <= i < |log| && log[i].kind.Member? && i != n ==>
          (CounterOf(log[i]) in q.disk.seen ==> CounterOf(log[i]) in p.disk.seen);
      }
    }
  }

  lemma {:induction false} KeepIsFaithful(
      c: Call, log: seq<Entry>, keys: map<Epoch, Bytes32>, d: Disk, seen: set<Counter>, n: nat)
    requires PlainLog(log, c.honoured) && FewerKeys(c.keys, keys) && n < |log| && Storable(c.reader, log[n])
    requires Faithful(c.reader, log, keys, d)
    requires seen == if Plain(c.keys, log[n]).Some? && log[n].kind.Member? then d.seen + {CounterOf(log[n])} else d.seen
    ensures Faithful(c.reader, log, keys, Keep(c, d.(seen := seen), log[n]))
  {
    var rd, e := c.reader, log[n];
    KeepWritesRow(c, log, keys, d.(seen := seen), n);
    var d' := Keep(c, d.(seen := seen), e);
    forall at | at in d'.messages
      ensures exists i :: 0 <= i < |log| && log[i].seq_ == at && Storable(rd, log[i])
    {
      if at == e.seq_ { assert log[n].seq_ == at; } else { assert at in d.messages; }
    }
    forall i | 0 <= i < |log| && log[i].seq_ in d'.messages
      ensures RowSoFar(d'.messages[log[i].seq_], keys, log[i])
    {
      if i != n { assert log[i].seq_ != log[n].seq_; }
    }
    forall i | 0 <= i < |log| && log[i].kind.Member? && Storable(rd, log[i]) && CounterOf(log[i]) in d'.seen
      ensures log[i].seq_ in d'.messages && d'.messages[log[i].seq_] == Row(keys, log[i])
    {
      if i != n {
        assert log[i].seq_ != log[n].seq_;
        assert CounterOf(log[i]) in d.seen;
      } else if CounterOf(e) in d.seen {
        KeptRowStays(c, d.(seen := seen), keys, e);
      }
    }
  }

  /** A row already complete is left as it is. */
  lemma {:induction false} KeptRowStays(c: Call, d: Disk, keys: map<Epoch, Bytes32>, e: Entry)
    requires c.honoured == {} && FewerKeys(c.keys, keys)
    requires e.seq_ in d.messages && d.messages[e.seq_] == Row(keys, e)
    ensures e.seq_ in Keep(c, d, e).messages && Keep(c, d, e).messages[e.seq_] == Row(keys, e)
  {
  }

  lemma {:induction false} FoldRunIsFaithful(
      c: Call, log: seq<Entry>, keys: map<Epoch, Bytes32>, p: Pass, es: seq<Entry>)
    requires PlainLog(log, c.honoured) && FewerKeys(c.keys, keys)
    requires forall e :: e in es ==> e in log
    requires Faithful(c.reader, log, keys, p.disk)
    ensures Faithful(c.reader, log, keys, FoldRun(c, p, es).disk)
    decreases |es|
  {
    if es != [] {
      FoldRunIsFaithful(c, log, keys, p, es[..|es| - 1]);
      var e := es[|es| - 1];
      assert e in es;
      var n :| 0 <= n < |log| && log[n] == e;
      FoldOneIsFaithful(c, log, keys, FoldRun(c, p, es[..|es| - 1]), n);
    }
  }

  /** With all the keys, each entry of the log met so far has its full row. */
  ghost predicate FullTo(rd: Reader, log: seq<Entry>, keys: map<Epoch, Bytes32>, d: Disk, n: nat) {
    n <= |log| && forall i :: 0 <= i < n && Storable(rd, log[i]) ==>
      log[i].seq_ in d.messages && d.messages[log[i].seq_] == Row(keys, log[i])
  }

  lemma {:induction false} FoldOneFills(c: Call, log: seq<Entry>, p: Pass, start: set<Counter>, n: nat)
    requires PlainLog(log, c.honoured) && n < |log|
    requires Faithful(c.reader, log, c.keys, p.disk) && FullTo(c.reader, log, c.keys, p.disk, n)
    requires start <= p.disk.seen
    requires forall x :: x in p.replay ==>
      x in start || exists i :: 0 <= i < n && log[i].kind.Member? && CounterOf(log[i]) == x
    ensures FullTo(c.reader, log, c.keys, FoldOne(c, p, log[n]).disk, n + 1)
    ensures forall x :: x in FoldOne(c, p, log[n]).replay ==>
      x in start || exists i :: 0 <= i < n + 1 && log[i].kind.Member? && CounterOf(log[i]) == x
  {
    var e := log[n];
    if !Replayed(p, e) {
      ForgedIsNotSigned(c.reader, p.marks, e);
      KeepWritesRow(c, log, c.keys, p.disk.(seen := FoldOne(c, p, e).disk.seen), n);
      forall x | x in FoldOne(c, p, e).replay
        ensures x in start || exists i :: 0 <= i < n + 1 && log[i].kind.Member? && CounterOf(log[i]) == x
      {
        if x !in p.replay { assert log[n].kind.Member? && CounterOf(log[n]) == x; }
      }
    } else {
      assert CounterOf(e) in start;
    }
  }

  lemma {:induction false} FoldFillsAll(c: Call, log: seq<Entry>, d: Disk, before: seq<Counter>, n: nat)
    requires PlainLog(log, c.honoured) && n <= |log| && Faithful(c.reader, log, c.keys, d)
    ensures var p := FoldRun(c, Start(d, before), log[..n]);
      && Faithful(c.reader, log, c.keys, p.disk) && FullTo(c.reader, log, c.keys, p.disk, n)
      && d.seen <= p.disk.seen
      && (forall x :: x in p.replay ==>
            x in d.seen || exists i :: 0 <= i < n && log[i].kind.Member? && CounterOf(log[i]) == x)
    decreases n
  {
    if n > 0 {
      FoldFillsAll(c, log, d, before, n - 1);
      assert log[..n][..n - 1] == log[..n - 1];
      var p := FoldRun(c, Start(d, before), log[..n - 1]);
      FoldOneIsFaithful(c, log, c.keys, p, n - 1);
      FoldOneFills(c, log, p, d.seen, n - 1);
    }
  }

  /** Rows that are faithful and full are determined. */
  lemma {:induction false} FullIsUnique(rd: Reader, log: seq<Entry>, keys: map<Epoch, Bytes32>, d1: Disk, d2: Disk)
    requires Faithful(rd, log, keys, d1) && FullTo(rd, log, keys, d1, |log|)
    requires Faithful(rd, log, keys, d2) && FullTo(rd, log, keys, d2, |log|)
    ensures d1.messages == d2.messages
  {
    forall at | at in d1.messages ensures at in d2.messages && d1.messages[at] == d2.messages[at] {
      FullAgrees(rd, log, keys, d1, d2, at);
    }
    forall at | at in d2.messages ensures at in d1.messages { FullAgrees(rd, log, keys, d2, d1, at); }
    assert d1.messages.Keys == d2.messages.Keys;
  }

  lemma {:induction false} FullAgrees(
      rd: Reader, log: seq<Entry>, keys: map<Epoch, Bytes32>, d1: Disk, d2: Disk, at: nat)
    requires Faithful(rd, log, keys, d1) && FullTo(rd, log, keys, d1, |log|) && FullTo(rd, log, keys, d2, |log|)
    requires at in d1.messages
    ensures at in d2.messages && d1.messages[at] == d2.messages[at]
  {
    var i :| 0 <= i < |log| && log[i].seq_ == at && Storable(rd, log[i]);
  }

  lemma {:induction false} CallsAreFaithful(
      rd: Reader, log: seq<Entry>, keys: map<Epoch, Bytes32>, calls: seq<Folded>)
    requires PlainLog(log, {})
    requires forall i :: 0 <= i < |calls| ==>
      && calls[i].call.reader == rd && calls[i].call.honoured == {} && FewerKeys(calls[i].call.keys, keys)
      && forall e :: e in calls[i].entries ==> e in log
    ensures Faithful(rd, log, keys, FoldCalls(EMPTY_DISK, calls).disk)
    decreases |calls|
  {
    if calls != [] {
      var init, last := calls[..|calls| - 1], calls[|calls| - 1];
      assert forall i :: 0 <= i < |init| ==> init[i] == calls[i];
      CallsAreFaithful(rd, log, keys, init);
      var before := FoldCalls(EMPTY_DISK, init);
      FoldRunIsFaithful(last.call, log, keys, Start(before.disk, before.opened_), last.entries);
    }
  }

  /**
   Folding early loses nothing. However many times parts of the log were folded,
   overlapping, with whatever keys were held by then, folding the log once more with
   all the keys stores the very messages one fold with all the keys would have stored.
   */
  lemma {:induction false} FoldingAgainConverges(c: Call, log: seq<Entry>, calls: seq<Folded>)
    requires PlainLog(log, c.honoured)
    requires forall i :: 0 <= i < |calls| ==>
      && calls[i].call.reader == c.reader && calls[i].call.honoured == {} && FewerKeys(calls[i].call.keys, c.keys)
      && forall e :: e in calls[i].entries ==> e in log
    ensures var before := FoldCalls(EMPTY_DISK, calls);
      FoldRun(c, Start(before.disk, before.opened_), log).disk.messages
      == FoldRun(c, Start(EMPTY_DISK, []), log).disk.messages
  {
    CallsAreFaithful(c.reader, log, c.keys, calls);
    var before := FoldCalls(EMPTY_DISK, calls);
    assert log[..|log|] == log;
    FoldFillsAll(c, log, before.disk, before.opened_, |log|);
    FoldFillsAll(c, log, EMPTY_DISK, [], |log|);
    FullIsUnique(c.reader, log, c.keys,
      FoldRun(c, Start(before.disk, before.opened_), log).disk, FoldRun(c, Start(EMPTY_DISK, []), log).disk);
  }
}
