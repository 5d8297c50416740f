/**
 What folding an entry keeps and tells, said of the entry itself; and SIP-57's timed messages, which
 are kept and shown while their time has not come, and are gone once it has.
 */
module TimedMessages {
  import opened Wrappers
  import opened ChainAgreement
  import opened LogEntries
  import opened Receipts
  import opened LogFold
  import StoppedFold

  /** A commit in the clear, made by the account and device that posted it. */
  predicate PlainCommit(e: Entry) {
    e.kind.Member? && e.body.CommitBody? && e.body.commit.committer == e.account && e.body.signer == e.device
  }

  /**
   The words of an entry: none are left of a tombstone; at epoch 0, and of a commit, they are the body;
   and otherwise what was sealed under the epoch's key for this device and this counter.
   */
  lemma {:induction false} WordsExactly(keys: map<Epoch, Bytes32>, e: Entry, w: Body)
    ensures Words_(keys, e) == Some(w) <==>
      if e.body == Nothing then w == Nothing
      else if e.epoch == 0 || PlainCommit(e) then w == e.body
      else e.epoch in keys && e.body == SealedBody(keys[e.epoch], e.epoch, e.device, e.msgSeq, w)
  {
  }

  /** The message an entry redacts, where the timeline honours it. */
  function Redacts(c: Call, e: Entry): set<nat> {
    var words := Words_(c.keys, e);
    if !PlainCommit(e) && words.Some? && words.value.Redaction? && e.seq_ in c.honoured
    then {words.value.target} else {}
  }

  /**
   One entry past the replay check. Where nobody signed for it, nothing is kept but its counter and it is
   shown without a body. Where it is signed for, it is kept and shown with its words if and only if
   it has no timer or its time has not come; otherwise it is neither kept nor shown.
   */
  lemma {:induction false} ToldExactly(c: Call, p: Pass, e: Entry)
    requires !Replayed(p, e)
    ensures var q, verdict := FoldOne(c, p, e), VerdictFor(c.reader, p.marks, e).verdict;
      var standing, told := StandingOf(c, p.lastHead, e), q.shown;
      if Check(c.reader, e) == NotSigned then
        && q.disk == p.disk.(seen := q.disk.seen)
        && told == p.shown + [Shown(e.seq_, Forged, standing, None)]
      else if e.expiresAfter == 0 || c.now < e.posted + e.expiresAfter then
        && verdict != Forged && e.seq_ in q.disk.messages
        && told == p.shown + [Shown(e.seq_, verdict, standing, Words_(c.keys, e))]
      else q.disk == p.disk.(seen := q.disk.seen) && told == p.shown
  {
    ForgedIsNotSigned(c.reader, p.marks, e);
  }

  /** And what is kept: a new row with who, when, what kind and the words; no other row but one it redacts. */
  lemma {:induction false} KeptExactly(c: Call, p: Pass, e: Entry, at: nat)
    requires !Replayed(p, e) && Check(c.reader, e) != NotSigned
    requires e.expiresAfter == 0 || c.now < e.posted + e.expiresAfter
    ensures var ms, ms' := p.disk.messages, FoldOne(c, p, e).disk.messages;
      && (at != e.seq_ && at !in Redacts(c, e) ==> (at in ms' <==> at in ms) && (at in ms ==> ms'[at] == ms[at]))
      && (at == e.seq_ && at !in Redacts(c, e) && at !in ms ==>
            ms'[at] == LogFold.Kept(e.account, e.posted, e.kind, Words_(c.keys, e)))
      && (at == e.seq_ && at !in Redacts(c, e) && at in ms && e.body != Nothing ==>
            ms'[at] == ms[at].(plain := if ms[at].plain.Some? then ms[at].plain else Words_(c.keys, e)))
      && (at in Redacts(c, e) || (at == e.seq_ && e.body == Nothing) ==> at in ms' ==> ms'[at].plain == Some(Nothing))
  {
    ForgedIsNotSigned(c.reader, p.marks, e);
    if e.body == Nothing { assert Words_(c.keys, e) == Some(Nothing); }
    assert PlainCommit(e) <==> CommitIn(e).Some?;
  }

  /** A counter is recorded exactly for a member's entry that could be read, whatever else becomes of it. */
  lemma {:induction false} CountedExactly(c: Call, p: Pass, e: Entry)
    requires !Replayed(p, e)
    ensures FoldOne(c, p, e).disk.seen ==
      p.disk.seen + (if e.kind.Member? && Plain(c.keys, e).Some? then {Counter(e.device, e.epoch, e.msgSeq)} else {})
  {
  }

  // ---- a whole log ------------------------------------------------------------

  /** One entry per number, and one use per counter. */
  ghost predicate Proper(log: seq<Entry>) {
    && (forall i, j :: 0 <= i < j < |log| ==> log[i].seq_ != log[j].seq_)
    && (forall i, j :: 0 <= i < j < |log| && log[i].kind.Member? && log[j].kind.Member? ==>
          CounterOf(log[i]) != CounterOf(log[j]))
  }

  predicate Told(shown: seq<Shown>, at: nat) { exists i :: 0 <= i < |shown| && shown[i].seq_ == at }

  /** An entry is kept where it is signed for and in time, and shown unless it is signed for and past its time. */
  ghost predicate ToldSo(c: Call, e: Entry, p: Pass) {
    && (e.seq_ in p.disk.messages <==>
          Check(c.reader, e) != NotSigned && (e.expiresAfter == 0 || c.now < e.posted + e.expiresAfter))
    && (Told(p.shown, e.seq_) <==>
          Check(c.reader, e) == NotSigned || e.expiresAfter == 0 || c.now < e.posted + e.expiresAfter)
  }

  lemma {:induction false} ToldOneMore(shown: seq<Shown>, s: Shown, at: nat)
    ensures Told(shown + [s], at) <==> Told(shown, at) || s.seq_ == at
  {
    if i :| 0 <= i < |shown| && shown[i].seq_ == at { assert (shown + [s])[i].seq_ == at; }
    if s.seq_ == at { assert (shown + [s])[|shown|].seq_ == at; }
  }

  /** Folding one entry changes what is kept and shown of no other number. */
  lemma {:induction false} OthersAsTheyWere(c: Call, p: Pass, e: Entry, at: nat)
    requires !Replayed(p, e) && at != e.seq_
    ensures var q := FoldOne(c, p, e);
      (at in q.disk.messages <==> at in p.disk.messages) && (Told(q.shown, at) <==> Told(p.shown, at))
  {
    ToldExactly(c, p, e);
    var q := FoldOne(c, p, e);
    if |q.shown| > |p.shown| { ToldOneMore(p.shown, q.shown[|p.shown|], at); }
  }

  lemma {:induction false} BecomesSo(c: Call, p: Pass, e: Entry)
    requires !Replayed(p, e) && e.seq_ !in p.disk.messages && !Told(p.shown, e.seq_)
    ensures ToldSo(c, e, FoldOne(c, p, e))
  {
    ToldExactly(c, p, e);
    var q := FoldOne(c, p, e);
    if |q.shown| > |p.shown| { ToldOneMore(p.shown, q.shown[|p.shown|], e.seq_); }
  }

  /** Only what is in `es` has been folded. */
  ghost predicate Only(es: seq<Entry>, p: Pass) {
    && (forall at :: at in p.disk.messages || Told(p.shown, at) ==> HasNumber(es, at))
    && (forall x :: x in p.replay ==> HasCounter(es, x))
  }

  predicate HasNumber(es: seq<Entry>, at: nat) { exists i :: 0 <= i < |es| && es[i].seq_ == at }

  predicate HasCounter(es: seq<Entry>, x: Counter) {
    exists i :: 0 <= i < |es| && es[i].kind.Member? && CounterOf(es[i]) == x
  }

  lemma {:induction false} OnlyOneMore(c: Call, p: Pass, es: seq<Entry>, e: Entry)
    requires Only(es, p)
    ensures Only(es + [e], FoldOne(c, p, e))
  {
    var q, es' := FoldOne(c, p, e), es + [e];
    assert es'[|es|] == e;
    forall at | at in q.disk.messages || Told(q.shown, at) ensures HasNumber(es', at) {
      if at != e.seq_ {
        if !Replayed(p, e) { OthersAsTheyWere(c, p, e, at); }
        var i :| 0 <= i < |es| && es[i].seq_ == at;
        assert es'[i].seq_ == at;
      }
    }
    forall x | x in q.replay ensures HasCounter(es', x) {
      if x in p.replay {
        var i :| 0 <= i < |es| && es[i].kind.Member? && CounterOf(es[i]) == x;
        assert es'[i].kind.Member? && CounterOf(es'[i]) == x;
      }
    }
  }

  lemma {:induction false} NeitherMet(log: seq<Entry>, n: nat, p: Pass)
    requires Proper(log) && n < |log| && Only(log[..n], p)
    ensures !Replayed(p, log[n]) && log[n].seq_ !in p.disk.messages && !Told(p.shown, log[n].seq_)
  {
  }

  /**
   Over a whole log, with any keys and any redactions honoured: what is kept is what is signed for and has
   no timer or time left, and what is shown is that and, without a body, what nobody signed for.
   */
  lemma {:induction false} LogToldExactly(c: Call, log: seq<Entry>, n: nat, i: nat)
    requires Proper(log) && n <= |log|
    ensures var p := FoldRun(c, Start(EMPTY_DISK, []), log[..n]);
      Only(log[..n], p) && (i < n ==> ToldSo(c, log[i], p))
    decreases n
  {
    if n > 0 {
      LogToldExactly(c, log, n - 1, i);
      assert log[..n][..n - 1] == log[..n - 1] && log[..n - 1] + [log[n - 1]] == log[..n];
      var p, e := FoldRun(c, Start(EMPTY_DISK, []), log[..n - 1]), log[n - 1];
      OnlyOneMore(c, p, log[..n - 1], e);
      NeitherMet(log, n - 1, p);
      if i == n - 1 { BecomesSo(c, p, e); }
      if i < n - 1 { OthersAsTheyWere(c, p, e, log[i].seq_); }
    }
  }

  // ---- when their time comes ------------------------------------------------------

  /** A log is folded, in whole or in part, and timers run out. */
  datatype Event = Fold(folded: Folded) | Expire(now: nat)

  function After(d: Disk, events: seq<Event>): Disk {
    if events == [] then d
    else
      var before := After(d, events[..|events| - 1]);
      match events[|events| - 1]
      case Fold(f) => FoldRun(f.call, Start(before, []), f.entries).disk
      case Expire(now) => ExpireRows(before, now)
  }

  /** Every timer is of a timed entry, and every timed message held has its timer. */
  ghost predicate TimersMatch(log: seq<Entry>, d: Disk) {
    && (forall i :: 0 <= i < |log| && log[i].expiresAfter > 0 && log[i].seq_ in d.messages ==> log[i].seq_ in d.timers)
    && (forall i :: 0 <= i < |log| && log[i].seq_ in d.timers ==>
          log[i].expiresAfter > 0 && d.timers[log[i].seq_] == log[i].posted + log[i].expiresAfter)
  }

  ghost predicate OneNumberEach(log: seq<Entry>) { forall i, j :: 0 <= i < j < |log| ==> log[i].seq_ != log[j].seq_ }

  lemma {:induction false} OneFoldMatches(c: Call, log: seq<Entry>, p: Pass, n: nat)
    requires OneNumberEach(log) && n < |log| && TimersMatch(log, p.disk)
    ensures TimersMatch(log, FoldOne(c, p, log[n]).disk)
  {
    var e, q := log[n], FoldOne(c, p, log[n]);
    if !Replayed(p, e) {
      forall i | 0 <= i < |log| && i != n
        ensures log[i].seq_ in q.disk.messages <==> log[i].seq_ in p.disk.messages
      {
        assert log[i].seq_ != e.seq_;
        OthersAsTheyWere(c, p, e, log[i].seq_);
      }
      ToldExactly(c, p, e);
    }
  }

  lemma {:induction false} RunMatches(c: Call, log: seq<Entry>, p: Pass, es: seq<Entry>)
    requires OneNumberEach(log) && TimersMatch(log, p.disk) && forall e :: e in es ==> e in log
    ensures TimersMatch(log, FoldRun(c, p, es).disk)
    decreases |es|
  {
    if es != [] {
      RunMatches(c, log, p, es[..|es| - 1]);
      var e := es[|es| - 1];
      assert e in es;
      var n :| 0 <= n < |log| && log[n] == e;
      OneFoldMatches(c, log, FoldRun(c, p, es[..|es| - 1]), n);
    }
  }

  lemma {:induction false} EventsMatch(log: seq<Entry>, events: seq<Event>)
    requires OneNumberEach(log)
    requires forall i, e :: 0 <= i < |events| && events[i].Fold? && e in events[i].folded.entries ==> e in log
    ensures TimersMatch(log, After(EMPTY_DISK, events))
    decreases |events|
  {
    if events != [] {
      var n := |events| - 1;
      assert forall i :: 0 <= i < n ==> events[..n][i] == events[i];
      EventsMatch(log, events[..n]);
      var before := After(EMPTY_DISK, events[..n]);
      if events[n].Fold? {
        RunMatches(events[n].folded.call, log, Start(before, []), events[n].folded.entries);
      }
    }
  }

  /**
   Timed messages go, and go only, when their time has come: whatever was folded and expired before, and
   by whatever clocks, a message held goes at `now` if and only if it has a timer and that has run out.
   */
  lemma {:induction false} GoesInTimeExactly(log: seq<Entry>, events: seq<Event>, now: nat, i: nat)
    requires OneNumberEach(log) && i < |log|
    requires forall k, e :: 0 <= k < |events| && events[k].Fold? && e in events[k].folded.entries ==> e in log
    requires log[i].seq_ in After(EMPTY_DISK, events).messages
    ensures log[i].seq_ in After(EMPTY_DISK, events + [Expire(now)]).messages <==>
      log[i].expiresAfter == 0 || now < log[i].posted + log[i].expiresAfter
  {
    EventsMatch(log, events);
    assert (events + [Expire(now)])[..|events|] == events;
  }

  // ---- stopped between the message and its timer ----------------------------------

  /** A message with no timer row, whose entry its counter keeps out. */
  predicate Untimed(e: Entry, d: Disk) {
    CounterOf(e) in d.seen && e.seq_ in d.messages && e.seq_ !in d.timers
  }

  lemma {:induction false} RunLeavesUntimed(c: Call, p: Pass, e: Entry, es: seq<Entry>)
    requires Untimed(e, p.disk) && CounterOf(e) in p.replay && StoppedFold.OnlyAt(e, es)
    ensures Untimed(e, FoldRun(c, p, es).disk) && CounterOf(e) in FoldRun(c, p, es).replay
    decreases |es|
  {
    if es != [] {
      var n := |es| - 1;
      RunLeavesUntimed(c, p, e, es[..n]);
      assert es[n] in es;
    }
  }

  lemma {:induction false} UntimedForGood(d: Disk, e: Entry, events: seq<Event>)
    requires Untimed(e, d)
    requires forall i :: 0 <= i < |events| && events[i].Fold? ==> StoppedFold.OnlyAt(e, events[i].folded.entries)
    ensures Untimed(e, After(d, events))
    decreases |events|
  {
    if events != [] {
      var n := |events| - 1;
      assert forall i :: 0 <= i < n ==> events[..n][i] == events[i];
      UntimedForGood(d, e, events[..n]);
      var before := After(d, events[..n]);
      if events[n].Fold? {
        RunLeavesUntimed(events[n].folded.call, Start(before, []), e, events[n].folded.entries);
      }
    }
  }

  /**
   The message is written before its timer. A client stopped in between holds a timed message that outlives
   its time: whatever is folded and expired afterwards, it is still there.
   */
  lemma {:induction false} StoppedOutlivesItsTime(c: Call, d: Disk, before: seq<Counter>, e: Entry, events: seq<Event>)
    requires e.kind.Member? && CommitIn(e).None? && Plain(c.keys, e).Some? && Check(c.reader, e) != NotSigned
    requires e.expiresAfter > 0 && c.now < e.posted + e.expiresAfter
    requires CounterOf(e) !in d.seen && e.seq_ !in d.timers
    requires forall i :: 0 <= i < |events| && events[i].Fold? ==> StoppedFold.OnlyAt(e, events[i].folded.entries)
    ensures var moments := TurnMoments(c, Start(d, before), e);
      && |moments| == 6 && Untimed(e, moments[2]) && e.seq_ in moments[3].timers
      && e.seq_ in After(moments[2], events).messages
  {
    ForgedIsNotSigned(c.reader, map[], e);
    var m := TurnMoments(c, Start(d, before), e)[2];
    assert CounterOf(e) in m.seen;
    UntimedForGood(m, e, events);
  }
}
