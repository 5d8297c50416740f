/**
 A fold that is stopped, and a counter that is taken by the wrong entry.

 `record_seen` is written before `put_message`, and before the verdict: a counter marked seen is
 passed over by every later fold, whether or not its message was ever kept.
 */
module StoppedFold {
  import opened Wrappers
  import opened ChainAgreement
  import opened LogEntries
  import opened LogFold

  /** Folding `e` marks its counter seen, and a counter seen keeps `e` out. */
  predicate CountsOnce(c: Call, d: Disk, e: Entry) {
    e.kind.Member? && CommitIn(e).None? && Plain(c.keys, e).Some? && CounterOf(e) !in d.seen
  }

  predicate Blanked(ms: map<nat, Kept>, at: nat) { at in ms ==> ms[at].plain == Some(Nothing) }

  /** The rows an entry that was read would bring are all there. */
  predicate AlreadyThere(c: Call, d: Disk, e: Entry) {
    && e.seq_ in d.messages && d.messages[e.seq_].plain.Some?
    && (e.body == Nothing ==> Blanked(d.messages, e.seq_))
    && (c.keepSigned && e.stamp.Some? ==> e.seq_ in d.signed)
    && (e.expiresAfter > 0 ==> e.seq_ in d.timers && d.timers[e.seq_] == e.posted + e.expiresAfter)
    && (Plain(c.keys, e).Some? && Plain(c.keys, e).value.Redaction? && e.seq_ in c.honoured ==>
          Blanked(d.messages, Plain(c.keys, e).value.target))
  }

  lemma {:induction false} MessagesAlready(c: Call, d: Disk, e: Entry)
    requires CommitIn(e).None? && Plain(c.keys, e).Some?
    ensures Keep(c, d, e).messages == d.messages <==>
      && e.seq_ in d.messages && d.messages[e.seq_].plain.Some?
      && (e.body == Nothing ==> Blanked(d.messages, e.seq_))
      && (Plain(c.keys, e).value.Redaction? && e.seq_ in c.honoured ==>
            Blanked(d.messages, Plain(c.keys, e).value.target))
  {
    var ms := Keep(c, d, e).messages;
    assert e.seq_ in ms && ms[e.seq_].plain.Some?;
    if e.body == Nothing { assert ms[e.seq_].plain == Some(Nothing); }
    if Plain(c.keys, e).value.Redaction? && e.seq_ in c.honoured {
      assert Blanked(ms, Plain(c.keys, e).value.target);
    }
  }

  lemma {:induction false} KeepsNothingExactly(c: Call, d: Disk, e: Entry)
    requires CommitIn(e).None? && Plain(c.keys, e).Some?
    ensures Keep(c, d, e) == d <==> AlreadyThere(c, d, e)
  {
    MessagesAlready(c, d, e);
    var d' := Keep(c, d, e);
    assert c.keepSigned && e.stamp.Some? ==> e.seq_ in d'.signed;
    assert e.expiresAfter > 0 ==> e.seq_ in d'.timers && d'.timers[e.seq_] == e.posted + e.expiresAfter;
  }

  // ---- every write but the counter's can be made again -------------------------

  /** What keeping an entry does to the messages: its own row, and a redaction it is or carries. */
  function PutAndRedact(ms: map<nat, Kept>, at: nat, k: Kept, blank: bool, target: Option<nat>): map<nat, Kept> {
    var put := PutMessage(ms, at, k);
    var blanked := if blank then Redact(put, at) else put;
    if target.Some? then Redact(blanked, target.value) else blanked
  }

  lemma {:induction false} PutAgain(
      ms: map<nat, Kept>, at: nat, k: Kept, blank: bool, target: Option<nat>, m: map<nat, Kept>)
    requires blank || target.Some? ==> k.plain.Some?
    requires
      var put := PutMessage(ms, at, k);
      m == ms || m == put || (blank && m == Redact(put, at)) || m == PutAndRedact(ms, at, k, blank, target)
    ensures PutAndRedact(m, at, k, blank, target) == PutAndRedact(ms, at, k, blank, target)
  {
    assert PutMessage(PutMessage(ms, at, k), at, k) == PutMessage(ms, at, k);
  }

  /** Between `d` and `Keep(c, d, e)` each table is as it was or as it will be. */
  ghost predicate PartWay(c: Call, d: Disk, e: Entry, m: Disk) {
    && m.seen == d.seen
    && (m.signed == d.signed || m.signed == Keep(c, d, e).signed)
    && (m.timers == d.timers || m.timers == Keep(c, d, e).timers)
    && (m.commits == d.commits || m.commits == Keep(c, d, e).commits)
  }

  lemma {:induction false} OtherTablesAgain(c: Call, d: Disk, e: Entry, m: Disk)
    requires PartWay(c, d, e, m)
    ensures Keep(c, m, e) == Keep(c, d, e).(messages := Keep(c, m, e).messages)
  {
  }

  /** Stopped after any of the writes that keep an entry, keeping it again ends the same. */
  lemma {:induction false} KeptAgain(c: Call, d: Disk, e: Entry, i: nat)
    requires i < 5
    ensures Keep(c, Stages(c, d, e)[i], e) == Keep(c, d, e)
  {
    StagesArePartWay(c, d, e, i);
    OtherTablesAgain(c, d, e, Stages(c, d, e)[i]);
    MessagesAgain(c, d, e, i);
  }

  lemma {:induction false} StagesArePartWay(c: Call, d: Disk, e: Entry, i: nat)
    requires i < 5
    ensures PartWay(c, d, e, Stages(c, d, e)[i])
  {
    var stages := Stages(c, d, e);
    if i == 0 { assert PartWay(c, d, e, stages[0]); }
    else if i == 1 { assert PartWay(c, d, e, stages[1]); }
    else if i == 2 { assert PartWay(c, d, e, stages[2]); }
    else if i == 3 { assert PartWay(c, d, e, stages[3]); }
  }

  /** The redaction an entry carries, where it is honoured. */
  function Target(c: Call, e: Entry): Option<nat> {
    var plain := Plain(c.keys, e);
    if CommitIn(e).None? && plain.Some? && plain.value.Redaction? && e.seq_ in c.honoured
    then Some(plain.value.target) else None
  }

  lemma {:induction false} KeepsMessages(c: Call, d: Disk, e: Entry)
    ensures Keep(c, d, e).messages == PutAndRedact(d.messages, e.seq_, Row(c.keys, e), e.body == Nothing, Target(c, e))
  {
  }

  lemma {:induction false} MessagesOnTheWay(c: Call, d: Disk, e: Entry, i: nat)
    requires i < 5
    ensures var m, put := Stages(c, d, e)[i].messages, PutMessage(d.messages, e.seq_, Row(c.keys, e));
      m == d.messages || m == put || (e.body == Nothing && m == Redact(put, e.seq_)) || m == Keep(c, d, e).messages
  {
    var stages, put := Stages(c, d, e), PutMessage(d.messages, e.seq_, Row(c.keys, e));
    if i == 0 { assert stages[0].messages == d.messages; }
    else if i == 1 { assert stages[1].messages == put; }
    else if i == 2 { assert stages[2].messages == put; }
    else if i == 3 { assert stages[3].messages == if e.body == Nothing then Redact(put, e.seq_) else put; }
  }

  lemma {:induction false} MessagesAgain(c: Call, d: Disk, e: Entry, i: nat)
    requires i < 5
    ensures Keep(c, Stages(c, d, e)[i], e).messages == Keep(c, d, e).messages
  {
    var m := Stages(c, d, e)[i];
    MessagesOnTheWay(c, d, e, i);
    KeepsMessages(c, d, e);
    KeepsMessages(c, m, e);
    PutAgain(d.messages, e.seq_, Row(c.keys, e), e.body == Nothing, Target(c, e), m.messages);
  }

  // ---- stopping between the counter and the message ---------------------------

  /** Wherever the fold of `e` is stopped, folding it again ends as if it had not been. */
  ghost predicate StopsSafely(c: Call, d: Disk, before: seq<Counter>, e: Entry) {
    forall m :: m in TurnMoments(c, Start(d, before), e) ==>
      FoldOne(c, Start(m, before), e).disk == FoldOne(c, Start(d, before), e).disk
  }

  lemma {:induction false} FoldedFrom(c: Call, d: Disk, before: seq<Counter>, e: Entry)
    requires !Replayed(Start(d, before), e)
    ensures var d' := d.(seen := if Plain(c.keys, e).Some? && e.kind.Member? then d.seen + {CounterOf(e)} else d.seen);
      FoldOne(c, Start(d, before), e).disk
      == if Check(c.reader, e) == NotSigned || Expired(c, e) then d' else Keep(c, d', e)
  {
    ForgedIsNotSigned(c.reader, map[], e);
  }

  /** An entry that is not kept out by its counter can be stopped anywhere. */
  lemma {:induction false} UncountedStopsSafely(c: Call, d: Disk, before: seq<Counter>, e: Entry)
    requires !CountsOnce(c, d, e)
    ensures StopsSafely(c, d, before, e)
  {
    var p := Start(d, before);
    if !Replayed(p, e) {
      var d' := d.(seen := if Plain(c.keys, e).Some? && e.kind.Member? then d.seen + {CounterOf(e)} else d.seen);
      forall m | m in TurnMoments(c, p, e)
        ensures FoldOne(c, Start(m, before), e).disk == FoldOne(c, p, e).disk
      {
        ForgedIsNotSigned(c.reader, p.marks, e);
        FoldedFrom(c, d, before, e);
        AgainFrom(c, d', before, e, m);
      }
    }
  }

  lemma {:induction false} AgainFrom(c: Call, d: Disk, before: seq<Counter>, e: Entry, m: Disk)
    requires !(e.kind.Member? && CommitIn(e).None? && CounterOf(e) in d.seen)
    requires Plain(c.keys, e).Some? && e.kind.Member? ==> CounterOf(e) in d.seen
    requires m == d || (Check(c.reader, e) != NotSigned && !Expired(c, e) && m in Stages(c, d, e))
    ensures FoldOne(c, Start(m, before), e).disk
         == if Check(c.reader, e) == NotSigned || Expired(c, e) then d else Keep(c, d, e)
  {
    assert m.seen == d.seen;
    FoldedFrom(c, m, before, e);
    assert m.(seen := if Plain(c.keys, e).Some? && e.kind.Member? then m.seen + {CounterOf(e)} else m.seen) == m;
    if m != d {
      var i :| 0 <= i < 5 && m == Stages(c, d, e)[i];
      KeptAgain(c, d, e, i);
    }
  }

  /**
   The fold of an entry can be stopped anywhere, and taken up again, exactly where its counter does
   not keep it out, it is not to be kept at all, or all it would bring is there already.
   */
  lemma {:induction false} StopsSafelyExactly(c: Call, d: Disk, before: seq<Counter>, e: Entry)
    ensures StopsSafely(c, d, before, e) <==>
      !CountsOnce(c, d, e) || Check(c.reader, e) == NotSigned || Expired(c, e) || AlreadyThere(c, d, e)
  {
    if !CountsOnce(c, d, e) {
      UncountedStopsSafely(c, d, before, e);
    } else {
      var p, d' := Start(d, before), d.(seen := d.seen + {CounterOf(e)});
      FoldedFrom(c, d, before, e);
      KeepsNothingExactly(c, d', e);
      ForgedIsNotSigned(c.reader, p.marks, e);
      assert TurnMoments(c, p, e)[0] == d';
      assert FoldOne(c, Start(d', before), e).disk == d';
      if AlreadyThere(c, d, e) && Check(c.reader, e) != NotSigned && !Expired(c, e) { AllOneMoment(c, d', e); }
    }
  }

  /** Where nothing is new, every write leaves the rows as they were. */
  lemma {:induction false} AllOneMoment(c: Call, d: Disk, e: Entry)
    requires CommitIn(e).None? && Plain(c.keys, e).Some? && AlreadyThere(c, d, e)
    ensures forall m :: m in Stages(c, d, e) ==> m == d
  {
    var stages := Stages(c, d, e);
    assert stages[0] == d && stages[1] == d && stages[2] == d && stages[3] == d && stages[4] == d;
  }

  // ---- for good ---------------------------------------------------------------

  /** Every entry served at the number of `e` is one its counter keeps out. */
  ghost predicate OnlyAt(e: Entry, es: seq<Entry>) {
    forall x :: x in es && x.seq_ == e.seq_ ==> x.kind.Member? && CommitIn(x).None? && CounterOf(x) == CounterOf(e)
  }

  /** The counter of `e` is marked seen, and its message is not held. */
  predicate Lost(e: Entry, d: Disk) { CounterOf(e) in d.seen && e.seq_ !in d.messages }

  lemma {:induction false} OneLeavesLost(c: Call, p: Pass, e: Entry, x: Entry)
    requires Lost(e, p.disk) && CounterOf(e) in p.replay && OnlyAt(e, [x])
    ensures Lost(e, FoldOne(c, p, x).disk) && CounterOf(e) in FoldOne(c, p, x).replay
  {
    assert x in [x];
  }

  lemma {:induction false} RunLeavesLost(c: Call, p: Pass, e: Entry, es: seq<Entry>)
    requires Lost(e, p.disk) && CounterOf(e) in p.replay && OnlyAt(e, es)
    ensures Lost(e, FoldRun(c, p, es).disk) && CounterOf(e) in FoldRun(c, p, es).replay
    decreases |es|
  {
    if es != [] {
      var n := |es| - 1;
      RunLeavesLost(c, p, e, es[..n]);
      assert OnlyAt(e, [es[n]]) by { assert es[n] in es; }
      OneLeavesLost(c, FoldRun(c, p, es[..n]), e, es[n]);
    }
  }

  /** A message lost this way is never stored, whatever is folded afterwards and with whatever keys. */
  lemma {:induction false} LostForGood(d: Disk, e: Entry, calls: seq<Folded>)
    requires Lost(e, d) && forall i :: 0 <= i < |calls| ==> OnlyAt(e, calls[i].entries)
    ensures Lost(e, FoldCalls(d, calls).disk)
    decreases |calls|
  {
    if calls != [] {
      var init, last := calls[..|calls| - 1], calls[|calls| - 1];
      assert forall i :: 0 <= i < |init| ==> init[i] == calls[i];
      LostForGood(d, e, init);
      var before := FoldCalls(d, init);
      RunLeavesLost(last.call, Start(before.disk, before.opened_), e, last.entries);
    }
  }

  /** So a client stopped after the first write of a new message never shows it. */
  lemma {:induction false} StoppedIsLost(c: Call, d: Disk, before: seq<Counter>, e: Entry, calls: seq<Folded>)
    requires CountsOnce(c, d, e) && e.seq_ !in d.messages
    requires forall i :: 0 <= i < |calls| ==> OnlyAt(e, calls[i].entries)
    ensures var m := TurnMoments(c, Start(d, before), e)[0]; e.seq_ !in FoldCalls(m, calls).disk.messages
  {
    LostForGood(TurnMoments(c, Start(d, before), e)[0], e, calls);
  }

  // ---- an entry nobody signed ---------------------------------------------------

  lemma {:induction false} ForgedLeaves(c: Call, d: Disk, before: seq<Counter>, f: Entry)
    requires f.kind.Member? && Check(c.reader, f) == NotSigned && CounterOf(f) !in d.seen
    ensures FoldRun(c, Start(d, before), [f]).disk
         == d.(seen := if Plain(c.keys, f).Some? then d.seen + {CounterOf(f)} else d.seen)
  {
    assert [f][..|[f]| - 1] == [];
    assert FoldRun(c, Start(d, before), []) == Start(d, before);
    FoldedFrom(c, d, before, f);
  }

  /**
   A forged entry is never kept, but its counter is: a genuine entry under that counter, served in a
   later fold, is kept if and only if the forged one could not be read.
   */
  lemma {:induction false} ForgedSuppressesExactly(
      c: Call, d: Disk, before: seq<Counter>, f: Entry, later: Call, again: seq<Counter>, e: Entry)
    requires f.kind.Member? && Check(c.reader, f) == NotSigned
    requires e.kind.Member? && CommitIn(e).None? && Check(later.reader, e) != NotSigned && !Expired(later, e)
    requires CounterOf(f) == CounterOf(e) && CounterOf(e) !in d.seen && e.seq_ !in d.messages
    ensures var d' := FoldRun(c, Start(d, before), [f]).disk;
      && d'.messages == d.messages
      && (e.seq_ in FoldOne(later, Start(d', again), e).disk.messages <==> Plain(c.keys, f).None?)
  {
    ForgedLeaves(c, d, before, f);
    var d' := FoldRun(c, Start(d, before), [f]).disk;
    if Plain(c.keys, f).None? { FoldedFrom(later, d', again, e); }
  }

  /**
   Whoever serves the log can do this to any message the client could read: its own copy with the
   signature spoilt, served once before it, keeps the message out of every later fold.
   */
  lemma {:induction false} SpoiltCopySuppresses(c: Call, d: Disk, before: seq<Counter>, e: Entry, calls: seq<Folded>)
    requires CountsOnce(c, d, e) && e.seq_ !in d.messages
    requires forall i :: 0 <= i < |calls| ==> OnlyAt(e, calls[i].entries)
    ensures var d' := FoldRun(c, Start(d, before), [e.(sig := OtherSignature(0))]).disk;
      e.seq_ !in FoldCalls(d', calls).disk.messages
  {
    var f := e.(sig := OtherSignature(0));
    assert SigningKey(c.reader, f, 0).None?;
    ForgedLeaves(c, d, before, f);
    LostForGood(FoldRun(c, Start(d, before), [f]).disk, e, calls);
  }
}
