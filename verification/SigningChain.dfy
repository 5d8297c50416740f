/**
 SIP-31's per-device chain and SIP-17's per-epoch counter, against an exchange
 reached over a network that loses and delays. The counter is made durable before
 a post is sent and the chain position only once it is acknowledged.

 A link is a free term over everything signed, so a head names the whole chain below it.
 */
module SigningChain {
  import opened Wrappers

  datatype Head = Genesis | Linked(last: Signed)

  /**
   What a device signs, a message or a membership action: its position and link, a message's epoch
   and counter, and the rest.
   */
  datatype Signed =
    | Message(seq_: nat, prev: Head, epoch: nat, counter: nat, body: nat)
    | Action(seq_: nat, prev: Head, event: nat)
  {
    predicate Under(e: nat) { Message? && epoch == e }
  }

  /** The next position to sign at, and the link to put in it. */
  datatype Mark = Mark(next: nat, head: Head)

  /** The newest epoch sent under, and the highest counter used in it. */
  datatype Cursor = Cursor(epoch: nat, counter: nat)

  /** `ChannelInfo`, as far as signing reads it: the chain, the epoch, and the highest counter taken in it. */
  datatype Report = Report(next: nat, head: Head, epoch: nat, high: nat)

  function Max(a: nat, b: nat): nat { if a >= b then a else b }

  /** `chain_at`: the greater of what is remembered and what is reported. */
  function ChainAt(m: Mark, r: Report): Mark {
    if m.next >= r.next then m else Mark(r.next, r.head)
  }

  /** `set_chain`: never backwards, and the head only with the position. */
  function SetChain(m: Mark, s: Signed): Mark {
    if s.seq_ + 1 >= m.next then Mark(s.seq_ + 1, Linked(s)) else m
  }

  /** The counter `send_body` and `commit` take under `epoch`. */
  function NextCounter(c: Cursor, epoch: nat, high: nat): (n: nat) {
    Max(if c.epoch == epoch then c.counter else 0, high) + 1
  }

  /** `set_msg_seq`: raised within an epoch, started over only by a higher one. */
  function SetCounter(c: Cursor, epoch: nat, n: nat): Cursor {
    if epoch > c.epoch then Cursor(epoch, n) else Cursor(c.epoch, Max(c.counter, n))
  }

  /** The durable rows of one channel a signature is made from. */
  class SigningStore {
    var incarnation: Option<nat>
    var mark: Mark
    var cursor: Cursor
    /** A change of incarnation to tell the reader about. */
    var rebuilt: bool

    constructor ()
      ensures incarnation == None && mark == Mark(0, Genesis) && cursor == Cursor(0, 0) && !rebuilt
    {
      incarnation, mark, cursor, rebuilt := None, Mark(0, Genesis), Cursor(0, 0), false;
    }

    /** Where the next signature goes, given what the exchange reported; a new incarnation starts the channel over. */
    method Position(instance: nat, r: Report) returns (at: Mark)
      modifies this
      ensures instance == 0 ==> unchanged(this)
      ensures instance != 0 ==> incarnation == Some(instance)
      ensures instance == 0 || old(incarnation) in {None, Some(instance)} ==>
        mark == old(mark) && cursor == old(cursor) && rebuilt == old(rebuilt)
      ensures instance != 0 && old(incarnation) !in {None, Some(instance)} ==>
        mark == Mark(0, Genesis) && cursor == Cursor(0, 0) && rebuilt
      ensures at == ChainAt(mark, r)
    {
      if instance != 0 {
        match incarnation {
          case Some(known) =>
            if known != instance {
              mark, cursor, rebuilt := Mark(0, Genesis), Cursor(0, 0), true;
            }
          case None =>
        }
        incarnation := Some(instance);
      }
      if mark.next >= r.next {
        at := mark;
      } else {
        at := Mark(r.next, r.head);
      }
    }

    /** The half of a post before it is sent: the counter is taken and made durable, the position is not. */
    method Prepare(epoch: nat, r: Report, body: nat) returns (s: Signed)
      modifies this`cursor
      ensures var at := ChainAt(mark, r);
        s == Message(at.next, at.head, epoch, NextCounter(old(cursor), epoch, r.high), body)
      ensures s.Message? && cursor == SetCounter(old(cursor), epoch, s.counter)
    {
      var local := if cursor.epoch == epoch then cursor.counter else 0;
      var n := Max(local, r.high) + 1;
      cursor := SetCounter(cursor, epoch, n);
      var at := ChainAt(mark, r);
      s := Message(at.next, at.head, epoch, n, body);
    }

    /** An action takes a position and no counter; nothing is durable until it is acknowledged. */
    method PrepareAction(r: Report, event: nat) returns (s: Signed)
      ensures s == Action(ChainAt(mark, r).next, ChainAt(mark, r).head, event)
    {
      var at := ChainAt(mark, r);
      s := Action(at.next, at.head, event);
    }

    /** The half after the acknowledgement. */
    method Acknowledged(s: Signed)
      modifies this`mark
      ensures mark == SetChain(old(mark), s)
    {
      if s.seq_ + 1 >= mark.next {
        mark := Mark(s.seq_ + 1, Linked(s));
      }
    }
  }

  // ---- client, exchange and what is between them -------------------------

  datatype System = System(
    taken: seq<Signed>,              // the device's entries the exchange accepted, in order
    epoch: nat,                      // the exchange's current epoch
    mark: Mark,                      // durable at the client
    cursor: Cursor,                  // durable at the client
    reports: set<Report>,            // reports the client has in hand, however old
    posts: set<Signed>,              // posts on their way to the exchange
    acks: set<Signed>,               // acknowledgements on their way back
    orphans: set<Signed>)            // posts on their way from a process that has since stopped

  /** The head once the first `n` entries are taken. */
  function HeadAt(taken: seq<Signed>, n: nat): Head
    requires n <= |taken|
  {
    if n == 0 then Genesis else Linked(taken[n - 1])
  }

  function HeadOf(taken: seq<Signed>): Head { HeadAt(taken, |taken|) }

  /** The highest counter taken under `epoch`. */
  function HighWater(taken: seq<Signed>, epoch: nat): (h: nat)
    ensures forall i :: 0 <= i < |taken| && taken[i].Under(epoch) ==> taken[i].counter <= h
    ensures h == 0 || exists i :: 0 <= i < |taken| && taken[i].Under(epoch) && taken[i].counter == h
  {
    if taken == [] then 0
    else
      var rest := HighWater(taken[..|taken| - 1], epoch);
      var last := taken[|taken| - 1];
      assert taken == taken[..|taken| - 1] + [last];
      if last.Under(epoch) then Max(rest, last.counter) else rest
  }

  /** The report an honest exchange gives now. */
  function ReportOf(y: System): Report {
    Report(|y.taken|, HeadOf(y.taken), y.epoch, HighWater(y.taken, y.epoch))
  }

  ghost predicate Init(y: System) {
    && y.taken == [] && y.mark == Mark(0, Genesis) && y.cursor == Cursor(0, 0)
    && y.reports == {} && y.posts == {} && y.acks == {} && y.orphans == {}
  }

  ghost predicate Ask(y: System, y': System) {
    y' == y.(reports := y.reports + {ReportOf(y)})
  }

  /** The signature a report and the durable rows give. */
  function SignedFrom(y: System, r: Report, epoch: nat, body: nat): Signed {
    var at := ChainAt(y.mark, r);
    Message(at.next, at.head, epoch, NextCounter(y.cursor, epoch, r.high), body)
  }

  /** A send or a commit's entry, from any report in hand, under an epoch no newer than it. */
  ghost predicate Send(y: System, y': System, r: Report, epoch: nat, body: nat) {
    var s := SignedFrom(y, r, epoch, body);
    && r in y.reports && epoch <= r.epoch
    && y' == y.(cursor := SetCounter(y.cursor, epoch, s.counter), posts := y.posts + {s})
  }

  /** `sign_action_at`: a membership action, on the same chain, with no counter. */
  function ActionFrom(y: System, r: Report, event: nat): Signed {
    var at := ChainAt(y.mark, r);
    Action(at.next, at.head, event)
  }

  /** An action asks for its own report; one older than that went with the call that asked for it. */
  ghost predicate SendAction(y: System, y': System, r: Report, event: nat) {
    && r in y.reports
    && y' == y.(posts := y.posts + {ActionFrom(y, r, event)}, reports := set q | q in y.reports && q.next >= r.next)
  }

  /** The exchange takes a post only at its own next position and link, under its own epoch. */
  ghost predicate Takes(y: System, s: Signed) {
    s.seq_ == |y.taken| && s.prev == HeadOf(y.taken) && (s.Message? ==> s.epoch == y.epoch)
  }

  ghost predicate Take(y: System, y': System, s: Signed) {
    s in y.posts && Takes(y, s) && y' == y.(taken := y.taken + [s], posts := y.posts - {s}, acks := y.acks + {s})
  }

  /** A post whose sender is gone is taken all the same, and nobody hears of it. */
  ghost predicate TakeOrphan(y: System, y': System, s: Signed) {
    s in y.orphans && Takes(y, s) && y' == y.(taken := y.taken + [s], orphans := y.orphans - {s})
  }

  /** Refused, or lost on the way there or back. */
  ghost predicate Drop(y: System, y': System, s: Signed) {
    || y' == y.(posts := y.posts - {s})
    || y' == y.(acks := y.acks - {s})
    || y' == y.(orphans := y.orphans - {s})
  }

  ghost predicate Acknowledge(y: System, y': System, s: Signed) {
    s in y.acks && y' == y.(mark := SetChain(y.mark, s), acks := y.acks - {s})
  }

  ghost predicate Rotate(y: System, y': System) {
    y'.epoch > y.epoch && y' == y.(epoch := y'.epoch)
  }

  ghost predicate Restart(y: System, y': System) {
    y' == y.(reports := {}, posts := {}, acks := {}, orphans := y.orphans + y.posts)
  }

  ghost predicate LoseStore(y: System, y': System) {
    y' == y.(reports := {}, posts := {}, acks := {}, orphans := y.orphans + y.posts,
             mark := Mark(0, Genesis), cursor := Cursor(0, 0))
  }

  ghost predicate Step(y: System, y': System) {
    || Ask(y, y') || Rotate(y, y') || Restart(y, y') || LoseStore(y, y')
    || (exists r: Report, epoch: nat, body: nat :: Send(y, y', r, epoch, body))
    || (exists r: Report, event: nat :: SendAction(y, y', r, event))
    || (exists s: Signed :: Take(y, y', s))
    || (exists s: Signed :: TakeOrphan(y, y', s))
    || (exists s: Signed :: Drop(y, y', s))
    || (exists s: Signed :: Acknowledge(y, y', s))
  }

  // ---- what every step keeps ---------------------------------------------

  /** One linked chain: each entry at its own position, on the one before it. */
  ghost predicate OneChain(taken: seq<Signed>) {
    forall i :: 0 <= i < |taken| ==> LinkedAt(taken, i)
  }

  predicate LinkedAt(taken: seq<Signed>, i: nat)
    requires i < |taken|
  {
    taken[i].seq_ == i && taken[i].prev == HeadAt(taken, i)
  }

  /** Epochs do not go back, and within one the counters strictly rise. */
  ghost predicate CountersRise(taken: seq<Signed>) {
    forall i, j :: 0 <= i < j < |taken| && taken[i].Message? && taken[j].Message? ==>
      taken[i].epoch < taken[j].epoch || (taken[i].epoch == taken[j].epoch && taken[i].counter < taken[j].counter)
  }

  predicate NotAfter(s: Signed, c: Cursor) {
    s.Action? || s.epoch < c.epoch || (s.epoch == c.epoch && s.counter <= c.counter)
  }

  /** `next` and `head` describe a chain the exchange has been at. */
  ghost predicate Describes(taken: seq<Signed>, next: nat, head: Head) {
    next <= |taken| && head == HeadAt(taken, next)
  }

  /** A signature over a position the exchange has been at, with a counter above all below it. */
  ghost predicate Placed(y: System, s: Signed) {
    && Describes(y.taken, s.seq_, s.prev)
    && (s.Message? ==> s.epoch <= y.epoch)
    && (s.Under(y.epoch) ==>
          forall i :: 0 <= i < s.seq_ && y.taken[i].Under(y.epoch) ==> y.taken[i].counter < s.counter)
  }

  ghost predicate GoodReport(y: System, r: Report) {
    && Describes(y.taken, r.next, r.head) && r.epoch <= y.epoch
    && forall i :: 0 <= i < r.next && y.taken[i].Under(r.epoch) ==> y.taken[i].counter <= r.high
  }

  ghost predicate ExchangeInv(y: System) {
    && OneChain(y.taken) && CountersRise(y.taken)
    && forall i :: 0 <= i < |y.taken| && y.taken[i].Message? ==> y.taken[i].epoch <= y.epoch
  }

  ghost predicate ClientInv(y: System) {
    && Describes(y.taken, y.mark.next, y.mark.head)
    && y.cursor.epoch <= y.epoch
    && (forall r :: r in y.reports ==> GoodReport(y, r) && Covered(y, r, y.mark.next))
  }

  /** What was taken since a report, up to a position, is covered by the durable counter. */
  ghost predicate Covered(y: System, r: Report, next: nat) {
    next <= |y.taken| && forall i :: r.next <= i < next ==> NotAfter(y.taken[i], y.cursor)
  }

  ghost predicate CoveredForAll(y: System, next: nat) { forall r :: r in y.reports ==> Covered(y, r, next) }

  ghost predicate NetworkInv(y: System) {
    && (forall s :: s in y.posts ==> Placed(y, s) && NotAfter(s, y.cursor) && (s.Action? ==> CoveredForAll(y, s.seq_)))
    && (forall s :: s in y.orphans ==> Placed(y, s))
    && (forall s :: s in y.acks ==>
          && s.seq_ < |y.taken| && y.taken[s.seq_] == s && NotAfter(s, y.cursor)
          && (s.Action? ==> CoveredForAll(y, s.seq_)))
  }

  ghost predicate Inv(y: System) { ExchangeInv(y) && ClientInv(y) && NetworkInv(y) }

  lemma {:induction false} SendKeepsInv(y: System, y': System, r: Report, epoch: nat, body: nat)
    requires Inv(y) && Send(y, y', r, epoch, body)
    ensures Inv(y')
  {
    assert GoodReport(y, r);
    var s := SignedFrom(y, r, epoch, body);
    assert Placed(y', s);
  }

  lemma {:induction false} ActionKeepsInv(y: System, y': System, r: Report, event: nat)
    requires Inv(y) && SendAction(y, y', r, event)
    ensures Inv(y')
  {
    assert GoodReport(y, r);
    assert Placed(y', ActionFrom(y, r, event));
  }

  lemma {:induction false} TakenKeepsExchange(y: System, s: Signed)
    requires Inv(y) && Placed(y, s) && Takes(y, s)
    ensures ExchangeInv(y.(taken := y.taken + [s]))
  {
    var t := y.taken + [s];
    forall i | 0 <= i < |t| ensures LinkedAt(t, i) {
      if i < |y.taken| { assert LinkedAt(y.taken, i); }
    }
  }

  lemma {:induction false} DescribesStill(taken: seq<Signed>, s: Signed, next: nat, head: Head)
    requires Describes(taken, next, head)
    ensures Describes(taken + [s], next, head)
  {
  }

  /** Taking one more entry leaves every description of the chain below it true. */
  lemma {:induction false} TakenKeepsRest(y: System, y': System, s: Signed)
    requires Inv(y) && y' == y.(taken := y.taken + [s], posts := y'.posts, acks := y'.acks, orphans := y'.orphans)
    requires y'.posts <= y.posts && y'.orphans <= y.orphans && y'.acks <= y.acks + {s}
    requires s in y'.acks ==> s.seq_ == |y.taken| && NotAfter(s, y.cursor) && (s.Action? ==> CoveredForAll(y, s.seq_))
    ensures ClientInv(y') && NetworkInv(y')
  {
    forall next | CoveredForAll(y, next) ensures CoveredForAll(y', next) {
      forall r | r in y'.reports ensures Covered(y', r, next) { assert Covered(y, r, next); }
    }
    assert CoveredForAll(y, y.mark.next);
    DescribesStill(y.taken, s, y.mark.next, y.mark.head);
    forall r | r in y'.reports ensures GoodReport(y', r) {
      DescribesStill(y.taken, s, r.next, r.head);
    }
    forall p | p in y'.posts || p in y'.orphans ensures Placed(y', p) {
      assert Placed(y, p);
      DescribesStill(y.taken, s, p.seq_, p.prev);
    }
  }

  lemma {:induction false} AcknowledgeKeepsInv(y: System, y': System, s: Signed)
    requires Inv(y) && Acknowledge(y, y', s)
    ensures Inv(y')
  {
    forall r | r in y.reports ensures Covered(y', r, y'.mark.next) {
      assert Covered(y, r, y.mark.next);
      forall i | r.next <= i < y'.mark.next ensures NotAfter(y.taken[i], y.cursor) {
        if i < s.seq_ {
          assert y.taken[s.seq_] == s;
          if s.Action? { assert Covered(y, r, s.seq_); }
        }
      }
    }
    forall q, r | q in y'.acks && q.Action? && r in y'.reports ensures Covered(y', r, q.seq_) {
      assert Covered(y, r, q.seq_);
    }
    forall q, r | q in y'.posts && q.Action? && r in y'.reports ensures Covered(y', r, q.seq_) {
      assert Covered(y, r, q.seq_);
    }
  }

  lemma {:induction false} TakeKeepsInv(y: System, y': System, s: Signed)
    requires Inv(y) && (Take(y, y', s) || TakeOrphan(y, y', s))
    ensures Inv(y')
  {
    TakenKeepsExchange(y, s);
    TakenKeepsRest(y, y', s);
  }

  lemma {:induction false} AskKeepsInv(y: System, y': System)
    requires Inv(y) && Ask(y, y')
    ensures Inv(y')
  {
    assert GoodReport(y, ReportOf(y));
  }

  lemma {:induction false} StepKeepsInv(y: System, y': System)
    requires Inv(y) && Step(y, y')
    ensures Inv(y')
  {
    if r, epoch: nat, body: nat :| Send(y, y', r, epoch, body) { SendKeepsInv(y, y', r, epoch, body); }
    else if r, event: nat :| SendAction(y, y', r, event) { ActionKeepsInv(y, y', r, event); }
    else if s :| Take(y, y', s) { TakeKeepsInv(y, y', s); }
    else if s :| TakeOrphan(y, y', s) { TakeKeepsInv(y, y', s); }
    else if s :| Acknowledge(y, y', s) { AcknowledgeKeepsInv(y, y', s); }
    else if Ask(y, y') { AskKeepsInv(y, y'); }
    else if s :| Drop(y, y', s) { DropKeepsInv(y, y', s); }
    else { QuietStepKeepsInv(y, y'); }
  }

  lemma {:induction false} DropKeepsInv(y: System, y': System, s: Signed)
    requires Inv(y) && Drop(y, y', s)
    ensures Inv(y')
  {
    forall p | p in y'.posts || p in y'.orphans ensures Placed(y', p) { assert Placed(y, p); }
  }

  lemma {:induction false} QuietStepKeepsInv(y: System, y': System)
    requires Inv(y) && (Rotate(y, y') || Restart(y, y') || LoseStore(y, y'))
    ensures Inv(y')
  {
    forall s | s in y'.posts || s in y'.orphans ensures Placed(y', s) { assert Placed(y, s); }
    forall r | r in y'.reports ensures GoodReport(y', r) { assert GoodReport(y, r); }
  }

  ghost predicate IsRun(run: seq<System>) {
    run != [] && Init(run[0]) && forall i :: 0 <= i < |run| - 1 ==> Step(run[i], run[i + 1])
  }

  lemma {:induction false} RunsKeepInv(run: seq<System>, n: nat)
    requires IsRun(run) && n < |run|
    ensures Inv(run[n])
    decreases n
  {
    if n > 0 {
      RunsKeepInv(run, n - 1);
      assert Step(run[n - 1], run[n - 1 + 1]);
      StepKeepsInv(run[n - 1], run[n]);
    }
  }

  /**
   Whatever is lost or late, and whatever process or store went with it: what the
   exchange took from the device is one linked chain with every position used once
   and every counter of an epoch above the ones before it; and the client's mark is
   never ahead of the exchange, with one head where the two are level.
   */
  lemma {:induction false} OneChainWhateverIsLost(run: seq<System>, n: nat)
    requires IsRun(run) && n < |run|
    ensures OneChain(run[n].taken) && CountersRise(run[n].taken)
    ensures run[n].mark.next <= |run[n].taken|
    ensures run[n].mark.next == |run[n].taken| ==> run[n].mark.head == HeadOf(run[n].taken)
  {
    RunsKeepInv(run, n);
  }

  /** A signature made from a fresh report is one the exchange takes, whatever the client remembers. */
  lemma {:induction false} FreshReportLands(run: seq<System>, n: nat, body: nat)
    requires IsRun(run) && n < |run|
    ensures var y := run[n];
      Takes(y, SignedFrom(y, ReportOf(y), y.epoch, body)) && Takes(y, ActionFrom(y, ReportOf(y), body))
  {
    OneChainWhateverIsLost(run, n);
  }

  /**
   From a fresh report, and even with the store gone, the counter is above every one the exchange
   took in that epoch.
   */
  lemma {:induction false} FreshReportCounts(y: System, c: Cursor, i: nat)
    requires i < |y.taken| && y.taken[i].Under(y.epoch)
    ensures NextCounter(c, y.epoch, ReportOf(y).high) > y.taken[i].counter
  {
  }

  // ---- the client alone, against any exchange at all ---------------------

  /** One act of the client: a message or an action prepared from some report, or an acknowledgement of one it made. */
  datatype Act = Posted(r: Report, epoch: nat, body: nat) | Acted(r: Report, event: nat) | Acked(which: nat)

  /** The client's rows, every signature it made since it last lost them, and which were acknowledged. */
  datatype Client = Client(mark: Mark, cursor: Cursor, made: seq<Signed>, acked: set<nat>)

  function Do(c: Client, a: Act): Client {
    match a
    case Posted(r, epoch, body) =>
      var at := ChainAt(c.mark, r);
      var n := NextCounter(c.cursor, epoch, r.high);
      c.(cursor := SetCounter(c.cursor, epoch, n), made := c.made + [Message(at.next, at.head, epoch, n, body)])
    case Acted(r, event) =>
      var at := ChainAt(c.mark, r);
      c.(made := c.made + [Action(at.next, at.head, event)])
    case Acked(i) =>
      if i < |c.made| then c.(mark := SetChain(c.mark, c.made[i]), acked := c.acked + {i}) else c
  }

  function DoAll(acts: seq<Act>): Client {
    if acts == [] then Client(Mark(0, Genesis), Cursor(0, 0), [], {})
    else Do(DoAll(acts[..|acts| - 1]), acts[|acts| - 1])
  }

  /** No send goes back to an epoch below one already sent under. */
  ghost predicate EpochsRise(acts: seq<Act>) {
    forall i, j :: 0 <= i < j < |acts| && acts[i].Posted? && acts[j].Posted? ==> acts[i].epoch <= acts[j].epoch
  }

  /** Everything sent lies at or below the durable cursor, which sits in an epoch sent under. */
  lemma {:induction false} SentBelowCursor(acts: seq<Act>)
    requires EpochsRise(acts)
    ensures var c := DoAll(acts);
      && CountersRise(c.made)
      && (forall k :: 0 <= k < |c.made| ==> NotAfter(c.made[k], c.cursor))
      && (c.cursor == Cursor(0, 0) || exists i :: 0 <= i < |acts| && acts[i].Posted? && acts[i].epoch == c.cursor.epoch)
    decreases |acts|
  {
    if acts != [] {
      var init, a := acts[..|acts| - 1], acts[|acts| - 1];
      assert forall i :: 0 <= i < |init| ==> init[i] == acts[i];
      SentBelowCursor(init);
      var c := DoAll(init);
      if a.Posted? {
        if c.cursor != Cursor(0, 0) {
          var i :| 0 <= i < |init| && init[i].Posted? && init[i].epoch == c.cursor.epoch;
          assert acts[i].epoch <= a.epoch;
        }
        assert acts[|acts| - 1].Posted? && DoAll(acts).cursor.epoch == a.epoch;
      } else if c.cursor != Cursor(0, 0) {
        var i :| 0 <= i < |init| && init[i].Posted? && init[i].epoch == c.cursor.epoch;
        assert acts[i] == init[i];
      }
    }
  }

  /**
   Whatever an exchange reports, honest or not: as long as epochs do not go back,
   the counters sent under one epoch strictly rise, acknowledged or not.
   */
  lemma {:induction false} CountersNeverRepeat(acts: seq<Act>, i: nat, j: nat)
    requires EpochsRise(acts) && i < j < |DoAll(acts).made|
    requires var made := DoAll(acts).made; made[i].Message? && made[j].Under(made[i].epoch)
    ensures DoAll(acts).made[i].counter < DoAll(acts).made[j].counter
  {
    SentBelowCursor(acts);
  }

  /**
   One send, exactly: the counter is new among `sent`, all of which the cursor covers,
   unless the send goes back below the cursor's epoch, where only the report stands
   between it and a counter already used.
   */
  lemma {:induction false} CounterRepeatsExactly(c: Cursor, sent: Signed, epoch: nat, high: nat)
    requires NotAfter(sent, c) && sent.Under(epoch)
    ensures NextCounter(c, epoch, high) <= sent.counter <==> epoch < c.epoch && high < sent.counter
  {
  }

  /** An epoch gone back to, and a report that has forgotten: one counter, twice under one key. */
  lemma {:induction false} GoingBackRepeats()
    ensures var r := Report(0, Genesis, 2, 0);
      var made := DoAll([Posted(r, 1, 0), Posted(r, 2, 0), Posted(r, 1, 1)]).made;
      && |made| == 3 && made[0].Message? && made[2].Under(made[0].epoch)
      && made[0].counter == made[2].counter && made[0] != made[2]
  {
    var r := Report(0, Genesis, 2, 0);
    var acts := [Posted(r, 1, 0), Posted(r, 2, 0), Posted(r, 1, 1)];
    assert acts[..2] == [Posted(r, 1, 0), Posted(r, 2, 0)] && acts[..2][..1] == [Posted(r, 1, 0)];
    assert [Posted(r, 1, 0)][..0] == [];
    assert DoAll(acts[..2][..1]).made == [Message(0, Genesis, 1, 1, 0)];
    assert DoAll(acts[..2]).made == [Message(0, Genesis, 1, 1, 0), Message(0, Genesis, 2, 1, 0)];
  }

  /** Whatever an exchange reports, nothing is signed at or below a position already acknowledged. */
  lemma {:induction false} AcknowledgedNeverResigned(acts: seq<Act>, a: Act, k: nat)
    requires !a.Acked? && k in DoAll(acts).acked
    ensures k < |DoAll(acts).made| && DoAll(acts).made[k].seq_ < DoAll(acts).mark.next
    ensures var made := Do(DoAll(acts), a).made; made[|made| - 1].seq_ > DoAll(acts).made[k].seq_
    decreases |acts|
  {
    if acts != [] {
      var init := acts[..|acts| - 1];
      if k in DoAll(init).acked { AcknowledgedNeverResigned(init, a, k); }
    }
  }

  // ---- the acknowledged position -----------------------------------------------

  /**
   The mark is the highest position acknowledged and the link that signature makes, the last of them where two
   were acknowledged at one position.
   */
  lemma {:induction false} MarkIsAcknowledged(acts: seq<Act>) returns (k: nat)
    ensures var c := DoAll(acts);
      && (c.acked == {} ==> c.mark == Mark(0, Genesis))
      && (c.acked != {} ==> k in c.acked && k < |c.made| && c.mark == Mark(c.made[k].seq_ + 1, Linked(c.made[k])))
      && (forall i :: i in c.acked ==> i < |c.made| && c.made[i].seq_ < c.mark.next)
      && (acts != [] && acts[|acts| - 1].Acked? && acts[|acts| - 1].which < |c.made| &&
            c.made[acts[|acts| - 1].which].seq_ + 1 == c.mark.next ==>
            c.mark.head == Linked(c.made[acts[|acts| - 1].which]))
    decreases |acts|
  {
    k := 0;
    if acts != [] {
      var init, a := acts[..|acts| - 1], acts[|acts| - 1];
      k := MarkIsAcknowledged(init);
      if a.Acked? && a.which < |DoAll(init).made| && DoAll(init).made[a.which].seq_ + 1 >= DoAll(init).mark.next {
        k := a.which;
      }
    }
  }

  /**
   Whatever an exchange reports, a signature just above the highest acknowledged position links to the
   signature acknowledged there, and one above that to the head reported.
   */
  lemma {:induction false} LinksToAcknowledged(acts: seq<Act>, a: Act)
    requires !a.Acked?
    ensures var c, made := DoAll(acts), Do(DoAll(acts), a).made;
      var s := made[|made| - 1];
      && |made| == |c.made| + 1 && s.seq_ == Max(c.mark.next, a.r.next)
      && (a.Posted? ==> s.Message? && s.epoch == a.epoch && s.body == a.body && s.counter > a.r.high)
      && (a.Acted? ==> s.Action? && s.event == a.event)
      && (s.seq_ == c.mark.next ==> s.prev == c.mark.head)
      && (s.seq_ > c.mark.next ==> s.seq_ == a.r.next && s.prev == a.r.head)
  {
  }

  /** The counter kept never falls within an epoch, whatever is put to it, and only a higher epoch starts it over. */
  lemma {:induction false} CursorNeverFalls(c: Cursor, epoch: nat, n: nat)
    ensures var c' := SetCounter(c, epoch, n);
      && c'.epoch == Max(c.epoch, epoch)
      && (epoch > c.epoch ==> c'.counter == n)
      && (epoch <= c.epoch ==> c'.counter >= c.counter && c'.counter >= n && c'.counter in {c.counter, n})
  {
  }

  /**
   Nothing but loss and others stops a client: from any state, asking, signing, the exchange taking it and the
   answer coming back put what was to be said at the end of the chain, and the mark right after it.
   */
  lemma {:induction false} CanSend(y: System, body: nat)
      returns (y1: System, y2: System, y3: System, y4: System, s: Signed)
    requires Inv(y)
    ensures Step(y, y1) && Step(y1, y2) && Step(y2, y3) && Step(y3, y4)
    ensures y4.taken == y.taken + [s] && s.Message? && s.body == body && s.epoch == y.epoch
    ensures y4.mark == Mark(|y.taken| + 1, Linked(s))
  {
    var r := ReportOf(y);
    y1 := y.(reports := y.reports + {r});
    assert Ask(y, y1);
    s := SignedFrom(y1, r, y.epoch, body);
    y2 := y1.(cursor := SetCounter(y1.cursor, y.epoch, s.counter), posts := y1.posts + {s});
    assert Send(y1, y2, r, y.epoch, body);
    y3 := y2.(taken := y2.taken + [s], posts := y2.posts - {s}, acks := y2.acks + {s});
    assert Take(y2, y3, s);
    y4 := y3.(mark := SetChain(y3.mark, s), acks := y3.acks - {s});
    assert Acknowledge(y3, y4, s);
  }

  /** And so for a membership action. */
  lemma {:induction false} CanAct(y: System, event: nat)
      returns (y1: System, y2: System, y3: System, y4: System, s: Signed)
    requires Inv(y)
    ensures Step(y, y1) && Step(y1, y2) && Step(y2, y3) && Step(y3, y4)
    ensures y4.taken == y.taken + [s] && s.Action? && s.event == event
    ensures y4.mark == Mark(|y.taken| + 1, Linked(s)) && y4.cursor == y.cursor
  {
    var r := ReportOf(y);
    y1 := y.(reports := y.reports + {r});
    assert Ask(y, y1);
    s := ActionFrom(y1, r, event);
    y2 := y1.(posts := y1.posts + {s}, reports := set q | q in y1.reports && q.next >= r.next);
    assert SendAction(y1, y2, r, event);
    y3 := y2.(taken := y2.taken + [s], posts := y2.posts - {s}, acks := y2.acks + {s});
    assert Take(y2, y3, s);
    y4 := y3.(mark := SetChain(y3.mark, s), acks := y3.acks - {s});
    assert Acknowledge(y3, y4, s);
  }

  /**
   What a process that stopped had sent can still be taken, its store lost or not; nobody hears of it, and the
   next report counts it.
   */
  lemma {:induction false} OrphanIsCounted(y: System, s: Signed, storeLost: bool)
      returns (y1: System, y2: System, y3: System)
    requires Inv(y) && s in y.posts && Takes(y, s)
    ensures Step(y, y1) && Step(y1, y2) && Step(y2, y3)
    ensures y2.taken == y.taken + [s] && y2.acks == {} && ReportOf(y2) in y3.reports
    ensures ReportOf(y2).next == |y.taken| + 1 && ReportOf(y2).head == Linked(s)
    ensures if storeLost then y3.mark == Mark(0, Genesis) && y3.cursor == Cursor(0, 0)
            else y3.mark == y.mark && y3.cursor == y.cursor
  {
    y1 := y.(reports := {}, posts := {}, acks := {}, orphans := y.orphans + y.posts);
    if storeLost {
      y1 := y1.(mark := Mark(0, Genesis), cursor := Cursor(0, 0));
      assert LoseStore(y, y1);
    } else {
      assert Restart(y, y1);
    }
    y2 := y1.(taken := y1.taken + [s], orphans := y1.orphans - {s});
    assert TakeOrphan(y1, y2, s);
    y3 := y2.(reports := y2.reports + {ReportOf(y2)});
    assert Ask(y2, y3);
  }
}
