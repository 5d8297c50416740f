/**
 Publishing to one account's feed: any number of calls, from any devices, each starting
 from whatever head it has, against an exchange that takes a post only at its own next
 serial and link, over a network that loses requests and replies and delivers them late.
 */
module FeedPublishing {
  import opened Wrappers
  import opened ChainAgreement
  import opened FeedPosts

  datatype Code = StaleSerial | BrokenChain | OtherCode

  datatype Answer = Taken(serial: nat) | Refused(code: Code)

  /** `HeadUnread` and `NoAnswer` cover a link that failed and an answer that does not decode. */
  datatype Failure = TooLong | Refusal(code: Code) | NoAnswer | HeadUnread | GaveUp

  /** Where one call has got to. */
  datatype Phase = Posting(attempt: nat, post: Post) | Rereading | Finished(outcome: Result<nat, Failure>)

  predicate Stale(c: Code) { c == StaleSerial || c == BrokenChain }

  /** A body signed against a head. */
  function SignAt(me: PubKey, device: PubKey, h: Headed, at: nat, body: Body): (p: Post)
    ensures p.terms.bodyHash == HashOf(body)
  {
    if h.found then Sign(me, device, h.newest + 1, h.headInput, at, body) else Sign(me, device, 1, Genesis, at, body)
  }

  /** `publish_at`, up to the request. */
  function Begin(me: PubKey, device: PubKey, attempt: nat, h: Headed, at: nat, body: Body): Phase {
    if body.Size() > MAX_BODY then Finished(Err(TooLong)) else Posting(attempt, SignAt(me, device, h, at, body))
  }

  /** What `publish_from` makes of the answer to a post. */
  function OnAnswer(p: Phase, a: Option<Answer>): Phase {
    if !p.Posting? then p
    else match a
      case None => Finished(Err(NoAnswer))
      case Some(Taken(serial)) => Finished(Ok(serial))
      case Some(Refused(c)) => if p.attempt == 0 && Stale(c) then Rereading else Finished(Err(Refusal(c)))
  }

  /** ... and of the head it asked for after a stale one. */
  function OnHead(me: PubKey, device: PubKey, p: Phase, h: Option<Headed>, at: nat, body: Body): Phase {
    if !p.Rereading? then p
    else if h.None? then Finished(Err(HeadUnread))
    else Begin(me, device, 1, h.value, at, body)
  }

  function PostOf(p: Phase): seq<Post> { if p.Posting? then [p.post] else [] }

  /**
   `publish_from`, with what the network gives it at each turn. It goes through the phases
   the runs below are made of, and never falls out of its loop.
   */
  method PublishFrom(
      me: PubKey, device: PubKey, head: Headed, body: Body,
      at0: nat, at1: nat, first: Option<Answer>, reread: Option<Headed>, second: Option<Answer>)
    returns (r: Result<nat, Failure>, sent: seq<Post>)
    ensures var p0 := Begin(me, device, 0, head, at0, body);
      var p1 := OnHead(me, device, OnAnswer(p0, first), reread, at1, body);
      OnAnswer(p1, second) == Finished(r) && sent == PostOf(p0) + PostOf(p1)
    ensures r != Err(GaveUp)
    ensures |sent| == 2 ==> first.Some? && first.value.Refused? && Stale(first.value.code)
    ensures r.Ok? ==> |sent| >= 1 && (if |sent| == 1 then first else second) == Some(Taken(r.value))
  {
    var h := head;
    sent := [];
    for attempt := 0 to 2
      invariant attempt == 0 ==> h == head && sent == []
      invariant attempt == 1 ==>
        && body.Size() <= MAX_BODY && first.Some? && first.value.Refused? && Stale(first.value.code)
        && reread == Some(h) && sent == [SignAt(me, device, head, at0, body)]
      invariant attempt < 2
    {
      if body.Size() > MAX_BODY { return Err(TooLong), sent; }
      sent := sent + [SignAt(me, device, h, if attempt == 0 then at0 else at1, body)];
      var answer := if attempt == 0 then first else second;
      if answer.None? { return Err(NoAnswer), sent; }
      if answer.value.Taken? { return Ok(answer.value.serial), sent; }
      if attempt > 0 || !Stale(answer.value.code) { return Err(Refusal(answer.value.code)), sent; }
      if reread.None? { return Err(HeadUnread), sent; }
      h := reread.value;
    }
    return Err(GaveUp), sent;
  }

  // ---- any number of calls, interleaved -----------------------------------

  datatype Call = Call(device: PubKey, body: Body, phase: Phase)

  /** A request, and whose it is. */
  datatype Sent = Sent(call: nat, attempt: nat, post: Post)

  datatype Reply = Reply(call: nat, attempt: nat, answer: Answer)

  datatype Net = Net(me: PubKey, feed: seq<Sent>, calls: map<nat, Call>, requests: set<Sent>, replies: set<Reply>)

  function Posts(feed: seq<Sent>): (ps: seq<Post>)
    ensures |ps| == |feed| && forall i :: 0 <= i < |ps| ==> ps[i] == feed[i].post
  {
    seq(|feed|, i requires 0 <= i < |feed| => feed[i].post)
  }

  /** The exchange's own head. */
  function CurrentHead(feed: seq<Sent>): Headed {
    if feed == [] then Headed(false, 0, Genesis) else Headed(true, |feed|, HeadAt(Posts(feed), |feed|))
  }

  /** `append`: at the next serial and link, or refused. */
  function Append(feed: seq<Sent>, p: Post): Answer {
    if p.terms.serial != |feed| + 1 then Refused(StaleSerial)
    else if p.terms.prev != HeadAt(Posts(feed), |feed|) then Refused(BrokenChain)
    else Taken(p.terms.serial)
  }

  /** The requests a phase has just made. */
  function Asked(c: nat, p: Phase): set<Sent> { if p.Posting? then {Sent(c, p.attempt, p.post)} else {} }

  predicate Start(n: Net, n': Net, c: nat, device: PubKey, body: Body, h: Headed, at: nat) {
    && c !in n.calls
    && var p := Begin(n.me, device, 0, h, at, body);
       n' == n.(calls := n.calls[c := Call(device, body, p)], requests := n.requests + Asked(c, p))
  }

  /** The exchange handles a request, which it may also refuse for a reason of its own. */
  predicate Handle(n: Net, n': Net, s: Sent, limited: bool) {
    && s in n.requests
    && var a := if limited then Refused(OtherCode) else Append(n.feed, s.post);
       n' == n.(feed := if a.Taken? then n.feed + [s] else n.feed,
                requests := n.requests - {s}, replies := n.replies + {Reply(s.call, s.attempt, a)})
  }

  predicate Lose(n: Net, n': Net, s: Sent, r: Reply) {
    n' == n.(requests := n.requests - {s}) || n' == n.(replies := n.replies - {r})
  }

  /** A call hears the answer to what it last posted. */
  predicate Hear(n: Net, n': Net, r: Reply) {
    && r in n.replies && r.call in n.calls
    && var c := n.calls[r.call];
       && c.phase.Posting? && c.phase.attempt == r.attempt
       && n' == n.(replies := n.replies - {r},
                   calls := n.calls[r.call := c.(phase := OnAnswer(c.phase, Some(r.answer)))])
  }

  /** A call stops waiting; its request may yet arrive. */
  predicate GiveUpOn(n: Net, n': Net, c: nat) {
    && c in n.calls && n.calls[c].phase.Posting?
    && n' == n.(calls := n.calls[c := n.calls[c].(phase := OnAnswer(n.calls[c].phase, None))])
  }

  /** A call that was refused as stale reads a head, which may be stale again, or fails to. */
  predicate Reread(n: Net, n': Net, c: nat, h: Option<Headed>, at: nat) {
    && c in n.calls && n.calls[c].phase.Rereading?
    && var k := n.calls[c];
       var p := OnHead(n.me, k.device, Rereading, h, at, k.body);
       n' == n.(calls := n.calls[c := k.(phase := p)], requests := n.requests + Asked(c, p))
  }

  /** A post's body goes, by withdrawal or expiry. */
  predicate Withdraw(n: Net, n': Net, i: nat) {
    && i < |n.feed|
    && n' == n.(feed := n.feed[i := n.feed[i].(post := n.feed[i].post.Tombstone())])
  }

  ghost predicate Step(n: Net, n': Net) {
    || (exists c, device, body, h, at :: Start(n, n', c, device, body, h, at))
    || (exists s, limited :: Handle(n, n', s, limited))
    || (exists s, r :: Lose(n, n', s, r))
    || (exists r :: Hear(n, n', r))
    || (exists c :: GiveUpOn(n, n', c))
    || (exists c, h, at :: Reread(n, n', c, h, at))
    || (exists i :: Withdraw(n, n', i))
  }

  ghost predicate Init(n: Net) { n.feed == [] && n.calls == map[] && n.requests == {} && n.replies == {} }

  // ---- what every step keeps ----------------------------------------------

  /** Nothing of this call is in the feed or on its way there. */
  ghost predicate Nowhere(n: Net, c: nat) {
    && (forall i :: 0 <= i < |n.feed| ==> n.feed[i].call != c)
    && (forall s :: s in n.requests ==> s.call != c)
  }

  /** A request made by a call that is still at that attempt, or has ended. */
  predicate Owned(n: Net, s: Sent) {
    && s.call in n.calls && s.post.terms.bodyHash == HashOf(n.calls[s.call].body)
    && (n.calls[s.call].phase.Posting? ==> s.attempt == n.calls[s.call].phase.attempt)
    && !n.calls[s.call].phase.Rereading?
  }

  /** What is in the feed: dense and linked, and no two posts by one call. */
  ghost predicate FeedInv(n: Net) {
    && Dense(Posts(n.feed))
    && (forall i, j :: 0 <= i < j < |n.feed| ==> n.feed[i].call != n.feed[j].call)
    && (forall i :: 0 <= i < |n.feed| ==> Owned(n, n.feed[i]))
  }

  /** What is on its way: at most one request a call, and none by a call already in the feed. */
  ghost predicate RequestInv(n: Net) {
    && (forall s :: s in n.requests ==> Owned(n, s))
    && (forall s, t :: s in n.requests && t in n.requests && s.call == t.call ==> s == t)
    && (forall s, i :: s in n.requests && 0 <= i < |n.feed| ==> n.feed[i].call != s.call)
  }

  predicate InFeedAt(n: Net, c: nat, serial: nat) { 1 <= serial <= |n.feed| && n.feed[serial - 1].call == c }

  /** An answer is true: what was taken is there, and what was refused is not, nor on its way. */
  ghost predicate TrueReply(n: Net, r: Reply) {
    && r.call in n.calls
    && (r.answer.Taken? ==> InFeedAt(n, r.call, r.answer.serial))
    && (n.calls[r.call].phase.Posting? ==> r.attempt <= n.calls[r.call].phase.attempt)
    && (n.calls[r.call].phase.Posting? && r.attempt == n.calls[r.call].phase.attempt && r.answer.Refused? ==>
          Nowhere(n, r.call))
    && (n.calls[r.call].phase.Rereading? ==> r.attempt == 0)
  }

  /** What a call was told is so; only where it heard nothing is the outcome open. */
  ghost predicate TrueCall(n: Net, c: nat)
    requires c in n.calls
  {
    match n.calls[c].phase
    case Posting(k, _) => k <= 1
    case Rereading => Nowhere(n, c)
    case Finished(Ok(serial)) => InFeedAt(n, c, serial)
    case Finished(Err(e)) => e == NoAnswer || Nowhere(n, c)
  }

  ghost predicate Inv(n: Net) {
    && FeedInv(n) && RequestInv(n)
    && (forall r :: r in n.replies ==> TrueReply(n, r))
    && (forall c :: c in n.calls ==> TrueCall(n, c))
  }

  lemma {:induction false} StartKeepsInv(n: Net, n': Net, c: nat, device: PubKey, body: Body, h: Headed, at: nat)
    requires Inv(n) && Start(n, n', c, device, body, h, at)
    ensures Inv(n')
  {
    assert Nowhere(n, c) by {
      forall i | 0 <= i < |n.feed| ensures n.feed[i].call != c { assert Owned(n, n.feed[i]); }
      forall s | s in n.requests ensures s.call != c { assert Owned(n, s); }
    }
    forall r | r in n'.replies ensures TrueReply(n', r) { assert TrueReply(n, r); }
    forall k | k in n'.calls ensures TrueCall(n', k) { if k != c { assert TrueCall(n, k); } }
  }

  lemma {:induction false} TakenKeepsFeed(n: Net, n': Net, s: Sent)
    requires Inv(n) && Handle(n, n', s, false) && Append(n.feed, s.post).Taken?
    ensures FeedInv(n')
  {
    DensePlusOne(Posts(n.feed), s.post);
    assert Posts(n'.feed) == Posts(n.feed) + [s.post];
    assert Owned(n, s);
  }

  lemma {:induction false} HandleKeepsInv(n: Net, n': Net, s: Sent, limited: bool)
    requires Inv(n) && Handle(n, n', s, limited)
    ensures Inv(n')
  {
    var a := if limited then Refused(OtherCode) else Append(n.feed, s.post);
    assert Owned(n, s);
    if a.Taken? { TakenKeepsFeed(n, n', s); }
    forall r | r in n'.replies ensures TrueReply(n', r) {
      if r in n.replies { assert TrueReply(n, r); }
    }
    forall k | k in n'.calls ensures TrueCall(n', k) { assert TrueCall(n, k); }
  }

  lemma {:induction false} HearKeepsInv(n: Net, n': Net, r: Reply)
    requires Inv(n) && Hear(n, n', r)
    ensures Inv(n')
  {
    assert TrueReply(n, r) && TrueCall(n, r.call);
    forall s | s in n'.requests ensures Owned(n', s) { assert Owned(n, s); }
    forall i | 0 <= i < |n'.feed| ensures Owned(n', n'.feed[i]) { assert Owned(n, n.feed[i]); }
    forall q | q in n'.replies ensures TrueReply(n', q) { assert TrueReply(n, q); }
    forall k | k in n'.calls ensures TrueCall(n', k) { assert TrueCall(n, k); }
  }

  lemma {:induction false} RereadKeepsInv(n: Net, n': Net, c: nat, h: Option<Headed>, at: nat)
    requires Inv(n) && Reread(n, n', c, h, at)
    ensures Inv(n')
  {
    assert TrueCall(n, c);
    forall s | s in n'.requests ensures Owned(n', s) { if s in n.requests { assert Owned(n, s); } }
    forall i | 0 <= i < |n'.feed| ensures Owned(n', n'.feed[i]) { assert Owned(n, n.feed[i]); }
    forall q | q in n'.replies ensures TrueReply(n', q) { assert TrueReply(n, q); }
    forall k | k in n'.calls ensures TrueCall(n', k) { if k != c { assert TrueCall(n, k); } }
  }

  lemma {:induction false} GiveUpKeepsInv(n: Net, n': Net, c: nat)
    requires Inv(n) && GiveUpOn(n, n', c)
    ensures Inv(n')
  {
    forall s | s in n'.requests ensures Owned(n', s) { assert Owned(n, s); }
    forall i | 0 <= i < |n'.feed| ensures Owned(n', n'.feed[i]) { assert Owned(n, n.feed[i]); }
    forall q | q in n'.replies ensures TrueReply(n', q) { assert TrueReply(n, q); }
    forall k | k in n'.calls ensures TrueCall(n', k) { assert TrueCall(n, k); }
  }

  lemma {:induction false} LoseKeepsInv(n: Net, n': Net, s: Sent, r: Reply)
    requires Inv(n) && Lose(n, n', s, r)
    ensures Inv(n')
  {
    forall q | q in n'.replies ensures TrueReply(n', q) { assert TrueReply(n, q); }
    forall k | k in n'.calls ensures TrueCall(n', k) { assert TrueCall(n, k); }
  }

  lemma {:induction false} WithdrawKeepsInv(n: Net, n': Net, i: nat)
    requires Inv(n) && Withdraw(n, n', i)
    ensures Inv(n')
  {
    var ps, ps' := Posts(n.feed), Posts(n'.feed);
    forall j | 0 <= j < |ps'| ensures PlacedAt(ps', j) { assert PlacedAt(ps, j); }
    forall j | 0 <= j < |n'.feed| ensures Owned(n', n'.feed[j]) { assert Owned(n, n.feed[j]); }
    forall q | q in n'.replies ensures TrueReply(n', q) { assert TrueReply(n, q); }
    forall k | k in n'.calls ensures TrueCall(n', k) { assert TrueCall(n, k); }
  }

  lemma {:induction false} StepKeepsInv(n: Net, n': Net)
    requires Inv(n) && Step(n, n')
    ensures Inv(n')
  {
    if c, device, body, h, at :| Start(n, n', c, device, body, h, at) { StartKeepsInv(n, n', c, device, body, h, at); }
    else if s, limited :| Handle(n, n', s, limited) { HandleKeepsInv(n, n', s, limited); }
    else if s, r :| Lose(n, n', s, r) { LoseKeepsInv(n, n', s, r); }
    else if r :| Hear(n, n', r) { HearKeepsInv(n, n', r); }
    else if c :| GiveUpOn(n, n', c) { GiveUpKeepsInv(n, n', c); }
    else if c, h, at :| Reread(n, n', c, h, at) { RereadKeepsInv(n, n', c, h, at); }
    else { var i :| Withdraw(n, n', i); WithdrawKeepsInv(n, n', i); }
  }

  ghost predicate IsRun(run: seq<Net>) {
    run != [] && Init(run[0]) && forall i :: 0 <= i < |run| - 1 ==> Step(run[i], run[i + 1])
  }

  lemma {:induction false} RunsKeepInv(run: seq<Net>, k: nat)
    requires IsRun(run) && k < |run|
    ensures Inv(run[k])
    decreases k
  {
    if k > 0 {
      RunsKeepInv(run, k - 1);
      assert Step(run[k - 1], run[k - 1 + 1]);
      StepKeepsInv(run[k - 1], run[k]);
    }
  }

  /**
   However calls race and whatever is lost: the feed is dense from serial one and linked,
   no call's body is in it twice, a call told of a serial has its own body there, and a
   call refused has nothing there and nothing still on its way.
   */
  lemma {:induction false} PublishedAtMostOnce(run: seq<Net>, k: nat, c: nat)
    requires IsRun(run) && k < |run| && c in run[k].calls
    ensures var n := run[k];
      && Dense(Posts(n.feed))
      && (forall i, j :: 0 <= i < |n.feed| && 0 <= j < |n.feed| && n.feed[i].call == c == n.feed[j].call ==> i == j)
      && (forall i :: 0 <= i < |n.feed| && n.feed[i].call == c ==>
            n.feed[i].post.terms.bodyHash == HashOf(n.calls[c].body))
      && (n.calls[c].phase.Finished? && n.calls[c].phase.outcome.Ok? ==> InFeedAt(n, c, n.calls[c].phase.outcome.value))
      && (n.calls[c].phase.Finished? && n.calls[c].phase.outcome.Err? && n.calls[c].phase.outcome.error != NoAnswer ==>
            Nowhere(n, c))
  {
    RunsKeepInv(run, k);
    var n := run[k];
    assert TrueCall(n, c);
    forall i | 0 <= i < |n.feed| && n.feed[i].call == c
      ensures n.feed[i].post.terms.bodyHash == HashOf(n.calls[c].body)
    {
      assert Owned(n, n.feed[i]);
    }
  }

  /** A post signed against a head is taken exactly while that head is the feed's. */
  lemma {:induction false} TakenExactlyAtHead(
      me: PubKey, device: PubKey, feed: seq<Sent>, h: Headed, at: nat, body: Body)
    requires h.found || h == Headed(false, 0, Genesis)
    ensures Append(feed, SignAt(me, device, h, at, body)).Taken? <==>
      h == CurrentHead(feed) || (h.found && h.newest == 0 && h.headInput == Genesis && feed == [])
  {
  }

  // ---- one call, against the exchange ---------------------------------------

  /** A head as the exchange gives it: nothing found is said in one way. */
  predicate WellFormed(h: Headed) { if h.found then h.newest > 0 else h == Headed(false, 0, Genesis) }

  /** A post says who made it, when, after what and with which words, and that it stays; and its device signed that. */
  predicate SaysSo(p: Post, me: PubKey, device: PubKey, h: Headed, at: nat, body: Body) {
    && p.terms == Terms(me, device, h.newest + 1, h.headInput, at, 0, 0, HashOf(body))
    && p.body == body && p.signature == Signature(device, p.terms)
  }

  /** A post signed at the head of a feed goes in at its end, and at any other head it is refused as stale. */
  lemma {:induction false} AnsweredByHead(
      me: PubKey, device: PubKey, feed: seq<Sent>, h: Headed, at: nat, body: Body)
    requires WellFormed(h)
    ensures var answer := Append(feed, SignAt(me, device, h, at, body));
      if h == CurrentHead(feed) then answer == Taken(|feed| + 1)
      else answer == Refused(if h.newest != |feed| then StaleSerial else BrokenChain)
  {
  }

  /**
   What the second attempt is for. From a head that is the feed's a post goes in at once; from any other, the
   head read again and the post signed again, it goes in at the end of the feed as that was when it was read;
   and one too long is never sent.
   */
  lemma {:induction false} StaleHeadRecovers(
      me: PubKey, device: PubKey, head: Headed, body: Body, at0: nat, at1: nat, feed0: seq<Sent>, feed1: seq<Sent>)
    requires WellFormed(head)
    ensures var p0 := Begin(me, device, 0, head, at0, body);
      if body.Size() > 32768 then p0 == Finished(Err(TooLong))
      else
        && p0.Posting? && SaysSo(p0.post, me, device, head, at0, body)
        && var p1 := OnAnswer(p0, Some(Append(feed0, p0.post)));
        if head == CurrentHead(feed0) then p1 == Finished(Ok(|feed0| + 1))
        else
          && p1 == Rereading
          && var p2 := OnHead(me, device, p1, Some(CurrentHead(feed1)), at1, body);
          && p2.Posting? && p2.attempt == 1 && SaysSo(p2.post, me, device, CurrentHead(feed1), at1, body)
          && OnAnswer(p2, Some(Append(feed1, p2.post))) == Finished(Ok(|feed1| + 1))
  {
    AnsweredByHead(me, device, feed0, head, at0, body);
    AnsweredByHead(me, device, feed1, CurrentHead(feed1), at1, body);
  }

  /** A second refusal is final, whatever it is for, and so is one that is not about the head. */
  lemma {:induction false} RefusalIsFinalExactly(p: Phase, c: Code)
    requires p.Posting?
    ensures OnAnswer(p, Some(Refused(c))) == Finished(Err(Refusal(c))) <==>
      p.attempt > 0 || (c != StaleSerial && c != BrokenChain)
  {
  }

  /**
   Nothing but loss and racing stops a call: from any state, three steps from the head it reads put its post at
   the end of the feed and tell it so.
   */
  lemma {:induction false} CanLand(n: Net, c: nat, device: PubKey, body: Body, at: nat)
      returns (n1: Net, n2: Net, n3: Net)
    requires Inv(n) && c !in n.calls && body.Size() <= MAX_BODY
    ensures Step(n, n1) && Step(n1, n2) && Step(n2, n3)
    ensures |n3.feed| == |n.feed| + 1 && n3.feed[..|n.feed|] == n.feed && n3.feed[|n.feed|].post.body == body
    ensures c in n3.calls && n3.calls[c].phase == Finished(Ok(|n.feed| + 1))
  {
    var h := CurrentHead(n.feed);
    var p := Begin(n.me, device, 0, h, at, body);
    AnsweredByHead(n.me, device, n.feed, h, at, body);
    var s := Sent(c, 0, p.post);
    var r := Reply(c, 0, Taken(|n.feed| + 1));
    n1 := n.(calls := n.calls[c := Call(device, body, p)], requests := n.requests + {s});
    assert Start(n, n1, c, device, body, h, at);
    n2 := n1.(feed := n.feed + [s], requests := n1.requests - {s}, replies := n1.replies + {r});
    assert Handle(n1, n2, s, false);
    n3 := n2.(replies := n2.replies - {r}, calls := n2.calls[c := n2.calls[c].(phase := Finished(Ok(|n.feed| + 1)))]);
    assert Hear(n2, n3, r);
  }

  /** And so it does for a call that was refused as stale. */
  lemma {:induction false} CanLandAfterStale(n: Net, c: nat, at: nat) returns (n1: Net, n2: Net, n3: Net)
    requires Inv(n) && c in n.calls && n.calls[c].phase == Rereading && n.calls[c].body.Size() <= MAX_BODY
    ensures Step(n, n1) && Step(n1, n2) && Step(n2, n3)
    ensures |n3.feed| == |n.feed| + 1 && n3.feed[|n.feed|].post.body == n.calls[c].body
    ensures c in n3.calls && n3.calls[c].phase == Finished(Ok(|n.feed| + 1))
  {
    var k, h := n.calls[c], CurrentHead(n.feed);
    AnsweredByHead(n.me, k.device, n.feed, h, at, k.body);
    var s := Sent(c, 1, SignAt(n.me, k.device, h, at, k.body));
    var r := Reply(c, 1, Taken(|n.feed| + 1));
    n1 := n.(calls := n.calls[c := k.(phase := Posting(1, s.post))], requests := n.requests + {s});
    assert Reread(n, n1, c, Some(h), at);
    n2 := n1.(feed := n.feed + [s], requests := n1.requests - {s}, replies := n1.replies + {r});
    assert Handle(n1, n2, s, false);
    n3 := n2.(replies := n2.replies - {r}, calls := n2.calls[c := n2.calls[c].(phase := Finished(Ok(|n.feed| + 1)))]);
    assert Hear(n2, n3, r);
  }
}
