/**
 SIP-53, posting again: what a client does with its own posts when an origin loses
 a fork. They are set aside, everything above the fork is dropped, and each is then
 posted again or let go.
 */
module ForkPosts {
  import opened Wrappers
  import opened Sets
  import opened ChainAgreement
  import opened LogEntries
  import opened Receipts

  const STRANDED_LIMIT := 256

  datatype Part = Text(n: nat) | Attachment(blob: nat) | Reply(target: nat) | Said(posted: nat) | Via(exchange: PubKey)

  /** A decoded body: a post with its parts, or something else. */
  datatype Content = Post(parts: seq<Part>) | NotAPost(n: nat)

  datatype Message = Message(account: PubKey, posted: nat, kind: Kind, plain: Option<Content>)

  datatype Stranded = Stranded(posted: nat, fork: nat, content: Content)

  /** Where a post set aside is kept: under the exchange the store spoke to, at the number it had there. */
  datatype Slot = Slot(exchange: PubKey, seq_: nat)

  type Aside = map<Slot, Stranded>

  /**
   The rows of one channel the fork touches: those under the exchange `here`, and every exchange's
   posts set aside. A signed copy that does not decode is `None`.
   */
  datatype Rows = Rows(
    here: PubKey,
    messages: map<nat, Message>,
    entries: map<nat, Option<Entry>>,
    timed: map<nat, nat>,
    stranded: Aside,
    since: nat)

  /** What is durable at some moment, with what has been posted again and let go by then. */
  datatype Moment = Moment(rows: Rows, again: seq<(Slot, seq<Part>)>, forgotten: set<Slot>)

  /** Whom the client held the log under before and after the move. */
  datatype Move = Move(
    me: PubKey, former: PubKey, earlier: seq<PubKey>, current: PubKey, channel: nat, instance: nat)
  {
    predicate Stands(keys: seq<PubKey>, e: Entry) {
      StandingUnder(keys, channel, instance, e, None) in {Vouched, Unlinked}
    }

    /** Of the losing regime: receipted by the former origin and not by the current one, or not receipted. */
    predicate Loses(e: Entry) {
      || (Stands([former] + earlier, e) && !(current != former && Stands([current], e)))
      || e.stamp.None?
    }

    /** A message above the fork that is not known to be the winning side's. */
    predicate Losing(r: Rows, at: nat) {
      at !in r.entries || (r.entries[at].Some? && Loses(r.entries[at].value))
    }

    /** One of this account's readable posts that the move takes away. */
    predicate Owed(r: Rows, fork: nat, at: nat) {
      && at in r.messages && at > fork && Losing(r, at)
      && r.messages[at].account == me && r.messages[at].kind.Member?
      && r.messages[at].plain.Some? && r.messages[at].plain.value.Post?
    }
  }

  // ---- the table of posts set aside ---------------------------------------------

  function Higher(keys: set<Slot>, at: nat): set<Slot> { set k | k in keys && k.seq_ > at }

  /** A row is within the bound while fewer than 256 of the channel's rows have a higher number. */
  predicate WithinBound(keys: set<Slot>, at: nat) { |Higher(keys, at)| < STRANDED_LIMIT }

  ghost predicate Room(keys: set<Slot>) { forall k :: k in keys ==> WithinBound(keys, k.seq_) }

  function Inserted(s: Aside, k: Slot, row: Stranded): Aside { if k in s then s else s[k := row] }

  /** The rows the bound leaves. */
  function Bounded(s: Aside): Aside { map k | k in s && WithinBound(s.Keys, k.seq_) :: s[k] }

  /** `put_stranded`: a row already there stays, and then the rows beyond the bound go. */
  function PutStranded(s: Aside, k: Slot, row: Stranded): Aside { Bounded(Inserted(s, k, row)) }

  lemma {:induction false} RoomForFewer(fewer: set<Slot>, all: set<Slot>)
    requires fewer <= all && Room(all)
    ensures Room(fewer)
  {
    forall k | k in fewer ensures WithinBound(fewer, k.seq_) {
      SubsetSize(Higher(fewer, k.seq_), Higher(all, k.seq_));
      assert WithinBound(all, k.seq_);
    }
  }

  lemma {:induction false} BoundedHasRoom(s: Aside)
    ensures Room(Bounded(s).Keys) && Bounded(s).Keys <= s.Keys
    ensures Room(s.Keys) ==> Bounded(s) == s
  {
    var kept := Bounded(s).Keys;
    forall k | k in kept ensures WithinBound(kept, k.seq_) {
      SubsetSize(Higher(kept, k.seq_), Higher(s.Keys, k.seq_));
    }
  }

  /** `l` lists `keys`, the highest numbers first. */
  ghost predicate Listing(keys: set<Slot>, l: seq<Slot>) {
    && (forall k :: k in keys <==> k in l)
    && (forall i, j :: 0 <= i < j < |l| ==> l[i] != l[j] && l[i].seq_ >= l[j].seq_)
  }

  lemma {:induction false} PrefixSize(keys: set<Slot>, l: seq<Slot>, n: nat)
    requires Listing(keys, l) && n <= |l|
    ensures |set i | 0 <= i < n :: l[i]| == n
    decreases n
  {
    if n > 0 {
      PrefixSize(keys, l, n - 1);
      assert (set i | 0 <= i < n :: l[i]) == (set i | 0 <= i < n - 1 :: l[i]) + {l[n - 1]};
    }
  }

  /** The rows with a higher number come first, however ties are broken. */
  lemma {:induction false} HigherIsPrefix(keys: set<Slot>, l: seq<Slot>, at: nat) returns (n: nat)
    requires Listing(keys, l)
    ensures n <= |l| && n == |Higher(keys, at)|
    ensures (forall i :: 0 <= i < n ==> l[i].seq_ > at) && (forall i :: n <= i < |l| ==> l[i].seq_ <= at)
  {
    n := 0;
    while n < |l| && l[n].seq_ > at
      invariant n <= |l| && forall i :: 0 <= i < n ==> l[i].seq_ > at
    {
      n := n + 1;
    }
    assert forall i :: n <= i < |l| ==> l[n].seq_ >= l[i].seq_;
    PrefixSize(keys, l, n);
    assert Higher(keys, at) == set i | 0 <= i < n :: l[i];
  }

  /** What the bound leaves is what the query asks for: the rows whose number is among the 256 highest listed. */
  lemma {:induction false} BoundIsTheQuery(s: Aside, l: seq<Slot>, k: Slot)
    requires Listing(s.Keys, l) && k in s
    ensures k in Bounded(s) <==> exists i :: 0 <= i < |l| && i < 256 && l[i].seq_ == k.seq_
  {
    var n := HigherIsPrefix(s.Keys, l, k.seq_);
    var j :| 0 <= j < |l| && l[j] == k;
    assert n < |l| && l[n].seq_ == k.seq_;
  }

  function Truncated(r: Rows, fork: nat): Rows {
    Rows(r.here,
         map at | at in r.messages && at <= fork :: r.messages[at],
         map at | at in r.entries && at <= fork :: r.entries[at],
         map at | at in r.timed && at <= fork :: r.timed[at],
         r.stranded,
         if r.since < fork then r.since else fork)
  }

  /** Up to the fork a message is kept with its signed copy and its timer; above it there is none of the three. */
  lemma {:induction false} TruncatedMeans(r: Rows, fork: nat, at: nat)
    ensures var left := Truncated(r, fork);
      && (at > fork ==> at !in left.messages && at !in left.entries && at !in left.timed)
      && (at <= fork ==>
            && (at in left.messages <==> at in r.messages) && (at in r.messages ==> left.messages[at] == r.messages[at])
            && (at in left.entries <==> at in r.entries) && (at in r.entries ==> left.entries[at] == r.entries[at])
            && (at in left.timed <==> at in r.timed) && (at in r.timed ==> left.timed[at] == r.timed[at]))
      && left.since <= fork && left.since <= r.since && left.since in {fork, r.since} && left.stranded == r.stranded
  {
  }

  /** The sequence numbers of every post owed. */
  function OwedSet(m: Move, r: Rows, fork: nat): (owed: set<nat>)
    ensures forall at :: at in owed <==> m.Owed(r, fork, at)
  {
    set at | at in r.messages && m.Owed(r, fork, at)
  }

  /** Some key of `keys` put its name to where the entry stands. */
  ghost predicate ReceiptedByAny(m: Move, keys: seq<PubKey>, e: Entry) {
    exists i :: 0 <= i < |keys| && ReceiptedBy(keys[i], m.channel, m.instance, e)
  }

  lemma {:induction false} StandsMeans(m: Move, keys: seq<PubKey>, e: Entry)
    ensures m.Stands(keys, e) <==> ReceiptedByAny(m, keys, e)
  {
    if keys != [] { StandingUnderMeans(keys, m.channel, m.instance, e, None); }
  }

  /** A post of the account's own that can be read, above the fork. */
  predicate OwnPost(m: Move, r: Rows, fork: nat, at: nat) {
    && at > fork && at in r.messages && r.messages[at].account == m.me && r.messages[at].kind.Member?
    && r.messages[at].plain.Some? && r.messages[at].plain.value.Post?
  }

  /**
   A message was on the losing side: there is no signed copy of it, or one without a receipt, or one that the
   former origin or one before it receipted and the current one did not.
   */
  ghost predicate OnLosingSide(m: Move, r: Rows, at: nat) {
    at in r.entries ==>
      r.entries[at].Some? && var e := r.entries[at].value;
      || e.stamp.None?
      || (ReceiptedByAny(m, [m.former] + m.earlier, e)
          && (m.current == m.former || !ReceiptedBy(m.current, m.channel, m.instance, e)))
  }

  /** What is owed is the account's own posts above the fork that were on the losing side. */
  lemma {:induction false} OwedMeans(m: Move, r: Rows, fork: nat, at: nat)
    ensures at in OwedSet(m, r, fork) <==> OwnPost(m, r, fork, at) && OnLosingSide(m, r, at)
  {
    if at in r.entries && r.entries[at].Some? {
      var e := r.entries[at].value;
      StandsMeans(m, [m.former] + m.earlier, e);
      StandsMeans(m, [m.current], e);
      assert ReceiptedByAny(m, [m.current], e) <==> ReceiptedBy(m.current, m.channel, m.instance, e) by {
        assert [m.current][0] == m.current;
      }
    }
  }

  /** Of own posts, those the former origin or one before it receipted are owed, and anybody else's are not. */
  lemma {:induction false} OwedByReceipt(m: Move, r: Rows, fork: nat, at: nat, e: Entry, origin: PubKey)
    requires OwnPost(m, r, fork, at) && at in r.entries && r.entries[at] == Some(e)
    requires ReceiptedBy(origin, m.channel, m.instance, e) && m.former != m.current && m.current !in m.earlier
    ensures origin in [m.former] + m.earlier ==> at in OwedSet(m, r, fork)
    ensures origin !in [m.former] + m.earlier ==> at !in OwedSet(m, r, fork)
  {
    OwedMeans(m, r, fork, at);
    var keys := [m.former] + m.earlier;
    if i :| 0 <= i < |keys| && keys[i] == origin { assert ReceiptedBy(keys[i], m.channel, m.instance, e); }
  }

  /** `owed` names posts of `ms` that can be read. */
  predicate Readable(ms: map<nat, Message>, owed: set<nat>) {
    forall at :: at in owed ==> at in ms && ms[at].plain.Some?
  }

  /** A message's words, and when they were said, are set aside. */
  predicate SetAside(s: Aside, msg: Message, k: Slot) {
    k in s && msg.plain.Some? && s[k].posted == msg.posted && s[k].content == msg.plain.value
  }

  /** The slots of `owed` under the exchange of `r`. */
  function Slots(r: Rows, owed: set<nat>): set<Slot> { set at | at in owed :: Slot(r.here, at) }

  /** There is room for everything, and nothing set aside before sits at one of the same numbers with other words. */
  ghost predicate Fits(owed: set<nat>, r: Rows)
    requires Readable(r.messages, owed)
  {
    && Room(r.stranded.Keys + Slots(r, owed))
    && forall at :: at in owed && Slot(r.here, at) in r.stranded ==>
         SetAside(r.stranded, r.messages[at], Slot(r.here, at))
  }

  /** Nothing owed by `r` is gone in `now`: it is still in the log or set aside, and what was set aside still is. */
  ghost predicate Kept(owed: set<nat>, r: Rows, now: Rows)
    requires Readable(r.messages, owed)
  {
    && now.here == r.here
    && (forall at :: at in owed ==>
          || (at in now.messages && now.messages[at] == r.messages[at])
          || SetAside(now.stranded, r.messages[at], Slot(r.here, at)))
    && (forall k :: k in r.stranded ==> k in now.stranded && now.stranded[k] == r.stranded[k])
  }

  /** `s` is what `r` had set aside, untouched, and `done` besides. */
  ghost predicate AllAside(r: Rows, done: set<nat>, s: Aside)
    requires Readable(r.messages, done)
  {
    && s.Keys == r.stranded.Keys + Slots(r, done)
    && (forall k :: k in r.stranded ==> s[k] == r.stranded[k])
    && (forall at :: at in done ==> SetAside(s, r.messages[at], Slot(r.here, at)))
  }

  /** Part of the way: `done` of what `r` owes has been put aside, giving `s`. */
  ghost predicate PartDone(owed: set<nat>, r: Rows, done: set<nat>, s: Aside)
    requires Readable(r.messages, owed)
  {
    && done <= owed && s.Keys <= r.stranded.Keys + Slots(r, done) && Room(s.Keys)
    && (Fits(owed, r) ==> AllAside(r, done, s))
  }

  function RowFor(msg: Message, fork: nat): Stranded
    requires msg.plain.Some?
  {
    Stranded(msg.posted, fork, msg.plain.value)
  }

  /** With room, a row put aside is added and nothing goes. */
  lemma {:induction false} PutStrandedWithRoom(s: Aside, k: Slot, row: Stranded, all: set<Slot>)
    requires s.Keys <= all && k in all && Room(all)
    ensures PutStranded(s, k, row) == Inserted(s, k, row)
  {
    RoomForFewer(Inserted(s, k, row).Keys, all);
    BoundedHasRoom(Inserted(s, k, row));
  }

  lemma {:induction false} NoneAside(owed: set<nat>, r: Rows)
    requires Readable(r.messages, owed) && Room(r.stranded.Keys)
    ensures PartDone(owed, r, {}, r.stranded)
  {
    assert Slots(r, {}) == {};
  }

  lemma {:induction false} AsidePlusOne(r: Rows, done: set<nat>, s: Aside, at: nat, row: Stranded)
    requires Readable(r.messages, done + {at}) && AllAside(r, done, s)
    requires row.posted == r.messages[at].posted && row.content == r.messages[at].plain.value
    requires Slot(r.here, at) in r.stranded ==> SetAside(r.stranded, r.messages[at], Slot(r.here, at))
    ensures AllAside(r, done + {at}, Inserted(s, Slot(r.here, at), row))
  {
    var k := Slot(r.here, at);
    var s' := Inserted(s, k, row);
    assert Slots(r, done + {at}) == Slots(r, done) + {k};
    assert SetAside(s', r.messages[at], k);
  }

  lemma {:induction false} OneMoreFits(owed: set<nat>, r: Rows, fork: nat, done: set<nat>, s: Aside, at: nat)
    requires Readable(r.messages, owed) && done <= owed && AllAside(r, done, s) && at in owed && Fits(owed, r)
    ensures var k, row := Slot(r.here, at), RowFor(r.messages[at], fork);
      PutStranded(s, k, row) == Inserted(s, k, row) && AllAside(r, done + {at}, PutStranded(s, k, row))
  {
    var row := RowFor(r.messages[at], fork);
    PutStrandedWithRoom(s, Slot(r.here, at), row, r.stranded.Keys + Slots(r, owed));
    AsidePlusOne(r, done, s, at, row);
  }

  lemma {:induction false} OneMoreAside(owed: set<nat>, r: Rows, fork: nat, done: set<nat>, s: Aside, at: nat)
    requires Readable(r.messages, owed) && PartDone(owed, r, done, s) && at in owed
    ensures var k, row := Slot(r.here, at), RowFor(r.messages[at], fork);
      && PartDone(owed, r, done + {at}, PutStranded(s, k, row))
      && (Fits(owed, r) ==> PutStranded(s, k, row) == Inserted(s, k, row))
  {
    var k, row := Slot(r.here, at), RowFor(r.messages[at], fork);
    BoundedHasRoom(Inserted(s, k, row));
    assert Slots(r, done + {at}) == Slots(r, done) + {k};
    if Fits(owed, r) { OneMoreFits(owed, r, fork, done, s, at); }
  }

  /**
   A durable state between `r` and what the fork leaves: nothing owed is gone, nothing
   but what is owed has been put aside, under its own number, and the log is as it was or has lost
   its messages above the fork.
   */
  ghost predicate OnTheWay(owed: set<nat>, r: Rows, fork: nat, d: Rows)
    requires Readable(r.messages, owed)
  {
    && Kept(owed, r, d) && d.stranded.Keys <= r.stranded.Keys + Slots(r, owed)
    && (forall at :: at in owed && Slot(r.here, at) in d.stranded ==>
          SetAside(d.stranded, r.messages[at], Slot(r.here, at)))
    && ((d.messages == r.messages && d.entries == r.entries) || forall at :: at in d.messages ==> at <= fork)
  }

  /** Every state written from the `from`th on is on the way. */
  ghost predicate AllOnTheWay(owed: set<nat>, r: Rows, fork: nat, disk: seq<Moment>, from: nat)
    requires Readable(r.messages, owed) && from <= |disk|
    decreases |disk|
  {
    |disk| == from
    || (OnTheWay(owed, r, fork, disk[|disk| - 1].rows) && AllOnTheWay(owed, r, fork, disk[..|disk| - 1], from))
  }

  lemma {:induction false} OneMoreWrite(owed: set<nat>, r: Rows, fork: nat, disk: seq<Moment>, from: nat, d: Moment)
    requires Readable(r.messages, owed) && from <= |disk|
    requires AllOnTheWay(owed, r, fork, disk, from) && OnTheWay(owed, r, fork, d.rows)
    ensures AllOnTheWay(owed, r, fork, disk + [d], from)
  {
    assert (disk + [d])[..|disk|] == disk;
  }

  lemma {:induction false} PartDoneKeeps(owed: set<nat>, r: Rows, fork: nat, done: set<nat>, s: Aside)
    requires Readable(r.messages, owed) && PartDone(owed, r, done, s) && Fits(owed, r)
    ensures OnTheWay(owed, r, fork, r.(stranded := s))
  {
  }

  /** With everything put aside, dropping what is above the fork loses nothing owed. */
  lemma {:induction false} AllAsideKeeps(owed: set<nat>, r: Rows, fork: nat, now: Rows)
    requires Readable(r.messages, owed) && PartDone(owed, r, owed, now.stranded) && Fits(owed, r) && now.here == r.here
    requires forall at :: at in now.messages ==> at <= fork
    ensures OnTheWay(owed, r, fork, now)
  {
  }

  /**
   A client stopped at any write takes the fork up again from what is on disk: everything
   still fits, and whatever keeps all that is owed then keeps all that was owed at first.
   */
  lemma {:induction false} StoppedAnywhere(m: Move, r: Rows, fork: nat, d: Rows)
    requires Fits(OwedSet(m, r, fork), r) && OnTheWay(OwedSet(m, r, fork), r, fork, d)
    ensures Fits(OwedSet(m, d, fork), d)
    ensures forall now: Rows | Kept(OwedSet(m, d, fork), d, now) :: Kept(OwedSet(m, r, fork), r, now)
  {
    var first, owed := OwedSet(m, r, fork), OwedSet(m, d, fork);
    if d.messages == r.messages && d.entries == r.entries {
      OwedByTheLog(m, r, d, fork);
    } else {
      assert forall at: nat :: m.Owed(d, fork, at) ==> at in d.messages && at > fork;
      assert owed == {};
    }
    StillFits(first, owed, r, fork, d);
    forall now: Rows | Kept(owed, d, now) ensures Kept(first, r, now) {
      KeptOnward(first, owed, r, d, now, fork);
    }
  }

  lemma {:induction false} StillFits(first: set<nat>, owed: set<nat>, r: Rows, fork: nat, d: Rows)
    requires Readable(r.messages, first) && Readable(d.messages, owed)
    requires Fits(first, r) && OnTheWay(first, r, fork, d)
    requires (d.messages == r.messages && owed == first) || owed == {}
    ensures Fits(owed, d)
  {
    RoomForFewer(d.stranded.Keys + Slots(d, owed), r.stranded.Keys + Slots(r, first));
  }

  lemma {:induction false} KeptOnward(first: set<nat>, owed: set<nat>, r: Rows, d: Rows, now: Rows, fork: nat)
    requires Readable(r.messages, first) && Readable(d.messages, owed)
    requires Kept(first, r, d) && Kept(owed, d, now)
    requires
      || (d.messages == r.messages && owed == first)
      || (owed == {} && forall at :: at in first ==> at !in d.messages)
    ensures Kept(first, r, now)
  {
  }

  lemma {:induction false} OwedByTheLog(m: Move, r: Rows, d: Rows, fork: nat)
    requires d.messages == r.messages && d.entries == r.entries
    ensures OwedSet(m, d, fork) == OwedSet(m, r, fork)
  {
    assert forall at :: m.Losing(d, at) <==> m.Losing(r, at);
  }

  /** Where not everything fits, something owed or something set aside before is lost. */
  lemma {:induction false} KeptOnlyIfFits(owed: set<nat>, r: Rows, now: Rows)
    requires Readable(r.messages, owed) && Room(now.stranded.Keys)
    requires forall at :: at in owed ==> at !in now.messages
    requires Kept(owed, r, now)
    ensures Fits(owed, r)
  {
    RoomForFewer(r.stranded.Keys + Slots(r, owed), now.stranded.Keys);
  }

  /** `owed` is split in what is done and what is left. */
  ghost predicate Shared(owed: set<nat>, done: set<nat>, left: set<nat>) { done !! left && owed == done + left }

  lemma {:induction false} MoveOver(owed: set<nat>, done: set<nat>, left: set<nat>, at: nat)
    requires Shared(owed, done, left) && at in left
    ensures at in owed && Shared(owed, done + {at}, left - {at}) && |done + {at}| == |done| + 1
  {
  }

  /** The states the four writes pass through. */
  function Truncations(m: Moment, left: Rows): seq<Moment> {
    var one := m.(rows := m.rows.(messages := left.messages));
    var two := one.(rows := one.rows.(entries := left.entries));
    var three := two.(rows := two.rows.(timed := left.timed));
    [one, two, three, three.(rows := three.rows.(since := left.since))]
  }

  lemma {:induction false} TruncatedKeeps(owed: set<nat>, r: Rows, fork: nat, m: Moment) returns (writes: seq<Moment>)
    requires Readable(r.messages, owed) && PartDone(owed, r, owed, m.rows.stranded) && m.rows.here == r.here
    ensures writes == Truncations(m, Truncated(m.rows, fork))
    ensures Fits(owed, r) ==> AllOnTheWay(owed, r, fork, writes, 0)
  {
    writes := Truncations(m, Truncated(m.rows, fork));
    if Fits(owed, r) {
      assert AllOnTheWay(owed, r, fork, [], 0);
      AllAsideKeeps(owed, r, fork, writes[0].rows);
      OneMoreWrite(owed, r, fork, [], 0, writes[0]);
      AllAsideKeeps(owed, r, fork, writes[1].rows);
      OneMoreWrite(owed, r, fork, [] + [writes[0]], 0, writes[1]);
      AllAsideKeeps(owed, r, fork, writes[2].rows);
      OneMoreWrite(owed, r, fork, [] + [writes[0]] + [writes[1]], 0, writes[2]);
      AllAsideKeeps(owed, r, fork, writes[3].rows);
      OneMoreWrite(owed, r, fork, [] + [writes[0]] + [writes[1]] + [writes[2]], 0, writes[3]);
      assert writes == [] + [writes[0]] + [writes[1]] + [writes[2]] + [writes[3]];
    }
  }

  lemma {:induction false} WritesAfter(
      owed: set<nat>, r: Rows, fork: nat, disk: seq<Moment>, from: nat, writes: seq<Moment>)
    requires Readable(r.messages, owed) && from <= |disk|
    requires AllOnTheWay(owed, r, fork, disk, from) && AllOnTheWay(owed, r, fork, writes, 0)
    ensures AllOnTheWay(owed, r, fork, disk + writes, from)
    decreases |writes|
  {
    if writes == [] {
      assert disk + writes == disk;
    } else {
      var n := |writes| - 1;
      WritesAfter(owed, r, fork, disk, from, writes[..n]);
      OneMoreWrite(owed, r, fork, disk + writes[..n], from, writes[n]);
      assert disk + writes[..n] + [writes[n]] == disk + writes;
    }
  }

  /** The rows of a channel, and which forks this run of the client has dealt with. */
  class ForkStore {
    var rows: Rows
    var forksSeen: set<nat>
    /** The durable states passed through, one per write. */
    ghost var disk: seq<Moment>
    /** What was posted again, and what was let go. */
    ghost var again: seq<(Slot, seq<Part>)>
    ghost var forgotten: set<Slot>

    constructor (r: Rows)
      ensures rows == r && forksSeen == {} && disk == [] && again == [] && forgotten == {}
    {
      rows, forksSeen, disk, again, forgotten := r, {}, [], [], {};
    }

    ghost function Now(): Moment reads this { Moment(rows, again, forgotten) }

    method Save(r: Rows)
      modifies this`rows, this`disk
      ensures rows == r && disk == old(disk) + [Now()]
    {
      rows := r;
      disk := disk + [Now()];
    }

    /** Is anything held above the fork? */
    method HoldsAbove(fork: nat) returns (above: bool)
      ensures above <==> exists at :: at > fork && (at in rows.messages || at in rows.entries)
    {
      var left := rows.messages.Keys + rows.entries.Keys;
      above := false;
      while left != {}
        invariant above ==> exists at :: at > fork && (at in rows.messages || at in rows.entries)
        invariant forall at :: at > fork && (at in rows.messages || at in rows.entries) ==> above || at in left
        decreases left
      {
        var at :| at in left;
        if at > fork { above := true; }
        left := left - {at};
      }
    }

    /** `put_stranded`, on the table: one statement adds the row, and the next applies the bound. */
    method PutAside(at: nat, row: Stranded)
      modifies this`rows, this`disk
      ensures rows == old(rows).(stranded := PutStranded(old(rows).stranded, Slot(old(rows).here, at), row))
      ensures var added := old(rows).(stranded := Inserted(old(rows).stranded, Slot(old(rows).here, at), row));
        disk == old(disk) + [Now().(rows := added), Now()]
    {
      Save(rows.(stranded := Inserted(rows.stranded, Slot(rows.here, at), row)));
      Save(rows.(stranded := Bounded(rows.stranded)));
    }

    /** The states written so far are on the way, and `done` of what is owed is aside. */
    ghost predicate Stranding(owed: set<nat>, r: Rows, fork: nat, done: set<nat>, from: nat)
      requires Readable(r.messages, owed)
      reads this
    {
      && rows == r.(stranded := rows.stranded) && from <= |disk|
      && PartDone(owed, r, done, rows.stranded)
      && (Fits(owed, r) ==> AllOnTheWay(owed, r, fork, disk, from))
    }

    /** Set one post aside. */
    method StrandOne(r: Rows, fork: nat, at: nat, ghost owed: set<nat>, ghost done: set<nat>, ghost from: nat)
      requires Readable(r.messages, owed) && at in owed && Stranding(owed, r, fork, done, from)
      modifies this`rows, this`disk
      ensures Stranding(owed, r, fork, done + {at}, from) && old(disk) <= disk
    {
      OneMoreAside(owed, r, fork, done, rows.stranded, at);
      ghost var before := disk;
      PutAside(at, RowFor(r.messages[at], fork));
      if Fits(owed, r) {
        PartDoneKeeps(owed, r, fork, done + {at}, rows.stranded);
        OneMoreWrite(owed, r, fork, before, from, Now());
        OneMoreWrite(owed, r, fork, before + [Now()], from, Now());
        assert disk == before + [Now()] + [Now()];
      }
    }

    /** Set aside every post owed, in whatever order they come. */
    method Strand(fork: nat, owed: set<nat>) returns (n: nat)
      requires Room(rows.stranded.Keys) && Readable(rows.messages, owed)
      modifies this`rows, this`disk
      ensures Stranding(owed, old(rows), fork, owed, |old(disk)|)
      ensures old(disk) <= disk && n == |owed|
    {
      var r, left := rows, owed;
      ghost var done: set<nat> := {};
      n := 0;
      NoneAside(owed, r);
      while left != {}
        invariant Shared(owed, done, left) && n == |done|
        invariant Stranding(owed, r, fork, done, |old(disk)|) && old(disk) <= disk
        decreases left
      {
        var at :| at in left;
        MoveOver(owed, done, left, at);
        StrandOne(r, fork, at, owed, done, |old(disk)|);
        left, done, n := left - {at}, done + {at}, n + 1;
      }
      assert done == owed;
    }

    /** `truncate_above`: a delete per table, then the cursor. */
    method TruncateAbove(fork: nat, ghost owed: set<nat>, ghost r: Rows, ghost from: nat)
      requires Readable(r.messages, owed) && PartDone(owed, r, owed, rows.stranded)
      requires from <= |disk| && rows.here == r.here
      requires Fits(owed, r) ==> AllOnTheWay(owed, r, fork, disk, from)
      modifies this`rows, this`disk
      ensures rows == Truncated(old(rows), fork) && old(disk) <= disk
      ensures Fits(owed, r) ==> AllOnTheWay(owed, r, fork, disk, from)
    {
      ghost var fits := Fits(owed, r);
      ghost var writes := TruncatedKeeps(owed, r, fork, Now());
      ghost var before := disk;
      WriteTruncated(Truncated(rows, fork), writes);
      if fits { WritesAfter(owed, r, fork, before, from, writes); }
    }

    method WriteTruncated(left: Rows, ghost writes: seq<Moment>)
      requires left.stranded == rows.stranded && left.here == rows.here && writes == Truncations(Now(), left)
      modifies this`rows, this`disk
      ensures rows == left && disk == old(disk) + writes
    {
      Save(rows.(messages := left.messages));
      Save(rows.(entries := left.entries));
      Save(rows.(timed := left.timed));
      Save(rows.(since := left.since));
    }

    /**
     `fork_found`. `rechain` says the chain is to be continued from what the winning
     origin holds. Nothing above the fork is held afterwards. Where everything owed fits,
     none of it is out of reach in any durable state on the way; and that it fits is
     exactly what it takes.
     */
    method ForkFound(m: Move, fork: nat, ownAct: bool) returns (stranded: nat, rechain: bool)
      requires Room(rows.stranded.Keys)
      modifies this`rows, this`disk, this`forksSeen
      ensures forksSeen == old(forksSeen) + {fork} && Room(rows.stranded.Keys) && old(disk) <= disk
      ensures fork in old(forksSeen) ==> rows == old(rows) && disk == old(disk) && stranded == 0 && rechain == ownAct
      ensures fork !in old(forksSeen) ==>
        && rows.messages == Truncated(old(rows), fork).messages && rows.entries == Truncated(old(rows), fork).entries
        && (rows.timed == old(rows).timed || rows.timed == Truncated(old(rows), fork).timed)
        && stranded == |OwedSet(m, old(rows), fork)|
      ensures var owed := OwedSet(m, old(rows), fork);
        && (Fits(owed, old(rows)) ==> AllOnTheWay(owed, old(rows), fork, disk, |old(disk)|))
        && (fork !in old(forksSeen) ==> (Kept(owed, old(rows), rows) <==> Fits(owed, old(rows))))
        && (Fits(owed, old(rows)) ==> Accounted(owed, old(rows), Now()))
      ensures fork !in old(forksSeen) && Fits(OwedSet(m, old(rows), fork), old(rows)) ==>
        forall at :: OwnPost(m, old(rows), fork, at) && OnLosingSide(m, old(rows), at) ==>
          SetAside(rows.stranded, old(rows).messages[at], Slot(rows.here, at))
      ensures forall at :: at in old(rows).messages && (at <= fork || fork in old(forksSeen)) ==>
        at in rows.messages && rows.messages[at] == old(rows).messages[at]
      ensures fork !in old(forksSeen) ==> forall at :: at in rows.messages || at in rows.entries ==> at <= fork
      ensures rows.since == old(rows).since || rows.since == fork < old(rows).since
    {
      ghost var before := rows;
      forall at
        ensures at in OwedSet(m, before, fork) <==> OwnPost(m, before, fork, at) && OnLosingSide(m, before, at)
      {
        OwedMeans(m, before, fork, at);
      }
      var seen := fork in forksSeen;
      forksSeen := forksSeen + {fork};
      var above := HoldsAbove(fork);
      if seen || !above {
        if !above { NothingAbove(m, rows, fork); }
        return 0, ownAct;
      }
      var losing :=
        set at | at in rows.entries && at > fork && rows.entries[at].Some? && m.Loses(rows.entries[at].value);
      rechain := losing != {} || ownAct;
      stranded := DropAbove(fork, OwedSet(m, rows, fork));
    }

    /** Strand what is owed, then truncate. */
    method DropAbove(fork: nat, owed: set<nat>) returns (stranded: nat)
      requires Room(rows.stranded.Keys) && Readable(rows.messages, owed)
      requires forall at :: at in owed ==> at > fork
      modifies this`rows, this`disk
      ensures stranded == |owed| && Room(rows.stranded.Keys) && old(disk) <= disk
      ensures rows == Truncated(old(rows), fork).(stranded := rows.stranded)
      ensures Fits(owed, old(rows)) ==> AllOnTheWay(owed, old(rows), fork, disk, |old(disk)|)
      ensures Kept(owed, old(rows), rows) <==> Fits(owed, old(rows))
      ensures Fits(owed, old(rows)) ==>
        forall at :: at in owed ==> SetAside(rows.stranded, old(rows).messages[at], Slot(rows.here, at))
    {
      ghost var r, from := rows, |disk|;
      stranded := Strand(fork, owed);
      TruncateAbove(fork, owed, r, from);
      if Kept(owed, r, rows) { KeptOnlyIfFits(owed, r, rows); }
      if Fits(owed, r) { AllAsideKeeps(owed, r, fork, rows); }
    }

    /**
     `post_again`: a post at the number goes out as a fresh entry saying when it was first said, and
     only then do the rows of that number go. Where they are one row, whatever was accounted for is
     so at every moment, sent and not yet dropped included.
     */
    method PostAgain(at: nat, sent: bool, ghost owed: set<nat>, ghost r0: Rows)
        returns (r: Result<seq<Part>, ()>, ghost k: Slot)
      requires Readable(r0.messages, owed) && Accounted(owed, r0, Now())
      modifies this`rows, this`disk, this`again
      ensures Numbered(old(rows).stranded, at) != {} ==> k in Numbered(old(rows).stranded, at)
      ensures r.Ok? <==> Numbered(old(rows).stranded, at) != {} && old(rows).stranded[k].content.Post? && sent
      ensures r.Ok? ==>
        && Now() == Dropped(SaidOf(Moment(old(rows), old(again), forgotten), k), at)
        && r.value == Again(old(rows).stranded[k])
        && disk == old(disk) + [SaidOf(Moment(old(rows), old(again), forgotten), k), Now()]
      ensures r.Err? ==> rows == old(rows) && disk == old(disk) && again == old(again)
      ensures Alone(old(rows).stranded, at) ==> forall m :: m in disk[|old(disk)|..] ==> Accounted(owed, r0, m)
      ensures Alone(old(rows).stranded, at) ==> Accounted(owed, r0, Now())
    {
      k := Slot(rows.here, at);
      var there := Numbered(rows.stranded, at);
      if there == {} { return Err(()), k; }
      var found: Slot :| found in there;
      k := found;
      var row := rows.stranded[found];
      if !row.content.Post? { return Err(()), k; }
      var parts := Rebuild(row.content.parts, row.posted, row.fork);
      if !sent { return Err(()), k; }
      if Alone(rows.stranded, at) { SentStaysAccounted(owed, r0, Now(), k); }
      Sent(k, parts);
      Save(rows.(stranded := rows.stranded - Numbered(rows.stranded, at)));
      return Ok(parts), k;
    }

    /** The exchange has the post. */
    ghost method Sent(k: Slot, parts: seq<Part>)
      modifies this`again, this`disk
      ensures again == old(again) + [(k, parts)] && disk == old(disk) + [Now()]
    {
      again := again + [(k, parts)];
      disk := disk + [Now()];
    }

    /** `forget_stranded`: the one way a post is meant to go unsaid; the rows of its number go with it. */
    method Forget(at: nat, ghost meant: Slot, ghost owed: set<nat>, ghost r0: Rows)
      requires Readable(r0.messages, owed) && Accounted(owed, r0, Now()) && meant.seq_ == at
      modifies this`rows, this`disk, this`forgotten
      ensures Now() == Dropped(LetGo(Moment(old(rows), again, old(forgotten)), meant), at)
      ensures disk == old(disk) + [Now()]
      ensures Numbered(old(rows).stranded, at) <= {meant} ==> Accounted(owed, r0, Now())
    {
      forgotten := forgotten + {meant};
      Save(rows.(stranded := rows.stranded - Numbered(rows.stranded, at)));
    }
  }

  // ---- accounting for every post ---------------------------------------------------

  /** The rows at one number, whichever exchange they are under. */
  function Numbered(s: Aside, at: nat): set<Slot> { set k | k in s && k.seq_ == at }

  /** There is one row at the number, if any. */
  ghost predicate Alone(s: Aside, at: nat) {
    forall j, k :: j in Numbered(s, at) && k in Numbered(s, at) ==> j == k
  }

  function Again(row: Stranded): seq<Part>
    requires row.content.Post?
  {
    SaidAgain(row.content.parts, row.posted, row.fork)
  }

  /** The post at `k` has been sent. */
  function SaidOf(m: Moment, k: Slot): Moment
    requires k in m.rows.stranded && m.rows.stranded[k].content.Post?
  {
    m.(again := m.again + [(k, Again(m.rows.stranded[k]))])
  }

  function LetGo(m: Moment, k: Slot): Moment { m.(forgotten := m.forgotten + {k}) }

  /** `drop_stranded`: the rows at `at` are gone. */
  function Dropped(m: Moment, at: nat): Moment {
    m.(rows := m.rows.(stranded := m.rows.stranded - Numbered(m.rows.stranded, at)))
  }

  /** What was sent is the post at `k`, said again. */
  predicate Repeats(sent: (Slot, seq<Part>), k: Slot, msg: Message, fork: nat) {
    msg.plain.Some? && msg.plain.value.Post? && sent == (k, SaidAgain(msg.plain.value.parts, msg.posted, fork))
  }

  /** A post taken away is still in the log, set aside, said again, or was let go. */
  ghost predicate Somewhere(msg: Message, k: Slot, m: Moment) {
    || (m.rows.here == k.exchange && k.seq_ in m.rows.messages && m.rows.messages[k.seq_] == msg)
    || SetAside(m.rows.stranded, msg, k)
    || (exists i, fork: nat :: 0 <= i < |m.again| && Repeats(m.again[i], k, msg, fork))
    || k in m.forgotten
  }

  ghost predicate Accounted(owed: set<nat>, r: Rows, m: Moment)
    requires Readable(r.messages, owed)
  {
    forall at :: at in owed ==> Somewhere(r.messages[at], Slot(r.here, at), m)
  }

  lemma {:induction false} SentStaysSomewhere(msg: Message, j: Slot, m: Moment, k: Slot)
    requires Somewhere(msg, j, m) && k in m.rows.stranded && m.rows.stranded[k].content.Post?
    requires Alone(m.rows.stranded, k.seq_)
    ensures Somewhere(msg, j, SaidOf(m, k)) && Somewhere(msg, j, Dropped(SaidOf(m, k), k.seq_))
  {
    var sent, after := SaidOf(m, k), Dropped(SaidOf(m, k), k.seq_);
    if i, fork: nat :| 0 <= i < |m.again| && Repeats(m.again[i], j, msg, fork) {
      assert Repeats(sent.again[i], j, msg, fork);
    } else if SetAside(m.rows.stranded, msg, j) {
      if j == k {
        assert Repeats(sent.again[|m.again|], j, msg, m.rows.stranded[k].fork);
      } else {
        assert k in Numbered(m.rows.stranded, k.seq_);
        assert j !in Numbered(m.rows.stranded, k.seq_);
        assert SetAside(after.rows.stranded, msg, j);
      }
    }
  }

  /** Once sent, the row may go or stay, where it is the only one at its number. */
  lemma {:induction false} SentStaysAccounted(owed: set<nat>, r: Rows, m: Moment, k: Slot)
    requires Readable(r.messages, owed) && Accounted(owed, r, m)
    requires k in m.rows.stranded && m.rows.stranded[k].content.Post? && Alone(m.rows.stranded, k.seq_)
    ensures Accounted(owed, r, SaidOf(m, k)) && Accounted(owed, r, Dropped(SaidOf(m, k), k.seq_))
  {
    forall at | at in owed
      ensures Somewhere(r.messages[at], Slot(r.here, at), SaidOf(m, k))
      ensures Somewhere(r.messages[at], Slot(r.here, at), Dropped(SaidOf(m, k), k.seq_))
    {
      SentStaysSomewhere(r.messages[at], Slot(r.here, at), m, k);
    }
  }

  /** Every post set aside in `s` is so still, or was said again or let go. */
  ghost predicate AllThere(s: Aside, m: Moment) {
    forall k :: k in s ==>
      || (k in m.rows.stranded && m.rows.stranded[k] == s[k])
      || (exists i :: 0 <= i < |m.again| && m.again[i].0 == k)
      || k in m.forgotten
  }

  /** Nothing at the number has been said again or let go. */
  ghost predicate Unsaid(m: Moment, at: nat) {
    forall k :: k in Numbered(m.rows.stranded, at) ==>
      k !in m.forgotten && forall i :: 0 <= i < |m.again| ==> m.again[i].0 != k
  }

  /** Saying one post again, or letting it go, leaves no other unsaid exactly where it is alone at its number. */
  lemma {:induction false} DroppingIsSafeExactly(m: Moment, k: Slot)
    requires k in m.rows.stranded && m.rows.stranded[k].content.Post? && Unsaid(m, k.seq_)
    ensures AllThere(m.rows.stranded, Dropped(SaidOf(m, k), k.seq_)) <==> Alone(m.rows.stranded, k.seq_)
    ensures AllThere(m.rows.stranded, Dropped(LetGo(m, k), k.seq_)) <==> Alone(m.rows.stranded, k.seq_)
  {
    var s := m.rows.stranded;
    var said, let := Dropped(SaidOf(m, k), k.seq_), Dropped(LetGo(m, k), k.seq_);
    assert k in Numbered(s, k.seq_);
    assert said.again[|m.again|].0 == k;
    if Alone(s, k.seq_) {
      forall j | j in s && j != k ensures j in said.rows.stranded && j in let.rows.stranded {
        assert j !in Numbered(s, k.seq_);
      }
    } else {
      var j :| j in Numbered(s, k.seq_) && j != k;
      assert j !in said.rows.stranded && j !in let.rows.stranded;
      assert forall i :: 0 <= i < |m.again| ==> said.again[i] == m.again[i];
    }
  }

  /** Every durable state a fork passes through accounts for what it owes. */
  lemma {:induction false} OnTheWayIsAccounted(owed: set<nat>, r: Rows, fork: nat, disk: seq<Moment>, from: nat, i: nat)
    requires Readable(r.messages, owed) && from <= i < |disk| && AllOnTheWay(owed, r, fork, disk, from)
    ensures Accounted(owed, r, disk[i])
    decreases |disk|
  {
    if i < |disk| - 1 { OnTheWayIsAccounted(owed, r, fork, disk[..|disk| - 1], from, i); }
  }

  /**
   Posts taken away by one fork and out of the log stay accounted for through the next, under this
   exchange or another, where what that one takes away fits beside them.
   */
  lemma {:induction false} NextForkKeepsAccount(first: set<nat>, r: Rows, owed: set<nat>, m: Moment, after: Rows)
    requires Readable(r.messages, first) && Readable(m.rows.messages, owed)
    requires Accounted(first, r, m) && Kept(owed, m.rows, after)
    requires m.rows.here == r.here ==>
      forall at :: at in first && at in m.rows.messages ==> m.rows.messages[at] != r.messages[at]
    ensures Accounted(first, r, m.(rows := after))
  {
    forall at | at in first ensures Somewhere(r.messages[at], Slot(r.here, at), m.(rows := after)) {
      assert Somewhere(r.messages[at], Slot(r.here, at), m);
    }
  }

  lemma {:induction false} NothingOwed(r: Rows)
    requires Room(r.stranded.Keys)
    ensures Fits({}, r) && Kept({}, r, r)
  {
    assert r.stranded.Keys + Slots(r, {}) == r.stranded.Keys;
  }

  lemma {:induction false} NothingAbove(m: Move, r: Rows, fork: nat)
    requires !exists at :: at > fork && (at in r.messages || at in r.entries)
    requires Room(r.stranded.Keys)
    ensures OwedSet(m, r, fork) == {} && Fits({}, r) && Kept({}, r, r)
    ensures r.messages == Truncated(r, fork).messages && r.entries == Truncated(r, fork).entries
  {
    NoneOwed(m, r, fork);
    NothingOwed(r);
  }

  lemma {:induction false} NoneOwed(m: Move, r: Rows, fork: nat)
    requires forall at :: at in r.messages ==> at <= fork
    ensures OwedSet(m, r, fork) == {}
  {
    assert forall at: nat :: m.Owed(r, fork, at) ==> at in r.messages && at > fork;
  }

  /**
   The parts of a post said again: without what the client stamps itself, and without a reply to
   what was stranded.
   */
  predicate Carried(p: Part, fork: nat) { !p.Said? && !p.Via? && !(p.Reply? && p.target > fork) }

  function Carry(parts: seq<Part>, fork: nat): (c: seq<Part>)
    ensures forall p :: p in c <==> p in parts && Carried(p, fork)
  {
    if parts == [] then []
    else
      var rest := Carry(parts[..|parts| - 1], fork);
      var last := parts[|parts| - 1];
      assert parts == parts[..|parts| - 1] + [last];
      if Carried(last, fork) then rest + [last] else rest
  }

  function SaidAgain(parts: seq<Part>, posted: nat, fork: nat): seq<Part> { Carry(parts, fork) + [Said(posted)] }

  method Rebuild(parts: seq<Part>, posted: nat, fork: nat) returns (out: seq<Part>)
    ensures out == SaidAgain(parts, posted, fork)
  {
    out := [];
    var i := 0;
    while i < |parts|
      invariant 0 <= i <= |parts| && out == Carry(parts[..i], fork)
    {
      assert parts[..i + 1][..i] == parts[..i];
      if Carried(parts[i], fork) { out := out + [parts[i]]; }
      i := i + 1;
    }
    assert parts[..i] == parts;
    out := out + [Said(posted)];
  }

  /** A post said again says when it was first said, once, and answers nothing above the fork. */
  lemma {:induction false} SaidOnce(parts: seq<Part>, posted: nat, fork: nat)
    ensures var again := SaidAgain(parts, posted, fork);
      && (forall i :: 0 <= i < |again| && again[i].Said? ==> i == |again| - 1 && again[i] == Said(posted))
      && (forall p :: p in again && p.Reply? ==> p.target <= fork && p in parts)
      && (forall p :: p in parts && (p.Text? || p.Attachment?) ==> p in again)
  {
    var c := Carry(parts, fork);
    forall i | 0 <= i < |c| ensures !c[i].Said? { assert c[i] in c; }
  }

  /**
   Which parts go along, and in what order: part by part, all but `Said`, `Via` and replies to what was above
   the fork. That, and that parts posted together go along together, leaves no choice.
   */
  lemma {:induction false} CarriesPartByPart(xs: seq<Part>, ys: seq<Part>, p: Part, fork: nat)
    ensures Carry([], fork) == [] && Carry(xs + ys, fork) == Carry(xs, fork) + Carry(ys, fork)
    ensures Carry([p], fork) == match p
      case Text(_) => [p]
      case Attachment(_) => [p]
      case Reply(target) => if target <= fork then [p] else []
      case Said(_) => []
      case Via(_) => []
    decreases |ys|
  {
    assert [p][..0] == [] && Carry([p][..0], fork) == [];
    if ys == [] {
      assert xs + ys == xs;
    } else {
      var init := ys[..|ys| - 1];
      CarriesPartByPart(xs, init, p, fork);
      assert (xs + ys)[..|xs + ys| - 1] == xs + init;
    }
  }
}
