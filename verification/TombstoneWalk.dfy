/**
 SIP-88, withdrawal: whose act a tombstone was. A reader looks forward from it for the
 author's own notice, over pages an exchange that is not trusted chooses to serve.
 */
module TombstoneWalk {
  import opened Wrappers
  import opened ChainAgreement
  import opened FeedPosts

  const CORROBORATE := 64

  datatype Cited = Withdrawn | Removed

  /** What is served to the `k`th request, for so many posts above a serial; nothing where the request fails. */
  type Exchange = (nat, nat, nat) -> Option<seq<Post>>

  datatype Walked = Walked(cited: Cited, asked: nat)

  /** `page_of`: what does not verify is dropped. */
  function Verified(posts: seq<Post>): (kept: seq<Post>)
    ensures forall p :: p in kept <==> p in posts && p.Verify()
  {
    if posts == [] then []
    else
      var init, last := Verified(posts[..|posts| - 1]), posts[|posts| - 1];
      assert posts == posts[..|posts| - 1] + [last];
      if last.Verify() then init + [last] else init
  }

  function PageOf(x: Exchange, k: nat, from: nat, want: nat): Option<seq<Post>> {
    match x(k, from, want) case None => None case Some(posts) => Some(Verified(posts))
  }

  predicate Names(posts: seq<Post>, serial: nat) { exists p :: p in posts && p.body == Redact(serial) }

  function Want(newest: nat, from: nat): nat
    requires from < newest
  {
    if newest - from < CORROBORATE then newest - from else CORROBORATE
  }

  /** The rest of the walk, standing at `from` with `k` requests made. */
  function Walk(x: Exchange, serial: nat, newest: nat, from: nat, k: nat): Walked
    decreases if from < serial + CORROBORATE then serial + CORROBORATE - from else 0
  {
    if from >= newest then Walked(Removed, k)
    else match PageOf(x, k, from, Want(newest, from))
      case None => Walked(Removed, k + 1)
      case Some(page) =>
        if page == [] then Walked(Removed, k + 1)
        else if Names(page, serial) then Walked(Withdrawn, k + 1)
        else
          var last := page[|page| - 1].terms.serial;
          if last <= from || last >= serial + CORROBORATE then Walked(Removed, k + 1)
          else Walk(x, serial, newest, last, k + 1)
  }

  method FindNotice(posts: seq<Post>, serial: nat) returns (found: bool)
    ensures found <==> Names(posts, serial)
  {
    found := false;
    for i := 0 to |posts|
      invariant forall j :: 0 <= j < i ==> posts[j].body != Redact(serial)
    {
      if posts[i].body == Redact(serial) { return true; }
    }
  }

  /** `who_took_it_off`. */
  method WhoTookItOff(x: Exchange, serial: nat, newest: nat) returns (cited: Cited, asked: nat)
    ensures Walked(cited, asked) == Walk(x, serial, newest, serial, 0)
    ensures asked <= CORROBORATE
  {
    var from := serial;
    cited, asked := Removed, 0;
    while from < newest
      invariant serial <= from < serial + CORROBORATE && asked <= from - serial
      invariant Walk(x, serial, newest, from, asked) == Walk(x, serial, newest, serial, 0)
      decreases serial + CORROBORATE - from
    {
      var page := PageOf(x, asked, from, Want(newest, from));
      asked := asked + 1;
      if page.None? || page.value == [] { return; }
      var found := FindNotice(page.value, serial);
      if found { return Withdrawn, asked; }
      var last := page.value[|page.value| - 1].terms.serial;
      if last <= from || last >= serial + CORROBORATE { return; }
      from := last;
    }
  }

  // ---- against any exchange ------------------------------------------------

  /** The answer holds a post that verifies and names the serial. */
  predicate HoldsNotice(answer: Option<seq<Post>>, serial: nat, p: Post) {
    answer.Some? && p in answer.value && p.Verify() && p.body == Redact(serial)
  }

  /** Whatever is served: few requests, and `Withdrawn` only on a verified post that names the serial. */
  lemma {:induction false} WalkIsBoundedAndGrounded(x: Exchange, serial: nat, newest: nat, from: nat, k: nat)
    requires serial <= from < serial + CORROBORATE
    ensures var w := Walk(x, serial, newest, from, k);
      && k <= w.asked <= k + (serial + CORROBORATE - from)
      && (w.cited == Withdrawn ==>
            exists p, i, above, want :: k <= i < w.asked && HoldsNotice(x(i, above, want), serial, p))
    decreases serial + CORROBORATE - from
  {
    if from < newest {
      var want := Want(newest, from);
      var page := PageOf(x, k, from, want);
      if page.Some? && page.value != [] {
        if Names(page.value, serial) {
          var p :| p in page.value && p.body == Redact(serial);
          assert HoldsNotice(x(k, from, want), serial, p);
        } else {
          var last := page.value[|page.value| - 1].terms.serial;
          if from < last < serial + CORROBORATE {
            WalkIsBoundedAndGrounded(x, serial, newest, last, k + 1);
          }
        }
      }
    }
  }

  /** What a reader would have to have checked of a post for it to be the author's notice. */
  predicate Genuine(p: Post, account: PubKey) { p.BodyMatches() && p.terms.account == account }

  ghost predicate ServesGenuine(x: Exchange, account: PubKey) {
    forall k, from, want :: x(k, from, want).Some? ==> GenuinePage(x(k, from, want).value, account)
  }

  ghost predicate GenuinePage(posts: seq<Post>, account: PubKey) { forall p :: p in posts ==> Genuine(p, account) }

  /** A device put its name, as this account's, to a notice that withdraws the serial. */
  predicate SaidSo(p: Post, account: PubKey, serial: nat) {
    && p.terms.account == account && p.terms.bodyHash == HashOf(Redact(serial))
    && p.signature == Signature(p.terms.device, p.terms)
  }

  /** With bodies and accounts checked, `Withdrawn` is something signed for. */
  lemma {:induction false} WithdrawnIsSigned(x: Exchange, account: PubKey, serial: nat, newest: nat)
    requires ServesGenuine(x, account) && Walk(x, serial, newest, serial, 0).cited == Withdrawn
    ensures exists p, i, from, want :: SaidSo(p, account, serial) && HoldsNotice(x(i, from, want), serial, p)
  {
    WalkIsBoundedAndGrounded(x, serial, newest, serial, 0);
    var p: Post, i: nat, from: nat, want: nat :| i < CORROBORATE && HoldsNotice(x(i, from, want), serial, p);
    var page := x(i, from, want);
    assert HoldsNotice(page, serial, p);
    assert GenuinePage(page.value, account);
    assert SaidSo(p, account, serial);
  }

  /**
   The reader checks neither, and a post that verifies need not carry the body it was
   signed over: any post whose signature holds, served with its body exchanged, is
   taken as the author's word. It is what was signed exactly where the body matches.
   */
  lemma {:induction false} ExchangedBodyIsBelieved(p: Post, serial: nat, newest: nat)
    requires p.Verify() && serial < newest
    ensures var forged := p.(body := Redact(serial));
      && forged.Verify()
      && Walk((k, from, want) => Some([forged]), serial, newest, serial, 0).cited == Withdrawn
      && (SaidSo(forged, p.terms.account, serial) <==> Genuine(forged, p.terms.account))
  {
    var forged := p.(body := Redact(serial));
    var page := Verified([forged]);
    assert forged in page;
    assert Names(page, serial);
  }

  // ---- against an honest one -----------------------------------------------

  /** A page of a dense feed: some of what is asked for, at least one post where there is one. */
  predicate HonestPage(feed: seq<Post>, from: nat, want: nat, page: Option<seq<Post>>) {
    && page.Some?
    && |page.value| <= want
    && (from < |feed| && want > 0 ==> page.value != [])
    && from + |page.value| <= |feed|
    && page.value == feed[from..from + |page.value|]
  }

  /** The feed as it stood at each request, growing and losing bodies as it may, served in pages of any size. */
  ghost predicate Honest(x: Exchange, feeds: nat -> seq<Post>, newest: nat) {
    forall k: nat :: HonestFeed(feeds(k), newest) && HonestAt(x, feeds(k), k)
  }

  ghost predicate HonestFeed(feed: seq<Post>, newest: nat) {
    && |feed| >= newest && Dense(feed)
    && (forall i :: 0 <= i < |feed| ==> feed[i].Verify())
  }

  ghost predicate HonestAt(x: Exchange, feed: seq<Post>, k: nat) {
    forall from: nat, want: nat :: from <= |feed| ==> HonestPage(feed, from, want, x(k, from, want))
  }

  /** The notice stands at `at` in every one of them. */
  ghost predicate Stands(feeds: nat -> seq<Post>, at: nat, serial: nat) {
    forall k: nat :: StandsIn(feeds(k), at, serial)
  }

  predicate StandsIn(feed: seq<Post>, at: nat, serial: nat) {
    1 <= at <= |feed| && feed[at - 1].body == Redact(serial)
  }

  lemma {:induction false} VerifiedKeepsAll(posts: seq<Post>)
    requires forall p :: p in posts ==> p.Verify()
    ensures Verified(posts) == posts
    decreases |posts|
  {
    if posts != [] {
      var init := posts[..|posts| - 1];
      assert posts == init + [posts[|posts| - 1]];
      VerifiedKeepsAll(init);
    }
  }

  /** What an honest exchange's answer comes to: a stretch of the feed from the next serial on. */
  predicate Stretch(feed: seq<Post>, from: nat, want: nat, page: Option<seq<Post>>) {
    && page.Some? && 1 <= |page.value| <= want && from + |page.value| <= |feed|
    && page.value == feed[from..from + |page.value|]
    && page.value[|page.value| - 1].terms.serial == from + |page.value|
  }

  lemma {:induction false} ReadHonestPage(feed: seq<Post>, newest: nat, from: nat, want: nat, page: Option<seq<Post>>)
    requires HonestFeed(feed, newest) && from < |feed| && want > 0 && HonestPage(feed, from, want, page)
    ensures Verified(page.value) == page.value && Stretch(feed, from, want, page)
  {
    forall p | p in page.value ensures p.Verify() {
      var j :| 0 <= j < |page.value| && page.value[j] == p;
      assert p == feed[from + j];
    }
    VerifiedKeepsAll(page.value);
    assert PlacedAt(feed, from + |page.value| - 1);
  }

  lemma {:induction false} HonestStep(x: Exchange, feeds: nat -> seq<Post>, newest: nat, from: nat, k: nat)
    requires Honest(x, feeds, newest) && from < newest
    ensures Stretch(feeds(k), from, Want(newest, from), PageOf(x, k, from, Want(newest, from)))
  {
    var feed, want := feeds(k), Want(newest, from);
    assert HonestFeed(feed, newest) && HonestAt(x, feed, k);
    assert HonestPage(feed, from, want, x(k, from, want));
    ReadHonestPage(feed, newest, from, want, x(k, from, want));
  }

  /**
   On an honest feed every notice within the next `CORROBORATE` serials is found,
   whatever page sizes are served, and however the feed grows meanwhile.
   */
  lemma {:induction false} NoticeIsFound(
      x: Exchange, feeds: nat -> seq<Post>, serial: nat, newest: nat, at: nat, from: nat, k: nat)
    requires Honest(x, feeds, newest) && Stands(feeds, at, serial)
    requires serial <= from < at <= newest && at <= serial + 64
    ensures Walk(x, serial, newest, from, k).cited == Withdrawn
    decreases serial + CORROBORATE - from
  {
    HonestStep(x, feeds, newest, from, k);
    var page := PageOf(x, k, from, Want(newest, from)).value;
    if at <= from + |page| {
      assert StandsIn(feeds(k), at, serial);
      ThereIsNamed(feeds(k), from, page, at, serial);
    } else if !Names(page, serial) {
      NoticeIsFound(x, feeds, serial, newest, at, from + |page|, k + 1);
    }
  }

  /** A stretch names the serial just where the notice stands in it. */
  lemma {:induction false} ThereIsNamed(feed: seq<Post>, from: nat, page: seq<Post>, at: nat, serial: nat)
    requires from + |page| <= |feed| && page == feed[from..from + |page|]
    requires from < at <= from + |page| && StandsIn(feed, at, serial)
    ensures Names(page, serial)
  {
    assert page[at - 1 - from] == feed[at - 1];
  }

  lemma {:induction false} NamedIsThere(feed: seq<Post>, from: nat, page: seq<Post>, serial: nat) returns (at: nat)
    requires from + |page| <= |feed| && page == feed[from..from + |page|] && Names(page, serial)
    ensures from < at <= from + |page| && StandsIn(feed, at, serial)
  {
    var i :| 0 <= i < |page| && page[i].body == Redact(serial);
    assert page[i] == feed[from + i];
    at := from + i + 1;
  }

  /** And nothing is found that is not there, nor further than two spans away. */
  lemma {:induction false} FoundIsThere(
      x: Exchange, feeds: nat -> seq<Post>, serial: nat, newest: nat, from: nat, k: nat)
      returns (at: nat, when: nat)
    requires Honest(x, feeds, newest) && serial <= from < serial + CORROBORATE
    requires Walk(x, serial, newest, from, k).cited == Withdrawn
    ensures serial < at <= newest && at < serial + 2 * CORROBORATE && StandsIn(feeds(when), at, serial)
    decreases serial + CORROBORATE - from
  {
    HonestStep(x, feeds, newest, from, k);
    var page := PageOf(x, k, from, Want(newest, from)).value;
    if Names(page, serial) {
      at := NamedIsThere(feeds(k), from, page, serial);
      when := k;
    } else {
      at, when := FoundIsThere(x, feeds, serial, newest, from + |page|, k + 1);
    }
  }
}
