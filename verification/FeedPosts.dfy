/**
 SIP-88 posts: what is signed, what is linked, and what a tombstone keeps.
 Hashes and signatures are terms that name what they were made over.
 */
module FeedPosts {
  import opened ChainAgreement

  const MAX_BODY := 32 * 1024

  /** A SIP-19 body: words that encode to `size` bytes, a withdrawal notice, or nothing at all. */
  datatype Body = Gone | Said(words: nat, size: nat) | Redact(target: nat)
  {
    function Size(): nat { match this case Gone => 0 case Said(_, n) => n case Redact(_) => 9 }
  }

  datatype Hash = HashOf(body: Body)

  datatype Terms = Terms(
    account: PubKey, device: PubKey, serial: nat, prev: Link,
    issuedAt: nat, expiresAfter: nat, flags: nat, bodyHash: Hash)

  /** The previous post's signed input, or the start of the feed. */
  datatype Link = Genesis | LinkOf(terms: Terms)

  datatype Signature = Signature(key: PubKey, over: Terms)

  datatype Post = Post(terms: Terms, body: Body, signature: Signature)
  {
    /** Against the hash the post carries, not against its body. */
    predicate Verify() { signature == Signature(terms.device, terms) }

    predicate BodyMatches() { body == Gone || HashOf(body) == terms.bodyHash }

    function Link(): Link { LinkOf(terms) }

    function Tombstone(): Post { this.(body := Gone) }
  }

  function Sign(account: PubKey, device: PubKey, serial: nat, prev: Link, at: nat, body: Body): (p: Post)
    ensures p.Verify() && p.BodyMatches()
  {
    var terms := Terms(account, device, serial, prev, at, 0, 0, HashOf(body));
    Post(terms, body, Signature(device, terms))
  }

  /** What the exchange says of where a feed has got to. */
  datatype Headed = Headed(found: bool, newest: nat, headInput: Link)

  function HeadAt(taken: seq<Post>, n: nat): Link
    requires n <= |taken|
  {
    if n == 0 then Genesis else taken[n - 1].Link()
  }

  /** Each post at the next serial, from one, and linked to the one before it. */
  ghost predicate Dense(taken: seq<Post>) {
    forall i :: 0 <= i < |taken| ==> PlacedAt(taken, i)
  }

  predicate PlacedAt(taken: seq<Post>, i: nat)
    requires i < |taken|
  {
    taken[i].terms.serial == i + 1 && taken[i].terms.prev == HeadAt(taken, i)
  }

  lemma {:induction false} DensePlusOne(taken: seq<Post>, p: Post)
    requires Dense(taken) && p.terms.serial == |taken| + 1 && p.terms.prev == HeadAt(taken, |taken|)
    ensures Dense(taken + [p])
  {
    var after := taken + [p];
    forall i | 0 <= i < |after| ensures PlacedAt(after, i) {
      if i < |taken| { assert PlacedAt(taken, i); }
    }
  }

  /** One link fixes everything below it: two dense feeds that end alike are one feed, whatever is withdrawn. */
  lemma {:induction false} OneHeadOneFeed(a: seq<Post>, b: seq<Post>, n: nat)
    requires Dense(a) && Dense(b) && n <= |a| && n <= |b| && HeadAt(a, n) == HeadAt(b, n)
    ensures forall i :: 0 <= i < n ==> a[i].terms == b[i].terms
    decreases n
  {
    if n > 0 {
      assert PlacedAt(a, n - 1) && PlacedAt(b, n - 1);
      OneHeadOneFeed(a, b, n - 1);
    }
  }

  /** Withdrawing a post leaves a post that verifies, and every link as it was. */
  lemma {:induction false} TombstonesHold(taken: seq<Post>, k: nat)
    requires Dense(taken) && k < |taken| && forall i :: 0 <= i < |taken| ==> taken[i].Verify() && taken[i].BodyMatches()
    ensures var after := taken[k := taken[k].Tombstone()];
      && Dense(after) && (forall i :: 0 <= i < |after| ==> after[i].Verify() && after[i].BodyMatches())
      && HeadAt(after, |after|) == HeadAt(taken, |taken|)
  {
    var after := taken[k := taken[k].Tombstone()];
    forall i | 0 <= i < |after| ensures PlacedAt(after, i) { assert PlacedAt(taken, i); }
  }
}
