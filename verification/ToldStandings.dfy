/**
 What a fold says of where the exchange put each entry: over a log kept honestly, over one with entries
 missing, and when it is the receipts that send the client back to ask where the channel lives.
 */
module ToldStandings {
  import opened Wrappers
  import opened ChainAgreement
  import opened LogEntries
  import opened Receipts
  import opened LogFold
  import opened TimedMessages

  /** No key of the reader's put its name to where the entry stands, and somebody did. */
  predicate NobodysReceipt(c: Call, e: Entry) {
    e.stamp.Some? && forall key :: key in c.reader.keys ==> !ReceiptedBy(key, c.reader.channel, c.reader.instance, e)
  }

  lemma {:induction false} RepudiatedMeans(c: Call, lastHead: Option<(nat, Hash)>, e: Entry)
    requires c.reader.keys != []
    ensures StandingOf(c, lastHead, e) == Repudiated <==> NobodysReceipt(c, e)
  {
    StandingUnderMeans(c.reader.keys, c.reader.channel, c.reader.instance, e, HeldHead(lastHead, e));
  }

  lemma {:induction false} OneMoreAsks(c: Call, p: Pass, e: Entry, q: Pass)
    requires !Replayed(p, e) && c.reader.keys != [] && q == FoldOne(c, p, e)
    ensures q.reaskHome <==> p.reaskHome || NobodysReceipt(c, e)
  {
    RepudiatedMeans(c, p.lastHead, e);
  }

  ghost predicate SomeNobodys(c: Call, es: seq<Entry>) { exists e :: e in es && NobodysReceipt(c, e) }

  lemma {:induction false} SomeNobodysOneMore(c: Call, es: seq<Entry>, e: Entry)
    ensures SomeNobodys(c, es + [e]) <==> SomeNobodys(c, es) || NobodysReceipt(c, e)
  {
    if NobodysReceipt(c, e) { assert e in es + [e]; }
    if x :| x in es && NobodysReceipt(c, x) { assert x in es + [e]; }
  }

  /** Over a whole log, the client asks again where the channel lives exactly where some receipt is nobody's. */
  lemma {:induction false} AsksAgainExactly(c: Call, log: seq<Entry>, n: nat)
    requires Proper(log) && n <= |log| && c.reader.keys != []
    ensures FoldRun(c, Start(EMPTY_DISK, []), log[..n]).reaskHome <==> SomeNobodys(c, log[..n])
    decreases n
  {
    if n > 0 {
      AsksAgainExactly(c, log, n - 1);
      LogToldExactly(c, log, n - 1, 0);
      var p, e := FoldRun(c, Start(EMPTY_DISK, []), log[..n - 1]), log[n - 1];
      NeitherMet(log, n - 1, p);
      OneMoreAsks(c, p, e, FoldOne(c, p, e));
      SomeNobodysOneMore(c, log[..n - 1], e);
      assert log[..n][..n - 1] == log[..n - 1] && log[..n - 1] + [e] == log[..n];
    }
  }

  // ---- from one head to the next --------------------------------------------------

  /** The place and the head of the last receipted entry of some. */
  function LastHead(log: seq<Entry>): Option<(nat, Hash)> {
    if log == [] then None
    else
      var e := log[|log| - 1];
      if e.stamp.Some? then Some((e.seq_, e.stamp.value.head)) else LastHead(log[..|log| - 1])
  }

  lemma {:induction false} HeadIsCarried(c: Call, log: seq<Entry>, n: nat)
    requires Proper(log) && n <= |log|
    ensures FoldRun(c, Start(EMPTY_DISK, []), log[..n]).lastHead == LastHead(log[..n])
    decreases n
  {
    if n > 0 {
      HeadIsCarried(c, log, n - 1);
      LogToldExactly(c, log, n - 1, 0);
      assert log[..n][..n - 1] == log[..n - 1];
      NeitherMet(log, n - 1, FoldRun(c, Start(EMPTY_DISK, []), log[..n - 1]));
    }
  }

  /** Served as it is kept, with or without some of it: each entry is the honest log's own, and numbers rise. */
  ghost predicate ServedFrom(key: PubKey, c: Call, log: seq<Entry>, first: Hash, served: seq<Entry>) {
    && c.reader.keys == [key] && HonestLog(key, c.reader.channel, c.reader.instance, log, first) && Proper(served)
    && (forall i :: 0 <= i < |served| ==> 1 <= served[i].seq_ <= |log| && served[i] == log[served[i].seq_ - 1])
    && (forall i, j :: 0 <= i < j < |served| ==> served[i].seq_ < served[j].seq_)
  }

  /** The head carried to the `n`th entry served is the honest log's own at the entry served before. */
  lemma {:induction false} HeadOfServed(
      key: PubKey, c: Call, log: seq<Entry>, first: Hash, served: seq<Entry>, n: nat)
    requires ServedFrom(key, c, log, first, served) && 0 < n < |served|
    ensures LastHead(served[..n]) == Some((served[n - 1].seq_, HeadBefore(log, served[n - 1].seq_, first)))
  {
    assert served[..n][n - 1] == served[n - 1];
    assert ReceiptedBy(key, c.reader.channel, c.reader.instance, log[served[n - 1].seq_ - 1]);
  }

  /**
   Of an honest log, served in order with or without some of its entries: one that comes right after another is
   vouched for, and one that does not is unlinked; none is ever said to diverge or be repudiated.
   */
  lemma {:induction false} HonestLogTold(
      key: PubKey, c: Call, log: seq<Entry>, first: Hash, served: seq<Entry>, n: nat)
    requires ServedFrom(key, c, log, first, served) && n < |served|
    ensures var p := FoldRun(c, Start(EMPTY_DISK, []), served[..n]);
      StandingOf(c, p.lastHead, served[n]) ==
        if n > 0 && served[n - 1].seq_ + 1 == served[n].seq_ then Vouched else Unlinked
  {
    HeadIsCarried(c, served, n);
    if n > 0 { HeadOfServed(key, c, log, first, served, n); }
    var e, held := served[n], HeldHead(LastHead(served[..n]), served[n]);
    HonestLogIsVouched(key, c.reader.channel, c.reader.instance, log, first, e.seq_ - 1, held);
  }
}
