/**
 SIP-34 receipts: what a reader can say about where the exchange put an entry, and
 what two readers who end at one head have both been shown.
 */
module Receipts {
  import opened Wrappers
  import opened ChainAgreement
  import opened LogEntries

  datatype Standing = Unclaimed | Vouched | Unlinked | Diverged | Repudiated

  function Advanced(head: Hash, entryHash: Hash): Hash { HeadHash(head, entryHash) }

  /** `standing_for`: one pinned key, and the head of the entry before where it is held. */
  function StandingFor(exchange: PubKey, channel: nat, instance: nat, e: Entry, held: Option<Hash>): Standing {
    if e.stamp.None? then Unclaimed
    else
      var stamp := e.stamp.value;
      var place := Place(exchange, instance, channel);
      var terms := ReceiptTerms(place, e.seq_, e.posted, stamp.entryHash, stamp.head);
      if stamp.receipt != ReceiptSignature(exchange, terms) then Repudiated
      else if e.kind.Member? && LinkHash(TermsOf(e, place, e.bodyHash)) != stamp.entryHash then Repudiated
      else if held.None? then Unlinked
      else if Advanced(held.value, stamp.entryHash) == stamp.head then Vouched
      else Diverged
  }

  /** `standing_under`: the first of `keys` that does not repudiate the receipt, or the last one's answer. */
  function StandingUnder(keys: seq<PubKey>, channel: nat, instance: nat, e: Entry, held: Option<Hash>): Standing {
    if keys == [] then Unclaimed
    else
      var first := StandingFor(keys[0], channel, instance, e, held);
      if first != Repudiated || |keys| == 1 then first
      else StandingUnder(keys[1..], channel, instance, e, held)
  }

  /** The loop `standing_under` is. */
  method StandingUnderKeys(keys: seq<PubKey>, channel: nat, instance: nat, e: Entry, held: Option<Hash>)
      returns (last: Standing)
    ensures last == StandingUnder(keys, channel, instance, e, held)
  {
    last := Unclaimed;
    var i := 0;
    while i < |keys|
      invariant 0 <= i <= |keys|
      invariant i == 0 ==> last == Unclaimed
      invariant i > 0 ==> last == Repudiated
      invariant i > 0 && i == |keys| ==> StandingUnder(keys, channel, instance, e, held) == Repudiated
      invariant i < |keys| ==>
        StandingUnder(keys, channel, instance, e, held) == StandingUnder(keys[i..], channel, instance, e, held)
    {
      last := StandingFor(keys[i], channel, instance, e, held);
      if last != Repudiated { return; }
      assert keys[i..][1..] == keys[i + 1..];
      i := i + 1;
    }
  }

  /** Keys added behind others matter exactly where those others all repudiate, or where there were none. */
  lemma {:induction false} MoreKeysOnlyReplaceRepudiated(
      keys: seq<PubKey>, more: seq<PubKey>, channel: nat, instance: nat, e: Entry, held: Option<Hash>)
    ensures StandingUnder(keys + more, channel, instance, e, held) ==
      if more == [] then StandingUnder(keys, channel, instance, e, held)
      else if keys == [] || StandingUnder(keys, channel, instance, e, held) == Repudiated
      then StandingUnder(more, channel, instance, e, held)
      else StandingUnder(keys, channel, instance, e, held)
    decreases |keys|
  {
    if keys == [] {
      assert keys + more == more;
    } else if more == [] {
      assert keys + more == keys;
    } else {
      assert (keys + more)[1..] == keys[1..] + more;
      MoreKeysOnlyReplaceRepudiated(keys[1..], more, channel, instance, e, held);
    }
  }

  /** A receipt is the word of one key: under any other it is repudiated, whatever is held. */
  lemma {:induction false} ReceiptNamesItsKey(
      k1: PubKey, k2: PubKey, channel: nat, instance: nat, e: Entry, h1: Option<Hash>, h2: Option<Hash>)
    requires StandingFor(k1, channel, instance, e, h1) in {Vouched, Unlinked, Diverged} && k2 != k1
    ensures StandingFor(k2, channel, instance, e, h2) == Repudiated
  {
  }

  /** The hash of the terms a member's entry was signed over, in the channel as `key` has it. */
  function HashUnder(key: PubKey, channel: nat, instance: nat, e: Entry): Hash {
    LinkHash(EntryTerms(Place(key, instance, channel), e.account, e.device, e.epoch, e.msgSeq,
      e.expiresAfter, e.chainSeq, e.prev, e.bodyHash))
  }

  /**
   `key` put its name to where the entry stands, when it was posted and the head it makes; and, of a member's
   entry, to the very terms it was signed over.
   */
  predicate ReceiptedBy(key: PubKey, channel: nat, instance: nat, e: Entry) {
    && e.stamp.Some?
    && e.stamp.value.receipt == ReceiptSignature(key,
         ReceiptTerms(Place(key, instance, channel), e.seq_, e.posted, e.stamp.value.entryHash, e.stamp.value.head))
    && (e.kind.Member? ==> e.stamp.value.entryHash == HashUnder(key, channel, instance, e))
  }

  /**
   What a standing says, of one key: no receipt at all; none of that key's; the key's, with nothing to check
   its head against; with a head that follows from the one held; or with one that does not.
   */
  lemma {:induction false} StandingMeans(key: PubKey, channel: nat, instance: nat, e: Entry, held: Option<Hash>)
    ensures var standing := StandingFor(key, channel, instance, e, held);
      var receipted := ReceiptedBy(key, channel, instance, e);
      && (standing == Unclaimed <==> e.stamp.None?)
      && (standing == Repudiated <==> e.stamp.Some? && !receipted)
      && (standing == Unlinked <==> receipted && held.None?)
      && (standing == Vouched <==>
            receipted && held.Some? && e.stamp.value.head == HeadHash(held.value, e.stamp.value.entryHash))
      && (standing == Diverged <==>
            receipted && held.Some? && e.stamp.value.head != HeadHash(held.value, e.stamp.value.entryHash))
  {
  }

  /** Under a list of keys an entry is repudiated exactly where it has a receipt, and none of theirs. */
  lemma {:induction false} StandingUnderMeans(
      keys: seq<PubKey>, channel: nat, instance: nat, e: Entry, held: Option<Hash>)
    ensures var standing := StandingUnder(keys, channel, instance, e, held);
      && (standing == Unclaimed <==> keys == [] || e.stamp.None?)
      && (standing == Repudiated <==>
            keys != [] && e.stamp.Some? && forall i :: 0 <= i < |keys| ==> !ReceiptedBy(keys[i], channel, instance, e))
      && (held.None? ==>
            (standing == Unlinked <==> exists i :: 0 <= i < |keys| && ReceiptedBy(keys[i], channel, instance, e)))
      && (held.None? ==> standing != Vouched && standing != Diverged)
    decreases |keys|
  {
    if keys != [] { StandingMeans(keys[0], channel, instance, e, held); }
    if |keys| > 1 {
      StandingUnderMeans(keys[1..], channel, instance, e, held);
      assert forall i :: 0 <= i < |keys| - 1 ==> keys[1..][i] == keys[i + 1];
      if i :| 0 <= i < |keys| && ReceiptedBy(keys[i], channel, instance, e) {
        if i > 0 { assert ReceiptedBy(keys[1..][i - 1], channel, instance, e); }
      }
    }
  }

  // ---- an honest exchange -------------------------------------------------------

  /** The log as the exchange keeps it: each entry at the next number, its head made from the one before, receipted. */
  ghost predicate HonestLog(key: PubKey, channel: nat, instance: nat, log: seq<Entry>, first: Hash) {
    forall i :: 0 <= i < |log| ==>
      && log[i].seq_ == i + 1 && ReceiptedBy(key, channel, instance, log[i])
      && log[i].stamp.value.head == HeadHash(HeadBefore(log, i, first), log[i].stamp.value.entryHash)
  }

  function HeadBefore(log: seq<Entry>, i: nat, first: Hash): Hash {
    if 0 < i <= |log| && log[i - 1].stamp.Some? then log[i - 1].stamp.value.head else first
  }

  /**
   Whatever a reader holds, an entry of an honest log is vouched for exactly where that is the head the log
   had there, diverges exactly where it is another, and is unlinked where it is nothing.
   */
  lemma {:induction false} HonestLogIsVouched(
      key: PubKey, channel: nat, instance: nat, log: seq<Entry>, first: Hash, i: nat, held: Option<Hash>)
    requires HonestLog(key, channel, instance, log, first) && i < |log|
    ensures StandingFor(key, channel, instance, log[i], held) ==
      if held.None? then Unlinked else if held.value == HeadBefore(log, i, first) then Vouched else Diverged
  {
    assert ReceiptedBy(key, channel, instance, log[i]);
    StandingMeans(key, channel, instance, log[i], held);
  }

  // ---- two readers ---------------------------------------------------------

  /**
   A run as `fold_entries` reads it: consecutive entries, each after the first
   checked against the head of the one before and found `Vouched` under `key`.
   */
  ghost predicate LinkedRun(key: PubKey, channel: nat, instance: nat, es: seq<Entry>) {
    && es != [] && es[0].stamp.Some?
    && forall i :: 0 < i < |es| ==> VouchedAt(key, channel, instance, es, i)
  }

  predicate VouchedAt(key: PubKey, channel: nat, instance: nat, es: seq<Entry>, i: nat)
    requires 0 < i < |es|
  {
    && es[i].seq_ == es[i - 1].seq_ + 1
    && es[i].stamp.Some? && es[i - 1].stamp.Some?
    && StandingFor(key, channel, instance, es[i], Some(es[i - 1].stamp.value.head)) == Vouched
  }

  function HeadFrom(es: seq<Entry>, k: nat): Hash
    requires k < |es| && es[|es| - 1 - k].stamp.Some?
  {
    es[|es| - 1 - k].stamp.value.head
  }

  lemma {:induction false} RunIsStamped(key: PubKey, channel: nat, instance: nat, es: seq<Entry>, i: nat)
    requires LinkedRun(key, channel, instance, es) && i < |es|
    ensures es[i].stamp.Some?
  {
    if i > 0 { assert VouchedAt(key, channel, instance, es, i); }
  }

  lemma {:induction false} RunIsConsecutive(key: PubKey, channel: nat, instance: nat, es: seq<Entry>, i: nat)
    requires LinkedRun(key, channel, instance, es) && i < |es|
    ensures es[i].seq_ == es[0].seq_ + i
    decreases i
  {
    if i > 0 {
      RunIsConsecutive(key, channel, instance, es, i - 1);
      assert VouchedAt(key, channel, instance, es, i);
    }
  }

  /** Counting back from the shared head: equal heads all the way, down to the shorter run's first entry. */
  lemma {:induction false} HeadsAgreeBackwards(
      key: PubKey, channel: nat, instance: nat, a: seq<Entry>, b: seq<Entry>, k: nat)
    requires LinkedRun(key, channel, instance, a) && LinkedRun(key, channel, instance, b)
    requires a[|a| - 1].stamp.Some? && b[|b| - 1].stamp.Some?
    requires a[|a| - 1].stamp.value.head == b[|b| - 1].stamp.value.head
    requires k < |a| && k < |b|
    ensures a[|a| - 1 - k].stamp.Some? && b[|b| - 1 - k].stamp.Some?
    ensures HeadFrom(a, k) == HeadFrom(b, k)
    decreases k
  {
    RunIsStamped(key, channel, instance, a, |a| - 1 - k);
    RunIsStamped(key, channel, instance, b, |b| - 1 - k);
    if k > 0 {
      HeadsAgreeBackwards(key, channel, instance, a, b, k - 1);
      var i, j := |a| - k, |b| - k;
      assert VouchedAt(key, channel, instance, a, i);
      assert VouchedAt(key, channel, instance, b, j);
    }
  }

  /** What a receipt fixes about a member's entry: everything it signed, with the body by the hash served. */
  predicate SameSignedTerms(e: Entry, f: Entry) {
    && e.account == f.account && e.device == f.device && e.epoch == f.epoch && e.msgSeq == f.msgSeq
    && e.expiresAfter == f.expiresAfter && e.chainSeq == f.chainSeq && e.prev == f.prev && e.bodyHash == f.bodyHash
  }

  /**
   Two readers whose runs are vouched under one key and stand at one head at one
   position were shown the same log: at every position linked in both, the same
   entry hash and the same head, and where both were shown a member's entry, the
   same signed terms.
   */
  lemma {:induction false} SameHeadSameLog(
      key: PubKey, channel: nat, instance: nat, a: seq<Entry>, b: seq<Entry>, i: nat, j: nat)
    requires LinkedRun(key, channel, instance, a) && LinkedRun(key, channel, instance, b)
    requires a[|a| - 1].stamp.Some? && b[|b| - 1].stamp.Some?
    requires a[|a| - 1].seq_ == b[|b| - 1].seq_ && a[|a| - 1].stamp.value.head == b[|b| - 1].stamp.value.head
    requires 0 < i < |a| && 0 < j < |b| && a[i].seq_ == b[j].seq_
    ensures a[i].stamp.Some? && b[j].stamp.Some?
    ensures a[i].stamp.value.entryHash == b[j].stamp.value.entryHash
    ensures a[i].stamp.value.head == b[j].stamp.value.head
    ensures a[i].kind.Member? && b[j].kind.Member? ==> SameSignedTerms(a[i], b[j])
    ensures
      && a[i].kind.Member? && b[j].kind.Member?
      && a[i].bodyHash == BodyHash(a[i].body) && b[j].bodyHash == BodyHash(b[j].body)
      ==> a[i].body == b[j].body
  {
    RunIsConsecutive(key, channel, instance, a, i);
    RunIsConsecutive(key, channel, instance, b, j);
    RunIsConsecutive(key, channel, instance, a, |a| - 1);
    RunIsConsecutive(key, channel, instance, b, |b| - 1);
    HeadsAgreeBackwards(key, channel, instance, a, b, |a| - 1 - i);
    assert VouchedAt(key, channel, instance, a, i);
    assert VouchedAt(key, channel, instance, b, j);
  }

  /** How many entries a head was made over, as far as it says. */
  function Depth(h: Hash): nat { if h.HeadHash? then 1 + Depth(h.prevHead) else 0 }

  /** Each entry of a run makes its head one deeper. */
  lemma {:induction false} DepthRises(key: PubKey, channel: nat, instance: nat, es: seq<Entry>, i: nat)
    requires LinkedRun(key, channel, instance, es) && i < |es|
    ensures es[i].stamp.Some? && Depth(es[i].stamp.value.head) == Depth(es[0].stamp.value.head) + i
    decreases i
  {
    if i > 0 {
      DepthRises(key, channel, instance, es, i - 1);
      assert VouchedAt(key, channel, instance, es, i);
    }
  }

  /**
   Two vouched runs that end at one head were shown one log exactly where they end at one
   position: at any number both hold, first entries included, their heads agree if and only if that is so.
   */
  lemma {:induction false} SameLogExactly(
      key: PubKey, channel: nat, instance: nat, a: seq<Entry>, b: seq<Entry>, i: nat, j: nat)
    requires LinkedRun(key, channel, instance, a) && LinkedRun(key, channel, instance, b)
    requires a[|a| - 1].stamp.Some? && b[|b| - 1].stamp.Some?
    requires a[|a| - 1].stamp.value.head == b[|b| - 1].stamp.value.head
    requires i < |a| && j < |b| && a[i].seq_ == b[j].seq_
    ensures a[i].stamp.Some? && b[j].stamp.Some?
    ensures a[i].stamp.value.head == b[j].stamp.value.head <==> a[|a| - 1].seq_ == b[|b| - 1].seq_
  {
    DepthRises(key, channel, instance, a, i);
    DepthRises(key, channel, instance, b, j);
    DepthRises(key, channel, instance, a, |a| - 1);
    DepthRises(key, channel, instance, b, |b| - 1);
    RunIsConsecutive(key, channel, instance, a, i);
    RunIsConsecutive(key, channel, instance, b, j);
    RunIsConsecutive(key, channel, instance, a, |a| - 1);
    RunIsConsecutive(key, channel, instance, b, |b| - 1);
    if a[|a| - 1].seq_ == b[|b| - 1].seq_ {
      HeadsAgreeBackwards(key, channel, instance, a, b, |a| - 1 - i);
    }
  }

  /** One entry, receipted by `key` on top of `prev`. */
  function Receipted(key: PubKey, channel: nat, instance: nat, e: Entry, prev: Hash): (r: Entry)
    requires e.kind.Member?
    ensures StandingFor(key, channel, instance, r, Some(prev)) == Vouched
  {
    var place := Place(key, instance, channel);
    var hash := LinkHash(TermsOf(e, place, e.bodyHash));
    var head := Advanced(prev, hash);
    e.(stamp := Some(Stamp(hash, head, ReceiptSignature(key, ReceiptTerms(place, e.seq_, e.posted, hash, head)))))
  }

  /**
   The position belongs in the statement. An exchange that numbers the same entries
   one apart for two readers leaves them at one head with different entries at one number.
   */
  lemma {:induction false} HeadAloneIsNotEnough(key: PubKey, channel: nat, instance: nat, e: Entry)
    requires e.kind.Member?
    ensures exists a: seq<Entry>, b: seq<Entry> ::
      && |a| == |b| == 3 && LinkedRun(key, channel, instance, a) && LinkedRun(key, channel, instance, b)
      && a[2].stamp.Some? && b[1].stamp.Some? && b[2].stamp.Some?
      && a[2].stamp.value.head == b[2].stamp.value.head
      && a[2].seq_ == b[1].seq_ && a[2].stamp.value.entryHash != b[1].stamp.value.entryHash
  {
    var first, second := e.(bodyHash := OtherHash(1)), e.(bodyHash := OtherHash(2));
    var third := e.(bodyHash := OtherHash(3));
    var a0 := Receipted(key, channel, instance, first.(seq_ := 1), GenesisHash);
    var a1 := Receipted(key, channel, instance, second.(seq_ := 2), a0.stamp.value.head);
    var a2 := Receipted(key, channel, instance, third.(seq_ := 3), a1.stamp.value.head);
    var b0 := Receipted(key, channel, instance, first.(seq_ := 2), GenesisHash);
    var b1 := Receipted(key, channel, instance, second.(seq_ := 3), b0.stamp.value.head);
    var b2 := Receipted(key, channel, instance, third.(seq_ := 4), b1.stamp.value.head);
    var a, b := [a0, a1, a2], [b0, b1, b2];
    assert VouchedAt(key, channel, instance, a, 1) && VouchedAt(key, channel, instance, a, 2);
    assert VouchedAt(key, channel, instance, b, 1) && VouchedAt(key, channel, instance, b, 2);
    assert a[2].seq_ == b[1].seq_;
  }
}
