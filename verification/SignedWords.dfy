/**
 What a verdict says: whose signature stands behind an entry, over which words, and whose account it is.
 */
module SignedWords {
  import opened Wrappers
  import opened ChainAgreement
  import opened LogEntries

  /** The hash a signature must be over: of the body served, or of a tombstone's the one it left behind. */
  function HashToSign(e: Entry): Hash {
    if e.body == Nothing && e.bodyHash != BodyHash(Nothing) then e.bodyHash else BodyHash(e.body)
  }

  /** The device put its name to the entry, as served, at the place `key` has the channel. */
  predicate DeviceSigned(rd: Reader, e: Entry, key: PubKey) {
    e.sig == EntrySignature(e.device,
      EntryTerms(Place(key, rd.instance, rd.channel), e.account, e.device, e.epoch, e.msgSeq,
        e.expiresAfter, e.chainSeq, e.prev, HashToSign(e)))
  }

  /** The device is bound to another account than the entry names. */
  predicate BoundElsewhere(rd: Reader, e: Entry) {
    e.device != e.account && e.device in rd.bound && rd.bound[e.device].Some? && rd.bound[e.device].value != e.account
  }

  /** The device is the account's own, by name or by a credential verified. */
  predicate BoundHere(rd: Reader, e: Entry) {
    e.device == e.account || (e.device in rd.bound && rd.bound[e.device] == Some(e.account))
  }

  /**
   A member's entry is not `Forged` exactly where its device signed it, as it was served, under one of the
   keys, and is not known to be another account's; and it is attributed exactly where the device is this account's.
   */
  lemma {:induction false} VerdictMeans(rd: Reader, marks: Marks, e: Entry)
    requires e.kind.Member?
    ensures var verdict := VerdictFor(rd, marks, e).verdict;
      && (verdict != Forged <==> !BoundElsewhere(rd, e) && exists key :: key in rd.keys && DeviceSigned(rd, e, key))
      && (verdict != Forged && verdict != Unattributed <==>
            BoundHere(rd, e) && exists key :: key in rd.keys && DeviceSigned(rd, e, key))
  {
    SignedSomewhere(rd, e);
  }

  lemma {:induction false} SignedSomewhere(rd: Reader, e: Entry)
    ensures SigningKey(rd, e, 0).Some? <==> exists key :: key in rd.keys && DeviceSigned(rd, e, key)
  {
    var first := SigningKey(rd, e, 0);
    if first.Some? { assert DeviceSigned(rd, e, first.value); }
    if key :| key in rd.keys && DeviceSigned(rd, e, key) {
      var i :| 0 <= i < |rd.keys| && rd.keys[i] == key;
      assert SignedUnder(rd, e, rd.keys[i]);
    }
  }

  /** What the exchange writes itself is taken on its word. */
  lemma {:induction false} ExchangesOwn(rd: Reader, marks: Marks, e: Entry)
    requires e.kind.System?
    ensures VerdictFor(rd, marks, e) == Judged(Valid, marks)
  {
  }

  /** One signature stands behind one entry: wherever it is accepted, it is over the same words and the same terms. */
  lemma {:induction false} OneSignatureOneEntry(
      rd1: Reader, marks1: Marks, e1: Entry, rd2: Reader, marks2: Marks, e2: Entry)
    requires e1.kind.Member? && e2.kind.Member? && e1.sig == e2.sig
    requires VerdictFor(rd1, marks1, e1).verdict != Forged && VerdictFor(rd2, marks2, e2).verdict != Forged
    ensures e1.account == e2.account && e1.device == e2.device && e1.epoch == e2.epoch && e1.msgSeq == e2.msgSeq
    ensures e1.expiresAfter == e2.expiresAfter && e1.chainSeq == e2.chainSeq && e1.prev == e2.prev
    ensures rd1.channel == rd2.channel && rd1.instance == rd2.instance
    ensures e1.body != Nothing && e2.body != Nothing ==> e1.body == e2.body
    ensures e1.body != Nothing && e2.body == Nothing ==> e2.bodyHash == BodyHash(e1.body)
  {
    VerdictMeans(rd1, marks1, e1);
    VerdictMeans(rd2, marks2, e2);
    var k1 :| k1 in rd1.keys && DeviceSigned(rd1, e1, k1);
    var k2 :| k2 in rd2.keys && DeviceSigned(rd2, e2, k2);
    assert HashToSign(e1) == HashToSign(e2);
  }

  // ---- the chain of a device -----------------------------------------------------

  /** The mark a device's chain stands at, in words: no entry yet, or the next position and the link into it. */
  lemma {:induction false} ChainVerdictMeans(rd: Reader, marks: Marks, e: Entry)
    requires e.kind.Member? && BoundHere(rd, e) && exists key :: key in rd.keys && DeviceSigned(rd, e, key)
    ensures var j, d := VerdictFor(rd, marks, e), e.device;
      && (j.verdict == Valid <==> d !in marks || (e.chainSeq == marks[d].next && e.prev == marks[d].head))
      && (j.verdict == Gap <==> d in marks && e.chainSeq > marks[d].next)
      && (j.verdict == Fork <==>
            d in marks && (e.chainSeq < marks[d].next || (e.chainSeq == marks[d].next && e.prev != marks[d].head)))
      && (d in marks && e.chainSeq < marks[d].next ==> j.marks == marks)
      && (!(d in marks && e.chainSeq < marks[d].next) ==> d in j.marks && j.marks[d].next == e.chainSeq + 1)
  {
    SignedSomewhere(rd, e);
  }

  /** The terms an entry's signature is over. */
  function Signed(e: Entry): EntryTerms
    requires e.sig.EntrySignature?
  {
    e.sig.terms
  }

  /**
   The link a reader takes into the next position is the hash of what was signed if and only if the hash
   served beside the body is the body's own.
   */
  lemma {:induction false} LinkIsSignedExactly(rd: Reader, marks: Marks, e: Entry)
    requires e.kind.Member? && e.device !in marks && VerdictFor(rd, marks, e).verdict == Valid
    ensures e.sig.EntrySignature? && e.device in VerdictFor(rd, marks, e).marks
    ensures VerdictFor(rd, marks, e).marks[e.device].head == LinkHash(Signed(e)) <==>
      e.body == Nothing || e.bodyHash == BodyHash(e.body)
  {
    SignedSomewhere(rd, e);
    var key := SigningKey(rd, e, 0).value;
    assert DeviceSigned(rd, e, key);
  }

  /**
   The verdict looks at the body served and links by the hash served. With that hash altered an entry is
   still `Valid`, and the honest entry after it is then a `Fork`: evidence against a device that did nothing.
   */
  lemma {:induction false} AlteredHashAccuses(rd: Reader, a: Entry, b: Entry, other: Hash)
    requires a.kind.Member? && b.kind.Member? && a.body != Nothing && a.device == b.device
    requires a.bodyHash == BodyHash(a.body) && other != a.bodyHash
    requires VerdictAt(rd, [a, b], 0) == Valid && VerdictAt(rd, [a, b], 1) == Valid
    ensures var a' := a.(bodyHash := other);
      VerdictAt(rd, [a', b], 0) == Valid && VerdictAt(rd, [a', b], 1) == Fork
  {
    var a' := a.(bodyHash := other);
    var none: Marks := map[];
    assert [a, b][..0] == [] && [a', b][..0] == [];
    assert [a, b][..1] == [a] && [a', b][..1] == [a'] && [a][..0] == [] && [a'][..0] == [];
    assert MarksAfter(rd, [a]) == VerdictFor(rd, none, a).marks;
    assert MarksAfter(rd, [a']) == VerdictFor(rd, none, a').marks;
    VerdictMeans(rd, none, a);
    VerdictMeans(rd, none, a');
    assert forall key :: DeviceSigned(rd, a', key) <==> DeviceSigned(rd, a, key);
    LinkIsSignedExactly(rd, none, a);
    LinkIsSignedExactly(rd, none, a');
    VerdictMeans(rd, MarksAfter(rd, [a]), b);
    VerdictMeans(rd, MarksAfter(rd, [a']), b);
    ChainVerdictMeans(rd, MarksAfter(rd, [a]), b);
    ChainVerdictMeans(rd, MarksAfter(rd, [a']), b);
    ChainVerdictMeans(rd, none, a);
    ChainVerdictMeans(rd, none, a');
  }
}
