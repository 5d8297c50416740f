/**
 A channel's log entries as an exchange serves them, and SIP-31's verdict on each.

 Hashes are free terms, and a signature is a term naming its key and what it was
 made over, so it verifies for exactly those.
 */
module LogEntries {
  import opened Wrappers
  import opened ChainAgreement

  datatype Place = Place(exchange: PubKey, instance: nat, channel: nat)

  datatype Hash =
    | GenesisHash
    | BodyHash(body: Body)
    | LinkHash(terms: EntryTerms)
    | HeadHash(prevHead: Hash, entryHash: Hash)
    | OtherHash(n: nat)

  /** What an entry's bytes are: nothing, something in the clear, a signed commit, or a sealed body. */
  datatype Body =
    | Nothing
    | Words(n: nat)
    | Redaction(target: nat)
    | CommitBody(commit: Commit, signer: PubKey)
    | SealedBody(key: Bytes32, epoch: nat, device: PubKey, counter: nat, plain: Body)

  /** Everything an entry signature commits to; the body by its hash. */
  datatype EntryTerms = EntryTerms(
    place: Place, account: PubKey, device: PubKey, epoch: nat, msgSeq: nat,
    expiresAfter: nat, chainSeq: nat, prev: Hash, bodyHash: Hash)

  datatype ReceiptTerms = ReceiptTerms(place: Place, seq_: nat, posted: nat, entryHash: Hash, head: Hash)

  datatype Signature =
    | EntrySignature(key: PubKey, terms: EntryTerms)
    | ReceiptSignature(key: PubKey, receipt: ReceiptTerms)
    | OtherSignature(n: nat)

  datatype Stamp = Stamp(entryHash: Hash, head: Hash, receipt: Signature)

  datatype Kind = Member | System

  datatype Entry = Entry(
    seq_: nat, kind: Kind, account: PubKey, device: PubKey, posted: nat, expiresAfter: nat,
    epoch: nat, msgSeq: nat, chainSeq: nat, prev: Hash, body: Body, bodyHash: Hash,
    sig: Signature, stamp: Option<Stamp>)

  /** The terms an entry claims at `place`, over a given body hash. */
  function TermsOf(e: Entry, place: Place, bodyHash: Hash): EntryTerms {
    EntryTerms(place, e.account, e.device, e.epoch, e.msgSeq, e.expiresAfter, e.chainSeq, e.prev, bodyHash)
  }

  function VerifyEntry(t: EntryTerms, s: Signature): bool { s == EntrySignature(t.device, t) }

  /** What a reader checks entries against: the exchange's keys, newest first, and verified device bindings. */
  datatype Reader = Reader(
    keys: seq<PubKey>, channel: nat, instance: nat, bound: map<PubKey, Option<PubKey>>)

  /** Does the entry verify under this exchange key? A tombstone is checked by the hash it left behind. */
  predicate SignedUnder(rd: Reader, e: Entry, key: PubKey) {
    var place := Place(key, rd.instance, rd.channel);
    if e.body == Nothing && e.bodyHash != BodyHash(Nothing)
    then VerifyEntry(TermsOf(e, place, e.bodyHash), e.sig)
    else VerifyEntry(TermsOf(e, place, BodyHash(e.body)), e.sig)
  }

  /** The first of `keys[from..]` the entry verifies under. */
  function SigningKey(rd: Reader, e: Entry, from: nat): (r: Option<PubKey>)
    requires from <= |rd.keys|
    ensures r.Some? ==> r.value in rd.keys && SignedUnder(rd, e, r.value)
    ensures r.None? ==> forall i :: from <= i < |rd.keys| ==> !SignedUnder(rd, e, rd.keys[i])
    decreases |rd.keys| - from
  {
    if from == |rd.keys| then None
    else if SignedUnder(rd, e, rd.keys[from]) then Some(rd.keys[from])
    else SigningKey(rd, e, from + 1)
  }

  /** What the two checks say of an entry before its chain is looked at. */
  datatype Checked = ByExchange | NotSigned | NotBound | Verified(link: Hash)

  function Check(rd: Reader, e: Entry): Checked {
    if e.kind.System? then ByExchange
    else match SigningKey(rd, e, 0)
      case None => NotSigned
      case Some(key) =>
        var link := LinkHash(TermsOf(e, Place(key, rd.instance, rd.channel), e.bodyHash));
        if e.device == e.account then Verified(link)
        else if e.device !in rd.bound || rd.bound[e.device].None? then NotBound
        else if rd.bound[e.device].value != e.account then NotSigned
        else Verified(link)
  }

  datatype Verdict = Valid | Forged | Gap | Fork | Unattributed

  /** Where a device's chain is expected next: the position, and the link into it. */
  datatype ChainMark = ChainMark(next: nat, head: Hash)
  type Marks = map<PubKey, ChainMark>

  /** The verdict on a verified entry whose device stands at `at`, and whether the mark moves. */
  function Judge(at: Option<ChainMark>, chainSeq: nat, prev: Hash): (Verdict, bool) {
    match at
    case None => (Valid, true)
    case Some(m) =>
      if chainSeq == m.next && prev == m.head then (Valid, true)
      else if chainSeq <= m.next then (Fork, chainSeq == m.next)
      else (Gap, true)
  }

  function MarkOf(marks: Marks, d: PubKey): Option<ChainMark> {
    if d in marks then Some(marks[d]) else None
  }

  datatype Judged = Judged(verdict: Verdict, marks: Marks)

  /** `verdict_for`, with the chain map it leaves. */
  function VerdictFor(rd: Reader, marks: Marks, e: Entry): Judged {
    match Check(rd, e)
    case ByExchange => Judged(Valid, marks)
    case NotSigned => Judged(Forged, marks)
    case NotBound => Judged(Unattributed, marks)
    case Verified(link) =>
      var (v, moves) := Judge(MarkOf(marks, e.device), e.chainSeq, e.prev);
      Judged(v, if moves then marks[e.device := ChainMark(e.chainSeq + 1, link)] else marks)
  }

  /** The chain map `verdict_for` is handed and updates in place. */
  class ChainBook {
    var marks: Marks

    constructor ()
      ensures marks == map[]
    {
      marks := map[];
    }

    method Rule(rd: Reader, e: Entry) returns (v: Verdict)
      modifies this
      ensures Judged(v, marks) == VerdictFor(rd, old(marks), e)
    {
      if e.kind.System? { return Valid; }
      var key: Option<PubKey> := None;
      var i := 0;
      while i < |rd.keys| && key.None?
        invariant 0 <= i <= |rd.keys|
        invariant key.None? ==> SigningKey(rd, e, 0) == SigningKey(rd, e, i)
        invariant key.Some? ==> SigningKey(rd, e, 0) == key
        decreases |rd.keys| - i, key.None?
      {
        if SignedUnder(rd, e, rd.keys[i]) { key := Some(rd.keys[i]); }
        i := i + 1;
      }
      if key.None? { return Forged; }
      if e.device != e.account {
        if e.device !in rd.bound || rd.bound[e.device].None? { return Unattributed; }
        if rd.bound[e.device].value != e.account { return Forged; }
      }
      var link := LinkHash(TermsOf(e, Place(key.value, rd.instance, rd.channel), e.bodyHash));
      if e.device in marks {
        var m := marks[e.device];
        if e.chainSeq == m.next && e.prev == m.head {
          marks := marks[e.device := ChainMark(e.chainSeq + 1, link)];
          return Valid;
        } else if e.chainSeq <= m.next {
          if e.chainSeq == m.next { marks := marks[e.device := ChainMark(e.chainSeq + 1, link)]; }
          return Fork;
        } else {
          marks := marks[e.device := ChainMark(e.chainSeq + 1, link)];
          return Gap;
        }
      }
      marks := marks[e.device := ChainMark(e.chainSeq + 1, link)];
      return Valid;
    }
  }

  // ---- verdicts over a stream --------------------------------------------

  function MarksAfter(rd: Reader, es: seq<Entry>): Marks {
    if es == [] then map[] else VerdictFor(rd, MarksAfter(rd, es[..|es| - 1]), es[|es| - 1]).marks
  }

  /** The verdict `es[i]` gets where the whole of `es` is read from its start. */
  function VerdictAt(rd: Reader, es: seq<Entry>, i: nat): Verdict
    requires i < |es|
  {
    VerdictFor(rd, MarksAfter(rd, es[..i]), es[i]).verdict
  }

  predicate IsVerified(rd: Reader, e: Entry) { Check(rd, e).Verified? }

  /** One entry can only raise one mark, and only if it is verified; a forged or unattributed one touches none. */
  lemma {:induction false} OneEntryRaises(rd: Reader, marks: Marks, e: Entry)
    ensures var j := VerdictFor(rd, marks, e);
      && (!IsVerified(rd, e) ==> j.marks == marks)
      && (j.verdict in {Forged, Unattributed} ==> j.marks == marks && !IsVerified(rd, e))
      && (forall d :: d in marks ==> d in j.marks && marks[d].next <= j.marks[d].next)
      && (forall d :: d != e.device ==> MarkOf(j.marks, d) == MarkOf(marks, d))
      && (IsVerified(rd, e) ==> e.device in j.marks && e.chainSeq < j.marks[e.device].next)
  {
  }

  /** Over any stream, a device's mark never goes down, and stands above every verified entry of its own so far. */
  lemma {:induction false} MarksNeverFall(rd: Reader, es: seq<Entry>, n: nat)
    requires n <= |es|
    ensures forall d :: d in MarksAfter(rd, es[..n]) ==>
      d in MarksAfter(rd, es) && MarksAfter(rd, es[..n])[d].next <= MarksAfter(rd, es)[d].next
    ensures forall i :: 0 <= i < |es| && IsVerified(rd, es[i]) ==>
      es[i].device in MarksAfter(rd, es) && es[i].chainSeq < MarksAfter(rd, es)[es[i].device].next
    decreases |es|
  {
    if es == [] {
    } else {
      var init, last := es[..|es| - 1], es[|es| - 1];
      OneEntryRaises(rd, MarksAfter(rd, init), last);
      if n == |es| {
        assert es[..n] == es;
        MarksNeverFall(rd, init, |init|);
      } else {
        assert init[..n] == es[..n];
        MarksNeverFall(rd, init, n);
      }
      forall i | 0 <= i < |es| && IsVerified(rd, es[i])
        ensures es[i].device in MarksAfter(rd, es) && es[i].chainSeq < MarksAfter(rd, es)[es[i].device].next
      {
        if i < |init| { assert init[i] == es[i]; }
      }
    }
  }

  /** The verified entries of one device, in stream order. */
  function Of(rd: Reader, es: seq<Entry>, d: PubKey): (mine: seq<Entry>)
    ensures forall i :: 0 <= i < |mine| ==> IsVerified(rd, mine[i]) && mine[i].device == d
  {
    if es == [] then []
    else
      var init, last := Of(rd, es[..|es| - 1], d), es[|es| - 1];
      if IsVerified(rd, last) && last.device == d then init + [last] else init
  }

  /** Other devices' entries, and unverified ones, make no difference to a device's mark. */
  lemma {:induction false} MarkFromOwn(rd: Reader, es: seq<Entry>, d: PubKey)
    ensures MarkOf(MarksAfter(rd, es), d) == MarkOf(MarksAfter(rd, Of(rd, es, d)), d)
    decreases |es|
  {
    if es != [] {
      var init, last := es[..|es| - 1], es[|es| - 1];
      MarkFromOwn(rd, init, d);
      OneEntryRaises(rd, MarksAfter(rd, init), last);
      if IsVerified(rd, last) && last.device == d {
        var mine := Of(rd, es, d);
        assert mine[..|mine| - 1] == Of(rd, init, d);
      }
    }
  }

  /** The link the reader computes over a verified entry. */
  function LinkOf(rd: Reader, e: Entry): Hash
    requires IsVerified(rd, e)
  {
    Check(rd, e).link
  }

  /** One device's entries, each one position above the last and linked to it. */
  ghost predicate Consecutive(rd: Reader, mine: seq<Entry>)
    requires forall i :: 0 <= i < |mine| ==> IsVerified(rd, mine[i])
  {
    forall i :: 0 < i < |mine| ==>
      mine[i].chainSeq == mine[i - 1].chainSeq + 1 && mine[i].prev == LinkOf(rd, mine[i - 1])
  }

  ghost predicate AllValid(rd: Reader, es: seq<Entry>, d: PubKey) {
    forall i :: 0 <= i < |es| && IsVerified(rd, es[i]) && es[i].device == d ==> VerdictAt(rd, es, i) == Valid
  }

  lemma {:induction false} AllValidSplits(rd: Reader, es: seq<Entry>, d: PubKey)
    requires es != []
    ensures AllValid(rd, es, d) <==>
      && AllValid(rd, es[..|es| - 1], d)
      && (IsVerified(rd, es[|es| - 1]) && es[|es| - 1].device == d ==> VerdictAt(rd, es, |es| - 1) == Valid)
  {
    var init := es[..|es| - 1];
    assert forall i :: 0 <= i < |init| ==> init[..i] == es[..i] && init[i] == es[i];
    if AllValid(rd, es, d) {
      forall i | 0 <= i < |init| && IsVerified(rd, init[i]) && init[i].device == d
        ensures VerdictAt(rd, init, i) == Valid
      {
        assert VerdictAt(rd, es, i) == Valid;
      }
    }
    if AllValid(rd, init, d) {
      forall i | 0 <= i < |init| && IsVerified(rd, es[i]) && es[i].device == d
        ensures VerdictAt(rd, es, i) == Valid
      {
        assert VerdictAt(rd, init, i) == Valid;
      }
    }
  }

  /** Where everything so far was consecutive, the mark is the last entry's. */
  lemma {:induction false} MarkOfConsecutive(rd: Reader, mine: seq<Entry>, d: PubKey)
    requires mine != [] && forall i :: 0 <= i < |mine| ==> IsVerified(rd, mine[i]) && mine[i].device == d
    requires Consecutive(rd, mine)
    ensures var last := mine[|mine| - 1];
      MarkOf(MarksAfter(rd, mine), d) == Some(ChainMark(last.chainSeq + 1, LinkOf(rd, last)))
    decreases |mine|
  {
    var init := mine[..|mine| - 1];
    if init != [] {
      MarkOfConsecutive(rd, init, d);
      var n := |mine| - 1;
      assert mine[n].chainSeq == mine[n - 1].chainSeq + 1;
    }
  }

  /**
   In any stream, among any other devices' entries, a device's verified entries are
   all `Valid` exactly when they are one consecutive linked chain.
   */
  lemma {:induction false} ValidIsConsecutive(rd: Reader, es: seq<Entry>, d: PubKey)
    ensures AllValid(rd, es, d) <==> Consecutive(rd, Of(rd, es, d))
    decreases |es|
  {
    if es != [] {
      var init, last := es[..|es| - 1], es[|es| - 1];
      ValidIsConsecutive(rd, init, d);
      AllValidSplits(rd, es, d);
      if IsVerified(rd, last) && last.device == d {
        LastValid(rd, es, d);
      }
    }
  }

  /** The last entry of a device that was consecutive so far is `Valid` just when it continues the chain. */
  lemma {:induction false} LastValid(rd: Reader, es: seq<Entry>, d: PubKey)
    requires es != [] && IsVerified(rd, es[|es| - 1]) && es[|es| - 1].device == d
    ensures Consecutive(rd, Of(rd, es, d)) <==>
      Consecutive(rd, Of(rd, es[..|es| - 1], d)) && VerdictAt(rd, es, |es| - 1) == Valid
  {
    var init, before, last := es[..|es| - 1], Of(rd, es[..|es| - 1], d), es[|es| - 1];
    assert before + [last] == Of(rd, es, d);
    if Consecutive(rd, before + [last]) { ConsecutiveBefore(rd, before, last); }
    MarkFromOwn(rd, init, d);
    if Consecutive(rd, before) { ExtendConsecutive(rd, before, last, d); }
  }

  lemma {:induction false} ConsecutiveBefore(rd: Reader, before: seq<Entry>, last: Entry)
    requires forall i :: 0 <= i < |before| ==> IsVerified(rd, before[i])
    requires IsVerified(rd, last) && Consecutive(rd, before + [last])
    ensures Consecutive(rd, before)
  {
    var mine := before + [last];
    forall i | 0 < i < |before|
      ensures before[i].chainSeq == before[i - 1].chainSeq + 1 && before[i].prev == LinkOf(rd, before[i - 1])
    {
      assert mine[i] == before[i] && mine[i - 1] == before[i - 1];
    }
  }

  lemma {:induction false} ExtendConsecutive(rd: Reader, before: seq<Entry>, last: Entry, d: PubKey)
    requires forall i :: 0 <= i < |before| ==> IsVerified(rd, before[i]) && before[i].device == d
    requires IsVerified(rd, last) && last.device == d && Consecutive(rd, before)
    ensures Consecutive(rd, before + [last]) <==>
      Judge(MarkOf(MarksAfter(rd, before), d), last.chainSeq, last.prev).0 == Valid
  {
    ConsecutiveAfter(rd, before, last);
    if before != [] { MarkOfConsecutive(rd, before, d); }
  }

  lemma {:induction false} ConsecutiveAfter(rd: Reader, before: seq<Entry>, last: Entry)
    requires forall i :: 0 <= i < |before| ==> IsVerified(rd, before[i])
    requires IsVerified(rd, last) && Consecutive(rd, before)
    ensures Consecutive(rd, before + [last]) <==>
      before == [] || var top := before[|before| - 1]; last.chainSeq == top.chainSeq + 1 && last.prev == LinkOf(rd, top)
  {
    var mine, n := before + [last], |before|;
    if n > 0 {
      assert mine[n] == last && mine[n - 1] == before[n - 1];
      assert Consecutive(rd, mine) ==> mine[n].chainSeq == mine[n - 1].chainSeq + 1;
    }
  }

  // ---- replays -------------------------------------------------------------

  /** A stream with some entries marked as put in. */
  datatype Served = Served(entry: Entry, again: bool)

  function AsRead(served: seq<Served>): (es: seq<Entry>)
    ensures |es| == |served| && forall i :: 0 <= i < |es| ==> es[i] == served[i].entry
  {
    seq(|served|, i requires 0 <= i < |served| => served[i].entry)
  }

  function Once(served: seq<Served>): seq<Entry> {
    if served == [] then []
    else
      var init, last := Once(served[..|served| - 1]), served[|served| - 1];
      if last.again then init else init + [last.entry]
  }

  /** A verified entry that lies below where its device's chain has got to. */
  predicate LiesBelow(rd: Reader, marks: Marks, e: Entry) {
    IsVerified(rd, e) && e.device in marks && e.chainSeq < marks[e.device].next
  }

  /** Every entry put in is one from below its device's mark. */
  ghost predicate ReplaysOnly(rd: Reader, served: seq<Served>) {
    forall i :: 0 <= i < |served| && served[i].again ==>
      LiesBelow(rd, MarksAfter(rd, AsRead(served[..i])), served[i].entry)
  }

  /** In particular, any verified entry served before. */
  lemma {:induction false} RepeatsLieBelow(rd: Reader, served: seq<Served>)
    requires forall i :: 0 <= i < |served| && served[i].again ==>
      IsVerified(rd, served[i].entry) && exists j :: 0 <= j < i && served[j].entry == served[i].entry
    ensures ReplaysOnly(rd, served)
  {
    forall i | 0 <= i < |served| && served[i].again
      ensures LiesBelow(rd, MarksAfter(rd, AsRead(served[..i])), served[i].entry)
    {
      var j :| 0 <= j < i && served[j].entry == served[i].entry;
      var before := AsRead(served[..i]);
      assert before[j] == served[j].entry;
      MarksNeverFall(rd, before, i);
    }
  }

  /** What a replay does to a mark it lies below: nothing, and the verdict is `Fork`. */
  lemma {:induction false} ReplayIsFork(rd: Reader, marks: Marks, e: Entry)
    requires LiesBelow(rd, marks, e)
    ensures VerdictFor(rd, marks, e) == Judged(Fork, marks)
  {
  }

  /** A replay at `i` is a `Fork`; anything else at `i` has the verdict it has without the replays. */
  ghost predicate UnmovedAt(rd: Reader, served: seq<Served>, i: nat)
    requires i < |served|
  {
    var n := |Once(served[..i])|;
    if served[i].again then VerdictAt(rd, AsRead(served), i) == Fork
    else n < |Once(served)| && Once(served)[n] == served[i].entry
         && VerdictAt(rd, AsRead(served), i) == VerdictAt(rd, Once(served), n)
  }

  lemma {:induction false} LastUnmoved(rd: Reader, served: seq<Served>)
    requires served != [] && ReplaysOnly(rd, served)
    requires MarksAfter(rd, AsRead(served[..|served| - 1])) == MarksAfter(rd, Once(served[..|served| - 1]))
    ensures MarksAfter(rd, AsRead(served)) == MarksAfter(rd, Once(served))
    ensures UnmovedAt(rd, served, |served| - 1)
  {
    var k := |served| - 1;
    var es, init := AsRead(served), served[..k];
    assert es[..k] == AsRead(init) && es[k] == served[k].entry;
    if served[k].again {
      ReplayIsFork(rd, MarksAfter(rd, AsRead(init)), served[k].entry);
    } else {
      var once := Once(served);
      assert once[..|once| - 1] == Once(init);
    }
  }

  lemma {:induction false} EarlierUnmoved(rd: Reader, served: seq<Served>, i: nat)
    requires i < |served| - 1 && UnmovedAt(rd, served[..|served| - 1], i)
    ensures UnmovedAt(rd, served, i)
  {
    var init := served[..|served| - 1];
    assert init[..i] == served[..i];
    assert AsRead(served)[..i] == AsRead(init)[..i];
    var n := |Once(served[..i])|;
    if !served[i].again {
      assert Once(served)[..n] == Once(init)[..n];
    }
  }

  lemma {:induction false} ReplaysOnlyBefore(rd: Reader, served: seq<Served>)
    requires served != [] && ReplaysOnly(rd, served)
    ensures ReplaysOnly(rd, served[..|served| - 1])
  {
    var init := served[..|served| - 1];
    forall i | 0 <= i < |init| && init[i].again
      ensures LiesBelow(rd, MarksAfter(rd, AsRead(init[..i])), init[i].entry)
    {
      assert served[i].again && init[..i] == served[..i];
    }
  }

  /**
   Replays, any number of them anywhere, of anything below the mark: each is a `Fork`, and
   the other entries are judged exactly as if no replay had been there.
   */
  lemma {:induction false} ReplaysChangeNothing(rd: Reader, served: seq<Served>)
    requires ReplaysOnly(rd, served)
    ensures MarksAfter(rd, AsRead(served)) == MarksAfter(rd, Once(served))
    ensures forall i :: 0 <= i < |served| ==> UnmovedAt(rd, served, i)
    decreases |served|
  {
    if served != [] {
      ReplaysOnlyBefore(rd, served);
      ReplaysChangeNothing(rd, served[..|served| - 1]);
      LastUnmoved(rd, served);
      forall i | 0 <= i < |served| - 1 ensures UnmovedAt(rd, served, i) { EarlierUnmoved(rd, served, i); }
    }
  }
}
