/**
 The contacts and follows segments of a SIP-48 backup.
 */
module BackupLists {
  import opened Wrappers
  import opened BigEndian
  import opened BackupSegments

  const U64 := 0x1_0000_0000_0000_0000

  type Key = b: Bytes | |b| == 32 witness seq(32, i => 0)
  type Serial = n: nat | n < U64

  datatype Contact = Contact(account: Key, verified: bool, name: Bytes)
  datatype Follow = Follow(account: Key, serial: Serial)

  // ---- rows that say where they end ----------------------------------------

  /** A row read at a place, and where it ends; nothing where it is cut short. */
  type Reader<T> = (Bytes, nat) -> Option<(T, nat)>

  function Rows<T>(enc: T -> Bytes, xs: seq<T>): Bytes {
    if xs == [] then [] else enc(xs[0]) + Rows(enc, xs[1..])
  }

  function ReadRows<T>(dec: Reader<T>, b: Bytes, at: nat, count: nat): Result<seq<T>, Fault>
    decreases count
  {
    if count == 0 then Ok([])
    else match dec(b, at)
      case None => Err(CutShort)
      case Some((x, next)) => Prepend([x], ReadRows(dec, b, next, count - 1))
  }

  /** `part` lies in `b` from `at` on. */
  predicate LiesAt(b: Bytes, at: nat, part: Bytes) { at + |part| <= |b| && b[at..at + |part|] == part }

  lemma {:induction false} LiesInParts(b: Bytes, at: nat, p: Bytes, q: Bytes)
    requires LiesAt(b, at, p + q)
    ensures LiesAt(b, at, p) && LiesAt(b, at + |p|, q)
  {
    assert (p + q)[..|p|] == p && (p + q)[|p|..] == q;
  }

  /** `b` ends within `part`, which starts at `at`. */
  predicate CutIn(b: Bytes, at: nat, part: Bytes) {
    at <= |b| < at + |part| && b[at..] == part[..|b| - at]
  }

  lemma {:induction false} CutInParts(b: Bytes, at: nat, p: Bytes, q: Bytes)
    requires CutIn(b, at, p + q)
    ensures if |b| >= at + |p| then LiesAt(b, at, p) && CutIn(b, at + |p|, q) else CutIn(b, at, p)
  {
    var k := |b| - at;
    if k >= |p| {
      assert b[at..at + |p|] == b[at..][..|p|] == (p + q)[..k][..|p|] == p;
      assert b[at + |p|..] == b[at..][|p|..] == (p + q)[..k][|p|..] == q[..k - |p|];
    } else {
      assert (p + q)[..k] == p[..k];
    }
  }

  /** A row is read wherever it was written, as `kept` of what was written, and not where it is cut. */
  ghost predicate Inverts<T(!new)>(enc: T -> Bytes, dec: Reader<T>, kept: T -> T) {
    forall b: Bytes, at: nat, x: T :: InvertsAt(enc(x), kept(x), b, at, dec(b, at))
  }

  ghost predicate InvertsAt<T>(row: Bytes, x: T, b: Bytes, at: nat, read: Option<(T, nat)>) {
    && (LiesAt(b, at, row) ==> read == Some((x, at + |row|)))
    && (CutIn(b, at, row) ==> read == None)
  }

  function Each<T>(kept: T -> T, xs: seq<T>): (ys: seq<T>)
    ensures |ys| == |xs| && forall i :: 0 <= i < |xs| ==> ys[i] == kept(xs[i])
  {
    seq(|xs|, i requires 0 <= i < |xs| => kept(xs[i]))
  }

  lemma {:induction false} RowsBack<T(!new)>(
      enc: T -> Bytes, dec: Reader<T>, kept: T -> T, b: Bytes, at: nat, xs: seq<T>, count: nat)
    requires Inverts(enc, dec, kept) && count <= |xs| && LiesAt(b, at, Rows(enc, xs))
    ensures ReadRows(dec, b, at, count) == Ok(Each(kept, xs[..count]))
    decreases count
  {
    if count > 0 {
      LiesInParts(b, at, enc(xs[0]), Rows(enc, xs[1..]));
      assert InvertsAt(enc(xs[0]), kept(xs[0]), b, at, dec(b, at));
      RowsBack(enc, dec, kept, b, at + |enc(xs[0])|, xs[1..], count - 1);
      assert [kept(xs[0])] + Each(kept, xs[1..][..count - 1]) == Each(kept, xs[..count]);
    }
  }

  lemma {:induction false} RowsCut<T(!new)>(
      enc: T -> Bytes, dec: Reader<T>, kept: T -> T, b: Bytes, at: nat, xs: seq<T>)
    requires Inverts(enc, dec, kept) && CutIn(b, at, Rows(enc, xs))
    ensures ReadRows(dec, b, at, |xs|) == Err(CutShort)
    decreases |xs|
  {
    var first, rest, read := enc(xs[0]), Rows(enc, xs[1..]), dec(b, at);
    CutInParts(b, at, first, rest);
    assert InvertsAt(first, kept(xs[0]), b, at, read);
    if |b| >= at + |first| {
      RowsCut(enc, dec, kept, b, at + |first|, xs[1..]);
      assert read == Some((kept(xs[0]), at + |first|));
    } else {
      assert read == None;
    }
  }

  // ---- contacts -----------------------------------------------------------

  /** `from_utf8_lossy`, which leaves text that is valid alone. */
  type Lossy = Bytes -> Bytes

  function Clip(name: Bytes): (l: Bytes)
    ensures |l| <= LABEL_LIMIT && l <= name
  {
    if |name| <= LABEL_LIMIT then name else name[..LABEL_LIMIT]
  }

  function ContactBytes(c: Contact): Bytes {
    c.account + [if c.verified then 1 else 0] + ToBytes(|Clip(c.name)|, 2) + Clip(c.name)
  }

  function ContactsSegment(cs: seq<Contact>): Bytes { ToBytes(|cs|, 4) + Rows(ContactBytes, cs) }

  /** What a contact becomes on its way through a segment. */
  function Carried(lossy: Lossy): Contact -> Contact { (c: Contact) => c.(name := lossy(Clip(c.name))) }

  /** The contact that starts at `at`, and where it ends. */
  function ContactAt(lossy: Lossy, b: Bytes, at: nat): (r: Option<(Contact, nat)>)
    ensures r.Some? ==> at < r.value.1 <= |b|
  {
    if at + 35 > |b| then None
    else
      var len := FromBytes(b[at + 33..at + 35]);
      if at + 35 + len > |b| then None
      else Some((Contact(b[at..at + 32], b[at + 32] != 0, lossy(b[at + 35..at + 35 + len])), at + 35 + len))
  }

  function ContactReader(lossy: Lossy): Reader<Contact> { (b, at) => ContactAt(lossy, b, at) }

  function ContactsFrom(lossy: Lossy, b: Bytes): Result<seq<Contact>, Fault> {
    if |b| < 4 then Err(CutShort) else ReadRows(ContactReader(lossy), b, 4, FromBytes(b[..4]))
  }

  /** `contacts_segment`. */
  method WriteContacts(cs: seq<Contact>) returns (out: Bytes)
    ensures out == ContactsSegment(cs)
  {
    out := ToBytes(|cs|, 4);
    assert cs[0..] == cs;
    for i := 0 to |cs|
      invariant out + Rows(ContactBytes, cs[i..]) == ContactsSegment(cs)
    {
      RowNext(cs, i, out);
      var l := Clip(cs[i].name);
      out := out + cs[i].account + [if cs[i].verified then 1 else 0] + ToBytes(|l|, 2) + l;
    }
  }

  lemma {:induction false} RowNext(cs: seq<Contact>, i: nat, out: Bytes)
    requires i < |cs|
    ensures var l := Clip(cs[i].name);
      out + cs[i].account + [if cs[i].verified then 1 else 0] + ToBytes(|l|, 2) + l + Rows(ContactBytes, cs[i + 1..])
        == out + Rows(ContactBytes, cs[i..])
  {
    assert cs[i..][1..] == cs[i + 1..];
    assert Rows(ContactBytes, cs[i..]) == ContactBytes(cs[i]) + Rows(ContactBytes, cs[i + 1..]);
  }

  /** `contacts_from`. */
  method ReadContactsSegment(lossy: Lossy, b: Bytes) returns (r: Result<seq<Contact>, Fault>)
    ensures r == ContactsFrom(lossy, b)
  {
    if |b| < 4 { return Err(CutShort); }
    r := ReadContacts(lossy, b, FromBytes(b[..4]));
  }

  method ReadContacts(lossy: Lossy, b: Bytes, count: nat) returns (r: Result<seq<Contact>, Fault>)
    requires |b| >= 4
    ensures r == ReadRows(ContactReader(lossy), b, 4, count)
  {
    ghost var dec := ContactReader(lossy);
    var at, out: seq<Contact> := 4, [];
    NothingBefore(ReadRows(dec, b, 4, count));
    for i := 0 to count
      invariant 4 <= at <= |b|
      invariant Prepend(out, ReadRows(dec, b, at, count - i)) == ReadRows(dec, b, 4, count)
    {
      var next := ReadContact(lossy, b, at);
      if next.None? { return Err(CutShort); }
      OneMore(out, next.value.0, ReadRows(dec, b, next.value.1, count - i - 1));
      out, at := out + [next.value.0], next.value.1;
    }
    assert out + [] == out;
    return Ok(out);
  }

  /** The body of the loop: where a row is cut short there is none. */
  method ReadContact(lossy: Lossy, b: Bytes, at0: nat) returns (r: Option<(Contact, nat)>)
    ensures r == ContactReader(lossy)(b, at0) && (r.Some? ==> at0 < r.value.1 <= |b|)
  {
    var at := at0;
    if at + 35 > |b| { return None; }
    var account, verified := b[at..at + 32], b[at + 32] != 0;
    var len := FromBytes(b[at + 33..at + 35]);
    at := at + 35;
    if at + len > |b| { return None; }
    var text := lossy(b[at..at + len]);
    at := at + len;
    return Some((Contact(account, verified, text), at));
  }

  lemma {:induction false} LabelLengthReadsBack(n: nat)
    requires n <= LABEL_LIMIT
    ensures FromBytes(ToBytes(n, 2)) == n
  {
    ReadBack(n, 2);
    Widths();
  }

  lemma {:induction false} ContactParts(b: Bytes, at: nat, c: Contact)
    requires LiesAt(b, at, ContactBytes(c))
    ensures var l := Clip(c.name);
      && LiesAt(b, at, c.account) && LiesAt(b, at + 32, [if c.verified then 1 else 0])
      && LiesAt(b, at + 33, ToBytes(|l|, 2)) && LiesAt(b, at + 35, l)
  {
    var l := Clip(c.name);
    var verified := [if c.verified then 1 else 0];
    LiesInParts(b, at, c.account + verified + ToBytes(|l|, 2), l);
    LiesInParts(b, at, c.account + verified, ToBytes(|l|, 2));
    LiesInParts(b, at, c.account, verified);
  }

  /** A contact written anywhere is read there, and ends where it was written to end. */
  lemma {:induction false} ContactBack(lossy: Lossy, b: Bytes, at: nat, c: Contact)
    requires LiesAt(b, at, ContactBytes(c))
    ensures ContactAt(lossy, b, at) == Some((c.(name := lossy(Clip(c.name))), at + |ContactBytes(c)|))
  {
    ContactParts(b, at, c);
    LabelLengthReadsBack(|Clip(c.name)|);
    assert b[at + 32] == b[at + 32..at + 33][0];
  }

  lemma {:induction false} CutContact(lossy: Lossy, b: Bytes, at: nat, c: Contact)
    requires CutIn(b, at, ContactBytes(c))
    ensures ContactAt(lossy, b, at) == None
  {
    if at + 35 <= |b| {
      var whole, l := ContactBytes(c), Clip(c.name);
      ContactParts(whole, 0, c);
      assert b[at + 33..at + 35] == b[at..][33..35] == whole[33..35];
      LabelLengthReadsBack(|l|);
    }
  }

  lemma {:induction false} ContactsInvert(lossy: Lossy)
    ensures Inverts(ContactBytes, ContactReader(lossy), Carried(lossy))
  {
    forall b: Bytes, at: nat, c: Contact
      ensures InvertsAt(ContactBytes(c), Carried(lossy)(c), b, at, ContactReader(lossy)(b, at))
    {
      if LiesAt(b, at, ContactBytes(c)) { ContactBack(lossy, b, at, c); }
      if CutIn(b, at, ContactBytes(c)) { CutContact(lossy, b, at, c); }
    }
  }

  /**
   What becomes of any list of contacts, with anything after it: as many as the low four
   bytes of their number say, each with as much of its label as fits.
   */
  lemma {:induction false} ContactsRoundTrip(lossy: Lossy, cs: seq<Contact>, tail: Bytes)
    ensures ContactsFrom(lossy, ContactsSegment(cs) + tail) == Ok(Each(Carried(lossy), cs[..|cs| % U32]))
  {
    ContactsInvert(lossy);
    LengthReadsBack(|cs|);
    CountedBack(ContactBytes, ContactReader(lossy), Carried(lossy), ToBytes(|cs|, 4), cs, |cs| % U32, tail);
  }

  /** A count in front of rows: as many as it says are read from behind it. */
  lemma {:induction false} CountedBack<T(!new)>(
      enc: T -> Bytes, dec: Reader<T>, kept: T -> T, head: Bytes, xs: seq<T>, count: nat, tail: Bytes)
    requires Inverts(enc, dec, kept) && |head| == 4 && count <= |xs|
    ensures var b := head + Rows(enc, xs) + tail;
      b[..4] == head && ReadRows(dec, b, 4, count) == Ok(Each(kept, xs[..count]))
  {
    var b := head + Rows(enc, xs) + tail;
    assert LiesAt(b, 4, Rows(enc, xs));
    RowsBack(enc, dec, kept, b, 4, xs, count);
  }

  /** So a list that fits, of valid labels that fit, comes back as it was. */
  lemma {:induction false} ContactsComeBack(lossy: Lossy, cs: seq<Contact>)
    requires |cs| < U32 && forall i :: 0 <= i < |cs| ==> |cs[i].name| <= 65535 && lossy(cs[i].name) == cs[i].name
    ensures ContactsFrom(lossy, ContactsSegment(cs)) == Ok(cs)
  {
    ContactsRoundTrip(lossy, cs, []);
    assert ContactsSegment(cs) + [] == ContactsSegment(cs);
    assert cs[..|cs| % U32] == cs;
    forall i | 0 <= i < |cs| ensures Carried(lossy)(cs[i]) == cs[i] { assert Clip(cs[i].name) == cs[i].name; }
    assert Each(Carried(lossy), cs) == cs;
  }

  /** Cut anywhere short of its end, a contacts segment is an error. */
  lemma {:induction false} CutContactsAreRefused(lossy: Lossy, cs: seq<Contact>, k: nat)
    requires |cs| < U32 && k < |ContactsSegment(cs)|
    ensures ContactsFrom(lossy, ContactsSegment(cs)[..k]) == Err(CutShort)
  {
    if k >= 4 {
      var head := ToBytes(|cs|, 4);
      LengthReadsBack(|cs|);
      assert FromBytes(head) == |cs|;
      ContactsInvert(lossy);
      CountedCut(ContactBytes, ContactReader(lossy), Carried(lossy), head, cs, k);
      var b := ContactsSegment(cs)[..k];
      assert |b| == k && b[..4] == head;
    }
  }

  lemma {:induction false} CountedCut<T(!new)>(
      enc: T -> Bytes, dec: Reader<T>, kept: T -> T, head: Bytes, xs: seq<T>, k: nat)
    requires Inverts(enc, dec, kept) && |head| == 4 <= k < 4 + |Rows(enc, xs)|
    ensures var b := (head + Rows(enc, xs))[..k]; b[..4] == head && ReadRows(dec, b, 4, |xs|) == Err(CutShort)
  {
    var rows := Rows(enc, xs);
    var b := (head + rows)[..k];
    assert b[..4] == head && b[4..] == rows[..k - 4];
    RowsCut(enc, dec, kept, b, 4, xs);
  }

  // ---- follows ------------------------------------------------------------

  function FollowBytes(f: Follow): (b: Bytes)
    ensures |b| == 40
  {
    f.account + ToBytes(f.serial, 8)
  }

  function FollowRows(fs: seq<Follow>): (b: Bytes)
    ensures |b| == 40 * |fs|
  {
    if fs == [] then [] else FollowRows(fs[..|fs| - 1]) + FollowBytes(fs[|fs| - 1])
  }

  function FollowsSegment(fs: seq<Follow>): Bytes { ToBytes(|fs|, 4) + FollowRows(fs) }

  lemma {:induction false} SerialInRange(b: Bytes)
    requires |b| == 8
    ensures FromBytes(b) < U64
  {
    WriteBack(b);
    Widths();
  }

  function FollowAt(b: Bytes): (f: Follow)
    requires |b| == 40
  {
    SerialInRange(b[32..]);
    Follow(b[..32], FromBytes(b[32..]))
  }

  function FollowsIn(b: Bytes, count: nat): (fs: seq<Follow>)
    requires |b| == 40 * count
    ensures |fs| == count
    decreases count
  {
    if count == 0 then [] else FollowsIn(b[..40 * (count - 1)], count - 1) + [FollowAt(b[40 * (count - 1)..])]
  }

  function FollowsFrom(b: Bytes): Result<seq<Follow>, Fault> {
    if |b| < 4 then Err(CutShort)
    else
      var count := FromBytes(b[..4]);
      if |b| != 4 + count * 40 then Err(WrongLength) else Ok(FollowsIn(b[4..], count))
  }

  /** `follows_segment`. */
  method WriteFollows(fs: seq<Follow>) returns (out: Bytes)
    ensures out == FollowsSegment(fs)
  {
    out := ToBytes(|fs|, 4);
    for i := 0 to |fs|
      invariant out == ToBytes(|fs|, 4) + FollowRows(fs[..i])
    {
      assert fs[..i + 1][..i] == fs[..i];
      out := out + fs[i].account;
      out := out + ToBytes(fs[i].serial, 8);
    }
    assert fs[..|fs|] == fs;
  }

  /** `follows_from`. */
  method ReadFollows(b: Bytes) returns (r: Result<seq<Follow>, Fault>)
    ensures r == FollowsFrom(b)
  {
    if |b| < 4 { return Err(CutShort); }
    var count := FromBytes(b[..4]);
    if |b| != 4 + count * 40 { return Err(WrongLength); }
    var out: seq<Follow> := [];
    for i := 0 to count
      invariant out == FollowsIn(b[4..4 + i * 40], i)
    {
      var at := 4 + i * 40;
      FollowNext(b, i);
      out := out + [Follow(b[at..at + 32], FromBytes(b[at + 32..at + 40]))];
    }
    assert b[4..4 + count * 40] == b[4..];
    return Ok(out);
  }

  lemma {:induction false} FollowNext(b: Bytes, i: nat)
    requires |b| >= 4 + (i + 1) * 40
    ensures var at := 4 + i * 40;
      && FromBytes(b[at + 32..at + 40]) < U64
      && FollowsIn(b[4..at + 40], i + 1)
         == FollowsIn(b[4..at], i) + [Follow(b[at..at + 32], FromBytes(b[at + 32..at + 40]))]
  {
    var at := 4 + i * 40;
    var row, upTo := b[at..at + 40], b[4..at + 40];
    SerialInRange(b[at + 32..at + 40]);
    assert upTo[..40 * i] == b[4..at] && upTo[40 * i..] == row;
    assert row[..32] == b[at..at + 32] && row[32..] == b[at + 32..at + 40];
  }

  /** One row and one follow are each other's image. */
  lemma {:induction false} RowAndBack(f: Follow, b: Bytes)
    requires |b| == 40
    ensures FollowAt(FollowBytes(f)) == f && FollowBytes(FollowAt(b)) == b
  {
    assert FollowBytes(f)[..32] == f.account && FollowBytes(f)[32..] == ToBytes(f.serial, 8);
    ReadBack(f.serial, 8);
    Widths();
    WriteBack(b[32..]);
    assert b == b[..32] + b[32..];
  }

  lemma {:induction false} FollowRowsBack(fs: seq<Follow>)
    ensures FollowsIn(FollowRows(fs), |fs|) == fs
    decreases |fs|
  {
    if fs != [] {
      var n := |fs| - 1;
      FollowRowsBack(fs[..n]);
      var b := FollowRows(fs);
      assert b[..40 * n] == FollowRows(fs[..n]) && b[40 * n..] == FollowBytes(fs[n]);
      RowAndBack(fs[n], FollowBytes(fs[n]));
    }
  }

  lemma {:induction false} FollowsInBack(b: Bytes, count: nat)
    requires |b| == 40 * count
    ensures FollowRows(FollowsIn(b, count)) == b
    decreases count
  {
    if count > 0 {
      var n := count - 1;
      FollowsInBack(b[..40 * n], n);
      var fs := FollowsIn(b, count);
      assert fs[..n] == FollowsIn(b[..40 * n], n) && fs[n] == FollowAt(b[40 * n..]);
      RowAndBack(fs[n], b[40 * n..]);
    }
  }

  /** Any list of follows comes back as it was exactly where its number fits four bytes, and is refused otherwise. */
  lemma {:induction false} FollowsRoundTrip(fs: seq<Follow>)
    ensures FollowsFrom(FollowsSegment(fs)) == if |fs| < U32 then Ok(fs) else Err(WrongLength)
  {
    FollowRowsBack(fs);
    LengthReadsBack(|fs|);
    CountedRows(ToBytes(|fs|, 4), |fs|, FollowRows(fs));
  }

  /** A number, and forty bytes for each of it. */
  lemma {:induction false} CountedRows(head: Bytes, n: nat, rows: Bytes)
    requires |head| == 4 && FromBytes(head) == n % U32 && |rows| == 40 * n
    ensures FollowsFrom(head + rows) == if n < U32 then Ok(FollowsIn(rows, n)) else Err(WrongLength)
  {
    var b := head + rows;
    assert b[..4] == head && b[4..] == rows;
  }

  /** And nothing else is accepted: a segment read is the writing of what was read. */
  lemma {:induction false} AcceptedFollows(b: Bytes)
    ensures FollowsFrom(b).Ok? <==> exists fs :: |fs| < U32 && b == FollowsSegment(fs)
    ensures FollowsFrom(b).Ok? ==> b == FollowsSegment(FollowsFrom(b).value)
  {
    if FollowsFrom(b).Ok? {
      var fs := FollowsFrom(b).value;
      WriteBack(b[..4]);
      Widths();
      FollowsInBack(b[4..], FromBytes(b[..4]));
      assert b == b[..4] + b[4..];
      assert |fs| < U32 && b == FollowsSegment(fs);
    }
    if fs :| |fs| < U32 && b == FollowsSegment(fs) { FollowsRoundTrip(fs); }
  }
}
