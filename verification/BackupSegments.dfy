/**
 SIP-48 backup segments: a channel's history as framed messages, the contacts, and the
 feeds followed. Counts and lengths are written at a fixed width and so keep only their
 low bytes; that is modelled, and the round trips say exactly what it costs.
 */
module BackupSegments {
  import opened Wrappers
  import opened BigEndian

  const U32 := 0x1_0000_0000
  const LABEL_LIMIT := 65535

  datatype Fault = CutShort | Undecodable | WrongLength

  // ---- history ------------------------------------------------------------

  /** How one message is written and read; what a SIP-42 message is made of is not modelled. */
  datatype Codec<!M> = Codec(enc: M -> Bytes, dec: Bytes -> Option<M>)

  /** Each of these messages is read back as it was written. */
  ghost predicate Reads<M>(c: Codec<M>, ms: seq<M>) {
    forall i :: 0 <= i < |ms| ==> c.dec(c.enc(ms[i])) == Some(ms[i])
  }

  ghost predicate Fits<M>(c: Codec<M>, ms: seq<M>) {
    forall i :: 0 <= i < |ms| ==> |c.enc(ms[i])| < U32
  }

  function Frame(body: Bytes): Bytes { ToBytes(|body|, 4) + body }

  function Framed<M>(c: Codec<M>, ms: seq<M>): Bytes {
    if ms == [] then [] else Frame(c.enc(ms[0])) + Framed(c, ms[1..])
  }

  function Prepend<M>(ms: seq<M>, r: Result<seq<M>, Fault>): Result<seq<M>, Fault> {
    if r.Ok? then Ok(ms + r.value) else r
  }

  function Unframed<M>(c: Codec<M>, b: Bytes): Result<seq<M>, Fault>
    decreases |b|
  {
    if |b| < 4 then Ok([])
    else
      var len := FromBytes(b[..4]);
      if 4 + len > |b| then Err(CutShort)
      else match c.dec(b[4..4 + len])
        case None => Err(Undecodable)
        case Some(m) => Prepend([m], Unframed(c, b[4 + len..]))
  }

  lemma {:induction false} FrameNext<M>(c: Codec<M>, ms: seq<M>, i: nat, out: Bytes)
    requires i < |ms|
    ensures var body := c.enc(ms[i]);
      out + ToBytes(|body|, 4) + body + Framed(c, ms[i + 1..]) == out + Framed(c, ms[i..])
  {
    var body := c.enc(ms[i]);
    assert ms[i..][1..] == ms[i + 1..];
    assert Framed(c, ms[i..]) == Frame(body) + Framed(c, ms[i + 1..]);
  }

  /** A length below the field's width is read back. */
  lemma {:induction false} LengthReadsBack(n: nat)
    ensures FromBytes(ToBytes(n, 4)) == n % U32
  {
    ReadBack(n, 4);
    Widths();
  }

  /** `framed`. */
  method WriteFrames<M>(c: Codec<M>, ms: seq<M>) returns (out: Bytes)
    ensures out == Framed(c, ms)
  {
    out := [];
    for i := 0 to |ms|
      invariant out + Framed(c, ms[i..]) == Framed(c, ms)
    {
      var body := c.enc(ms[i]);
      FrameNext(c, ms, i, out);
      out := out + ToBytes(|body|, 4) + body;
    }
  }

  /** `unframed`. */
  method ReadFrames<M>(c: Codec<M>, b: Bytes) returns (r: Result<seq<M>, Fault>)
    ensures r == Unframed(c, b)
  {
    var out: seq<M>, at := [], 0;
    assert b[0..] == b;
    NothingBefore(Unframed(c, b));
    while at + 4 <= |b|
      invariant at <= |b|
      invariant Prepend(out, Unframed(c, b[at..])) == Unframed(c, b)
      decreases |b| - at
    {
      var rest := b[at..];
      assert rest[..4] == b[at..at + 4];
      var len := FromBytes(b[at..at + 4]);
      at := at + 4;
      if at + len > |b| { return Err(CutShort); }
      assert rest[4..4 + len] == b[at..at + len] && rest[4 + len..] == b[at + len..];
      var m := c.dec(b[at..at + len]);
      if m.None? { return Err(Undecodable); }
      OneMore(out, m.value, Unframed(c, b[at + len..]));
      out := out + [m.value];
      at := at + len;
    }
    assert out + [] == out;
    return Ok(out);
  }

  lemma {:induction false} NothingBefore<M>(r: Result<seq<M>, Fault>)
    ensures Prepend([], r) == r
  {
    if r.Ok? { assert [] + r.value == r.value; }
  }

  lemma {:induction false} OneMore<M>(out: seq<M>, m: M, r: Result<seq<M>, Fault>)
    ensures Prepend(out + [m], r) == Prepend(out, Prepend([m], r))
  {
    if r.Ok? { assert out + [m] + r.value == out + ([m] + r.value); }
  }

  lemma {:induction false} Slices(length: Bytes, body: Bytes, rest: Bytes)
    requires |length| == 4
    ensures var b := length + body + rest;
      b[..4] == length && b[4..4 + |body|] == body && b[4 + |body|..] == rest
  {
  }

  /** A whole frame at the front of anything is read as its message, and the rest as if alone. */
  lemma {:induction false} FirstFrame<M>(c: Codec<M>, m: M, rest: Bytes)
    requires c.dec(c.enc(m)) == Some(m) && |c.enc(m)| < U32
    ensures Unframed(c, Frame(c.enc(m)) + rest) == Prepend([m], Unframed(c, rest))
  {
    var body := c.enc(m);
    var length := ToBytes(|body|, 4);
    LengthReadsBack(|body|);
    Slices(length, body, rest);
  }

  /** What is written is read back; up to three bytes after it make no difference. */
  lemma {:induction false} HistoryRoundTrip<M>(c: Codec<M>, ms: seq<M>, tail: Bytes)
    requires Reads(c, ms) && Fits(c, ms) && |tail| < 4
    ensures Unframed(c, Framed(c, ms) + tail) == Ok(ms)
    decreases |ms|
  {
    if ms == [] {
      assert Framed(c, ms) + tail == tail;
    } else {
      var first, rest := Frame(c.enc(ms[0])), Framed(c, ms[1..]);
      assert first + rest + tail == first + (rest + tail);
      FirstFrame(c, ms[0], rest + tail);
      HistoryRoundTrip(c, ms[1..], tail);
      assert [ms[0]] + ms[1..] == ms;
    }
  }

  /** A message too long for its length field is never read back; a shorter one always is. */
  lemma {:induction false} LongMessageIsLost<M>(c: Codec<M>, m: M)
    requires c.dec(c.enc(m)) == Some(m)
    ensures Unframed(c, Framed(c, [m])) == Ok([m]) <==> |c.enc(m)| < U32
  {
    var body := c.enc(m);
    assert Framed(c, [m]) == Frame(body) + [];
    if |body| < U32 {
      FirstFrame(c, m, []);
      assert [m] + [] == [m];
    } else {
      var b := Frame(body);
      assert Framed(c, [m]) == b;
      assert b[..4] == ToBytes(|body|, 4);
      LengthReadsBack(|body|);
      RestIsLong(|body|);
      NotEmpty(c, b[4 + |body| % U32..]);
    }
  }

  lemma {:induction false} RestIsLong(n: nat)
    requires n >= U32
    ensures n - n % U32 >= 4
  {
  }

  /** Four bytes or more are never read as no message at all. */
  lemma {:induction false} NotEmpty<M>(c: Codec<M>, b: Bytes)
    requires |b| >= 4
    ensures Unframed(c, b) != Ok([])
  {
    var len := FromBytes(b[..4]);
    if 4 + len <= |b| && c.dec(b[4..4 + len]).Some? {
      var r := Unframed(c, b[4 + len..]);
      if r.Ok? { assert |[c.dec(b[4..4 + len]).value] + r.value| >= 1; }
    }
  }

  /**
   Cut anywhere, a segment is an error or a prefix of its messages, never another one:
   the first `j`, just where the cut leaves `j` frames whole and less than a length after them.
   */
  lemma {:induction false} CutIsErrorOrPrefix<M>(c: Codec<M>, ms: seq<M>, k: nat)
    requires Reads(c, ms) && Fits(c, ms) && k <= |Framed(c, ms)|
    ensures var r := Unframed(c, Framed(c, ms)[..k]);
      && (r == Err(CutShort) || exists j :: 0 <= j <= |ms| && r == Ok(ms[..j]))
      && forall j :: 0 <= j <= |ms| ==> (r == Ok(ms[..j]) <==> CutAfter(c, ms, k, j))
    decreases |ms|
  {
    var b := Framed(c, ms)[..k];
    if ms != [] {
      var first, rest := Frame(c.enc(ms[0])), Framed(c, ms[1..]);
      if k < |first| {
        CutInFirst(c, ms, k);
      } else {
        assert b == first + rest[..k - |first|];
        FirstFrame(c, ms[0], rest[..k - |first|]);
        CutIsErrorOrPrefix(c, ms[1..], k - |first|);
        CutAfterFirst(c, ms, k, Unframed(c, rest[..k - |first|]), Unframed(c, b));
      }
    } else {
      assert ms[..0] == ms && Framed(c, ms[..0]) == [];
    }
  }

  predicate CutAfter<M>(c: Codec<M>, ms: seq<M>, k: nat, j: nat)
    requires j <= |ms|
  {
    |Framed(c, ms[..j])| <= k < |Framed(c, ms[..j])| + 4
  }

  lemma {:induction false} FramedPrefix<M>(c: Codec<M>, ms: seq<M>, j: nat)
    requires 1 <= j <= |ms|
    ensures |Framed(c, ms[..j])| == |Frame(c.enc(ms[0]))| + |Framed(c, ms[1..][..j - 1])|
  {
    assert ms[..j][1..] == ms[1..][..j - 1];
  }

  lemma {:induction false} CutInFirst<M>(c: Codec<M>, ms: seq<M>, k: nat)
    requires ms != [] && Fits(c, ms) && k < |Frame(c.enc(ms[0]))| && k <= |Framed(c, ms)|
    ensures var r := Unframed(c, Framed(c, ms)[..k]);
      && r == (if k < 4 then Ok(ms[..0]) else Err(CutShort))
      && forall j :: 0 <= j <= |ms| ==> (r == Ok(ms[..j]) <==> CutAfter(c, ms, k, j))
  {
    var b := Framed(c, ms)[..k];
    assert ms[..0] == [] && Framed(c, ms[..0]) == [];
    if k >= 4 { LengthIsCut(c.enc(ms[0]), Framed(c, ms[1..]), k); }
    forall j | 0 <= j <= |ms| ensures Unframed(c, b) == Ok(ms[..j]) <==> CutAfter(c, ms, k, j) {
      if j > 0 { FramedPrefix(c, ms, j); assert |ms[..j]| == j; }
    }
  }

  lemma {:induction false} LengthIsCut(body: Bytes, rest: Bytes, k: nat)
    requires 4 <= k < 4 + |body| && |body| < U32
    ensures FromBytes((Frame(body) + rest)[..k][..4]) == |body|
  {
    assert (Frame(body) + rest)[..k][..4] == ToBytes(|body|, 4);
    LengthReadsBack(|body|);
  }

  lemma {:induction false} CutAfterFirst<M>(
      c: Codec<M>, ms: seq<M>, k: nat, r0: Result<seq<M>, Fault>, r: Result<seq<M>, Fault>)
    requires ms != [] && |Frame(c.enc(ms[0]))| <= k && r == Prepend([ms[0]], r0)
    requires var rest, k0 := ms[1..], k - |Frame(c.enc(ms[0]))|;
      && (r0 == Err(CutShort) || exists j :: 0 <= j <= |rest| && r0 == Ok(rest[..j]))
      && forall j :: 0 <= j <= |rest| ==> (r0 == Ok(rest[..j]) <==> CutAfter(c, rest, k0, j))
    ensures r == Err(CutShort) || exists j :: 0 <= j <= |ms| && r == Ok(ms[..j])
    ensures forall j :: 0 <= j <= |ms| ==> (r == Ok(ms[..j]) <==> CutAfter(c, ms, k, j))
  {
    var rest := ms[1..];
    if j :| 0 <= j <= |rest| && r0 == Ok(rest[..j]) {
      assert [ms[0]] + rest[..j] == ms[..j + 1];
    }
    forall j | 0 <= j <= |ms| ensures r == Ok(ms[..j]) <==> CutAfter(c, ms, k, j) {
      if j == 0 {
        assert ms[..0] == [] && Framed(c, ms[..0]) == [];
        if r.Ok? { assert |[ms[0]] + r0.value| >= 1; }
      } else {
        FramedPrefix(c, ms, j);
        assert ms[..j] == [ms[0]] + rest[..j - 1];
        if r == Ok(ms[..j]) { assert r0.value == ([ms[0]] + r0.value)[1..] == rest[..j - 1]; }
        assert CutAfter(c, rest, k - |Frame(c.enc(ms[0]))|, j - 1) <==> r0 == Ok(rest[..j - 1]);
      }
    }
  }

  /** Where no two strings are one message, what is accepted is what was written, and at most three bytes more. */
  lemma {:induction false} AcceptedIsFramed<M>(c: Codec<M>, b: Bytes) returns (tail: Bytes)
    requires forall x :: c.dec(x).Some? ==> c.enc(c.dec(x).value) == x
    requires Unframed(c, b).Ok?
    ensures |tail| < 4 && b == Framed(c, Unframed(c, b).value) + tail
    decreases |b|
  {
    if |b| < 4 {
      tail := b;
    } else {
      var len := FromBytes(b[..4]);
      var body, rest := b[4..4 + len], b[4 + len..];
      var m := c.dec(body).value;
      tail := AcceptedIsFramed(c, rest);
      WriteBack(b[..4]);
      var ms := Unframed(c, rest).value;
      assert ([m] + ms)[1..] == ms;
      assert b == b[..4] + body + rest;
    }
  }
}
