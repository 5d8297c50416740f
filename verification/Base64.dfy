/**
 Base64, as the client writes it to the clipboard, against a strict decoder for
 section 4 of RFC 4648.
 */
module Base64 {
  import opened Wrappers
  import opened BigEndian

  const UPPER := "ABCDEFGHIJKLMNOPQRSTUVWXYZ"
  const LOWER := "abcdefghijklmnopqrstuvwxyz"
  const DIGITS := "0123456789"
  const SIGNS := "+/"

  function Set(): string { UPPER + LOWER + DIGITS + SIGNS }

  /** Table 1 of RFC 4648, the other way about. */
  function Value(c: char): (v: Option<nat>)
    ensures v.Some? ==> v.value < 64 && c != '='
  {
    var n := c as int;
    if 'A' as int <= n <= 'Z' as int then Some(n - 'A' as int)
    else if 'a' as int <= n <= 'z' as int then Some(n - 'a' as int + 26)
    else if '0' as int <= n <= '9' as int then Some(n - '0' as int + 52)
    else if c == '+' then Some(62)
    else if c == '/' then Some(63)
    else None
  }

  lemma {:induction false} UpperValues(k: nat)
    requires k < |UPPER|
    ensures |UPPER| == 26 && Value(UPPER[k]) == Some(k)
  {
  }

  lemma {:induction false} LowerValues(k: nat)
    requires k < |LOWER|
    ensures |LOWER| == 26 && Value(LOWER[k]) == Some(26 + k)
  {
  }

  lemma {:induction false} OtherValues(k: nat)
    requires k < |DIGITS + SIGNS|
    ensures |DIGITS| == 10 && |SIGNS| == 2 && Value((DIGITS + SIGNS)[k]) == Some(52 + k)
  {
  }

  lemma {:induction false} Parts(u: string, l: string, d: string, s: string, k: nat)
    requires |u| == 26 && |l| == 26 && |d| == 10 && |s| == 2 && k < 64
    ensures |u + l + d + s| == 64
    ensures (u + l + d + s)[k] == if k < 26 then u[k] else if k < 52 then l[k - 26] else (d + s)[k - 52]
  {
  }

  /** The alphabet is the RFC's. */
  lemma {:induction false} Alphabet(k: nat)
    requires k < 64
    ensures |Set()| == 64 && Value(Set()[k]) == Some(k)
  {
    UpperValues(0);
    LowerValues(0);
    OtherValues(0);
    Parts(UPPER, LOWER, DIGITS, SIGNS, k);
    if k < 26 { UpperValues(k); } else if k < 52 { LowerValues(k - 26); } else { OtherValues(k - 52); }
  }

  function LetterOf(k: nat): (c: char)
    requires k < 64
    ensures Value(c) == Some(k)
  {
    Alphabet(k);
    Set()[k]
  }

  function ByteAt(chunk: Bytes, i: nat): (x: nat)
    ensures x < 256
  {
    if i < |chunk| then chunk[i] else 0
  }

  /** Three bytes as one number. */
  function Pack(x: nat, y: nat, z: nat): nat { (x * 256 + y) * 256 + z }

  /** A chunk as one number, absent bytes as zero. */
  function Bits(chunk: Bytes): (n: nat)
    ensures n < 0x100_0000
  {
    Pack(ByteAt(chunk, 0), ByteAt(chunk, 1), ByteAt(chunk, 2))
  }

  /** The `i`th six bits of twenty-four. */
  function Sextet(n: nat, i: nat): (k: nat)
    requires i < 4
    ensures k < 64
  {
    (if i == 0 then n / 262144 else if i == 1 then n / 4096 else if i == 2 then n / 64 else n) % 64
  }

  function Symbol(chunk: Bytes, i: nat): char
    requires 1 <= |chunk| <= 3 && i < 4
  {
    if i <= |chunk| then LetterOf(Sextet(Bits(chunk), i)) else '='
  }

  function Group(chunk: Bytes): (g: string)
    requires 1 <= |chunk| <= 3
    ensures |g| == 4
  {
    [Symbol(chunk, 0), Symbol(chunk, 1), Symbol(chunk, 2), Symbol(chunk, 3)]
  }

  function First(b: Bytes): nat { if |b| < 3 then |b| else 3 }

  function Encode(b: Bytes): string
    decreases |b|
  {
    if b == [] then "" else Group(b[..First(b)]) + Encode(b[First(b)..])
  }

  /** `base64`. */
  method Write(b: Bytes) returns (out: string)
    ensures out == Encode(b)
  {
    out := "";
    var at := 0;
    while at < |b|
      invariant at <= |b| && out + Encode(b[at..]) == Encode(b)
    {
      var end := if at + 3 <= |b| then at + 3 else |b|;
      GroupNext(b, at, end, out);
      out := WriteGroup(b[at..end], out);
      at := end;
    }
  }

  /** The inner loop: four characters for one chunk. */
  method WriteGroup(chunk: Bytes, before: string) returns (out: string)
    requires 1 <= |chunk| <= 3
    ensures out == before + Group(chunk)
  {
    out := before;
    var n := Bits(chunk);
    for i := 0 to 4
      invariant |out| == |before| + i && before <= out
      invariant forall j :: 0 <= j < i ==> out[|before| + j] == Symbol(chunk, j)
    {
      out := out + [if i <= |chunk| then LetterOf(Sextet(n, i)) else '='];
    }
    assert forall j :: 0 <= j < 4 ==> Group(chunk)[j] == Symbol(chunk, j);
  }

  lemma {:induction false} GroupNext(b: Bytes, at: nat, end: nat, out: string)
    requires at < |b| && end == if at + 3 <= |b| then at + 3 else |b|
    ensures out + Group(b[at..end]) + Encode(b[end..]) == out + Encode(b[at..])
  {
    var rest := b[at..];
    assert rest[..First(rest)] == b[at..end] && rest[First(rest)..] == b[end..];
  }

  // ---- the decoder --------------------------------------------------------

  /** Four letters as one number. */
  function Joined(v0: nat, v1: nat, v2: nat, v3: nat): nat { ((v0 * 64 + v1) * 64 + v2) * 64 + v3 }

  /** One group: three bytes, or, at the end, two or one with the bits left over all zero. */
  function DecodeGroup(g: string, last: bool): (r: Option<Bytes>)
    requires |g| == 4
    ensures r.Some? ==> 1 <= |r.value| <= 3 && (!last ==> |r.value| == 3)
  {
    var v0, v1, v2, v3 := Value(g[0]), Value(g[1]), Value(g[2]), Value(g[3]);
    if v0.None? || v1.None? then None
    else if v2.Some? && v3.Some? then
      var n := Joined(v0.value, v1.value, v2.value, v3.value);
      Some([n / 65536, n / 256 % 256, n % 256])
    else if last && v2.Some? && g[3] == '=' && v2.value % 4 == 0 then
      var n := Joined(v0.value, v1.value, v2.value, 0);
      Some([n / 65536, n / 256 % 256])
    else if last && g[2] == '=' && g[3] == '=' && v1.value % 16 == 0 then
      Some([Joined(v0.value, v1.value, 0, 0) / 65536])
    else None
  }

  function Decode(s: string): Option<Bytes>
    decreases |s|
  {
    if s == "" then Some([])
    else if |s| < 4 then None
    else match DecodeGroup(s[..4], |s| == 4)
      case None => None
      case Some(chunk) =>
        match Decode(s[4..])
        case None => None
        case Some(rest) => Some(chunk + rest)
  }

  lemma {:induction false} SextetsJoin(n: nat)
    requires n < 0x100_0000
    ensures Joined(Sextet(n, 0), Sextet(n, 1), Sextet(n, 2), Sextet(n, 3)) == n
  {
    assert n == 64 * (n / 64) + n % 64;
    assert n / 64 == 64 * (n / 4096) + n / 64 % 64;
    assert n / 4096 == 64 * (n / 262144) + n / 4096 % 64;
  }

  lemma {:induction false} JoinedSplits(v0: nat, v1: nat, v2: nat, v3: nat)
    requires v0 < 64 && v1 < 64 && v2 < 64 && v3 < 64
    ensures var n := Joined(v0, v1, v2, v3);
      n < 0x100_0000 && Sextet(n, 0) == v0 && Sextet(n, 1) == v1 && Sextet(n, 2) == v2 && Sextet(n, 3) == v3
  {
    var n := Joined(v0, v1, v2, v3);
    assert n / 64 == (v0 * 64 + v1) * 64 + v2;
    assert n / 4096 == n / 64 / 64 == v0 * 64 + v1;
    assert n / 262144 == n / 4096 / 64 == v0;
  }

  lemma {:induction false} PackSplits(x: nat, y: nat, z: nat)
    requires x < 256 && y < 256 && z < 256
    ensures var n := Pack(x, y, z); n / 65536 == x && n / 256 % 256 == y && n % 256 == z
  {
    var n := Pack(x, y, z);
    assert n / 256 == x * 256 + y;
    assert n / 65536 == n / 256 / 256;
  }

  lemma {:induction false} SplitsPack(n: nat)
    requires n < 0x100_0000
    ensures n / 65536 < 256 && Pack(n / 65536, n / 256 % 256, n % 256) == n
  {
    assert n == 256 * (n / 256) + n % 256;
    assert n / 256 == 256 * (n / 65536) + n / 256 % 256;
  }

  lemma {:induction false} TwoBytesLeft(h: nat)
    ensures Sextet(h * 256, 3) == 0 && Sextet(h * 256, 2) % 4 == 0
  {
    assert h * 256 / 64 == h * 4;
    assert h * 256 == 64 * (h * 4);
    assert h * 4 % 64 == h * 4 - 64 * (h * 4 / 64);
  }

  lemma {:induction false} Whole(k: nat)
    ensures 64 * k % 64 == 0 && 64 * k / 64 == k
  {
  }

  lemma {:induction false} OneByteLeft(x: nat)
    ensures Sextet(x * 65536, 3) == 0 && Sextet(x * 65536, 2) == 0 && Sextet(x * 65536, 1) % 16 == 0
  {
    var n := x * 65536;
    Whole(x * 1024);
    Whole(x * 16);
    assert n / 64 == 64 * (x * 16) && n / 4096 == n / 64 / 64;
    var q := x * 16 / 64;
    assert x * 16 % 64 == 16 * (x - 4 * q);
  }

  /** What the letters of a group stand for. */
  lemma {:induction false} GroupValues(chunk: Bytes)
    requires 1 <= |chunk| <= 3
    ensures var g := Group(chunk);
      forall i :: 0 <= i < 4 ==>
        if i <= |chunk| then Value(g[i]) == Some(Sextet(Bits(chunk), i)) && g[i] != '=' else g[i] == '='
  {
  }

  lemma {:induction false} ThreeBytesBack(chunk: Bytes, g: string, last: bool)
    requires |chunk| == 3 && |g| == 4
    requires forall i :: 0 <= i < 4 ==> Value(g[i]) == Some(Sextet(Bits(chunk), i))
    ensures DecodeGroup(g, last) == Some(chunk)
  {
    SextetsJoin(Bits(chunk));
    PackSplits(chunk[0], chunk[1], chunk[2]);
    assert chunk == [chunk[0], chunk[1], chunk[2]];
  }

  lemma {:induction false} TwoBytesBack(chunk: Bytes, g: string)
    requires |chunk| == 2 && |g| == 4 && g[3] == '='
    requires forall i :: 0 <= i < 3 ==> Value(g[i]) == Some(Sextet(Bits(chunk), i))
    ensures DecodeGroup(g, true) == Some(chunk)
  {
    var n, h := Bits(chunk), chunk[0] as nat * 256 + chunk[1] as nat;
    assert n == h * 256;
    TwoBytesLeft(h);
    SextetsJoin(n);
    PackSplits(chunk[0], chunk[1], 0);
    assert chunk == [chunk[0], chunk[1]];
  }

  lemma {:induction false} OneByteBack(chunk: Bytes, g: string)
    requires |chunk| == 1 && |g| == 4 && g[2] == '=' && g[3] == '='
    requires forall i :: 0 <= i < 2 ==> Value(g[i]) == Some(Sextet(Bits(chunk), i))
    ensures DecodeGroup(g, true) == Some(chunk)
  {
    var n, x: nat := Bits(chunk), chunk[0];
    assert n == x * 65536;
    OneByteLeft(x);
    SextetsJoin(n);
    PackSplits(x, 0, 0);
    assert chunk == [chunk[0]];
  }

  /** A group is decoded to the bytes it was made from. */
  lemma {:induction false} GroupRoundTrip(chunk: Bytes, last: bool)
    requires 1 <= |chunk| <= 3 && (|chunk| < 3 ==> last)
    ensures DecodeGroup(Group(chunk), last) == Some(chunk)
  {
    GroupValues(chunk);
    if |chunk| == 3 { ThreeBytesBack(chunk, Group(chunk), last); }
    else if |chunk| == 2 { TwoBytesBack(chunk, Group(chunk)); }
    else { OneByteBack(chunk, Group(chunk)); }
  }

  lemma {:induction false} RoundTrip(b: Bytes)
    ensures Decode(Encode(b)) == Some(b)
    decreases |b|
  {
    if b != [] {
      var k := First(b);
      RoundTrip(b[k..]);
      var s, g := Encode(b), Group(b[..k]);
      assert s[..4] == g && s[4..] == Encode(b[k..]);
      Length(b[k..]);
      GroupRoundTrip(b[..k], |s| == 4);
      assert b == b[..k] + b[k..];
    }
  }

  function Padding(n: nat): nat { (3 - n % 3) % 3 }

  lemma {:induction false} Length(b: Bytes)
    ensures |Encode(b)| == 4 * ((|b| + 2) / 3)
    decreases |b|
  {
    if b != [] {
      Length(b[First(b)..]);
      PaddingStep(|b|);
    }
  }

  lemma {:induction false} PaddedAt(b: Bytes, i: nat)
    requires i < |Encode(b)|
    ensures Encode(b)[i] == '=' <==> i >= |Encode(b)| - Padding(|b|)
    decreases |b|
  {
    var k := First(b);
    var g, rest := Group(b[..k]), Encode(b[k..]);
    assert Encode(b) == g + rest;
    Length(b);
    if i < 4 {
      GroupValues(b[..k]);
      PaddingInFirst(|b|, i);
    } else {
      PaddedAt(b[k..], i - 4);
      Length(b[k..]);
      PaddingInRest(|b|, i);
    }
  }

  /** A character of the first group is padding just where it stands past the bytes there are. */
  lemma {:induction false} PaddingInFirst(n: nat, i: nat)
    requires n > 0 && i < 4
    ensures i > (if n < 3 then n else 3) <==> i >= 4 * ((n + 2) / 3) - Padding(n)
  {
    PaddingStep(n);
    if n > 3 { assert (n + 2) / 3 >= 2; }
  }

  /** Beyond it, padding is as of the rest. */
  lemma {:induction false} PaddingInRest(n: nat, i: nat)
    requires n > 0 && i >= 4 && i < 4 * ((n + 2) / 3)
    ensures n > 3 && 4 * ((n + 2) / 3) == 4 + 4 * ((n - 3 + 2) / 3) && Padding(n) == Padding(n - 3)
  {
    PaddingStep(n);
  }

  /** Four characters for every three bytes begun; padding at the end only, and as much as is missing. */
  lemma {:induction false} Shape(b: Bytes)
    ensures |Encode(b)| == 4 * ((|b| + 2) / 3)
    ensures forall i :: 0 <= i < |Encode(b)| ==> (Encode(b)[i] == '=' <==> i >= |Encode(b)| - Padding(|b|))
  {
    Length(b);
    forall i | 0 <= i < |Encode(b)| ensures Encode(b)[i] == '=' <==> i >= |Encode(b)| - Padding(|b|) {
      PaddedAt(b, i);
    }
  }

  lemma {:induction false} PaddingStep(n: nat)
    requires n > 0
    ensures n >= 3 ==> Padding(n) == Padding(n - 3) && (n + 2) / 3 == 1 + (n - 3 + 2) / 3
    ensures n > 3 ==> (n - 3 + 2) / 3 >= 1
    ensures n < 3 ==> Padding(n) == 3 - n && (n + 2) / 3 == 1
  {
  }

  /** What the decoder reads off a group, put back together. */
  lemma {:induction false} DecodedBits(g: string, last: bool)
    requires |g| == 4 && DecodeGroup(g, last).Some?
    ensures var chunk := DecodeGroup(g, last).value;
      && (forall i :: 0 <= i <= |chunk| && i < 4 ==> Value(g[i]) == Some(Sextet(Bits(chunk), i)))
      && (forall i :: |chunk| < i < 4 ==> g[i] == '=')
  {
    var v0, v1 := Value(g[0]).value, Value(g[1]).value;
    if Value(g[2]).Some? && Value(g[3]).Some? {
      ThreeFromFour(v0, v1, Value(g[2]).value, Value(g[3]).value);
    } else if Value(g[2]).Some? {
      TwoFromThree(v0, v1, Value(g[2]).value);
    } else {
      OneFromTwo(v0, v1);
    }
  }

  ghost predicate Sextets(n: nat, v0: nat, v1: nat, v2: nat, v3: nat) {
    Sextet(n, 0) == v0 && Sextet(n, 1) == v1 && Sextet(n, 2) == v2 && Sextet(n, 3) == v3
  }

  lemma {:induction false} ThreeFromFour(v0: nat, v1: nat, v2: nat, v3: nat)
    requires v0 < 64 && v1 < 64 && v2 < 64 && v3 < 64
    ensures var n := Joined(v0, v1, v2, v3);
      n / 65536 < 256 && Sextets(Bits([n / 65536, n / 256 % 256, n % 256]), v0, v1, v2, v3)
  {
    JoinedSplits(v0, v1, v2, v3);
    SplitsPack(Joined(v0, v1, v2, v3));
  }

  lemma {:induction false} TwoFromThree(v0: nat, v1: nat, v2: nat)
    requires v0 < 64 && v1 < 64 && v2 < 64 && v2 % 4 == 0
    ensures var n := Joined(v0, v1, v2, 0); n / 65536 < 256 && Sextets(Bits([n / 65536, n / 256 % 256]), v0, v1, v2, 0)
  {
    JoinedSplits(v0, v1, v2, 0);
    SplitsPack(Joined(v0, v1, v2, 0));
    LowBits(v0, v1, v2);
  }

  lemma {:induction false} OneFromTwo(v0: nat, v1: nat)
    requires v0 < 64 && v1 < 64 && v1 % 16 == 0
    ensures var n := Joined(v0, v1, 0, 0); n / 65536 < 256 && Sextets(Bits([n / 65536]), v0, v1, 0, 0)
  {
    JoinedSplits(v0, v1, 0, 0);
    SplitsPack(Joined(v0, v1, 0, 0));
    LowBits(v0, v1, 0);
  }

  lemma {:induction false} LowBits(v0: nat, v1: nat, v2: nat)
    ensures v2 % 4 == 0 ==> Joined(v0, v1, v2, 0) % 256 == 0
    ensures v1 % 16 == 0 && v2 == 0 ==> Joined(v0, v1, v2, 0) % 256 == 0 && Joined(v0, v1, v2, 0) / 256 % 256 == 0
  {
    var n, h := Joined(v0, v1, v2, 0), v0 * 64 + v1;
    if v2 % 4 == 0 { assert n == 256 * (h * 16 + v2 / 4); }
    if v1 % 16 == 0 && v2 == 0 { assert n == 65536 * (v0 * 4 + v1 / 16); }
  }

  lemma {:induction false} OneLetter(c: char, d: char)
    requires Value(c).Some? && Value(c) == Value(d)
    ensures c == d
  {
  }

  /** A group that decodes is the encoding of what it decodes to. */
  lemma {:induction false} GroupIsCanonical(g: string, last: bool)
    requires |g| == 4 && DecodeGroup(g, last).Some?
    ensures Group(DecodeGroup(g, last).value) == g
  {
    var chunk := DecodeGroup(g, last).value;
    DecodedBits(g, last);
    GroupValues(chunk);
    forall i | 0 <= i < 4 ensures Group(chunk)[i] == g[i] {
      if i <= |chunk| { OneLetter(Group(chunk)[i], g[i]); }
    }
  }

  /** Nothing else decodes: every string the decoder accepts is the encoding of what it reads. */
  lemma {:induction false} OnlyEncodings(s: string)
    requires Decode(s).Some?
    ensures Encode(Decode(s).value) == s
    decreases |s|
  {
    if s != "" {
      var last := |s| == 4;
      var chunk := DecodeGroup(s[..4], last).value;
      GroupIsCanonical(s[..4], last);
      OnlyEncodings(s[4..]);
      var rest := Decode(s[4..]).value;
      assert |chunk| < 3 ==> rest == [];
      var b := chunk + rest;
      assert b[..First(b)] == chunk && b[First(b)..] == rest;
      assert s == s[..4] + s[4..];
    }
  }

  // ---- letter by letter --------------------------------------------------------

  /** The `j`th six bits of three bytes. */
  function SixBits(x: nat, y: nat, z: nat, j: nat): nat {
    if j == 0 then x / 4 else if j == 1 then x % 4 * 16 + y / 16 else if j == 2 then y % 16 * 4 + z / 64 else z % 64
  }

  lemma {:induction false} SextetMeans(x: nat, y: nat, z: nat, j: nat)
    requires x < 256 && y < 256 && z < 256 && j < 4
    ensures Sextet(Pack(x, y, z), j) == SixBits(x, y, z, j)
  {
    var n, low, mid := Pack(x, y, z), y * 4 + z / 64, x * 16 + y / 16;
    PackInSixes(x, y, z);
    assert n / 4096 == n / 64 / 64 && n / 262144 == n / 4096 / 64;
    LowSix(x / 4, x % 4 * 16 + y / 16, mid);
    LowSix(mid, y % 16 * 4 + z / 64, x * 1024 + low);
    LowSix(x * 1024 + low, z % 64, n);
  }

  /** The last six bits, where the number is written as so many sixty-fours and the rest. */
  lemma {:induction false} LowSix(q: nat, r: nat, n: nat)
    requires n == 64 * q + r && r < 64
    ensures n % 64 == r && n / 64 == q
  {
  }

  lemma {:induction false} PackInSixes(x: nat, y: nat, z: nat)
    requires x < 256 && y < 256 && z < 256
    ensures Pack(x, y, z) == 64 * (x * 1024 + y * 4 + z / 64) + z % 64
    ensures x * 1024 + y * 4 + z / 64 == 64 * (x * 16 + y / 16) + (y % 16 * 4 + z / 64)
    ensures x * 16 + y / 16 == 64 * (x / 4) + (x % 4 * 16 + y / 16)
    ensures y % 16 * 4 + z / 64 < 64 && x % 4 * 16 + y / 16 < 64
  {
  }

  /** A letter is padding, or stands for the `j`th six bits of up to three bytes, absent ones as zero. */
  predicate StandsFor(c: char, chunk: Bytes, j: nat) {
    c == '=' || Value(c) == Some(SixBits(ByteAt(chunk, 0), ByteAt(chunk, 1), ByteAt(chunk, 2), j))
  }

  /** The four letters of up to three bytes stand for their bits, in their order. */
  lemma {:induction false} LetterMeans(chunk: Bytes, j: nat)
    requires 1 <= |chunk| <= 3 && j < 4
    ensures |Encode(chunk)| == 4 && StandsFor(Encode(chunk)[j], chunk, j)
  {
    GroupValues(chunk);
    SextetMeans(ByteAt(chunk, 0), ByteAt(chunk, 1), ByteAt(chunk, 2), j);
    assert chunk[..First(chunk)] == chunk && chunk[First(chunk)..] == [];
    assert Encode(chunk) == Group(chunk) + "";
  }

  lemma {:induction false} FirstThree(b: Bytes, rest: Bytes, g: string)
    requires |b| >= 3 && rest == b[3..] && g == Group(b[..3])
    ensures Encode(b) == g + Encode(rest)
  {
  }

  /** And any bytes are encoded three by three: what comes after three bytes, after their letters. */
  lemma {:induction false} ThreeByThree(x: Bytes, y: Bytes)
    requires |x| == 3
    ensures Encode(x + y) == Encode(x) + Encode(y)
  {
    var g := Group(x);
    assert x[..3] == x && (x + y)[..3] == x;
    FirstThree(x, [], g);
    FirstThree(x + y, y, g);
    assert g + "" == g;
  }
}
