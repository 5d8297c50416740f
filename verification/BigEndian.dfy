/** Fixed-width big-endian integers. */
module BigEndian {
  type Byte = x: int | 0 <= x < 256
  type Bytes = seq<Byte>

  function Pow256(k: nat): (p: nat)
    ensures p >= 1
  {
    if k == 0 then 1 else 256 * Pow256(k - 1)
  }

  /** The low `k` bytes of `n`, most significant first. */
  function ToBytes(n: nat, k: nat): (b: Bytes)
    ensures |b| == k
  {
    if k == 0 then [] else ToBytes(n / 256, k - 1) + [n % 256]
  }

  function FromBytes(b: Bytes): nat {
    if b == [] then 0 else 256 * FromBytes(b[..|b| - 1]) + b[|b| - 1]
  }

  lemma {:induction false} Widths()
    ensures Pow256(2) == 0x1_0000 && Pow256(4) == 0x1_0000_0000 && Pow256(8) == 0x1_0000_0000_0000_0000
  {
    assert Pow256(1) == 256 * Pow256(0) && Pow256(2) == 256 * Pow256(1);
    assert Pow256(3) == 256 * Pow256(2) && Pow256(4) == 256 * Pow256(3);
    assert Pow256(5) == 256 * Pow256(4) && Pow256(6) == 256 * Pow256(5);
    assert Pow256(7) == 256 * Pow256(6) && Pow256(8) == 256 * Pow256(7);
  }

  lemma {:induction false} DropByte(n: nat, p: nat)
    requires p >= 1
    ensures 256 * (n / 256 % p) + n % 256 == n % (256 * p)
  {
    var q, r := n / 256 / p, n / 256 % p;
    assert n / 256 == p * q + r;
    assert n == 256 * (p * q + r) + n % 256;
    assert 256 * (p * q + r) == (256 * p) * q + 256 * r;
    RemainderOf(n, 256 * p, q, 256 * r + n % 256);
  }

  lemma {:induction false} MultipleIsFar(d: nat, m: nat)
    requires m >= 1
    ensures d * m >= d
  {
    assert d * m == d + d * (m - 1);
  }

  lemma {:induction false} RemainderOf(n: nat, d: nat, q: nat, r: nat)
    requires d >= 1 && n == d * q + r && r < d
    ensures n % d == r
  {
    var q', r' := n / d, n % d;
    if q' > q {
      MultipleIsFar(d, q' - q);
    } else if q' < q {
      MultipleIsFar(d, q - q');
    }
  }

  /** What is read back is what was written, as far as it fits. */
  lemma {:induction false} ReadBack(n: nat, k: nat)
    ensures FromBytes(ToBytes(n, k)) == n % Pow256(k)
    decreases k
  {
    if k > 0 {
      var b := ToBytes(n, k);
      assert b[..k - 1] == ToBytes(n / 256, k - 1);
      ReadBack(n / 256, k - 1);
      DropByte(n, Pow256(k - 1));
    }
  }

  /** Every string of `k` bytes is the writing of one number. */
  lemma {:induction false} WriteBack(b: Bytes)
    ensures ToBytes(FromBytes(b), |b|) == b && FromBytes(b) < Pow256(|b|)
    decreases |b|
  {
    if b != [] {
      WriteBack(b[..|b| - 1]);
      var high := FromBytes(b[..|b| - 1]);
      assert FromBytes(b) / 256 == high && FromBytes(b) % 256 == b[|b| - 1];
    }
  }

  lemma {:induction false} DivideTwice(n: nat, p: nat)
    requires p >= 1
    ensures n / 256 / p == n / (256 * p)
  {
    var q, r := n / 256 / p, n / 256 % p;
    assert n / 256 == p * q + r;
    assert n == 256 * (p * q + r) + n % 256;
    assert 256 * (p * q + r) == (256 * p) * q + 256 * r;
    QuotientOf(n, 256 * p, q, 256 * r + n % 256);
  }

  lemma {:induction false} QuotientOf(n: nat, d: nat, q: nat, r: nat)
    requires d >= 1 && n == d * q + r && r < d
    ensures n / d == q
  {
    var q' := n / d;
    if q' > q {
      MultipleIsFar(d, q' - q);
    } else if q' < q {
      MultipleIsFar(d, q - q');
    }
  }

  /** The most significant byte comes first: the last is `n` modulo 256, and each counts 256 of the next. */
  lemma {:induction false} DigitMeans(n: nat, k: nat, i: nat)
    requires i < k
    ensures ToBytes(n, k)[i] == n / Pow256(k - 1 - i) % 256
    decreases k
  {
    if i < k - 1 {
      DigitMeans(n / 256, k - 1, i);
      DivideTwice(n, Pow256(k - 2 - i));
    }
  }
}
