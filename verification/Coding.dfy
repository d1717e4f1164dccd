/** Bytes on disk and on the wire: little-endian fixed-width integers and base-128 varints. */
module Coding {
  import opened Wrappers

  type byte = b: int | 0 <= b < 256

  // ---- Fixed width ----

  function Pow256(n: nat): (r: nat)
    ensures r > 0
  {
    if n == 0 then 1 else 256 * Pow256(n - 1)
  }

  /** The low n bytes of v, least significant first. */
  function Fixed(n: nat, v: nat): (r: seq<byte>)
    ensures |r| == n
  {
    if n == 0 then [] else [v % 256] + Fixed(n - 1, v / 256)
  }

  function FixedValue(b: seq<byte>): nat {
    if |b| == 0 then 0 else b[0] + 256 * FixedValue(b[1..])
  }

  /** What is read back is what was written, cut to the width. */
  lemma {:induction false} FixedReadsBack(n: nat, v: nat)
    ensures FixedValue(Fixed(n, v)) == v % Pow256(n)
  {
    if n > 0 {
      FixedReadsBack(n - 1, v / 256);
      assert Fixed(n, v)[1..] == Fixed(n - 1, v / 256);
      DivModSplit(v, Pow256(n - 1));
    }
  }

  lemma DivModSplit(v: nat, p: nat)
    requires p > 0
    ensures v % (256 * p) == v % 256 + 256 * ((v / 256) % p)
  {
    var q, r := v / 256 / p, (v / 256) % p;
    assert v / 256 == q * p + r;
    assert v == 256 * (q * p + r) + v % 256;
    assert 256 * (q * p) == q * (256 * p);
    ModIs(v, 256 * p, q, 256 * r + v % 256);
  }

  lemma SmallMultiple(k: int, m: nat)
    requires m > 0 && 0 - m < k * m < m
    ensures k == 0
  {
    assert k >= 1 ==> k * m >= m;
    assert k < 0 ==> k * m + m <= 0;
  }

  lemma ModIs(v: nat, m: nat, q: nat, r: nat)
    requires m > 0 && r < m && v == q * m + r
    ensures v % m == r && v / m == q
  {
    var d, s := v / m, v % m;
    assert v == d * m + s;
    assert (d - q) * m == r - s;
    SmallMultiple(d - q, m);
  }

  lemma {:induction false} FixedOnto(b: seq<byte>)
    ensures FixedValue(b) < Pow256(|b|) && Fixed(|b|, FixedValue(b)) == b
  {
    if |b| > 0 {
      FixedOnto(b[1..]);
      assert FixedValue(b) % 256 == b[0] && FixedValue(b) / 256 == FixedValue(b[1..]);
    }
  }

  /** One byte of a little-endian integer. */
  lemma {:induction false} FixedAt(n: nat, v: nat, i: nat)
    requires i < n
    ensures Fixed(n, v)[i] == v / Pow256(i) % 256
  {
    if i > 0 {
      FixedAt(n - 1, v / 256, i - 1);
      DivTwice(v, 256, Pow256(i - 1));
    }
  }

  lemma DivTwice(v: nat, a: nat, b: nat)
    requires a > 0 && b > 0
    ensures a * b > 0 && v / a / b == v / (a * b)
  {
    Parts(v, a);
    Parts(v / a, b);
    Product(a, b, v / a / b, (v / a) % b, v % a, a * b);
    Quotient(v, a * b, v / a / b, a * ((v / a) % b) + v % a);
  }

  lemma Parts(v: nat, a: nat)
    requires a > 0
    ensures v == (v / a) * a + v % a && v % a < a
  {
  }

  lemma Quotient(v: nat, m: nat, q: nat, r: nat)
    requires r < m && v == q * m + r
    ensures v / m == q
  {
    ModIs(v, m, q, r);
  }

  lemma Product(a: nat, b: nat, q: nat, r: nat, s: nat, ab: nat)
    requires s < a && r < b && ab == a * b
    ensures 0 <= a * r + s < ab && (q * b + r) * a + s == q * ab + (a * r + s)
  {
    Monotone(a, r + 1, b);
    assert a * (r + 1) == a * r + a;
    calc {
      (q * b + r) * a;
      q * b * a + r * a;
      q * (b * a) + a * r;
    }
  }

  lemma Monotone(a: nat, x: nat, y: nat)
    requires x <= y
    ensures a * x <= a * y
  {
  }

  // ---- Varints ----

  /** Seven bits to a byte, the high bit set on all but the last. */
  function Varint(v: nat): (r: seq<byte>)
    ensures |r| > 0
  {
    if v < 128 then [v] else [128 + v % 128] + Varint(v / 128)
  }

  /** The first bytes of `b` read as a varint of at most `n` bytes: its value and its length. */
  function ReadVarint(b: seq<byte>, n: nat): Option<(nat, nat)> {
    if n == 0 || |b| == 0 then None
    else if b[0] < 128 then Some((b[0], 1))
    else
      match ReadVarint(b[1..], n - 1)
      case None => None
      case Some(r) => Some((b[0] - 128 + 128 * r.0, r.1 + 1))
  }

  lemma {:induction false} VarintReadsBack(v: nat, rest: seq<byte>, n: nat)
    requires |Varint(v)| <= n
    ensures ReadVarint(Varint(v) + rest, n) == Some((v, |Varint(v)|))
  {
    if v >= 128 {
      VarintReadsBack(v / 128, rest, n - 1);
      assert (Varint(v) + rest)[1..] == Varint(v / 128) + rest;
    } else {
      assert (Varint(v) + rest)[0] == v;
    }
  }

  function Pow128(n: nat): (r: nat)
    ensures r > 0
  {
    if n == 0 then 1 else 128 * Pow128(n - 1)
  }

  /** Byte by byte: groups of seven bits, the least significant first, with the high bit set on all but
      the last, and no more of them than it takes. */
  lemma {:induction false} VarintAt(v: nat, i: nat)
    requires i < |Varint(v)|
    ensures var r := Varint(v);
            && r[i] == v / Pow128(i) % 128 + (if i < |r| - 1 then 128 else 0)
            && (i == |r| - 1 ==> v / Pow128(i) < 128 && (i > 0 ==> v / Pow128(i) > 0))
    decreases i
  {
    if i > 0 {
      assert Varint(v) == [128 + v % 128] + Varint(v / 128);
      VarintAt(v / 128, i - 1);
      DivTwice(v, 128, Pow128(i - 1));
    }
  }

  lemma {:induction false} VarintFits(v: nat, n: nat)
    requires v < Pow128(n) && n > 0
    ensures |Varint(v)| <= n
  {
    if v >= 128 {
      VarintFits(v / 128, n - 1);
    }
  }
}
