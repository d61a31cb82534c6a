/** Bytes and the little-endian encoding that the kernel's packed structures use. */
module Bytes {
  type Byte = b: nat | b < 256

  const TWO_64: nat := 0x1_0000_0000_0000_0000

  function Pow256(k: nat): (p: nat)
    ensures p > 0
  {
    if k == 0 then 1 else 256 * Pow256(k - 1)
  }

  function ToLe(n: nat, k: nat): (bs: seq<Byte>)
    ensures |bs| == k
  {
    if k == 0 then [] else [n % 256] + ToLe(n / 256, k - 1)
  }

  function FromLe(bs: seq<Byte>): (n: nat)
    ensures n < Pow256(|bs|)
  {
    if bs == [] then 0 else bs[0] + 256 * FromLe(bs[1..])
  }

  lemma {:induction false} FromToLe(n: nat, k: nat)
    requires n < Pow256(k)
    ensures FromLe(ToLe(n, k)) == n
  {
    if k == 0 {
    } else {
      FromToLe(n / 256, k - 1);
      assert ToLe(n, k)[1..] == ToLe(n / 256, k - 1);
    }
  }

  lemma {:induction false} ToFromLe(bs: seq<Byte>)
    ensures ToLe(FromLe(bs), |bs|) == bs
  {
    if bs == [] {
    } else {
      ToFromLe(bs[1..]);
      assert FromLe(bs) % 256 == bs[0] && FromLe(bs) / 256 == FromLe(bs[1..]);
    }
  }

  lemma SmallMultiple(d: int, base: nat)
    requires -(base as int) < d * base < base
    ensures d == 0
  {
  }

  lemma DivMod(low: nat, high: nat, base: nat)
    requires low < base
    ensures (low + base * high) / base == high && (low + base * high) % base == low
  {
    var n := low + base * high;
    var q, r := n / base, n % base;
    assert n == q * base + r;
    assert (q - high) * base == q * base - high * base;
    SmallMultiple(q - high, base);
  }

  /** Byte k has weight 256^k: the least significant one comes first. */
  lemma {:induction false} LeByte(bs: seq<Byte>, k: nat)
    requires k < |bs|
    ensures FromLe(bs) / Pow256(k) % 256 == bs[k]
  {
    if k > 0 {
      LeByte(bs[1..], k - 1);
      var n, p := FromLe(bs), Pow256(k - 1);
      DivTwice(n, p);
      assert n / 256 == FromLe(bs[1..]);
    }
  }

  lemma DivTwice(n: nat, p: nat)
    requires p > 0
    ensures n / (256 * p) == n / 256 / p
  {
    var q, r := n / 256, n % 256;
    var a, b := q / p, q % p;
    assert n == 256 * (p * a + b) + r;
    assert 256 * (p * a) == (256 * p) * a;
    assert 256 * b + r < 256 * p;
    DivMod(256 * b + r, a, 256 * p);
  }

  lemma Pow256At8()
    ensures Pow256(8) == TWO_64
  {
    assert Pow256(4) == 0x1_0000_0000;
    assert Pow256(6) == 0x1_0000_0000_0000;
  }

  lemma Pow256At4()
    ensures Pow256(4) == 0x1_0000_0000
  {
    assert Pow256(2) == 0x1_0000;
  }
}
