/** Bytes and fixed-width little-endian integers, the memory layout the stream operators copy. */
module Bytes {

  type byte = b: int | 0 <= b < 256

  function Pow256(w: nat): (p: nat)
    ensures p >= 1
  {
    if w == 0 then 1 else 256 * Pow256(w - 1)
  }

  /** The w low bytes of n, least significant first: a store of n truncated to w bytes. */
  function Little(w: nat, n: nat): (bs: seq<byte>)
    ensures |bs| == w
    decreases w
  {
    if w == 0 then [] else [n % 256] + Little(w - 1, n / 256)
  }

  function FromLittle(bs: seq<byte>): (n: nat) {
    if bs == [] then 0 else bs[0] + 256 * FromLittle(bs[1..])
  }

  lemma {:induction false} LittleRoundTrip(w: nat, n: nat)
    requires n < Pow256(w)
    ensures FromLittle(Little(w, n)) == n
    decreases w
  {
    if w > 0 {
      LittleRoundTrip(w - 1, n / 256);
    }
  }

  lemma {:induction false} FromLittleBound(bs: seq<byte>)
    ensures FromLittle(bs) < Pow256(|bs|)
  {
    if bs != [] {
      FromLittleBound(bs[1..]);
    }
  }

  lemma Pow256Values()
    ensures Pow256(1) == 0x100 && Pow256(2) == 0x1_0000 && Pow256(4) == 0x1_0000_0000
  {
    assert Pow256(2) == 256 * Pow256(1);
    assert Pow256(3) == 256 * Pow256(2);
    assert Pow256(4) == 256 * Pow256(3);
  }

  // Quotients.

  lemma TimesAtLeast(k: int, size: nat)
    requires k >= 1
    ensures k * size >= size
  {
  }

  lemma SameQuotient(d: int, q: int, size: nat, r: int, r': int)
    requires d * size + r == q * size + r' && 0 <= r < size && 0 <= r' < size
    ensures d == q
  {
    assert (d - q) * size == d * size - q * size;
    assert (q - d) * size == q * size - d * size;
    if d > q {
      TimesAtLeast(d - q, size);
    } else if q > d {
      TimesAtLeast(q - d, size);
    }
  }

  lemma QuotientOf(q: nat, size: nat, r: nat)
    requires r < size
    ensures (q * size + r) / size == q
  {
    var n := q * size + r;
    DivMod(n, size);
    SameQuotient(n / size, q, size, n % size, r);
  }

  lemma DivMod(n: nat, size: nat)
    requires size > 0
    ensures n / size * size + n % size == n
  {
  }
}
