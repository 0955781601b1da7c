/** The stream format byte by byte, and what the readers make of bytes no writer of theirs produced. */
module CodecLayout {
  import opened Bytes
  import opened StreamCodec
  import XData

  // Integers: least significant byte first, negative ones as two's complement.

  lemma {:induction false} LittleAt(w: nat, n: nat, i: nat)
    requires i < w
    ensures Little(w, n)[i] == n / Pow256(i) % 256
    decreases w
  {
    if i > 0 {
      LittleAt(w - 1, n / 256, i - 1);
      DivideTwice(n, Pow256(i - 1));
    }
  }

  lemma DivideTwice(n: nat, d: nat)
    requires d > 0
    ensures n / 256 / d == n / (256 * d)
  {
    var q, r := n / 256, n % 256;
    var a, b := q / d, q % d;
    assert n == 256 * q + r && q == d * a + b;
    Split(a, b, r, d);
    QuotientOf(a, 256 * d, 256 * b + r);
  }

  lemma Split(a: nat, b: nat, r: nat, d: nat)
    ensures 256 * (d * a + b) + r == a * (256 * d) + (256 * b + r)
  {
  }

  lemma Above(m: nat, x: nat, y: nat)
    requires x <= y
    ensures m * x <= m * y
  {
  }

  lemma Shifted(x: nat, y: nat, p: nat, n: nat)
    ensures x + 256 * (y + p * n) == (x + 256 * y) + (256 * p) * n
  {
  }

  lemma FirstByte(bs: seq<byte>)
    requires bs != []
    ensures FromLittle(bs) == bs[0] + 256 * FromLittle(bs[1..]) && Pow256(|bs|) == 256 * Pow256(|bs| - 1)
  {
  }

  lemma {:induction false} FromLittleConcat(a: seq<byte>, b: seq<byte>)
    ensures FromLittle(a + b) == FromLittle(a) + Pow256(|a|) * FromLittle(b)
    decreases |a|
  {
    if a == [] {
      assert a + b == b;
    } else {
      hide FromLittle, Pow256;
      assert (a + b)[1..] == a[1..] + b;
      FirstByte(a + b);
      FirstByte(a);
      FromLittleConcat(a[1..], b);
      Shifted(a[0], FromLittle(a[1..]), Pow256(|a| - 1), FromLittle(b));
    }
  }

  /** The sign is the top bit of the last byte. */
  lemma TopBit(bs: seq<byte>)
    requires bs != []
    ensures 2 * FromLittle(bs) >= Pow256(|bs|) <==> bs[|bs| - 1] >= 128
  {
    var n := |bs| - 1;
    assert bs == bs[..n] + [bs[n]];
    FromLittleConcat(bs[..n], [bs[n]]);
    FromLittleBound(bs[..n]);
    assert [bs[n]][1..] == [] && FromLittle([bs[n]]) == bs[n];
    assert Pow256(n + 1) == 256 * Pow256(n);
    TopByte(FromLittle(bs[..n]), Pow256(n), bs[n]);
  }

  lemma TopByte(low: nat, p: nat, top: byte)
    requires low < p
    ensures 2 * (low + p * top) >= 256 * p <==> top >= 128
  {
    if top >= 128 {
      Above(p, 128, top);
    } else {
      Above(p, top, 127);
    }
  }

  /** Any w bytes are an integer, whoever wrote them. */
  lemma AnyInteger(w: nat, signed: bool, bs: seq<byte>, rest: seq<byte>)
    requires |bs| == w > 0
    ensures Decode(TInt(w, signed), bs + rest) ==
            Ok(VInt(if signed && bs[w - 1] >= 128 then FromLittle(bs) - Pow256(w) else FromLittle(bs)), rest)
  {
    TakeWritten(bs, rest);
    TopBit(bs);
  }

  /** Any byte is a bool, and every byte but 0 is true. */
  lemma AnyBool(b: byte, rest: seq<byte>)
    ensures Decode(TBool, [b] + rest) == Ok(VBool(b != 0), rest)
  {
    TakeWritten([b], rest);
  }

  // The layout of everything else.

  function Concat(ts: seq<seq<byte>>): seq<byte> { if ts == [] then [] else ts[0] + Concat(ts[1..]) }

  lemma {:induction false} ElementsInOrder(e: Ty, vs: seq<Val>, ts: seq<seq<byte>>)
    requires (forall x :: x in vs ==> HasType(x, e)) && |ts| == |vs| && forall i :: 0 <= i < |vs| ==> ts[i] == Encode(e, vs[i])
    ensures EncodeAll(e, vs) == Concat(ts)
    decreases |vs|
  {
    hide HasType, Encode;
    if vs != [] {
      ElementsInOrder(e, vs[1..], ts[1..]);
    }
  }

  function FourBytes(n: nat): seq<byte> {
    [n % 256, n / 256 % 256, n / 0x1_0000 % 256, n / 0x100_0000 % 256]
  }

  lemma CountBytes(n: nat)
    ensures Little(4, n) == FourBytes(n)
  {
    Pow256Values();
    assert Pow256(0) == 1 && Pow256(3) == 256 * Pow256(2);
    LittleAt(4, n, 0);
    LittleAt(4, n, 1);
    LittleAt(4, n, 2);
    LittleAt(4, n, 3);
  }

  /** Bools are one byte, integers their bytes, strings a four-byte length and their bytes, pairs both halves in
      order, containers a four-byte count and their elements in order. */
  lemma Layout(ty: Ty, v: Val, ts: seq<seq<byte>>)
    requires HasType(v, ty)
    requires v.VMany? ==> |ts| == |v.items| && forall i :: 0 <= i < |ts| ==> HasType(v.items[i], Element(ty)) && ts[i] == Encode(Element(ty), v.items[i])
    ensures ty.TBool? ==> Encode(ty, v) == [if v.b then 1 else 0]
    ensures ty.TInt? ==> |Encode(ty, v)| == ty.width
    ensures ty.TInt? ==> forall i :: 0 <= i < ty.width ==>
              Encode(ty, v)[i] == (if v.n < 0 then v.n + Pow256(ty.width) else v.n) / Pow256(i) % 256
    ensures ty.TString? ==> Encode(ty, v) == FourBytes(|v.s|) + v.s
    ensures ty.TPair? ==> Encode(ty, v) == Encode(ty.first, v.fst) + Encode(ty.second, v.snd)
    ensures v.VMany? ==> Encode(ty, v) == FourBytes(|v.items|) + Concat(ts)
  {
    hide Little, EncodeAll, Concat, FourBytes;
    if ty.TInt? {
      forall i | 0 <= i < ty.width
        ensures Encode(ty, v)[i] == (if v.n < 0 then v.n + Pow256(ty.width) else v.n) / Pow256(i) % 256
      {
        LittleAt(ty.width, ToBits(v.n, ty.width), i);
      }
    } else if ty.TString? {
      CountBytes(|v.s|);
    } else if v.VMany? {
      CountBytes(|v.items|);
      ElementsInOrder(Element(ty), v.items, ts);
    }
  }

  /** A container whose count is negative reads as empty, and the bytes behind the count stay. */
  lemma NegativeCount(bs: seq<byte>, rest: seq<byte>)
    requires |bs| == 4 && bs[3] >= 128
    ensures XData.DecodeDeque(bs + rest) == Ok([], rest) && XData.DecodeMap(bs + rest) == Ok([], rest)
  {
    TakeWritten(bs, rest);
    TopBit(bs);
    FromLittleBound(bs);
    assert XData.SignedCount(bs) == 0;
  }
}
