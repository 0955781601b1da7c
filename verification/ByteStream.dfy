/** The stream object: the operators with their container loops, proved to be the codec. */
module ByteStream {
  import opened Bytes
  import opened StreamCodec

  /** Prepending what a loop has read so far to what the rest of the loop will read. */
  function Prepend(xs: seq<Val>, r: Read<seq<Val>>): Read<seq<Val>> {
    if r.Throw? then Throw else Ok(xs + r.value, r.rest)
  }

  lemma {:induction false} EmplaceOneMore(ty: Ty, acc: seq<Val>, xs: seq<Val>, x: Val)
    ensures EmplaceAll(ty, acc, xs + [x]) == Emplace(ty, EmplaceAll(ty, acc, xs), x)
    decreases |xs|
  {
    if xs == [] {
      assert xs + [x] == [x];
      assert [x][1..] == [];
    } else {
      assert (xs + [x])[1..] == xs[1..] + [x];
      EmplaceOneMore(ty, Emplace(ty, acc, xs[0]), xs[1..], x);
    }
  }

  /** A reading loop in the middle: xs has been read, `left` elements are still to come from bs, and
      together they are what reading `count` elements from the start amounts to. */
  ghost predicate Pending(e: Ty, xs: seq<Val>, left: nat, bs: seq<byte>, count: nat, start: seq<byte>) {
    Prepend(xs, DecodeMany(e, left, bs)) == DecodeMany(e, count, start)
  }

  lemma PendingStart(e: Ty, count: nat, start: seq<byte>)
    ensures Pending(e, [], count, start, count, start)
  {
    var r := DecodeMany(e, count, start);
    if r.Ok? {
      assert [] + r.value == r.value;
    }
  }

  /** One turn of the loop: the next element moves from the input to the list, or the whole read throws. */
  lemma PendingStep(e: Ty, xs: seq<Val>, left: nat, bs: seq<byte>, count: nat, start: seq<byte>)
    requires left > 0 && Pending(e, xs, left, bs, count, start)
    ensures var x := Decode(e, bs);
            if x.Throw? then DecodeMany(e, count, start).Throw?
            else Pending(e, xs + [x.value], left - 1, x.rest, count, start)
  {
    var x := Decode(e, bs);
    if x.Ok? {
      var more := DecodeMany(e, left - 1, x.rest);
      if more.Ok? {
        assert xs + ([x.value] + more.value) == (xs + [x.value]) + more.value;
      }
    }
  }

  lemma PendingDone(e: Ty, xs: seq<Val>, bs: seq<byte>, count: nat, start: seq<byte>)
    requires Pending(e, xs, 0, bs, count, start)
    ensures DecodeMany(e, count, start) == Ok(xs, bs)
  {
    assert xs + [] == xs;
  }

  lemma {:induction false} EncodeAllSnoc(ty: Ty, vs: seq<Val>, x: Val)
    requires forall y :: y in vs + [x] ==> HasType(y, ty)
    requires forall y :: y in vs ==> HasType(y, ty)
    requires HasType(x, ty)
    ensures EncodeAll(ty, vs + [x]) == EncodeAll(ty, vs) + Encode(ty, x)
    decreases |vs|
  {
    if vs == [] {
      assert vs + [x] == [x];
      assert [x][1..] == [];
    } else {
      assert (vs + [x])[1..] == vs[1..] + [x];
      EncodeAllSnoc(ty, vs[1..], x);
    }
  }

  lemma WriteOneMore(ty: Ty, vs: seq<Val>, i: nat)
    requires i < |vs| && forall y :: y in vs ==> HasType(y, ty)
    ensures EncodeAll(ty, vs[..i + 1]) == EncodeAll(ty, vs[..i]) + Encode(ty, vs[i])
  {
    assert vs[..i + 1] == vs[..i] + [vs[i]];
    EncodeAllSnoc(ty, vs[..i], vs[i]);
  }

  lemma ContainerShape(ty: Ty, v: Val)
    requires HasType(v, ty) && v.VMany?
    ensures forall y :: y in v.items ==> HasType(y, Element(ty))
    ensures Encode(ty, v) == Little(4, |v.items|) + EncodeAll(Element(ty), v.items)
  {
  }

  class Stream {
    var content: seq<byte>

    constructor ()
      ensures content == []
    {
      content := [];
    }

    method PushBack(bs: seq<byte>)
      modifies this
      ensures content == old(content) + bs
    {
      content := content + bs;
    }

    method PushFront(bs: seq<byte>)
      modifies this
      ensures content == bs + old(content)
    {
      content := bs + content;
    }

    method PopFront(n: nat) returns (ok: bool, bs: seq<byte>)
      modifies this
      ensures var r := Take(n, old(content));
              if ok then r == Ok(bs, content) else r.Throw? && content == old(content)
    {
      ok, bs := |content| >= n, [];
      if ok {
        bs, content := content[..n], content[n..];
      }
    }

    /** operator << ; the result is the byte count it reports. */
    method Write(ty: Ty, v: Val) returns (count: nat)
      requires HasType(v, ty)
      modifies this
      ensures content == old(content) + Encode(ty, v)
      ensures count == |Encode(ty, v)|
      decreases v, 1
    {
      hide EncodeAll, Little, ToBits;
      var begin := |content|;
      match ty {
        case TBool => PushBack([if v.b then 1 else 0]);
        case TInt(w, _) => PushBack(Little(w, ToBits(v.n, w)));
        case TString => WriteString(v.s);
        case TPair(a, b) => WritePair(a, b, v.fst, v.snd);
        case _ => WriteContainer(ty, v);
      }
      count := |content| - begin;
    }

    method WritePair(a: Ty, b: Ty, x: Val, y: Val)
      requires HasType(x, a) && HasType(y, b)
      modifies this
      ensures content == old(content) + (Encode(a, x) + Encode(b, y))
      decreases VPair(x, y), 0
    {
      hide Encode, HasType;
      var m := Write(a, x);
      var n := Write(b, y);
    }

    method WriteString(s: seq<byte>)
      modifies this
      ensures content == old(content) + (Little(4, |s|) + s)
    {
      PushBack(Little(4, |s|));
      if |s| > 0 { PushBack(s); }
    }

    method WriteContainer(ty: Ty, v: Val)
      requires HasType(v, ty) && v.VMany?
      modifies this
      ensures content == old(content) + Encode(ty, v)
      decreases v, 0
    {
      ContainerShape(ty, v);
      PushBack(Little(4, |v.items|));
      WriteItems(Element(ty), v.items);
    }

    method WriteItems(e: Ty, items: seq<Val>)
      requires forall y :: y in items ==> HasType(y, e)
      modifies this
      ensures content == old(content) + EncodeAll(e, items)
      decreases items
    {
      hide Encode, HasType;
      var i := 0;
      while i < |items|
        invariant i <= |items|
        invariant content == old(content) + EncodeAll(e, items[..i])
      {
        WriteOneMore(e, items, i);
        var n := Write(e, items[i]);
        i := i + 1;
      }
      assert items[..i] == items;
    }

    /** operator >> ; ok is false where the source throws, count is the number of bytes it reports. */
    method ReadValue(ty: Ty) returns (ok: bool, v: Val, count: int)
      modifies this
      ensures var r := Decode(ty, old(content)); if ok then r == Ok(v, content) else r.Throw?
      ensures ok ==> count == |old(content)| - |content|
      decreases ty, 1
    {
      v, count := VBool(false), 0;
      match ty
      case TBool =>
        var bs;
        ok, bs := PopFront(1);
        if ok { v, count := VBool(bs[0] != 0), 1; }
      case TInt(w, signed) =>
        var bs;
        ok, bs := PopFront(w);
        if ok { v, count := VInt(FromBits(FromLittle(bs), w, signed)), w; }
      case TString =>
        var bs;
        ok, bs := PopFront(4);
        if ok {
          var n := FromLittle(bs);
          ok, bs := PopFront(n);
          v, count := VString(bs), n + 4;
        }
      case TPair(a, b) =>
        var x, y, m;
        ok, x, count := ReadValue(a);
        if ok {
          ok, y, m := ReadValue(b);
          v, count := VPair(x, y), count + m;
        }
      case _ =>
        var items;
        ok, items, count := ReadItems(ty, []);
        v := VMany(items);
    }

    /** The container readers: `into` is what the container holds already. */
    method ReadItems(ty: Ty, into: seq<Val>) returns (ok: bool, acc: seq<Val>, count: int)
      requires ty.TVector? || ty.TSet? || ty.TMap?
      modifies this
      ensures var r := DecodeInto(ty, into, old(content)); if ok then r == Ok(acc, content) else r.Throw?
      ensures ok ==> count == |old(content)| - |content|
      decreases ty, 0
    {
      var begin := |content|;
      acc, count := into, 0;
      var e := Element(ty);
      var bs;
      ok, bs := PopFront(4);
      if !ok { return; }
      var n := FromLittle(bs);
      if TooShort(ty, n, |content|) { return false, acc, 0; }
      ghost var start := content;
      ghost var xs: seq<Val> := [];
      PendingStart(e, n, start);
      var i := 0;
      while i < n
        invariant i <= n
        invariant Pending(e, xs, n - i, content, n, start)
        invariant acc == EmplaceAll(ty, into, xs)
      {
        PendingStep(e, xs, n - i, content, n, start);
        var x, m;
        ok, x, m := ReadValue(e);
        if !ok { return; }
        EmplaceOneMore(ty, into, xs, x);
        acc, xs := Emplace(ty, acc, x), xs + [x];
        i := i + 1;
      }
      PendingDone(e, xs, content, n, start);
      count := begin - |content|;
    }

    /** write_short_string and write_tiny_string are w == 2 and w == 1. */
    method WriteSized(w: nat, s: seq<byte>) returns (count: nat)
      modifies this
      ensures content == old(content) + EncodeSized(w, s)
      ensures count == |EncodeSized(w, s)|
    {
      var n := Truncated(|s|, Pow256(w));
      PushBack(Little(w, n));
      if n > 0 { PushBack(s[..n]); }
      count := w + n;
    }

    method ReadSized(w: nat) returns (ok: bool, s: seq<byte>, count: int)
      modifies this
      ensures var r := DecodeSized(w, old(content)); if ok then r == Ok(s, content) else r.Throw?
      ensures ok ==> count == |old(content)| - |content|
    {
      count := 0;
      ok, s := PopFront(w);
      if ok {
        var n := FromLittle(s);
        ok, s := PopFront(n);
        count := n + w;
      }
    }

    /** serialize_to_front of a string: the bytes first, then the length before them. */
    method WriteToFront(s: seq<byte>) returns (count: nat)
      requires |s| < COUNT_LIMIT
      modifies this
      ensures content == Encode(TString, VString(s)) + old(content)
      ensures count == |Encode(TString, VString(s))|
    {
      if |s| > 0 { PushFront(s); }
      PushFront(Little(4, |s|));
      count := |s| + 4;
    }
  }
}
