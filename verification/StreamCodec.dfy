/** The stream operators: every scalar, string and container is written so that reading needs no
    delimiter. A type stands for one instantiation of the operator templates, and runs of the reader
    either yield a value and the bytes behind it or throw. */
module StreamCodec {
  import opened Bytes

  /** A map is a container of pairs. */
  datatype Ty =
    | TBool
    | TInt(width: nat, signed: bool)
    | TString
    | TPair(first: Ty, second: Ty)
    | TVector(elem: Ty)
    | TSet(elem: Ty)
    | TMap(entry: Ty)

  /** Sets and maps are listed in the order the container is iterated. */
  datatype Val =
    | VBool(b: bool)
    | VInt(n: int)
    | VString(s: seq<byte>)
    | VPair(fst: Val, snd: Val)
    | VMany(items: seq<Val>)

  datatype Read<+T> = Ok(value: T, rest: seq<byte>) | Throw

  /** Every instantiation takes at least one byte, the fact behind the readers' size checks. */
  predicate Sensible(ty: Ty) {
    match ty
    case TBool => true
    case TInt(w, _) => w > 0
    case TString => true
    case TPair(a, b) => Sensible(a) && Sensible(b)
    case TVector(e) => Sensible(e)
    case TSet(e) => Sensible(e)
    case TMap(e) => e.TPair? && Sensible(e)
  }

  predicate IntFits(n: int, w: nat, signed: bool) {
    if signed then -(Pow256(w) as int) <= 2 * n < Pow256(w) else 0 <= n < Pow256(w)
  }

  const COUNT_LIMIT := 0x1_0000_0000

  predicate Distinct(vs: seq<Val>) {
    forall i, j :: 0 <= i < j < |vs| ==> vs[i] != vs[j]
  }

  predicate DistinctKeys(vs: seq<Val>) {
    forall i, j :: 0 <= i < j < |vs| && vs[i].VPair? && vs[j].VPair? ==> vs[i].fst != vs[j].fst
  }

  predicate HasType(v: Val, ty: Ty)
    decreases v
  {
    match ty
    case TBool => v.VBool?
    case TInt(w, signed) => v.VInt? && IntFits(v.n, w, signed)
    case TString => v.VString? && |v.s| < COUNT_LIMIT
    case TPair(a, b) => v.VPair? && HasType(v.fst, a) && HasType(v.snd, b)
    case TVector(e) => v.VMany? && |v.items| < COUNT_LIMIT && forall x :: x in v.items ==> HasType(x, e)
    case TSet(e) => v.VMany? && |v.items| < COUNT_LIMIT && Distinct(v.items) && forall x :: x in v.items ==> HasType(x, e)
    case TMap(e) => v.VMany? && |v.items| < COUNT_LIMIT && DistinctKeys(v.items) && forall x :: x in v.items ==> HasType(x, e)
  }

  // Writing.

  function ToBits(n: int, w: nat): nat
    requires -(Pow256(w) as int) <= n
  {
    if n < 0 then n + Pow256(w) else n
  }

  function Encode(ty: Ty, v: Val): seq<byte>
    requires HasType(v, ty)
    decreases v, 0
  {
    match ty
    case TBool => [if v.b then 1 else 0]
    case TInt(w, _) => Little(w, ToBits(v.n, w))
    case TString => Little(4, |v.s|) + v.s
    case TPair(a, b) => Encode(a, v.fst) + Encode(b, v.snd)
    case TVector(e) => Little(4, |v.items|) + EncodeAll(e, v.items)
    case TSet(e) => Little(4, |v.items|) + EncodeAll(e, v.items)
    case TMap(e) => Little(4, |v.items|) + EncodeAll(e, v.items)
  }

  function EncodeAll(ty: Ty, vs: seq<Val>): seq<byte>
    requires forall x :: x in vs ==> HasType(x, ty)
    decreases vs, 1
  {
    if vs == [] then [] else Encode(ty, vs[0]) + EncodeAll(ty, vs[1..])
  }

  // Reading.

  function Take(n: nat, bs: seq<byte>): Read<seq<byte>> {
    if |bs| < n then Throw else Ok(bs[..n], bs[n..])
  }

  function FromBits(u: nat, w: nat, signed: bool): int {
    if signed && 2 * u >= Pow256(w) then u - Pow256(w) else u
  }

  /** Emplacing into a set or map keeps the entry that is there already. */
  function Emplace(ty: Ty, acc: seq<Val>, x: Val): seq<Val> {
    match ty
    case TSet(_) => if x in acc then acc else acc + [x]
    case TMap(_) => if exists y :: y in acc && y.VPair? && x.VPair? && y.fst == x.fst then acc else acc + [x]
    case _ => acc + [x]
  }

  function EmplaceAll(ty: Ty, acc: seq<Val>, xs: seq<Val>): seq<Val>
    decreases |xs|
  {
    if xs == [] then acc else EmplaceAll(ty, Emplace(ty, acc, xs[0]), xs[1..])
  }

  /** The size check of a container reader; the map's doubled count wraps at 32 bits. */
  predicate TooShort(ty: Ty, count: nat, size: nat) {
    size < if ty.TMap? then 2 * count % COUNT_LIMIT else count
  }

  function Element(ty: Ty): Ty
    requires ty.TVector? || ty.TSet? || ty.TMap?
  {
    if ty.TMap? then ty.entry else ty.elem
  }

  function Decode(ty: Ty, bs: seq<byte>): Read<Val>
    decreases ty, 0
  {
    match ty
    case TBool =>
      var r := Take(1, bs);
      if r.Throw? then Throw else Ok(VBool(r.value[0] != 0), r.rest)
    case TInt(w, signed) =>
      var r := Take(w, bs);
      if r.Throw? then Throw else Ok(VInt(FromBits(FromLittle(r.value), w, signed)), r.rest)
    case TString =>
      var n := Take(4, bs);
      if n.Throw? then Throw else
      var s := Take(FromLittle(n.value), n.rest);
      if s.Throw? then Throw else Ok(VString(s.value), s.rest)
    case TPair(a, b) =>
      var x := Decode(a, bs);
      if x.Throw? then Throw else
      var y := Decode(b, x.rest);
      if y.Throw? then Throw else Ok(VPair(x.value, y.value), y.rest)
    case _ =>
      var n := Take(4, bs);
      if n.Throw? then Throw else
      var count := FromLittle(n.value);
      if TooShort(ty, count, |n.rest|) then Throw else
      var xs := DecodeMany(Element(ty), count, n.rest);
      if xs.Throw? then Throw else Ok(VMany(EmplaceAll(ty, [], xs.value)), xs.rest)
  }

  function DecodeMany(ty: Ty, count: nat, bs: seq<byte>): Read<seq<Val>>
    decreases ty, count + 1
  {
    if count == 0 then Ok([], bs)
    else
      var x := Decode(ty, bs);
      if x.Throw? then Throw else
      var xs := DecodeMany(ty, count - 1, x.rest);
      if xs.Throw? then Throw else Ok([x.value] + xs.value, xs.rest)
  }

  // Reading undoes writing.

  lemma TakeWritten(a: seq<byte>, b: seq<byte>)
    ensures Take(|a|, a + b) == Ok(a, b)
  {
  }

  lemma IntRoundTrip(w: nat, signed: bool, n: int, rest: seq<byte>)
    requires IntFits(n, w, signed)
    ensures Decode(TInt(w, signed), Little(w, ToBits(n, w)) + rest) == Ok(VInt(n), rest)
  {
    TakeWritten(Little(w, ToBits(n, w)), rest);
    LittleRoundTrip(w, ToBits(n, w));
  }

  lemma CountRoundTrip(n: nat, rest: seq<byte>)
    requires n < COUNT_LIMIT
    ensures Take(4, Little(4, n) + rest) == Ok(Little(4, n), rest)
    ensures FromLittle(Little(4, n)) == n
  {
    Pow256Values();
    TakeWritten(Little(4, n), rest);
    LittleRoundTrip(4, n);
  }

  /** Emplacing entries that are pairwise different keeps them all, in order. */
  lemma {:induction false} EmplaceDistinct(ty: Ty, acc: seq<Val>, xs: seq<Val>)
    requires ty.TSet? ==> Distinct(acc + xs)
    requires ty.TMap? ==> DistinctKeys(acc + xs)
    ensures EmplaceAll(ty, acc, xs) == acc + xs
    decreases |xs|
  {
    if xs == [] {
      assert acc + xs == acc;
    } else {
      assert (acc + xs)[|acc|] == xs[0];
      assert forall i :: 0 <= i < |acc| ==> (acc + xs)[i] == acc[i];
      assert acc + xs == (acc + [xs[0]]) + xs[1..];
      EmplaceDistinct(ty, acc + [xs[0]], xs[1..]);
    }
  }

  lemma {:induction false} EncodeNonempty(ty: Ty, v: Val)
    requires Sensible(ty) && HasType(v, ty)
    ensures |Encode(ty, v)| >= if ty.TPair? then 2 else 1
  {
    if ty.TPair? {
      EncodeNonempty(ty.first, v.fst);
      EncodeNonempty(ty.second, v.snd);
    }
  }

  lemma {:induction false} EncodeAllSize(ty: Ty, vs: seq<Val>)
    requires Sensible(ty) && forall x :: x in vs ==> HasType(x, ty)
    ensures |EncodeAll(ty, vs)| >= if ty.TPair? then 2 * |vs| else |vs|
    decreases |vs|
  {
    if vs != [] {
      EncodeNonempty(ty, vs[0]);
      EncodeAllSize(ty, vs[1..]);
    }
  }

  /** Reading a written value gives it back and leaves the bytes behind it. */
  lemma {:induction false} RoundTrip(ty: Ty, v: Val, rest: seq<byte>)
    requires Sensible(ty) && HasType(v, ty)
    ensures Decode(ty, Encode(ty, v) + rest) == Ok(v, rest)
    decreases v, 1
  {
    hide EncodeAll, DecodeMany, Little, FromLittle, ToBits, FromBits, EmplaceAll, TooShort;
    match ty
    case TBool => TakeWritten([if v.b then 1 else 0], rest);
    case TInt(w, signed) => IntRoundTrip(w, signed, v.n, rest);
    case TString => StringRoundTrip(v.s, rest);
    case TPair(a, b) =>
      assert Encode(ty, v) + rest == Encode(a, v.fst) + (Encode(b, v.snd) + rest);
      RoundTrip(a, v.fst, Encode(b, v.snd) + rest);
      RoundTrip(b, v.snd, rest);
    case _ =>
      ContainerRoundTrip(ty, v, rest);
  }

  lemma StringRoundTrip(s: seq<byte>, rest: seq<byte>)
    requires |s| < COUNT_LIMIT
    ensures Decode(TString, (Little(4, |s|) + s) + rest) == Ok(VString(s), rest)
  {
    hide Little, FromLittle;
    assert (Little(4, |s|) + s) + rest == Little(4, |s|) + (s + rest);
    CountRoundTrip(|s|, s + rest);
    TakeWritten(s, rest);
  }

  lemma ContainerRoundTrip(ty: Ty, v: Val, rest: seq<byte>)
    requires Sensible(ty) && HasType(v, ty) && v.VMany?
    ensures Decode(ty, Encode(ty, v) + rest) == Ok(v, rest)
    decreases v, 0
  {
    var e := Element(ty);
    var body := EncodeAll(e, v.items);
    assert Encode(ty, v) + rest == Little(4, |v.items|) + (body + rest);
    CountRoundTrip(|v.items|, body + rest);
    SizeCheckPasses(ty, v, rest);
    ManyRoundTrip(e, v.items, rest);
    EmplaceKeepsAll(ty, v);
  }

  lemma SizeCheckPasses(ty: Ty, v: Val, rest: seq<byte>)
    requires Sensible(ty) && HasType(v, ty) && v.VMany?
    ensures !TooShort(ty, |v.items|, |EncodeAll(Element(ty), v.items) + rest|)
  {
    EncodeAllSize(Element(ty), v.items);
  }

  lemma EmplaceKeepsAll(ty: Ty, v: Val)
    requires HasType(v, ty) && v.VMany?
    ensures EmplaceAll(ty, [], v.items) == v.items
  {
    assert [] + v.items == v.items;
    EmplaceDistinct(ty, [], v.items);
  }

  lemma {:induction false} ManyRoundTrip(ty: Ty, vs: seq<Val>, rest: seq<byte>)
    requires Sensible(ty) && forall x :: x in vs ==> HasType(x, ty)
    ensures DecodeMany(ty, |vs|, EncodeAll(ty, vs) + rest) == Ok(vs, rest)
    decreases vs, 1
  {
    hide HasType, Encode, Decode;
    if vs == [] {
      assert EncodeAll(ty, vs) + rest == rest;
    } else {
      var tail := EncodeAll(ty, vs[1..]) + rest;
      assert EncodeAll(ty, vs) + rest == Encode(ty, vs[0]) + tail;
      RoundTrip(ty, vs[0], tail);
      ManyRoundTrip(ty, vs[1..], rest);
      assert [vs[0]] + vs[1..] == vs;
    }
  }

  // Reading into a container that is not empty.

  /** A container reader adds to what the container holds. */
  function DecodeInto(ty: Ty, into: seq<Val>, bs: seq<byte>): Read<seq<Val>>
    requires ty.TVector? || ty.TSet? || ty.TMap?
  {
    var n := Take(4, bs);
    if n.Throw? then Throw else
    var count := FromLittle(n.value);
    if TooShort(ty, count, |n.rest|) then Throw else
    var xs := DecodeMany(Element(ty), count, n.rest);
    if xs.Throw? then Throw else Ok(EmplaceAll(ty, into, xs.value), xs.rest)
  }

  /** What was written is emplaced behind what is there: all of it for a vector or list, for a set or map what
      has no entry yet. */
  lemma ReadsInto(ty: Ty, v: Val, into: seq<Val>, rest: seq<byte>)
    requires Sensible(ty) && HasType(v, ty) && v.VMany?
    ensures DecodeInto(ty, into, Encode(ty, v) + rest) == Ok(EmplaceAll(ty, into, v.items), rest)
    ensures ty.TVector? ==> EmplaceAll(ty, into, v.items) == into + v.items
    ensures (ty.TSet? && Distinct(into + v.items)) || (ty.TMap? && DistinctKeys(into + v.items)) ==>
              EmplaceAll(ty, into, v.items) == into + v.items
  {
    hide EncodeAll, DecodeMany, Little, FromLittle, EmplaceAll, TooShort, Distinct, DistinctKeys;
    var e := Element(ty);
    var body := EncodeAll(e, v.items);
    assert Encode(ty, v) + rest == Little(4, |v.items|) + (body + rest);
    CountRoundTrip(|v.items|, body + rest);
    SizeCheckPasses(ty, v, rest);
    ManyRoundTrip(e, v.items, rest);
    if ty.TVector? || (ty.TSet? && Distinct(into + v.items)) || (ty.TMap? && DistinctKeys(into + v.items)) {
      EmplaceDistinct(ty, into, v.items);
    }
  }

  predicate SameKey(x: Val, y: Val) { x.VPair? && y.VPair? && x.fst == y.fst }

  /** Whatever is read into a set or map, what was there stays, in place and unchanged, and nothing comes in twice;
      so for a key that was there the old entry wins. */
  lemma {:induction false} EmplaceKeeps(ty: Ty, into: seq<Val>, xs: seq<Val>)
    requires ty.TSet? || ty.TMap?
    ensures into <= EmplaceAll(ty, into, xs)
    ensures ty.TSet? && Distinct(into) ==> Distinct(EmplaceAll(ty, into, xs))
    ensures ty.TMap? && DistinctKeys(into) && (forall i :: 0 <= i < |xs| ==> xs[i].VPair?) ==> DistinctKeys(EmplaceAll(ty, into, xs))
    decreases |xs|
  {
    hide Distinct, DistinctKeys;
    if xs != [] {
      EmplaceOne(ty, into, xs[0]);
      EmplaceKeeps(ty, Emplace(ty, into, xs[0]), xs[1..]);
    }
  }

  lemma EmplaceOne(ty: Ty, into: seq<Val>, x: Val)
    requires ty.TSet? || ty.TMap?
    ensures into <= Emplace(ty, into, x)
    ensures ty.TSet? && Distinct(into) ==> Distinct(Emplace(ty, into, x))
    ensures ty.TMap? && DistinctKeys(into) && x.VPair? ==> DistinctKeys(Emplace(ty, into, x))
    ensures ty.TSet? ==> x in Emplace(ty, into, x)
    ensures ty.TMap? && x.VPair? ==> exists y :: y in Emplace(ty, into, x) && SameKey(y, x)
    ensures ty.TMap? && (exists y :: y in into && SameKey(y, x)) ==> Emplace(ty, into, x) == into
  {
    if ty.TMap? && x.VPair? {
      if exists y :: y in into && y.VPair? && x.VPair? && y.fst == x.fst {
        var y :| y in into && y.VPair? && x.VPair? && y.fst == x.fst;
        assert SameKey(y, x);
      } else {
        assert x in into + [x] && SameKey(x, x);
      }
    }
  }

  /** Nothing that was read is missing. */
  lemma {:induction false} EmplaceCovers(ty: Ty, into: seq<Val>, xs: seq<Val>, i: nat)
    requires (ty.TSet? || ty.TMap?) && i < |xs| && (ty.TMap? ==> xs[i].VPair?)
    ensures var r := EmplaceAll(ty, into, xs);
            (ty.TSet? ==> xs[i] in r) && (ty.TMap? ==> exists y :: y in r && SameKey(y, xs[i]))
    decreases i
  {
    var one := Emplace(ty, into, xs[0]);
    if i == 0 {
      EmplaceOne(ty, into, xs[0]);
      EmplaceKeeps(ty, one, xs[1..]);
      var r := EmplaceAll(ty, into, xs);
      assert one <= r;
      if ty.TMap? {
        var y :| y in one && SameKey(y, xs[0]);
        assert y in r;
      }
    } else {
      EmplaceCovers(ty, one, xs[1..], i - 1);
    }
  }

  // Truncated input.

  lemma TakeTruncated(a: seq<byte>, k: nat)
    requires k < |a|
    ensures Take(|a|, a[..k]) == Throw
  {
  }

  /** Cutting a + b either cuts a short or leaves a whole and cuts b. */
  lemma CutConcat(a: seq<byte>, b: seq<byte>, k: nat)
    requires k <= |a + b|
    ensures k <= |a| ==> (a + b)[..k] == a[..k]
    ensures k >= |a| ==> (a + b)[..k] == a + b[..k - |a|]
  {
  }

  /** No proper prefix of an encoding is mistaken for a value: the reader throws. */
  lemma {:induction false} PrefixThrows(ty: Ty, v: Val, k: nat)
    requires Sensible(ty) && HasType(v, ty) && k < |Encode(ty, v)|
    ensures Decode(ty, Encode(ty, v)[..k]) == Throw
    decreases v, 1
  {
    match ty
    case TBool =>
    case TInt(w, _) => TakeTruncated(Encode(ty, v), k);
    case TString =>
      CutConcat(Little(4, |v.s|), v.s, k);
      if k >= 4 {
        CountRoundTrip(|v.s|, v.s[..k - 4]);
        TakeTruncated(v.s, k - 4);
      } else {
        TakeTruncated(Little(4, |v.s|), k);
      }
    case TPair(a, b) =>
      var x := Encode(a, v.fst);
      CutConcat(x, Encode(b, v.snd), k);
      if k < |x| {
        PrefixThrows(a, v.fst, k);
      } else {
        RoundTrip(a, v.fst, Encode(b, v.snd)[..k - |x|]);
        PrefixThrows(b, v.snd, k - |x|);
      }
    case _ =>
      ContainerPrefixThrows(ty, v, k);
  }

  lemma ContainerPrefixThrows(ty: Ty, v: Val, k: nat)
    requires Sensible(ty) && HasType(v, ty) && v.VMany? && k < |Encode(ty, v)|
    ensures Decode(ty, Encode(ty, v)[..k]) == Throw
    decreases v, 0
  {
    var count := Little(4, |v.items|);
    var body := EncodeAll(Element(ty), v.items);
    CutConcat(count, body, k);
    if k < 4 {
      TakeTruncated(count, k);
    } else {
      CountRoundTrip(|v.items|, body[..k - 4]);
      ManyPrefixThrows(Element(ty), v.items, k - 4);
    }
  }

  lemma {:induction false} ManyPrefixThrows(ty: Ty, vs: seq<Val>, k: nat)
    requires Sensible(ty) && (forall x :: x in vs ==> HasType(x, ty)) && k < |EncodeAll(ty, vs)|
    ensures DecodeMany(ty, |vs|, EncodeAll(ty, vs)[..k]) == Throw
    decreases vs, 1
  {
    var x := Encode(ty, vs[0]);
    CutConcat(x, EncodeAll(ty, vs[1..]), k);
    if k < |x| {
      PrefixThrows(ty, vs[0], k);
    } else {
      RoundTrip(ty, vs[0], EncodeAll(ty, vs[1..])[..k - |x|]);
      ManyPrefixThrows(ty, vs[1..], k - |x|);
    }
  }

  /** The code is self-delimiting: a stream can be cut into a value and a rest in one way only. */
  lemma UniquelyReadable(ty: Ty, v: Val, w: Val, r: seq<byte>, q: seq<byte>)
    requires Sensible(ty) && HasType(v, ty) && HasType(w, ty)
    requires Encode(ty, v) + r == Encode(ty, w) + q
    ensures v == w && r == q
  {
    RoundTrip(ty, v, r);
    RoundTrip(ty, w, q);
  }

  // The copying shortcut for vectors of single bytes.

  const BYTE_VECTOR := TVector(TInt(1, false))

  function AsVals(bs: seq<byte>): (vs: seq<Val>)
    ensures |vs| == |bs| && forall i :: 0 <= i < |bs| ==> vs[i] == VInt(bs[i])
  {
    seq(|bs|, i requires 0 <= i < |bs| => VInt(bs[i]))
  }

  function EncodeBytesFast(bs: seq<byte>): seq<byte> { Little(4, |bs|) + bs }

  function DecodeBytesFast(bs: seq<byte>): Read<seq<byte>> {
    var n := Take(4, bs);
    if n.Throw? then Throw else Take(FromLittle(n.value), n.rest)
  }

  lemma ByteFits(bs: seq<byte>)
    ensures forall x :: x in AsVals(bs) ==> HasType(x, TInt(1, false))
  {
    Pow256Values();
  }

  lemma {:induction false} BytesOneByOne(bs: seq<byte>)
    requires forall x :: x in AsVals(bs) ==> HasType(x, TInt(1, false))
    ensures EncodeAll(TInt(1, false), AsVals(bs)) == bs
  {
    if bs != [] {
      Pow256Values();
      assert AsVals(bs)[1..] == AsVals(bs[1..]);
      assert Little(1, bs[0]) == [bs[0]] + Little(0, bs[0] / 256);
      BytesOneByOne(bs[1..]);
    }
  }

  lemma {:induction false} ManyBytesAtOnce(count: nat, bs: seq<byte>)
    ensures DecodeMany(TInt(1, false), count, bs) ==
            if |bs| < count then Throw else Ok(AsVals(bs[..count]), bs[count..])
    decreases count
  {
    if count == 0 {
      assert AsVals(bs[..0]) == [];
    } else if bs != [] {
      var one := bs[..1];
      assert one[1..] == [] && FromLittle(one[1..]) == 0;
      ManyBytesAtOnce(count - 1, bs[1..]);
      if |bs| >= count {
        assert AsVals(bs[..count]) == [VInt(bs[0])] + AsVals(bs[1..][..count - 1]);
        assert bs[1..][count - 1..] == bs[count..];
      }
    }
  }

  /** Writing and reading the bytes in one copy is the same as element by element, on every vector and
      on every input, malformed ones included. */
  lemma BytesFastIsSlow(bs: seq<byte>, input: seq<byte>)
    ensures |bs| < COUNT_LIMIT ==>
              && HasType(VMany(AsVals(bs)), BYTE_VECTOR)
              && EncodeBytesFast(bs) == Encode(BYTE_VECTOR, VMany(AsVals(bs)))
    ensures Decode(BYTE_VECTOR, input) ==
            var r := DecodeBytesFast(input);
            if r.Throw? then Throw else Ok(VMany(AsVals(r.value)), r.rest)
  {
    ByteFits(bs);
    BytesOneByOne(bs);
    var n := Take(4, input);
    if n.Ok? {
      ManyBytesAtOnce(FromLittle(n.value), n.rest);
      var r := DecodeBytesFast(input);
      if r.Ok? {
        assert [] + AsVals(r.value) == AsVals(r.value);
        EmplaceDistinct(BYTE_VECTOR, [], AsVals(r.value));
      }
    }
  }

  // Strings behind a length of 4, 2 or 1 bytes.

  function Truncated(n: nat, modulus: nat): (r: nat)
    requires modulus > 0
    ensures r <= n && r < modulus
    ensures n < modulus ==> r == n
  {
    n % modulus
  }

  /** The length is stored truncated, and only that many bytes follow. */
  function EncodeSized(w: nat, s: seq<byte>): seq<byte> {
    var n := Truncated(|s|, Pow256(w));
    Little(w, n) + s[..n]
  }

  function DecodeSized(w: nat, bs: seq<byte>): Read<seq<byte>> {
    var n := Take(w, bs);
    if n.Throw? then Throw else Take(FromLittle(n.value), n.rest)
  }

  /** A string survives exactly when its length fits the length field. */
  lemma SizedRoundTripIff(w: nat, s: seq<byte>, rest: seq<byte>)
    ensures DecodeSized(w, EncodeSized(w, s) + rest) == Ok(s, rest) <==> |s| < Pow256(w)
  {
    var n := Truncated(|s|, Pow256(w));
    assert EncodeSized(w, s) + rest == Little(w, n) + (s[..n] + rest);
    TakeWritten(Little(w, n), s[..n] + rest);
    LittleRoundTrip(w, n);
    TakeWritten(s[..n], rest);
    if |s| < Pow256(w) {
      assert s[..n] == s;
    } else {
      assert |s[..n]| < |s|;
    }
  }

  /** The ordinary string operator is the four-byte case. */
  lemma StringIsSized(s: seq<byte>, bs: seq<byte>)
    ensures |s| < COUNT_LIMIT ==> Encode(TString, VString(s)) == EncodeSized(4, s)
    ensures Decode(TString, bs) ==
            var r := DecodeSized(4, bs);
            if r.Throw? then Throw else Ok(VString(r.value), r.rest)
  {
    Pow256Values();
    if |s| < COUNT_LIMIT {
      assert s[..|s|] == s;
    }
  }
}
