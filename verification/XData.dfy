/** The string containers that persist themselves through a stream: a string, a deque of strings and a
    map from strings to strings. Their counts are signed, their readers add to whatever the container
    already holds, and the map's reader overwrites. */
module XData {
  import opened Bytes
  import opened StreamCodec
  import opened ByteStream

  type Text = seq<byte>

  const INT32_LIMIT := 0x8000_0000

  const STRING_PAIR := TPair(TString, TString)

  function AsStrings(items: seq<Text>): (vs: seq<Val>)
    ensures |vs| == |items| && forall i :: 0 <= i < |items| ==> vs[i] == VString(items[i])
  {
    seq(|items|, i requires 0 <= i < |items| => VString(items[i]))
  }

  function AsTexts(vs: seq<Val>): (items: seq<Text>)
    ensures |items| == |vs|
    ensures forall i :: 0 <= i < |vs| && vs[i].VString? ==> items[i] == vs[i].s
  {
    seq(|vs|, i requires 0 <= i < |vs| => if vs[i].VString? then vs[i].s else [])
  }

  predicate Storable(items: seq<Text>) {
    |items| < INT32_LIMIT && forall i :: 0 <= i < |items| ==> |items[i]| < COUNT_LIMIT
  }

  /** The count a reader loops to: a negative one means no turn of the loop. */
  function SignedCount(bs: seq<byte>): nat {
    var n := FromBits(FromLittle(bs), 4, true);
    if n < 0 then 0 else n
  }

  lemma CountSurvives(n: nat, rest: seq<byte>)
    requires n < INT32_LIMIT
    ensures Take(4, Little(4, n) + rest) == Ok(Little(4, n), rest)
    ensures SignedCount(Little(4, n)) == n
  {
    Pow256Values();
    CountRoundTrip(n, rest);
  }

  // The deque.

  function EncodeDeque(items: seq<Text>): seq<byte>
    requires Storable(items)
  {
    Little(4, |items|) + EncodeAll(TString, AsStrings(items))
  }

  function DecodeDeque(bs: seq<byte>): Read<seq<Text>> {
    var n := Take(4, bs);
    if n.Throw? then Throw else
    var r := DecodeMany(TString, SignedCount(n.value), n.rest);
    if r.Throw? then Throw else Ok(AsTexts(r.value), r.rest)
  }

  lemma DequeRoundTrip(items: seq<Text>, rest: seq<byte>)
    requires Storable(items)
    ensures DecodeDeque(EncodeDeque(items) + rest) == Ok(items, rest)
  {
    var body := EncodeAll(TString, AsStrings(items));
    assert EncodeDeque(items) + rest == Little(4, |items|) + (body + rest);
    CountSurvives(|items|, body + rest);
    ManyRoundTrip(TString, AsStrings(items), rest);
    assert AsTexts(AsStrings(items)) == items;
  }

  lemma DequePrefixThrows(items: seq<Text>, k: nat)
    requires Storable(items) && k < |EncodeDeque(items)|
    ensures DecodeDeque(EncodeDeque(items)[..k]) == Throw
  {
    var body := EncodeAll(TString, AsStrings(items));
    CutConcat(Little(4, |items|), body, k);
    if k < 4 {
      TakeTruncated(Little(4, |items|), k);
    } else {
      CountSurvives(|items|, body[..k - 4]);
      ManyPrefixThrows(TString, AsStrings(items), k - 4);
    }
  }

  // The map.

  datatype Entry = Entry(key: Text, value: Text)

  function AsPairs(es: seq<Entry>): (vs: seq<Val>)
    ensures |vs| == |es|
    ensures forall i :: 0 <= i < |es| ==> vs[i] == VPair(VString(es[i].key), VString(es[i].value))
  {
    seq(|es|, i requires 0 <= i < |es| => VPair(VString(es[i].key), VString(es[i].value)))
  }

  function AsEntry(v: Val): Entry {
    if v.VPair? && v.fst.VString? && v.snd.VString? then Entry(v.fst.s, v.snd.s) else Entry([], [])
  }

  /** Assigning the entries one after the other into a map. */
  function Assign(m: map<Text, Text>, es: seq<Entry>): map<Text, Text>
    decreases |es|
  {
    if es == [] then m else Assign(m[es[0].key := es[0].value], es[1..])
  }

  /** One full pass of an iterator over m: every key once, whatever the order. */
  ghost predicate Iterates(es: seq<Entry>, m: map<Text, Text>) {
    && (forall i :: 0 <= i < |es| ==> es[i].key in m && m[es[i].key] == es[i].value)
    && (forall k :: k in m ==> exists i :: 0 <= i < |es| && es[i].key == k)
    && (forall i, j :: 0 <= i < j < |es| ==> es[i].key != es[j].key)
  }

  predicate StorableMap(es: seq<Entry>) {
    |es| < INT32_LIMIT &&
    forall i :: 0 <= i < |es| ==> |es[i].key| < COUNT_LIMIT && |es[i].value| < COUNT_LIMIT
  }

  function EncodeMap(es: seq<Entry>): seq<byte>
    requires StorableMap(es)
  {
    Little(4, |es|) + EncodeAll(STRING_PAIR, AsPairs(es))
  }

  function DecodeMap(bs: seq<byte>): Read<seq<Entry>> {
    var n := Take(4, bs);
    if n.Throw? then Throw else
    var r := DecodeMany(STRING_PAIR, SignedCount(n.value), n.rest);
    if r.Throw? then Throw else Ok(AsEntries(r.value), r.rest)
  }

  lemma IteratesRest(es: seq<Entry>, m: map<Text, Text>)
    requires Iterates(es, m) && es != []
    ensures Iterates(es[1..], m - {es[0].key})
    ensures es[0].key in m && m[es[0].key] == es[0].value
  {
    var rest, m' := es[1..], m - {es[0].key};
    forall i | 0 <= i < |rest|
      ensures rest[i].key in m' && m'[rest[i].key] == rest[i].value
    {
      assert rest[i] == es[i + 1];
    }
    forall k | k in m'
      ensures exists i :: 0 <= i < |rest| && rest[i].key == k
    {
      var i :| 0 <= i < |es| && es[i].key == k;
      assert rest[i - 1].key == k;
    }
  }

  lemma IteratesNothing(m: map<Text, Text>)
    requires Iterates([], m)
    ensures m == map[]
  {
  }

  lemma Overridden(t: map<Text, Text>, m: map<Text, Text>, k: Text)
    requires k in m
    ensures t[k := m[k]] + (m - {k}) == t + m
  {
  }

  /** Assigning all of m's entries into t gives t overridden by m. */
  lemma {:induction false} AssignPass(t: map<Text, Text>, es: seq<Entry>, m: map<Text, Text>)
    requires Iterates(es, m)
    ensures Assign(t, es) == t + m
    decreases |es|
  {
    hide Iterates;
    if es == [] {
      IteratesNothing(m);
      assert t + m == t;
    } else {
      var e := es[0];
      IteratesRest(es, m);
      AssignPass(t[e.key := e.value], es[1..], m - {e.key});
      Overridden(t, m, e.key);
    }
  }

  /** A map written in any iteration order reads back as itself, added to what the reader holds. */
  lemma MapRoundTrip(t: map<Text, Text>, m: map<Text, Text>, es: seq<Entry>, rest: seq<byte>)
    requires Iterates(es, m) && StorableMap(es)
    ensures var r := DecodeMap(EncodeMap(es) + rest);
            r == Ok(es, rest) && Assign(t, r.value) == t + m && Assign(map[], r.value) == m
  {
    hide Iterates, StorableMap, EncodeMap, DecodeMap, Assign;
    EntriesRoundTrip(es, rest);
    AssignPass(t, es, m);
    AssignPass(map[], es, m);
    assert map[] + m == m;
  }

  lemma PairsTyped(es: seq<Entry>)
    requires StorableMap(es)
    ensures forall v :: v in AsPairs(es) ==> HasType(v, STRING_PAIR)
  {
  }

  lemma PairsBack(es: seq<Entry>)
    ensures AsEntries(AsPairs(es)) == es
  {
  }

  lemma EntriesRoundTrip(es: seq<Entry>, rest: seq<byte>)
    requires StorableMap(es)
    ensures DecodeMap(EncodeMap(es) + rest) == Ok(es, rest)
  {
    hide EncodeAll, DecodeMany, Little, SignedCount, AsPairs, AsEntries, HasType;
    PairsTyped(es);
    PairsBack(es);
    var body := EncodeAll(STRING_PAIR, AsPairs(es));
    assert EncodeMap(es) + rest == Little(4, |es|) + (body + rest);
    CountSurvives(|es|, body + rest);
    ManyRoundTrip(STRING_PAIR, AsPairs(es), rest);
  }

  lemma MapPrefixThrows(es: seq<Entry>, k: nat)
    requires StorableMap(es) && k < |EncodeMap(es)|
    ensures DecodeMap(EncodeMap(es)[..k]) == Throw
  {
    var body := EncodeAll(STRING_PAIR, AsPairs(es));
    CutConcat(Little(4, |es|), body, k);
    if k < 4 {
      TakeTruncated(Little(4, |es|), k);
    } else {
      CountSurvives(|es|, body[..k - 4]);
      ManyPrefixThrows(STRING_PAIR, AsPairs(es), k - 4);
    }
  }

  /** The string object. */
  class StringObject {
    var text: Text

    constructor (s: Text)
      ensures text == s
    {
      text := s;
    }

    method DoWrite(stream: Stream) returns (count: nat)
      requires |text| < COUNT_LIMIT
      modifies stream
      ensures stream.content == old(stream.content) + Encode(TString, VString(text))
      ensures count == |Encode(TString, VString(text))|
    {
      count := stream.Write(TString, VString(text));
    }

    /** The text is replaced, or the read throws and leaves it. */
    method DoRead(stream: Stream) returns (ok: bool, count: int)
      modifies this, stream
      ensures var r := Decode(TString, old(stream.content));
              if ok then r == Ok(VString(text), stream.content) else r.Throw? && text == old(text)
      ensures ok ==> count == |old(stream.content)| - |stream.content|
    {
      var x;
      ok, x, count := stream.ReadValue(TString);
      if ok {
        text := x.s;
      }
    }
  }

  lemma TextsOneMore(xs: seq<Val>, x: Val)
    requires x.VString?
    ensures AsTexts(xs + [x]) == AsTexts(xs) + [x.s]
  {
  }

  lemma StringDecoded(bs: seq<byte>)
    ensures Decode(TString, bs).Ok? ==> Decode(TString, bs).value.VString?
  {
  }

  /** The deque object. */
  class StringDeque {
    var items: seq<Text>

    constructor ()
      ensures items == []
    {
      items := [];
    }

    method DoWrite(stream: Stream) returns (count: nat)
      requires Storable(items)
      modifies stream
      ensures stream.content == old(stream.content) + EncodeDeque(items)
      ensures count == |EncodeDeque(items)|
    {
      hide EncodeAll, Little;
      var begin := |stream.content|;
      stream.PushBack(Little(4, |items|));
      stream.WriteItems(TString, AsStrings(items));
      count := |stream.content| - begin;
    }

    /** ok is false where the source throws; the strings read before that stay in the deque. */
    method DoRead(stream: Stream) returns (ok: bool, count: int)
      modifies this, stream
      ensures var r := DecodeDeque(old(stream.content));
              if ok then r.Ok? && stream.content == r.rest && items == old(items) + r.value
              else r.Throw?
      ensures ok ==> count == |old(stream.content)| - |stream.content|
    {
      hide Decode, DecodeMany, Pending, SignedCount, AsTexts;
      var begin := |stream.content|;
      count := 0;
      var bs;
      ok, bs := stream.PopFront(4);
      if !ok { return; }
      var turns := SignedCount(bs);
      ghost var start := stream.content;
      ghost var xs: seq<Val> := [];
      PendingStart(TString, turns, start);
      var i := 0;
      while i < turns
        invariant i <= turns
        invariant Pending(TString, xs, turns - i, stream.content, turns, start)
        invariant items == old(items) + AsTexts(xs)
      {
        PendingStep(TString, xs, turns - i, stream.content, turns, start);
        StringDecoded(stream.content);
        var x, n;
        ok, x, n := stream.ReadValue(TString);
        if !ok { return; }
        TextsOneMore(xs, x);
        xs := xs + [x];
        items := items + [x.s];
        i := i + 1;
      }
      PendingDone(TString, xs, stream.content, turns, start);
      count := begin - |stream.content|;
    }
  }

  lemma {:induction false} AssignOneMore(m: map<Text, Text>, es: seq<Entry>, e: Entry)
    ensures Assign(m, es + [e]) == Assign(m, es)[e.key := e.value]
    decreases |es|
  {
    if es == [] {
      assert es + [e] == [e];
      assert [e][1..] == [];
    } else {
      assert (es + [e])[1..] == es[1..] + [e];
      AssignOneMore(m[es[0].key := es[0].value], es[1..], e);
    }
  }

  function AsEntries(vs: seq<Val>): (es: seq<Entry>)
    ensures |es| == |vs| && forall i :: 0 <= i < |vs| ==> es[i] == AsEntry(vs[i])
  {
    seq(|vs|, i requires 0 <= i < |vs| => AsEntry(vs[i]))
  }

  /** The map object. */
  class StringMap {
    var entries: map<Text, Text>

    constructor ()
      ensures entries == map[]
    {
      entries := map[];
    }

    /** `pass` is the order in which the iterator visits the entries. */
    method DoWrite(stream: Stream, pass: seq<Entry>) returns (count: nat)
      requires Iterates(pass, entries) && StorableMap(pass)
      modifies stream
      ensures stream.content == old(stream.content) + EncodeMap(pass)
      ensures count == |EncodeMap(pass)|
    {
      hide EncodeAll, Little, Iterates, HasType;
      PairsTyped(pass);
      var begin := |stream.content|;
      stream.PushBack(Little(4, |pass|));
      stream.WriteItems(STRING_PAIR, AsPairs(pass));
      count := |stream.content| - begin;
    }

    method DoRead(stream: Stream) returns (ok: bool, count: int)
      modifies this, stream
      ensures var r := DecodeMap(old(stream.content));
              if ok then r.Ok? && stream.content == r.rest && entries == Assign(old(entries), r.value)
              else r.Throw?
      ensures ok ==> count == |old(stream.content)| - |stream.content|
    {
      hide Decode, DecodeMany, Pending, SignedCount, AsEntry;
      var begin := |stream.content|;
      count := 0;
      var bs;
      ok, bs := stream.PopFront(4);
      if !ok { return; }
      var turns := SignedCount(bs);
      ghost var start := stream.content;
      ghost var xs: seq<Val> := [];
      PendingStart(STRING_PAIR, turns, start);
      var i := 0;
      while i < turns
        invariant i <= turns
        invariant Pending(STRING_PAIR, xs, turns - i, stream.content, turns, start)
        invariant entries == Assign(old(entries), AsEntries(xs))
      {
        PendingStep(STRING_PAIR, xs, turns - i, stream.content, turns, start);
        var x, n;
        ok, x, n := stream.ReadValue(STRING_PAIR);
        if !ok { return; }
        AssignOneMore(old(entries), AsEntries(xs), AsEntry(x));
        assert AsEntries(xs + [x]) == AsEntries(xs) + [AsEntry(x)];
        xs := xs + [x];
        entries := entries[AsEntry(x).key := AsEntry(x).value];
        i := i + 1;
      }
      PendingDone(STRING_PAIR, xs, stream.content, turns, start);
      count := begin - |stream.content|;
    }
  }
}
