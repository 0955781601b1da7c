/** Allocation that may be refused, C strings in arrays, and the stores both printers are made of. */
module JsonMemory {
  import opened Bytes
  import opened JsonText

  /** Remembers whether any allocation was ever refused. */
  class Heap {
    ghost var refused: bool

    method Allocate(n: nat) returns (a: array?<byte>)
      modifies this
      ensures refused == (old(refused) || a == null)
      ensures a != null ==> fresh(a) && a.Length == n
    {
      if * {
        refused := true;
        return null;
      }
      a := new byte[n];
    }

    ghost method Refuse()
      modifies this
      ensures refused
    {
      refused := true;
    }
  }

  /** The array holds the text and its terminator. */
  ghost predicate CString(a: array<byte>, text: Text)
    reads a
  {
    |text| < a.Length && a[..|text|] == text && a[|text|] == 0
  }

  /** strlen. */
  method Length(a: array<byte>, ghost text: Text) returns (n: nat)
    requires CString(a, text) && NulFree(text)
    ensures n == |text|
  {
    n := 0;
    while a[n] != 0
      invariant n <= |text|
      decreases |text| - n
    {
      assert a[n] == a[..|text|][n] || n == |text|;
      n := n + 1;
    }
  }

  lemma Assoc(a: Text, b: Text, c: Text)
    ensures (a + b) + c == a + (b + c)
  {
  }

  method Put(out: array<byte>, at: nat, b: byte)
    requires at < out.Length
    modifies out
    ensures out[..at + 1] == old(out[..at]) + [b]
  {
    out[at] := b;
  }

  /** memcpy. */
  method PutText(out: array<byte>, at: nat, text: Text)
    requires at + |text| <= out.Length
    modifies out
    ensures out[..at + |text|] == old(out[..at]) + text
  {
    forall i | 0 <= i < |text| {
      out[at + i] := text[i];
    }
    assert out[at..at + |text|] == text;
  }

  method PutTabs(out: array<byte>, at: nat, n: int)
    requires n <= 0 || at + n <= out.Length
    requires at <= out.Length
    modifies out
    ensures out[..at + |Tabs(n)|] == old(out[..at]) + Tabs(n)
  {
    var j := 0;
    while j < n
      invariant 0 <= j && (j <= n || j == 0)
      invariant out[..at + j] == old(out[..at]) + Tabs(j)
    {
      Put(out, at + j, TAB);
      assert Tabs(j + 1) == Tabs(j) + [TAB];
      j := j + 1;
    }
    assert Tabs(n) == Tabs(j);
  }

  // Escaping a string: counting, then writing.

  function EscapedSize(b: byte): nat {
    if b in {34, 92, 8, 12, 10, 13, 9} then 2 else if b < 32 then 6 else 1
  }

  lemma EscapedSizeExact(b: byte)
    ensures EscapedSize(b) == |EscapeByte(b)|
  {
  }

  lemma {:induction false} EscapeSnoc(s: Text, b: byte)
    ensures Escape(s + [b]) == Escape(s) + EscapeByte(b)
  {
    if s == [] {
      assert s + [b] == [b] && [b][1..] == [];
      assert Escape([b]) == EscapeByte(b) + Escape([]);
    } else {
      assert (s + [b])[1..] == s[1..] + [b];
      EscapeSnoc(s[1..], b);
    }
  }

  lemma {:induction false} NothingToEscape(s: Text)
    requires forall i :: 0 <= i < |s| ==> !NeedsEscape(s[i])
    ensures Escape(s) == s
  {
    if s != [] {
      NothingToEscape(s[1..]);
      assert s == [s[0]] + s[1..];
    }
  }

  method HasEscapes(s: Text) returns (flag: bool)
    ensures !flag ==> Escape(s) == s
  {
    flag := false;
    for i := 0 to |s|
      invariant !flag ==> forall k :: 0 <= k < i ==> !NeedsEscape(s[k])
    {
      if s[i] < 32 || s[i] == QUOTE || s[i] == BACKSLASH {
        flag := true;
      }
    }
    if !flag {
      NothingToEscape(s);
    }
  }

  method EscapedLength(s: Text) returns (len: nat)
    ensures len == |Escape(s)|
  {
    len := 0;
    for i := 0 to |s|
      invariant len == |Escape(s[..i])|
    {
      assert s[..i + 1] == s[..i] + [s[i]];
      EscapeSnoc(s[..i], s[i]);
      EscapedSizeExact(s[i]);
      len := len + 1;
      if s[i] in {34, 92, 8, 12, 10, 13, 9} {
        len := len + 1;
      } else if s[i] < 32 {
        len := len + 5;
      }
    }
    assert s[..|s|] == s;
  }

  /** One byte of the string, escaped where the standard asks for it. */
  method PutEscaped(out: array<byte>, at: nat, b: byte) returns (at': nat)
    requires at + |EscapeByte(b)| <= out.Length
    modifies out
    ensures at' == at + |EscapeByte(b)| && out[..at'] == old(out[..at]) + EscapeByte(b)
  {
    ghost var head := out[..at];
    if b > 31 && b != QUOTE && b != BACKSLASH {
      Put(out, at, b);
      return at + 1;
    }
    Put(out, at, BACKSLASH);
    if b in {92, 34, 8, 12, 10, 13, 9} {
      var c := if b == 8 then 98 else if b == 12 then 102 else if b == 10 then 110
               else if b == 13 then 114 else if b == 9 then 116 else b;
      assert EscapeByte(b) == [BACKSLASH] + [c];
      Assoc(head, [BACKSLASH], [c]);
      Put(out, at + 1, c);
      at' := at + 2;
    } else {
      var hex := [117, 48, 48, HexDigit(b / 16), HexDigit(b % 16)];
      assert EscapeByte(b) == [BACKSLASH] + hex;
      Assoc(head, [BACKSLASH], hex);
      PutText(out, at + 1, hex);
      at' := at + 6;
    }
  }

  lemma EscapeParts(s: Text, i: nat)
    requires i < |s|
    ensures Escape(s[..i + 1]) == Escape(s[..i]) + EscapeByte(s[i])
    ensures Escape(s[i..]) == EscapeByte(s[i]) + Escape(s[i + 1..])
  {
    assert s[..i + 1] == s[..i] + [s[i]] && s[i..] == [s[i]] + s[i + 1..];
    EscapeSnoc(s[..i], s[i]);
  }

  method PutEscapes(out: array<byte>, at: nat, s: Text) returns (j: nat)
    requires at + |Escape(s)| <= out.Length
    modifies out
    ensures j == at + |Escape(s)| && out[..j] == old(out[..at]) + Escape(s)
  {
    hide Escape, EscapeByte;
    ghost var head := out[..at];
    j := at;
    EscapeNothing();
    assert s[..0] == [] && s[0..] == s && head + [] == head;
    for i := 0 to |s|
      invariant j == at + |Escape(s[..i])| && j + |Escape(s[i..])| <= out.Length
      invariant out[..j] == head + Escape(s[..i])
    {
      EscapeParts(s, i);
      j := PutEscaped(out, j, s[i]);
    }
    assert s[..|s|] == s;
  }

  lemma EscapeNothing()
    ensures Escape([]) == []
  {
  }

  /** The literal and its terminator, into the space counted for it. */
  method PutQuoted(out: array<byte>, at: nat, s: Text, plain: bool)
    requires at + |Escape(s)| + 3 <= out.Length && (plain ==> Escape(s) == s)
    modifies out
    ensures var end := at + |Quoted(s)|;
            end < out.Length && out[..end] == old(out[..at]) + Quoted(s) && out[end] == 0
  {
    hide Escape;
    ghost var head := out[..at];
    Put(out, at, QUOTE);
    var j := at + 1;
    if plain {
      PutText(out, j, s);
      j := j + |s|;
    } else {
      j := PutEscapes(out, j, s);
    }
    Put(out, j, QUOTE);
    assert out[..j + 1] == head + Quoted(s);
    out[j + 1] := 0;
  }

  // Every printed text is a C string, so that its length can be found again.

  lemma QuotedNulFree(s: Text)
    ensures NulFree(Quoted(s))
  {
    EscapeNulFree(s);
  }

  lemma LayoutNulFree(fmt: bool, n: int)
    ensures NulFree(When(fmt, Tabs(n))) && NulFree(NameSeparator(fmt)) && NulFree(Opening(fmt))
    ensures NulFree(MemberEnd(fmt, true)) && NulFree(MemberEnd(fmt, false)) && NulFree(ItemSeparator(fmt))
  {
  }

  lemma {:induction false} PrintNulFree(v: Json, depth: int, fmt: bool)
    requires Renderable(v)
    ensures NulFree(Print(v, depth, fmt))
    decreases v, 0
  {
    match v
    case Number(m, _) => DecimalBytes(if m < 0 then -m else m);
    case String(s) => QuotedNulFree(s);
    case Array(items) =>
      ItemsNulFree(items, depth + 1, fmt);
    case Object(ms) =>
      MembersNulFree(ms, depth + 1, fmt);
      ObjectNulFree(ms, depth, fmt);
    case _ =>
  }

  lemma ObjectNulFree(ms: seq<Member>, depth: int, fmt: bool)
    requires NulFree(PrintMembers(ms, depth + 1, fmt))
    ensures NulFree(Print(Object(ms), depth, fmt))
  {
    hide NulFree, PrintMembers, When, Tabs, Opening;
    LayoutNulFree(fmt, depth - 1);
    LayoutNulFree(fmt, depth);
    ByteNulFree(CLOSE_OBJECT);
    if ms == [] {
      NulFreeConcat(Opening(fmt), When(fmt, Tabs(depth - 1)));
      NulFreeConcat(Opening(fmt) + When(fmt, Tabs(depth - 1)), [CLOSE_OBJECT]);
    } else {
      var body := PrintMembers(ms, depth + 1, fmt);
      NulFreeConcat(Opening(fmt), body);
      NulFreeConcat(Opening(fmt) + body, When(fmt, Tabs(depth)));
      NulFreeConcat(Opening(fmt) + body + When(fmt, Tabs(depth)), [CLOSE_OBJECT]);
    }
  }

  lemma ByteNulFree(b: byte)
    requires b != 0
    ensures NulFree([b])
  {
  }

  lemma {:induction false} ItemsNulFree(items: seq<Json>, depth: int, fmt: bool)
    requires forall x :: x in items ==> Renderable(x)
    ensures NulFree(PrintItems(items, depth, fmt))
    decreases items, 1
  {
    if items != [] {
      PrintNulFree(items[0], depth, fmt);
      if |items| > 1 {
        ItemsNulFree(items[1..], depth, fmt);
      }
    }
  }

  lemma {:induction false} MemberNulFree(m: Member, depth: int, fmt: bool, more: bool)
    requires Renderable(m.value)
    ensures NulFree(PrintMember(m, depth, fmt, more))
    decreases m, 1
  {
    hide NulFree, Print, When, Tabs, NameSeparator, MemberEnd, Quoted, Renderable;
    LayoutNulFree(fmt, depth);
    QuotedNulFree(m.name);
    PrintNulFree(m.value, depth, fmt);
    var a := When(fmt, Tabs(depth));
    var b := a + Quoted(m.name);
    var c := b + NameSeparator(fmt);
    NulFreeConcat(a, Quoted(m.name));
    NulFreeConcat(b, NameSeparator(fmt));
    NulFreeConcat(c, Print(m.value, depth, fmt));
    NulFreeConcat(c + Print(m.value, depth, fmt), MemberEnd(fmt, more));
  }

  lemma {:induction false} MembersNulFree(ms: seq<Member>, depth: int, fmt: bool)
    requires forall m :: m in ms ==> NulFree(m.name) && Renderable(m.value)
    ensures NulFree(PrintMembers(ms, depth, fmt))
    decreases ms, 1
  {
    if ms != [] {
      hide PrintMember;
      MemberNulFree(ms[0], depth, fmt, |ms| > 1);
      MembersNulFree(ms[1..], depth, fmt);
      NulFreeConcat(PrintMember(ms[0], depth, fmt, |ms| > 1), PrintMembers(ms[1..], depth, fmt));
    }
  }

  // A 32-bit integer takes at most eleven characters.

  function Pow10(k: nat): nat { if k == 0 then 1 else 10 * Pow10(k - 1) }

  lemma {:induction false} DecimalLength(n: nat, k: nat)
    requires n < 10 * Pow10(k)
    ensures |Decimal(n)| <= k + 1
  {
    if n >= 10 {
      DecimalLength(n / 10, k - 1);
    }
  }

  lemma IntegerLength(n: int)
    requires INT32_MIN <= n <= INT32_MAX
    ensures |Integer(n)| <= 11
  {
    assert Pow10(2) == 100 && Pow10(4) == 10_000 && Pow10(6) == 1_000_000 && Pow10(8) == 100_000_000;
    assert Pow10(9) == 10 * Pow10(8);
    DecimalLength(if n < 0 then -n else n, 9);
  }
}
