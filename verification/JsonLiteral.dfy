/** The two passes over a string literal: counting, then writing into an array of the counted size. */
module JsonLiteral {
  import opened Bytes
  import opened JsonText
  import opened JsonString

  /** The first pass. */
  method CountChars(t: Text, from: nat) returns (len: nat)
    requires from <= |t| && FirstPassStays(t[from..])
    ensures len == CharCount(t[from..])
  {
    var i := from;
    len := 0;
    while i < |t| && t[i] != QUOTE
      invariant i <= |t| && FirstPassStays(t[i..])
      invariant CharCount(t[from..]) == len + CharCount(t[i..])
      decreases |t| - i
    {
      len := len + 1;
      DropStep(t, i, 1);
      if t[i] == BACKSLASH {
        DropStep(t, i, 2);
        i := i + 2;
      } else {
        i := i + 1;
      }
    }
  }

  /** The bytes of a code point, from the last to the first. */
  method WriteUtf8(c: nat, out: array<byte>, at: nat)
    requires c < 0x11_0000 && at + Utf8Length(c) <= out.Length
    modifies out
    ensures out[at..at + Utf8Length(c)] == Utf8(c)
    ensures out[..at] == old(out[..at])
  {
    hide Utf8Length, FirstByteMark;
    var len := Utf8Length(c);
    var k, u := len, c;
    while k > 1
      invariant 1 <= k <= len
      invariant Continuation(c, len - 1) == Continuation(u, k - 1) + out[at + k..at + len]
      invariant ShiftedBy6(c, len - 1) == ShiftedBy6(u, k - 1)
      invariant out[..at] == old(out[..at])
    {
      ghost var later := out[at + k..at + len];
      k := k - 1;
      out[at + k] := 0x80 + u % 64;
      assert out[at + k..at + len] == [0x80 + u % 64] + later;
      u := u / 64;
    }
    LeadFits(c);
    ghost var later := out[at + 1..at + len];
    out[at] := FirstByteMark(len) + u;
    assert out[at..at + len] == [FirstByteMark(len) + u] + later;
  }

  /** The second pass at one UTF-16 escape. */
  method WriteUnicode(t: Text, i: nat, out: array<byte>, j: nat) returns (i': nat, j': nat)
    requires i + 6 <= |t| && t[i] == BACKSLASH && t[i + 1] == LETTER_U
    requires j + |UnicodeEscape(t[i..]).0| <= out.Length
    modifies out
    ensures i' == i + UnicodeEscape(t[i..]).1
    ensures j <= j' <= out.Length
    ensures out[..j'] == old(out[..j]) + UnicodeEscape(t[i..]).0
  {
    hide Utf8, HexOk;
    ghost var u := t[i..];
    DropStep(t, i, 2);
    i', j' := i + 6, j;
    var uc := ParseHex4(t[i + 2..]);
    if LowSurrogate(uc) || uc == 0 {
      return;
    }
    if HighSurrogate(uc) {
      if i' + 2 > |t| || t[i'] != BACKSLASH || t[i' + 1] != LETTER_U {
        return;
      }
      DropStep(t, i, 8);
      var uc2 := ParseHex4(t[i' + 2..]);
      i' := i' + 6;
      if !LowSurrogate(uc2) {
        return;
      }
      uc := Combine(uc, uc2);
    }
    assert UnicodeEscape(u).0 == Utf8(uc);
    WriteUtf8(uc, out, j);
    j' := j + Utf8Length(uc);
    assert out[..j'] == out[..j] + out[j..j'];
  }

  lemma ConsTwice(a: Text, b: Text, s: Scan)
    ensures Cons(a, Cons(b, s)) == Cons(a + b, s)
  {
  }

  /** What the second pass still has to do from position i on can be done. */
  predicate Ahead(t: Text, i: nat, room: int)
    requires i <= |t|
  {
    Unescape(t[i..]).Scanned? && |Unescape(t[i..]).text| <= room
  }

  lemma PlainStep(t: Text, i: nat, head: Text, room: int)
    requires i < |t| && t[i] != QUOTE && t[i] != BACKSLASH && Ahead(t, i, room)
    ensures Cons(head, Unescape(t[i..])) == Cons(head + [t[i]], Unescape(t[i + 1..]))
    ensures room > 0 && Ahead(t, i + 1, room - 1)
  {
    DropStep(t, i, 1);
    ConsTwice(head, [t[i]], Unescape(t[i + 1..]));
  }

  lemma SimpleStep(t: Text, i: nat, head: Text, room: int)
    requires i < |t| && t[i] == BACKSLASH && Ahead(t, i, room)
    ensures i + 2 <= |t|
    ensures t[i + 1] != LETTER_U ==>
              && Cons(head, Unescape(t[i..])) == Cons(head + [SimpleEscape(t[i + 1])], Unescape(t[i + 2..]))
              && room > 0 && Ahead(t, i + 2, room - 1)
  {
    DropStep(t, i, 1);
    DropStep(t, i, 2);
    ConsTwice(head, [SimpleEscape(t[i + 1])], Unescape(t[i + 2..]));
  }

  lemma UnicodeStep(t: Text, i: nat, head: Text, room: int)
    requires i + 2 <= |t| && t[i] == BACKSLASH && t[i + 1] == LETTER_U && Ahead(t, i, room)
    ensures i + 6 <= |t|
    ensures var (bs, n) := UnicodeEscape(t[i..]);
            && i + n <= |t| && |bs| <= room && Ahead(t, i + n, room - |bs|)
            && Cons(head, Unescape(t[i..])) == Cons(head + bs, Unescape(t[i + n..]))
  {
    DropStep(t, i, 1);
    var (bs, n) := UnicodeEscape(t[i..]);
    DropStep(t, i, n);
    ConsTwice(head, bs, Unescape(t[i + n..]));
  }

  lemma DefinedAhead(t: Text, i: nat)
    requires i <= |t| && Defined(t[i..])
    ensures FirstPassStays(t[i..]) && Ahead(t, i, CharCount(t[i..]))
  {
    StaysIff(t[i..]);
  }

  /** The literal's text in a terminated array, and the position behind the literal. */
  method ReadString(t: Text, at: nat) returns (out: array<byte>, len: nat, next: nat)
    requires at < |t| && t[at] == QUOTE && Defined(t[at + 1..])
    ensures fresh(out)
    ensures len < out.Length && out[len] == 0
    ensures at < next <= |t| && Unescape(t[at + 1..]) == Scanned(out[..len], t[next..])
  {
    hide Unescape, CharCount, FirstPassStays, Defined, UnicodeEscape, Ahead;
    DefinedAhead(t, at + 1);
    var size := CountChars(t, at + 1);
    out := new byte[size + 1];
    var i, j := at + 1, 0;
    EmptyHead(Unescape(t[i..]));
    while i < |t| && t[i] != QUOTE
      invariant at < i <= |t| && j <= size && Ahead(t, i, size - j)
      invariant Unescape(t[at + 1..]) == Cons(out[..j], Unescape(t[i..]))
      decreases |t| - i
    {
      ghost var head := out[..j];
      if t[i] != BACKSLASH {
        PlainStep(t, i, head, size - j);
        out[j] := t[i];
        assert out[..j + 1] == head + [t[i]];
        i, j := i + 1, j + 1;
      } else {
        SimpleStep(t, i, head, size - j);
        if t[i + 1] != LETTER_U {
          out[j] := SimpleEscape(t[i + 1]);
          assert out[..j + 1] == head + [SimpleEscape(t[i + 1])];
          i, j := i + 2, j + 1;
        } else {
          UnicodeStep(t, i, head, size - j);
          i, j := WriteUnicode(t, i, out, j);
        }
      }
    }
    AtTheEnd(t, i);
    out[j] := 0;
    len := j;
    next := if i < |t| then i + 1 else i;
  }

  lemma EmptyHead(s: Scan)
    ensures Cons([], s) == s
  {
  }

  lemma AtTheEnd(t: Text, i: nat)
    requires i <= |t| && (i < |t| ==> t[i] == QUOTE)
    ensures Unescape(t[i..]) == Scanned([], t[if i < |t| then i + 1 else i..])
  {
    if i < |t| {
      DropStep(t, i, 1);
    }
  }
}
