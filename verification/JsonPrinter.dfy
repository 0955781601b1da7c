/** The printer that first prints the children, then allocates exactly what it counted and composes. Every
    store is within the array, so the counted sizes are never too small. */
module JsonPrinter {
  import opened Bytes
  import opened JsonText
  import opened JsonMemory

  method PrintString(h: Heap, s: Text) returns (out: array?<byte>)
    requires NulFree(s)
    modifies h
    ensures h.refused == (old(h.refused) || out == null)
    ensures out != null ==> fresh(out) && CString(out, Quoted(s)) && out.Length == |Quoted(s)| + 1
  {
    var flag := HasEscapes(s);
    var len := |s|;
    if flag {
      len := EscapedLength(s);
    }
    out := h.Allocate(len + 3);
    if out != null {
      assert out[..0] == [];
      PutQuoted(out, 0, s, !flag);
    }
  }

  /** A copy of a text and its terminator in an array of the given size. */
  method Copy(h: Heap, text: Text, size: nat) returns (out: array?<byte>)
    requires size > |text|
    modifies h
    ensures h.refused == (old(h.refused) || out == null)
    ensures out != null ==> fresh(out) && CString(out, text)
  {
    out := h.Allocate(size);
    if out != null {
      assert out[..0] == [];
      PutText(out, 0, text);
      out[|text|] := 0;
    }
  }

  method PrintNumber(h: Heap, v: Json) returns (out: array?<byte>)
    requires Renderable(v) && (v.Number? || v.Double?)
    modifies h
    ensures h.refused == (old(h.refused) || out == null)
    ensures out != null ==> fresh(out) && CString(out, Print(v, 0, false))
  {
    if v.Double? {
      out := Copy(h, v.shown, 64);
    } else if v.mantissa == 0 {
      out := Copy(h, [48], 2);
    } else {
      IntegerLength(v.mantissa);
      out := Copy(h, Integer(v.mantissa), 21);
    }
  }

  method PrintValue(h: Heap, v: Json, depth: nat, fmt: bool) returns (out: array?<byte>)
    requires Renderable(v)
    modifies h
    ensures h.refused == (old(h.refused) || out == null)
    ensures out != null ==> fresh(out) && CString(out, Print(v, depth, fmt))
    decreases v, 1
  {
    match v
    case Null => out := Copy(h, NULL_TEXT, |NULL_TEXT| + 1);
    case False => out := Copy(h, FALSE_TEXT, |FALSE_TEXT| + 1);
    case True => out := Copy(h, TRUE_TEXT, |TRUE_TEXT| + 1);
    case Number(_, _) => out := PrintNumber(h, v);
    case Double(_) => out := PrintNumber(h, v);
    case String(s) => out := PrintString(h, s);
    case Array(items) => out := PrintArray(h, items, depth, fmt);
    case Object(ms) => out := PrintObject(h, ms, depth, fmt);
  }

  // Arrays.

  ghost function ItemsSpace(items: seq<Json>, depth: int, fmt: bool): nat {
    if items == [] then 0
    else |Print(items[0], depth, fmt)| + 2 + (if fmt then 1 else 0) + ItemsSpace(items[1..], depth, fmt)
  }

  /** The items' texts, in order. */
  ghost predicate HoldItems(entries: seq<array<byte>>, items: seq<Json>, depth: int, fmt: bool)
    reads entries
  {
    |entries| == |items| && forall k :: 0 <= k < |items| ==> CString(entries[k], Print(items[k], depth, fmt))
  }

  lemma ItemsSpaceStep(items: seq<Json>, i: nat, depth: int, fmt: bool)
    requires i < |items|
    ensures ItemsSpace(items[i..], depth, fmt) ==
            |Print(items[i], depth, fmt)| + 2 + (if fmt then 1 else 0) + ItemsSpace(items[i + 1..], depth, fmt)
  {
    hide Print;
    assert items[i..][1..] == items[i + 1..];
  }

  /** An item and the separator behind it. */
  ghost function ItemText(items: seq<Json>, i: nat, depth: int, fmt: bool): Text
    requires i < |items|
  {
    Print(items[i], depth, fmt) + (if i + 1 < |items| then ItemSeparator(fmt) else [])
  }

  lemma ItemsStep(items: seq<Json>, i: nat, depth: int, fmt: bool)
    requires i < |items|
    ensures PrintItems(items[i..], depth, fmt) == ItemText(items, i, depth, fmt) + PrintItems(items[i + 1..], depth, fmt)
  {
    hide Print;
    assert items[i..][1..] == items[i + 1..];
  }

  method CollectItems(h: Heap, items: seq<Json>, depth: nat, fmt: bool) returns (ok: bool, entries: seq<array<byte>>, len: nat)
    requires Renderable(Array(items))
    modifies h
    ensures h.refused == (old(h.refused) || !ok)
    ensures ok ==> HoldItems(entries, items, depth, fmt) && len == 5 + ItemsSpace(items, depth, fmt)
    ensures forall k :: 0 <= k < |entries| ==> fresh(entries[k])
    decreases items, 0
  {
    hide Print, Renderable, ItemsSpace;
    ok, entries, len := true, [], 5;
    assert items[0..] == items;
    for i := 0 to |items|
      invariant h.refused == old(h.refused)
      invariant |entries| == i && forall k :: 0 <= k < i ==> fresh(entries[k])
      invariant forall k :: 0 <= k < i ==> CString(entries[k], Print(items[k], depth, fmt))
      invariant len + ItemsSpace(items[i..], depth, fmt) == 5 + ItemsSpace(items, depth, fmt)
    {
      ItemRenderable(items, i);
      var ret := PrintValue(h, items[i], depth, fmt);
      if ret == null {
        return false, entries, len;
      }
      PrintNulFree(items[i], depth, fmt);
      var n := Length(ret, Print(items[i], depth, fmt));
      ItemsSpaceStep(items, i, depth, fmt);
      len := len + n + 2 + (if fmt then 1 else 0);
      entries := entries + [ret];
    }
    assert items[|items|..] == [];
    NoSpace(depth, fmt);
  }

  lemma NoSpace(depth: nat, fmt: bool)
    ensures ItemsSpace([], depth, fmt) == 0 && MembersSpace([], depth, fmt) == 0
    ensures PrintItems([], depth, fmt) == [] && PrintMembers([], depth, fmt) == []
  {
  }

  /** The size counted for a non-empty array holds its text and the terminator. */
  lemma {:induction false} ArrayFits(items: seq<Json>, depth: nat, fmt: bool)
    ensures |PrintItems(items, depth, fmt)| <= ItemsSpace(items, depth, fmt)
    ensures |[OPEN_ARRAY] + PrintItems(items, depth, fmt) + [CLOSE_ARRAY]| < 5 + ItemsSpace(items, depth, fmt)
    decreases |items|
  {
    hide Print;
    if items != [] {
      ArrayFits(items[1..], depth, fmt);
    }
  }

  lemma ItemRenderable(items: seq<Json>, i: nat)
    requires Renderable(Array(items)) && i < |items|
    ensures Renderable(items[i])
  {
  }

  method ComposeArray(out: array<byte>, entries: seq<array<byte>>, items: seq<Json>, depth: nat, fmt: bool)
    requires Renderable(Array(items)) && HoldItems(entries, items, depth, fmt)
    requires forall k :: 0 <= k < |entries| ==> entries[k] != out
    requires out.Length == 5 + ItemsSpace(items, depth, fmt)
    modifies out
    ensures CString(out, [OPEN_ARRAY] + PrintItems(items, depth, fmt) + [CLOSE_ARRAY])
  {
    hide Print, PrintItems, Renderable, ItemsSpace, ItemText;
    ghost var text := [OPEN_ARRAY] + PrintItems(items, depth, fmt);
    assert items[0..] == items && out[..0] == [];
    Put(out, 0, OPEN_ARRAY);
    var at := 1;
    for i := 0 to |items|
      invariant 1 <= at && at + ItemsSpace(items[i..], depth, fmt) + 2 <= out.Length
      invariant out[..at] + PrintItems(items[i..], depth, fmt) == text
      invariant HoldItems(entries, items, depth, fmt)
    {
      ItemsSpaceStep(items, i, depth, fmt);
      ItemsStep(items, i, depth, fmt);
      Assoc(out[..at], ItemText(items, i, depth, fmt), PrintItems(items[i + 1..], depth, fmt));
      at := PutItem(out, at, entries[i], items, i, depth, fmt);
    }
    NoSpace(depth, fmt);
    assert items[|items|..] == [] && out[..at] + [] == out[..at];
    Put(out, at, CLOSE_ARRAY);
    out[at + 1] := 0;
  }

  method PutItem(out: array<byte>, at: nat, entry: array<byte>, items: seq<Json>, i: nat, depth: nat, fmt: bool) returns (at': nat)
    requires Renderable(Array(items)) && i < |items|
    requires entry != out && CString(entry, Print(items[i], depth, fmt))
    requires at + |Print(items[i], depth, fmt)| + 3 + (if fmt then 1 else 0) <= out.Length
    modifies out
    ensures at' <= at + |Print(items[i], depth, fmt)| + 1 + (if fmt then 1 else 0)
    ensures out[..at'] == old(out[..at]) + ItemText(items, i, depth, fmt)
  {
    hide Print, Renderable;
    ghost var head := out[..at];
    ItemRenderable(items, i);
    PrintNulFree(items[i], depth, fmt);
    at' := PutCString(out, at, entry, Print(items[i], depth, fmt));
    if i != |items| - 1 {
      Put(out, at', COMMA);
      at' := at' + 1;
      if fmt {
        Put(out, at', SPACE);
        at' := at' + 1;
      }
      out[at'] := 0;
    }
  }

  method PrintArray(h: Heap, items: seq<Json>, depth: nat, fmt: bool) returns (out: array?<byte>)
    requires Renderable(Array(items))
    modifies h
    ensures h.refused == (old(h.refused) || out == null)
    ensures out != null ==> fresh(out) && CString(out, Print(Array(items), depth, fmt))
    decreases items, 1
  {
    hide Renderable, PrintItems;
    NoSpace(depth + 1, fmt);
    if |items| == 0 {
      out := Copy(h, [OPEN_ARRAY, CLOSE_ARRAY], 3);
      return;
    }
    var ok, entries, len := CollectItems(h, items, depth + 1, fmt);
    if !ok {
      return null;
    }
    out := h.Allocate(len);
    if out != null {
      ComposeArray(out, entries, items, depth + 1, fmt);
    }
  }

  // Objects.

  ghost function MemberSpace(m: Member, depth: nat, fmt: bool): nat {
    |Print(m.value, depth, fmt)| + |Quoted(m.name)| + 2 + (if fmt then 2 + depth else 0)
  }

  ghost function MembersSpace(ms: seq<Member>, depth: nat, fmt: bool): nat {
    if ms == [] then 0 else MemberSpace(ms[0], depth, fmt) + MembersSpace(ms[1..], depth, fmt)
  }

  ghost predicate HoldMembers(names: seq<array<byte>>, entries: seq<array<byte>>, ms: seq<Member>, depth: int, fmt: bool)
    reads names, entries
  {
    && |entries| == |names| == |ms|
    && forall k :: 0 <= k < |ms| ==> CString(names[k], Quoted(ms[k].name)) && CString(entries[k], Print(ms[k].value, depth, fmt))
  }

  lemma MembersStep(ms: seq<Member>, i: nat, depth: nat, fmt: bool)
    requires i < |ms|
    ensures MembersSpace(ms[i..], depth, fmt) == MemberSpace(ms[i], depth, fmt) + MembersSpace(ms[i + 1..], depth, fmt)
    ensures PrintMembers(ms[i..], depth, fmt) == PrintMember(ms[i], depth, fmt, i + 1 < |ms|) + PrintMembers(ms[i + 1..], depth, fmt)
  {
    hide PrintMember, MemberSpace;
    assert ms[i..][1..] == ms[i + 1..];
  }

  /** What a member takes is never more than what is counted for it. */
  lemma MemberFits(m: Member, depth: nat, fmt: bool, more: bool)
    ensures |PrintMember(m, depth, fmt, more)| <= MemberSpace(m, depth, fmt)
  {
    hide Print, Quoted;
  }

  /** The size counted for a non-empty object holds its text and the terminator, at every depth. */
  lemma {:induction false} ObjectFits(ms: seq<Member>, depth: nat, fmt: bool)
    requires depth > 0
    ensures |PrintMembers(ms, depth, fmt)| <= MembersSpace(ms, depth, fmt)
    ensures |Opening(fmt) + PrintMembers(ms, depth, fmt) + When(fmt, Tabs(depth - 1)) + [CLOSE_OBJECT]|
            < 7 + (if fmt then depth else 0) + MembersSpace(ms, depth, fmt)
    decreases |ms|
  {
    hide PrintMember, MemberSpace;
    if ms != [] {
      MemberFits(ms[0], depth, fmt, |ms| > 1);
      ObjectFits(ms[1..], depth, fmt);
    }
  }

  lemma MemberRenderable(ms: seq<Member>, i: nat)
    requires Renderable(Object(ms)) && i < |ms|
    ensures NulFree(ms[i].name) && Renderable(ms[i].value)
  {
  }

  /** The texts of one member, and what they add to the size. */
  method CollectMember(h: Heap, m: Member, depth: nat, fmt: bool) returns (str: array?<byte>, ret: array?<byte>, size: nat)
    requires NulFree(m.name) && Renderable(m.value)
    modifies h
    ensures h.refused == (old(h.refused) || str == null || ret == null)
    ensures str != null ==> fresh(str) && CString(str, Quoted(m.name))
    ensures ret != null ==> fresh(ret) && CString(ret, Print(m.value, depth, fmt))
    ensures str != null && ret != null ==> size == MemberSpace(m, depth, fmt)
    decreases m, 0
  {
    hide Print, Renderable, Quoted, NulFree;
    str := PrintString(h, m.name);
    ret := PrintValue(h, m.value, depth, fmt);
    size := 0;
    if str != null && ret != null {
      QuotedNulFree(m.name);
      PrintNulFree(m.value, depth, fmt);
      var n := Length(ret, Print(m.value, depth, fmt));
      var k := Length(str, Quoted(m.name));
      size := n + k + 2 + (if fmt then 2 + depth else 0);
    }
  }

  method CollectMembers(h: Heap, ms: seq<Member>, depth: nat, fmt: bool)
    returns (ok: bool, names: seq<array<byte>>, entries: seq<array<byte>>, len: nat)
    requires Renderable(Object(ms))
    modifies h
    ensures h.refused == (old(h.refused) || !ok)
    ensures ok ==> HoldMembers(names, entries, ms, depth, fmt)
    ensures ok ==> len == 7 + (if fmt then depth else 0) + MembersSpace(ms, depth, fmt)
    ensures forall k :: 0 <= k < |names| ==> fresh(names[k])
    ensures forall k :: 0 <= k < |entries| ==> fresh(entries[k])
    decreases ms, 0
  {
    hide Print, PrintMember, PrintMembers, Renderable, MembersSpace, MemberSpace, Quoted, NulFree;
    ok, names, entries := true, [], [];
    len := 7 + (if fmt then depth else 0);
    ghost var all := len + MembersSpace(ms, depth, fmt);
    assert ms[0..] == ms;
    for i := 0 to |ms|
      invariant h.refused == (old(h.refused) || !ok)
      invariant ok ==> |names| == |entries| == i && len + MembersSpace(ms[i..], depth, fmt) == all
      invariant forall k :: 0 <= k < |names| ==> fresh(names[k])
      invariant forall k :: 0 <= k < |entries| ==> fresh(entries[k])
      invariant ok ==> forall k :: 0 <= k < i ==> CString(names[k], Quoted(ms[k].name))
      invariant ok ==> forall k :: 0 <= k < i ==> CString(entries[k], Print(ms[k].value, depth, fmt))
    {
      MemberRenderable(ms, i);
      MembersStep(ms, i, depth, fmt);
      var str, ret, size := CollectMember(h, ms[i], depth, fmt);
      if str != null && ret != null {
        names, entries, len := names + [str], entries + [ret], len + size;
      } else {
        ok := false;
      }
    }
    assert ms[|ms|..] == [];
    NoSpace(depth, fmt);
  }

  method PutName(out: array<byte>, at: nat, name: array<byte>, m: Member, depth: nat, fmt: bool) returns (at': nat)
    requires name != out && CString(name, Quoted(m.name))
    requires at + |When(fmt, Tabs(depth))| + |Quoted(m.name)| + |NameSeparator(fmt)| <= out.Length
    modifies out
    ensures at' == at + |When(fmt, Tabs(depth))| + |Quoted(m.name)| + |NameSeparator(fmt)|
    ensures out[..at'] == old(out[..at]) + (When(fmt, Tabs(depth)) + Quoted(m.name) + NameSeparator(fmt))
  {
    hide Quoted, NulFree, Tabs, CString;
    ghost var head := out[..at];
    ghost var tabs := When(fmt, Tabs(depth));
    QuotedNulFree(m.name);
    at' := at;
    if fmt {
      PutTabs(out, at', depth);
      at' := at' + depth;
    }
    assert out[..at'] == head + tabs;
    at' := PutCString(out, at', name, Quoted(m.name));
    Assoc(head, tabs, Quoted(m.name));
    at' := PutColon(out, at', fmt);
    Assoc(head, tabs + Quoted(m.name), NameSeparator(fmt));
  }

  method PutColon(out: array<byte>, at: nat, fmt: bool) returns (at': nat)
    requires at + |NameSeparator(fmt)| <= out.Length
    modifies out
    ensures at' == at + |NameSeparator(fmt)| && out[..at'] == old(out[..at]) + NameSeparator(fmt)
  {
    Put(out, at, COLON);
    at' := at + 1;
    if fmt {
      Put(out, at', TAB);
      at' := at' + 1;
    }
  }

  /** strcpy or memcpy of a string's length. */
  method PutCString(out: array<byte>, at: nat, from: array<byte>, ghost text: Text) returns (at': nat)
    requires from != out && CString(from, text) && NulFree(text) && at + |text| <= out.Length
    modifies out
    ensures at' == at + |text| && out[..at'] == old(out[..at]) + text
  {
    var n := Length(from, text);
    PutText(out, at, from[..n]);
    at' := at + n;
  }

  method PutMember(out: array<byte>, at: nat, name: array<byte>, entry: array<byte>, m: Member, depth: nat, fmt: bool, more: bool)
    returns (at': nat)
    requires Renderable(m.value) && name != out && entry != out
    requires CString(name, Quoted(m.name)) && CString(entry, Print(m.value, depth, fmt))
    requires at + |PrintMember(m, depth, fmt, more)| < out.Length
    modifies out
    ensures at' == at + |PrintMember(m, depth, fmt, more)|
    ensures out[..at'] == old(out[..at]) + PrintMember(m, depth, fmt, more)
  {
    hide Print, Renderable, Quoted, NulFree, Tabs, When, NameSeparator, MemberEnd, CString;
    PrintNulFree(m.value, depth, fmt);
    at' := PutName(out, at, name, m, depth, fmt);
    at' := PutCString(out, at', entry, Print(m.value, depth, fmt));
    at' := PutMemberEnd(out, at', fmt, more);
  }

  method PutMemberEnd(out: array<byte>, at: nat, fmt: bool, more: bool) returns (at': nat)
    requires at + |MemberEnd(fmt, more)| < out.Length
    modifies out
    ensures at' == at + |MemberEnd(fmt, more)|
    ensures out[..at'] == old(out[..at]) + MemberEnd(fmt, more) && out[at'] == 0
  {
    at' := at;
    if more {
      Put(out, at', COMMA);
      at' := at' + 1;
    }
    if fmt {
      Put(out, at', NEWLINE);
      at' := at' + 1;
    }
    out[at'] := 0;
  }

  method ComposeObject(out: array<byte>, names: seq<array<byte>>, entries: seq<array<byte>>, ms: seq<Member>, depth: nat, fmt: bool)
    requires depth > 0 && Renderable(Object(ms)) && HoldMembers(names, entries, ms, depth, fmt)
    requires forall k :: 0 <= k < |entries| ==> entries[k] != out && names[k] != out
    requires out.Length == 7 + (if fmt then depth else 0) + MembersSpace(ms, depth, fmt)
    modifies out
    ensures CString(out, Opening(fmt) + PrintMembers(ms, depth, fmt) + When(fmt, Tabs(depth - 1)) + [CLOSE_OBJECT])
  {
    hide Print, PrintMember, PrintMembers, Renderable, MembersSpace, MemberSpace, Quoted, NulFree, Tabs, Opening, When, CString;
    ghost var text := Opening(fmt) + PrintMembers(ms, depth, fmt);
    assert ms[0..] == ms;
    var at := PutOpening(out, fmt);
    for i := 0 to |ms|
      invariant 1 <= at && at + MembersSpace(ms[i..], depth, fmt) + (if fmt then depth else 0) + 2 <= out.Length
      invariant out[..at] + PrintMembers(ms[i..], depth, fmt) == text
      invariant HoldMembers(names, entries, ms, depth, fmt)
    {
      MembersStep(ms, i, depth, fmt);
      MemberFits(ms[i], depth, fmt, i + 1 < |ms|);
      MemberRenderable(ms, i);
      Assoc(out[..at], PrintMember(ms[i], depth, fmt, i + 1 < |ms|), PrintMembers(ms[i + 1..], depth, fmt));
      at := PutMember(out, at, names[i], entries[i], ms[i], depth, fmt, i + 1 < |ms|);
    }
    NoSpace(depth, fmt);
    assert ms[|ms|..] == [] && out[..at] + [] == out[..at];
    PutClosing(out, at, depth, fmt, text);
  }

  method PutOpening(out: array<byte>, fmt: bool) returns (at: nat)
    requires out.Length >= 3
    modifies out
    ensures 1 <= at <= 2 && out[..at] == Opening(fmt)
  {
    assert out[..0] == [];
    Put(out, 0, OPEN_OBJECT);
    at := 1;
    if fmt {
      Put(out, 1, NEWLINE);
      at := 2;
    }
    out[at] := 0;
  }

  method PutClosing(out: array<byte>, at: nat, depth: nat, fmt: bool, ghost text: Text)
    requires depth > 0 && at + (if fmt then depth else 0) + 2 <= out.Length && out[..at] == text
    modifies out
    ensures CString(out, text + When(fmt, Tabs(depth - 1)) + [CLOSE_OBJECT])
  {
    hide Tabs;
    var j := at;
    if fmt {
      PutTabs(out, j, depth - 1);
      j := j + depth - 1;
    }
    Put(out, j, CLOSE_OBJECT);
    out[j + 1] := 0;
    assert out[..j + 1] == text + When(fmt, Tabs(depth - 1)) + [CLOSE_OBJECT];
  }

  method PrintObject(h: Heap, ms: seq<Member>, depth: nat, fmt: bool) returns (out: array?<byte>)
    requires Renderable(Object(ms))
    modifies h
    ensures h.refused == (old(h.refused) || out == null)
    ensures out != null ==> fresh(out) && CString(out, Print(Object(ms), depth, fmt))
    decreases ms, 1
  {
    hide Renderable, PrintMembers, Tabs;
    if |ms| == 0 {
      out := h.Allocate(if fmt then depth + 4 else 3);
      if out != null {
        ComposeEmpty(out, depth, fmt);
      }
      return;
    }
    var ok, names, entries, len := CollectMembers(h, ms, depth + 1, fmt);
    if !ok {
      return null;
    }
    out := h.Allocate(len);
    if out != null {
      ComposeObject(out, names, entries, ms, depth + 1, fmt);
    }
  }

  method ComposeEmpty(out: array<byte>, depth: nat, fmt: bool)
    requires out.Length == if fmt then depth + 4 else 3
    modifies out
    ensures CString(out, Print(Object([]), depth, fmt))
  {
    assert out[..0] == [];
    Put(out, 0, OPEN_OBJECT);
    var at := 1;
    if fmt {
      Put(out, 1, NEWLINE);
      PutTabs(out, 2, depth - 1);
      at := 2 + |Tabs(depth - 1)|;
    }
    assert out[..at] == Opening(fmt) + When(fmt, Tabs(depth - 1));
    Put(out, at, CLOSE_OBJECT);
    out[at + 1] := 0;
  }
}
