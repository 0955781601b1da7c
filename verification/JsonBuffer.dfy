/** The printer that appends to one growing buffer. Whatever is refused on the way, the result is either
    nothing or exactly the text the other printer produces. */
module JsonBuffer {
  import opened Bytes
  import opened JsonText
  import opened JsonMemory
  import BufferSize
  import Printer = JsonPrinter

  /** Larger sizes do not survive as a C int; asking for them is asking in vain. */
  const LARGEST := 0x4000_0000

  class PrintBuffer {
    const heap: Heap
    var buffer: array?<byte>
    var length: nat
    var offset: nat

    ghost predicate Valid()
      reads this, heap
    {
      && (buffer == null ==> heap.refused)
      && (buffer != null ==> length == buffer.Length && offset <= length)
    }

    /** What stands before the offset. */
    ghost function Head(): Text
      requires Valid()
      reads this, heap, buffer
    {
      if buffer == null then [] else buffer[..offset]
    }

    /** The text and a terminator stand behind the head, and the offset has not passed the text. */
    ghost predicate Printed(head: Text, text: Text)
      reads this, heap, buffer
    {
      buffer != null ==>
        && |head| <= offset <= |head| + |text| < buffer.Length
        && buffer[..|head| + |text|] == head + text && buffer[|head| + |text|] == 0
    }

    constructor (h: Heap, prebuffer: nat)
      modifies h
      ensures Valid() && heap == h && h.refused == (old(h.refused) || buffer == null)
      ensures offset == 0 && (buffer != null ==> fresh(buffer))
    {
      heap := h;
      offset := 0;
      length := prebuffer;
      new;
      buffer := h.Allocate(prebuffer);
    }

    /** Room for so many bytes behind the offset; everything in the buffer is kept. */
    method Ensure(needed: nat) returns (ok: bool)
      requires Valid()
      modifies this, heap
      ensures Valid() && offset == old(offset) && ok == (buffer != null)
      ensures buffer == null || buffer == old(buffer) || fresh(buffer)
      ensures ok ==> old(buffer) != null && offset + needed <= buffer.Length
      ensures ok ==> old(length) <= length && buffer[..old(length)] == old(buffer[..length])
      ensures ok ==> Head() == old(Head())
      ensures heap.refused == (old(heap.refused) || !ok)
    {
      if buffer == null {
        return false;
      }
      var total := needed + offset;
      if total <= length {
        return true;
      }
      var larger := AllocateAtLeast(heap, total);
      if larger == null {
        length, buffer := 0, null;
        return false;
      }
      CopyInto(larger, buffer);
      length, buffer := larger.Length, larger;
      return true;
    }

    /** The end of the text the offset stands in, found by its terminator. */
    method Update(ghost head: Text, ghost text: Text) returns (end: nat)
      requires Valid() && Printed(head, text) && NulFree(text)
      ensures buffer != null ==> end == |head| + |text|
    {
      if buffer == null {
        return 0;
      }
      ghost var whole := head + text;
      forall i | |head| <= i < |whole|
        ensures buffer[i] != 0
      {
        assert buffer[i] == buffer[..|whole|][i] == text[i - |head|];
      }
      end := offset;
      while buffer[end] != 0
        invariant offset <= end <= |whole|
        decreases |whole| - end
      {
        end := end + 1;
      }
    }

    method Advance(ghost head: Text, ghost text: Text)
      requires Valid() && Printed(head, text) && NulFree(text)
      modifies this
      ensures Valid() && buffer == old(buffer) && (buffer != null ==> Head() == head + text)
    {
      offset := Update(head, text);
    }

    /** A piece of text behind the head, with a terminator if asked for; the offset moves behind it. */
    method Append(text: Text, terminated: bool) returns (ok: bool)
      requires Valid()
      modifies this, heap, buffer
      ensures Valid() && ok == (buffer != null) && (ok ==> old(buffer) != null)
      ensures buffer == null || buffer == old(buffer) || fresh(buffer)
      ensures heap.refused == (old(heap.refused) || !ok)
      ensures ok ==> Head() == old(Head()) + text
    {
      ok := Ensure(|text| + if terminated then 1 else 0);
      if ok {
        PutText(buffer, offset, text);
        if terminated {
          buffer[offset + |text|] := 0;
        }
        offset := offset + |text|;
      }
    }

    /** A whole text and its terminator behind the head; the offset stays. */
    method Finish(text: Text, needed: nat) returns (ok: bool)
      requires Valid() && |text| < needed
      modifies this, heap, buffer
      ensures Valid() && ok == (buffer != null) && (ok ==> old(buffer) != null)
      ensures buffer == null || buffer == old(buffer) || fresh(buffer)
      ensures heap.refused == (old(heap.refused) || !ok)
      ensures ok ==> offset == old(offset) && Printed(old(Head()), text)
    {
      ok := Ensure(needed);
      if ok {
        PutText(buffer, offset, text);
        buffer[offset + |text|] := 0;
      }
    }

    method PrintString(s: Text) returns (ok: bool)
      requires Valid()
      modifies this, heap, buffer
      ensures Valid() && ok == (buffer != null) && (ok ==> old(buffer) != null)
      ensures buffer == null || buffer == old(buffer) || fresh(buffer)
      ensures heap.refused == (old(heap.refused) || !ok)
      ensures ok ==> offset == old(offset) && Printed(old(Head()), Quoted(s))
    {
      var flag := HasEscapes(s);
      var len := |s|;
      if flag {
        len := EscapedLength(s);
      }
      ok := Ensure(len + 3);
      if ok {
        PutQuoted(buffer, offset, s, !flag);
      }
    }

    /** Where the value's text starts is reported for the root only: a formatted object spoils it. */
    method PrintValue(v: Json, depth: nat, fmt: bool) returns (ok: bool, start: nat)
      requires Valid() && Renderable(v)
      modifies this, heap, buffer
      ensures Valid() && ok == (buffer != null) && (ok ==> old(buffer) != null)
      ensures buffer == null || buffer == old(buffer) || fresh(buffer)
      ensures heap.refused == (old(heap.refused) || !ok)
      ensures ok ==> Printed(old(Head()), Print(v, depth, fmt))
      ensures depth == 0 && old(offset) == 0 ==> start == 0
      decreases v, 1
    {
      start := offset;
      match v
      case Null => ok := Finish(NULL_TEXT, 5);
      case False => ok := Finish(FALSE_TEXT, 6);
      case True => ok := Finish(TRUE_TEXT, 5);
      case Number(_, _) => ok := PrintNumber(v);
      case Double(_) => ok := PrintNumber(v);
      case String(s) => ok := PrintString(s);
      case Array(items) => ok := PrintArray(items, depth, fmt);
      case Object(ms) => ok, start := PrintObject(ms, depth, fmt);
    }

    method PrintNumber(v: Json) returns (ok: bool)
      requires Valid() && Renderable(v) && (v.Number? || v.Double?)
      modifies this, heap, buffer
      ensures Valid() && ok == (buffer != null) && (ok ==> old(buffer) != null)
      ensures buffer == null || buffer == old(buffer) || fresh(buffer)
      ensures heap.refused == (old(heap.refused) || !ok)
      ensures ok ==> Printed(old(Head()), Print(v, 0, false))
    {
      if v.Double? {
        ok := Finish(v.shown, 64);
      } else if v.mantissa == 0 {
        ok := Finish([48], 2);
      } else {
        IntegerLength(v.mantissa);
        ok := Finish(Integer(v.mantissa), 21);
      }
    }

    lemma Joined(head: Text, a: Text, b: Text)
      requires Printed(head + a, b)
      ensures Printed(head, a + b)
    {
      if buffer != null {
        assert (head + a) + b == head + (a + b);
      }
    }

    // Arrays.

    method PrintArray(items: seq<Json>, depth: nat, fmt: bool) returns (ok: bool)
      requires Valid() && Renderable(Array(items))
      modifies this, heap, buffer
      ensures Valid() && ok == (buffer != null) && (ok ==> old(buffer) != null)
      ensures buffer == null || buffer == old(buffer) || fresh(buffer)
      ensures heap.refused == (old(heap.refused) || !ok)
      ensures ok ==> Printed(old(Head()), Print(Array(items), depth, fmt))
      decreases items, 1
    {
      hide Renderable, PrintItems, Printed;
      Printer.NoSpace(depth + 1, fmt);
      if |items| == 0 {
        assert items == [] && Print(Array(items), depth, fmt) == [OPEN_ARRAY, CLOSE_ARRAY];
        ok := Finish([OPEN_ARRAY, CLOSE_ARRAY], 3);
        return;
      }
      ghost var head := Head();
      ok := Append([OPEN_ARRAY], false);
      if !ok {
        return;
      }
      ok := PrintItemsOf(items, depth + 1, fmt);
      if !ok {
        return;
      }
      ghost var text := [OPEN_ARRAY] + PrintItems(items, depth + 1, fmt);
      Assoc(head, [OPEN_ARRAY], PrintItems(items, depth + 1, fmt));
      ok := Finish([CLOSE_ARRAY], 2);
      if ok {
        Joined(head, text, [CLOSE_ARRAY]);
      }
    }

    method PrintItemsOf(items: seq<Json>, depth: nat, fmt: bool) returns (ok: bool)
      requires Valid() && Renderable(Array(items))
      modifies this, heap, buffer
      ensures Valid() && ok == (buffer != null) && (ok ==> old(buffer) != null)
      ensures buffer == null || buffer == old(buffer) || fresh(buffer)
      ensures heap.refused == (old(heap.refused) || !ok)
      ensures ok ==> Head() == old(Head()) + PrintItems(items, depth, fmt)
      decreases items, 0
    {
      hide Renderable, PrintItems, Print, Printed;
      ghost var whole := Head() + PrintItems(items, depth, fmt);
      assert items[0..] == items;
      for i := 0 to |items|
        invariant Valid() && (buffer != null ==> old(buffer) != null)
        invariant buffer == null || buffer == old(buffer) || fresh(buffer)
        invariant heap.refused == (old(heap.refused) || buffer == null)
        invariant buffer != null ==> Head() + PrintItems(items[i..], depth, fmt) == whole
      {
        Printer.ItemsStep(items, i, depth, fmt);
        Assoc(Head(), Printer.ItemText(items, i, depth, fmt), PrintItems(items[i + 1..], depth, fmt));
        ok := PrintItem(items, i, depth, fmt);
        if !ok {
          return;
        }
      }
      ok := buffer != null;
      Printer.NoSpace(depth, fmt);
      assert items[|items|..] == [];
      assert Head() + [] == Head();
    }

    /** An item and the separator behind it. */
    method PrintItem(items: seq<Json>, i: nat, depth: nat, fmt: bool) returns (ok: bool)
      requires Valid() && Renderable(Array(items)) && i < |items|
      modifies this, heap, buffer
      ensures Valid() && ok == (buffer != null) && (ok ==> old(buffer) != null)
      ensures buffer == null || buffer == old(buffer) || fresh(buffer)
      ensures heap.refused == (old(heap.refused) || !ok)
      ensures ok ==> Head() == old(Head()) + Printer.ItemText(items, i, depth, fmt)
      decreases items, 0, 0
    {
      hide Renderable, PrintItems, Print, Printed;
      Printer.ItemRenderable(items, i);
      PrintNulFree(items[i], depth, fmt);
      ghost var head := Head();
      ghost var text := Print(items[i], depth, fmt);
      var start;
      ok, start := PrintValue(items[i], depth, fmt);
      NothingPrinted(head, text);
      Advance(head, text);
      if i + 1 < |items| {
        ok := Append(ItemSeparator(fmt), true);
        Assoc(head, text, ItemSeparator(fmt));
      } else {
        assert (head + text) + [] == head + (text + []);
      }
    }

    lemma NothingPrinted(head: Text, text: Text)
      ensures buffer == null ==> Printed(head, text)
    {
    }

    // Objects.

    method PrintObject(ms: seq<Member>, depth: nat, fmt: bool) returns (ok: bool, start: nat)
      requires Valid() && Renderable(Object(ms))
      modifies this, heap, buffer
      ensures Valid() && ok == (buffer != null) && (ok ==> old(buffer) != null)
      ensures buffer == null || buffer == old(buffer) || fresh(buffer)
      ensures heap.refused == (old(heap.refused) || !ok)
      ensures ok ==> Printed(old(Head()), Print(Object(ms), depth, fmt))
      ensures depth == 0 && old(offset) == 0 ==> start == 0
      decreases ms, 1
    {
      hide Renderable, PrintMembers, Printed;
      start := offset;
      if |ms| == 0 {
        ok := Finish(Opening(fmt) + When(fmt, Tabs(depth - 1)) + [CLOSE_OBJECT], if fmt then depth + 4 else 3);
        return;
      }
      ghost var head := Head();
      ok := Append(Opening(fmt), true);
      if !ok {
        return;
      }
      ok := PrintMembersOf(ms, depth + 1, fmt);
      if !ok {
        return;
      }
      ghost var body := PrintMembers(ms, depth + 1, fmt);
      Assoc(head, Opening(fmt), body);
      ok := Finish(When(fmt, Tabs(depth)) + [CLOSE_OBJECT], if fmt then depth + 2 else 2);
      if ok {
        Joined(head, Opening(fmt) + body, When(fmt, Tabs(depth)) + [CLOSE_OBJECT]);
        Assoc(Opening(fmt) + body, When(fmt, Tabs(depth)), [CLOSE_OBJECT]);
      }
      if fmt {
        start := depth;
      }
    }

    method PrintMembersOf(ms: seq<Member>, depth: nat, fmt: bool) returns (ok: bool)
      requires Valid() && Renderable(Object(ms))
      modifies this, heap, buffer
      ensures Valid() && ok == (buffer != null) && (ok ==> old(buffer) != null)
      ensures buffer == null || buffer == old(buffer) || fresh(buffer)
      ensures heap.refused == (old(heap.refused) || !ok)
      ensures ok ==> Head() == old(Head()) + PrintMembers(ms, depth, fmt)
      decreases ms, 0
    {
      hide Renderable, PrintMembers, PrintMember, Print, Printed;
      ghost var whole := Head() + PrintMembers(ms, depth, fmt);
      assert ms[0..] == ms;
      for i := 0 to |ms|
        invariant Valid() && (buffer != null ==> old(buffer) != null)
        invariant buffer == null || buffer == old(buffer) || fresh(buffer)
        invariant heap.refused == (old(heap.refused) || buffer == null)
        invariant buffer != null ==> Head() + PrintMembers(ms[i..], depth, fmt) == whole
      {
        Printer.MembersStep(ms, i, depth, fmt);
        Printer.MemberRenderable(ms, i);
        Assoc(Head(), PrintMember(ms[i], depth, fmt, i + 1 < |ms|), PrintMembers(ms[i + 1..], depth, fmt));
        ok := PrintOneMember(ms[i], depth, fmt, i + 1 < |ms|);
        if !ok {
          return;
        }
      }
      ok := buffer != null;
      Printer.NoSpace(depth, fmt);
      assert ms[|ms|..] == [];
      assert Head() + [] == Head();
    }

    method PrintOneMember(m: Member, depth: nat, fmt: bool, more: bool) returns (ok: bool)
      requires Valid() && Renderable(m.value)
      modifies this, heap, buffer
      ensures Valid() && ok == (buffer != null) && (ok ==> old(buffer) != null)
      ensures buffer == null || buffer == old(buffer) || fresh(buffer)
      ensures heap.refused == (old(heap.refused) || !ok)
      ensures ok ==> Head() == old(Head()) + PrintMember(m, depth, fmt, more)
      decreases m, 1
    {
      hide Renderable, Print, Quoted, Printed, Tabs, When, NameSeparator, MemberEnd, NulFree;
      ghost var head := Head();
      ok := PrintName(m.name, depth, fmt);
      if !ok {
        return;
      }
      ghost var name := When(fmt, Tabs(depth)) + Quoted(m.name) + NameSeparator(fmt);
      ghost var text := Print(m.value, depth, fmt);
      PrintNulFree(m.value, depth, fmt);
      var start;
      ok, start := PrintValue(m.value, depth, fmt);
      NothingPrinted(head + name, text);
      Advance(head + name, text);
      ok := Append(MemberEnd(fmt, more), true);
      Assoc(head, name, text);
      Assoc(head, name + text, MemberEnd(fmt, more));
    }

    method PrintName(name: Text, depth: nat, fmt: bool) returns (ok: bool)
      requires Valid()
      modifies this, heap, buffer
      ensures Valid() && ok == (buffer != null) && (ok ==> old(buffer) != null)
      ensures buffer == null || buffer == old(buffer) || fresh(buffer)
      ensures heap.refused == (old(heap.refused) || !ok)
      ensures ok ==> Head() == old(Head()) + (When(fmt, Tabs(depth)) + Quoted(name) + NameSeparator(fmt))
    {
      hide Quoted, Printed, Tabs, NameSeparator, NulFree;
      ghost var head := Head();
      ghost var tabs := When(fmt, Tabs(depth));
      if fmt {
        ok := Append(Tabs(depth), false);
        if !ok {
          return;
        }
      }
      assert buffer != null ==> Head() == head + tabs;
      QuotedNulFree(name);
      ok := PrintString(name);
      NothingPrinted(head + tabs, Quoted(name));
      Advance(head + tabs, Quoted(name));
      ok := Append(NameSeparator(fmt), false);
      Assoc(head, tabs, Quoted(name));
      Assoc(head, tabs + Quoted(name), NameSeparator(fmt));
    }
  }

  /** The least power of two that is enough. */
  method AllocateAtLeast(heap: Heap, needed: nat) returns (a: array?<byte>)
    requires needed > 0
    modifies heap
    ensures heap.refused == (old(heap.refused) || a == null)
    ensures a != null ==> fresh(a) && needed <= a.Length < 2 * needed && BufferSize.IsPow2(a.Length)
  {
    if needed <= LARGEST {
      BufferSize.Pow2GtIsLeast(needed);
      a := heap.Allocate(BufferSize.Pow2Gt(needed));
    } else {
      heap.Refuse();
      a := null;
    }
  }

  method CopyInto(to: array<byte>, from: array<byte>)
    requires to != from && from.Length <= to.Length
    modifies to
    ensures to[..from.Length] == from[..]
  {
    forall i | 0 <= i < from.Length {
      to[i] := from[i];
    }
  }

  /** Nothing, if an allocation was refused; else exactly the text of the tree from the start of the buffer. */
  method PrintBuffered(h: Heap, v: Json, prebuffer: nat, fmt: bool) returns (out: array?<byte>, start: nat)
    requires Renderable(v)
    modifies h
    ensures h.refused == (old(h.refused) || out == null)
    ensures start == 0 && (out != null ==> fresh(out) && CString(out, Print(v, 0, fmt)))
  {
    var p := new PrintBuffer(h, prebuffer);
    var ok;
    ok, start := p.PrintValue(v, 0, fmt);
    out := p.buffer;
  }
}
