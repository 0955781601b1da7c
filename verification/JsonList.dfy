/** Editing the doubly linked list of an item's children. */
module JsonList {
  /** The sequence without its k-th element. */
  function Without<T>(s: seq<T>, k: nat): seq<T>
    requires k < |s|
  {
    s[..k] + s[k + 1..]
  }

  function With<T>(s: seq<T>, k: nat, x: T): seq<T>
    requires k <= |s|
  {
    s[..k] + [x] + s[k..]
  }

  /** A negative position counts as the first. */
  function Position(which: int): nat { if which > 0 then which else 0 }

  class Item {
    var next: Item?
    var prev: Item?
    var child: Item?
    ghost var kids: seq<Item>

    static ghost function At(kids: seq<Item>, i: int): Item? {
      if 0 <= i < |kids| then kids[i] else null
    }

    static ghost predicate Distinct(s: seq<Item>) {
      forall i, j :: 0 <= i < j < |s| ==> s[i] != s[j]
    }

    /** Along the sequence, prev is the inverse of next. */
    static ghost predicate Joined(s: seq<Item>)
      reads s
    {
      forall i, j :: 0 <= i && j == i + 1 < |s| ==> s[i].next == s[j] && s[j].prev == s[i]
    }

    static ghost predicate Closed(s: seq<Item>)
      reads s
    {
      s != [] ==> s[0].prev == null && s[|s| - 1].next == null
    }

    /** The next chain from the child is exactly the sequence of kids, and prev is its inverse. */
    ghost predicate Linked()
      reads this, kids
    {
      this !in kids && child == At(kids, 0) && Distinct(kids) && Joined(kids) && Closed(kids)
    }

    ghost predicate Loose(item: Item)
      reads this, item
    {
      item !in kids && item != this && item.next == null && item.prev == null
    }

    lemma Neighbours(k: nat)
      requires Linked() && k < |kids|
      ensures kids[k].prev == At(kids, k - 1) && kids[k].next == At(kids, k + 1)
      ensures child == kids[k] <==> k == 0
    {
      if k > 0 {
        assert kids[k - 1].next == kids[k];
      }
      if k + 1 < |kids| {
        assert kids[k].next == kids[k + 1];
      }
    }

    static lemma Slices(s: seq<Item>, k: nat)
      requires Distinct(s) && Joined(s) && k < |s|
      ensures Joined(s[..k]) && Joined(s[k + 1..]) && Joined(s[k..])
      ensures s == s[..k] + [s[k]] + s[k + 1..]
      ensures Apart(s[..k], s[k + 1..]) && s[k] !in s[..k] && s[k] !in s[k + 1..]
      ensures Distinct(s[..k]) && Distinct(s[k + 1..])
    {
    }

    static ghost predicate Apart(a: seq<Item>, b: seq<Item>) {
      forall i, j :: 0 <= i < |a| && 0 <= j < |b| ==> a[i] != b[j]
    }

    static lemma Glue(a: seq<Item>, b: seq<Item>)
      requires Joined(a) && Joined(b) && Distinct(a) && Distinct(b) && Apart(a, b)
      requires a != [] && b != [] ==> a[|a| - 1].next == b[0] && b[0].prev == a[|a| - 1]
      ensures Joined(a + b) && Distinct(a + b)
    {
    }

    /** The child at a position, by walking the chain. */
    method Walk(which: int) returns (c: Item?)
      requires Linked()
      ensures c == At(kids, Position(which))
    {
      c := child;
      var left := which;
      ghost var k := 0;
      while c != null && left > 0
        invariant 0 <= k <= |kids| && c == At(kids, k)
        invariant c != null ==> Position(which) == k + Position(left)
        invariant c == null ==> k <= Position(which)
        decreases |kids| - k
      {
        Neighbours(k);
        c, left, k := c.next, left - 1, k + 1;
      }
    }

    /** A new successor for the last of a sequence. */
    static method SetNext(p: Item, n: Item?, ghost a: seq<Item>)
      requires a != [] && p == a[|a| - 1] && Joined(a) && Distinct(a)
      modifies p`next
      ensures p.next == n && Joined(a)
    {
      p.next := n;
    }

    /** A new predecessor for the first of a sequence. */
    static method SetPrev(n: Item, p: Item?, ghost b: seq<Item>)
      requires b != [] && n == b[0] && Joined(b) && Distinct(b)
      modifies n`prev
      ensures n.prev == p && Joined(b)
    {
      n.prev := p;
    }

    method Last() returns (c: Item)
      requires Linked() && kids != []
      ensures c == kids[|kids| - 1]
    {
      c := child;
      ghost var k := 0;
      while c.next != null
        invariant 0 <= k < |kids| && c == kids[k]
        decreases |kids| - k
      {
        Neighbours(k);
        c, k := c.next, k + 1;
      }
      Neighbours(k);
    }

    method Add(item: Item)
      requires Linked() && Loose(item)
      modifies `child, `kids, kids`next, item`prev
      ensures Linked() && kids == Edited(old(kids), Edit.Add(item))
    {
      if child == null {
        child := item;
      } else {
        var c := Last();
        SetNext(c, item, kids);
        item.prev := c;
      }
      Glue(kids, [item]);
      kids := kids + [item];
    }

    /** c stands between a and b. */
    static ghost predicate Between(a: seq<Item>, c: Item, b: seq<Item>)
      reads a, c, b
    {
      && Joined(a) && Joined(b) && Distinct(a) && Distinct(b) && Apart(a, b)
      && c !in a && c !in b && Opened(a) && Ended(b)
      && c.prev == At(a, |a| - 1) && c.next == At(b, 0)
    }

    static ghost predicate Opened(a: seq<Item>)
      reads a
    {
      a != [] ==> a[0].prev == null
    }

    static ghost predicate Ended(b: seq<Item>)
      reads b
    {
      b != [] ==> b[|b| - 1].next == null
    }

    lemma CutAt(k: nat)
      requires Linked() && k < |kids|
      ensures Between(kids[..k], kids[k], kids[k + 1..])
    {
      Neighbours(k);
      Slices(kids, k);
    }

    static method Bypass(c: Item, ghost a: seq<Item>, ghost b: seq<Item>)
      requires Between(a, c, b)
      modifies a`next, b`prev, c`next, c`prev
      ensures Joined(a + b) && Distinct(a + b) && Closed(a + b)
      ensures c.prev == null && c.next == null
    {
      hide Joined, Distinct;
      if c.prev != null {
        SetNext(c.prev, c.next, a);
      }
      if c.next != null {
        SetPrev(c.next, c.prev, b);
      }
      c.prev, c.next := null, null;
      Glue(a, b);
    }

    method Detach(which: int) returns (c: Item?)
      requires Linked()
      modifies `child, `kids, kids`next, kids`prev
      ensures Linked()
      ensures c == At(old(kids), Position(which))
      ensures kids == Edited(old(kids), Edit.Detach(which))
      ensures c != null ==> Loose(c)
    {
      hide Joined, Distinct;
      c := Walk(which);
      if c == null {
        return;
      }
      ghost var k := Position(which);
      ghost var a, b := kids[..k], kids[k + 1..];
      Neighbours(k);
      CutAt(k);
      if c == child {
        child := c.next;
      }
      Bypass(c, a, b);
      kids := a + b;
    }

    method Insert(which: int, item: Item)
      requires Linked() && Loose(item)
      modifies `child, `kids, kids`next, kids`prev, item`next, item`prev
      ensures Linked()
      ensures kids == Edited(old(kids), Edit.Insert(which, item))
    {
      hide Joined, Distinct;
      var c := Walk(which);
      if c == null {
        Add(item);
        return;
      }
      InsertBefore(c, item, Position(which));
    }

    method InsertBefore(c: Item, item: Item, ghost k: nat)
      requires Linked() && Loose(item) && k < |kids| && c == kids[k]
      modifies `child, `kids, kids`next, kids`prev, item`next, item`prev
      ensures Linked() && kids == With(old(kids), k, item)
    {
      hide Joined, Distinct, Apart;
      Neighbours(k);
      CutBefore(k);
      ghost var a, b := kids[..k], kids[k..];
      if c == child {
        child := item;
      }
      PutBefore(item, c, a, b);
      kids := a + [item] + b;
    }

    lemma CutBefore(k: nat)
      requires Linked() && k < |kids|
      ensures var a, b := kids[..k], kids[k..];
              && Joined(a) && Joined(b) && Distinct(a) && Distinct(b) && Apart(a, b)
              && Opened(a) && Ended(b) && b[0].prev == At(a, |a| - 1)
    {
      Neighbours(k);
      Slices(kids, k);
    }

    static method PutBefore(item: Item, c: Item, ghost a: seq<Item>, ghost b: seq<Item>)
      requires Joined(a) && Joined(b) && Distinct(a) && Distinct(b) && Apart(a, b) && Opened(a) && Ended(b)
      requires b != [] && c == b[0] && c.prev == At(a, |a| - 1) && item !in a && item !in b
      modifies a`next, b`prev, item`next, item`prev
      ensures Joined(a + [item] + b) && Distinct(a + [item] + b) && Closed(a + [item] + b)
    {
      hide Joined, Distinct;
      item.next := c;
      item.prev := c.prev;
      SetPrev(c, item, b);
      if item.prev != null {
        SetNext(item.prev, item, a);
      }
      Alone(item);
      Glue([item], b);
      Glue(a, [item] + b);
      assert a + ([item] + b) == a + [item] + b;
    }

    static lemma Alone(item: Item)
      ensures Joined([item]) && Distinct([item])
    {
    }

    /** The replaced child is handed back unlinked, ready to be deleted. */
    method Replace(which: int, item: Item) returns (c: Item?)
      requires Linked() && Loose(item)
      modifies `child, `kids, kids`next, kids`prev, item`next, item`prev
      ensures Linked()
      ensures c == At(old(kids), Position(which))
      ensures kids == Edited(old(kids), Edit.Replace(which, item))
      ensures c != null ==> Loose(c)
    {
      hide Joined, Distinct;
      c := Walk(which);
      if c == null {
        return;
      }
      ReplaceAt(c, item, Position(which));
    }

    method ReplaceAt(c: Item, item: Item, ghost k: nat)
      requires Linked() && Loose(item) && k < |kids| && c == kids[k]
      modifies `child, `kids, kids`next, kids`prev, item`next, item`prev
      ensures Linked() && kids == old(kids)[k := item] && Loose(c)
    {
      hide Joined, Distinct, Apart;
      Neighbours(k);
      CutAt(k);
      ghost var a, b := kids[..k], kids[k + 1..];
      if c == child {
        child := item;
      }
      TakePlace(item, c, a, b);
      assert kids[k := item] == a + [item] + b;
      kids := a + [item] + b;
    }

    static method TakePlace(item: Item, c: Item, ghost a: seq<Item>, ghost b: seq<Item>)
      requires Between(a, c, b) && item !in a && item !in b && item != c
      modifies a`next, b`prev, c`next, c`prev, item`next, item`prev
      ensures Joined(a + [item] + b) && Distinct(a + [item] + b) && Closed(a + [item] + b)
      ensures c.next == null && c.prev == null
    {
      hide Joined, Distinct;
      item.next := c.next;
      item.prev := c.prev;
      if item.next != null {
        SetPrev(item.next, item, b);
      }
      if item.prev != null {
        SetNext(item.prev, item, a);
      }
      c.next, c.prev := null, null;
      Alone(item);
      Glue([item], b);
      Glue(a, [item] + b);
      assert a + ([item] + b) == a + [item] + b;
    }

    /** One edit. */
    method Apply(e: Edit<Item>)
      requires Linked() && (!e.Detach? ==> Loose(e.item))
      modifies `child, `kids, kids`next, kids`prev, Brought([e])`next, Brought([e])`prev
      ensures Linked() && kids == Edited(old(kids), e)
    {
      assert !e.Detach? ==> [e][0] == e && e.item in Brought([e]);
      match e {
        case Add(x) => Add(x);
        case Insert(w, x) => Insert(w, x);
        case Detach(w) => var c := Detach(w);
        case Replace(w, x) => var c := Replace(w, x);
      }
    }

    ghost predicate AllLoose(es: seq<Edit<Item>>)
      reads this, Brought(es)
    {
      forall i :: 0 <= i < |es| && !es[i].Detach? ==> es[i].item in Brought(es) && Loose(es[i].item)
    }

    lemma FirstLoose(es: seq<Edit<Item>>)
      requires AllLoose(es) && es != []
      ensures !es[0].Detach? ==> Loose(es[0].item)
    {
    }

    /** Any run of edits with different loose items: the children are linked as the sequence the run amounts to,
        each once. */
    method ApplyAll(es: seq<Edit<Item>>)
      requires Linked() && Different(es) && AllLoose(es)
      modifies `child, `kids, kids`next, kids`prev, Brought(es)`next, Brought(es)`prev
      ensures Linked() && kids == After(old(kids), es)
      decreases |es|
    {
      if es == [] {
        return;
      }
      hide Linked, Edited;
      FirstLoose(es);
      BroughtFirst(es);
      EditedMembers(kids, es[0]);
      Apply(es[0]);
      assert AllLoose(es[1..]);
      ApplyAll(es[1..]);
    }
  }

  // Runs of edits, on the sequences the list stands for.

  datatype Edit<T> = Add(item: T) | Insert(which: int, item: T) | Detach(which: int) | Replace(which: int, item: T)

  /** The items a run brings along. */
  ghost function Brought(es: seq<Edit<Item>>): set<Item> {
    set i | 0 <= i < |es| && !es[i].Detach? :: es[i].item
  }

  ghost predicate Different(es: seq<Edit<Item>>) {
    forall i, j :: 0 <= i < j < |es| && !es[i].Detach? && !es[j].Detach? ==> es[i].item != es[j].item
  }

  lemma BroughtFirst(es: seq<Edit<Item>>)
    requires es != [] && Different(es)
    ensures Brought([es[0]]) == if es[0].Detach? then {} else {es[0].item}
    ensures Brought(es) == Brought([es[0]]) + Brought(es[1..])
    ensures Different(es[1..]) && (!es[0].Detach? ==> es[0].item !in Brought(es[1..]))
  {
    assert !es[0].Detach? ==> [es[0]][0] == es[0];
    forall i | 0 <= i < |es| && !es[i].Detach?
      ensures es[i].item in Brought([es[0]]) + Brought(es[1..])
    {
      assert i > 0 ==> es[1..][i - 1] == es[i];
    }
  }

  lemma EditedMembers<T>(s: seq<T>, e: Edit<T>)
    ensures forall k :: 0 <= k < |Edited(s, e)| ==> Edited(s, e)[k] in s || (!e.Detach? && Edited(s, e)[k] == e.item)
  {
  }

  function Edited<T>(s: seq<T>, e: Edit<T>): seq<T> {
    match e
    case Add(x) => s + [x]
    case Insert(w, x) => With(s, if Position(w) < |s| then Position(w) else |s|, x)
    case Detach(w) => if Position(w) < |s| then Without(s, Position(w)) else s
    case Replace(w, x) => if Position(w) < |s| then s[Position(w) := x] else s
  }

  /** What an edit takes out of the list, and what it puts in. */
  function Taken<T>(s: seq<T>, e: Edit<T>): multiset<T> {
    if (e.Detach? || e.Replace?) && Position(e.which) < |s| then multiset{s[Position(e.which)]} else multiset{}
  }

  function Given<T>(s: seq<T>, e: Edit<T>): multiset<T> {
    if e.Detach? || (e.Replace? && Position(e.which) >= |s|) then multiset{} else multiset{e.item}
  }

  function After<T>(s: seq<T>, es: seq<Edit<T>>): seq<T>
    decreases |es|
  {
    if es == [] then s else After(Edited(s, es[0]), es[1..])
  }

  function AllTaken<T>(s: seq<T>, es: seq<Edit<T>>): multiset<T>
    decreases |es|
  {
    if es == [] then multiset{} else Taken(s, es[0]) + AllTaken(Edited(s, es[0]), es[1..])
  }

  function AllGiven<T>(s: seq<T>, es: seq<Edit<T>>): multiset<T>
    decreases |es|
  {
    if es == [] then multiset{} else Given(s, es[0]) + AllGiven(Edited(s, es[0]), es[1..])
  }

  lemma WithAdds<T>(s: seq<T>, k: nat, x: T)
    requires k <= |s|
    ensures multiset(With(s, k, x)) == multiset(s) + multiset{x}
  {
    assert s == s[..k] + s[k..];
  }

  lemma WithoutRemoves<T>(s: seq<T>, k: nat)
    requires k < |s|
    ensures multiset(Without(s, k)) + multiset{s[k]} == multiset(s)
  {
    assert s == s[..k] + [s[k]] + s[k + 1..];
  }

  lemma UpdateSwaps<T>(s: seq<T>, k: nat, x: T)
    requires k < |s|
    ensures multiset(s[k := x]) + multiset{s[k]} == multiset(s) + multiset{x}
  {
    WithoutRemoves(s, k);
    assert s[k := x] == s[..k] + [x] + s[k + 1..];
  }

  lemma EditConserves<T>(s: seq<T>, e: Edit<T>)
    ensures multiset(Edited(s, e)) + Taken(s, e) == multiset(s) + Given(s, e)
  {
    hide With, Without;
    match e
    case Add(x) =>
    case Insert(w, x) => WithAdds(s, if Position(w) < |s| then Position(w) else |s|, x);
    case Detach(w) =>
      if Position(w) < |s| {
        WithoutRemoves(s, Position(w));
      }
    case Replace(w, x) =>
      if Position(w) < |s| {
        UpdateSwaps(s, Position(w), x);
      }
  }

  lemma Chained<T>(a: multiset<T>, b: multiset<T>, c: multiset<T>, t1: multiset<T>, t2: multiset<T>, g1: multiset<T>, g2: multiset<T>)
    requires b + t1 == a + g1 && c + t2 == b + g2
    ensures c + (t1 + t2) == a + (g1 + g2)
  {
    forall x: T
      ensures (c + (t1 + t2))[x] == (a + (g1 + g2))[x]
    {
      assert (b + t1)[x] == (a + g1)[x] && (c + t2)[x] == (b + g2)[x];
    }
  }

  /** Over any run no item is lost: what is in the list and what was taken out is what was there and what was
      put in. */
  lemma {:induction false} RunConserves<T>(s: seq<T>, es: seq<Edit<T>>)
    ensures multiset(After(s, es)) + AllTaken(s, es) == multiset(s) + AllGiven(s, es)
    decreases |es|
  {
    hide Edited, Taken, Given;
    if es != [] {
      var u := Edited(s, es[0]);
      EditConserves(s, es[0]);
      RunConserves(u, es[1..]);
      Chained(multiset(s), multiset(u), multiset(After(u, es[1..])),
              Taken(s, es[0]), AllTaken(u, es[1..]), Given(s, es[0]), AllGiven(u, es[1..]));
    }
  }

  /** Detaching what was inserted gives the list back. */
  lemma InsertThenDetach<T>(s: seq<T>, which: int, x: T)
    requires Position(which) <= |s|
    ensures Edited(Edited(s, Insert(which, x)), Detach(which)) == s
  {
    var k := Position(which);
    var t := With(s, k, x);
    assert t[..k] == s[..k] && t[k + 1..] == s[k..];
    assert s[..k] + s[k..] == s;
  }

  /** Replacing is detaching and inserting at the same place. */
  lemma ReplaceIsDetachInsert<T>(s: seq<T>, which: int, x: T)
    requires Position(which) < |s|
    ensures Edited(s, Replace(which, x)) == Edited(Edited(s, Detach(which)), Insert(which, x))
  {
    var k := Position(which);
    var t := Without(s, k);
    assert t[..k] == s[..k] && t[k..] == s[k + 1..];
    assert s[k := x] == s[..k] + [x] + s[k + 1..];
  }

  /** Behind the end an insertion appends, and nothing can be detached or replaced. */
  lemma PastTheEnd<T>(s: seq<T>, which: int, x: T)
    requires Position(which) >= |s|
    ensures Edited(s, Insert(which, x)) == Edited(s, Add(x)) && Edited(Edited(s, Add(x)), Detach(|s|)) == s
    ensures Edited(s, Detach(which)) == s && Edited(s, Replace(which, x)) == s
  {
    assert s[..|s|] + [x] + s[|s|..] == s + [x];
    assert (s + [x])[..|s|] + (s + [x])[|s| + 1..] == s;
  }
}
