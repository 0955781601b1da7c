/** The cache of sessions over whole runs: what it holds and in which order, told by the requests alone, and what
    that means for the limit of an address. */
module SessionCache {
  import opened SessionLimiter

  /** The addresses asked for after the last request of a. */
  function Since(xs: seq<Address>, a: Address): set<Address> {
    if xs == [] then {}
    else
      var last := xs[|xs| - 1];
      if last == a then {} else Since(xs[..|xs| - 1], a) + {last}
  }

  function Addresses(rs: seq<Request>): (xs: seq<Address>)
    ensures |xs| == |rs| && forall i :: 0 <= i < |rs| ==> xs[i] == rs[i].addr
  {
    seq(|rs|, i requires 0 <= i < |rs| => rs[i].addr)
  }

  function Served(m: Manager, lim: Limits, rs: seq<Request>): Manager {
    if rs == [] then m else Handle(Served(m, lim, rs[..|rs| - 1]), lim, rs[|rs| - 1])
  }

  ghost function Firsts(cache: seq<Entry>, k: nat): set<Address>
    requires k <= |cache|
  {
    set i | 0 <= i < k :: cache[i].addr
  }

  lemma {:induction false} FirstsCount(cache: seq<Entry>, k: nat)
    requires Distinct(cache) && k <= |cache|
    ensures |Firsts(cache, k)| == k
  {
    if k > 0 {
      FirstsCount(cache, k - 1);
      assert Firsts(cache, k) == Firsts(cache, k - 1) + {cache[k - 1].addr};
    }
  }

  /** What stands before an entry is what was asked for since; what is missing had too much asked for since. */
  ghost predicate Ordered(m: Manager, xs: seq<Address>) {
    && Distinct(m.cache) && |m.cache| <= m.maxSize
    && (forall k :: 0 <= k < |m.cache| ==> m.cache[k].addr in xs && Since(xs, m.cache[k].addr) == Firsts(m.cache, k))
    && (forall a :: a in xs && !Hit(m, a) ==> |Since(xs, a)| >= m.maxSize)
  }

  lemma SinceStep(xs: seq<Address>, x: Address, a: Address)
    ensures Since(xs + [x], a) == if x == a then {} else Since(xs, a) + {x}
  {
    assert (xs + [x])[..|xs|] == xs;
  }

  lemma HitMovesUp(m: Manager, lim: Limits, r: Request)
    requires Hit(m, r.addr)
    ensures MovedUp(m, Handle(m, lim, r), Find(m.cache, r.addr)) && Handle(m, lim, r).maxSize == m.maxSize
    ensures Handle(m, lim, r).cache[0].addr == r.addr
  {
  }

  lemma HitOrder(m: Manager, m': Manager, j: nat, xs: seq<Address>, k: nat)
    requires Ordered(m, xs) && MovedUp(m, m', j) && k < |m'.cache|
    ensures var x, xs' := m.cache[j].addr, xs + [m.cache[j].addr];
            m'.cache[k].addr in xs' && Since(xs', m'.cache[k].addr) == Firsts(m'.cache, k)
  {
    SinceStep(xs, m.cache[j].addr, m'.cache[k].addr);
    HitFirsts(m, m', j, k);
    if k > 0 {
      var i := if k <= j then k - 1 else k;
      assert m'.cache[k] == m.cache[i] && i != j;
      assert m.cache[i].addr != m.cache[j].addr;
    }
  }

  lemma HitMissing(m: Manager, m': Manager, j: nat, xs: seq<Address>, a: Address)
    requires Ordered(m, xs) && MovedUp(m, m', j) && a in xs + [m.cache[j].addr]
    ensures Hit(m', a) || |Since(xs + [m.cache[j].addr], a)| >= m.maxSize
  {
    SinceStep(xs, m.cache[j].addr, a);
    if Hit(m, a) {
      StillThere(m, m', j, a);
    } else {
      assert a != m.cache[j].addr;
      Grows(Since(xs, a), m.cache[j].addr);
    }
  }

  lemma OrderedHit(m: Manager, lim: Limits, r: Request, xs: seq<Address>)
    requires Ordered(m, xs) && Hit(m, r.addr)
    ensures Ordered(Handle(m, lim, r), xs + [r.addr])
  {
    var m' := Handle(m, lim, r);
    var j := Find(m.cache, r.addr);
    DistinctStep(m, lim, r);
    HitMovesUp(m, lim, r);
    hide Handle, Since, Firsts, Hit, Distinct;
    forall k | 0 <= k < |m'.cache|
      ensures m'.cache[k].addr in xs + [r.addr] && Since(xs + [r.addr], m'.cache[k].addr) == Firsts(m'.cache, k)
    {
      HitOrder(m, m', j, xs, k);
    }
    forall a | a in xs + [r.addr]
      ensures Hit(m', a) || |Since(xs + [r.addr], a)| >= m.maxSize
    {
      HitMissing(m, m', j, xs, a);
    }
  }

  lemma Grows(s: set<Address>, x: Address)
    ensures |s + {x}| >= |s|
  {
    assert x !in s ==> |s + {x}| == |s| + 1;
    assert x in s ==> s + {x} == s;
  }

  /** The entries after a hit at position j. */
  ghost predicate MovedUp(m: Manager, m': Manager, j: nat) {
    && j < |m.cache| && |m'.cache| == |m.cache| && m'.cache[0].addr == m.cache[j].addr
    && (forall k :: 0 < k <= j ==> m'.cache[k] == m.cache[k - 1])
    && (forall k :: j < k < |m.cache| ==> m'.cache[k] == m.cache[k])
  }

  lemma HitFirsts(m: Manager, m': Manager, j: nat, k: nat)
    requires MovedUp(m, m', j) && Distinct(m.cache) && k < |m'.cache|
    ensures Firsts(m'.cache, k) ==
            if k == 0 then {} else if k <= j then Firsts(m.cache, k - 1) + {m.cache[j].addr} else Firsts(m.cache, k) + {m.cache[j].addr}
  {
    if 0 < k <= j {
      forall a | a in Firsts(m.cache, k - 1)
        ensures a in Firsts(m'.cache, k)
      {
        var i :| 0 <= i < k - 1 && m.cache[i].addr == a;
        assert m'.cache[i + 1].addr == a;
      }
    } else if k > j {
      forall a | a in Firsts(m.cache, k)
        ensures a in Firsts(m'.cache, k)
      {
        var i :| 0 <= i < k && m.cache[i].addr == a;
        assert i < j ==> m'.cache[i + 1].addr == a;
        assert i > j ==> m'.cache[i].addr == a;
      }
    }
  }

  lemma StillThere(m: Manager, m': Manager, j: nat, a: Address)
    requires MovedUp(m, m', j) && Hit(m, a)
    ensures Hit(m', a)
  {
    var i := Find(m.cache, a);
    assert m'.cache[if i < j then i + 1 else if i == j then 0 else i].addr == a;
  }

  /** The entries after a miss: the new one first, the others behind it as far as they fit. */
  ghost predicate MovedDown(m: Manager, m': Manager, x: Address) {
    && m'.maxSize == m.maxSize && |m'.cache| <= m.maxSize && |m'.cache| <= |m.cache| + 1
    && (m.maxSize > 0 ==> |m'.cache| > 0 && m'.cache[0].addr == x)
    && (|m'.cache| < |m.cache| + 1 ==> |m'.cache| == m.maxSize)
    && (forall k :: 0 < k < |m'.cache| ==> m'.cache[k] == m.cache[k - 1])
  }

  lemma MissMovesDown(m: Manager, lim: Limits, r: Request)
    requires !Hit(m, r.addr)
    ensures MovedDown(m, Handle(m, lim, r), r.addr)
  {
  }

  lemma MissOrder(m: Manager, m': Manager, x: Address, xs: seq<Address>, k: nat)
    requires Ordered(m, xs) && !Hit(m, x) && MovedDown(m, m', x) && k < |m'.cache|
    ensures m'.cache[k].addr in xs + [x] && Since(xs + [x], m'.cache[k].addr) == Firsts(m'.cache, k)
  {
    SinceStep(xs, x, m'.cache[k].addr);
    if k > 0 {
      assert m'.cache[k] == m.cache[k - 1];
      MissFirsts(m, m', k);
    }
  }

  /** An address that is not there after a miss was not there before, or was dropped at the end. */
  lemma MissMissing(m: Manager, m': Manager, x: Address, xs: seq<Address>, a: Address)
    requires Ordered(m, xs) && !Hit(m, x) && MovedDown(m, m', x) && a in xs + [x]
    ensures Hit(m', a) || |Since(xs + [x], a)| >= m.maxSize
  {
    SinceStep(xs, x, a);
    if a == x {
      assert m.maxSize > 0 ==> m'.cache[0].addr == a;
    } else if !Hit(m, a) {
      Grows(Since(xs, a), x);
    } else {
      var i := Find(m.cache, a);
      assert i + 1 < |m'.cache| ==> m'.cache[i + 1].addr == a;
      FirstsCount(m.cache, i);
      assert x !in Firsts(m.cache, i);
    }
  }

  lemma OrderedMiss(m: Manager, lim: Limits, r: Request, xs: seq<Address>)
    requires Ordered(m, xs) && !Hit(m, r.addr)
    ensures Ordered(Handle(m, lim, r), xs + [r.addr])
  {
    var m' := Handle(m, lim, r);
    DistinctStep(m, lim, r);
    MissMovesDown(m, lim, r);
    hide Handle, Since, Firsts, Hit, Distinct;
    forall k | 0 <= k < |m'.cache|
      ensures m'.cache[k].addr in xs + [r.addr] && Since(xs + [r.addr], m'.cache[k].addr) == Firsts(m'.cache, k)
    {
      MissOrder(m, m', r.addr, xs, k);
    }
    forall a | a in xs + [r.addr]
      ensures Hit(m', a) || |Since(xs + [r.addr], a)| >= m.maxSize
    {
      MissMissing(m, m', r.addr, xs, a);
    }
  }

  lemma MissFirsts(m: Manager, m': Manager, k: nat)
    requires 0 < k <= |m.cache| + 1 && k <= |m'.cache| && forall i :: 0 < i < k ==> m'.cache[i] == m.cache[i - 1]
    ensures Firsts(m'.cache, k) == Firsts(m.cache, k - 1) + {m'.cache[0].addr}
  {
    forall a | a in Firsts(m.cache, k - 1)
      ensures a in Firsts(m'.cache, k)
    {
      var i :| 0 <= i < k - 1 && m.cache[i].addr == a;
      assert m'.cache[i + 1].addr == a;
    }
  }

  lemma OrderedStep(m: Manager, lim: Limits, r: Request, xs: seq<Address>)
    requires Ordered(m, xs)
    ensures Ordered(Handle(m, lim, r), xs + [r.addr])
  {
    if Hit(m, r.addr) {
      OrderedHit(m, lim, r, xs);
    } else {
      OrderedMiss(m, lim, r, xs);
    }
  }

  lemma {:induction false} ServedOrdered(total: Session, maxSize: nat, lim: Limits, rs: seq<Request>)
    ensures Served(Manager(total, [], maxSize), lim, rs).maxSize == maxSize
    ensures Ordered(Served(Manager(total, [], maxSize), lim, rs), Addresses(rs))
    decreases |rs|
  {
    if rs != [] {
      var n := |rs| - 1;
      ServedOrdered(total, maxSize, lim, rs[..n]);
      assert Addresses(rs) == Addresses(rs[..n]) + [rs[n].addr];
      hide Ordered, Handle;
      HandleKeepsSize(Served(Manager(total, [], maxSize), lim, rs[..n]), lim, rs[n]);
      OrderedStep(Served(Manager(total, [], maxSize), lim, rs[..n]), lim, rs[n], Addresses(rs[..n]));
    }
  }

  lemma HandleKeepsSize(m: Manager, lim: Limits, r: Request)
    ensures Handle(m, lim, r).maxSize == m.maxSize
  {
  }

  /** After any run from an empty cache: an address is in the cache exactly when it was asked for and fewer
      other addresses than the cache holds were asked for since, and it stands behind exactly as many. */
  lemma CacheIsMostRecent(total: Session, maxSize: nat, lim: Limits, rs: seq<Request>, a: Address)
    ensures var m, xs := Served(Manager(total, [], maxSize), lim, rs), Addresses(rs);
            && |m.cache| <= maxSize
            && (Hit(m, a) <==> a in xs && |Since(xs, a)| < maxSize)
            && (Hit(m, a) ==> Find(m.cache, a) == |Since(xs, a)|)
  {
    var m := Served(Manager(total, [], maxSize), lim, rs);
    ServedOrdered(total, maxSize, lim, rs);
    if Hit(m, a) {
      FirstsCount(m.cache, Find(m.cache, a));
    }
  }

  /** Whenever a comes back, fewer than n other addresses were asked for since its last request. */
  predicate ComesBack(xs: seq<Address>, a: Address, n: nat) {
    forall j :: 0 <= j < |xs| && xs[j] == a && a in xs[..j] ==> |Since(xs[..j], a)| < n
  }

  lemma BackInTime(m: Manager, xs: seq<Address>, rs: seq<Request>, a: Address)
    requires Ordered(m, xs) && rs != [] && ComesBack(xs + Addresses(rs), a, m.maxSize)
    ensures a in xs && rs[0].addr == a ==> Hit(m, a)
    ensures ComesBack((xs + [rs[0].addr]) + Addresses(rs[1..]), a, m.maxSize)
  {
    hide Since, Hit, Distinct, Firsts;
    var all := xs + Addresses(rs);
    assert all[|xs|] == rs[0].addr && all[..|xs|] == xs;
    assert all == (xs + [rs[0].addr]) + Addresses(rs[1..]);
  }

  lemma {:induction false} ComesBackReturns(m: Manager, lim: Limits, xs: seq<Address>, rs: seq<Request>, a: Address)
    requires Ordered(m, xs) && a in xs && ComesBack(xs + Addresses(rs), a, m.maxSize)
    ensures Returns(m, lim, rs, a)
    decreases |rs|
  {
    hide Ordered, Handle, ComesBack, Hit;
    if rs != [] {
      BackInTime(m, xs, rs, a);
      HandleKeepsSize(m, lim, rs[0]);
      OrderedStep(m, lim, rs[0], xs);
      ComesBackReturns(Handle(m, lim, rs[0]), lim, xs + [rs[0].addr], rs[1..], a);
    }
  }

  /** An address that always comes back before the cache has forgotten it is held to twice its own limit in
      every window, however many addresses there are in all. */
  lemma RecurringWindowBound(total: Session, maxSize: nat, lim: Limits, rs: seq<Request>, a: Address, from: Time, lo: int)
    requires maxSize > 0 && RequestsClocked(from, rs) && ComesBack(Addresses(rs), a, maxSize)
    ensures AdmittedFor(Manager(total, [], maxSize), lim, rs, a, lo, lo + lim.interval) <= 2 * Cap(lim.max)
  {
    var m := Manager(total, [], maxSize);
    assert Ordered(m, []);
    assert [] + Addresses(rs) == Addresses(rs);
    UntilFirstRequest(m, lim, [], rs, a, from, lo);
  }

  lemma {:induction false} UntilFirstRequest(m: Manager, lim: Limits, xs: seq<Address>, rs: seq<Request>, a: Address, from: Time, lo: int)
    requires Ordered(m, xs) && m.maxSize > 0 && a !in xs
    requires RequestsClocked(from, rs) && ComesBack(xs + Addresses(rs), a, m.maxSize)
    ensures AdmittedFor(m, lim, rs, a, lo, lo + lim.interval) <= 2 * Cap(lim.max)
    decreases |rs|
  {
    if rs != [] {
      var r := rs[0];
      var m' := Handle(m, lim, r);
      NotAsked(m, xs, a);
      BackInTime(m, xs, rs, a);
      HandleKeepsSize(m, lim, r);
      OrderedStep(m, lim, r, xs);
      if r.addr == a {
        CreatedSession(m, lim, r);
        ComesBackReturns(m', lim, xs + [r.addr], rs[1..], a);
        OrderedIsDistinct(m', xs + [r.addr]);
        hide Ordered, ComesBack;
        FirstRequestBound(m', lim, rs[1..], a, r.created, r.own.restart, lo);
      } else {
        hide Ordered, Handle, ComesBack;
        UntilFirstRequest(m', lim, xs + [r.addr], rs[1..], a, r.own.restart, lo);
      }
    }
  }

  lemma NotAsked(m: Manager, xs: seq<Address>, a: Address)
    requires Ordered(m, xs) && a !in xs
    ensures !Hit(m, a)
  {
  }

  lemma OrderedIsDistinct(m: Manager, xs: seq<Address>)
    requires Ordered(m, xs)
    ensures Distinct(m.cache)
  {
  }

  lemma CreatedSession(m: Manager, lim: Limits, r: Request)
    requires m.maxSize > 0 && !Hit(m, r.addr)
    ensures Hit(Handle(m, lim, r), r.addr) && Own(Handle(m, lim, r), r.addr) == Session(r.created, 1)
  {
    assert Handle(m, lim, r).cache[0] == Entry(r.addr, Session(r.created, 1));
  }
}
