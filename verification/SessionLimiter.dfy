/** The request limiter of block synchronisation: a fixed-window counter shared by all addresses and
    one per address, the latter kept in a least-recently-used cache. What a peer can rely on is a bound
    over every sliding window of a whole run, which no single call shows. */
module SessionLimiter {

  const TWO64 := 0x1_0000_0000_0000_0000

  type Address = nat

  type Time = t: nat | t < TWO64

  datatype Session = Session(start: Time, count: nat)

  /** Two readings of the clock by one call of plus: the one it decides on, and the one that becomes the
      start of the new round if there is one. */
  datatype Tick = Tick(now: Time, restart: Time)

  /** Unsigned 64-bit subtraction. */
  function Elapsed(now: Time, start: Time): Time {
    if now >= start then now - start else now - start + TWO64
  }

  predicate Opens(s: Session, interval: Time, t: Tick) { Elapsed(t.now, s.start) > interval }

  predicate Accepts(s: Session, max: nat, interval: Time, t: Tick) {
    Opens(s, interval, t) || s.count < max
  }

  function Plus(s: Session, max: nat, interval: Time, t: Tick): Session {
    if Opens(s, interval, t) then Session(t.restart, 1)
    else if s.count < max then s.(count := s.count + 1)
    else s
  }

  function Cap(max: nat): nat { if max == 0 then 1 else max }

  function Room(s: Session, max: nat): nat { if s.count < max then max - s.count else 0 }

  /** A clock that never goes back, read first at or after `from`. */
  predicate Clocked(from: Time, ts: seq<Tick>)
    decreases |ts|
  {
    ts == [] || (from <= ts[0].now <= ts[0].restart && Clocked(ts[0].restart, ts[1..]))
  }

  predicate Within(t: Tick, lo: int, hi: int) { lo <= t.now <= hi }

  /** How many calls of the run are accepted at a moment in [lo, hi]. */
  function AcceptedWithin(s: Session, max: nat, interval: Time, ts: seq<Tick>, lo: int, hi: int): nat
    decreases |ts|
  {
    if ts == [] then 0
    else
      (if Accepts(s, max, interval, ts[0]) && Within(ts[0], lo, hi) then 1 else 0)
      + AcceptedWithin(Plus(s, max, interval, ts[0]), max, interval, ts[1..], lo, hi)
  }

  /** The clock may step back, but no reading precedes the start of the round it is compared with, so that the
      unsigned difference never wraps, and a round starts no earlier than the reading that opened it. */
  predicate Unwrapped(s: Session, max: nat, interval: Time, ts: seq<Tick>)
    decreases |ts|
  {
    ts == [] ||
    (&& s.start <= ts[0].now <= ts[0].restart
     && Unwrapped(Plus(s, max, interval, ts[0]), max, interval, ts[1..]))
  }

  lemma {:induction false} ClockedIsUnwrapped(s: Session, max: nat, interval: Time, ts: seq<Tick>)
    requires Clocked(s.start, ts)
    ensures Unwrapped(s, max, interval, ts)
    decreases |ts|
  {
    if ts != [] {
      ClockedFrom(s.start, ts[0].restart, ts[1..]);
      ClockedIsUnwrapped(Plus(s, max, interval, ts[0]), max, interval, ts[1..]);
    }
  }

  lemma ClockedFrom(a: Time, b: Time, ts: seq<Tick>)
    requires Clocked(b, ts) && a <= b
    ensures Clocked(a, ts)
  {
  }

  /** A round that starts after the window, and all that follow it, contribute nothing to it. */
  lemma {:induction false} NothingAfter(s: Session, max: nat, interval: Time, ts: seq<Tick>, lo: int, hi: int)
    requires Unwrapped(s, max, interval, ts) && hi < s.start
    ensures AcceptedWithin(s, max, interval, ts, lo, hi) == 0
    decreases |ts|
  {
    if ts != [] {
      NothingAfter(Plus(s, max, interval, ts[0]), max, interval, ts[1..], lo, hi);
    }
  }

  /** Up to the end of the round s is in, only its remaining room is handed out. */
  lemma {:induction false} RoundBound(s: Session, max: nat, interval: Time, ts: seq<Tick>, lo: int, hi: int)
    requires Unwrapped(s, max, interval, ts) && hi - s.start <= interval
    ensures AcceptedWithin(s, max, interval, ts, lo, hi) <= Room(s, max)
    decreases |ts|
  {
    if ts != [] {
      var s' := Plus(s, max, interval, ts[0]);
      if Opens(s, interval, ts[0]) {
        NothingAfter(s', max, interval, ts[1..], lo, hi);
      } else {
        RoundBound(s', max, interval, ts[1..], lo, hi);
      }
    }
  }

  /** A window no longer than the interval that begins before the round can end sees at most one more round. */
  lemma {:induction false} WindowBound(s: Session, max: nat, interval: Time, ts: seq<Tick>, lo: int, hi: int)
    requires Unwrapped(s, max, interval, ts) && hi - lo <= interval && lo <= s.start + interval
    ensures AcceptedWithin(s, max, interval, ts, lo, hi) <= Room(s, max) + Cap(max)
    decreases |ts|
  {
    if ts != [] {
      var s' := Plus(s, max, interval, ts[0]);
      if Opens(s, interval, ts[0]) {
        RoundBound(s', max, interval, ts[1..], lo, hi);
      } else {
        WindowBound(s', max, interval, ts[1..], lo, hi);
      }
    }
  }

  /** Any window [lo, lo + interval] of any run, whatever came before it. */
  lemma {:induction false} SlidingWindow(s: Session, max: nat, interval: Time, ts: seq<Tick>, lo: int)
    requires Unwrapped(s, max, interval, ts)
    ensures AcceptedWithin(s, max, interval, ts, lo, lo + interval) <= 2 * Cap(max)
    decreases |ts|
  {
    if lo <= s.start + interval {
      WindowBound(s, max, interval, ts, lo, lo + interval);
    } else if ts != [] {
      var s' := Plus(s, max, interval, ts[0]);
      if Opens(s, interval, ts[0]) && lo <= ts[0].now {
        RoundBound(s', max, interval, ts[1..], lo, lo + interval);
      } else {
        SlidingWindow(s', max, interval, ts[1..], lo);
      }
    }
  }

  /** A clock that never goes back is one case. */
  lemma MonotoneWindow(s: Session, max: nat, interval: Time, ts: seq<Tick>, lo: int)
    requires Clocked(s.start, ts)
    ensures AcceptedWithin(s, max, interval, ts, lo, lo + interval) <= 2 * Cap(max)
  {
    ClockedIsUnwrapped(s, max, interval, ts);
    SlidingWindow(s, max, interval, ts, lo);
  }

  /** Both halves of the condition are needed: here no difference wraps, but the second reading of each call
      falls back behind the first, and three requests pass a limit of one at one moment. */
  lemma RestartBehindDecision()
    ensures var ts := [Tick(11, 0), Tick(11, 0), Tick(11, 0)];
            AcceptedWithin(Session(0, 1), 1, 10, ts, 11, 21) > 2 * Cap(1)
  {
    var ts := [Tick(11, 0), Tick(11, 0), Tick(11, 0)];
    assert ts[1..] == [Tick(11, 0), Tick(11, 0)];
    assert ts[1..][1..] == [Tick(11, 0)];
    assert ts[1..][1..][1..] == [];
  }

  /** The session before call i of a run. */
  function SessionAt(s: Session, max: nat, interval: Time, ts: seq<Tick>, i: nat): Session
    requires i <= |ts|
  {
    if i == 0 then s else Plus(SessionAt(s, max, interval, ts, i - 1), max, interval, ts[i - 1])
  }

  /** The other side of the bound: in a round the calls are accepted until the limit is reached and refused
      from then on, up to and including the last moment of the interval; the first call behind that moment is
      accepted and begins a new round that counts it. */
  lemma {:induction false} RoundVerdicts(s: Session, max: nat, interval: Time, ts: seq<Tick>, i: nat)
    requires i < |ts| && s.start <= ts[i].now && forall k :: 0 <= k < i ==> s.start <= ts[k].now <= s.start + interval
    ensures var u := SessionAt(s, max, interval, ts, i);
            && u.start == s.start
            && u.count == (if s.count + i <= max then s.count + i else if s.count <= max then max else s.count)
            && (ts[i].now <= s.start + interval ==> (Accepts(u, max, interval, ts[i]) <==> s.count + i < max))
            && (ts[i].now > s.start + interval ==>
                Accepts(u, max, interval, ts[i]) && Plus(u, max, interval, ts[i]) == Session(ts[i].restart, 1))
  {
    if i > 0 {
      RoundVerdicts(s, max, interval, ts, i - 1);
    }
  }

  /** The bound is met: a full round just before the window's middle and another just after. */
  lemma BoundIsTight()
    ensures var ts := [Tick(9, 9), Tick(9, 9), Tick(11, 11), Tick(11, 11)];
            Clocked(0, ts) && AcceptedWithin(Session(0, 0), 2, 10, ts, 5, 15) == 2 * Cap(2)
  {
    var ts := [Tick(9, 9), Tick(9, 9), Tick(11, 11), Tick(11, 11)];
    assert ts[1..] == [Tick(9, 9), Tick(11, 11), Tick(11, 11)];
    assert ts[1..][1..] == [Tick(11, 11), Tick(11, 11)];
    assert ts[1..][1..][1..] == [Tick(11, 11)];
    assert ts[1..][1..][1..][1..] == [];
  }

  /** With a clock that steps back the unsigned difference is huge, every call opens a round, and three
      requests pass a limit of one within one interval. */
  lemma BackwardClockDefeatsLimit()
    ensures var ts := [Tick(9, 9), Tick(8, 8), Tick(7, 7)];
            !Clocked(10, ts) && AcceptedWithin(Session(10, 0), 1, 100, ts, 0, 100) > 2 * Cap(1)
  {
    var ts := [Tick(9, 9), Tick(8, 8), Tick(7, 7)];
    assert ts[1..] == [Tick(8, 8), Tick(7, 7)];
    assert ts[1..][1..] == [Tick(7, 7)];
    assert ts[1..][1..][1..] == [];
  }

  // The manager: one total session and a cache of sessions, most recently used first.

  datatype Entry = Entry(addr: Address, session: Session)

  datatype Manager = Manager(total: Session, cache: seq<Entry>, maxSize: nat)

  datatype Limits = Limits(totalMax: nat, max: nat, interval: Time)

  /** One request with its clock readings in the order they can be taken: by a new session's constructor,
      by the total session, by the address's own session. */
  datatype Request = Request(addr: Address, created: Time, tick: Tick, own: Tick)

  /** The first position of an address in the cache, or the cache's length. */
  function Find(cache: seq<Entry>, a: Address): (k: nat)
    ensures k <= |cache|
    ensures k < |cache| ==> cache[k].addr == a
    ensures forall i :: 0 <= i < k ==> cache[i].addr != a
  {
    if cache == [] then 0 else if cache[0].addr == a then 0 else 1 + Find(cache[1..], a)
  }

  predicate Hit(m: Manager, a: Address) { Find(m.cache, a) < |m.cache| }

  function Own(m: Manager, a: Address): Session
    requires Hit(m, a)
  {
    m.cache[Find(m.cache, a)].session
  }

  function Trim(cache: seq<Entry>, maxSize: nat): seq<Entry> {
    if |cache| <= maxSize then cache else cache[..maxSize]
  }

  function WithoutAt(cache: seq<Entry>, k: nat): seq<Entry>
    requires k < |cache|
  {
    cache[..k] + cache[k + 1..]
  }

  predicate TotalAccepts(m: Manager, lim: Limits, r: Request) {
    Accepts(m.total, lim.totalMax, lim.interval, r.tick)
  }

  /** The verdict: both sessions must agree, except that a new address is only held to the total. */
  predicate Admits(m: Manager, lim: Limits, r: Request) {
    && TotalAccepts(m, lim, r)
    && (Hit(m, r.addr) ==> Accepts(Own(m, r.addr), lim.max, lim.interval, r.own))
  }

  /** The address's own session is not consulted, hence not counted up, once the total has refused. */
  function Handle(m: Manager, lim: Limits, r: Request): Manager {
    var total := Plus(m.total, lim.totalMax, lim.interval, r.tick);
    if Hit(m, r.addr) then
      var k := Find(m.cache, r.addr);
      var s := m.cache[k].session;
      var s' := if TotalAccepts(m, lim, r) then Plus(s, lim.max, lim.interval, r.own) else s;
      Manager(total, [Entry(r.addr, s')] + WithoutAt(m.cache, k), m.maxSize)
    else
      Manager(total, Trim([Entry(r.addr, Session(r.created, 1))] + m.cache, m.maxSize), m.maxSize)
  }

  predicate RequestsClocked(from: Time, rs: seq<Request>)
    decreases |rs|
  {
    rs == [] ||
    (&& from <= rs[0].created <= rs[0].tick.now <= rs[0].tick.restart <= rs[0].own.now <= rs[0].own.restart
     && RequestsClocked(rs[0].own.restart, rs[1..]))
  }

  function AdmittedWithin(m: Manager, lim: Limits, rs: seq<Request>, lo: int, hi: int): nat
    decreases |rs|
  {
    if rs == [] then 0
    else
      (if Admits(m, lim, rs[0]) && Within(rs[0].tick, lo, hi) then 1 else 0)
      + AdmittedWithin(Handle(m, lim, rs[0]), lim, rs[1..], lo, hi)
  }

  function TotalTicks(rs: seq<Request>): seq<Tick> {
    seq(|rs|, i requires 0 <= i < |rs| => rs[i].tick)
  }

  lemma {:induction false} TotalTicksClocked(from: Time, rs: seq<Request>)
    requires RequestsClocked(from, rs)
    ensures Clocked(from, TotalTicks(rs))
    decreases |rs|
  {
    if rs != [] {
      TotalTicksClocked(rs[0].own.restart, rs[1..]);
      assert TotalTicks(rs)[1..] == TotalTicks(rs[1..]);
      ClockedFrom(rs[0].tick.restart, rs[0].own.restart, TotalTicks(rs[1..]));
    }
  }

  lemma {:induction false} AdmittedAreTotalAccepts(m: Manager, lim: Limits, rs: seq<Request>, lo: int, hi: int)
    ensures AdmittedWithin(m, lim, rs, lo, hi)
         <= AcceptedWithin(m.total, lim.totalMax, lim.interval, TotalTicks(rs), lo, hi)
    decreases |rs|
  {
    if rs != [] {
      AdmittedAreTotalAccepts(Handle(m, lim, rs[0]), lim, rs[1..], lo, hi);
      assert TotalTicks(rs)[1..] == TotalTicks(rs[1..]);
    }
  }

  /** Whatever mix of addresses, cache hits, misses and evictions: no window of one interval lets through
      more than twice the total limit. */
  lemma TotalWindowBound(m: Manager, lim: Limits, rs: seq<Request>, lo: int)
    requires RequestsClocked(m.total.start, rs)
    ensures AdmittedWithin(m, lim, rs, lo, lo + lim.interval) <= 2 * Cap(lim.totalMax)
  {
    TotalTicksClocked(m.total.start, rs);
    AdmittedAreTotalAccepts(m, lim, rs, lo, lo + lim.interval);
    MonotoneWindow(m.total, lim.totalMax, lim.interval, TotalTicks(rs), lo);
  }

  // The limit per address.

  function DecidedAt(m: Manager, r: Request): Time { if Hit(m, r.addr) then r.own.now else r.created }

  function AdmittedFor(m: Manager, lim: Limits, rs: seq<Request>, a: Address, lo: int, hi: int): nat
    decreases |rs|
  {
    if rs == [] then 0
    else
      (if rs[0].addr == a && Admits(m, lim, rs[0]) && lo <= DecidedAt(m, rs[0]) <= hi then 1 else 0)
      + AdmittedFor(Handle(m, lim, rs[0]), lim, rs[1..], a, lo, hi)
  }

  ghost predicate Distinct(cache: seq<Entry>) {
    forall i, j :: 0 <= i < j < |cache| ==> cache[i].addr != cache[j].addr
  }

  /** All addresses ever seen come from a set no larger than the cache. */
  ghost predicate Fits(m: Manager, all: set<Address>) {
    && Distinct(m.cache)
    && (forall i :: 0 <= i < |m.cache| ==> m.cache[i].addr in all)
    && |all| <= m.maxSize
  }

  lemma {:induction false} DistinctCount(cache: seq<Entry>, all: set<Address>)
    requires Distinct(cache)
    requires forall i :: 0 <= i < |cache| ==> cache[i].addr in all
    ensures |cache| <= |all|
  {
    if cache != [] {
      DistinctCount(cache[1..], all - {cache[0].addr});
    }
  }

  /** While the addresses fit, nothing is evicted, the cache stays free of duplicates, and a request
      leaves the session of every other address alone. */
  lemma FitsStep(m: Manager, lim: Limits, r: Request, all: set<Address>)
    requires Fits(m, all) && r.addr in all
    ensures Fits(Handle(m, lim, r), all)
    ensures !Hit(m, r.addr) ==> Handle(m, lim, r).cache == [Entry(r.addr, Session(r.created, 1))] + m.cache
  {
    if !Hit(m, r.addr) {
      DistinctCount([Entry(r.addr, Session(r.created, 1))] + m.cache, all);
    }
  }

  lemma FindUnique(cache: seq<Entry>, a: Address, k: nat)
    requires Distinct(cache) && k < |cache| && cache[k].addr == a
    ensures Find(cache, a) == k
  {
  }

  lemma DistinctStep(m: Manager, lim: Limits, r: Request)
    requires Distinct(m.cache)
    ensures Distinct(Handle(m, lim, r).cache)
  {
  }

  /** A request neither brings another address into the cache nor touches its session. */
  lemma OthersUntouched(m: Manager, lim: Limits, r: Request, a: Address)
    requires Distinct(m.cache) && a != r.addr
    ensures Hit(Handle(m, lim, r), a) ==> Hit(m, a) && Own(Handle(m, lim, r), a) == Own(m, a)
  {
    var m' := Handle(m, lim, r);
    var j := Find(m.cache, r.addr);
    if Hit(m', a) {
      var k' := Find(m'.cache, a);
      var k := if !Hit(m, r.addr) || k' - 1 < j then k' - 1 else k';
      assert m'.cache[k'] == m.cache[k];
      FindUnique(m.cache, a, k);
    }
  }

  /** While the addresses fit, none is lost either. */
  lemma OthersStay(m: Manager, lim: Limits, r: Request, all: set<Address>, a: Address)
    requires Fits(m, all) && r.addr in all && a != r.addr && Hit(m, a)
    ensures Hit(Handle(m, lim, r), a)
  {
    FitsStep(m, lim, r, all);
    var m' := Handle(m, lim, r);
    var k, j := Find(m.cache, a), Find(m.cache, r.addr);
    var k' := if !Hit(m, r.addr) || k < j then k + 1 else k;
    assert m'.cache[k'] == m.cache[k];
  }

  /** The requests of address a that reach its own session. */
  function OwnTicks(m: Manager, lim: Limits, rs: seq<Request>, a: Address): seq<Tick>
    decreases |rs|
  {
    if rs == [] then []
    else
      (if rs[0].addr == a && TotalAccepts(m, lim, rs[0]) then [rs[0].own] else [])
      + OwnTicks(Handle(m, lim, rs[0]), lim, rs[1..], a)
  }

  lemma OwnTicksStep(m: Manager, lim: Limits, rs: seq<Request>, a: Address)
    requires rs != []
    ensures var ts, later := OwnTicks(m, lim, rs, a), OwnTicks(Handle(m, lim, rs[0]), lim, rs[1..], a);
            if rs[0].addr == a && TotalAccepts(m, lim, rs[0])
            then ts != [] && ts[0] == rs[0].own && ts[1..] == later
            else ts == later
  {
    var later := OwnTicks(Handle(m, lim, rs[0]), lim, rs[1..], a);
    assert [] + later == later;
    assert ([rs[0].own] + later)[1..] == later;
  }

  lemma {:induction false} OwnTicksClocked(m: Manager, lim: Limits, rs: seq<Request>, a: Address, from: Time)
    requires RequestsClocked(from, rs)
    ensures Clocked(from, OwnTicks(m, lim, rs, a))
    decreases |rs|
  {
    if rs != [] {
      var m' := Handle(m, lim, rs[0]);
      OwnTicksClocked(m', lim, rs[1..], a, rs[0].own.restart);
      ClockedFrom(from, rs[0].own.restart, OwnTicks(m', lim, rs[1..], a));
      OwnTicksStep(m, lim, rs, a);
    }
  }

  /** Every request of address a finds it in the cache. */
  predicate Returns(m: Manager, lim: Limits, rs: seq<Request>, a: Address)
    decreases |rs|
  {
    rs == [] || ((rs[0].addr == a ==> Hit(m, a)) && Returns(Handle(m, lim, rs[0]), lim, rs[1..], a))
  }

  lemma {:induction false} FitsReturns(m: Manager, lim: Limits, rs: seq<Request>, a: Address, all: set<Address>)
    requires Fits(m, all) && Hit(m, a) && forall i :: 0 <= i < |rs| ==> rs[i].addr in all
    ensures Returns(m, lim, rs, a)
    decreases |rs|
  {
    if rs != [] {
      FitsStep(m, lim, rs[0], all);
      if rs[0].addr != a {
        OthersStay(m, lim, rs[0], all, a);
      }
      FitsReturns(Handle(m, lim, rs[0]), lim, rs[1..], a, all);
    }
  }

  /** An address that is out of the cache and whose every request finds it there does not ask again. */
  lemma {:induction false} NeverAgain(m: Manager, lim: Limits, rs: seq<Request>, a: Address, lo: int, hi: int)
    requires Distinct(m.cache) && !Hit(m, a) && Returns(m, lim, rs, a)
    ensures AdmittedFor(m, lim, rs, a, lo, hi) == 0 && OwnTicks(m, lim, rs, a) == []
    decreases |rs|
  {
    if rs != [] {
      DistinctStep(m, lim, rs[0]);
      OthersUntouched(m, lim, rs[0], a);
      NeverAgain(Handle(m, lim, rs[0]), lim, rs[1..], a, lo, hi);
    }
  }

  /** While an address finds itself in the cache, its admissions are those of its own session. */
  lemma {:induction false} OwnSessionDecides(m: Manager, lim: Limits, rs: seq<Request>, a: Address, lo: int, hi: int)
    requires Distinct(m.cache) && Hit(m, a) && Returns(m, lim, rs, a)
    ensures AdmittedFor(m, lim, rs, a, lo, hi)
         == AcceptedWithin(Own(m, a), lim.max, lim.interval, OwnTicks(m, lim, rs, a), lo, hi)
    decreases |rs|
  {
    if rs != [] {
      var r := rs[0];
      var m' := Handle(m, lim, r);
      DistinctStep(m, lim, r);
      OwnTicksStep(m, lim, rs, a);
      if r.addr != a {
        OthersUntouched(m, lim, r, a);
      }
      if Hit(m', a) {
        OwnSessionDecides(m', lim, rs[1..], a, lo, hi);
      } else {
        NeverAgain(m', lim, rs[1..], a, lo, hi);
      }
    }
  }

  /** If all addresses fit into the cache, each is held to twice its own limit in every window too. */
  lemma {:induction false} AddressWindowBound(m: Manager, lim: Limits, rs: seq<Request>, a: Address,
                                              all: set<Address>, from: Time, lo: int)
    requires Fits(m, all) && RequestsClocked(from, rs)
    requires forall i :: 0 <= i < |rs| ==> rs[i].addr in all
    requires Hit(m, a) ==> Own(m, a).start <= from
    ensures AdmittedFor(m, lim, rs, a, lo, lo + lim.interval) <= 2 * Cap(lim.max)
    decreases |rs|
  {
    if Hit(m, a) {
      FitsReturns(m, lim, rs, a, all);
      ReturningBound(m, lim, rs, a, from, lo);
    } else if rs != [] {
      var r := rs[0];
      var m' := Handle(m, lim, r);
      FitsStep(m, lim, r, all);
      if r.addr == a {
        FitsReturns(m', lim, rs[1..], a, all);
        FirstRequestBound(m', lim, rs[1..], a, r.created, r.own.restart, lo);
      } else {
        OthersUntouched(m, lim, r, a);
        AddressWindowBound(m', lim, rs[1..], a, all, r.own.restart, lo);
      }
    }
  }

  lemma ReturningBound(m: Manager, lim: Limits, rs: seq<Request>, a: Address, from: Time, lo: int)
    requires Distinct(m.cache) && RequestsClocked(from, rs) && Returns(m, lim, rs, a)
    requires Hit(m, a) && Own(m, a).start <= from
    ensures AdmittedFor(m, lim, rs, a, lo, lo + lim.interval) <= 2 * Cap(lim.max)
  {
    var ts := OwnTicks(m, lim, rs, a);
    OwnSessionDecides(m, lim, rs, a, lo, lo + lim.interval);
    OwnTicksClocked(m, lim, rs, a, from);
    ClockedFrom(Own(m, a).start, from, ts);
    MonotoneWindow(Own(m, a), lim.max, lim.interval, ts, lo);
  }

  /** After the request that created a's session: one more admission still fits the bound if the creation
      itself falls into the window. */
  lemma FirstRequestBound(m: Manager, lim: Limits, rs: seq<Request>, a: Address, created: Time, from: Time, lo: int)
    requires Distinct(m.cache) && RequestsClocked(from, rs) && created <= from && Returns(m, lim, rs, a)
    requires Hit(m, a) && Own(m, a) == Session(created, 1)
    ensures var n := AdmittedFor(m, lim, rs, a, lo, lo + lim.interval);
            n <= 2 * Cap(lim.max) && (lo <= created ==> n + 1 <= Cap(lim.max))
  {
    ReturningBound(m, lim, rs, a, from, lo);
    if lo <= created {
      var ts := OwnTicks(m, lim, rs, a);
      OwnSessionDecides(m, lim, rs, a, lo, lo + lim.interval);
      OwnTicksClocked(m, lim, rs, a, from);
      ClockedFrom(created, from, ts);
      ClockedIsUnwrapped(Own(m, a), lim.max, lim.interval, ts);
      RoundBound(Own(m, a), lim.max, lim.interval, ts, lo, lo + lim.interval);
    }
  }

  // Exactly the addresses that fit: one more than the cache holds and the limit per address is lost.

  function NextTurn(n: nat, a: Address): Address { if a >= n then 0 else a + 1 }

  /** Addresses 0 to n taking turns from a on, all at time 0. */
  function Turns(n: nat, a: Address, len: nat): (rs: seq<Request>)
    decreases len
  {
    if len == 0 then []
    else [Request(a, 0, Tick(0, 0), Tick(0, 0))] + Turns(n, NextTurn(n, a), len - 1)
  }

  /** The address whose turn was j turns before a's. */
  function Back(n: nat, a: Address, j: nat): int { if j <= a then a - j else a - j + n + 1 }

  /** When it is a's turn the cache holds the addresses of the last turns, newest first. */
  ghost predicate HoldsLastTurns(cache: seq<Entry>, n: nat, a: Address) {
    && |cache| <= n && a <= n
    && (forall k :: 0 <= k < |cache| ==> cache[k].addr == Back(n, a, k + 1))
  }

  lemma TurnMisses(m: Manager, lim: Limits, n: nat, a: Address, r: Request)
    requires HoldsLastTurns(m.cache, n, a) && m.maxSize == n && r.addr == a
    ensures !Hit(m, a)
    ensures HoldsLastTurns(Handle(m, lim, r).cache, n, NextTurn(n, a))
  {
    var cache' := Trim([Entry(a, Session(r.created, 1))] + m.cache, n);
    forall k | 0 <= k < |cache'|
      ensures cache'[k].addr == Back(n, NextTurn(n, a), k + 1)
    {
      assert k > 0 ==> cache'[k] == m.cache[k - 1];
    }
  }

  /** How often it is address 0's turn. */
  function Visits(n: nat, a: Address, len: nat): nat
    decreases len
  {
    if len == 0 then 0 else (if a == 0 then 1 else 0) + Visits(n, NextTurn(n, a), len - 1)
  }

  lemma {:induction false} TurnsAllAdmitted(m: Manager, lim: Limits, n: nat, a: Address, len: nat)
    requires HoldsLastTurns(m.cache, n, a) && m.maxSize == n
    requires m.total.start == 0 && m.total.count + len <= lim.totalMax
    ensures AdmittedFor(m, lim, Turns(n, a, len), 0, 0, lim.interval) == Visits(n, a, len)
    decreases len
  {
    if len > 0 {
      var rs := Turns(n, a, len);
      TurnMisses(m, lim, n, a, rs[0]);
      assert rs[1..] == Turns(n, NextTurn(n, a), len - 1);
      TurnsAllAdmitted(Handle(m, lim, rs[0]), lim, n, NextTurn(n, a), len - 1);
    }
  }

  /** The rest of a cycle visits address 0 only if it starts there. */
  lemma {:induction false} CycleVisits(n: nat, a: Address, rest: nat)
    requires a <= n
    ensures Visits(n, a, n + 1 - a + rest) == (if a == 0 then 1 else 0) + Visits(n, 0, rest)
    decreases n - a
  {
    if a < n {
      CycleVisits(n, a + 1, rest);
    }
  }

  /** For every cache size n: with n + 1 addresses taking turns, a limit of one per interval admits the
      first address three times at once, while with at most n addresses AddressWindowBound holds. */
  lemma OneAddressTooMany(n: nat)
    ensures var lim := Limits(2 * n + 3, 1, 10);
            var rs := Turns(n, 0, 2 * n + 3);
            AdmittedFor(Manager(Session(0, 0), [], n), lim, rs, 0, 0, lim.interval) > 2 * Cap(lim.max)
  {
    TurnsAllAdmitted(Manager(Session(0, 0), [], n), Limits(2 * n + 3, 1, 10), n, 0, 2 * n + 3);
    CycleVisits(n, 0, n + 2);
    CycleVisits(n, 0, 1);
    assert Visits(n, 0, 1) == 1;
  }

  /** The counter object. */
  class SessionObject {
    var start: Time
    var count: nat

    ghost function Abs(): Session
      reads this
    {
      Session(start, count)
    }

    constructor (now: Time)
      ensures Abs() == Session(now, 1)
    {
      start, count := now, 1;
    }

    method Admit(max: nat, interval: Time, t: Tick) returns (ok: bool)
      modifies this
      ensures ok == Accepts(old(Abs()), max, interval, t)
      ensures Abs() == Plus(old(Abs()), max, interval, t)
    {
      if Elapsed(t.now, start) <= interval {
        if count < max {
          count := count + 1;
          return true;
        }
        return false;
      }
      start := t.restart;
      count := 1;
      return true;
    }
  }

  /** The manager object: the total counter, and the sessions by address in order of use. */
  class SessionManager {
    var total: SessionObject
    var cache: seq<Entry>
    const maxSize: nat

    ghost function Abs(): Manager
      reads this, total
    {
      Manager(total.Abs(), cache, maxSize)
    }

    constructor (size: nat, now: Time)
      ensures fresh(total) && Abs() == Manager(Session(now, 0), [], size)
    {
      var t := new SessionObject(now);
      t.count := 0;
      total, cache, maxSize := t, [], size;
    }

    method Request(lim: Limits, r: Request) returns (ok: bool)
      modifies this`cache, total
      ensures ok == Admits(old(Abs()), lim, r)
      ensures Abs() == Handle(old(Abs()), lim, r)
    {
      var k := Find(cache, r.addr);
      if k < |cache| {
        var s := cache[k].session;
        ok := total.Admit(lim.totalMax, lim.interval, r.tick);
        if ok {
          var own := new SessionObject(s.start);
          own.count := s.count;
          ok := own.Admit(lim.max, lim.interval, r.own);
          s := Session(own.start, own.count);
        }
        cache := [Entry(r.addr, s)] + WithoutAt(cache, k);
      } else {
        cache := Evict([Entry(r.addr, Session(r.created, 1))] + cache, maxSize);
        ok := total.Admit(lim.totalMax, lim.interval, r.tick);
      }
    }
  }

  /** The clean-up loop of the cache: drop the least recently used entry until the size fits. */
  method Evict(entries: seq<Entry>, maxSize: nat) returns (kept: seq<Entry>)
    ensures kept == Trim(entries, maxSize)
  {
    kept := entries;
    while |kept| > maxSize
      invariant |kept| <= |entries| && kept == entries[..|kept|]
      invariant |kept| >= maxSize || kept == entries
    {
      kept := kept[..|kept| - 1];
    }
  }
}
