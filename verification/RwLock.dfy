/** The blocking reader/writer lock: a mutex, two condition variables and three counters. Every
    critical section is one event: it ends by unlocking the mutex or by going to sleep on a condition
    variable, which releases the mutex in the same instant. Wait sets are explicit, a notification
    picks any sleeper, and a sleeper may wake for no reason at all. */
module RwLock {
  import opened Census

  /** Asleep: in the wait set. Awake: notified or spuriously woken, about to test its condition again. */
  datatype Mode = Idle | ReadAsleep | ReadAwake | Reading | WriteAsleep | WriteAwake | Writing

  predicate IsReading(m: Mode) { m == Reading }

  predicate IsWriting(m: Mode) { m == Writing }

  predicate SleepsToRead(m: Mode) { m == ReadAsleep }

  predicate WokenToRead(m: Mode) { m == ReadAwake }

  predicate SleepsToWrite(m: Mode) { m == WriteAsleep }

  predicate WokenToWrite(m: Mode) { m == WriteAwake }

  predicate PendsToWrite(m: Mode) { m in {WriteAsleep, WriteAwake, Writing} }

  datatype State = State(pendingRead: int, pendingWrite: int, inWriting: int, modes: map<Client, Mode>)

  /** `wake` is the sleeper that notify_one picks; it is not looked at when no writer sleeps. */
  datatype Event =
    | LockRead(c: Client)
    | RecheckRead(c: Client)
    | LockWrite(c: Client)
    | RecheckWrite(c: Client)
    | ReleaseRead(c: Client, wake: Client)
    | ReleaseWrite(c: Client, wake: Client)
    | SpuriousWake(c: Client)

  predicate Enabled(s: State, e: Event) {
    e.c in s.modes &&
    var m := s.modes[e.c];
    match e
    case LockRead(_) => m == Idle
    case RecheckRead(_) => m == ReadAwake
    case LockWrite(_) => m == Idle
    case RecheckWrite(_) => m == WriteAwake
    case ReleaseRead(_, w) => m == Reading && CanWake(s.modes, w)
    case ReleaseWrite(_, w) => m == Writing && CanWake(s.modes, w)
    case SpuriousWake(_) => m == ReadAsleep || m == WriteAsleep
  }

  predicate CanWake(ms: map<Client, Mode>, w: Client) {
    Count(ms, SleepsToWrite) > 0 ==> w in ms && ms[w] == WriteAsleep
  }

  function NotifyOneWriter(ms: map<Client, Mode>, w: Client): map<Client, Mode> {
    if w in ms && ms[w] == WriteAsleep then ms[w := WriteAwake] else ms
  }

  function NotifyAllReaders(ms: map<Client, Mode>): map<Client, Mode> {
    map c | c in ms :: if ms[c] == ReadAsleep then ReadAwake else ms[c]
  }

  /** The loop test of lock_read and what follows it. */
  function EnterRead(s: State, c: Client): State {
    if s.pendingWrite != 0 then s.(modes := s.modes[c := ReadAsleep])
    else s.(pendingRead := s.pendingRead + 1, modes := s.modes[c := Reading])
  }

  /** The loop test of lock_write and what follows it. */
  function EnterWrite(s: State, c: Client): State {
    if s.pendingRead != 0 || s.inWriting != 0 then s.(modes := s.modes[c := WriteAsleep])
    else s.(inWriting := 1, modes := s.modes[c := Writing])
  }

  function Step(s: State, e: Event): State
    requires Enabled(s, e)
  {
    match e
    case LockRead(c) => EnterRead(s, c)
    case RecheckRead(c) => EnterRead(s, c)
    case LockWrite(c) => EnterWrite(s.(pendingWrite := s.pendingWrite + 1), c)
    case RecheckWrite(c) => EnterWrite(s, c)
    case ReleaseRead(c, w) =>
      var ms := s.modes[c := Idle];
      var r := s.pendingRead - 1;
      s.(pendingRead := r, modes := if r == 0 && s.pendingWrite > 0 then NotifyOneWriter(ms, w) else ms)
    case ReleaseWrite(c, w) =>
      var ms := s.modes[c := Idle];
      var p := s.pendingWrite - 1;
      s.(pendingWrite := p, inWriting := 0,
         modes := if p == 0 then NotifyAllReaders(ms) else NotifyOneWriter(ms, w))
    case SpuriousWake(c) =>
      s.(modes := s.modes[c := if s.modes[c] == ReadAsleep then ReadAwake else WriteAwake])
  }

  predicate Initial(s: State) {
    && s.pendingRead == 0 && s.pendingWrite == 0 && s.inWriting == 0
    && (forall c :: c in s.modes ==> s.modes[c] == Idle)
  }

  predicate Feasible(s: State, es: seq<Event>)
    decreases |es|
  {
    es == [] || (Enabled(s, es[0]) && Feasible(Step(s, es[0]), es[1..]))
  }

  function After(s: State, es: seq<Event>): State
    requires Feasible(s, es)
    decreases |es|
  {
    if es == [] then s else After(Step(s, es[0]), es[1..])
  }

  /** Accounting, exclusion and the two wake-up laws. */
  predicate Inv(s: State) {
    && Accounting(s)
    && Exclusion(s)
    && ReadersSleepBehindWriters(s)
    && FreeLockHasWokenWriter(s)
  }

  predicate Accounting(s: State) {
    && s.pendingRead == Count(s.modes, IsReading)
    && s.inWriting == Count(s.modes, IsWriting)
    && s.pendingWrite == Count(s.modes, IsWriting) + Count(s.modes, SleepsToWrite) + Count(s.modes, WokenToWrite)
  }

  predicate Exclusion(s: State) {
    && Count(s.modes, IsWriting) <= 1
    && (Count(s.modes, IsWriting) == 1 ==> Count(s.modes, IsReading) == 0)
  }

  predicate ReadersSleepBehindWriters(s: State) {
    Count(s.modes, SleepsToRead) > 0 ==> s.pendingWrite > 0
  }

  predicate FreeLockHasWokenWriter(s: State) {
    (s.pendingRead == 0 && s.inWriting == 0 && Count(s.modes, SleepsToWrite) > 0) ==>
      Count(s.modes, WokenToWrite) > 0
  }

  /** All six counts after one client changes mode. */
  lemma Move(ms: map<Client, Mode>, c: Client, m: Mode)
    requires c in ms
    ensures Count(ms[c := m], IsReading) == Count(ms, IsReading) - One(IsReading(ms[c])) + One(IsReading(m))
    ensures Count(ms[c := m], IsWriting) == Count(ms, IsWriting) - One(IsWriting(ms[c])) + One(IsWriting(m))
    ensures Count(ms[c := m], SleepsToRead) == Count(ms, SleepsToRead) - One(SleepsToRead(ms[c])) + One(SleepsToRead(m))
    ensures Count(ms[c := m], WokenToRead) == Count(ms, WokenToRead) - One(WokenToRead(ms[c])) + One(WokenToRead(m))
    ensures Count(ms[c := m], SleepsToWrite) == Count(ms, SleepsToWrite) - One(SleepsToWrite(ms[c])) + One(SleepsToWrite(m))
    ensures Count(ms[c := m], WokenToWrite) == Count(ms, WokenToWrite) - One(WokenToWrite(ms[c])) + One(WokenToWrite(m))
  {
    CountUpdate(ms, c, m, IsReading);
    CountUpdate(ms, c, m, IsWriting);
    CountUpdate(ms, c, m, SleepsToRead);
    CountUpdate(ms, c, m, WokenToRead);
    CountUpdate(ms, c, m, SleepsToWrite);
    CountUpdate(ms, c, m, WokenToWrite);
  }

  /** notify_all moves every sleeping reader to the woken ones and nobody else. */
  lemma NotifyAllCounts(ms: map<Client, Mode>)
    ensures var ns := NotifyAllReaders(ms);
            && Count(ns, SleepsToRead) == 0
            && Count(ns, WokenToRead) == Count(ms, WokenToRead) + Count(ms, SleepsToRead)
            && Count(ns, IsReading) == Count(ms, IsReading)
            && Count(ns, IsWriting) == Count(ms, IsWriting)
            && Count(ns, SleepsToWrite) == Count(ms, SleepsToWrite)
            && Count(ns, WokenToWrite) == Count(ms, WokenToWrite)
  {
    var ns := NotifyAllReaders(ms);
    assert Those(ns, SleepsToRead) == {};
    assert Those(ns, WokenToRead) == Those(ms, WokenToRead) + Those(ms, SleepsToRead);
    assert Those(ns, IsReading) == Those(ms, IsReading);
    assert Those(ns, IsWriting) == Those(ms, IsWriting);
    assert Those(ns, SleepsToWrite) == Those(ms, SleepsToWrite);
    assert Those(ns, WokenToWrite) == Those(ms, WokenToWrite);
  }

  /** notify_one moves one sleeping writer, if there is one, to the woken ones. */
  lemma NotifyOneCounts(ms: map<Client, Mode>, w: Client)
    requires CanWake(ms, w)
    ensures var ns := NotifyOneWriter(ms, w);
            var k := One(Count(ms, SleepsToWrite) > 0);
            && Count(ns, SleepsToWrite) == Count(ms, SleepsToWrite) - k
            && Count(ns, WokenToWrite) == Count(ms, WokenToWrite) + k
            && Count(ns, SleepsToRead) == Count(ms, SleepsToRead)
            && Count(ns, WokenToRead) == Count(ms, WokenToRead)
            && Count(ns, IsReading) == Count(ms, IsReading)
            && Count(ns, IsWriting) == Count(ms, IsWriting)
  {
    if w in ms && ms[w] == WriteAsleep {
      CountMember(ms, w, SleepsToWrite);
      Move(ms, w, WriteAwake);
    }
  }

  lemma InitialInv(s: State)
    requires Initial(s)
    ensures Inv(s)
  {
    CountNone(s.modes, IsReading);
    CountNone(s.modes, IsWriting);
    CountNone(s.modes, SleepsToRead);
    CountNone(s.modes, SleepsToWrite);
    CountNone(s.modes, WokenToWrite);
  }

  lemma EnterReadInv(s: State, c: Client)
    requires Inv(s) && c in s.modes && (s.modes[c] == Idle || s.modes[c] == ReadAwake)
    ensures Inv(EnterRead(s, c))
  {
    Move(s.modes, c, ReadAsleep);
    Move(s.modes, c, Reading);
  }

  lemma LockWriteInv(s: State, c: Client)
    requires Inv(s) && c in s.modes && s.modes[c] == Idle
    ensures Inv(EnterWrite(s.(pendingWrite := s.pendingWrite + 1), c))
  {
    Move(s.modes, c, WriteAsleep);
    Move(s.modes, c, Writing);
  }

  lemma RecheckWriteInv(s: State, c: Client)
    requires Inv(s) && c in s.modes && s.modes[c] == WriteAwake
    ensures Inv(EnterWrite(s, c))
  {
    Move(s.modes, c, WriteAsleep);
    Move(s.modes, c, Writing);
  }

  lemma ReleaseReadInv(s: State, e: Event)
    requires Inv(s) && e.ReleaseRead? && Enabled(s, e)
    ensures Inv(Step(s, e))
  {
    CountMember(s.modes, e.c, IsReading);
    Move(s.modes, e.c, Idle);
    NotifyOneCounts(s.modes[e.c := Idle], e.wake);
  }

  lemma ReleaseWriteInv(s: State, e: Event)
    requires Inv(s) && e.ReleaseWrite? && Enabled(s, e)
    ensures Inv(Step(s, e))
  {
    CountMember(s.modes, e.c, IsWriting);
    Move(s.modes, e.c, Idle);
    NotifyOneCounts(s.modes[e.c := Idle], e.wake);
    NotifyAllCounts(s.modes[e.c := Idle]);
  }

  lemma StepInv(s: State, e: Event)
    requires Inv(s) && Enabled(s, e)
    ensures Inv(Step(s, e))
  {
    match e
    case LockRead(c) => EnterReadInv(s, c);
    case RecheckRead(c) => EnterReadInv(s, c);
    case LockWrite(c) => LockWriteInv(s, c);
    case RecheckWrite(c) => RecheckWriteInv(s, c);
    case ReleaseRead(_, _) => ReleaseReadInv(s, e);
    case ReleaseWrite(_, _) => ReleaseWriteInv(s, e);
    case SpuriousWake(c) =>
      Move(s.modes, c, ReadAwake);
      Move(s.modes, c, WriteAwake);
  }

  lemma {:induction false} RunInv(s: State, es: seq<Event>)
    requires Inv(s) && Feasible(s, es)
    ensures Inv(After(s, es))
    decreases |es|
  {
    if es != [] {
      StepInv(s, es[0]);
      RunInv(Step(s, es[0]), es[1..]);
    }
  }

  // Exclusion and writer preference.

  ghost predicate Exclusive(s: State) {
    forall c, d :: c in s.modes && d in s.modes && c != d && s.modes[c] == Writing ==>
      s.modes[d] != Writing && s.modes[d] != Reading
  }

  lemma InvExclusive(s: State)
    requires Inv(s)
    ensures Exclusive(s)
  {
    forall c, d | c in s.modes && d in s.modes && c != d && s.modes[c] == Writing
      ensures s.modes[d] != Writing && s.modes[d] != Reading
    {
      CountMember(s.modes, c, IsWriting);
      if s.modes[d] == Writing {
        CountPair(s.modes, c, d, IsWriting);
      } else if s.modes[d] == Reading {
        CountMember(s.modes, d, IsReading);
      }
    }
  }

  /** The counters of every reachable state count exactly the readers inside, the writers inside and the
      writers inside or waiting; a writer shares with nobody. */
  lemma RunsAreExclusive(s: State, es: seq<Event>)
    requires Initial(s) && Feasible(s, es)
    ensures Exclusive(After(s, es))
    ensures Accounting(After(s, es))
    ensures 0 <= After(s, es).inWriting <= 1
  {
    InitialInv(s);
    RunInv(s, es);
    InvExclusive(After(s, es));
  }

  /** Client c is inside or waiting as a writer in s and in every later state. */
  predicate PendsThroughout(s: State, es: seq<Event>, c: Client)
    requires Feasible(s, es)
    decreases |es|
  {
    && c in s.modes && PendsToWrite(s.modes[c])
    && (es != [] ==> PendsThroughout(Step(s, es[0]), es[1..], c))
  }

  lemma PendingWriterCounts(s: State, c: Client)
    requires Inv(s) && c in s.modes && PendsToWrite(s.modes[c])
    ensures s.pendingWrite > 0
  {
    match s.modes[c]
    case WriteAsleep => CountMember(s.modes, c, SleepsToWrite);
    case WriteAwake => CountMember(s.modes, c, WokenToWrite);
    case Writing => CountMember(s.modes, c, IsWriting);
  }

  /** While any one writer is pending, readers only leave: nobody new gets in to read. */
  lemma {:induction false} NoReaderEntersPastWriter(s: State, es: seq<Event>, c: Client)
    requires Inv(s) && Feasible(s, es) && PendsThroughout(s, es, c)
    ensures Those(After(s, es).modes, IsReading) <= Those(s.modes, IsReading)
    decreases |es|
  {
    if es != [] {
      PendingWriterCounts(s, c);
      StepInv(s, es[0]);
      NoReaderEntersPastWriter(Step(s, es[0]), es[1..], c);
    }
  }

  // When a client gets in, and whom a release wakes, told by what the clients are doing.

  /** A reader gets in exactly when nobody is inside or waiting to write. */
  lemma ReadEntersIff(s: State, e: Event)
    requires Inv(s) && Enabled(s, e) && (e.LockRead? || e.RecheckRead?)
    ensures Step(s, e).modes[e.c] == if (exists d :: d in s.modes && s.modes[d] in {WriteAsleep, WriteAwake, Writing}) then ReadAsleep else Reading
  {
    hide Count;
    CountNone(s.modes, IsWriting);
    CountNone(s.modes, SleepsToWrite);
    CountNone(s.modes, WokenToWrite);
  }

  /** A writer gets in exactly when nobody is inside. */
  lemma WriteEntersIff(s: State, e: Event)
    requires Inv(s) && Enabled(s, e) && (e.LockWrite? || e.RecheckWrite?)
    ensures Step(s, e).modes[e.c] == if (exists d :: d in s.modes && s.modes[d] in {Reading, Writing}) then WriteAsleep else Writing
  {
    hide Count;
    CountNone(s.modes, IsWriting);
    CountNone(s.modes, IsReading);
  }

  /** A writer that leaves wakes all sleeping readers if no other writer is left, else one sleeping writer and
      no reader. */
  lemma WriterLeaves(s: State, c: Client, wake: Client, d: Client)
    requires Inv(s) && Enabled(s, ReleaseWrite(c, wake)) && d in s.modes && d != c
    ensures var m' := Step(s, ReleaseWrite(c, wake)).modes[d];
            if (exists w :: w in s.modes && w != c && s.modes[w] in {WriteAsleep, WriteAwake, Writing})
            then m' == if d == wake && s.modes[d] == WriteAsleep then WriteAwake else s.modes[d]
            else m' == if s.modes[d] == ReadAsleep then ReadAwake else s.modes[d]
  {
    hide Count;
    var ms := s.modes[c := Idle];
    Move(s.modes, c, Idle);
    CountNone(ms, IsWriting);
    CountNone(ms, SleepsToWrite);
    CountNone(ms, WokenToWrite);
    assert s.pendingWrite - 1 == Count(ms, IsWriting) + Count(ms, SleepsToWrite) + Count(ms, WokenToWrite);
    if exists w :: w in s.modes && w != c && s.modes[w] in {WriteAsleep, WriteAwake, Writing} {
      var w :| w in s.modes && w != c && s.modes[w] in {WriteAsleep, WriteAwake, Writing};
      assert ms[w] == s.modes[w];
    } else {
      assert forall w :: w in ms ==> ms[w] !in {WriteAsleep, WriteAwake, Writing};
    }
  }

  /** A reader that leaves wakes one sleeping writer if it was the last reader, and nobody otherwise. */
  lemma ReaderLeaves(s: State, c: Client, wake: Client, d: Client)
    requires Inv(s) && Enabled(s, ReleaseRead(c, wake)) && d in s.modes && d != c
    ensures var m' := Step(s, ReleaseRead(c, wake)).modes[d];
            if (exists r :: r in s.modes && r != c && s.modes[r] == Reading) then m' == s.modes[d]
            else m' == if d == wake && s.modes[d] == WriteAsleep then WriteAwake else s.modes[d]
  {
    hide Count;
    var ms := s.modes[c := Idle];
    Move(s.modes, c, Idle);
    CountNone(ms, IsReading);
    CountNone(s.modes, SleepsToWrite);
    if exists r :: r in s.modes && r != c && s.modes[r] == Reading {
      var r :| r in s.modes && r != c && s.modes[r] == Reading;
      assert ms[r] == Reading;
    } else {
      assert forall r :: r in ms ==> ms[r] != Reading;
    }
  }

  // No lost wake-up.

  function Work(ms: map<Client, Mode>): nat {
    3 * (Count(ms, SleepsToRead) + Count(ms, SleepsToWrite))
    + 2 * (Count(ms, WokenToRead) + Count(ms, WokenToWrite))
    + Count(ms, IsReading) + Count(ms, IsWriting)
  }

  lemma NoWorkMeansIdle(ms: map<Client, Mode>)
    requires Work(ms) == 0
    ensures forall c :: c in ms ==> ms[c] == Idle
  {
    CountNone(ms, IsReading);
    CountNone(ms, IsWriting);
    CountNone(ms, SleepsToRead);
    CountNone(ms, WokenToRead);
    CountNone(ms, SleepsToWrite);
    CountNone(ms, WokenToWrite);
  }

  /** Finishing moves: nobody asks for the lock anew and nobody is woken by chance. */
  predicate Finishing(e: Event) {
    e.RecheckRead? || e.RecheckWrite? || e.ReleaseRead? || e.ReleaseWrite?
  }

  lemma WakeChoice(ms: map<Client, Mode>) returns (w: Client)
    ensures CanWake(ms, w)
  {
    w := 0;
    if Count(ms, SleepsToWrite) > 0 {
      w := CountWitness(ms, SleepsToWrite);
    }
  }

  /** Somebody inside leaves: one client goes idle and others can only be woken. */
  lemma ReleaseProgress(s: State) returns (e: Event)
    requires Inv(s) && (Count(s.modes, IsReading) > 0 || Count(s.modes, IsWriting) > 0)
    ensures Enabled(s, e) && Finishing(e) && Work(Step(s, e).modes) < Work(s.modes)
  {
    var w := WakeChoice(s.modes);
    if Count(s.modes, IsReading) > 0 {
      var c := CountWitness(s.modes, IsReading);
      e := ReleaseRead(c, w);
    } else {
      var c := CountWitness(s.modes, IsWriting);
      e := ReleaseWrite(c, w);
    }
    var ms := s.modes[e.c := Idle];
    Move(s.modes, e.c, Idle);
    NotifyOneCounts(ms, w);
    NotifyAllCounts(ms);
  }

  /** Nobody is inside, somebody waits: then some woken client exists and gets in the moment it runs. */
  lemma EntryProgress(s: State) returns (e: Event)
    requires Inv(s) && Work(s.modes) > 0
    requires Count(s.modes, IsReading) == 0 && Count(s.modes, IsWriting) == 0
    ensures Enabled(s, e) && Finishing(e) && Work(Step(s, e).modes) < Work(s.modes)
    ensures Step(s, e).modes[e.c] in {Reading, Writing}
  {
    if s.pendingWrite > 0 {
      var c := CountWitness(s.modes, WokenToWrite);
      e := RecheckWrite(c);
      Move(s.modes, c, Writing);
    } else {
      var c := CountWitness(s.modes, WokenToRead);
      e := RecheckRead(c);
      Move(s.modes, c, Reading);
    }
  }

  /** No reachable state is stuck: the clients already inside or waiting can all be served, by their own
      next moves alone. A lost wake-up would leave a sleeper that only a new request or a spurious
      wake-up could rescue. */
  lemma {:induction false} Drains(s: State) returns (es: seq<Event>)
    requires Inv(s)
    ensures Feasible(s, es)
    ensures forall e :: e in es ==> Finishing(e)
    ensures forall c :: c in After(s, es).modes ==> After(s, es).modes[c] == Idle
    decreases Work(s.modes)
  {
    if Work(s.modes) == 0 {
      NoWorkMeansIdle(s.modes);
      es := [];
    } else {
      var e: Event;
      if Count(s.modes, IsReading) > 0 || Count(s.modes, IsWriting) > 0 {
        e := ReleaseProgress(s);
      } else {
        e := EntryProgress(s);
      }
      StepInv(s, e);
      var rest := Drains(Step(s, e));
      es := [e] + rest;
      assert es[1..] == rest;
    }
  }

  // Not only can everybody be served: every schedule of finishing moves does it.

  predicate IsActive(m: Mode) { m != Idle }

  predicate IsAwake(m: Mode) { m == ReadAwake || m == WriteAwake }

  /** Clients that are not idle come first, clients about to test their condition second. */
  function Rank(ms: map<Client, Mode>): nat {
    Count(ms, IsActive) * (|ms| + 1) + Count(ms, IsAwake)
  }

  lemma NotifyKeepsActive(ms: map<Client, Mode>, w: Client)
    ensures Count(NotifyOneWriter(ms, w), IsActive) == Count(ms, IsActive) && |NotifyOneWriter(ms, w)| == |ms|
    ensures Count(NotifyAllReaders(ms), IsActive) == Count(ms, IsActive) && |NotifyAllReaders(ms)| == |ms|
  {
    assert Those(NotifyOneWriter(ms, w), IsActive) == Those(ms, IsActive);
    assert Those(NotifyAllReaders(ms), IsActive) == Those(ms, IsActive);
    assert NotifyOneWriter(ms, w).Keys == ms.Keys && NotifyAllReaders(ms).Keys == ms.Keys;
  }

  /** A client that goes idle outweighs all it may have woken. */
  lemma RankAfterRelease(ms: map<Client, Mode>, ms': map<Client, Mode>)
    requires |ms'| == |ms| && Count(ms', IsActive) == Count(ms, IsActive) - 1
    ensures Rank(ms') < Rank(ms)
  {
    CountBound(ms', IsAwake);
    assert Count(ms', IsActive) * (|ms| + 1) + (|ms| + 1) == Count(ms, IsActive) * (|ms| + 1);
  }

  lemma FinishingRanksDown(s: State, e: Event)
    requires Enabled(s, e) && Finishing(e)
    ensures Rank(Step(s, e).modes) < Rank(s.modes)
  {
    hide Count, Rank;
    if e.ReleaseRead? || e.ReleaseWrite? {
      var ms := s.modes[e.c := Idle];
      CountUpdate(s.modes, e.c, Idle, IsActive);
      assert ms.Keys == s.modes.Keys;
      NotifyKeepsActive(ms, e.wake);
      RankAfterRelease(s.modes, Step(s, e).modes);
    } else {
      var m := Step(s, e).modes[e.c];
      assert Step(s, e).modes == s.modes[e.c := m];
      RankAfterRecheck(s.modes, e.c, m);
    }
  }

  lemma RankAfterRecheck(ms: map<Client, Mode>, c: Client, m: Mode)
    requires c in ms && IsAwake(ms[c]) && IsActive(m) && !IsAwake(m)
    ensures Rank(ms[c := m]) < Rank(ms)
  {
    CountUpdate(ms, c, m, IsActive);
    CountUpdate(ms, c, m, IsAwake);
    assert ms[c := m].Keys == ms.Keys;
  }

  /** Where nobody can make a finishing move, everybody is idle. */
  lemma StuckMeansIdle(s: State)
    requires Inv(s) && forall e :: Finishing(e) ==> !Enabled(s, e)
    ensures forall c :: c in s.modes ==> s.modes[c] == Idle
  {
    if Work(s.modes) == 0 {
      NoWorkMeansIdle(s.modes);
    } else if Count(s.modes, IsReading) > 0 || Count(s.modes, IsWriting) > 0 {
      var e := ReleaseProgress(s);
      assert false;
    } else {
      var e := EntryProgress(s);
      assert false;
    }
  }

  lemma {:induction false} FinishingRunsEnd(s: State, es: seq<Event>)
    requires Inv(s) && Feasible(s, es) && forall i :: 0 <= i < |es| ==> Finishing(es[i])
    ensures |es| <= Rank(s.modes) && Inv(After(s, es))
    decreases |es|
  {
    hide Inv, Rank, Enabled, Step;
    if es != [] {
      StepInv(s, es[0]);
      FinishingRanksDown(s, es[0]);
      FinishingRunsEnd(Step(s, es[0]), es[1..]);
    }
  }

  /** From every reachable state: whatever order the clients inside and waiting move in, there is a bound on
      their moves, and when no move is left everybody has been served. */
  lemma EveryScheduleServesAll(s: State, es: seq<Event>, more: seq<Event>)
    requires Initial(s) && Feasible(s, es) && Feasible(After(s, es), more)
    requires forall i :: 0 <= i < |more| ==> Finishing(more[i])
    ensures var t := After(After(s, es), more);
            && |more| <= Rank(After(s, es).modes)
            && ((forall e :: Finishing(e) ==> !Enabled(t, e)) ==> forall c :: c in t.modes ==> t.modes[c] == Idle)
  {
    hide Rank, Step, Enabled;
    InitialInv(s);
    RunInv(s, es);
    FinishingRunsEnd(After(s, es), more);
    var t := After(After(s, es), more);
    if forall e :: Finishing(e) ==> !Enabled(t, e) {
      StuckMeansIdle(t);
    }
  }

  lemma RunsNeverLoseAWakeUp(s: State, es: seq<Event>) returns (rest: seq<Event>)
    requires Initial(s) && Feasible(s, es)
    ensures ReadersSleepBehindWriters(After(s, es)) && FreeLockHasWokenWriter(After(s, es))
    ensures Feasible(After(s, es), rest)
    ensures forall e :: e in rest ==> Finishing(e)
    ensures var t := After(After(s, es), rest); forall c :: c in t.modes ==> t.modes[c] == Idle
  {
    InitialInv(s);
    RunInv(s, es);
    rest := Drains(After(s, es));
  }

  /** The lock object. A method is one critical section of client c. */
  class RwMutexLock {
    var pendingRead: int
    var pendingWrite: int
    var inWriting: int
    ghost var modes: map<Client, Mode>

    ghost function Abs(): State
      reads this
    {
      State(pendingRead, pendingWrite, inWriting, modes)
    }

    ghost predicate Valid()
      reads this
    {
      Inv(Abs())
    }

    constructor (ghost clients: set<Client>)
      ensures Initial(Abs()) && Valid() && modes.Keys == clients
    {
      pendingRead, pendingWrite, inWriting := 0, 0, 0;
      modes := map c | c in clients :: Idle;
      new;
      assert modes.Keys == clients;
      InitialInv(Abs());
    }

    /** One pass of lock_read up to the wait or the return. A client that slept comes back with
        `again` once it is woken. */
    method EnterToRead(ghost c: Client, ghost again: bool) returns (entered: bool)
      requires Valid() && Enabled(Abs(), if again then RecheckRead(c) else LockRead(c))
      modifies this
      ensures Valid() && Abs() == Step(old(Abs()), if again then RecheckRead(c) else LockRead(c))
      ensures modes[c] == if entered then Reading else ReadAsleep
    {
      StepInv(Abs(), if again then RecheckRead(c) else LockRead(c));
      entered := pendingWrite == 0;
      if entered { pendingRead := pendingRead + 1; }
      modes := modes[c := if entered then Reading else ReadAsleep];
    }

    /** One pass of lock_write; the pending count goes up on the first pass only. */
    method EnterToWrite(ghost c: Client, again: bool) returns (entered: bool)
      requires Valid() && Enabled(Abs(), if again then RecheckWrite(c) else LockWrite(c))
      modifies this
      ensures Valid() && Abs() == Step(old(Abs()), if again then RecheckWrite(c) else LockWrite(c))
      ensures modes[c] == if entered then Writing else WriteAsleep
    {
      StepInv(Abs(), if again then RecheckWrite(c) else LockWrite(c));
      if !again { pendingWrite := pendingWrite + 1; }
      entered := pendingRead == 0 && inWriting == 0;
      if entered { inWriting := 1; }
      modes := modes[c := if entered then Writing else WriteAsleep];
    }

    method LeaveRead(ghost c: Client, ghost wake: Client)
      requires Valid() && Enabled(Abs(), ReleaseRead(c, wake))
      modifies this
      ensures Valid() && Abs() == Step(old(Abs()), ReleaseRead(c, wake))
    {
      StepInv(Abs(), ReleaseRead(c, wake));
      pendingRead := pendingRead - 1;
      modes := modes[c := Idle];
      if pendingRead == 0 && pendingWrite > 0 {
        modes := NotifyOneWriter(modes, wake);
      }
    }

    method LeaveWrite(ghost c: Client, ghost wake: Client)
      requires Valid() && Enabled(Abs(), ReleaseWrite(c, wake))
      modifies this
      ensures Valid() && Abs() == Step(old(Abs()), ReleaseWrite(c, wake))
    {
      StepInv(Abs(), ReleaseWrite(c, wake));
      pendingWrite := pendingWrite - 1;
      modes := modes[c := Idle];
      if pendingWrite == 0 {
        modes := NotifyAllReaders(modes);
      } else {
        modes := NotifyOneWriter(modes, wake);
      }
      inWriting := 0;
    }
  }
}
