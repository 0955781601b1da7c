/** The reader/writer spin lock: one atomic word that packs a reader count, one upgrade bit and
    one writer bit. Every atomic read-modify-write is one event, so all interleavings of any number
    of clients, the mid-points of the two-step operations included, are sequences of events. */
module SpinLock {
  import opened Census

  const READER := 4
  const UPGRADED := 2
  const WRITER := 1

  /** Fewer clients than this keep the reader count inside a 32-bit signed word. */
  const CLIENT_LIMIT := 0x2000_0000

  const INT32_MAX := 0x7fff_ffff

  /** Where a client is between two of its atomic operations. BackingOut is a reader that added
      itself, saw a writer or upgrader, and has not yet subtracted itself again. ToShared and
      ToUpgrade are the mid-points of the two writer downgrades. */
  datatype Mode = Idle | BackingOut | Reading | Upgraded | Writing | ToShared | ToUpgrade

  predicate UsesReaderUnit(m: Mode) { m in {BackingOut, Reading, ToShared} }

  predicate IsReader(m: Mode) { m == Reading }

  predicate IsUpgrader(m: Mode) { m == Upgraded }

  predicate IsWriter(m: Mode) { m in {Writing, ToShared, ToUpgrade} }

  predicate IsToUpgrade(m: Mode) { m == ToUpgrade }

  /** The client has been granted the lock in some mode and has not given it up. */
  predicate Holds(m: Mode) { m != Idle && m != BackingOut }

  /** `data` stands for whatever the lock protects: only a writer may store to it. */
  datatype State = State(bits: int, modes: map<Client, Mode>, data: int)

  datatype Event =
    | TryLock(c: Client)
    | Unlock(c: Client)
    | SharedAdd(c: Client)
    | SharedBackOut(c: Client)
    | UnlockShared(c: Client)
    | DowngradeAdd(c: Client)
    | DowngradeClear(c: Client)
    | TryLockUpgrade(c: Client)
    | UnlockUpgrade(c: Client)
    | TryPromote(c: Client)
    | UpgradeToShared(c: Client)
    | DowngradeOr(c: Client)
    | DowngradeSub(c: Client)
    | Store(c: Client, v: int)

  // The word operations: bit tests and masks of the low two bits, read as arithmetic.

  predicate UpgradeBit(w: int) { w / UPGRADED % 2 == 1 }

  function UpgradeUnit(w: int): int { if UpgradeBit(w) then 1 else 0 }

  predicate Taken(w: int) { w % READER != 0 }

  function FetchOrUpgraded(w: int): int { if UpgradeBit(w) then w else w + UPGRADED }

  function ClearWriterBits(w: int): int { w - w % READER }

  /** A client only calls the operation its mode entitles it to. */
  predicate Enabled(s: State, e: Event) {
    e.c in s.modes &&
    var m := s.modes[e.c];
    match e
    case TryLock(_) => m == Idle
    case Unlock(_) => m == Writing
    case SharedAdd(_) => m == Idle
    case SharedBackOut(_) => m == BackingOut
    case UnlockShared(_) => m == Reading
    case DowngradeAdd(_) => m == Writing
    case DowngradeClear(_) => m == ToShared
    case TryLockUpgrade(_) => m == Idle
    case UnlockUpgrade(_) => m == Upgraded
    case TryPromote(_) => m == Upgraded
    case UpgradeToShared(_) => m == Upgraded
    case DowngradeOr(_) => m == Writing
    case DowngradeSub(_) => m == ToUpgrade
    case Store(_, _) => m == Writing
  }

  function Set(s: State, c: Client, bits: int, m: Mode): State {
    s.(bits := bits, modes := s.modes[c := m])
  }

  /** One atomic operation on the word, and where it leaves its client. */
  function Step(s: State, e: Event): State
    requires Enabled(s, e)
  {
    var w := s.bits;
    match e
    case TryLock(c) => if w == 0 then Set(s, c, WRITER, Writing) else s
    case Unlock(c) => Set(s, c, ClearWriterBits(w), Idle)
    case SharedAdd(c) => Set(s, c, w + READER, if Taken(w) then BackingOut else Reading)
    case SharedBackOut(c) => Set(s, c, w - READER, Idle)
    case UnlockShared(c) => Set(s, c, w - READER, Idle)
    case DowngradeAdd(c) => Set(s, c, w + READER, ToShared)
    case DowngradeClear(c) => Set(s, c, ClearWriterBits(w), Reading)
    case TryLockUpgrade(c) => Set(s, c, FetchOrUpgraded(w), if Taken(w) then Idle else Upgraded)
    case UnlockUpgrade(c) => Set(s, c, w - UPGRADED, Idle)
    case TryPromote(c) => if w == UPGRADED then Set(s, c, WRITER, Writing) else s
    case UpgradeToShared(c) => Set(s, c, w + READER - UPGRADED, Reading)
    case DowngradeOr(c) => Set(s, c, FetchOrUpgraded(w), ToUpgrade)
    case DowngradeSub(c) => Set(s, c, w - WRITER, Upgraded)
    case Store(_, v) => s.(data := v)
  }

  predicate Initial(s: State) {
    && s.bits == 0
    && |s.modes| < CLIENT_LIMIT
    && (forall c :: c in s.modes ==> s.modes[c] == Idle)
  }

  /** The events can happen one after the other from s. */
  predicate Feasible(s: State, es: seq<Event>)
    decreases |es|
  {
    es == [] || (Enabled(s, es[0]) && Feasible(Step(s, es[0]), es[1..]))
  }

  function After(s: State, es: seq<Event>): State
    requires Feasible(s, es)
    decreases |es|
  {
    if es == [] then s else After(Step(s, es[0]), es[1..])
  }

  /** What every atomic operation keeps. The first conjunct is the accounting law: the word is four
      per client that has added itself as a reader, two for the upgrade bit, one for the writer. */
  predicate Inv(s: State) {
    var readers := Count(s.modes, IsReader);
    var writers := Count(s.modes, IsWriter);
    var upgraders := Count(s.modes, IsUpgrader);
    && s.bits == READER * Count(s.modes, UsesReaderUnit) + UPGRADED * UpgradeUnit(s.bits) + WRITER * writers
    && writers + upgraders <= 1
    && (writers == 1 ==> readers == 0)
    && (upgraders == 1 ==> UpgradeBit(s.bits))
    && (UpgradeBit(s.bits) ==> writers + upgraders == 1)
    && (Count(s.modes, IsToUpgrade) > 0 ==> UpgradeBit(s.bits))
    && |s.modes| < CLIENT_LIMIT
  }

  lemma InitialInv(s: State)
    requires Initial(s)
    ensures Inv(s)
  {
    assert Those(s.modes, UsesReaderUnit) == {};
    assert Those(s.modes, IsReader) == {};
    assert Those(s.modes, IsWriter) == {};
    assert Those(s.modes, IsUpgrader) == {};
    assert Those(s.modes, IsToUpgrade) == {};
  }

  /** How a mode change moves every count, and what the old mode says about the old counts. */
  lemma MoveCounts(ms: map<Client, Mode>, c: Client, m: Mode)
    requires c in ms
    ensures Count(ms[c := m], UsesReaderUnit) == Count(ms, UsesReaderUnit) - One(UsesReaderUnit(ms[c])) + One(UsesReaderUnit(m))
    ensures Count(ms[c := m], IsReader) == Count(ms, IsReader) - One(IsReader(ms[c])) + One(IsReader(m))
    ensures Count(ms[c := m], IsWriter) == Count(ms, IsWriter) - One(IsWriter(ms[c])) + One(IsWriter(m))
    ensures Count(ms[c := m], IsUpgrader) == Count(ms, IsUpgrader) - One(IsUpgrader(ms[c])) + One(IsUpgrader(m))
    ensures Count(ms[c := m], IsToUpgrade) == Count(ms, IsToUpgrade) - One(IsToUpgrade(ms[c])) + One(IsToUpgrade(m))
    ensures |ms[c := m]| == |ms|
  {
    CountUpdate(ms, c, m, UsesReaderUnit);
    CountUpdate(ms, c, m, IsReader);
    CountUpdate(ms, c, m, IsWriter);
    CountUpdate(ms, c, m, IsUpgrader);
    CountUpdate(ms, c, m, IsToUpgrade);
    assert ms[c := m].Keys == ms.Keys;
  }

  /** Readers are among those that use a reader unit; clients at the upgrade mid-point are writers. */
  lemma CountInclusions(ms: map<Client, Mode>)
    ensures Count(ms, IsReader) <= Count(ms, UsesReaderUnit)
    ensures Count(ms, IsToUpgrade) <= Count(ms, IsWriter)
  {
    CardSubset(Those(ms, IsReader), Those(ms, UsesReaderUnit));
    CardSubset(Those(ms, IsToUpgrade), Those(ms, IsWriter));
  }

  /** A word made of n reader units, upgrade bit u and writer bit w, seen by the bit operations. */
  lemma WordShape(bits: int, n: int, u: int, w: int)
    requires bits == READER * n + UPGRADED * u + WRITER * w && 0 <= u <= 1 && 0 <= w <= 1
    ensures UpgradeBit(bits) <==> u == 1
    ensures bits % READER == UPGRADED * u + WRITER * w
    ensures ClearWriterBits(bits) == READER * n
  {
  }

  /** The invariant, once the counts of the new state are known: the new word must be built from them. */
  lemma RestoreInv(s: State, u: int)
    requires 0 <= u <= 1 && |s.modes| < CLIENT_LIMIT
    requires Count(s.modes, IsWriter) + Count(s.modes, IsUpgrader) <= 1
    requires s.bits == READER * Count(s.modes, UsesReaderUnit) + UPGRADED * u + WRITER * Count(s.modes, IsWriter)
    requires Count(s.modes, IsWriter) == 1 ==> Count(s.modes, IsReader) == 0
    requires Count(s.modes, IsUpgrader) == 1 ==> u == 1
    requires u == 1 ==> Count(s.modes, IsWriter) + Count(s.modes, IsUpgrader) == 1
    requires Count(s.modes, IsToUpgrade) > 0 ==> u == 1
    ensures Inv(s)
  {
    WordShape(s.bits, Count(s.modes, UsesReaderUnit), u, Count(s.modes, IsWriter));
  }

  /** The upgrade bit after an event. */
  function UpgradeAfter(s: State, e: Event): int
    requires Enabled(s, e)
  {
    match e
    case Unlock(_) => 0
    case DowngradeClear(_) => 0
    case UnlockUpgrade(_) => 0
    case UpgradeToShared(_) => 0
    case TryPromote(_) => if s.bits == UPGRADED then 0 else UpgradeUnit(s.bits)
    case TryLockUpgrade(_) => 1
    case DowngradeOr(_) => 1
    case _ => UpgradeUnit(s.bits)
  }

  /** What an event does to the counts, and what the word says before it. */
  lemma EventCounts(s: State, e: Event)
    requires Inv(s) && Enabled(s, e)
    ensures var ms := Step(s, e).modes;
            && |ms| == |s.modes|
            && Count(ms, UsesReaderUnit) == Count(s.modes, UsesReaderUnit) - One(UsesReaderUnit(s.modes[e.c])) + One(UsesReaderUnit(ms[e.c]))
            && Count(ms, IsReader) == Count(s.modes, IsReader) - One(IsReader(s.modes[e.c])) + One(IsReader(ms[e.c]))
            && Count(ms, IsWriter) == Count(s.modes, IsWriter) - One(IsWriter(s.modes[e.c])) + One(IsWriter(ms[e.c]))
            && Count(ms, IsUpgrader) == Count(s.modes, IsUpgrader) - One(IsUpgrader(s.modes[e.c])) + One(IsUpgrader(ms[e.c]))
            && Count(ms, IsToUpgrade) == Count(s.modes, IsToUpgrade) - One(IsToUpgrade(s.modes[e.c])) + One(IsToUpgrade(ms[e.c]))
            && Count(ms, IsReader) <= Count(ms, UsesReaderUnit) && Count(ms, IsToUpgrade) <= Count(ms, IsWriter)
    ensures Count(s.modes, IsReader) <= Count(s.modes, UsesReaderUnit)
    ensures Count(s.modes, IsToUpgrade) <= Count(s.modes, IsWriter)
    ensures s.bits % READER == UPGRADED * UpgradeUnit(s.bits) + WRITER * Count(s.modes, IsWriter)
    ensures ClearWriterBits(s.bits) == READER * Count(s.modes, UsesReaderUnit)
  {
    hide Count;
    var ms := Step(s, e).modes;
    assert ms == s.modes[e.c := ms[e.c]];
    WordShape(s.bits, Count(s.modes, UsesReaderUnit), UpgradeUnit(s.bits), Count(s.modes, IsWriter));
    CountInclusions(s.modes);
    MoveCounts(s.modes, e.c, ms[e.c]);
    CountInclusions(ms);
  }

  lemma WriterStepInv(s: State, e: Event)
    requires Inv(s) && Enabled(s, e) && (e.TryLock? || e.Unlock? || e.TryPromote?)
    ensures Inv(Step(s, e))
  {
    hide Count, UpgradeBit, ClearWriterBits;
    EventCounts(s, e);
    RestoreInv(Step(s, e), UpgradeAfter(s, e));
  }

  lemma ReaderStepInv(s: State, e: Event)
    requires Inv(s) && Enabled(s, e) && (e.SharedAdd? || e.SharedBackOut? || e.UnlockShared?)
    ensures Inv(Step(s, e))
  {
    hide Count, UpgradeBit, ClearWriterBits;
    EventCounts(s, e);
    RestoreInv(Step(s, e), UpgradeAfter(s, e));
  }

  lemma UpgraderStepInv(s: State, e: Event)
    requires Inv(s) && Enabled(s, e) && (e.TryLockUpgrade? || e.UnlockUpgrade? || e.UpgradeToShared?)
    ensures Inv(Step(s, e))
  {
    hide Count, UpgradeBit, ClearWriterBits;
    EventCounts(s, e);
    RestoreInv(Step(s, e), UpgradeAfter(s, e));
  }

  lemma DowngradeStepInv(s: State, e: Event)
    requires Inv(s) && Enabled(s, e) && (e.DowngradeAdd? || e.DowngradeClear? || e.DowngradeOr? || e.DowngradeSub?)
    ensures Inv(Step(s, e))
  {
    hide Count, UpgradeBit, ClearWriterBits;
    EventCounts(s, e);
    RestoreInv(Step(s, e), UpgradeAfter(s, e));
  }

  lemma StepInv(s: State, e: Event)
    requires Inv(s) && Enabled(s, e)
    ensures Inv(Step(s, e))
  {
    hide Count;
    if e.TryLock? || e.Unlock? || e.TryPromote? {
      WriterStepInv(s, e);
    } else if e.SharedAdd? || e.SharedBackOut? || e.UnlockShared? {
      ReaderStepInv(s, e);
    } else if e.TryLockUpgrade? || e.UnlockUpgrade? || e.UpgradeToShared? {
      UpgraderStepInv(s, e);
    } else if !e.Store? {
      DowngradeStepInv(s, e);
    }
  }

  /** Every state of every run satisfies the invariant. */
  lemma {:induction false} RunInv(s: State, es: seq<Event>)
    requires Inv(s) && Feasible(s, es)
    ensures Inv(After(s, es))
    decreases |es|
  {
    if es != [] {
      StepInv(s, es[0]);
      RunInv(Step(s, es[0]), es[1..]);
    }
  }

  // What the lock promises.

  /** A writer excludes every other client that holds the lock, and no two clients are upgraders. */
  ghost predicate Exclusive(s: State) {
    forall c, d :: c in s.modes && d in s.modes && c != d ==>
      && (IsWriter(s.modes[c]) ==> !Holds(s.modes[d]))
      && (IsUpgrader(s.modes[c]) ==> !IsUpgrader(s.modes[d]))
  }

  lemma PairExclusive(s: State, c: Client, d: Client)
    requires Inv(s) && c in s.modes && d in s.modes && c != d
    ensures IsWriter(s.modes[c]) ==> !Holds(s.modes[d])
    ensures IsUpgrader(s.modes[c]) ==> !IsUpgrader(s.modes[d])
  {
    if IsWriter(s.modes[c]) {
      CountMember(s.modes, c, IsWriter);
      if IsWriter(s.modes[d]) {
        CountPair(s.modes, c, d, IsWriter);
      } else if IsReader(s.modes[d]) {
        CountMember(s.modes, d, IsReader);
      } else if IsUpgrader(s.modes[d]) {
        CountMember(s.modes, d, IsUpgrader);
      }
    }
    if IsUpgrader(s.modes[c]) && IsUpgrader(s.modes[d]) {
      CountPair(s.modes, c, d, IsUpgrader);
    }
  }

  lemma InvExclusive(s: State)
    requires Inv(s)
    ensures Exclusive(s)
  {
    forall c, d | c in s.modes && d in s.modes && c != d
      ensures IsWriter(s.modes[c]) ==> !Holds(s.modes[d])
      ensures IsUpgrader(s.modes[c]) ==> !IsUpgrader(s.modes[d])
    {
      PairExclusive(s, c, d);
    }
  }

  /** The word is zero exactly when no client holds the lock or is in the middle of an operation. */
  lemma ZeroIffAllIdle(s: State)
    requires Inv(s)
    ensures s.bits == 0 <==> forall c :: c in s.modes ==> s.modes[c] == Idle
  {
    if s.bits == 0 {
      forall c | c in s.modes
        ensures s.modes[c] == Idle
      {
        if s.modes[c] == Upgraded {
          CountMember(s.modes, c, IsUpgrader);
        } else if IsWriter(s.modes[c]) {
          CountMember(s.modes, c, IsWriter);
        } else if s.modes[c] != Idle {
          CountMember(s.modes, c, UsesReaderUnit);
        }
      }
    }
    if forall c :: c in s.modes ==> s.modes[c] == Idle {
      assert Those(s.modes, UsesReaderUnit) == {};
      assert Those(s.modes, IsWriter) == {};
      assert Those(s.modes, IsUpgrader) == {};
    }
  }

  /** A set upgrade bit always has somebody who will clear it: the upgrader, or else the writer. */
  lemma UpgradeBitHasOwner(s: State) returns (owner: Client)
    requires Inv(s) && UpgradeBit(s.bits)
    ensures owner in s.modes && (IsUpgrader(s.modes[owner]) || IsWriter(s.modes[owner]))
  {
    var owners := Those(s.modes, IsUpgrader) + Those(s.modes, IsWriter);
    assert owners != {};
    owner :| owner in owners;
  }

  /** Exclusion, accounting and range, in every state any interleaving can reach. */
  lemma RunsAreExclusive(s: State, es: seq<Event>)
    requires Initial(s) && Feasible(s, es)
    ensures Exclusive(After(s, es))
    ensures var t := After(s, es);
            t.bits == READER * Count(t.modes, UsesReaderUnit) + UPGRADED * UpgradeUnit(t.bits) + WRITER * Count(t.modes, IsWriter)
    ensures var t := After(s, es);
            UpgradeBit(t.bits) && Count(t.modes, IsUpgrader) == 0 ==> Count(t.modes, IsWriter) == 1
    ensures 0 <= After(s, es).bits <= INT32_MAX
    ensures var t := After(s, es);
            t.bits == 0 <==> forall c :: c in t.modes ==> t.modes[c] == Idle
  {
    InitialInv(s);
    RunInv(s, es);
    InvExclusive(After(s, es));
    ZeroIffAllIdle(After(s, es));
    CountBound(After(s, es).modes, UsesReaderUnit);
  }

  // When a request is granted, told by what the clients are doing.

  lemma WordParts(s: State)
    requires Inv(s)
    ensures s.bits == READER * Count(s.modes, UsesReaderUnit) + UPGRADED * UpgradeUnit(s.bits) + WRITER * Count(s.modes, IsWriter)
    ensures s.bits % READER == UPGRADED * UpgradeUnit(s.bits) + WRITER * Count(s.modes, IsWriter)
  {
    hide Count;
    WordShape(s.bits, Count(s.modes, UsesReaderUnit), UpgradeUnit(s.bits), Count(s.modes, IsWriter));
  }

  /** No client is in one of the modes. */
  predicate Nobody(s: State, modes: set<Mode>) { forall d :: d in s.modes ==> s.modes[d] !in modes }

  predicate AllIdle(s: State) { forall d :: d in s.modes ==> s.modes[d] == Idle }

  /** The writer's request: exactly when every client is idle. */
  lemma LockGrantedIff(s: State, c: Client)
    requires Inv(s) && Enabled(s, TryLock(c))
    ensures Step(s, TryLock(c)).modes[c] == Writing <==> AllIdle(s)
  {
    ZeroIffAllIdle(s);
  }

  /** The reader's request: exactly when there is no upgrader and no writer, mid-points of the downgrades
      included. Other readers, and readers backing out, are no obstacle. */
  lemma SharedGrantedIff(s: State, c: Client)
    requires Inv(s) && Enabled(s, SharedAdd(c))
    ensures Step(s, SharedAdd(c)).modes[c] == Reading <==> Nobody(s, {Upgraded, Writing, ToShared, ToUpgrade})
  {
    hide Count;
    WordParts(s);
    CountNone(s.modes, IsWriter);
    CountNone(s.modes, IsUpgrader);
    assert forall m: Mode :: m in {Upgraded, Writing, ToShared, ToUpgrade} <==> IsWriter(m) || IsUpgrader(m);
  }

  /** The upgrader's request: under the same condition. */
  lemma UpgradeGrantedIff(s: State, c: Client)
    requires Inv(s) && Enabled(s, TryLockUpgrade(c))
    ensures Step(s, TryLockUpgrade(c)).modes[c] == Upgraded <==> Nobody(s, {Upgraded, Writing, ToShared, ToUpgrade})
  {
    hide Count;
    WordParts(s);
    CountNone(s.modes, IsWriter);
    CountNone(s.modes, IsUpgrader);
    assert forall m: Mode :: m in {Upgraded, Writing, ToShared, ToUpgrade} <==> IsWriter(m) || IsUpgrader(m);
  }

  /** The upgrader's promotion: exactly when no reader is inside or backing out. */
  lemma PromotionGrantedIff(s: State, c: Client)
    requires Inv(s) && Enabled(s, TryPromote(c))
    ensures Step(s, TryPromote(c)).modes[c] == Writing <==> Nobody(s, {Reading, BackingOut})
  {
    hide Count;
    WordParts(s);
    CountMember(s.modes, c, IsUpgrader);
    CountNone(s.modes, IsWriter);
    CountNone(s.modes, UsesReaderUnit);
    assert forall m: Mode :: m in {Reading, BackingOut} <==> UsesReaderUnit(m) && !IsWriter(m);
  }

  // Hand-over without a gap.

  /** Client c holds the lock, in whatever mode, in s and in every later state of the run. */
  predicate HoldsThroughout(s: State, es: seq<Event>, c: Client)
    requires Feasible(s, es)
    decreases |es|
  {
    && c in s.modes && Holds(s.modes[c])
    && (es != [] ==> HoldsThroughout(Step(s, es[0]), es[1..], c))
  }

  /** No client but c is a writer in s or in any later state of the run. */
  ghost predicate OnlyWriterIs(s: State, es: seq<Event>, c: Client)
    requires Feasible(s, es)
    decreases |es|
  {
    && (forall d :: d in s.modes && d != c ==> !IsWriter(s.modes[d]))
    && (es != [] ==> OnlyWriterIs(Step(s, es[0]), es[1..], c))
  }

  predicate StoresNothing(es: seq<Event>, c: Client) {
    forall i :: 0 <= i < |es| ==> !(es[i].Store? && es[i].c == c)
  }

  /** From upgrade to promotion, across both downgrades, and across any other chain of modes: while c
      never lets go, nobody else is ever a writer, and the protected data changes only if c stores. */
  lemma {:induction false} NoGapWhileHeld(s: State, es: seq<Event>, c: Client)
    requires Inv(s) && Feasible(s, es) && HoldsThroughout(s, es, c)
    ensures OnlyWriterIs(s, es, c)
    ensures StoresNothing(es, c) ==> After(s, es).data == s.data
    decreases |es|
  {
    InvExclusive(s);
    if es != [] {
      StepInv(s, es[0]);
      NoGapWhileHeld(Step(s, es[0]), es[1..], c);
    }
  }

  /** The same for every interleaving that starts from a free lock: es leads to the moment c is granted
      the lock, more is any stretch over which it keeps it. */
  lemma RunsHaveNoGap(s: State, es: seq<Event>, more: seq<Event>, c: Client)
    requires Initial(s) && Feasible(s, es)
    requires Feasible(After(s, es), more) && HoldsThroughout(After(s, es), more, c)
    ensures OnlyWriterIs(After(s, es), more, c)
    ensures StoresNothing(more, c) ==> After(After(s, es), more).data == After(s, es).data
  {
    InitialInv(s);
    RunInv(s, es);
    NoGapWhileHeld(After(s, es), more, c);
  }

  /** The lock object. Each method is one atomic operation on the word, called by client c. */
  class RwSpinLock {
    var bits: int
    ghost var modes: map<Client, Mode>
    ghost var data: int

    ghost function Abs(): State
      reads this
    {
      State(bits, modes, data)
    }

    ghost predicate Valid()
      reads this
    {
      Inv(Abs())
    }

    constructor (ghost clients: set<Client>)
      requires |clients| < CLIENT_LIMIT
      ensures Initial(Abs()) && Valid() && modes.Keys == clients
    {
      bits, modes, data := 0, map c | c in clients :: Idle, 0;
      new;
      assert modes.Keys == clients;
      InitialInv(Abs());
    }

    /** Records, for the proof only, what the atomic operation e did to its client. */
    ghost method Record(before: State, e: Event)
      requires Inv(before) && Enabled(before, e)
      requires bits == Step(before, e).bits
      modifies this`modes, this`data
      ensures Valid() && Abs() == Step(before, e)
    {
      modes, data := Step(before, e).modes, Step(before, e).data;
      StepInv(before, e);
    }

    method Try(ghost c: Client) returns (ok: bool)
      requires Valid() && Enabled(Abs(), TryLock(c))
      modifies this
      ensures Valid() && Abs() == Step(old(Abs()), TryLock(c))
      ensures ok <==> modes[c] == Writing
    {
      ok := bits == 0;
      if ok { bits := WRITER; }
      Record(old(Abs()), TryLock(c));
    }

    method Release(ghost c: Client)
      requires Valid() && Enabled(Abs(), Unlock(c))
      modifies this
      ensures Valid() && Abs() == Step(old(Abs()), Unlock(c))
    {
      bits := ClearWriterBits(bits);
      Record(old(Abs()), Unlock(c));
    }

    /** First half of try_lock_shared; on false the caller must run BackOut. */
    method AddReader(ghost c: Client) returns (ok: bool)
      requires Valid() && Enabled(Abs(), SharedAdd(c))
      modifies this
      ensures Valid() && Abs() == Step(old(Abs()), SharedAdd(c))
      ensures modes[c] == if ok then Reading else BackingOut
    {
      ok := !Taken(bits);
      bits := bits + READER;
      Record(old(Abs()), SharedAdd(c));
    }

    method BackOut(ghost c: Client)
      requires Valid() && Enabled(Abs(), SharedBackOut(c))
      modifies this
      ensures Valid() && Abs() == Step(old(Abs()), SharedBackOut(c))
    {
      bits := bits - READER;
      Record(old(Abs()), SharedBackOut(c));
    }

    method ReleaseShared(ghost c: Client)
      requires Valid() && Enabled(Abs(), UnlockShared(c))
      modifies this
      ensures Valid() && Abs() == Step(old(Abs()), UnlockShared(c))
    {
      bits := bits - READER;
      Record(old(Abs()), UnlockShared(c));
    }

    method TryUpgrade(ghost c: Client) returns (ok: bool)
      requires Valid() && Enabled(Abs(), TryLockUpgrade(c))
      modifies this
      ensures Valid() && Abs() == Step(old(Abs()), TryLockUpgrade(c))
      ensures ok <==> modes[c] == Upgraded
    {
      ok := !Taken(bits);
      bits := FetchOrUpgraded(bits);
      Record(old(Abs()), TryLockUpgrade(c));
    }

    method TryPromotion(ghost c: Client) returns (ok: bool)
      requires Valid() && Enabled(Abs(), TryPromote(c))
      modifies this
      ensures Valid() && Abs() == Step(old(Abs()), TryPromote(c))
      ensures ok <==> modes[c] == Writing
    {
      ok := bits == UPGRADED;
      if ok { bits := WRITER; }
      Record(old(Abs()), TryPromote(c));
    }

    method ReleaseUpgrade(ghost c: Client)
      requires Valid() && Enabled(Abs(), UnlockUpgrade(c))
      modifies this
      ensures Valid() && Abs() == Step(old(Abs()), UnlockUpgrade(c))
    {
      bits := bits - UPGRADED;
      Record(old(Abs()), UnlockUpgrade(c));
    }

    method UpgradeBecomesShared(ghost c: Client)
      requires Valid() && Enabled(Abs(), UpgradeToShared(c))
      modifies this
      ensures Valid() && Abs() == Step(old(Abs()), UpgradeToShared(c))
    {
      bits := bits + (READER - UPGRADED);
      Record(old(Abs()), UpgradeToShared(c));
    }

    /** First half of unlock_and_lock_shared. */
    method BeginShared(ghost c: Client)
      requires Valid() && Enabled(Abs(), DowngradeAdd(c))
      modifies this
      ensures Valid() && Abs() == Step(old(Abs()), DowngradeAdd(c))
    {
      bits := bits + READER;
      Record(old(Abs()), DowngradeAdd(c));
    }

    /** Second half of unlock_and_lock_shared: the same masking as a full unlock. */
    method FinishShared(ghost c: Client)
      requires Valid() && Enabled(Abs(), DowngradeClear(c))
      modifies this
      ensures Valid() && Abs() == Step(old(Abs()), DowngradeClear(c))
    {
      bits := ClearWriterBits(bits);
      Record(old(Abs()), DowngradeClear(c));
    }

    /** First half of unlock_and_lock_upgrade. */
    method BeginUpgrade(ghost c: Client)
      requires Valid() && Enabled(Abs(), DowngradeOr(c))
      modifies this
      ensures Valid() && Abs() == Step(old(Abs()), DowngradeOr(c))
    {
      bits := FetchOrUpgraded(bits);
      Record(old(Abs()), DowngradeOr(c));
    }

    /** Second half of unlock_and_lock_upgrade. */
    method FinishUpgrade(ghost c: Client)
      requires Valid() && Enabled(Abs(), DowngradeSub(c))
      modifies this
      ensures Valid() && Abs() == Step(old(Abs()), DowngradeSub(c))
    {
      bits := bits - WRITER;
      Record(old(Abs()), DowngradeSub(c));
    }
  }
}
