/** The linked-block byte queue between one producer thread and one consumer thread, with one recycled
    spare block. A step is what one thread does up to and including its next access to memory the other
    thread uses; between any two steps of one thread the other may take any number of its own. */
module BlockQueue {
  import opened Bytes

  const INT32_LIMIT := 0x8000_0000

  type Id = nat

  datatype Ptr = Null | Ref(id: Id)

  datatype Block = Block(next: Ptr, data: seq<byte>)

  /** Where push_back is. Of `values` the first `written` bytes are in the queue already. */
  datatype Producer =
    | PIdle
    | PCopy(values: seq<byte>, written: nat)
    | PFull(values: seq<byte>, written: nat)
    | PLook(values: seq<byte>, written: nat)
    | PTake(values: seq<byte>, written: nat)
    | PLink(values: seq<byte>, written: nat, block: Id)
    | PAdvance(values: seq<byte>, written: nat)
    | PPublish(values: seq<byte>, written: nat)

  /** Where pop_front is. `allow` bytes are to be read, `out` has been read. */
  datatype Consumer =
    | CIdle
    | CSize(count: int)
    | CCopy(allow: int, out: seq<byte>)
    | CNext(allow: int, out: seq<byte>)
    | CRecycle(allow: int, out: seq<byte>, spent: Id)
    | CFree(allow: int, out: seq<byte>, pre: Ptr)
    | CPublish(allow: int, out: seq<byte>)

  /** A linked block and the position in the stream of its first byte. */
  datatype Link = Link(id: Id, start: int)

  /** The queue's fields, the heap, and what has happened so far: `chain` is the linked blocks from front
      to end, `stream` every byte ever copied in, `popped` every byte ever handed out. `fault` records the
      use of a null or freed block, and freeing one twice. */
  datatype State = State(
    size: nat,
    blocks: map<Id, Block>, unused: nat, freed: set<Id>,
    front: Id, frontOff: nat, back: Id, end: Id, backOff: nat, spare: Ptr, total: int,
    prod: Producer, cons: Consumer, fault: bool,
    chain: seq<Link>, stream: seq<byte>, popped: seq<byte>)

  datatype Event = StartPush(values: seq<byte>) | Produce | StartPop(count: int) | Consume

  function Min(a: int, b: int): int { if a < b then a else b }

  function Initial(size: nat, junk: seq<byte>): State {
    State(size, map[0 := Block(Null, junk)], 1, {}, 0, 0, 0, 0, 0, Null, 0, PIdle, CIdle, false, [Link(0, 0)], [], [])
  }

  predicate Enabled(s: State, e: Event) {
    !s.fault &&
    match e
    case StartPush(values) => s.prod.PIdle? && |s.stream| - |s.popped| + |values| < INT32_LIMIT
    case Produce => !s.prod.PIdle?
    case StartPop(_) => s.cons.CIdle?
    case Consume => !s.cons.CIdle?
  }

  predicate Live(s: State, b: Id) { b in s.blocks && b !in s.freed }

  predicate LivePtr(s: State, p: Ptr) { p.Ref? && Live(s, p.id) }

  function SetNext(blocks: map<Id, Block>, b: Id, p: Ptr): map<Id, Block>
    requires b in blocks
  {
    blocks[b := blocks[b].(next := p)]
  }

  /** memcpy into a block. */
  function Copied(data: seq<byte>, at: nat, bs: seq<byte>): (r: seq<byte>)
    requires at + |bs| <= |data|
    ensures |r| == |data|
  {
    data[..at] + bs + data[at + |bs|..]
  }

  function Fault(s: State): State { s.(fault := true) }

  /** The loop test of push_back. */
  function LoopPush(values: seq<byte>, written: nat): Producer {
    if written < |values| then PCopy(values, written) else PPublish(values, written)
  }

  /** memcpy of what fits into the last block. */
  function CopyStep(s: State): State
    requires s.prod.PCopy?
  {
    var PCopy(values, written) := s.prod;
    var n := Min(s.size - s.backOff, |values| - written);
    if n <= 0 then s.(prod := if s.backOff == s.size then PFull(values, written) else LoopPush(values, written))
    else if !Live(s, s.back) || |s.blocks[s.back].data| < s.backOff + n then Fault(s)
    else
      var chunk := values[written..written + n];
      var b := s.blocks[s.back];
      s.(blocks := s.blocks[s.back := b.(data := Copied(b.data, s.backOff, chunk))],
         backOff := s.backOff + n, stream := s.stream + chunk,
         prod := if s.backOff + n == s.size then PFull(values, written + n) else LoopPush(values, written + n))
  }

  /** A push with a null source copies nothing: it is the push of the bytes that lie there already. */
  lemma PushInPlace(s: State)
    requires Inv(s) && s.prod.PCopy?
    requires var n := Min(s.size - s.backOff, |s.prod.values| - s.prod.written);
             s.prod.values[s.prod.written..s.prod.written + n] == s.blocks[s.back].data[s.backOff..s.backOff + n]
    ensures CopyStep(s).blocks == s.blocks
  {
    hide Holds, Owned, InOrder;
    var b := s.blocks[s.back];
    var n := Min(s.size - s.backOff, |s.prod.values| - s.prod.written);
    assert Copied(b.data, s.backOff, b.data[s.backOff..s.backOff + n]) == b.data;
  }

  /** The block is full: is there a next one already? */
  function FullStep(s: State): State
    requires s.prod.PFull?
  {
    if !Live(s, s.back) then Fault(s)
    else
      var next := s.blocks[s.back].next;
      if next.Ref? then s.(back := next.id, backOff := 0, prod := LoopPush(s.prod.values, s.prod.written))
      else s.(prod := PLook(s.prod.values, s.prod.written))
  }

  /** Is there a spare block? If not, allocate one. */
  function LookStep(s: State): State
    requires s.prod.PLook?
  {
    if s.spare.Ref? then s.(prod := PTake(s.prod.values, s.prod.written))
    else s.(blocks := s.blocks[s.unused := Block(Null, seq(s.size, i => 0))], unused := s.unused + 1,
            prod := PLink(s.prod.values, s.prod.written, s.unused))
  }

  /** Exchange the spare slot for null. */
  function TakeStep(s: State): State
    requires s.prod.PTake?
  {
    if s.spare.Null? then s.(prod := PFull(s.prod.values, s.prod.written))
    else if !LivePtr(s, s.spare) then Fault(s)
    else s.(spare := Null, blocks := SetNext(s.blocks, s.spare.id, Null),
            prod := PLink(s.prod.values, s.prod.written, s.spare.id))
  }

  /** Publish the new block as the successor of the last one. */
  function LinkStep(s: State): State
    requires s.prod.PLink?
  {
    if !Live(s, s.end) then Fault(s)
    else s.(blocks := SetNext(s.blocks, s.end, Ref(s.prod.block)), chain := s.chain + [Link(s.prod.block, |s.stream|)],
            prod := PAdvance(s.prod.values, s.prod.written))
  }

  function AdvanceStep(s: State): State
    requires s.prod.PAdvance?
  {
    if !Live(s, s.back) || s.blocks[s.back].next.Null? then Fault(s)
    else
      var next := s.blocks[s.back].next.id;
      s.(end := next, back := next, backOff := 0, prod := LoopPush(s.prod.values, s.prod.written))
  }

  function PublishStep(s: State): State
    requires s.prod.PPublish?
  {
    s.(total := s.total + s.prod.written, prod := PIdle)
  }

  function ProduceStep(s: State): State
    requires !s.prod.PIdle?
  {
    match s.prod
    case PCopy(_, _) => CopyStep(s)
    case PFull(_, _) => FullStep(s)
    case PLook(_, _) => LookStep(s)
    case PTake(_, _) => TakeStep(s)
    case PLink(_, _, _) => LinkStep(s)
    case PAdvance(_, _) => AdvanceStep(s)
    case PPublish(_, _) => PublishStep(s)
  }

  /** The loop test of pop_front. */
  function LoopPop(allow: int, out: seq<byte>): Consumer {
    if |out| < allow then CCopy(allow, out) else CPublish(allow, out)
  }

  /** The second reading of the counter decides how much to read. */
  function SizeStep(s: State): State
    requires s.cons.CSize?
  {
    var allow := Min(s.total, s.cons.count);
    s.(cons := if allow == 0 then CIdle else LoopPop(allow, []))
  }

  /** memcpy of what the front block still has. */
  function ReadStep(s: State): State
    requires s.cons.CCopy?
  {
    var CCopy(allow, out) := s.cons;
    var n := Min(s.size - s.frontOff, allow - |out|);
    if n <= 0 then s.(cons := if s.frontOff == s.size then CNext(allow, out) else LoopPop(allow, out))
    else if !Live(s, s.front) || |s.blocks[s.front].data| < s.frontOff + n then Fault(s)
    else
      var out' := out + s.blocks[s.front].data[s.frontOff..s.frontOff + n];
      s.(frontOff := s.frontOff + n,
         cons := if s.frontOff + n == s.size then CNext(allow, out') else LoopPop(allow, out'))
  }

  /** Move on to the next block. */
  function NextStep(s: State): State
    requires s.cons.CNext?
  {
    if !Live(s, s.front) || s.blocks[s.front].next.Null? || s.chain == [] then Fault(s)
    else s.(front := s.blocks[s.front].next.id, frontOff := 0, chain := s.chain[1..],
            cons := CRecycle(s.cons.allow, s.cons.out, s.front))
  }

  /** Exchange the block that was left into the spare slot. */
  function RecycleStep(s: State): State
    requires s.cons.CRecycle?
  {
    if !Live(s, s.cons.spent) then Fault(s)
    else s.(blocks := SetNext(s.blocks, s.cons.spent, Null), spare := Ref(s.cons.spent),
            cons := CFree(s.cons.allow, s.cons.out, s.spare))
  }

  /** Free what the slot held before. */
  function FreeStep(s: State): State
    requires s.cons.CFree?
  {
    var CFree(allow, out, pre) := s.cons;
    if pre.Null? then s.(cons := LoopPop(allow, out))
    else if !LivePtr(s, pre) then Fault(s)
    else s.(freed := s.freed + {pre.id}, cons := LoopPop(allow, out))
  }

  function ReturnStep(s: State): State
    requires s.cons.CPublish?
  {
    s.(total := s.total - s.cons.allow, popped := s.popped + s.cons.out, cons := CIdle)
  }

  function ConsumeStep(s: State): State
    requires !s.cons.CIdle?
  {
    match s.cons
    case CSize(_) => SizeStep(s)
    case CCopy(_, _) => ReadStep(s)
    case CNext(_, _) => NextStep(s)
    case CRecycle(_, _, _) => RecycleStep(s)
    case CFree(_, _, _) => FreeStep(s)
    case CPublish(_, _) => ReturnStep(s)
  }

  function Step(s: State, e: Event): State
    requires Enabled(s, e)
  {
    match e
    case StartPush(values) => if values == [] then s else s.(prod := LoopPush(values, 0))
    case Produce => ProduceStep(s)
    case StartPop(count) => if s.total <= 0 then s else s.(cons := CSize(count))
    case Consume => ConsumeStep(s)
  }

  // The invariant.

  function Written(s: State): nat { if s.prod.PIdle? then 0 else s.prod.written }

  function OutOf(c: Consumer): seq<byte> { if c.CIdle? || c.CSize? then [] else c.out }

  /** Bytes the consumer has taken out of the blocks, handed out or not. */
  function Taken(s: State): nat { |s.popped| + |OutOf(s.cons)| }

  /** Bytes whose push has been completed. */
  function Published(s: State): int { |s.stream| - Written(s) }

  function Last(s: State): Link
    requires s.chain != []
  {
    s.chain[|s.chain| - 1]
  }

  /** How many bytes of the last linked block are filled. */
  function LastFill(s: State): nat { if s.prod.PAdvance? then 0 else s.backOff }

  predicate Adjacent(size: nat, blocks: map<Id, Block>, a: Link, b: Link) {
    a.id in blocks && blocks[a.id].next == Ref(b.id) && b.start == a.start + size
  }

  /** The next pointers run along the chain, block after block of the stream. */
  ghost predicate Linked(size: nat, blocks: map<Id, Block>, chain: seq<Link>) {
    && size > 0 && chain != []
    && (forall i :: 0 <= i < |chain| ==> chain[i].id in blocks)
    && (forall i, j :: 0 <= i < j < |chain| && j == i + 1 ==> Adjacent(size, blocks, chain[i], chain[j]))
    && blocks[chain[|chain| - 1].id].next == Null
    && (forall b :: b in blocks ==> |blocks[b].data| == size)
  }

  predicate Ends(s: State)
    requires s.chain != []
  {
    var last := |s.chain| - 1;
    && s.front == s.chain[0].id
    && s.end == s.back
    && s.back == (if s.prod.PAdvance? && last > 0 then s.chain[last - 1].id else s.chain[last].id)
    && (s.prod.PAdvance? ==> last > 0)
  }

  predicate Filled(s: State)
    requires s.chain != []
  {
    && 0 <= s.chain[0].start
    && Taken(s) == s.chain[0].start + s.frontOff
    && |s.stream| == Last(s).start + LastFill(s)
  }

  /** A block whose first byte is at `start` agrees with the stream as far as that has come. */
  predicate BlockHolds(data: seq<byte>, start: int, stream: seq<byte>) {
    forall j :: 0 <= j < |data| && 0 <= start + j < |stream| ==> data[j] == stream[start + j]
  }

  /** What the blocks hold is the stream. */
  ghost predicate Holds(size: nat, blocks: map<Id, Block>, chain: seq<Link>, stream: seq<byte>)
    requires Linked(size, blocks, chain)
  {
    forall i :: 0 <= i < |chain| ==> BlockHolds(blocks[chain[i].id].data, chain[i].start, stream)
  }

  /** The counter covers completed pushes and completed pops only, and the linked blocks always extend
      past what it covers. */
  predicate Counted(s: State)
    requires s.chain != []
  {
    && 0 <= s.total == Published(s) - |s.popped|
    && Published(s) < Last(s).start + s.size
    && |s.stream| - |s.popped| + (if s.prod.PIdle? then 0 else |s.prod.values| - s.prod.written) < INT32_LIMIT
  }

  predicate ProducerOk(s: State) {
    match s.prod
    case PIdle => s.backOff < s.size
    case PCopy(values, written) => s.backOff < s.size && written < |values|
    case PFull(values, written) => s.backOff == s.size && 0 < written <= |values|
    case PLook(values, written) => s.backOff == s.size && 0 < written <= |values|
    case PTake(values, written) => s.backOff == s.size && 0 < written <= |values| && s.spare.Ref?
    case PLink(values, written, b) =>
      s.backOff == s.size && 0 < written <= |values| && b in s.blocks && s.blocks[b].next == Null
    case PAdvance(values, written) => s.backOff == s.size && 0 < written <= |values|
    case PPublish(values, written) => s.backOff < s.size && written == |values|
  }

  /** The consumer never promises itself more than the counter covers. */
  predicate ConsumerOk(s: State) {
    match s.cons
    case CIdle => s.frontOff < s.size
    case CSize(count) => s.frontOff < s.size && count >= 0
    case CCopy(allow, out) => s.frontOff < s.size && |out| < allow <= s.total
    case CNext(allow, out) => s.frontOff == s.size && |out| <= allow <= s.total
    case CRecycle(allow, out, b) => s.frontOff == 0 && |out| <= allow <= s.total
    case CFree(allow, out, _) => s.frontOff == 0 && |out| <= allow <= s.total
    case CPublish(allow, out) => s.frontOff < s.size && |out| == allow <= s.total
  }

  /** What has been taken out is the beginning of what has been put in. */
  predicate InOrder(popped: seq<byte>, out: seq<byte>, stream: seq<byte>) {
    popped + out <= stream
  }

  /** Blocks that one thread holds privately for a moment. */
  function ProducerHand(p: Producer): set<Id> { if p.PLink? then {p.block} else {} }

  function ConsumerHand(c: Consumer): set<Id> {
    if c.CRecycle? then {c.spent} else if c.CFree? && c.pre.Ref? then {c.pre.id} else {}
  }

  function SpareSet(p: Ptr): set<Id> { if p.Ref? then {p.id} else {} }

  function Ids(chain: seq<Link>): set<Id> {
    if chain == [] then {} else {chain[0].id} + Ids(chain[1..])
  }

  predicate Distinct(chain: seq<Link>) {
    chain == [] || (chain[0].id !in Ids(chain[1..]) && Distinct(chain[1..]))
  }

  predicate Disjoint(a: set<Id>, b: set<Id>, c: set<Id>, d: set<Id>, e: set<Id>) {
    a !! b && a !! c && a !! d && a !! e && b !! c && b !! d && b !! e && c !! d && c !! e && d !! e
  }

  /** Every block ever allocated is in exactly one place: linked, spare, in the producer's or the
      consumer's hand, or freed. */
  predicate Conserved(keys: set<Id>, unused: nat, linked: set<Id>, spare: set<Id>, prod: set<Id>, cons: set<Id>, freed: set<Id>) {
    && keys == linked + spare + prod + cons + freed
    && Disjoint(linked, spare, prod, cons, freed)
    && (forall b :: b in keys ==> b < unused)
  }

  predicate Owned(s: State) {
    && Distinct(s.chain)
    && Conserved(s.blocks.Keys, s.unused, Ids(s.chain), SpareSet(s.spare), ProducerHand(s.prod), ConsumerHand(s.cons), s.freed)
  }

  /** The parts that are about pointers, offsets and counters only. */
  predicate Positions(s: State)
    requires s.chain != []
  {
    Ends(s) && Filled(s) && Counted(s) && ProducerOk(s) && ConsumerOk(s)
  }

  ghost predicate Inv(s: State) {
    && !s.fault && s.size > 0 && s.chain != []
    && Linked(s.size, s.blocks, s.chain)
    && Holds(s.size, s.blocks, s.chain, s.stream)
    && Positions(s)
    && InOrder(s.popped, OutOf(s.cons), s.stream)
    && Owned(s)
  }

  lemma InitialInv(size: nat, junk: seq<byte>)
    requires size > 0 && |junk| == size
    ensures Inv(Initial(size, junk))
  {
    var s := Initial(size, junk);
    assert Ids(s.chain[1..]) == {};
    assert Ids(s.chain) == {0};
  }

  // Facts about the chain.

  lemma {:induction false} IdsHas(chain: seq<Link>, i: nat)
    requires i < |chain|
    ensures chain[i].id in Ids(chain)
    decreases |chain|
  {
    if i > 0 {
      IdsHas(chain[1..], i - 1);
    }
  }

  lemma {:induction false} IdsSnoc(chain: seq<Link>, l: Link)
    ensures Ids(chain + [l]) == Ids(chain) + {l.id}
    ensures Distinct(chain) && l.id !in Ids(chain) ==> Distinct(chain + [l])
    decreases |chain|
  {
    if chain == [] {
      assert chain + [l] == [l];
      assert Ids([l][1..]) == {};
    } else {
      assert (chain + [l])[1..] == chain[1..] + [l];
      IdsSnoc(chain[1..], l);
    }
  }

  lemma {:induction false} DistinctAt(chain: seq<Link>, i: nat, j: nat)
    requires Distinct(chain) && i < j < |chain|
    ensures chain[i].id != chain[j].id
    decreases |chain|
  {
    if i == 0 {
      IdsHas(chain[1..], j - 1);
    } else {
      DistinctAt(chain[1..], i - 1, j - 1);
    }
  }

  /** The linked blocks are live, and different from whatever is held elsewhere. */
  lemma ChainLive(s: State, i: nat)
    requires Owned(s) && i < |s.chain|
    ensures Live(s, s.chain[i].id)
    ensures s.chain[i].id !in SpareSet(s.spare) && s.chain[i].id !in ProducerHand(s.prod) && s.chain[i].id !in ConsumerHand(s.cons)
  {
    IdsHas(s.chain, i);
  }

  lemma LastLive(s: State)
    requires Owned(s) && s.chain != [] && Ends(s) && !s.prod.PAdvance?
    ensures Live(s, s.back) && s.back == Last(s).id
  {
    ChainLive(s, |s.chain| - 1);
  }

  /** Later blocks start later; the last one starts behind the end of every other. */
  lemma {:induction false} StartsGrow(size: nat, blocks: map<Id, Block>, chain: seq<Link>, i: nat)
    requires Linked(size, blocks, chain) && i < |chain|
    ensures i < |chain| - 1 ==> chain[i].start + size <= chain[|chain| - 1].start
    decreases |chain| - i
  {
    if i < |chain| - 1 {
      assert Adjacent(size, blocks, chain[i], chain[i + 1]);
      StartsGrow(size, blocks, chain, i + 1);
    }
  }

  // The producer's steps.

  lemma FullBlockKeeps(data: seq<byte>, start: int, stream: seq<byte>, chunk: seq<byte>)
    requires BlockHolds(data, start, stream) && start + |data| <= |stream|
    ensures BlockHolds(data, start, stream + chunk)
  {
  }

  lemma CopyIntoBlock(data: seq<byte>, start: int, stream: seq<byte>, off: nat, chunk: seq<byte>)
    requires BlockHolds(data, start, stream) && |stream| == start + off && off + |chunk| <= |data|
    ensures BlockHolds(Copied(data, off, chunk), start, stream + chunk)
  {
  }

  /** Copying a chunk behind the filled part of the last block extends what the blocks hold by it. */
  lemma CopyHolds(size: nat, blocks: map<Id, Block>, chain: seq<Link>, stream: seq<byte>, off: nat, chunk: seq<byte>)
    requires Linked(size, blocks, chain) && Holds(size, blocks, chain, stream) && Distinct(chain)
    requires |stream| == chain[|chain| - 1].start + off && off + |chunk| <= size
    ensures var b := chain[|chain| - 1].id;
            var blocks' := blocks[b := blocks[b].(data := Copied(blocks[b].data, off, chunk))];
            Linked(size, blocks', chain) && Holds(size, blocks', chain, stream + chunk)
  {
    hide BlockHolds, Distinct, Copied;
    var last := |chain| - 1;
    var b := chain[last].id;
    var blocks' := blocks[b := blocks[b].(data := Copied(blocks[b].data, off, chunk))];
    forall i | 0 <= i < |chain|
      ensures BlockHolds(blocks'[chain[i].id].data, chain[i].start, stream + chunk)
    {
      if i < last {
        StartsGrow(size, blocks, chain, i);
        DistinctAt(chain, i, last);
        FullBlockKeeps(blocks[chain[i].id].data, chain[i].start, stream, chunk);
      } else {
        CopyIntoBlock(blocks[b].data, chain[i].start, stream, off, chunk);
      }
    }
  }

  /** Changing blocks outside the chain disturbs nothing. */
  lemma OtherBlocks(size: nat, blocks: map<Id, Block>, blocks': map<Id, Block>, chain: seq<Link>, stream: seq<byte>)
    requires Linked(size, blocks, chain) && Holds(size, blocks, chain, stream)
    requires forall i :: 0 <= i < |chain| ==> chain[i].id in blocks' && blocks'[chain[i].id] == blocks[chain[i].id]
    requires forall b :: b in blocks' ==> |blocks'[b].data| == size
    ensures Linked(size, blocks', chain) && Holds(size, blocks', chain, stream)
  {
  }

  /** Neighbours stay neighbours when a block is linked behind a full last one. */
  lemma LinkAdjacent(size: nat, blocks: map<Id, Block>, chain: seq<Link>, start: int, b: Id, i: nat)
    requires Linked(size, blocks, chain) && Distinct(chain) && i < |chain|
    requires start == chain[|chain| - 1].start + size
    ensures var blocks' := SetNext(blocks, chain[|chain| - 1].id, Ref(b));
            Adjacent(size, blocks', chain[i], if i < |chain| - 1 then chain[i + 1] else Link(b, start))
  {
    hide Distinct, Ids;
    if i < |chain| - 1 {
      DistinctAt(chain, i, |chain| - 1);
      assert Adjacent(size, blocks, chain[i], chain[i + 1]);
    }
  }

  lemma LinkLinked(size: nat, blocks: map<Id, Block>, chain: seq<Link>, stream: seq<byte>, b: Id)
    requires Linked(size, blocks, chain) && Distinct(chain)
    requires |stream| == chain[|chain| - 1].start + size
    requires b in blocks && b !in Ids(chain) && blocks[b].next == Null
    ensures var blocks' := SetNext(blocks, chain[|chain| - 1].id, Ref(b));
            var chain' := chain + [Link(b, |stream|)];
            Linked(size, blocks', chain') && (forall i :: 0 <= i < |chain| ==> chain'[i] == chain[i])
  {
    hide Distinct, Ids, Adjacent;
    var last := |chain| - 1;
    var blocks' := SetNext(blocks, chain[last].id, Ref(b));
    var chain' := chain + [Link(b, |stream|)];
    IdsHas(chain, last);
    forall i, j | 0 <= i < j < |chain'| && j == i + 1
      ensures Adjacent(size, blocks', chain'[i], chain'[j])
    {
      LinkAdjacent(size, blocks, chain, |stream|, b, i);
    }
  }

  lemma LinkHolds(size: nat, blocks: map<Id, Block>, chain: seq<Link>, stream: seq<byte>, b: Id)
    requires Linked(size, blocks, chain) && Holds(size, blocks, chain, stream) && Distinct(chain)
    requires |stream| == chain[|chain| - 1].start + size
    requires b in blocks && b !in Ids(chain) && blocks[b].next == Null
    ensures var blocks' := SetNext(blocks, chain[|chain| - 1].id, Ref(b));
            var chain' := chain + [Link(b, |stream|)];
            Linked(size, blocks', chain') && Holds(size, blocks', chain', stream)
  {
    hide Distinct, Ids, Adjacent;
    LinkLinked(size, blocks, chain, stream, b);
  }

  lemma CopyBlocks(s: State)
    requires Inv(s) && s.prod.PCopy?
    ensures var s' := CopyStep(s);
            && !s'.fault && s'.blocks.Keys == s.blocks.Keys
            && Linked(s'.size, s'.blocks, s'.chain)
            && Holds(s'.size, s'.blocks, s'.chain, s'.stream)
  {
    hide Counted, ConsumerOk, InOrder, Conserved, Ids;
    LastLive(s);
    var n := Min(s.size - s.backOff, |s.prod.values| - s.prod.written);
    CopyHolds(s.size, s.blocks, s.chain, s.stream, s.backOff, s.prod.values[s.prod.written..s.prod.written + n]);
  }

  lemma CopyInv(s: State)
    requires Inv(s) && s.prod.PCopy?
    ensures Inv(CopyStep(s))
  {
    hide Linked, Holds, Conserved, Distinct, Ids, Live, Copied;
    CopyBlocks(s);
  }

  lemma FullNext(s: State)
    requires Inv(s) && s.prod.PFull?
    ensures FullStep(s) == s.(prod := PLook(s.prod.values, s.prod.written))
  {
    hide Counted, Filled, Holds, ConsumerOk, InOrder, Conserved, Ids;
    LastLive(s);
  }

  lemma FullInv(s: State)
    requires Inv(s) && s.prod.PFull?
    ensures Inv(FullStep(s))
  {
    hide Linked, Holds, Conserved, Distinct, Ids, FullStep;
    FullNext(s);
  }

  lemma LookBlocks(s: State)
    requires Inv(s) && s.prod.PLook?
    ensures var s' := LookStep(s);
            && Linked(s'.size, s'.blocks, s'.chain) && Holds(s'.size, s'.blocks, s'.chain, s'.stream)
            && Owned(s')
            && (s.spare.Null? ==> s.unused in s'.blocks && s'.blocks[s.unused].next == Null)
  {
    hide Counted, ConsumerOk, InOrder, Ends, Filled;
    if s.spare.Null? {
      assert s.unused !in s.blocks.Keys;
      OtherBlocks(s.size, s.blocks, LookStep(s).blocks, s.chain, s.stream);
      assert LookStep(s).blocks.Keys == s.blocks.Keys + {s.unused};
    }
  }

  lemma LookInv(s: State)
    requires Inv(s) && s.prod.PLook?
    ensures Inv(LookStep(s))
  {
    hide Linked, Holds, Owned;
    LookBlocks(s);
  }

  lemma TakeBlocks(s: State)
    requires Inv(s) && s.prod.PTake?
    ensures var s' := TakeStep(s);
            && LivePtr(s, s.spare)
            && Linked(s'.size, s'.blocks, s'.chain) && Holds(s'.size, s'.blocks, s'.chain, s'.stream)
            && Owned(s')
            && s'.blocks[s.spare.id].next == Null
  {
    hide Counted, ConsumerOk, InOrder, Ends, Filled;
    assert s.spare.id in s.blocks.Keys;
    forall i | 0 <= i < |s.chain|
      ensures s.chain[i].id != s.spare.id
    {
      ChainLive(s, i);
    }
    OtherBlocks(s.size, s.blocks, TakeStep(s).blocks, s.chain, s.stream);
    assert TakeStep(s).blocks.Keys == s.blocks.Keys;
  }

  lemma TakeInv(s: State)
    requires Inv(s) && s.prod.PTake?
    ensures Inv(TakeStep(s))
  {
    hide Linked, Holds, Owned;
    TakeBlocks(s);
  }

  lemma LinkBlocks(s: State)
    requires Inv(s) && s.prod.PLink?
    ensures var s' := LinkStep(s);
            && Live(s, s.end)
            && Linked(s'.size, s'.blocks, s'.chain) && Holds(s'.size, s'.blocks, s'.chain, s'.stream)
            && Owned(s')
  {
    hide Linked, Holds, Counted, ConsumerOk, InOrder;
    LastLive(s);
    assert s.prod.block in ProducerHand(s.prod);
    LinkHolds(s.size, s.blocks, s.chain, s.stream, s.prod.block);
    IdsSnoc(s.chain, Link(s.prod.block, |s.stream|));
    assert LinkStep(s).blocks.Keys == s.blocks.Keys;
  }

  lemma LinkInv(s: State)
    requires Inv(s) && s.prod.PLink?
    ensures Inv(LinkStep(s))
  {
    hide Linked, Holds, Owned, Live, SetNext;
    LinkBlocks(s);
  }

  lemma AdvanceNext(s: State)
    requires Inv(s) && s.prod.PAdvance?
    ensures Live(s, s.back) && s.blocks[s.back].next == Ref(Last(s).id)
  {
    hide Counted, Filled, Holds, ConsumerOk, InOrder, Conserved, Ids;
    ChainLive(s, |s.chain| - 2);
  }

  lemma AdvanceInv(s: State)
    requires Inv(s) && s.prod.PAdvance?
    ensures Inv(AdvanceStep(s))
  {
    hide Linked, Holds, Conserved, Distinct, Ids, Live;
    AdvanceNext(s);
  }

  lemma PublishInv(s: State)
    requires Inv(s) && s.prod.PPublish?
    ensures Inv(PublishStep(s))
  {
    hide Linked, Holds, Conserved, Distinct, Ids;
  }

  lemma ProduceInv(s: State)
    requires Inv(s) && !s.prod.PIdle?
    ensures Inv(ProduceStep(s))
  {
    hide Inv;
    match s.prod
    case PCopy(_, _) => CopyInv(s);
    case PFull(_, _) => FullInv(s);
    case PLook(_, _) => LookInv(s);
    case PTake(_, _) => TakeInv(s);
    case PLink(_, _, _) => LinkInv(s);
    case PAdvance(_, _) => AdvanceInv(s);
    case PPublish(_, _) => PublishInv(s);
  }

  // The consumer's steps.

  lemma SizeInv(s: State)
    requires Inv(s) && s.cons.CSize?
    ensures Inv(SizeStep(s))
  {
    hide Linked, Holds, Conserved, Distinct, Ids;
  }

  /** What the consumer copies is the next stretch of the stream. */
  lemma ReadChunk(s: State)
    requires Inv(s) && s.cons.CCopy?
    ensures var n := Min(s.size - s.frontOff, s.cons.allow - |s.cons.out|);
            && n > 0 && Taken(s) + n <= |s.stream|
            && Live(s, s.front) && s.frontOff + n <= |s.blocks[s.front].data|
            && s.blocks[s.front].data[s.frontOff..s.frontOff + n] == s.stream[Taken(s)..Taken(s) + n]
  {
    hide Conserved, Distinct, Ids, Adjacent;
    ChainLive(s, 0);
    var n := Min(s.size - s.frontOff, s.cons.allow - |s.cons.out|);
    var data := s.blocks[s.front].data;
    assert BlockHolds(data, s.chain[0].start, s.stream);
    SliceHolds(data, s.chain[0].start, s.stream, s.frontOff, n);
  }

  lemma SliceHolds(data: seq<byte>, start: int, stream: seq<byte>, off: nat, n: nat)
    requires BlockHolds(data, start, stream) && off + n <= |data| && 0 <= start && start + off + n <= |stream|
    ensures data[off..off + n] == stream[start + off..start + off + n]
  {
    assert forall j :: off <= j < off + n ==> data[j] == stream[start + j];
  }

  lemma ExtendPrefix(a: seq<byte>, b: seq<byte>, stream: seq<byte>, n: nat)
    requires a + b <= stream && |a| + |b| + n <= |stream|
    ensures a + (b + stream[|a| + |b|..|a| + |b| + n]) <= stream
  {
    var c := stream[|a| + |b|..|a| + |b| + n];
    assert stream[..|a| + |b|] == a + b;
    assert stream[..|a| + |b| + n] == stream[..|a| + |b|] + c;
    assert a + (b + c) == (a + b) + c;
  }

  lemma ReadInv(s: State)
    requires Inv(s) && s.cons.CCopy?
    ensures Inv(ReadStep(s))
  {
    hide Linked, Holds, Conserved, Distinct, Ids, Live, InOrder;
    ReadChunk(s);
    var n := Min(s.size - s.frontOff, s.cons.allow - |s.cons.out|);
    ReadInOrder(s.popped, s.cons.out, s.stream, n);
  }

  lemma ReadInOrder(popped: seq<byte>, out: seq<byte>, stream: seq<byte>, n: nat)
    requires InOrder(popped, out, stream) && |popped| + |out| + n <= |stream|
    ensures InOrder(popped, out + stream[|popped| + |out|..|popped| + |out| + n], stream)
  {
    ExtendPrefix(popped, out, stream, n);
  }

  lemma DropFirst(size: nat, blocks: map<Id, Block>, chain: seq<Link>, stream: seq<byte>)
    requires Linked(size, blocks, chain) && Holds(size, blocks, chain, stream) && |chain| >= 2
    ensures Linked(size, blocks, chain[1..]) && Holds(size, blocks, chain[1..], stream)
    ensures blocks[chain[0].id].next == Ref(chain[1].id) && chain[1].start == chain[0].start + size
  {
    hide BlockHolds;
    assert Adjacent(size, blocks, chain[0], chain[1]);
    var tail := chain[1..];
    forall i, j | 0 <= i < j < |tail| && j == i + 1
      ensures Adjacent(size, blocks, tail[i], tail[j])
    {
      assert Adjacent(size, blocks, chain[i + 1], chain[j + 1]);
    }
  }

  /** A consumer that has emptied the front block always finds a next one, because the counter never
      covers bytes up to the very end of the last block. */
  lemma NextExists(s: State)
    requires Inv(s) && s.cons.CNext?
    ensures |s.chain| >= (if s.prod.PAdvance? then 3 else 2)
  {
    hide Holds, Conserved, Distinct, Ids, InOrder, Linked;
    if |s.chain| == 2 {
      TwoBlocks(s);
    }
  }

  lemma TwoBlocks(s: State)
    requires Inv(s) && |s.chain| == 2
    ensures Last(s).start == s.chain[0].start + s.size
  {
    hide Holds, Conserved, Distinct, Ids, InOrder, Positions;
    assert Adjacent(s.size, s.blocks, s.chain[0], s.chain[1]);
  }

  lemma NextBlocks(s: State)
    requires Inv(s) && s.cons.CNext?
    ensures |s.chain| >= (if s.prod.PAdvance? then 3 else 2)
    ensures Live(s, s.front) && s.blocks[s.front].next == Ref(s.chain[1].id)
    ensures s.chain[1].start == s.chain[0].start + s.size
    ensures var s' := NextStep(s);
            && Linked(s'.size, s'.blocks, s'.chain) && Holds(s'.size, s'.blocks, s'.chain, s'.stream)
            && Owned(s')
  {
    hide Linked, Holds, Filled, Counted, ProducerOk, InOrder;
    NextExists(s);
    ChainLive(s, 0);
    DropFirst(s.size, s.blocks, s.chain, s.stream);
    assert Ids(s.chain) == {s.front} + Ids(s.chain[1..]);
  }

  lemma NextInv(s: State)
    requires Inv(s) && s.cons.CNext?
    ensures Inv(NextStep(s))
  {
    hide Linked, Holds, Owned, Live, InOrder;
    NextBlocks(s);
  }

  lemma RecycleBlocks(s: State)
    requires Inv(s) && s.cons.CRecycle?
    ensures Live(s, s.cons.spent)
    ensures var s' := RecycleStep(s);
            && Linked(s'.size, s'.blocks, s'.chain) && Holds(s'.size, s'.blocks, s'.chain, s'.stream)
            && Owned(s')
            && (s.prod.PLink? && s.prod.block in s.blocks ==> s'.blocks[s.prod.block] == s.blocks[s.prod.block])
            && s'.blocks.Keys == s.blocks.Keys
  {
    hide Counted, InOrder, Ends, Filled;
    assert s.cons.spent in ConsumerHand(s.cons);
    assert s.cons.spent in s.blocks.Keys;
    forall i | 0 <= i < |s.chain|
      ensures s.chain[i].id != s.cons.spent
    {
      ChainLive(s, i);
    }
    OtherBlocks(s.size, s.blocks, RecycleStep(s).blocks, s.chain, s.stream);
    assert RecycleStep(s).blocks.Keys == s.blocks.Keys;
  }

  lemma RecycleInv(s: State)
    requires Inv(s) && s.cons.CRecycle?
    ensures Inv(RecycleStep(s))
  {
    hide Linked, Holds, Owned, Live, InOrder;
    RecycleBlocks(s);
  }

  lemma FreeInv(s: State)
    requires Inv(s) && s.cons.CFree?
    ensures Inv(FreeStep(s))
  {
    hide Linked, Holds, InOrder, Distinct, Ids;
    if s.cons.pre.Ref? {
      assert s.cons.pre.id in ConsumerHand(s.cons);
      assert s.cons.pre.id in s.blocks.Keys;
    }
  }

  lemma ReturnInv(s: State)
    requires Inv(s) && s.cons.CPublish?
    ensures Inv(ReturnStep(s))
  {
    hide Linked, Holds, Conserved, Distinct, Ids;
    assert (s.popped + s.cons.out) + [] == s.popped + s.cons.out;
  }

  lemma ConsumeInv(s: State)
    requires Inv(s) && !s.cons.CIdle?
    ensures Inv(ConsumeStep(s))
  {
    hide Inv;
    match s.cons
    case CSize(_) => SizeInv(s);
    case CCopy(_, _) => ReadInv(s);
    case CNext(_, _) => NextInv(s);
    case CRecycle(_, _, _) => RecycleInv(s);
    case CFree(_, _, _) => FreeInv(s);
    case CPublish(_, _) => ReturnInv(s);
  }

  // Every run.

  /** The caller of pop_front asks for a number of bytes that is not negative. */
  predicate Sane(e: Event) { e.StartPop? ==> e.count >= 0 }

  lemma StepInv(s: State, e: Event)
    requires Inv(s) && Enabled(s, e) && Sane(e)
    ensures Inv(Step(s, e))
  {
    match e
    case StartPush(_) => StartInv(s, e);
    case Produce => ProduceInv(s);
    case StartPop(_) => StartInv(s, e);
    case Consume => ConsumeInv(s);
  }

  lemma StartInv(s: State, e: Event)
    requires Inv(s) && Enabled(s, e) && Sane(e) && (e.StartPush? || e.StartPop?)
    ensures Inv(Step(s, e))
  {
    hide Linked, Holds, Conserved, Distinct, Ids;
  }

  predicate Feasible(s: State, es: seq<Event>)
    decreases |es|
  {
    es == [] || (Enabled(s, es[0]) && Feasible(Step(s, es[0]), es[1..]))
  }

  function After(s: State, es: seq<Event>): State
    requires Feasible(s, es)
    decreases |es|
  {
    if es == [] then s else After(Step(s, es[0]), es[1..])
  }

  lemma {:induction false} RunInv(s: State, es: seq<Event>)
    requires Inv(s) && Feasible(s, es) && forall i :: 0 <= i < |es| ==> Sane(es[i])
    ensures Inv(After(s, es))
    decreases |es|
  {
    hide Inv, Enabled, Step;
    if es != [] {
      StepInv(s, es[0]);
      RunInv(Step(s, es[0]), es[1..]);
    }
  }

  /** All bytes the run's pushes were called with, in order. */
  function Pushed(es: seq<Event>): seq<byte> {
    if es == [] then []
    else (if es[0].StartPush? then es[0].values else []) + Pushed(es[1..])
  }

  /** What has been copied in and what the running push still has to copy: only the start of a push adds
      to it, and adds exactly its values. */
  lemma StepCopies(s: State, e: Event)
    requires Inv(s) && Enabled(s, e)
    ensures var s' := Step(s, e);
            s'.stream + Rest(s'.prod) == s.stream + Rest(s.prod) + (if e.StartPush? then e.values else [])
  {
    hide Inv;
    match e
    case StartPush(values) => assert values != [] ==> Rest(LoopPush(values, 0)) == values;
    case Produce => ProduceKeeps(s);
    case StartPop(_) =>
    case Consume => ConsumeKeeps(s);
  }

  lemma {:induction false} RunCopies(s: State, es: seq<Event>)
    requires Inv(s) && Feasible(s, es) && forall i :: 0 <= i < |es| ==> Sane(es[i])
    ensures var t := After(s, es); t.stream + Rest(t.prod) == s.stream + Rest(s.prod) + Pushed(es)
    decreases |es|
  {
    hide Inv, Enabled, Step, Rest;
    if es != [] {
      StepInv(s, es[0]);
      StepCopies(s, es[0]);
      RunCopies(Step(s, es[0]), es[1..]);
    }
  }

  /** Whatever the interleaving: what has been popped is a prefix of what the pushes were given, no null or
      freed block is ever used, and the counter stays a 32-bit number. Once both threads are idle the
      counter is the number of bytes pushed and not popped. */
  lemma RunsRefineSequence(size: nat, junk: seq<byte>, es: seq<Event>)
    requires size > 0 && |junk| == size
    requires Feasible(Initial(size, junk), es) && forall i :: 0 <= i < |es| ==> Sane(es[i])
    ensures var t := After(Initial(size, junk), es);
            && !t.fault
            && t.popped <= Pushed(es)
            && 0 <= t.total < INT32_LIMIT
            && (t.prod.PIdle? && t.cons.CIdle? ==> t.total == |Pushed(es)| - |t.popped|)
  {
    hide Inv, Step, Enabled;
    var s := Initial(size, junk);
    InitialInv(size, junk);
    RunInv(s, es);
    RunFacts(After(s, es));
    RunCopies(s, es);
    assert s.stream + Rest(s.prod) + Pushed(es) == Pushed(es);
  }

  lemma RunFacts(t: State)
    requires Inv(t)
    ensures !t.fault && t.popped <= t.stream && 0 <= t.total < INT32_LIMIT
    ensures t.prod.PIdle? && t.cons.CIdle? ==> t.total == |t.stream| - |t.popped|
  {
    hide Linked, Holds, Conserved, Distinct, Ids;
    assert t.popped <= t.popped + OutOf(t.cons);
  }

  // Both loops end.

  function ProducerWork(p: Producer): int {
    match p
    case PIdle => 0
    case PPublish(v, w) => 8 * (|v| - w) + 1
    case PCopy(v, w) => 8 * (|v| - w) + 2
    case PAdvance(v, w) => 8 * (|v| - w) + 3
    case PLink(v, w, _) => 8 * (|v| - w) + 4
    case PTake(v, w) => 8 * (|v| - w) + 5
    case PLook(v, w) => 8 * (|v| - w) + 6
    case PFull(v, w) => 8 * (|v| - w) + 7
  }

  function ConsumerWork(c: Consumer): int {
    match c
    case CIdle => 0
    case CSize(count) => 8 * count + 9
    case CPublish(a, out) => 8 * (a - |out|) + 1
    case CCopy(a, out) => 8 * (a - |out|) + 2
    case CFree(a, out, _) => 8 * (a - |out|) + 3
    case CRecycle(a, out, _) => 8 * (a - |out|) + 4
    case CNext(a, out) => 8 * (a - |out|) + 5
  }

  /** Each step of a thread uses up some of its own work, which the other thread cannot add to. */
  lemma LoopsTerminate(s: State, e: Event)
    requires Inv(s) && Enabled(s, e) && Sane(e)
    ensures ProducerWork(s.prod) >= 0 && ConsumerWork(s.cons) >= 0
    ensures e.Produce? ==> ProducerWork(Step(s, e).prod) < ProducerWork(s.prod) && Step(s, e).cons == s.cons
    ensures e.Consume? ==> ConsumerWork(Step(s, e).cons) < ConsumerWork(s.cons) && Step(s, e).prod == s.prod
    ensures e.StartPush? ==> Step(s, e).cons == s.cons
    ensures e.StartPop? ==> Step(s, e).prod == s.prod
  {
    hide Linked, Holds, Owned, InOrder;
    if e.Produce? {
      ProduceProgress(s);
    } else if e.Consume? {
      ConsumeProgress(s);
    }
  }

  lemma ProduceProgress(s: State)
    requires Inv(s) && !s.prod.PIdle?
    ensures ProducerWork(ProduceStep(s).prod) < ProducerWork(s.prod)
  {
    hide Linked, Holds, Owned, InOrder, Counted, ConsumerOk;
    match s.prod
    case PCopy(_, _) => CopyBlocks(s);
    case PFull(_, _) => FullNext(s);
    case PLook(_, _) =>
    case PTake(_, _) => TakeBlocks(s);
    case PLink(_, _, _) => LinkBlocks(s);
    case PAdvance(_, _) => AdvanceNext(s);
    case PPublish(_, _) =>
  }

  lemma ConsumeProgress(s: State)
    requires Inv(s) && !s.cons.CIdle?
    ensures ConsumerWork(ConsumeStep(s).cons) < ConsumerWork(s.cons)
  {
    hide Linked, Holds, Owned, InOrder, ProducerOk;
    match s.cons
    case CSize(_) =>
    case CCopy(_, _) => ReadChunk(s);
    case CNext(_, _) => NextBlocks(s);
    case CRecycle(_, _, _) => RecycleBlocks(s);
    case CFree(_, _, _) => FreeInv(s);
    case CPublish(_, _) =>
  }

  // How many blocks there are.

  lemma {:induction false} LastStart(size: nat, blocks: map<Id, Block>, chain: seq<Link>, i: nat)
    requires Linked(size, blocks, chain) && i < |chain|
    ensures chain[|chain| - 1].start == chain[i].start + (|chain| - 1 - i) * size
    decreases |chain| - i
  {
    if i < |chain| - 1 {
      assert Adjacent(size, blocks, chain[i], chain[i + 1]);
      LastStart(size, blocks, chain, i + 1);
      assert (|chain| - 1 - i) * size == (|chain| - 2 - i) * size + size;
    }
  }

  /** Between calls the queue links exactly as many blocks as its unread bytes and the read part of the
      front block need, and one more byte always fits. */
  lemma ChainLength(s: State)
    requires Inv(s) && s.prod.PIdle? && s.cons.CIdle?
    ensures |s.chain| == (s.frontOff + s.total) / s.size + 1
    ensures s.backOff < s.size
  {
    hide Holds, Owned, InOrder;
    LastStart(s.size, s.blocks, s.chain, 0);
    QuotientOf(|s.chain| - 1, s.size, s.backOff);
  }

  lemma {:induction false} IdsSize(chain: seq<Link>)
    requires Distinct(chain)
    ensures |Ids(chain)| == |chain|
  {
    if chain != [] {
      IdsSize(chain[1..]);
    }
  }

  /** At every moment of every run the allocated blocks that are not freed are the linked ones and at most three
      more; between calls, the linked ones and at most the spare one. */
  lemma Footprint(s: State)
    requires Inv(s)
    ensures |s.blocks.Keys - s.freed| <= |s.chain| + 3
    ensures s.prod.PIdle? && s.cons.CIdle? ==> |s.blocks.Keys - s.freed| == |s.chain| + if s.spare.Ref? then 1 else 0
  {
    hide Holds, Linked, Positions, InOrder, Conserved, Ids, SpareSet, ProducerHand, ConsumerHand;
    IdsSize(s.chain);
    OwnedSize(s.blocks.Keys, s.unused, Ids(s.chain), SpareSet(s.spare), ProducerHand(s.prod), ConsumerHand(s.cons), s.freed);
    HandSizes(s);
  }

  lemma OwnedSize(keys: set<Id>, unused: nat, linked: set<Id>, spare: set<Id>, prod: set<Id>, cons: set<Id>, freed: set<Id>)
    requires Conserved(keys, unused, linked, spare, prod, cons, freed)
    ensures |keys - freed| == |linked| + |spare| + |prod| + |cons|
  {
    assert keys - freed == linked + (spare + (prod + cons));
    assert |prod + cons| == |prod| + |cons|;
    assert |spare + (prod + cons)| == |spare| + |prod + cons|;
  }

  lemma HandSizes(s: State)
    ensures |SpareSet(s.spare)| == if s.spare.Ref? then 1 else 0
    ensures |ProducerHand(s.prod)| <= 1 && (s.prod.PIdle? ==> ProducerHand(s.prod) == {})
    ensures |ConsumerHand(s.cons)| <= 1 && (s.cons.CIdle? ==> ConsumerHand(s.cons) == {})
  {
  }

  /** A block is allocated only while there is no spare one. The spare block leaves its slot only into the hand of
      the thread that took it out, and what enters the slot comes from the consumer's hand, unlinked. */
  lemma SpareFirst(s: State, e: Event)
    requires Inv(s) && Enabled(s, e)
    ensures var t := Step(s, e);
            && (t.unused == s.unused || (t.unused == s.unused + 1 && s.spare.Null?))
            && (t.spare == s.spare
                || (t.spare.Null? && ProducerHand(t.prod) == SpareSet(s.spare))
                || (SpareSet(t.spare) == ConsumerHand(s.cons) && ConsumerHand(t.cons) == SpareSet(s.spare)
                    && t.blocks[t.spare.id].next == Null))
  {
    hide Holds, Linked, Positions, InOrder, Owned;
  }

  /** The destructor: walk the next pointers freeing each block, then free the spare one. Every block
      ever allocated has then been freed, and none twice. */
  method Destroy(s: State) returns (freed: set<Id>)
    requires Inv(s) && s.prod.PIdle? && s.cons.CIdle?
    ensures freed == s.blocks.Keys
  {
    freed := s.freed;
    var p := Ref(s.front);
    ghost var k := 0;
    while p.Ref?
      invariant 0 <= k <= |s.chain|
      invariant p == if k < |s.chain| then Ref(s.chain[k].id) else Null
      invariant freed + Ids(s.chain[k..]) == s.freed + Ids(s.chain)
      invariant freed !! Ids(s.chain[k..]) && Distinct(s.chain[k..])
      decreases |s.chain| - k
    {
      hide Holds, Positions, InOrder;
      var copy := p.id;
      WalkNext(s, k);
      assert copy !in freed;
      p := s.blocks[copy].next;
      freed := freed + {copy};
      k := k + 1;
    }
    assert Ids(s.chain[k..]) == {};
    if s.spare.Ref? {
      assert s.spare.id !in freed;
      freed := freed + {s.spare.id};
    }
  }

  lemma WalkNext(s: State, k: nat)
    requires Inv(s) && k < |s.chain|
    ensures Ids(s.chain[k..]) == {s.chain[k].id} + Ids(s.chain[k + 1..])
    ensures Distinct(s.chain[k..]) ==> s.chain[k].id !in Ids(s.chain[k + 1..]) && Distinct(s.chain[k + 1..])
    ensures s.chain[k].id in s.blocks
    ensures s.blocks[s.chain[k].id].next == if k + 1 < |s.chain| then Ref(s.chain[k + 1].id) else Null
  {
    hide Holds, Positions, InOrder, Conserved;
    assert s.chain[k..][1..] == s.chain[k + 1..];
    if k + 1 < |s.chain| {
      assert Adjacent(s.size, s.blocks, s.chain[k], s.chain[k + 1]);
    }
  }

  // A negative count.

  /** Asking for a negative number of bytes is not refused: the counter goes up by it, and covers bytes
      that were never pushed. */
  lemma NegativePopInflates(s: State, c: int)
    requires Inv(s) && s.cons.CIdle? && s.prod.PIdle? && s.total > 0 && c < 0
    ensures var asked := Step(s, StartPop(c));
            var t := Step(Step(asked, Consume), Consume);
            t.cons.CIdle? && t.popped == s.popped && t.total == s.total - c > |t.stream| - |t.popped|
  {
    hide Linked, Holds, Owned, InOrder;
    assert Step(Step(s, StartPop(c)), Consume).cons == CPublish(c, []);
  }

  /** So among the calls of pop_front on a queue with bytes in it, exactly those with a count that is not
      negative keep the invariant. */
  lemma PopSoundIff(s: State, c: int)
    requires Inv(s) && s.cons.CIdle? && s.total > 0
    ensures var t := Step(Step(s, StartPop(c)), Consume); Inv(t) <==> c >= 0
  {
    if c >= 0 {
      StepInv(s, StartPop(c));
      StepInv(Step(s, StartPop(c)), Consume);
    } else {
      hide Linked, Holds, Owned, InOrder;
      assert Step(Step(s, StartPop(c)), Consume).cons == CPublish(c, []);
    }
  }

  /** On an empty queue every count does nothing. */
  lemma EmptyPop(s: State, c: int)
    requires Inv(s) && s.cons.CIdle? && s.total == 0
    ensures Step(s, StartPop(c)) == s
  {
    hide Inv;
  }

  // The queue as one thread at a time sees it.

  /** What a push still has to copy. */
  function Rest(p: Producer): seq<byte> {
    if p.PIdle? || |p.values| < p.written then [] else p.values[p.written..]
  }

  lemma ProduceKeeps(s: State)
    requires Inv(s) && !s.prod.PIdle?
    ensures var s' := ProduceStep(s);
            && s'.cons == s.cons && s'.popped == s.popped && s'.size == s.size
            && s'.stream + Rest(s'.prod) == s.stream + Rest(s.prod)
  {
    hide Linked, Holds, Owned, InOrder, Counted, ConsumerOk;
    match s.prod
    case PCopy(values, written) =>
      CopyBlocks(s);
      var n := Min(s.size - s.backOff, |values| - written);
      assert s.stream + values[written..written + n] + values[written + n..] == s.stream + values[written..];
    case PFull(_, _) => FullNext(s);
    case PLook(_, _) =>
    case PTake(_, _) => TakeBlocks(s);
    case PLink(_, _, _) => LinkBlocks(s);
    case PAdvance(_, _) => AdvanceNext(s);
    case PPublish(_, _) =>
  }

  /** How much the running pop will have handed out when it returns, counted from the beginning. */
  function Goal(s: State): int {
    match s.cons
    case CIdle => |s.popped|
    case CSize(count) => |s.popped| + Min(s.total, count)
    case _ => |s.popped| + s.cons.allow
  }

  lemma ConsumeKeeps(s: State)
    requires Inv(s) && !s.cons.CIdle?
    ensures var s' := ConsumeStep(s);
            s'.prod == s.prod && s'.stream == s.stream && s'.size == s.size && Goal(s') == Goal(s)
  {
    hide Linked, Holds, Owned, InOrder, ProducerOk;
    match s.cons
    case CSize(_) =>
    case CCopy(_, _) => ReadChunk(s);
    case CNext(_, _) => NextBlocks(s);
    case CRecycle(_, _, _) => RecycleBlocks(s);
    case CFree(_, _, _) => FreeInv(s);
    case CPublish(_, _) =>
  }

  class Queue {
    var s: State

    ghost predicate Valid()
      reads this
    {
      Inv(s) && s.prod.PIdle? && s.cons.CIdle?
    }

    /** The bytes in the queue. */
    ghost function Contents(): seq<byte>
      reads this
      requires Valid()
    {
      Unread(s)
    }

    constructor (size: nat, junk: seq<byte>)
      requires size > 0 && |junk| == size
      ensures Valid() && Contents() == []
    {
      s := Initial(size, junk);
      InitialInv(size, junk);
    }

    method PushBack(values: seq<byte>) returns (count: nat)
      requires Valid() && |Contents()| + |values| < INT32_LIMIT
      modifies this
      ensures Valid() && Contents() == old(Contents()) + values && count == |values|
    {
      hide Inv;
      RunFactsOf(s);
      ghost var before := s;
      StepInv(s, StartPush(values));
      s := Step(s, StartPush(values));
      assert s.stream + Rest(s.prod) == before.stream + values;
      while !s.prod.PIdle?
        invariant Inv(s) && s.cons.CIdle? && s.popped == before.popped
        invariant s.stream + Rest(s.prod) == before.stream + values
        decreases ProducerWork(s.prod)
      {
        NoFault(s);
        LoopsTerminate(s, Produce);
        ProduceInv(s);
        ProduceKeeps(s);
        s := ProduceStep(s);
      }
      assert s.stream == before.stream + values;
      assert Unread(s) == Unread(before) + values;
      count := |values|;
    }

    /** A negative count leaves an empty queue alone; on any other it reports itself as the number of bytes
        and leaves the counter that much too high. */
    method PopFront(count: int) returns (data: seq<byte>, reported: int)
      requires Valid()
      modifies this
      ensures count >= 0 || old(Contents()) == [] ==>
                && Valid() && reported == |data|
                && (var n := Min(if count < 0 then 0 else count, |old(Contents())|);
                    data == old(Contents())[..n] && Contents() == old(Contents())[n..])
      ensures count < 0 && old(Contents()) != [] ==>
                && data == [] && reported == count && !Valid()
                && s == old(s).(total := old(s).total - count)
    {
      hide Inv;
      RunFactsOf(s);
      if s.total <= 0 {
        return [], 0;
      }
      if count < 0 {
        NegativePop(s, count);
        s := Step(s, StartPop(count));
        s := ConsumeStep(s);
        s := ConsumeStep(s);
        return [], count;
      }
      data := PopSome(count);
      reported := |data|;
    }

    method PopSome(count: nat) returns (data: seq<byte>)
      requires Valid()
      modifies this
      ensures Valid()
      ensures var n := Min(count, |old(Contents())|);
              data == old(Contents())[..n] && Contents() == old(Contents())[n..]
    {
      hide Inv;
      RunFactsOf(s);
      var before := s;
      StepInv(s, StartPop(count));
      s := Step(s, StartPop(count));
      while !s.cons.CIdle?
        invariant Inv(s) && s.prod.PIdle? && s.stream == before.stream
        invariant Goal(s) == |before.popped| + Min(before.total, count)
        decreases ConsumerWork(s.cons)
      {
        NoFault(s);
        LoopsTerminate(s, Consume);
        ConsumeInv(s);
        ConsumeKeeps(s);
        s := ConsumeStep(s);
      }
      RunFactsOf(s);
      data := s.popped[|before.popped|..];
      PoppedSplit(before.popped, s.popped, s.stream);
    }
  }

  lemma NegativePop(s: State, c: int)
    requires Inv(s) && s.prod.PIdle? && s.cons.CIdle? && s.total > 0 && c < 0
    ensures Enabled(s, StartPop(c))
    ensures var a := Step(s, StartPop(c));
            && !a.cons.CIdle? && !ConsumeStep(a).cons.CIdle?
            && (var t := ConsumeStep(ConsumeStep(a)); t == s.(total := s.total - c) && !Inv(t))
  {
    hide Linked, Holds, Owned, InOrder;
    assert ConsumeStep(Step(s, StartPop(c))).cons == CPublish(c, []);
  }

  lemma NoFault(s: State)
    requires Inv(s)
    ensures !s.fault
  {
  }

  /** The part of the stream that has not been handed out. */
  function Unread(s: State): seq<byte> { if |s.popped| <= |s.stream| then s.stream[|s.popped|..] else [] }

  lemma RunFactsOf(t: State)
    requires Inv(t) && t.prod.PIdle? && t.cons.CIdle?
    ensures !t.fault && t.popped <= t.stream && |Unread(t)| == t.total >= 0
  {
    hide Linked, Holds, Owned;
    RunFacts(t);
  }

  lemma PoppedSplit(a: seq<byte>, b: seq<byte>, stream: seq<byte>)
    requires a <= stream && b <= stream && |a| <= |b|
    ensures b[|a|..] == stream[|a|..][..|b| - |a|] && stream[|b|..] == stream[|a|..][|b| - |a|..]
  {
    assert b == stream[..|b|];
  }
}
