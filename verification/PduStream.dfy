/** The framing as it is carried out: one stream whose end is moved past a header slot, filled behind
    it, moved back, and moved forward again over bytes that are already there. */
module PduStream {
  import opened Bytes
  import opened PacketFlags
  import opened Pdu

  /** block[at..at + |bs|] replaced by bs. */
  function Splice(block: seq<byte>, at: nat, bs: seq<byte>): (r: seq<byte>)
    requires at + |bs| <= |block|
    ensures |r| == |block|
    ensures r[..at] == block[..at] && r[at..at + |bs|] == bs && r[at + |bs|..] == block[at + |bs|..]
  {
    block[..at] + bs + block[at + |bs|..]
  }

  class RawStream {
    var block: seq<byte>
    var front: nat
    var back: nat

    predicate Valid()
      reads this
    {
      front <= back <= |block|
    }

    function Content(): seq<byte>
      reads this
      requires Valid()
    {
      block[front..back]
    }

    constructor (bs: seq<byte>)
      ensures Valid() && Content() == bs
    {
      block, front, back := bs, 0, |bs|;
    }

    /** Makes room behind the end without touching anything before it. */
    method Reserve(n: nat)
      requires Valid()
      modifies this`block
      ensures Valid() && back + n <= |block|
      ensures old(block) <= block
    {
      if |block| < back + n {
        block := block + seq(back + n - |block|, i => 0);
      }
    }

    /** push_back with no data: the end moves over whatever bytes lie there. */
    method PushNull(n: nat)
      requires Valid()
      modifies this
      ensures Valid() && front == old(front) && back == old(back) + n
      ensures old(block) <= block
    {
      Reserve(n);
      back := back + n;
    }

    /** Stores at the end without moving it. */
    method Poke(bs: seq<byte>)
      requires Valid() && back + |bs| <= |block|
      modifies this`block
      ensures Valid() && block == Splice(old(block), back, bs)
    {
      block := Splice(block, back, bs);
    }

    method PopBack(n: nat)
      requires Valid() && front + n <= back
      modifies this`back
      ensures Valid() && back == old(back) - n
    {
      back := back - n;
    }

    method PopFront(n: nat)
      requires Valid() && n <= |Content()|
      modifies this`front
      ensures Valid() && Content() == old(Content())[n..]
    {
      front := front + n;
    }

    /** Overwrites the first bytes in place. */
    method PokeFront(bs: seq<byte>)
      requires Valid() && |bs| <= |Content()|
      modifies this`block
      ensures Valid() && Content() == bs + old(Content())[|bs|..]
    {
      block := Splice(block, front, bs);
      assert block[front..back] == block[front..front + |bs|] + block[front + |bs|..][..back - front - |bs|];
      assert old(block)[front + |bs|..back] == old(block)[front + |bs|..][..back - front - |bs|];
      assert old(Content())[|bs|..] == old(block)[front + |bs|..back];
    }

    /** Stores at the end and moves over it. */
    method Append(bs: seq<byte>)
      requires Valid() && back + |bs| <= |block|
      modifies this
      ensures Valid() && front == old(front) && back == old(back) + |bs|
      ensures block == Splice(old(block), old(back), bs)
    {
      Poke(bs);
      back := back + |bs|;
    }
  }

  lemma SlicesAgree(a: seq<byte>, b: seq<byte>, lo: nat, hi: nat)
    requires a <= b && lo <= hi <= |a|
    ensures b[lo..hi] == a[lo..hi]
  {
    assert b[..|a|] == a;
    assert b[lo..hi] == b[..|a|][lo..hi];
  }

  lemma SamePrefix(a: seq<byte>, b: seq<byte>, n: nat, lo: nat, hi: nat)
    requires n <= |a| && n <= |b| && a[..n] == b[..n] && lo <= hi <= n
    ensures a[lo..hi] == b[lo..hi]
  {
    assert a[lo..hi] == a[..n][lo..hi];
    assert b[lo..hi] == b[..n][lo..hi];
  }

  lemma DropTwice(bs: seq<byte>, a: nat, b: nat)
    requires a <= b <= |bs|
    ensures bs[a..][b - a..] == bs[b..]
  {
  }

  lemma CutTwice(bs: seq<byte>, a: nat, b: nat)
    requires a <= b <= |bs|
    ensures bs[a..][..b - a] == bs[a..b] && bs[a..][b - a..] == bs[b..]
  {
  }

  /** Header slot skipped, payload stored behind it, header stored into the slot: header and payload are
      what the stream then ends with. The block may have grown in between and afterwards. */
  lemma SlotFilled(block: seq<byte>, mid: seq<byte>, last: seq<byte>, front: nat, at: nat,
                   header: seq<byte>, payload: seq<byte>)
    requires block <= mid && front <= at && at + |header| + |payload| <= |block|
    requires Splice(mid, at, header) <= last
    requires block[at + |header|..at + |header| + |payload|] == payload
    ensures last[front..at + |header| + |payload|] == block[front..at] + (header + payload)
  {
    var k, end := at + |header|, at + |header| + |payload|;
    var s := Splice(mid, at, header);
    SlicesAgree(s, last, front, end);
    SlicesAgree(block, mid, front, at);
    SlicesAgree(block, mid, k, end);
    assert s[front..at] == mid[front..at] by {
      assert s[front..at] == s[..at][front..];
      assert mid[front..at] == mid[..at][front..];
    }
    assert s[k..end] == mid[k..end] by {
      assert s[k..end] == s[k..][..end - k];
      assert mid[k..end] == mid[k..][..end - k];
    }
    assert s[front..end] == s[front..at] + (s[at..k] + s[k..end]);
  }

  /** A header that was read has the fields of its own type again, so the object can be written again. */
  lemma ParsedSuits(p: Prims, bs: seq<byte>)
    ensures Lawful(p) && Parse(p, bs).Parsed? ==> |Parse(p, bs).tail.info| == p.infoSize
  {
  }

  lemma DecryptKeeps(p: Prims, b: seq<byte>, k: nat)
    requires KeepsLength(p)
    ensures |p.decrypt(b, k)| == |b|
  {
  }

  class PduObject {
    var head: Head

    constructor (h: Head)
      ensures head == h
    {
      head := h;
    }

    /** Compression with its fall-back; the rate is tested before anything is marked. */
    method Compress(p: Prims, body: seq<byte>, wanted: bool) returns (sq: Packed)
      ensures sq == Squeeze(p, body, wanted)
    {
      sq := Packed(body, false, 1);
      if wanted {
        var c := p.compress(body);
        if c != [] {
          var rate := |body| / |c| + 2;
          if rate > MAX_RATE {
            return OverRate;
          }
          sq := Packed(c, true, rate);
        }
      }
    }

    /** Stores the payload behind the header slot, encrypting it there if asked to. */
    method Place(p: Prims, pdu: RawStream, sq: Packed, encrypt: bool, sum: nat) returns (payload: seq<byte>)
      requires Lawful(p) && pdu.Valid() && sq.Packed?
      modifies pdu`block
      ensures pdu.Valid() && payload == Payload(p, sq, encrypt, sum)
      ensures pdu.back + |payload| <= |pdu.block|
      ensures pdu.block[..pdu.back] == old(pdu.block)[..pdu.back]
      ensures pdu.block[pdu.back..pdu.back + |payload|] == payload
    {
      payload := sq.payload;
      pdu.Reserve(|payload| + 56);
      pdu.Poke(payload);
      if encrypt {
        payload := p.encrypt(payload, sum);
        pdu.Poke(payload);
      }
    }

    /** serialize_to. When the compression rate does not fit its byte, the stream keeps the bytes of the
        unused header slot. */
    method SerializeTo(p: Prims, pdu: RawStream, body: seq<byte>, rq: Request) returns (code: Code)
      requires Lawful(p) && Suits(p, head) && pdu.Valid()
      modifies this, pdu
      ensures pdu.Valid() && Suits(p, head)
      ensures var r := Pack(p, old(head), body, rq);
              if r.Some? then
                && code == Done(|r.value.0|) && head == r.value.1
                && pdu.Content() == old(pdu.Content()) + r.value.0
              else
                && code == BadSize && head == old(head)
                && |pdu.Content()| == |old(pdu.Content())| + HeadSize(p)
                && old(pdu.Content()) <= pdu.Content()
    {
      hide Lawful, WriteHeader, Payload, Squeeze;
      ghost var before, block, at := pdu.Content(), pdu.block, pdu.back;
      pdu.PushNull(HeadSize(p));
      SlicesAgree(block, pdu.block, pdu.front, at);
      var sum := if rq.checksum then p.digest(body) else 0;
      var sq := Compress(p, body, rq.compress);
      if sq.OverRate? {
        assert pdu.Content()[..|before|] == before;
        return BadSize;
      }
      ghost var sum', sq', h', payload' := PackShape(p, head, body, rq);
      code := FillSlot(p, pdu, sq, rq.encrypt, sum, before);
    }

    /** Everything behind the header slot, then the slot itself. */
    method FillSlot(p: Prims, pdu: RawStream, sq: Packed, encrypt: bool, sum: nat, ghost before: seq<byte>) returns (code: Code)
      requires Lawful(p) && Suits(p, head) && pdu.Valid() && sq.Packed? && sq.rate <= MAX_RATE && sum < 0x1_0000_0000
      requires pdu.front + HeadSize(p) <= pdu.back && pdu.block[pdu.front..pdu.back - HeadSize(p)] == before
      modifies this, pdu
      ensures pdu.Valid()
      ensures head == old(head).(flags := old(head).flags.(compressed := sq.compressed, encrypted := encrypt))
      ensures var payload := Payload(p, sq, encrypt, sum);
              && code == Done(|payload| + HeadSize(p))
              && pdu.Content() == before + (WriteHeader(p, head, |payload|, sum, sq.rate) + payload)
    {
      hide Lawful, WriteHeader, Payload;
      ghost var slotted, at := pdu.block, pdu.back - HeadSize(p);
      var payload := Place(p, pdu, sq, encrypt, sum);
      SamePrefix(pdu.block, slotted, pdu.back, pdu.front, at);
      head := head.(flags := head.flags.(compressed := sq.compressed));
      head := head.(flags := head.flags.(encrypted := encrypt));
      FinishPacket(p, pdu, payload, sum, sq.rate, before);
      code := Done(|payload| + HeadSize(p));
    }

    /** The tail of serialize_to: expose the payload, step back over it and the slot, write the header,
        step forward over the payload again. */
    method FinishPacket(p: Prims, pdu: RawStream, payload: seq<byte>, sum: nat, rate: nat, ghost before: seq<byte>)
      requires Lawful(p) && Suits(p, head) && pdu.Valid() && rate <= MAX_RATE && sum < 0x1_0000_0000
      requires pdu.front + HeadSize(p) <= pdu.back && pdu.back + |payload| <= |pdu.block|
      requires pdu.block[pdu.front..pdu.back - HeadSize(p)] == before
      requires pdu.block[pdu.back..pdu.back + |payload|] == payload
      modifies pdu
      ensures pdu.Valid()
      ensures pdu.Content() == before + (WriteHeader(p, head, |payload|, sum, rate) + payload)
    {
      hide WriteHeader, Lawful;
      HeaderSize(p, head, |payload|, sum, rate);
      ghost var block, at := pdu.block, pdu.back - HeadSize(p);
      pdu.PushNull(|payload|);
      pdu.PopBack(HeadSize(p) + |payload|);
      var header := WriteHeader(p, head, |payload|, sum, rate);
      ghost var mid := pdu.block;
      pdu.Append(header);
      pdu.PushNull(|payload|);
      SlotFilled(block, mid, pdu.block, pdu.front, at, header, payload);
    }

    /** serialize_from: the header, then decryption in place, decompression, checksum and hand-over. */
    method SerializeFrom(p: Prims, pdu: RawStream) returns (u: Unpacked)
      requires KeepsLength(p) && pdu.Valid()
      modifies this, pdu
      ensures pdu.Valid()
      ensures u == Unpack(p, old(pdu.Content())) && pdu.Content() == u.rest
      ensures u.code.Done? ==> head.flags == u.flags
      ensures Lawful(p) && Suits(p, old(head)) ==> Suits(p, head)
    {
      hide UnpackBody, KeepsLength, Parse, FromWord;
      var bs := pdu.Content();
      var r := Parse(p, bs);
      if r.Unparsed? {
        return Unpacked(BadPacket, bs, FromWord(0), None);
      }
      head := head.(flags := r.flags, info := r.tail.info);
      ParsedSuits(p, bs);
      pdu.PopFront(HeadSize(p));
      if HeadSize(p) > r.headSize {
        if r.size >= HeadSize(p) {
          SkipTo(pdu, bs, HeadSize(p), r.size);
        }
        return Unpacked(BadPacket, pdu.Content(), head.flags, None);
      }
      SkipTo(pdu, bs, HeadSize(p), r.headSize);
      CutTwice(bs, r.headSize, r.size);
      u := ReadBody(p, pdu, r.tail, r.size - r.headSize, r.size);
    }

    static method SkipTo(pdu: RawStream, ghost bs: seq<byte>, at: nat, to: nat)
      requires pdu.Valid() && at <= to <= |bs| && pdu.Content() == bs[at..]
      modifies pdu`front
      ensures pdu.Valid() && pdu.Content() == bs[to..]
    {
      DropTwice(bs, at, to);
      pdu.PopFront(to - at);
    }

    method ReadBody(p: Prims, pdu: RawStream, t: Tail, bodySize: nat, size: nat) returns (u: Unpacked)
      requires KeepsLength(p) && pdu.Valid() && t.Tail? && bodySize <= |pdu.Content()|
      modifies this, pdu
      ensures pdu.Valid()
      ensures u == UnpackBody(p, old(head.flags), t, old(pdu.Content())[..bodySize], size, old(pdu.Content())[bodySize..])
      ensures pdu.Content() == u.rest && head.flags == u.flags && head.info == old(head.info)
    {
      hide KeepsLength, Reservation;
      if bodySize == 0 {
        head := head.(flags := head.flags.(compressed := false, encrypted := false));
        return Unpacked(Done(size), pdu.Content(), head.flags, None);
      }
      ghost var rest := pdu.Content()[bodySize..];
      var body := Decipher(p, pdu, t.checksum, bodySize);
      if head.flags.compressed {
        var d := p.decompress(body, Reservation(t.rate, size));
        pdu.PopFront(bodySize);
        if d.None? || d.value == [] {
          return Unpacked(BadPacket, pdu.Content(), head.flags, None);
        }
        head := head.(flags := head.flags.(compressed := false));
        u := HandOver(p, d.value, t.checksum, size, pdu.Content(), pdu.Content());
      } else {
        u := HandOver(p, body, t.checksum, size, pdu.Content(), pdu.Content()[bodySize..]);
        if u.delivered.Some? {
          pdu.PopFront(bodySize);
        }
      }
    }

    /** Decryption in place, if the flag asks for it; the flag is cleared. */
    method Decipher(p: Prims, pdu: RawStream, sum: nat, bodySize: nat) returns (body: seq<byte>)
      requires KeepsLength(p) && pdu.Valid() && bodySize <= |pdu.Content()|
      modifies this, pdu`block
      ensures pdu.Valid() && |body| == bodySize
      ensures var payload := old(pdu.Content())[..bodySize];
              body == if old(head).flags.encrypted then p.decrypt(payload, sum) else payload
      ensures pdu.Content() == body + old(pdu.Content())[bodySize..]
      ensures head == old(head).(flags := old(head).flags.(encrypted := false))
    {
      hide KeepsLength;
      body := pdu.Content()[..bodySize];
      if head.flags.encrypted {
        DecryptKeeps(p, body, sum);
        body := p.decrypt(body, sum);
        pdu.PokeFront(body);
        head := head.(flags := head.flags.(encrypted := false));
      }
    }

    /** The checksum test and the call of the body's own reader. */
    method HandOver(p: Prims, body: seq<byte>, sum: nat, size: nat, rest: seq<byte>, after: seq<byte>) returns (u: Unpacked)
      ensures u == Deliver(p, body, sum, size, head.flags, rest, after)
    {
      if sum != 0 {
        if sum != p.digest(body) {
          return Unpacked(BadPacket, rest, head.flags, None);
        }
      }
      var n := p.doRead(body);
      if n <= 0 || n > |body| {
        return Unpacked(BadPacket, after, head.flags, Some(body));
      }
      u := Unpacked(Done(size), after, head.flags, Some(body));
    }
  }
}
