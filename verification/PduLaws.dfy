/** The framing told from outside: where each field lies, what a packet carries, and what the reader does with
    every stream, whoever wrote it. */
module PduLaws {
  import opened Bytes
  import opened PacketFlags
  import opened Pdu

  // Where the fields lie.

  lemma FlagBits(f: Flags)
    requires f.Valid()
    ensures f.compressed <==> f.Word() % 2 == 1
    ensures f.encrypted <==> f.Word() / 4 % 2 == 1
    ensures f.extensionIsFlags <==> f.Word() / 64 % 2 == 1
    ensures f.Word() < 0x1_0000
  {
    WordRoundTrip(f);
  }

  lemma TwoBytes(n: nat)
    ensures Little(2, n) == [n % 256, n / 256 % 256]
  {
    assert Little(2, n) == [n % 256] + Little(1, n / 256);
    assert Little(1, n / 256) == [n / 256 % 256] + Little(0, n / 256 / 256);
  }

  /** Two bytes, the low one first. */
  function Word(low: byte, high: byte): nat { low as nat + 256 * (high as nat) }

  lemma FromTwoBytes(a: byte, b: byte)
    ensures FromLittle([a, b]) == Word(a, b)
  {
    assert [a, b][1..] == [b] && [b][1..] == [];
    assert FromLittle([b]) == b;
  }

  lemma LowByteBit(low: byte, high: byte)
    ensures Word(low, high) / 64 % 2 == low / 64 % 2
  {
    assert Word(low, high) / 64 == low / 64 + 2 * (2 * (high as nat));
  }

  /** The eight bytes of the fixed prefix. */
  lemma PrefixLayout(h: Head, total: nat, headSize: nat)
    ensures WriteBase(h, total, headSize) ==
            [h.version % 256, h.version / 256 % 256,
             h.flags.Word() % 256, h.flags.Word() / 256 % 256,
             total % 256, total / 256 % 256,
             if h.flags.extensionIsFlags then h.ext else total / 0x1_0000 % 256,
             headSize % 256]
  {
    TwoBytes(h.version);
    TwoBytes(h.flags.Word());
    TwoBytes(total);
  }

  /** The packet length a stream announces: 16 bits, or 24 where the extension byte belongs to it. */
  function Announced(bs: seq<byte>): nat
    requires |bs| >= 8
  {
    Word(bs[4], bs[5]) + if bs[2] / 64 % 2 == 1 then 0 else 0x1_0000 * (bs[6] as nat)
  }

  lemma FlagsRead(bs: seq<byte>)
    requires |bs| >= 8
    ensures BaseFlags(bs) == FromWord(Word(bs[2], bs[3])) && BaseHeadSize(bs) == bs[7]
  {
    hide Word, FromLittle;
    assert bs[2..4] == [bs[2], bs[3]];
    FromTwoBytes(bs[2], bs[3]);
  }

  lemma LengthRead(bs: seq<byte>)
    requires |bs| >= 8
    ensures BasePacketSize(bs) == Announced(bs)
  {
    hide Word, FromLittle;
    FlagsRead(bs);
    assert bs[4..6] == [bs[4], bs[5]];
    FromTwoBytes(bs[4], bs[5]);
    LowByteBit(bs[2], bs[3]);
  }

  /** A stream holds a packet exactly when the announced header and packet are all there and the header's own
      fields can be read. */
  lemma ParsedIff(p: Prims, bs: seq<byte>)
    ensures Parse(p, bs).Parsed? <==>
              && |bs| >= 8 && |bs| >= HeadSize(p)
              && bs[7] <= Announced(bs) <= |bs|
              && p.readTail(bs[8..HeadSize(p)]).Tail?
    ensures Parse(p, bs).Parsed? ==>
              Parse(p, bs) == Parsed(FromWord(Word(bs[2], bs[3])), p.readTail(bs[8..HeadSize(p)]), bs[7], Announced(bs))
  {
    hide BaseFlags, BaseHeadSize, BasePacketSize, Announced, FromWord;
    if |bs| >= 8 {
      FlagsRead(bs);
      LengthRead(bs);
    }
  }

  // What a written packet carries.

  predicate Shrinks(p: Prims, body: seq<byte>, rq: Request) { rq.compress && p.compress(body) != [] }

  /** A packet is refused exactly when the compressed body is so small that the rate needs more than 8 bits. */
  lemma PackRefusedIff(p: Prims, h: Head, body: seq<byte>, rq: Request)
    ensures Pack(p, h, body, rq).None? <==> Shrinks(p, body, rq) && |body| / |p.compress(body)| + 2 > 255
  {
  }

  lemma ParseParts(p: Prims, bs: seq<byte>, f: Flags, t: Tail, size: nat)
    requires t.Tail? && HeadSize(p) <= size <= |bs|
    requires BaseFlags(bs) == f && BaseHeadSize(bs) == HeadSize(p) && BasePacketSize(bs) == size
    requires p.readTail(bs[BASE_SIZE..HeadSize(p)]) == t
    ensures Parse(p, bs) == Parsed(f, t, HeadSize(p), size)
  {
    hide BaseFlags, BaseHeadSize, BasePacketSize;
  }

  lemma WrittenParses(p: Prims, h: Head, payload: seq<byte>, sum: nat, rate: nat, rest: seq<byte>)
    requires Lawful(p) && h.flags.Valid() && LengthFits(h.flags, |payload| + HeadSize(p))
    requires Suits(p, h) && sum < 0x1_0000_0000 && rate <= MAX_RATE
    ensures var bs := WriteHeader(p, h, |payload|, sum, rate) + payload + rest;
            Parse(p, bs) == Parsed(h.flags, Tail(h.info, sum, rate), HeadSize(p), |payload| + HeadSize(p))
  {
    hide Lawful, BaseFlags, BaseHeadSize, BasePacketSize, WriteBase, Parse;
    var size := |payload| + HeadSize(p);
    var t := Tail(h.info, sum, rate);
    TailBack(p, t);
    var base, tail := WriteBase(h, size, HeadSize(p)), p.writeTail(t);
    FourParts(base, tail, payload, rest);
    BaseRoundTrip(h, size, HeadSize(p), tail + (payload + rest));
    ParseParts(p, base + tail + payload + rest, h.flags, t, size);
  }

  /** The header says whether the body is compressed and encrypted, carries the body's digest if a checksum was
      asked for and 0 if not, and the rate; the payload is the body, compressed if that was asked for and
      worked, encrypted under the checksum if that was asked for. */
  lemma PacketCarries(p: Prims, h: Head, body: seq<byte>, rq: Request, rest: seq<byte>)
    requires Lawful(p) && Suits(p, h) && h.flags.Valid() && Pack(p, h, body, rq).Some?
    requires LengthFits(h.flags, |Pack(p, h, body, rq).value.0|)
    ensures var packet := Pack(p, h, body, rq).value.0;
            var small := Shrinks(p, body, rq);
            var plain := if small then p.compress(body) else body;
            var sum := if rq.checksum then p.digest(body) else 0;
            && Parse(p, packet + rest) ==
                 Parsed(h.flags.(compressed := small, encrypted := rq.encrypt),
                        Tail(h.info, sum, if small then |body| / |p.compress(body)| + 2 else 1), HeadSize(p), |packet|)
            && packet[HeadSize(p)..] == if rq.encrypt then p.encrypt(plain, sum) else plain
  {
    var sum, sq, h', payload := PackShape(p, h, body, rq);
    HeaderSize(p, h', |payload|, sum, sq.rate);
    hide Lawful, Parse, WriteHeader;
    WrittenParses(p, h', payload, sum, sq.rate, rest);
    assert (WriteHeader(p, h', |payload|, sum, sq.rate) + payload)[HeadSize(p)..] == payload;
  }

  // What the reader does with every stream.

  /** The body behind encryption and compression; None if it cannot be decompressed, or to nothing. */
  function PlainBody(p: Prims, f: Flags, t: Tail, payload: seq<byte>, size: nat): Option<seq<byte>>
    requires t.Tail?
  {
    var clear := if f.encrypted then p.decrypt(payload, t.checksum) else payload;
    if !f.compressed then Some(clear)
    else
      var d := p.decompress(clear, Reservation(t.rate, size));
      if d == Some([]) then None else d
  }

  /** The stream holds a packet with a body, behind a header that is not too short. */
  predicate HasBody(p: Prims, bs: seq<byte>) {
    var r := Parse(p, bs);
    r.Parsed? && HeadSize(p) <= r.headSize < r.size
  }

  function BodyOf(p: Prims, bs: seq<byte>): Option<seq<byte>>
    requires HasBody(p, bs)
  {
    var r := Parse(p, bs);
    PlainBody(p, r.flags, r.tail, bs[r.headSize..r.size], r.size)
  }

  /** A body is delivered exactly when it can be recovered and the header holds no checksum or the body's own
      digest; the packet is good exactly when moreover the body's reader takes some of it and not more. */
  lemma DeliveredIff(p: Prims, bs: seq<byte>, b: seq<byte>)
    requires HasBody(p, bs)
    ensures var u, sum := Unpack(p, bs), Parse(p, bs).tail.checksum;
            && (u.delivered == Some(b) <==> BodyOf(p, bs) == Some(b) && (sum == 0 || p.digest(b) == sum))
            && u.code == if u.delivered.Some? && 0 < p.doRead(u.delivered.value) <= |u.delivered.value|
                         then Done(Parse(p, bs).size) else BadPacket
  {
    hide Parse, Reservation;
  }

  /** Without a body behind a header there is nothing to deliver: the packet is good if its header is all of
      it, and bad if the header is too short or the stream holds no packet. */
  lemma NoBody(p: Prims, bs: seq<byte>)
    requires !HasBody(p, bs)
    ensures var u, r := Unpack(p, bs), Parse(p, bs);
            && u.delivered == None
            && u.code == if r.Parsed? && HeadSize(p) <= r.headSize then Done(r.size) else BadPacket
  {
    hide Parse, UnpackBody;
    var r := Parse(p, bs);
    if r.Parsed? && HeadSize(p) <= r.headSize {
      EmptyPayload(p, r.flags, r.tail, r.size, bs[r.size..]);
      assert bs[r.headSize..r.size] == [];
    }
  }

  lemma EmptyPayload(p: Prims, f: Flags, t: Tail, size: nat, rest: seq<byte>)
    requires t.Tail?
    ensures UnpackBody(p, f, t, [], size, rest) ==
            Unpacked(Done(size), rest, f.(compressed := false, encrypted := false), None)
  {
  }

  /** So whoever damaged a packet on the way: what comes out of a stream whose header carries a checksum has
      that digest, and a body with another digest is not delivered and makes the packet bad. */
  lemma ChecksumGuards(p: Prims, bs: seq<byte>)
    requires Parse(p, bs).Parsed? && Parse(p, bs).tail.checksum != 0
    ensures var u := Unpack(p, bs);
            && (u.delivered.Some? ==> p.digest(u.delivered.value) == Parse(p, bs).tail.checksum)
            && (HasBody(p, bs) && BodyOf(p, bs).Some? && p.digest(BodyOf(p, bs).value) != Parse(p, bs).tail.checksum ==>
                u.delivered == None && u.code == BadPacket)
  {
    hide Parse, Unpack, BodyOf;
    var u := Unpack(p, bs);
    if !HasBody(p, bs) {
      NoBody(p, bs);
    } else if u.delivered.Some? {
      DeliveredIff(p, bs, u.delivered.value);
    } else {
      DeliveredIff(p, bs, []);
    }
  }

  /** What is left of the stream: all of it if it holds no packet; the packet and what follows, decrypted in
      place, if an uncompressed body fails its checksum; else what follows the packet, or the header where that
      reaches further. */
  lemma LeftBehind(p: Prims, bs: seq<byte>)
    ensures var u, r := Unpack(p, bs), Parse(p, bs);
            u.rest == if r.Unparsed? then bs
                      else if HasBody(p, bs) && !r.flags.compressed && u.delivered == None then BodyOf(p, bs).value + bs[r.size..]
                      else if r.headSize < HeadSize(p) && r.size < HeadSize(p) then bs[HeadSize(p)..]
                      else bs[r.size..]
  {
    hide Parse, Reservation;
  }

  /** A header longer than the reader's own, as a newer version would send, is read the same: what it adds is
      skipped. */
  lemma NewerHeader(p: Prims, h: Head, t: Tail, extra: seq<byte>, payload: seq<byte>, rest: seq<byte>)
    requires Lawful(p) && Carries(p, t) && h.flags.Valid() && HeadSize(p) + |extra| < 256
    requires LengthFits(h.flags, HeadSize(p) + |extra| + |payload|)
    ensures var head, size := HeadSize(p) + |extra|, HeadSize(p) + |extra| + |payload|;
            Unpack(p, WriteBase(h, size, head) + p.writeTail(t) + (extra + payload) + rest)
            == UnpackBody(p, h.flags, t, payload, size, rest)
  {
    hide Lawful, BaseFlags, BaseHeadSize, BasePacketSize, WriteBase, UnpackBody;
    TailBack(p, t);
    var head, size := HeadSize(p) + |extra|, HeadSize(p) + |extra| + |payload|;
    var base, tail := WriteBase(h, size, head), p.writeTail(t);
    var bs := base + tail + (extra + payload) + rest;
    FourParts(base, tail, extra + payload, rest);
    BaseRoundTrip(h, size, head, tail + ((extra + payload) + rest));
    assert bs[head..size] == bs[HeadSize(p)..size][|extra|..] == payload;
  }

  /** However large a rate a header claims, the room made for the body is capped. */
  lemma ReservationCapped(rate: nat, size: nat)
    ensures Reservation(rate, size) <= 16777215 + 256
  {
    hide ToInt32, Max;
  }

  /** Exactly: the claimed product, or the packet itself where the product leaves 31 bits, and eight bytes, but not
      more than a packet; and 256 bytes more. */
  lemma ReservationExact(rate: nat, size: nat)
    requires rate < 256 && size < 0x100_0000
    ensures var wanted := (if rate == 0 || rate * size >= 0x8000_0000 then size else rate * size) + 8;
            Reservation(rate, size) == 256 + if wanted > 16777215 then 16777215 else wanted
  {
    hide ToInt32;
    ProductRange(rate, size);
    Truncated(rate * size);
  }

  lemma ProductRange(rate: nat, size: nat)
    requires rate < 256 && size < 0x100_0000
    ensures 0 <= rate * size < 0x1_0000_0000
    ensures if rate == 0 then rate * size == 0 else size <= rate * size
  {
    if rate > 0 {
      Monotone(1, rate, size);
      Monotone(rate, 255, size);
    }
  }

  lemma {:induction false} Monotone(a: nat, b: nat, c: nat)
    requires a <= b
    ensures a * c <= b * c
    decreases b
  {
    if a < b {
      Monotone(a, b - 1, c);
      Distribute(c, b - 1, 1);
    }
  }

  lemma Truncated(n: nat)
    requires n < 0x1_0000_0000
    ensures ToInt32(n) == if n >= 0x8000_0000 then n - 0x1_0000_0000 else n
  {
  }

  /** The flags of the header object afterwards: encryption is cleared once undone, compression too, unless the
      body could not be decompressed. */
  lemma FlagsAfter(p: Prims, bs: seq<byte>)
    ensures var u, r := Unpack(p, bs), Parse(p, bs);
            u.flags == if r.Unparsed? then FromWord(0)
                       else if r.headSize < HeadSize(p) then r.flags
                       else r.flags.(encrypted := false,
                                     compressed := HasBody(p, bs) && r.flags.compressed && BodyOf(p, bs).None?)
  {
    hide Parse, Reservation;
  }
}
