/** Packet framing: a body is optionally compressed, optionally encrypted, given a checksum, and put
    behind a header that carries a 24-bit length and an 8-bit compression rate. Compression, the cipher,
    the digest and the part of the header behind its fixed prefix are parameters known by their laws. */
module Pdu {
  import opened Bytes
  import opened PacketFlags

  const BASE_SIZE := 8
  const MAX_HEADER := 255
  const MAX_BODY := 16776960
  const MAX_PACKET := 16777215
  const MAX_RATE := 255
  const INT32_LIMIT := 0x8000_0000

  /** The header object: protocol version, flags, the extension byte when it is not part of the length,
      and the fields of the concrete header type. */
  datatype Head = Head(version: nat, flags: Flags, ext: byte, info: seq<byte>)

  datatype Tail = Tail(info: seq<byte>, checksum: nat, rate: nat) | NoTail

  datatype Option<+T> = Some(value: T) | None

  datatype Prims = Prims(
    /** Empty when compression fails. */
    compress: seq<byte> -> seq<byte>,
    /** None on malformed input or when the output does not fit the space. */
    decompress: (seq<byte>, int) -> Option<seq<byte>>,
    encrypt: (seq<byte>, nat) -> seq<byte>,
    decrypt: (seq<byte>, nat) -> seq<byte>,
    digest: seq<byte> -> nat,
    writeTail: Tail -> seq<byte>,
    readTail: seq<byte> -> Tail,
    tailSize: nat,
    infoSize: nat,
    /** What the body's own reader reports: how many bytes it took. */
    doRead: seq<byte> -> int)

  function HeadSize(p: Prims): nat { BASE_SIZE + p.tailSize }

  /** A stream cipher does not change the size of the data. */
  ghost predicate KeepsLength(p: Prims) {
    && (forall b, k :: |p.encrypt(b, k)| == |b|)
    && (forall b, k :: |p.decrypt(b, k)| == |b|)
  }

  /** What a header has room for: its own fields, a 32-bit checksum and an 8-bit rate. */
  predicate Carries(p: Prims, t: Tail) {
    t.Tail? && |t.info| == p.infoSize && t.checksum < 0x1_0000_0000 && t.rate <= MAX_RATE
  }

  /** The header object is of the type whose fields p reads and writes. */
  predicate Suits(p: Prims, h: Head) { |h.info| == p.infoSize }

  ghost predicate Lawful(p: Prims) {
    && (forall b, space :: p.compress(b) != [] && |b| <= space ==> p.decompress(p.compress(b), space) == Some(b))
    && (forall b :: |p.compress(b)| <= |b| + |b| / 255 + 16)
    && KeepsLength(p)
    && (forall b, k :: p.decrypt(p.encrypt(b, k), k) == b)
    && (forall b :: p.digest(b) < 0x1_0000_0000)
    && (forall t :: Carries(p, t) ==> |p.writeTail(t)| == p.tailSize && p.readTail(p.writeTail(t)) == t)
    && (forall bs :: |bs| == p.tailSize && p.readTail(bs).Tail? ==> Carries(p, p.readTail(bs)))
    && HeadSize(p) <= MAX_HEADER
  }

  datatype Request = Request(compress: bool, encrypt: bool, checksum: bool)

  datatype Code = Done(size: nat) | BadPacket | BadSize

  // The fixed prefix of every header.

  function ExtByte(h: Head, total: nat): byte {
    if h.flags.extensionIsFlags then h.ext else total / 0x1_0000 % 256
  }

  function WriteBase(h: Head, total: nat, headSize: nat): (bs: seq<byte>)
    ensures |bs| == BASE_SIZE
  {
    Little(2, h.version) + Little(2, h.flags.Word()) + Little(2, total) + [ExtByte(h, total)] + [headSize % 256]
  }

  function WriteHeader(p: Prims, h: Head, bodySize: nat, checksum: nat, rate: nat): seq<byte> {
    WriteBase(h, bodySize + HeadSize(p), HeadSize(p)) + p.writeTail(Tail(h.info, checksum, rate))
  }

  lemma HeaderSize(p: Prims, h: Head, bodySize: nat, checksum: nat, rate: nat)
    requires Lawful(p) && Suits(p, h) && checksum < 0x1_0000_0000 && rate <= MAX_RATE
    ensures |WriteHeader(p, h, bodySize, checksum, rate)| == HeadSize(p)
  {
    assert Carries(p, Tail(h.info, checksum, rate));
  }

  function BaseFlags(bs: seq<byte>): Flags
    requires |bs| >= BASE_SIZE
  {
    FromWord(FromLittle(bs[2..4]))
  }

  function BaseHeadSize(bs: seq<byte>): nat
    requires |bs| >= BASE_SIZE
  {
    bs[7]
  }

  /** The length is 24 bits wide unless the extension byte holds flags. */
  function BasePacketSize(bs: seq<byte>): nat
    requires |bs| >= BASE_SIZE
  {
    var low := FromLittle(bs[4..6]);
    if BaseFlags(bs).extensionIsFlags then low else low + 0x1_0000 * (bs[6] as int)
  }

  predicate LengthFits(f: Flags, total: nat) {
    total < if f.extensionIsFlags then 0x1_0000 else 0x100_0000
  }

  lemma BaseRoundTrip(h: Head, total: nat, headSize: nat, rest: seq<byte>)
    requires LengthFits(h.flags, total) && headSize < 256 && h.flags.Valid()
    ensures var bs := WriteBase(h, total, headSize) + rest;
            BaseFlags(bs) == h.flags && BaseHeadSize(bs) == headSize && BasePacketSize(bs) == total
  {
    var bs := WriteBase(h, total, headSize) + rest;
    Pow256Values();
    assert bs[2..4] == Little(2, h.flags.Word());
    LittleRoundTrip(2, h.flags.Word());
    WordRoundTrip(h.flags);
    assert bs[4..6] == Little(2, total);
    LowBytes(total);
    assert bs[6] == ExtByte(h, total);
  }

  lemma LowBytes(n: nat)
    ensures FromLittle(Little(2, n)) == n % 0x1_0000
  {
    assert Little(2, n) == [n % 256] + Little(1, n / 256);
    assert Little(1, n / 256) == [n / 256 % 256] + Little(0, n / 256 / 256);
    assert Little(2, n)[1..] == Little(1, n / 256);
    assert Little(1, n / 256)[1..] == [];
    assert FromLittle(Little(1, n / 256)) == n / 256 % 256;
    assert n % 256 + 256 * (n / 256 % 256) == n % 0x1_0000;
  }

  // Writing.

  /** The payload that goes on the wire, and the rate byte; BadSize when the rate needs more than 8 bits. */
  datatype Packed = Packed(payload: seq<byte>, compressed: bool, rate: nat) | OverRate

  function Rate(raw: nat, packed: nat): nat
    requires packed > 0
  {
    raw / packed + 2
  }

  /** Compression with its fall-back to the raw body. */
  function Squeeze(p: Prims, body: seq<byte>, wanted: bool): Packed {
    if !wanted then Packed(body, false, 1)
    else
      var c := p.compress(body);
      if c == [] then Packed(body, false, 1)
      else if Rate(|body|, |c|) > MAX_RATE then OverRate
      else Packed(c, true, Rate(|body|, |c|))
  }

  function Checksum(p: Prims, body: seq<byte>, wanted: bool): nat {
    if wanted then p.digest(body) else 0
  }

  function Payload(p: Prims, sq: Packed, encrypt: bool, sum: nat): seq<byte>
    requires sq.Packed?
  {
    if encrypt then p.encrypt(sq.payload, sum) else sq.payload
  }

  /** The packet for a body, and the header object afterwards. */
  function Pack(p: Prims, h: Head, body: seq<byte>, rq: Request): Option<(seq<byte>, Head)> {
    var sum := Checksum(p, body, rq.checksum);
    var sq := Squeeze(p, body, rq.compress);
    if sq.OverRate? then None
    else
      var h' := h.(flags := h.flags.(compressed := sq.compressed, encrypted := rq.encrypt));
      var payload := Payload(p, sq, rq.encrypt, sum);
      Some((WriteHeader(p, h', |payload|, sum, sq.rate) + payload, h'))
  }

  // Reading.

  datatype Unpacked = Unpacked(code: Code, rest: seq<byte>, flags: Flags, delivered: Option<seq<byte>>)

  /** Truncation of a product to a signed 32-bit integer. */
  function ToInt32(n: int): int {
    var m := n % 0x1_0000_0000;
    if m >= INT32_LIMIT then m - 0x1_0000_0000 else m
  }

  function Max(a: int, b: int): int { if a < b then b else a }

  /** How much room the reader makes for the decompressed body. */
  function Reservation(rate: nat, packetSize: nat): int {
    var r := Max(ToInt32(rate * packetSize), packetSize) + 8;
    (if r > MAX_PACKET then MAX_PACKET else r) + 256
  }

  /** The checks and the delivery that both branches share: `body` is the plain body, `rest` the stream
      when the checks begin, `after` the stream once the body is handed over. */
  function Deliver(p: Prims, body: seq<byte>, sum: nat, size: nat, f: Flags, rest: seq<byte>, after: seq<byte>): Unpacked {
    if sum != 0 && sum != p.digest(body) then Unpacked(BadPacket, rest, f, None)
    else if 0 < p.doRead(body) <= |body| then Unpacked(Done(size), after, f, Some(body))
    else Unpacked(BadPacket, after, f, Some(body))
  }

  datatype Parsed = Parsed(flags: Flags, tail: Tail, headSize: nat, size: nat) | Unparsed

  /** What the reader learns from the header, if the stream holds a whole packet. */
  function Parse(p: Prims, bs: seq<byte>): (r: Parsed)
    ensures r.Parsed? ==> r.tail.Tail? && r.headSize <= r.size <= |bs| && HeadSize(p) <= |bs|
  {
    if |bs| < BASE_SIZE then Unparsed
    else
      var headSize, size := BaseHeadSize(bs), BasePacketSize(bs);
      if |bs| < size || size < headSize || |bs| < HeadSize(p) then Unparsed
      else
        var t := p.readTail(bs[BASE_SIZE..HeadSize(p)]);
        if t.NoTail? then Unparsed else Parsed(BaseFlags(bs), t, headSize, size)
  }

  /** The header reader consumes its own fixed size; a longer header on the wire is a newer version whose
      extra fields are skipped, a shorter one is an error that drops the packet. */
  function Unpack(p: Prims, bs: seq<byte>): Unpacked {
    match Parse(p, bs)
    case Unparsed => Unpacked(BadPacket, bs, FromWord(0), None)
    case Parsed(f, t, headSize, size) =>
      if headSize < HeadSize(p) then
        Unpacked(BadPacket, if size < HeadSize(p) then bs[HeadSize(p)..] else bs[size..], f, None)
      else UnpackBody(p, f, t, bs[headSize..size], size, bs[size..])
  }

  function UnpackBody(p: Prims, f: Flags, t: Tail, payload: seq<byte>, size: nat, rest: seq<byte>): Unpacked
    requires t.Tail?
  {
    if payload == [] then Unpacked(Done(size), rest, f.(compressed := false, encrypted := false), None)
    else
      var clear := if f.encrypted then p.decrypt(payload, t.checksum) else payload;
      var f' := f.(encrypted := false);
      if f'.compressed then
        var d := p.decompress(clear, Reservation(t.rate, size));
        if d.None? || d.value == [] then Unpacked(BadPacket, rest, f', None)
        else Deliver(p, d.value, t.checksum, size, f'.(compressed := false), rest, rest)
      else
        Deliver(p, clear, t.checksum, size, f', clear + rest, rest)
  }

  // The space the reader reserves is enough.

  lemma RateCovers(raw: nat, c: nat) returns (q: nat)
    requires c > 0
    ensures Rate(raw, c) == q + 2 && q * c <= raw <= q * c + c
  {
    q := raw / c;
    assert raw == q * c + raw % c;
  }

  lemma Distribute(x: nat, y: nat, z: nat)
    ensures x * (y + z) == x * y + x * z
  {
  }

  lemma ProductArith(raw: nat, q: nat, c: nat, head: nat)
    requires raw <= MAX_BODY && c + head <= MAX_PACKET && head <= MAX_HEADER && q + 2 <= MAX_RATE
    requires q * c <= raw <= q * c + c
    ensures raw <= (q + 2) * (c + head) < INT32_LIMIT
  {
    Distribute(q + 2, c, head);
    Distribute(c, q, 2);
    assert (q + 2) * c == q * c + 2 * c;
    RateHead(q + 2, head);
  }

  /** For a packet the writer let through, the 32-bit product does not wrap ... */
  lemma ProductBound(raw: nat, c: nat, head: nat)
    requires raw <= MAX_BODY && 0 < c && c + head <= MAX_PACKET && head <= MAX_HEADER
    requires Rate(raw, c) <= MAX_RATE
    ensures raw <= Rate(raw, c) * (c + head) < INT32_LIMIT
  {
    hide Rate;
    var q := RateCovers(raw, c);
    ProductArith(raw, q, c, head);
  }

  lemma RateHead(rate: nat, head: nat)
    requires rate <= MAX_RATE && head <= MAX_HEADER
    ensures 0 <= rate * head <= MAX_RATE * MAX_HEADER
  {
    assert rate * head <= MAX_RATE * head;
  }

  /** ... and the capped reservation holds the raw body. */
  lemma SpaceBound(raw: nat, c: nat, head: nat)
    requires raw <= MAX_BODY && 0 < c && c + head <= MAX_PACKET && head <= MAX_HEADER
    requires Rate(raw, c) <= MAX_RATE
    ensures Reservation(Rate(raw, c), c + head) >= raw
  {
    ProductBound(raw, c, head);
    var n := Rate(raw, c) * (c + head);
    assert n % 0x1_0000_0000 == n;
  }

  // Unpacking undoes packing.

  lemma TailBack(p: Prims, t: Tail)
    requires Lawful(p) && Carries(p, t)
    ensures |p.writeTail(t)| == p.tailSize && p.readTail(p.writeTail(t)) == t && HeadSize(p) <= MAX_HEADER
  {
  }

  /** A stream whose prefix, tail, payload and rest are known is unpacked from just these. */
  lemma UnpackParts(p: Prims, bs: seq<byte>, f: Flags, t: Tail, size: nat)
    requires t.Tail? && HeadSize(p) <= size <= |bs|
    requires BaseFlags(bs) == f && BaseHeadSize(bs) == HeadSize(p) && BasePacketSize(bs) == size
    requires p.readTail(bs[BASE_SIZE..HeadSize(p)]) == t
    ensures Unpack(p, bs) == UnpackBody(p, f, t, bs[HeadSize(p)..size], size, bs[size..])
  {
    hide BaseFlags, BaseHeadSize, BasePacketSize, UnpackBody;
  }

  lemma HeaderRoundTrip(p: Prims, h: Head, payload: seq<byte>, sum: nat, rate: nat, rest: seq<byte>)
    requires Lawful(p) && h.flags.Valid() && LengthFits(h.flags, |payload| + HeadSize(p))
    requires Suits(p, h) && sum < 0x1_0000_0000 && rate <= MAX_RATE
    ensures var bs := WriteHeader(p, h, |payload|, sum, rate) + payload + rest;
            Unpack(p, bs) == UnpackBody(p, h.flags, Tail(h.info, sum, rate), payload, |payload| + HeadSize(p), rest)
  {
    hide Lawful, BaseFlags, BaseHeadSize, BasePacketSize, WriteBase, Unpack, UnpackBody;
    var size := |payload| + HeadSize(p);
    var t := Tail(h.info, sum, rate);
    TailBack(p, t);
    var base, tail := WriteBase(h, size, HeadSize(p)), p.writeTail(t);
    FourParts(base, tail, payload, rest);
    BaseRoundTrip(h, size, HeadSize(p), tail + (payload + rest));
    UnpackParts(p, base + tail + payload + rest, h.flags, t, size);
  }

  lemma FourParts(base: seq<byte>, tail: seq<byte>, payload: seq<byte>, rest: seq<byte>)
    ensures var bs := base + tail + payload + rest;
            && bs == base + (tail + (payload + rest))
            && bs[|base|..|base| + |tail|] == tail
            && bs[|base| + |tail|..|base| + |tail| + |payload|] == payload
            && bs[|base| + |tail| + |payload|..] == rest
  {
  }

  lemma PayloadSize(p: Prims, body: seq<byte>, rq: Request, sum: nat)
    requires Lawful(p) && body != [] && Squeeze(p, body, rq.compress).Packed?
    ensures var sq := Squeeze(p, body, rq.compress); |Payload(p, sq, rq.encrypt, sum)| == |sq.payload| > 0
  {
  }

  /** The reader's decryption and decompression, applied to what the writer produced. */
  lemma Unsqueeze(p: Prims, body: seq<byte>, rq: Request, sum: nat)
    requires Lawful(p) && 0 < |body| <= MAX_BODY && Squeeze(p, body, rq.compress).Packed?
    requires |Squeeze(p, body, rq.compress).payload| + HeadSize(p) <= MAX_PACKET
    ensures var sq := Squeeze(p, body, rq.compress);
            && (rq.encrypt ==> p.decrypt(Payload(p, sq, true, sum), sum) == sq.payload)
            && (if sq.compressed
                then p.decompress(sq.payload, Reservation(sq.rate, |sq.payload| + HeadSize(p))) == Some(body)
                else sq.payload == body)
  {
    var sq := Squeeze(p, body, rq.compress);
    if sq.compressed {
      SpaceBound(|body|, |sq.payload|, HeadSize(p));
    }
  }

  lemma BodyRoundTrip(p: Prims, f: Flags, info: seq<byte>, body: seq<byte>, rq: Request, rest: seq<byte>)
    requires Lawful(p) && 0 < |body| <= MAX_BODY && 0 < p.doRead(body) <= |body|
    requires Squeeze(p, body, rq.compress).Packed?
    requires |Squeeze(p, body, rq.compress).payload| + HeadSize(p) <= MAX_PACKET
    requires f.compressed == Squeeze(p, body, rq.compress).compressed && f.encrypted == rq.encrypt
    ensures var sum := Checksum(p, body, rq.checksum);
            var sq := Squeeze(p, body, rq.compress);
            var payload := Payload(p, sq, rq.encrypt, sum);
            var size := |sq.payload| + HeadSize(p);
            UnpackBody(p, f, Tail(info, sum, sq.rate), payload, size, rest)
              == Unpacked(Done(size), rest, f.(compressed := false, encrypted := false), Some(body))
  {
    var sum := Checksum(p, body, rq.checksum);
    PayloadSize(p, body, rq, sum);
    Unsqueeze(p, body, rq, sum);
  }

  /** The parts a packet was put together from. */
  lemma PackShape(p: Prims, h: Head, body: seq<byte>, rq: Request)
    returns (sum: nat, sq: Packed, h': Head, payload: seq<byte>)
    requires Lawful(p) && Suits(p, h) && Pack(p, h, body, rq).Some?
    ensures sum < 0x1_0000_0000 && sq.Packed? && sq.rate <= MAX_RATE
    ensures sum == Checksum(p, body, rq.checksum) && sq == Squeeze(p, body, rq.compress) && sq.Packed?
    ensures h' == h.(flags := h.flags.(compressed := sq.compressed, encrypted := rq.encrypt))
    ensures payload == Payload(p, sq, rq.encrypt, sum)
    ensures Pack(p, h, body, rq) == Some((WriteHeader(p, h', |payload|, sum, sq.rate) + payload, h'))
    ensures |Pack(p, h, body, rq).value.0| == |payload| + HeadSize(p)
  {
    sum := Checksum(p, body, rq.checksum);
    sq := Squeeze(p, body, rq.compress);
    h' := h.(flags := h.flags.(compressed := sq.compressed, encrypted := rq.encrypt));
    payload := Payload(p, sq, rq.encrypt, sum);
    HeaderSize(p, h', |payload|, sum, sq.rate);
  }

  /** Every choice of compression, encryption and checksum, with or without the compression fall-back,
      whatever flags earlier use left in the header object: the reader delivers the body, reports one
      packet, clears both flags, and leaves what follows untouched. */
  lemma RoundTrip(p: Prims, h: Head, body: seq<byte>, rq: Request, rest: seq<byte>)
    requires Lawful(p) && Suits(p, h) && h.flags.Valid() && 0 < |body| <= MAX_BODY && 0 < p.doRead(body) <= |body|
    requires Pack(p, h, body, rq).Some?
    requires LengthFits(h.flags, |Pack(p, h, body, rq).value.0|)
    ensures var packet := Pack(p, h, body, rq).value.0;
            Unpack(p, packet + rest) ==
              Unpacked(Done(|packet|), rest, h.flags.(compressed := false, encrypted := false), Some(body))
  {
    hide Unpack, UnpackBody, WriteHeader, Pack;
    var sum, sq, h', payload := PackShape(p, h, body, rq);
    PayloadSize(p, body, rq, sum);
    HeaderRoundTrip(p, h', payload, sum, sq.rate, rest);
    BodyRoundTrip(p, h'.flags, h.info, body, rq, rest);
  }

  /** An empty body is the exception: it is accepted, with nothing delivered, exactly when compression was
      not asked for or produced nothing. */
  lemma EmptyBodyIff(p: Prims, h: Head, rq: Request, rest: seq<byte>)
    requires Lawful(p) && Suits(p, h) && h.flags.Valid() && Pack(p, h, [], rq).Some?
    requires LengthFits(h.flags, |Pack(p, h, [], rq).value.0|)
    ensures var u := Unpack(p, Pack(p, h, [], rq).value.0 + rest);
            && u.rest == rest && u.delivered == None
            && (u.code.Done? <==> !rq.compress || p.compress([]) == [])
  {
    var sum, sq, h', payload := PackShape(p, h, [], rq);
    HeaderRoundTrip(p, h', payload, sum, sq.rate, rest);
    if sq.compressed {
      var size := |payload| + HeadSize(p);
      SpaceBound(0, |sq.payload|, HeadSize(p));
      assert p.decompress(sq.payload, Reservation(sq.rate, size)) == Some([]);
    }
  }

  // Many packets in one stream.

  datatype Job = Job(head: Head, body: seq<byte>, request: Request)

  ghost predicate Sendable(p: Prims, j: Job) {
    && Suits(p, j.head) && j.head.flags.Valid() && 0 < |j.body| <= MAX_BODY && 0 < p.doRead(j.body) <= |j.body|
    && Pack(p, j.head, j.body, j.request).Some?
    && LengthFits(j.head.flags, |Pack(p, j.head, j.body, j.request).value.0|)
  }

  ghost function PacketOf(p: Prims, j: Job): seq<byte>
    requires Sendable(p, j)
  {
    Pack(p, j.head, j.body, j.request).value.0
  }

  ghost function Packets(p: Prims, jobs: seq<Job>): seq<seq<byte>>
    requires forall i :: 0 <= i < |jobs| ==> Sendable(p, jobs[i])
  {
    seq(|jobs|, i requires 0 <= i < |jobs| => PacketOf(p, jobs[i]))
  }

  function Bodies(jobs: seq<Job>): seq<Option<seq<byte>>> {
    seq(|jobs|, i requires 0 <= i < |jobs| => Some(jobs[i].body))
  }

  function Join(packets: seq<seq<byte>>): seq<byte> {
    if packets == [] then [] else packets[0] + Join(packets[1..])
  }

  /** What n successive reads deliver, and the stream behind them. */
  function ReadMany<T>(read: seq<byte> -> (T, seq<byte>), n: nat, bs: seq<byte>): (seq<T>, seq<byte>)
    decreases n
  {
    if n == 0 then ([], bs)
    else
      var (x, rest) := read(bs);
      var (xs, after) := ReadMany(read, n - 1, rest);
      ([x] + xs, after)
  }

  lemma {:induction false} ReadsInOrder<T>(read: seq<byte> -> (T, seq<byte>), packets: seq<seq<byte>>, xs: seq<T>, rest: seq<byte>)
    requires |packets| == |xs|
    requires forall i, later :: 0 <= i < |packets| ==> read(packets[i] + later) == (xs[i], later)
    ensures ReadMany(read, |packets|, Join(packets) + rest) == (xs, rest)
    decreases |packets|
  {
    if packets == [] {
      assert Join(packets) + rest == rest;
    } else {
      var later := Join(packets[1..]) + rest;
      assert Join(packets) + rest == packets[0] + later;
      forall i, more | 0 <= i < |packets[1..]|
        ensures read(packets[1..][i] + more) == (xs[1..][i], more)
      {
        assert packets[1..][i] == packets[i + 1];
      }
      ReadsInOrder(read, packets[1..], xs[1..], rest);
      assert [xs[0]] + xs[1..] == xs;
    }
  }

  function Receive(p: Prims): seq<byte> -> (Option<seq<byte>>, seq<byte>) {
    bs => (Unpack(p, bs).delivered, Unpack(p, bs).rest)
  }

  /** Packets written one behind the other are read back in order, each by one call. */
  lemma StreamOfPackets(p: Prims, jobs: seq<Job>, rest: seq<byte>)
    requires Lawful(p) && forall i :: 0 <= i < |jobs| ==> Sendable(p, jobs[i])
    ensures ReadMany(Receive(p), |jobs|, Join(Packets(p, jobs)) + rest) == (Bodies(jobs), rest)
  {
    forall i, later | 0 <= i < |jobs|
      ensures Receive(p)(Packets(p, jobs)[i] + later) == (Bodies(jobs)[i], later)
    {
      RoundTrip(p, jobs[i].head, jobs[i].body, jobs[i].request, later);
    }
    ReadsInOrder(Receive(p), Packets(p, jobs), Bodies(jobs), rest);
  }
}
