/** Concrete parameters that meet every law the framing asks of them: data stored behind a marker byte, a
    shifting cipher, the length as digest, and a header of two own bytes, checksum and rate. */
module PduSample {
  import opened Bytes
  import opened PacketFlags
  import opened Pdu

  function Store(b: seq<byte>): seq<byte> { [1] + b }

  function Restore(c: seq<byte>, space: int): Option<seq<byte>> {
    if c == [] || |c| - 1 > space then None else Some(c[1..])
  }

  function Turn(b: byte, d: byte): byte { if b + d < 256 then b + d else b + d - 256 }

  function TurnBack(b: byte, d: byte): byte { if b >= d then b - d else b - d + 256 }

  function Shift(b: seq<byte>, k: nat): (r: seq<byte>)
    ensures |r| == |b|
    ensures forall i :: 0 <= i < |b| ==> r[i] == Turn(b[i], k % 256)
  {
    seq(|b|, i requires 0 <= i < |b| => Turn(b[i], k % 256))
  }

  function Unshift(b: seq<byte>, k: nat): (r: seq<byte>)
    ensures |r| == |b|
    ensures forall i :: 0 <= i < |b| ==> r[i] == TurnBack(b[i], k % 256)
  {
    seq(|b|, i requires 0 <= i < |b| => TurnBack(b[i], k % 256))
  }

  function WriteFields(t: Tail): seq<byte> {
    if t.NoTail? then [] else t.info + (Little(4, t.checksum) + [t.rate % 256])
  }

  function ReadFields(bs: seq<byte>): Tail {
    if |bs| != 7 then NoTail else Tail(bs[..2], FromLittle(bs[2..6]), bs[6])
  }

  function Sample(): Prims {
    Prims(Store, Restore, Shift, Unshift, b => |b| % 0x1_0000_0000, WriteFields, ReadFields, 7, 2, b => |b|)
  }

  lemma ShiftBack(b: seq<byte>, k: nat)
    ensures Unshift(Shift(b, k), k) == b
  {
    hide Shift, Unshift;
    assert forall i :: 0 <= i < |b| ==> Unshift(Shift(b, k), k)[i] == b[i];
  }

  lemma FieldsRoundTrip(t: Tail)
    requires Carries(Sample(), t)
    ensures |WriteFields(t)| == 7 && ReadFields(WriteFields(t)) == t
  {
    Pow256Values();
    var bs := WriteFields(t);
    assert bs[..2] == t.info && bs[2..6] == Little(4, t.checksum);
    LittleRoundTrip(4, t.checksum);
  }

  lemma FieldsBound(bs: seq<byte>)
    requires ReadFields(bs).Tail?
    ensures Carries(Sample(), ReadFields(bs))
  {
    Pow256Values();
    FromLittleBound(bs[2..6]);
  }

  lemma SampleIsLawful()
    ensures Lawful(Sample())
  {
    var p := Sample();
    forall b, k
      ensures p.decrypt(p.encrypt(b, k), k) == b
    {
      ShiftBack(b, k);
    }
    forall t | Carries(p, t)
      ensures |p.writeTail(t)| == p.tailSize && p.readTail(p.writeTail(t)) == t
    {
      FieldsRoundTrip(t);
    }
    forall bs | |bs| == p.tailSize && p.readTail(bs).Tail?
      ensures Carries(p, p.readTail(bs))
    {
      FieldsBound(bs);
    }
  }

  lemma SampleSqueeze(body: seq<byte>, wanted: bool)
    ensures var sq := Squeeze(Sample(), body, wanted); sq.Packed? && |sq.payload| <= |body| + 1
  {
    assert |Store(body)| == |body| + 1 && Rate(|body|, |body| + 1) == 2;
  }

  lemma SamplePayload(sq: Packed, encrypt: bool, sum: nat)
    requires sq.Packed?
    ensures |Payload(Sample(), sq, encrypt, sum)| == |sq.payload|
  {
  }

  /** Under these parameters every body that leaves room for the header in 16 bits can be sent in every way. */
  lemma SampleSends(h: Head, body: seq<byte>, rq: Request)
    requires Suits(Sample(), h) && h.flags.Valid() && 0 < |body| < 0xff00
    ensures Sendable(Sample(), Job(h, body, rq))
  {
    hide Lawful, Squeeze, Payload, WriteHeader, Store, Restore, Shift, Unshift, WriteFields, ReadFields;
    SampleIsLawful();
    SampleSqueeze(body, rq.compress);
    var sum, sq, h', payload := PackShape(Sample(), h, body, rq);
    SamplePayload(sq, rq.encrypt, sum);
  }

  /** An empty body can be packed in every way, and is refused exactly when it was compressed. */
  lemma SampleEmptyBody(h: Head, rq: Request, rest: seq<byte>)
    requires Suits(Sample(), h) && h.flags.Valid()
    ensures Pack(Sample(), h, [], rq).Some?
    ensures Unpack(Sample(), Pack(Sample(), h, [], rq).value.0 + rest).code.Done? <==> !rq.compress
  {
    hide Lawful, Squeeze, Payload, WriteHeader, Restore, Shift, Unshift, WriteFields, ReadFields, Unpack;
    SampleIsLawful();
    SampleSqueeze([], rq.compress);
    var sum, sq, h', payload := PackShape(Sample(), h, [], rq);
    SamplePayload(sq, rq.encrypt, sum);
    EmptyBodyIff(Sample(), h, rq, rest);
  }
}
