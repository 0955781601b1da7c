/** The 16-bit flag word of a packet header, taken apart at the three bits the framing looks at:
    bit 0 (compressed), bit 2 (encrypted) and bit 6 (the extension byte holds flags, not length). */
module PacketFlags {

  datatype Flags = Flags(compressed: bool, bit1: bool, encrypted: bool, bits3to5: nat, extensionIsFlags: bool, bits7up: nat) {

    predicate Valid() { bits3to5 < 8 && bits7up < 512 }

    function Word(): (w: nat)
      ensures Valid() ==> w < 0x1_0000
    {
      Bit(compressed) + 2 * Bit(bit1) + 4 * Bit(encrypted) + 8 * bits3to5 + 64 * Bit(extensionIsFlags) + 128 * bits7up
    }
  }

  function Bit(b: bool): nat { if b then 1 else 0 }

  function FromWord(w: nat): Flags {
    Flags(w % 2 == 1, w / 2 % 2 == 1, w / 4 % 2 == 1, w / 8 % 8, w / 64 % 2 == 1, w / 128)
  }

  lemma WordRoundTrip(f: Flags)
    requires f.Valid()
    ensures FromWord(f.Word()) == f
  {
    var w := f.Word();
    assert w / 2 == Bit(f.bit1) + 2 * Bit(f.encrypted) + 4 * f.bits3to5 + 32 * Bit(f.extensionIsFlags) + 64 * f.bits7up;
    assert w / 4 == Bit(f.encrypted) + 2 * f.bits3to5 + 16 * Bit(f.extensionIsFlags) + 32 * f.bits7up;
    assert w / 8 == f.bits3to5 + 8 * Bit(f.extensionIsFlags) + 16 * f.bits7up;
    assert w / 64 == Bit(f.extensionIsFlags) + 2 * f.bits7up;
    assert w / 128 == f.bits7up;
  }
}
