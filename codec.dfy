/**
  The register codec: turning one or two raw 16-bit holding registers into
  the value that is stored for a tag.
 */
module Codec {
  import opened Config

  /** A binary32 value as it is bound into the database: either the float
      whose bit pattern is `bits`, or the unsigned integer `n` converted with
      `as f32` (every value below 2^16 converts exactly). Float arithmetic is
      never needed by the poll loop, so the value is kept in this form. */
  datatype F32 = FromBits(bits: bv32) | FromU16(n: nat)

  /** Byte order of the host that runs the logger (x86-64 and AArch64 hosts are
      little-endian). U16ToFloat does not depend on it. */
  const HostLittleEndian := true

  /** The high half of a 32-bit word. */
  function High(w: bv32): bv16
  {
    (w >> 16) as bv16
  }

  /** The low half of a 32-bit word. */
  function Low(w: bv32): bv16
  {
    (w & 0xFFFF) as bv16
  }

  /** The 32-bit word `(reg1 << 16) | reg2`: the first register is the high
      half and the second the low half; as a number it is `reg1 * 65536 + reg2`. */
  function Word(reg1: bv16, reg2: bv16): (w: bv32)
    ensures High(w) == reg1 && Low(w) == reg2
    ensures w as int == reg1 as int * 0x1_0000 + reg2 as int
  {
    WordHalves(reg1, reg2);
    WordValue(reg1, reg2);
    (reg1 as bv32 << 16) | reg2 as bv32
  }

  lemma WordHalves(reg1: bv16, reg2: bv16)
    ensures High((reg1 as bv32 << 16) | reg2 as bv32) == reg1
    ensures Low((reg1 as bv32 << 16) | reg2 as bv32) == reg2
  {
  }

  lemma WordValue(reg1: bv16, reg2: bv16)
    ensures ((reg1 as bv32 << 16) | reg2 as bv32) as int == reg1 as int * 0x1_0000 + reg2 as int
  {
  }

  /** The two registers a word is assembled from. */
  function Split(w: bv32): (halves: (bv16, bv16))
    ensures Word(halves.0, halves.1) == w
  {
    (High(w), Low(w))
  }

  /** Distinct register pairs assemble to distinct words. */
  lemma WordInjective(reg1: bv16, reg2: bv16, reg1': bv16, reg2': bv16)
    ensures Word(reg1, reg2) == Word(reg1', reg2') <==> reg1 == reg1' && reg2 == reg2'
  {
  }

  /** `to_ne_bytes`: the four bytes of a word in the host's byte order. */
  function ToNeBytes(w: bv32, littleEndian: bool): (bytes: seq<bv8>)
    ensures |bytes| == 4
  {
    var big := [(w >> 24) as bv8, ((w >> 16) & 0xFF) as bv8, ((w >> 8) & 0xFF) as bv8, (w & 0xFF) as bv8];
    if littleEndian then [big[3], big[2], big[1], big[0]] else big
  }

  /** Little-endian bytes hold the low half of the word first, each half
      low byte first; big-endian bytes are the same bytes reversed. */
  lemma ToNeBytesOrder(w: bv32)
    ensures var le := ToNeBytes(w, true);
      && Low(w) == (le[1] as bv16 << 8) | le[0] as bv16
      && High(w) == (le[3] as bv16 << 8) | le[2] as bv16
    ensures var le, be := ToNeBytes(w, true), ToNeBytes(w, false);
      be == [le[3], le[2], le[1], le[0]]
  {
  }

  /** `from_ne_bytes`: the word whose bytes in the host's byte order are `bytes`. */
  function FromNeBytes(bytes: seq<bv8>, littleEndian: bool): (w: bv32)
    requires |bytes| == 4
    ensures ToNeBytes(w, littleEndian) == bytes
  {
    var big := if littleEndian then [bytes[3], bytes[2], bytes[1], bytes[0]] else bytes;
    (big[0] as bv32 << 24) | (big[1] as bv32 << 16) | (big[2] as bv32 << 8) | big[3] as bv32
  }

  /** Reading back the native bytes of a word gives the word, in either byte order. */
  lemma NeBytesRoundTrip(w: bv32, littleEndian: bool)
    ensures FromNeBytes(ToNeBytes(w, littleEndian), littleEndian) == w
  {
  }

  /** `u16_to_float`: the binary32 value whose bit pattern is the word built
      from `reg1` (high half) and `reg2` (low half). */
  function U16ToFloat(reg1: bv16, reg2: bv16): (f: F32)
    ensures f == FromBits(Word(reg1, reg2))
  {
    NeBytesRoundTrip(Word(reg1, reg2), HostLittleEndian);
    FromBits(FromNeBytes(ToNeBytes(Word(reg1, reg2), HostLittleEndian), HostLittleEndian))
  }

  /** `reg as f32` for an unsigned register: the register's value, never negative. */
  function Widen(reg: bv16): (f: F32)
    ensures f.FromU16? && f.n < 0x1_0000 && f.n as bv16 == reg
  {
    WidenValue(reg);
    FromU16(reg as nat)
  }

  lemma WidenValue(reg: bv16)
    ensures reg as nat < 0x1_0000 && (reg as nat) as bv16 == reg
  {
  }

  /** The value stored for a holding-register tag, given the registers read
      for it. */
  function Decode(kind: ModbusValueType, words: seq<bv16>): (f: F32)
    requires kind.IntHolding? || kind.RealHolding?
    requires |words| >= RegisterCount(kind)
    ensures f.FromU16? <==> kind.IntHolding?
  {
    if kind.IntHolding? then Widen(words[0]) else U16ToFloat(words[0], words[1])
  }

  /** For IntHolding the stored value is `words[0]` widened, never negative;
      for RealHolding it is the float whose bit pattern has `words[0]` (the
      register at the tag's address) as its high half and `words[1]` as its
      low half. */
  lemma DecodeRegisters(kind: ModbusValueType, words: seq<bv16>)
    requires kind.IntHolding? || kind.RealHolding?
    requires |words| >= RegisterCount(kind)
    ensures var f := Decode(kind, words);
      && (kind.IntHolding? ==> f.FromU16? && f.n < 0x1_0000 && f.n as bv16 == words[0])
      && (kind.RealHolding? ==> f.FromBits? && High(f.bits) == words[0] && Low(f.bits) == words[1])
  {
  }
}
