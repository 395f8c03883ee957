/**
  The configuration data model of a Modbus TCP device: its tags and the way
  each tag's registers are interpreted. Loaded once and never mutated.
 */
module Config {

  datatype Option<+T> = None | Some(value: T)

  /** A Modbus register address: an unsigned 16-bit integer. */
  type u16 = x: int | 0 <= x < 0x1_0000

  /** How the registers behind a tag are interpreted. */
  datatype ModbusValueType = IntInput | RealInput | IntHolding | RealHolding | Coil

  /** One named, addressable data point of a device. */
  datatype ModbusTag = ModbusTag(name: string, description: string, address: u16, value: ModbusValueType)

  /** A `read_holding_registers(address, count)` request. */
  datatype Request = Request(address: u16, count: nat)

  /** Number of holding registers the poll loop reads for a tag of this kind;
      0 for the kinds it never reads. */
  function RegisterCount(kind: ModbusValueType): nat
  {
    match kind
    case IntHolding => 1
    case RealHolding => 2
    case _ => 0
  }

  /** The read the poll loop issues for a tag, or None when the tag is skipped. */
  function RequestFor(tag: ModbusTag): Option<Request>
  {
    if RegisterCount(tag.value) == 0 then None
    else Some(Request(tag.address, RegisterCount(tag.value)))
  }

  /** The tags the poll loop reads, in configured order. */
  function Polled(tags: seq<ModbusTag>): seq<ModbusTag>
  {
    if tags == [] then []
    else (if RequestFor(tags[0]).Some? then [tags[0]] else []) + Polled(tags[1..])
  }

  /** The reads the poll loop issues for these tags, in configured order. */
  function Requests(tags: seq<ModbusTag>): seq<Request>
  {
    if tags == [] then []
    else (if RequestFor(tags[0]).Some? then [RequestFor(tags[0]).value] else []) + Requests(tags[1..])
  }

  /** Exactly the holding-register kinds are read: one register at the tag's
      address for IntHolding, two for RealHolding. */
  lemma RequestForKinds(tag: ModbusTag)
    ensures RequestFor(tag).Some? <==> tag.value == IntHolding || tag.value == RealHolding
    ensures tag.value == IntHolding ==> RequestFor(tag) == Some(Request(tag.address, 1))
    ensures tag.value == RealHolding ==> RequestFor(tag) == Some(Request(tag.address, 2))
  {
  }

  /** The reads issued are those of the polled tags, one each, in order. */
  lemma {:induction false} PolledRequests(tags: seq<ModbusTag>)
    ensures |Requests(tags)| == |Polled(tags)| <= |tags|
    ensures forall i :: 0 <= i < |Polled(tags)| ==>
      RequestFor(Polled(tags)[i]).Some? && Requests(tags)[i] == RequestFor(Polled(tags)[i]).value
    decreases |tags|
  {
    if tags != [] {
      PolledRequests(tags[1..]);
    }
  }
}
