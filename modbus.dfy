/**
  The Modbus TCP endpoint of one device, seen from the poll loop: the outcome
  of every `connect_with_timeout` and every `read_holding_registers` call is
  given by an oracle indexed by the number of such calls made so far.
 */
module Modbus {
  import opened Config

  /** A live client context; `id` is the connect attempt that opened it. */
  datatype Session = Session(id: nat)

  /** The answer to `read_holding_registers`: a transport error (the outer
      `Err`), a Modbus exception response (the inner `Err`), or the registers. */
  datatype ReadReply = Failed | Exception(code: nat) | Registers(words: seq<bv16>)

  class Endpoint {
    const connectOk: nat -> bool
    const reply: nat -> ReadReply
    var connectCount: nat
    var readCount: nat

    constructor (connectOk: nat -> bool, reply: nat -> ReadReply)
      ensures this.connectOk == connectOk && this.reply == reply
      ensures connectCount == 0 && readCount == 0
    {
      this.connectOk := connectOk;
      this.reply := reply;
      connectCount := 0;
      readCount := 0;
    }

    /** `connect_with_timeout(socket_address, 5 s)`. */
    method ConnectWithTimeout() returns (session: Option<Session>)
      modifies this`connectCount
      ensures connectCount == old(connectCount) + 1
      ensures session == if connectOk(old(connectCount)) then Some(Session(old(connectCount))) else None
    {
      session := if connectOk(connectCount) then Some(Session(connectCount)) else None;
      connectCount := connectCount + 1;
    }

    /** `ctx.read_holding_registers(address, count)` on a session. */
    method ReadHoldingRegisters(session: Session, request: Request) returns (r: ReadReply)
      modifies this`readCount
      ensures readCount == old(readCount) + 1
      ensures r == reply(old(readCount))
    {
      r := reply(readCount);
      readCount := readCount + 1;
    }
  }
}
