/**
  The poll thread of one Modbus TCP device (`poll_modbus_tcp`) as it runs:
  the session it holds, the endpoint it calls and the shared database it
  writes to. Every method is proved to move the thread, the endpoint and the
  database exactly as the reference functions of `PollSpec` say, so the
  properties proved there hold of the running loop.
 */
module Poller {
  import opened Config
  import opened Codec
  import opened Storage
  import opened Modbus
  import opened PollSpec

  class ModbusTcpPoller {
    /** The device's name, which is also the name of its table. */
    const deviceName: string
    /** The configured tags, in the order of the configuration file. */
    const tags: seq<ModbusTag>
    const endpoint: Endpoint
    const db: Database
    /** The parameters the IntHolding branch binds: `AsWritten` runs the code
        as it is, `Corrected` the intended four-value binding. */
    const binding: Binding
    /** The client context `ctx`, once a connect has succeeded. */
    var session: Option<Session>
    /** Set when the thread has panicked; it then does nothing more. */
    var panic: Option<Panic>
    /** The endpoint calls made so far, with their outcomes. */
    ghost var trace: seq<Call>

    /** The outcomes the endpoint and the database will give. */
    ghost function World(): Oracle
    {
      Oracle(endpoint.connectOk, endpoint.reply, db.writeOk)
    }

    /** The thread, its endpoint and the database, as `PollSpec` sees them. */
    ghost function State(): PollState
      reads this, endpoint, db
    {
      PollState(session, endpoint.connectCount, endpoint.readCount, trace,
                db.writeCount, db.log, db.poisoned, panic)
    }

    /** A thread that has not connected yet. */
    constructor (deviceName: string, tags: seq<ModbusTag>, endpoint: Endpoint, db: Database, binding: Binding)
      ensures this.deviceName == deviceName && this.tags == tags && this.binding == binding
      ensures this.endpoint == endpoint && this.db == db
      ensures session.None? && panic.None? && trace == []
    {
      this.deviceName := deviceName;
      this.tags := tags;
      this.endpoint := endpoint;
      this.db := db;
      this.binding := binding;
      session := None;
      panic := None;
      trace := [];
    }

    /** One `connect_with_timeout`; a new context replaces the old one. */
    method Connect()
      modifies this, endpoint
      ensures State() == PollSpec.Connect(World(), old(State()))
    {
      var attempt := endpoint.connectCount;
      var s := endpoint.ConnectWithTimeout();
      trace := trace + [ConnectCall(attempt, s.Some?)];
      if s.Some? {
        session := s;
      }
    }

    /** A panic while the database lock is held. */
    method Abort(reason: Panic)
      modifies this, db
      ensures State() == PollSpec.Abort(old(State()), reason)
    {
      panic := Some(reason);
      db.Poison();
    }

    /** `conn.execute(...).unwrap()`. */
    method Record(params: seq<SqlValue>)
      modifies this, db
      ensures State() == PollSpec.Record(World(), deviceName, params, old(State()))
    {
      var ok := db.Execute(deviceName, params);
      if !ok {
        Abort(InsertUnwrapped);
      }
    }

    /** Read one holding-register tag and record it, or reconnect once. */
    method ReadHolding(tag: ModbusTag, timestamp: int)
      requires session.Some? && RequestFor(tag).Some?
      modifies this, endpoint, db
      ensures State() == PollSpec.ReadHolding(World(), binding, deviceName, timestamp, tag, old(State()))
    {
      var request := RequestFor(tag).value;
      var reply := endpoint.ReadHoldingRegisters(session.value, request);
      trace := trace + [ReadCall(session.value, request, reply)];
      match reply
      case Failed =>
        Connect();
      case Exception(_) =>
        Abort(ExceptionUnwrapped);
      case Registers(words) =>
        if |words| < request.count {
          Abort(IndexOutOfBounds);
        } else {
          Record(InsertParams(binding, deviceName, timestamp, tag, Decode(tag.value, words)));
        }
    }

    /** One iteration of the `for tag in tags` loop. */
    method PollTag(tag: ModbusTag, timestamp: int)
      requires session.Some?
      modifies this, endpoint, db
      ensures State() == PollSpec.PollTag(World(), binding, deviceName, timestamp, tag, old(State()))
    {
      if RequestFor(tag).Some? {
        ReadHolding(tag, timestamp);
      }
    }

    /** One pass of the inner loop, with `now` the clock reading it takes. */
    method Cycle(now: int)
      requires session.Some? && panic.None?
      modifies this, endpoint, db
      ensures State() == PollSpec.Cycle(World(), binding, deviceName, tags, now, old(State()))
    {
      var ok := db.Lock();
      if !ok {
        return;
      }
      var i := 0;
      while i < |tags| && panic.None?
        invariant 0 <= i <= |tags| && session.Some?
        invariant Visit(World(), binding, deviceName, now, tags[i..], State())
               == Visit(World(), binding, deviceName, now, tags, old(State()))
        decreases |tags| - i
      {
        assert tags[i..][1..] == tags[i + 1..];
        PollTag(tags[i], now);
        i := i + 1;
      }
    }

    /** The outer loop: connect attempts until one succeeds, at most `fuel` of them. */
    method AcquireSession(fuel: nat)
      requires session.None?
      modifies this, endpoint
      ensures State() == Retry(World(), fuel, old(State()))
    {
      var n := fuel;
      while n > 0 && session.None?
        invariant (if session.None? then Retry(World(), n, State()) else State())
               == Retry(World(), fuel, old(State()))
        decreases n
      {
        Connect();
        n := n - 1;
      }
    }

    /** `poll_modbus_tcp`: connect, then one cycle per clock reading until a panic. */
    method Run(fuel: nat, clocks: seq<int>)
      requires session.None? && panic.None?
      modifies this, endpoint, db
      ensures State() == Poll(World(), binding, deviceName, tags, fuel, clocks, old(State()))
    {
      AcquireSession(fuel);
      if session.None? {
        return;
      }
      ghost var connected := State();
      var k := 0;
      while k < |clocks| && panic.None?
        invariant 0 <= k <= |clocks| && session.Some?
        invariant Cycles(World(), binding, deviceName, tags, clocks[k..], State())
               == Cycles(World(), binding, deviceName, tags, clocks, connected)
        decreases |clocks| - k
      {
        assert clocks[k..][1..] == clocks[k + 1..];
        Cycle(clocks[k]);
        k := k + 1;
      }
    }
  }
}
