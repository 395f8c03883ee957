/**
  Concrete runs of the model: a device that refuses three connects, a cycle
  over two 32-bit float tags, a cycle whose second read fails, the register
  pair of pi, the IntHolding statement as it is written, and a cycle over
  the sample configuration's IntHolding tag under both the as-written and
  the corrected binding.
 */
module Scenarios {
  import opened Config
  import opened Codec
  import opened Storage
  import opened Modbus
  import opened PollSpec

  /** A thread that has not connected yet. */
  function Fresh(): PollState
  {
    PollState(None, 0, 0, [], 0, [], false, None)
  }

  /** The endpoint refuses the first three connect attempts. */
  function LateServer(): Oracle
  {
    Oracle(a => a >= 3, k => Failed, k => true)
  }

  /** The outer loop stops at the fourth attempt, which opens the session,
      and nothing is read or stored while connecting. */
  lemma RetryUntilAccepted()
    ensures var r := Retry(LateServer(), 10, Fresh());
      && r.connectCount == 4
      && r.session == Some(Session(3))
      && r.readCount == 0 && r.log == [] && |r.trace| == 4
  {
    var o, st := LateServer(), Fresh();
    RetryFirstSuccess(o, 10, st);
    var r := Retry(o, 10, st);
  }

  /** The pair of registers 0x4049, 0x0FDB holds the bits of pi as an f32. */
  lemma PiRegisters()
    ensures U16ToFloat(0x4049, 0x0FDB) == FromBits(0x40490FDB)
  {
  }

  const flow := ModbusTag("flow", "inlet flow", 100, RealHolding)
  const pressure := ModbusTag("pressure", "inlet pressure", 102, RealHolding)

  /** Replies: the registers of 1.0 for the first tag and of 2.0 for the
      second, except a transport error for the fourth read; every connect and
      every INSERT succeeds. */
  function Plant(): Oracle
  {
    Oracle(a => true,
           k => if k == 3 then Failed
                else if k == 1 || k == 5 then Registers([0x4000, 0x0000])
                else Registers([0x3F80, 0x0000]),
           k => true)
  }

  /** A thread connected through attempt 0. */
  function Connected(): PollState
  {
    PollState(Some(Session(0)), 1, 0, [ConnectCall(0, true)], 0, [], false, None)
  }

  lemma OneAndTwo()
    ensures U16ToFloat(0x3F80, 0x0000) == FromBits(0x3F800000)
    ensures U16ToFloat(0x4000, 0x0000) == FromBits(0x40000000)
  {
  }

  /** A cycle over two RealHolding tags stores one row per tag, in
      configured order, both under the cycle's timestamp. */
  lemma CycleStoresBothTags()
    ensures var r := Cycle(Plant(), AsWritten, "plant", [flow, pressure], 1000, Connected());
      && r.panic.None?
      && r.log == [Entry("plant", SampleRow(1000, flow, FromBits(0x3F800000))),
                   Entry("plant", SampleRow(1000, pressure, FromBits(0x40000000)))]
      && r.readCount == 2 && r.connectCount == 1
      && r.session == Some(Session(0)) && !r.poisoned
  {
    var o, st := Plant(), Connected();
    OneAndTwo();
    var st1 := PollTag(o, AsWritten, "plant", 1000, flow, st);
    assert st1.log == [Entry("plant", SampleRow(1000, flow, FromBits(0x3F800000)))];
    var st2 := PollTag(o, AsWritten, "plant", 1000, pressure, st1);
    assert st2.log == st1.log + [Entry("plant", SampleRow(1000, pressure, FromBits(0x40000000)))];
    assert Visit(o, AsWritten, "plant", 1000, [flow, pressure], st) == Visit(o, AsWritten, "plant", 1000, [pressure], st1);
    assert [flow, pressure][1..] == [pressure] && [pressure][1..] == [];
  }

  /** In the next cycle the read of the second tag fails: the first tag's row
      is stored, one reconnect replaces the session, and the cycle ends
      without a panic. */
  lemma FailedReadReconnectsOnce(st: PollState)
    requires st == Cycle(Plant(), AsWritten, "plant", [flow, pressure], 1000, Connected())
    ensures var r := Cycle(Plant(), AsWritten, "plant", [flow, pressure], 1010, st);
      && r.panic.None?
      && r.log == st.log + [Entry("plant", SampleRow(1010, flow, FromBits(0x3F800000)))]
      && r.connectCount == st.connectCount + 1 && r.readCount == st.readCount + 2
      && r.session == Some(Session(1)) && !r.poisoned
  {
    var o := Plant();
    CycleStoresBothTags();
    OneAndTwo();
    var st1 := PollTag(o, AsWritten, "plant", 1010, flow, st);
    assert st1.log == st.log + [Entry("plant", SampleRow(1010, flow, FromBits(0x3F800000)))];
    var st2 := PollTag(o, AsWritten, "plant", 1010, pressure, st1);
    assert st2 == Connect(o, st1.(readCount := 4, trace := st1.trace + [ReadCall(Session(0), Request(102, 2), Failed)]));
    assert Visit(o, AsWritten, "plant", 1010, [flow, pressure], st) == Visit(o, AsWritten, "plant", 1010, [pressure], st1);
    assert [flow, pressure][1..] == [pressure] && [pressure][1..] == [];
  }

  /** The cycle after that records both tags again, through the new session. */
  lemma ThirdCycleRecordsBoth(st1: PollState, st2: PollState)
    requires st1 == Cycle(Plant(), AsWritten, "plant", [flow, pressure], 1000, Connected())
    requires st2 == Cycle(Plant(), AsWritten, "plant", [flow, pressure], 1010, st1)
    ensures var r := Cycle(Plant(), AsWritten, "plant", [flow, pressure], 1020, st2);
      && r.panic.None?
      && r.log == st2.log + [Entry("plant", SampleRow(1020, flow, FromBits(0x3F800000))),
                             Entry("plant", SampleRow(1020, pressure, FromBits(0x40000000)))]
      && r.trace[|st2.trace|..] == [ReadCall(Session(1), Request(100, 2), Registers([0x3F80, 0x0000])),
                                    ReadCall(Session(1), Request(102, 2), Registers([0x4000, 0x0000]))]
  {
    var o := Plant();
    CycleStoresBothTags();
    FailedReadReconnectsOnce(st1);
    assert st2.readCount == 4 && st2.session == Some(Session(1)) && st2.panic.None? && !st2.poisoned;
    OneAndTwo();
    var st3 := PollTag(o, AsWritten, "plant", 1020, flow, st2);
    assert st3.log == st2.log + [Entry("plant", SampleRow(1020, flow, FromBits(0x3F800000)))];
    var st4 := PollTag(o, AsWritten, "plant", 1020, pressure, st3);
    assert st4.log == st3.log + [Entry("plant", SampleRow(1020, pressure, FromBits(0x40000000)))];
    assert Visit(o, AsWritten, "plant", 1020, [flow, pressure], st2) == Visit(o, AsWritten, "plant", 1020, [pressure], st3);
    assert [flow, pressure][1..] == [pressure] && [pressure][1..] == [];
    assert st4.trace[|st2.trace|..] == st4.trace[|st2.trace|..|st3.trace|] + st4.trace[|st3.trace|..];
  }

  /** The largest register widens to 65535, not to -1. */
  lemma WidenIsUnsigned()
    ensures Widen(0xFFFF) == FromU16(65535)
  {
  }

  /** As written, every IntHolding read that returns its register makes the
      INSERT fail, the thread panic and the shared lock poisoned; nothing is
      stored. */
  lemma IntHoldingAsWrittenPanics(o: Oracle, device: string, timestamp: int, tag: ModbusTag, value: F32, st: PollState)
    ensures var r := Record(o, device, IntHoldingParamsAsWritten(device, timestamp, tag, value), st);
      r.panic == Some(InsertUnwrapped) && r.poisoned && r.log == st.log && r.writeCount == st.writeCount
  {
  }

  /** The tag of the sample configuration the program writes out. */
  const pit := ModbusTag("PIT-1001", "Nothing", 0, IntHolding)

  /** A device that answers every read with the single register 7. */
  function Seven(): Oracle
  {
    Oracle(a => true, k => Registers([7]), k => true)
  }

  /** As written, the first cycle over the sample configuration kills the
      thread and poisons the lock without storing anything; with the
      corrected binding it stores the value 7. */
  lemma SampleConfigCycle()
    ensures var r := Cycle(Seven(), AsWritten, "PLC_2", [pit], 1000, Connected());
      r.panic == Some(InsertUnwrapped) && r.poisoned && r.log == []
    ensures var r := Cycle(Seven(), Corrected, "PLC_2", [pit], 1000, Connected());
      r.panic.None? && !r.poisoned && r.log == [Entry("PLC_2", SampleRow(1000, pit, FromU16(7)))]
  {
    var o, st := Seven(), Connected();
    assert [pit][1..] == [];
    IntHoldingReadOutcome(o, AsWritten, "PLC_2", 1000, pit, st);
    var rA := PollTag(o, AsWritten, "PLC_2", 1000, pit, st);
    assert Visit(o, AsWritten, "PLC_2", 1000, [pit], st) == Visit(o, AsWritten, "PLC_2", 1000, [], rA);
    assert Visit(o, AsWritten, "PLC_2", 1000, [], rA) == rA;
    IntHoldingReadOutcome(o, Corrected, "PLC_2", 1000, pit, st);
    assert Widen(7) == FromU16(7);
    var rC := PollTag(o, Corrected, "PLC_2", 1000, pit, st);
    assert Visit(o, Corrected, "PLC_2", 1000, [pit], st) == Visit(o, Corrected, "PLC_2", 1000, [], rC);
    assert Visit(o, Corrected, "PLC_2", 1000, [], rC) == rC;
  }
}
