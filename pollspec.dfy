/**
  Reference semantics of the poll loop of one Modbus TCP device
  (`poll_modbus_tcp`), as functions over the state it observes and changes,
  and the properties of that loop: the connect-retry phase, the per-tag
  read/record/reconnect step, a cycle over all tags under one timestamp, and
  a run of cycles.
 */
module PollSpec {
  import opened Config
  import opened Codec
  import opened Storage
  import opened Modbus

  /** A call the poll loop made on the endpoint, with its outcome. */
  datatype Call =
    | ConnectCall(attempt: nat, ok: bool)
    | ReadCall(session: Session, request: Request, reply: ReadReply)

  /** Why a poll thread panicked: `res.unwrap()` on a Modbus exception
      response, `res[0]`/`res[1]` past the end of the registers returned, or
      `.unwrap()` on a failed INSERT. */
  datatype Panic = ExceptionUnwrapped | IndexOutOfBounds | InsertUnwrapped

  /** The outside world: the outcome of the k-th connect attempt, the reply
      to the k-th read, and whether the k-th executed INSERT succeeds. */
  datatype Oracle = Oracle(connectOk: nat -> bool, reply: nat -> ReadReply, writeOk: nat -> bool)

  /** The state of one device's poll thread together with the endpoint and
      the shared database it talks to. `trace` lists the endpoint calls made,
      `log` the rows every device has stored; `poisoned` is the shared
      mutex's poison flag and `panic` says whether this thread has died. */
  datatype PollState = PollState(
    session: Option<Session>,
    connectCount: nat,
    readCount: nat,
    trace: seq<Call>,
    writeCount: nat,
    log: seq<Entry>,
    poisoned: bool,
    panic: Option<Panic>)

  /** One `connect_with_timeout`: the session is replaced exactly when it succeeds. */
  function Connect(o: Oracle, st: PollState): PollState
  {
    var ok := o.connectOk(st.connectCount);
    st.(connectCount := st.connectCount + 1,
        trace := st.trace + [ConnectCall(st.connectCount, ok)],
        session := if ok then Some(Session(st.connectCount)) else st.session)
  }

  /** The thread panics while it holds the database lock, which poisons it. */
  function Abort(st: PollState, reason: Panic): (r: PollState)
    ensures r.panic == Some(reason) && r.poisoned
    ensures r == st.(panic := r.panic, poisoned := r.poisoned)
  {
    st.(panic := Some(reason), poisoned := true)
  }

  /** `conn.execute(INSERT ..., params).unwrap()`: the row is stored when
      the parameters bind and the database accepts it; otherwise the thread
      panics under the lock. */
  function Record(o: Oracle, table: string, params: seq<SqlValue>, st: PollState): PollState
  {
    match Bind(params)
    case None => Abort(st, InsertUnwrapped)
    case Some(row) =>
      var st' := st.(writeCount := st.writeCount + 1);
      if o.writeOk(st.writeCount) then st'.(log := st.log + [Entry(table, row)])
      else Abort(st', InsertUnwrapped)
  }

  /** Reading one holding-register tag: on a transport error one reconnect
      attempt; on a Modbus exception or too few registers a panic; otherwise
      the decoded sample is recorded under `ts` with the parameters its
      branch binds. */
  function ReadHolding(o: Oracle, b: Binding, table: string, ts: int, tag: ModbusTag, st: PollState): PollState
    requires st.session.Some? && RequestFor(tag).Some?
  {
    var request := RequestFor(tag).value;
    var reply := o.reply(st.readCount);
    var st' := st.(readCount := st.readCount + 1,
                   trace := st.trace + [ReadCall(st.session.value, request, reply)]);
    match reply
    case Failed => Connect(o, st')
    case Exception(_) => Abort(st', ExceptionUnwrapped)
    case Registers(words) =>
      if |words| < request.count then Abort(st', IndexOutOfBounds)
      else Record(o, table, InsertParams(b, table, ts, tag, Decode(tag.value, words)), st')
  }

  /** One tag of the cycle: holding-register tags are read, the other kinds skipped. */
  function PollTag(o: Oracle, b: Binding, table: string, ts: int, tag: ModbusTag, st: PollState): (r: PollState)
    requires st.session.Some?
    ensures r.session.Some?
    ensures |st.trace| <= |r.trace| && r.trace[..|st.trace|] == st.trace
    ensures |st.log| <= |r.log| && r.log[..|st.log|] == st.log
  {
    if RequestFor(tag).Some? then ReadHolding(o, b, table, ts, tag, st) else st
  }

  /** The tags of one cycle, in configured order, until the thread panics. */
  function Visit(o: Oracle, b: Binding, table: string, ts: int, tags: seq<ModbusTag>, st: PollState): (r: PollState)
    requires st.session.Some?
    ensures r.session.Some?
    ensures |st.trace| <= |r.trace| && r.trace[..|st.trace|] == st.trace
    ensures |st.log| <= |r.log| && r.log[..|st.log|] == st.log
    decreases |tags|
  {
    if tags == [] || st.panic.Some? then st
    else Visit(o, b, table, ts, tags[1..], PollTag(o, b, table, ts, tags[0], st))
  }

  /** One pass of the inner loop: the lock is taken (a poisoned lock skips
      the cycle), one timestamp `now` is captured, and the tags are visited. */
  function Cycle(o: Oracle, b: Binding, table: string, tags: seq<ModbusTag>, now: int, st: PollState): (r: PollState)
    requires st.session.Some?
    ensures r.session.Some?
    ensures |st.trace| <= |r.trace| && r.trace[..|st.trace|] == st.trace
    ensures |st.log| <= |r.log| && r.log[..|st.log|] == st.log
  {
    if st.poisoned then st else Visit(o, b, table, now, tags, st)
  }

  /** Successive cycles, one per clock reading, until the thread panics. */
  function Cycles(o: Oracle, b: Binding, table: string, tags: seq<ModbusTag>, clocks: seq<int>, st: PollState): (r: PollState)
    requires st.session.Some?
    ensures r.session.Some?
    ensures |st.trace| <= |r.trace| && r.trace[..|st.trace|] == st.trace
    ensures |st.log| <= |r.log| && r.log[..|st.log|] == st.log
    decreases |clocks|
  {
    if clocks == [] || st.panic.Some? then st
    else Cycles(o, b, table, tags, clocks[1..], Cycle(o, b, table, tags, clocks[0], st))
  }

  /** The outer loop: connect attempts until one succeeds, at most `fuel` of them. */
  function Retry(o: Oracle, fuel: nat, st: PollState): PollState
    requires st.session.None?
  {
    if fuel == 0 then st
    else
      var st' := Connect(o, st);
      if st'.session.Some? then st' else Retry(o, fuel - 1, st')
  }

  /** `poll_modbus_tcp`: connect, then poll forever (here: once per clock reading). */
  function Poll(o: Oracle, b: Binding, table: string, tags: seq<ModbusTag>, fuel: nat, clocks: seq<int>, st: PollState): (r: PollState)
    requires st.session.None?
    ensures |st.log| <= |r.log| && r.log[..|st.log|] == st.log
    ensures r.session.None? ==> r.readCount == st.readCount && r.log == st.log
  {
    RetryFrame(o, fuel, st);
    var st' := Retry(o, fuel, st);
    if st'.session.Some? then Cycles(o, b, table, tags, clocks, st') else st'
  }

  // ---------------------------------------------------------------------
  // Views of the trace and the log

  /** The read calls of a trace, in order. */
  function Reads(t: seq<Call>): seq<Call>
  {
    if t == [] then [] else (if t[0].ReadCall? then [t[0]] else []) + Reads(t[1..])
  }

  /** The requests of the read calls of a trace, in order. */
  function ReadRequests(t: seq<Call>): seq<Request>
  {
    if t == [] then [] else (if t[0].ReadCall? then [t[0].request] else []) + ReadRequests(t[1..])
  }

  /** The rows that reading `tags` with the replies of `reads` (pairwise)
      stores: one for each tag whose read returned its registers. */
  function Recorded(table: string, ts: int, tags: seq<ModbusTag>, calls: seq<Call>): seq<Entry>
    requires |tags| == |calls|
  {
    if tags == [] then []
    else
      var tag, call := tags[0], calls[0];
      (if call.ReadCall? && call.reply.Registers? && RequestFor(tag).Some?
          && |call.reply.words| >= RegisterCount(tag.value)
       then [Entry(table, SampleRow(ts, tag, Decode(tag.value, call.reply.words)))]
       else [])
      + Recorded(table, ts, tags[1..], calls[1..])
  }

  /** The session of the latest successful connect in a trace. */
  function LatestSession(t: seq<Call>): Option<Session>
  {
    if t == [] then None
    else if t[|t| - 1].ConnectCall? && t[|t| - 1].ok then Some(Session(t[|t| - 1].attempt))
    else LatestSession(t[..|t| - 1])
  }

  /** Every read from position `from` on uses the session of the latest
      successful connect before it. */
  ghost predicate SessionsCurrent(t: seq<Call>, from: nat)
  {
    forall j :: from <= j < |t| && t[j].ReadCall? ==> LatestSession(t[..j]) == Some(t[j].session)
  }

  /** From position `from` on, every failed read is immediately followed by a
      connect attempt, and every connect attempt immediately follows a failed
      read: exactly one reconnect attempt per failure. */
  ghost predicate ReconnectsFollowFailures(t: seq<Call>, from: nat)
  {
    && (forall j :: from <= j < |t| && t[j].ReadCall? && t[j].reply.Failed? ==> j + 1 < |t| && t[j + 1].ConnectCall?)
    && (forall j :: from <= j < |t| && t[j].ConnectCall? ==> from < j && t[j - 1].ReadCall? && t[j - 1].reply.Failed?)
  }

  /** Every entry is a row of `table` stamped with `ts`. */
  ghost predicate StampedWith(entries: seq<Entry>, table: string, ts: int)
  {
    forall e :: e in entries ==> e.table == table && e.row.timestamp == Integer(ts)
  }

  /** Every entry is a row of `table` whose timestamp is at least `lo`, and the
      timestamps never decrease along the sequence. */
  ghost predicate Chronological(entries: seq<Entry>, table: string, lo: int)
  {
    && (forall e :: e in entries ==> e.table == table && e.row.timestamp.Integer? && lo <= e.row.timestamp.i)
    && (forall i, j :: 0 <= i < j < |entries| ==> entries[i].row.timestamp.i <= entries[j].row.timestamp.i)
  }

  ghost predicate NonDecreasing(clocks: seq<int>)
  {
    forall i, j :: 0 <= i < j < |clocks| ==> clocks[i] <= clocks[j]
  }

  // ---------------------------------------------------------------------
  // Lemmas on the views

  lemma {:induction false} ReadsAppend(a: seq<Call>, b: seq<Call>)
    ensures Reads(a + b) == Reads(a) + Reads(b)
  {
    if a == [] {
      assert a + b == b;
    } else {
      var ab := a + b;
      assert ab[0] == a[0] && ab[1..] == a[1..] + b;
      ReadsAppend(a[1..], b);
      assert Reads(ab) == (if a[0].ReadCall? then [a[0]] else []) + Reads(a[1..] + b);
    }
  }

  lemma {:induction false} ReadRequestsAppend(a: seq<Call>, b: seq<Call>)
    ensures ReadRequests(a + b) == ReadRequests(a) + ReadRequests(b)
  {
    if a == [] {
      assert a + b == b;
    } else {
      var ab := a + b;
      assert ab[0] == a[0] && ab[1..] == a[1..] + b;
      ReadRequestsAppend(a[1..], b);
      assert ReadRequests(ab) == (if a[0].ReadCall? then [a[0].request] else []) + ReadRequests(a[1..] + b);
    }
  }

  /** The reads among the calls of one tag: its read call alone. */
  lemma ReadsOfTagCalls(call: Call, reconnect: seq<Call>)
    requires call.ReadCall? && forall c :: c in reconnect ==> c.ConnectCall?
    ensures Reads([call] + reconnect) == [call]
    ensures ReadRequests([call] + reconnect) == [call.request]
  {
    ReadsAppend([call], reconnect);
    ReadRequestsAppend([call], reconnect);
    NoReads(reconnect);
    assert Reads([call]) == [call] + Reads([]);
    assert ReadRequests([call]) == [call.request] + ReadRequests([]);
  }

  lemma {:induction false} NoReads(t: seq<Call>)
    requires forall c :: c in t ==> c.ConnectCall?
    ensures Reads(t) == [] && ReadRequests(t) == []
  {
    if t != [] {
      assert t[0] in t;
      assert forall c :: c in t[1..] ==> c in t;
      NoReads(t[1..]);
    }
  }

  lemma LatestSessionStep(t: seq<Call>, c: Call)
    ensures LatestSession(t + [c]) == if c.ConnectCall? && c.ok then Some(Session(c.attempt)) else LatestSession(t)
  {
    assert (t + [c])[..|t|] == t;
  }

  // ---------------------------------------------------------------------
  // The steps

  /** A connect attempt changes only the attempt count, the trace and the
      session: the k-th attempt is recorded with its outcome, and its
      session replaces the current one exactly when it succeeds. */
  lemma ConnectOutcome(o: Oracle, st: PollState)
    ensures var r := Connect(o, st);
      var ok := o.connectOk(st.connectCount);
      && r == st.(connectCount := r.connectCount, trace := r.trace, session := r.session)
      && r.connectCount == st.connectCount + 1
      && r.trace == st.trace + [ConnectCall(st.connectCount, ok)]
      && (ok ==> r.session == Some(Session(st.connectCount)))
      && (!ok ==> r.session == st.session)
  {
  }

  /** `execute(...).unwrap()` stores the row when the parameters bind and the
      database accepts it; otherwise the thread panics under the lock and
      nothing is stored. The endpoint side is untouched. */
  lemma RecordOutcome(o: Oracle, table: string, params: seq<SqlValue>, st: PollState)
    ensures var r := Record(o, table, params, st);
      var ok := Bind(params).Some? && o.writeOk(st.writeCount);
      && r.log == st.log + (if ok then [Entry(table, Bind(params).value)] else [])
      && (ok ==> r.panic == st.panic && r.poisoned == st.poisoned)
      && (!ok ==> r.panic == Some(InsertUnwrapped) && r.poisoned)
      && r.trace == st.trace && r.session == st.session && r.readCount == st.readCount
  {
  }

  /** A holding-register read consumes one reply and is recorded first; an
      exception response or too few registers panic with nothing stored, and
      a transport error stores nothing and does not panic. */
  lemma ReadHoldingOutcome(o: Oracle, b: Binding, table: string, ts: int, tag: ModbusTag, st: PollState)
    requires st.session.Some? && RequestFor(tag).Some?
    ensures var r := ReadHolding(o, b, table, ts, tag, st);
      var reply := o.reply(st.readCount);
      && r.readCount == st.readCount + 1
      && |r.trace| > |st.trace|
      && r.trace[|st.trace|] == ReadCall(st.session.value, RequestFor(tag).value, reply)
      && (reply.Exception? ==> r.panic == Some(ExceptionUnwrapped) && r.poisoned && r.log == st.log)
      && (reply.Registers? && |reply.words| < RegisterCount(tag.value) ==>
            r.panic == Some(IndexOutOfBounds) && r.poisoned && r.log == st.log)
      && (reply.Failed? ==> r.panic == st.panic && r.log == st.log)
  {
  }

  /** The connect-retry loop touches neither the reads, the database nor the
      panic state, and makes at most `fuel` attempts, all of them when none
      succeeds. */
  lemma {:induction false} RetryFrame(o: Oracle, fuel: nat, st: PollState)
    requires st.session.None?
    ensures var r := Retry(o, fuel, st);
      && st.connectCount <= r.connectCount <= st.connectCount + fuel
      && r.readCount == st.readCount && r.log == st.log && r.writeCount == st.writeCount
      && r.panic == st.panic && r.poisoned == st.poisoned
      && (r.session.None? ==> r.connectCount == st.connectCount + fuel)
    decreases fuel
  {
    if fuel > 0 && Connect(o, st).session.None? {
      RetryFrame(o, fuel - 1, Connect(o, st));
    }
  }

  // ---------------------------------------------------------------------
  // One tag

  /** The calls one tag adds to the trace: its read, then one reconnect
      attempt exactly when the read failed. */
  lemma PollTagTrace(o: Oracle, b: Binding, table: string, ts: int, tag: ModbusTag, st: PollState)
    requires st.session.Some? && RequestFor(tag).Some?
    ensures var r := PollTag(o, b, table, ts, tag, st);
      var reply := o.reply(st.readCount);
      r.trace == st.trace + [ReadCall(st.session.value, RequestFor(tag).value, reply)]
                 + (if reply.Failed? then [ConnectCall(st.connectCount, o.connectOk(st.connectCount))] else [])
  {
  }

  /** Whether a tag's read ends in a stored row: it returned enough
      registers, its parameters bind (never for IntHolding as written) and
      the database accepts the row. */
  ghost predicate Stored(o: Oracle, b: Binding, tag: ModbusTag, st: PollState)
  {
    var reply := o.reply(st.readCount);
    && RequestFor(tag).Some?
    && reply.Registers?
    && |reply.words| >= RegisterCount(tag.value)
    && !(b == AsWritten && tag.value == IntHolding)
    && o.writeOk(st.writeCount)
  }

  /** The row one tag adds to the log: the decoded sample under `ts`, when
      the read returned its registers and the database accepted the row;
      nothing otherwise. Only a failed read or a stored row lets the cycle
      go on; anything else is a panic, which poisons the lock. */
  lemma PollTagLog(o: Oracle, b: Binding, table: string, ts: int, tag: ModbusTag, st: PollState)
    requires st.session.Some? && st.panic.None?
    ensures var r := PollTag(o, b, table, ts, tag, st);
      var reply := o.reply(st.readCount);
      && r.log == st.log + (if Stored(o, b, tag, st)
                            then [Entry(table, SampleRow(ts, tag, Decode(tag.value, reply.words)))]
                            else [])
      && (r.panic.None? <==> RequestFor(tag).None? || reply.Failed? || Stored(o, b, tag, st))
      && (r.panic.Some? ==> r.poisoned)
  {
  }

  /** As the code is written, a good IntHolding read never stores its row:
      the INSERT is rejected, the thread panics and the lock is poisoned.
      With the corrected binding the row is stored when the database
      accepts it. */
  lemma IntHoldingReadOutcome(o: Oracle, b: Binding, table: string, ts: int, tag: ModbusTag, st: PollState)
    requires st.session.Some? && st.panic.None? && tag.value == IntHolding
    requires o.reply(st.readCount).Registers? && |o.reply(st.readCount).words| >= 1
    ensures var r := PollTag(o, b, table, ts, tag, st);
      var row := Entry(table, SampleRow(ts, tag, Widen(o.reply(st.readCount).words[0])));
      && (b == AsWritten ==> r.panic == Some(InsertUnwrapped) && r.poisoned && r.log == st.log)
      && (b == Corrected && o.writeOk(st.writeCount) ==> r.panic.None? && r.log == st.log + [row])
  {
    PollTagLog(o, b, table, ts, tag, st);
  }

  /** The session after one tag: replaced exactly when its read failed and
      the reconnect attempt succeeded. */
  lemma PollTagSession(o: Oracle, b: Binding, table: string, ts: int, tag: ModbusTag, st: PollState)
    requires st.session.Some?
    ensures var r := PollTag(o, b, table, ts, tag, st);
      var reconnected := RequestFor(tag).Some? && o.reply(st.readCount).Failed? && o.connectOk(st.connectCount);
      r.session == if reconnected then Some(Session(st.connectCount)) else st.session
  {
  }

  // ---------------------------------------------------------------------
  // The connect-retry phase

  /** The outer loop makes connect attempts with consecutive attempt numbers,
      every one but the last refused; it stops at the first success (whose
      session becomes current) or after `fuel` refusals. It issues no read and
      records nothing. */
  lemma {:induction false} RetryFirstSuccess(o: Oracle, fuel: nat, st: PollState)
    requires st.session.None?
    ensures var r := Retry(o, fuel, st);
      && r == st.(connectCount := r.connectCount, trace := r.trace, session := r.session)
      && st.connectCount <= r.connectCount <= st.connectCount + fuel
      && r.trace == st.trace + seq(r.connectCount - st.connectCount,
                                   i requires 0 <= i => ConnectCall(st.connectCount + i, o.connectOk(st.connectCount + i)))
      && (forall a :: st.connectCount <= a < r.connectCount - 1 ==> !o.connectOk(a))
      && (r.session.Some? <==> r.connectCount > st.connectCount && o.connectOk(r.connectCount - 1))
      && (r.session.Some? ==> r.session == Some(Session(r.connectCount - 1)))
      && (r.session.None? ==> r.connectCount == st.connectCount + fuel)
    decreases fuel
  {
    if fuel > 0 {
      var st' := Connect(o, st);
      if st'.session.None? {
        RetryFirstSuccess(o, fuel - 1, st');
        var r := Retry(o, fuel, st);
        assert r == Retry(o, fuel - 1, st');
        var n := r.connectCount - st.connectCount;
        var attempts := seq(n, i requires 0 <= i => ConnectCall(st.connectCount + i, o.connectOk(st.connectCount + i)));
        var rest := seq(r.connectCount - st'.connectCount,
                        i requires 0 <= i => ConnectCall(st'.connectCount + i, o.connectOk(st'.connectCount + i)));
        assert attempts == [ConnectCall(st.connectCount, o.connectOk(st.connectCount))] + rest;
      } else {
        var r := Retry(o, fuel, st);
        assert r == st';
        assert r.trace == st.trace + [ConnectCall(st.connectCount, o.connectOk(st.connectCount))];
      }
    }
  }

  // ---------------------------------------------------------------------
  // One cycle

  /** Every row a cycle stores goes to the device's table and carries the
      cycle's timestamp, whatever reconnects happen in between. */
  lemma {:induction false} VisitStamped(o: Oracle, b: Binding, table: string, ts: int, tags: seq<ModbusTag>, st: PollState)
    requires st.session.Some?
    ensures var r := Visit(o, b, table, ts, tags, st);
      StampedWith(r.log[|st.log|..], table, ts)
    decreases |tags|
  {
    var r := Visit(o, b, table, ts, tags, st);
    if tags != [] && st.panic.None? {
      var st1 := PollTag(o, b, table, ts, tags[0], st);
      assert r == Visit(o, b, table, ts, tags[1..], st1);
      PollTagStamped(o, b, table, ts, tags[0], st);
      VisitStamped(o, b, table, ts, tags[1..], st1);
      assert r.log[|st.log|..] == st1.log[|st.log|..] + r.log[|st1.log|..];
      StampedConcat(st1.log[|st.log|..], r.log[|st1.log|..], table, ts);
    }
  }

  lemma PollTagStamped(o: Oracle, b: Binding, table: string, ts: int, tag: ModbusTag, st: PollState)
    requires st.session.Some? && st.panic.None?
    ensures var r := PollTag(o, b, table, ts, tag, st);
      StampedWith(r.log[|st.log|..], table, ts)
  {
    PollTagLog(o, b, table, ts, tag, st);
  }

  lemma StampedConcat(e1: seq<Entry>, e2: seq<Entry>, table: string, ts: int)
    requires StampedWith(e1, table, ts) && StampedWith(e2, table, ts)
    ensures StampedWith(e1 + e2, table, ts)
  {
  }

  lemma {:induction false} RecordedAppend(table: string, ts: int, tags1: seq<ModbusTag>, calls1: seq<Call>,
                                          tags2: seq<ModbusTag>, calls2: seq<Call>)
    requires |tags1| == |calls1| && |tags2| == |calls2|
    ensures Recorded(table, ts, tags1 + tags2, calls1 + calls2)
         == Recorded(table, ts, tags1, calls1) + Recorded(table, ts, tags2, calls2)
  {
    if tags1 == [] {
      assert tags1 + tags2 == tags2 && calls1 + calls2 == calls2;
    } else {
      assert (tags1 + tags2)[1..] == tags1[1..] + tags2;
      assert (calls1 + calls2)[1..] == calls1[1..] + calls2;
      RecordedAppend(table, ts, tags1[1..], calls1[1..], tags2, calls2);
    }
  }

  lemma RecordedOne(table: string, ts: int, tag: ModbusTag, call: Call)
    ensures Recorded(table, ts, [tag], [call])
         == if call.ReadCall? && call.reply.Registers? && RequestFor(tag).Some?
               && |call.reply.words| >= RegisterCount(tag.value)
            then [Entry(table, SampleRow(ts, tag, Decode(tag.value, call.reply.words)))]
            else []
  {
    assert [tag][1..] == [] && [call][1..] == [];
  }

  /** One tag issues the read its kind calls for, or none; unless the thread
      panics, it stores the row of that read exactly when it returned registers. */
  lemma PollTagReads(o: Oracle, b: Binding, table: string, ts: int, tag: ModbusTag, st: PollState)
    requires st.session.Some? && st.panic.None?
    ensures var r := PollTag(o, b, table, ts, tag, st);
      var head := r.trace[|st.trace|..];
      var polled := if RequestFor(tag).Some? then [tag] else [];
      && ReadRequests(head) == (if RequestFor(tag).Some? then [RequestFor(tag).value] else [])
      && |Reads(head)| == |polled|
      && (r.panic.None? ==> r.log == st.log + Recorded(table, ts, polled, Reads(head)))
  {
    var r := PollTag(o, b, table, ts, tag, st);
    var head := r.trace[|st.trace|..];
    PollTagLog(o, b, table, ts, tag, st);
    if RequestFor(tag).Some? {
      PollTagTrace(o, b, table, ts, tag, st);
      var call := ReadCall(st.session.value, RequestFor(tag).value, o.reply(st.readCount));
      var reconnect := if call.reply.Failed? then [ConnectCall(st.connectCount, o.connectOk(st.connectCount))] else [];
      assert head == [call] + reconnect;
      ReadsOfTagCalls(call, reconnect);
      RecordedOne(table, ts, tag, call);
    } else {
      assert r == st;
      assert head == [];
    }
  }

  /** A cycle that does not panic reads every holding-register tag exactly
      once, in configured order, with the request its kind calls for: a
      failed read does not stop the cycle, and skipped kinds issue no read. */
  lemma {:induction false} VisitReadsEveryTag(o: Oracle, b: Binding, table: string, ts: int, tags: seq<ModbusTag>, st: PollState)
    requires st.session.Some? && st.panic.None?
    ensures var r := Visit(o, b, table, ts, tags, st);
      var added := r.trace[|st.trace|..];
      r.panic.None? ==> ReadRequests(added) == Requests(tags) && |Reads(added)| == |Polled(tags)|
    decreases |tags|
  {
    var r := Visit(o, b, table, ts, tags, st);
    if tags != [] && r.panic.None? {
      var st1 := PollTag(o, b, table, ts, tags[0], st);
      assert r == Visit(o, b, table, ts, tags[1..], st1) && st1.panic.None?;
      var head := st1.trace[|st.trace|..];
      var rest := r.trace[|st1.trace|..];
      assert ReadRequests(r.trace[|st.trace|..]) == ReadRequests(head) + ReadRequests(rest)
          && Reads(r.trace[|st.trace|..]) == Reads(head) + Reads(rest) by {
        assert r.trace[|st.trace|..] == head + rest;
        ReadsAppend(head, rest);
        ReadRequestsAppend(head, rest);
      }
      PollTagReads(o, b, table, ts, tags[0], st);
      VisitReadsEveryTag(o, b, table, ts, tags[1..], st1);
    }
  }

  /** The rows of two successive stretches of reads are the rows of the
      whole stretch. */
  lemma RecordsCompose(table: string, ts: int, log0: seq<Entry>, log1: seq<Entry>, log2: seq<Entry>,
                       t0: seq<Call>, t1: seq<Call>, t2: seq<Call>, p1: seq<ModbusTag>, p2: seq<ModbusTag>)
    requires |t0| <= |t1| <= |t2| && t1[..|t0|] == t0 && t2[..|t1|] == t1
    requires |p1| == |Reads(t1[|t0|..])| && log1 == log0 + Recorded(table, ts, p1, Reads(t1[|t0|..]))
    requires |p2| == |Reads(t2[|t1|..])| && log2 == log1 + Recorded(table, ts, p2, Reads(t2[|t1|..]))
    ensures |p1 + p2| == |Reads(t2[|t0|..])|
    ensures log2 == log0 + Recorded(table, ts, p1 + p2, Reads(t2[|t0|..]))
  {
    var c1, c2 := Reads(t1[|t0|..]), Reads(t2[|t1|..]);
    assert Reads(t2[|t0|..]) == c1 + c2 by {
      assert t2[|t0|..] == t1[|t0|..] + t2[|t1|..];
      ReadsAppend(t1[|t0|..], t2[|t1|..]);
    }
    var x, y := Recorded(table, ts, p1, c1), Recorded(table, ts, p2, c2);
    RecordedAppend(table, ts, p1, c1, p2, c2);
    assert (log0 + x) + y == log0 + (x + y);
  }

  /** A cycle that does not panic stores, in configured order, exactly one
      row per read that returned registers, with the decoded value, and
      nothing for a read that failed or a tag that is skipped. */
  lemma {:induction false} VisitRecordsSuccessfulReads(o: Oracle, b: Binding, table: string, ts: int, tags: seq<ModbusTag>, st: PollState)
    requires st.session.Some? && st.panic.None?
    ensures var r := Visit(o, b, table, ts, tags, st);
      var added := r.trace[|st.trace|..];
      r.panic.None? ==>
        |Reads(added)| == |Polled(tags)| && r.log == st.log + Recorded(table, ts, Polled(tags), Reads(added))
    decreases |tags|
  {
    var r := Visit(o, b, table, ts, tags, st);
    if tags == [] {
      assert r.trace[|st.trace|..] == [];
    } else if r.panic.None? {
      var st1 := PollTag(o, b, table, ts, tags[0], st);
      assert r == Visit(o, b, table, ts, tags[1..], st1) && st1.panic.None?;
      PollTagReads(o, b, table, ts, tags[0], st);
      VisitRecordsSuccessfulReads(o, b, table, ts, tags[1..], st1);
      RecordsCompose(table, ts, st.log, st1.log, r.log, st.trace, st1.trace, r.trace,
                     if RequestFor(tags[0]).Some? then [tags[0]] else [], Polled(tags[1..]));
    }
  }

  /** Every cycle, whether it panics or not, issues the reads of its
      holding-register tags in configured order: its requests are a prefix of
      the requests of the whole tag list, cut at the tag whose read ended the
      cycle. */
  lemma {:induction false} VisitReadsInOrder(o: Oracle, b: Binding, table: string, ts: int, tags: seq<ModbusTag>, st: PollState)
    requires st.session.Some? && st.panic.None?
    ensures var r := Visit(o, b, table, ts, tags, st);
      var added := r.trace[|st.trace|..];
      && |Reads(added)| <= |Requests(tags)|
      && ReadRequests(added) == Requests(tags)[..|Reads(added)|]
    decreases |tags|
  {
    var r := Visit(o, b, table, ts, tags, st);
    if tags == [] {
      assert r.trace[|st.trace|..] == [];
    } else {
      var st1 := PollTag(o, b, table, ts, tags[0], st);
      assert r == Visit(o, b, table, ts, tags[1..], st1);
      PollTagReads(o, b, table, ts, tags[0], st);
      if st1.panic.None? {
        VisitReadsInOrder(o, b, table, ts, tags[1..], st1);
      } else {
        assert r.trace[|st1.trace|..] == [];
      }
      var h := if RequestFor(tags[0]).Some? then [RequestFor(tags[0]).value] else [];
      ReadsInOrderCompose(st.trace, st1.trace, r.trace, h, Requests(tags[1..]));
    }
  }

  /** Requests `h` of a first stretch of calls, then a prefix of `rq` in the
      second, make a prefix of `h + rq` over both. */
  lemma ReadsInOrderCompose(t0: seq<Call>, t1: seq<Call>, t2: seq<Call>, h: seq<Request>, rq: seq<Request>)
    requires |t0| <= |t1| <= |t2| && t1[..|t0|] == t0 && t2[..|t1|] == t1
    requires ReadRequests(t1[|t0|..]) == h && |Reads(t1[|t0|..])| == |h|
    requires |Reads(t2[|t1|..])| <= |rq| && ReadRequests(t2[|t1|..]) == rq[..|Reads(t2[|t1|..])|]
    ensures |Reads(t2[|t0|..])| <= |h + rq|
    ensures ReadRequests(t2[|t0|..]) == (h + rq)[..|Reads(t2[|t0|..])|]
  {
    assert t2[|t0|..] == t1[|t0|..] + t2[|t1|..];
    ReadsAppend(t1[|t0|..], t2[|t1|..]);
    ReadRequestsAppend(t1[|t0|..], t2[|t1|..]);
    PrefixAppend(h, rq, |Reads(t2[|t1|..])|);
  }

  /** Cutting the last element off paired sequences `c1 + c2` (and the
      matching prefix of `p1 + p2`) cuts it off the second halves. */
  lemma AllButLastOfAppend<T, U>(p1: seq<T>, p2: seq<T>, c1: seq<U>, c2: seq<U>)
    requires |p1| == |c1| && 0 < |c2| <= |p2|
    ensures var n := |c1 + c2| - 1;
      (p1 + p2)[..n] == p1 + p2[..|c2| - 1] && (c1 + c2)[..n] == c1 + c2[..|c2| - 1]
  {
    PrefixAppend(p1, p2, |c2| - 1);
    PrefixAppend(c1, c2, |c2| - 1);
  }

  lemma AppendAssoc<T>(a: seq<T>, b: seq<T>, c: seq<T>)
    ensures (a + b) + c == a + (b + c)
  {
  }

  lemma PrefixAppend<T>(h: seq<T>, t: seq<T>, k: nat)
    requires k <= |t|
    ensures (h + t)[..|h| + k] == h + t[..k]
  {
  }

  /** A cycle that panics has still stored, and kept, the rows of every read
      before the one that ended it: in configured order, one per read that
      returned registers, with the decoded value. The panicking read is one
      of the cycle's polled tags. */
  lemma {:induction false} VisitRecordsBeforePanic(o: Oracle, b: Binding, table: string, ts: int, tags: seq<ModbusTag>, st: PollState)
    requires st.session.Some? && st.panic.None?
    ensures var r := Visit(o, b, table, ts, tags, st);
      var calls := Reads(r.trace[|st.trace|..]);
      r.panic.Some? ==>
        && 0 < |calls| <= |Polled(tags)|
        && r.log == st.log + Recorded(table, ts, Polled(tags)[..|calls| - 1], calls[..|calls| - 1])
    decreases |tags|, 1
  {
    if tags != [] {
      if PollTag(o, b, table, ts, tags[0], st).panic.Some? {
        FirstTagPanics(o, b, table, ts, tags, st);
      } else {
        LaterTagPanics(o, b, table, ts, tags, st);
      }
    }
  }

  /** The cycle ends at its first tag: nothing is stored. */
  lemma FirstTagPanics(o: Oracle, b: Binding, table: string, ts: int, tags: seq<ModbusTag>, st: PollState)
    requires st.session.Some? && st.panic.None? && tags != []
    requires PollTag(o, b, table, ts, tags[0], st).panic.Some?
    ensures var r := Visit(o, b, table, ts, tags, st);
      var calls := Reads(r.trace[|st.trace|..]);
      r.panic.Some? ==>
        && 0 < |calls| <= |Polled(tags)|
        && r.log == st.log + Recorded(table, ts, Polled(tags)[..|calls| - 1], calls[..|calls| - 1])
  {
    var r := Visit(o, b, table, ts, tags, st);
    var st1 := PollTag(o, b, table, ts, tags[0], st);
    assert r == Visit(o, b, table, ts, tags[1..], st1);
    assert r == st1;
    PollTagPanicStoresNothing(o, b, table, ts, tags[0], st);
    assert Polled(tags) == [tags[0]] + Polled(tags[1..]);
    var calls := Reads(r.trace[|st.trace|..]);
    assert Recorded(table, ts, Polled(tags)[..0], calls[..0]) == [];
  }

  /** The first tag survives: its rows come first, then those the rest of
      the cycle stored before its panic. */
  lemma {:induction false} LaterTagPanics(o: Oracle, b: Binding, table: string, ts: int, tags: seq<ModbusTag>, st: PollState)
    requires st.session.Some? && st.panic.None? && tags != []
    requires PollTag(o, b, table, ts, tags[0], st).panic.None?
    ensures var r := Visit(o, b, table, ts, tags, st);
      var calls := Reads(r.trace[|st.trace|..]);
      r.panic.Some? ==>
        && 0 < |calls| <= |Polled(tags)|
        && r.log == st.log + Recorded(table, ts, Polled(tags)[..|calls| - 1], calls[..|calls| - 1])
    decreases |tags|, 0
  {
    var r := Visit(o, b, table, ts, tags, st);
    var st1 := PollTag(o, b, table, ts, tags[0], st);
    assert r == Visit(o, b, table, ts, tags[1..], st1);
    if r.panic.Some? {
      var polled := if RequestFor(tags[0]).Some? then [tags[0]] else [];
      assert Polled(tags) == polled + Polled(tags[1..]);
      PollTagReads(o, b, table, ts, tags[0], st);
      VisitRecordsBeforePanic(o, b, table, ts, tags[1..], st1);
      TraceRecordsBeforePanic(table, ts, st.log, st1.log, r.log, st.trace, st1.trace, r.trace,
                              polled, Polled(tags[1..]));
    }
  }

  /** A tag whose step panics issued exactly one read and stored nothing. */
  lemma PollTagPanicStoresNothing(o: Oracle, b: Binding, table: string, ts: int, tag: ModbusTag, st: PollState)
    requires st.session.Some? && st.panic.None?
    ensures var r := PollTag(o, b, table, ts, tag, st);
      r.panic.Some? ==> RequestFor(tag).Some? && |Reads(r.trace[|st.trace|..])| == 1 && r.log == st.log
  {
    PollTagLog(o, b, table, ts, tag, st);
    PollTagReads(o, b, table, ts, tag, st);
  }

  /** The rows of a first stretch of reads, then those of all but the last
      read of a second stretch, are the rows of all but the last read of both
      stretches. */
  lemma RecordsBeforePanicCompose(table: string, ts: int, log0: seq<Entry>, log1: seq<Entry>, log2: seq<Entry>,
                                  c1: seq<Call>, c2: seq<Call>, c: seq<Call>, p1: seq<ModbusTag>, p2: seq<ModbusTag>)
    requires |p1| == |c1| && log1 == log0 + Recorded(table, ts, p1, c1)
    requires 0 < |c2| <= |p2| && log2 == log1 + Recorded(table, ts, p2[..|c2| - 1], c2[..|c2| - 1])
    requires c == c1 + c2
    ensures 0 < |c| <= |p1 + p2| && log2 == log0 + Recorded(table, ts, (p1 + p2)[..|c| - 1], c[..|c| - 1])
  {
    var k := |c2| - 1;
    AllButLastOfAppend(p1, p2, c1, c2);
    RecordedAppend(table, ts, p1, c1, p2[..k], c2[..k]);
    AppendAssoc(log0, Recorded(table, ts, p1, c1), Recorded(table, ts, p2[..k], c2[..k]));
  }

  /** `RecordsBeforePanicCompose` for the reads of two successive stretches
      of a call trace. */
  lemma TraceRecordsBeforePanic(table: string, ts: int, log0: seq<Entry>, log1: seq<Entry>, log2: seq<Entry>,
                                t0: seq<Call>, t1: seq<Call>, t2: seq<Call>, p1: seq<ModbusTag>, p2: seq<ModbusTag>)
    requires |t0| <= |t1| <= |t2| && t1[..|t0|] == t0 && t2[..|t1|] == t1
    requires |p1| == |Reads(t1[|t0|..])| && log1 == log0 + Recorded(table, ts, p1, Reads(t1[|t0|..]))
    requires var c2 := Reads(t2[|t1|..]);
      0 < |c2| <= |p2| && log2 == log1 + Recorded(table, ts, p2[..|c2| - 1], c2[..|c2| - 1])
    ensures var c := Reads(t2[|t0|..]);
      0 < |c| <= |p1 + p2| && log2 == log0 + Recorded(table, ts, (p1 + p2)[..|c| - 1], c[..|c| - 1])
  {
    var c1, c2, c := Reads(t1[|t0|..]), Reads(t2[|t1|..]), Reads(t2[|t0|..]);
    ReadsSplit(t0, t1, t2);
    RecordsBeforePanicCompose(table, ts, log0, log1, log2, c1, c2, c, p1, p2);
  }

  /** The reads of two successive stretches of calls are the reads of the
      whole stretch. */
  lemma ReadsSplit(t0: seq<Call>, t1: seq<Call>, t2: seq<Call>)
    requires |t0| <= |t1| <= |t2| && t1[..|t0|] == t0 && t2[..|t1|] == t1
    ensures Reads(t2[|t0|..]) == Reads(t1[|t0|..]) + Reads(t2[|t1|..])
  {
    assert t2[|t0|..] == t1[|t0|..] + t2[|t1|..];
    ReadsAppend(t1[|t0|..], t2[|t1|..]);
  }

  /** Only a read that came back (with an exception response, too few
      registers, or registers whose row the database refused) can end a
      cycle by a panic, and the panic poisons the lock: a transport failure
      never ends a cycle. */
  lemma {:induction false} VisitPanicCause(o: Oracle, b: Binding, table: string, ts: int, tags: seq<ModbusTag>, st: PollState)
    requires st.session.Some? && st.panic.None?
    ensures var r := Visit(o, b, table, ts, tags, st);
      r.panic.Some? ==>
        && r.poisoned
        && |st.trace| < |r.trace|
        && r.trace[|r.trace| - 1].ReadCall?
        && !r.trace[|r.trace| - 1].reply.Failed?
    decreases |tags|
  {
    if tags != [] {
      var st1 := PollTag(o, b, table, ts, tags[0], st);
      assert Visit(o, b, table, ts, tags, st) == Visit(o, b, table, ts, tags[1..], st1);
      PollTagLog(o, b, table, ts, tags[0], st);
      if st1.panic.None? {
        VisitPanicCause(o, b, table, ts, tags[1..], st1);
      } else {
        PollTagTrace(o, b, table, ts, tags[0], st);
      }
    }
  }

  /** The calls of one tag: a failed read is followed by its one reconnect
      attempt, and there is no other connect attempt. */
  lemma PollTagReconnects(o: Oracle, b: Binding, table: string, ts: int, tag: ModbusTag, st: PollState)
    requires st.session.Some?
    ensures ReconnectsFollowFailures(PollTag(o, b, table, ts, tag, st).trace, |st.trace|)
  {
    var r := PollTag(o, b, table, ts, tag, st);
    var n := |st.trace|;
    if RequestFor(tag).Some? {
      PollTagTrace(o, b, table, ts, tag, st);
      var call := ReadCall(st.session.value, RequestFor(tag).value, o.reply(st.readCount));
      assert r.trace[n] == call;
      if call.reply.Failed? {
        assert r.trace[n + 1] == ConnectCall(st.connectCount, o.connectOk(st.connectCount));
        assert |r.trace| == n + 2;
      } else {
        assert |r.trace| == n + 1;
      }
    } else {
      assert r == st;
    }
  }

  /** In a cycle, every failed read is followed by exactly one reconnect
      attempt, and no connect is attempted otherwise. */
  lemma {:induction false} VisitReconnects(o: Oracle, b: Binding, table: string, ts: int, tags: seq<ModbusTag>, st: PollState)
    requires st.session.Some?
    ensures var r := Visit(o, b, table, ts, tags, st);
      ReconnectsFollowFailures(r.trace, |st.trace|)
    decreases |tags|
  {
    var r := Visit(o, b, table, ts, tags, st);
    if tags != [] && st.panic.None? {
      var st1 := PollTag(o, b, table, ts, tags[0], st);
      assert r == Visit(o, b, table, ts, tags[1..], st1);
      PollTagReconnects(o, b, table, ts, tags[0], st);
      VisitReconnects(o, b, table, ts, tags[1..], st1);
      ReconnectsFollowFailuresTrans(st1.trace, r.trace, |st.trace|);
    }
  }

  /** One tag keeps the session equal to that of the latest successful
      connect, and its read uses that session. */
  lemma PollTagSessions(o: Oracle, b: Binding, table: string, ts: int, tag: ModbusTag, st: PollState)
    requires st.session.Some? && st.session == LatestSession(st.trace)
    ensures var r := PollTag(o, b, table, ts, tag, st);
      r.session == LatestSession(r.trace) && SessionsCurrent(r.trace, |st.trace|)
  {
    var r := PollTag(o, b, table, ts, tag, st);
    var n := |st.trace|;
    if RequestFor(tag).Some? {
      PollTagTrace(o, b, table, ts, tag, st);
      PollTagSession(o, b, table, ts, tag, st);
      var call := ReadCall(st.session.value, RequestFor(tag).value, o.reply(st.readCount));
      LatestSessionStep(st.trace, call);
      if call.reply.Failed? {
        var c := ConnectCall(st.connectCount, o.connectOk(st.connectCount));
        assert r.trace == (st.trace + [call]) + [c];
        LatestSessionStep(st.trace + [call], c);
      } else {
        assert r.trace == st.trace + [call];
      }
      assert r.trace[..n] == st.trace;
    } else {
      assert r == st;
    }
  }

  /** Every read of a cycle uses the session of the latest successful
      connect: a reconnect that succeeds replaces the session, one that fails
      keeps the old session for the remaining tags. */
  lemma {:induction false} VisitSessions(o: Oracle, b: Binding, table: string, ts: int, tags: seq<ModbusTag>, st: PollState)
    requires st.session.Some? && st.session == LatestSession(st.trace)
    ensures var r := Visit(o, b, table, ts, tags, st);
      r.session == LatestSession(r.trace) && SessionsCurrent(r.trace, |st.trace|)
    decreases |tags|
  {
    var r := Visit(o, b, table, ts, tags, st);
    if tags != [] && st.panic.None? {
      var st1 := PollTag(o, b, table, ts, tags[0], st);
      assert r == Visit(o, b, table, ts, tags[1..], st1);
      PollTagSessions(o, b, table, ts, tags[0], st);
      VisitSessions(o, b, table, ts, tags[1..], st1);
      SessionsCurrentTrans(st1.trace, r.trace, |st.trace|);
    }
  }

  // ---------------------------------------------------------------------
  // Runs of cycles

  /** Once the shared lock is poisoned, cycles record nothing and touch nothing. */
  lemma {:induction false} CyclesPoisoned(o: Oracle, b: Binding, table: string, tags: seq<ModbusTag>, clocks: seq<int>, st: PollState)
    requires st.session.Some? && st.poisoned
    ensures Cycles(o, b, table, tags, clocks, st) == st
    decreases |clocks|
  {
    if clocks != [] && st.panic.None? {
      assert Cycle(o, b, table, tags, clocks[0], st) == st;
      CyclesPoisoned(o, b, table, tags, clocks[1..], st);
    }
  }

  /** A panic in one device's cycle silences every other device sharing the
      database: their later cycles store nothing. */
  lemma PanicSilencesOtherDevices(
    o: Oracle, b: Binding, table: string, tags: seq<ModbusTag>, now: int, st: PollState,
    o': Oracle, b': Binding, table': string, tags': seq<ModbusTag>, clocks': seq<int>, other: PollState)
    requires st.session.Some? && st.panic.None? && other.session.Some?
    requires Cycle(o, b, table, tags, now, st).panic.Some?
    ensures var r := Cycle(o, b, table, tags, now, st);
      var other' := other.(writeCount := r.writeCount, log := r.log, poisoned := r.poisoned);
      Cycles(o', b', table', tags', clocks', other').log == r.log
  {
    var r := Cycle(o, b, table, tags, now, st);
    assert !st.poisoned;
    VisitPanicCause(o, b, table, now, tags, st);
    var other' := other.(writeCount := r.writeCount, log := r.log, poisoned := r.poisoned);
    CyclesPoisoned(o', b', table', tags', clocks', other');
  }

  lemma ChronologicalAppend(first: seq<Entry>, rest: seq<Entry>, table: string, lo: int, mid: int)
    requires lo <= mid && StampedWith(first, table, lo) && Chronological(rest, table, mid)
    ensures Chronological(first + rest, table, lo)
  {
    var all := first + rest;
    forall i, j | 0 <= i < j < |all|
      ensures all[i].row.timestamp.i <= all[j].row.timestamp.i
    {
      if j < |first| {
        assert all[i] in first && all[j] in first;
      } else if i < |first| {
        assert all[i] in first;
        assert all[j] == rest[j - |first|];
        assert all[j] in rest;
      } else {
        assert all[i] == rest[i - |first|];
        assert all[j] == rest[j - |first|];
      }
    }
    forall e | e in all
      ensures e.table == table && e.row.timestamp.Integer? && lo <= e.row.timestamp.i
    {
      assert e in first || e in rest;
    }
  }

  /** A cycle adds only rows of the device's table stamped with its timestamp. */
  lemma CycleStamped(o: Oracle, b: Binding, table: string, tags: seq<ModbusTag>, now: int, st: PollState)
    requires st.session.Some? && st.panic.None?
    ensures var r := Cycle(o, b, table, tags, now, st);
      |st.log| <= |r.log| && r.log[..|st.log|] == st.log && StampedWith(r.log[|st.log|..], table, now)
  {
    if st.poisoned {
      assert st.log[|st.log|..] == [];
    } else {
      VisitStamped(o, b, table, now, tags, st);
    }
  }

  /** Stamped rows followed by chronological ones, at no earlier time, are
      chronological. */
  lemma ChronologicalExtend(log0: seq<Entry>, log1: seq<Entry>, log2: seq<Entry>, table: string, lo: int, mid: int)
    requires |log0| <= |log1| <= |log2| && log1[..|log0|] == log0 && log2[..|log1|] == log1
    requires lo <= mid && StampedWith(log1[|log0|..], table, lo) && Chronological(log2[|log1|..], table, mid)
    ensures Chronological(log2[|log0|..], table, lo)
  {
    assert log2[|log0|..] == log1[|log0|..] + log2[|log1|..];
    ChronologicalAppend(log1[|log0|..], log2[|log1|..], table, lo, mid);
  }

  /** Over a run of cycles with a clock that does not go backwards, the rows
      stored go to the device's table with timestamps that never decrease and
      are no earlier than the first cycle's. */
  lemma {:induction false} CyclesChronological(o: Oracle, b: Binding, table: string, tags: seq<ModbusTag>, clocks: seq<int>, st: PollState)
    requires st.session.Some? && NonDecreasing(clocks) && clocks != []
    ensures var r := Cycles(o, b, table, tags, clocks, st);
      Chronological(r.log[|st.log|..], table, clocks[0])
    decreases |clocks|
  {
    var r := Cycles(o, b, table, tags, clocks, st);
    if st.panic.None? {
      var st1 := Cycle(o, b, table, tags, clocks[0], st);
      assert r == Cycles(o, b, table, tags, clocks[1..], st1);
      CycleStamped(o, b, table, tags, clocks[0], st);
      if |clocks| > 1 {
        assert NonDecreasing(clocks[1..]);
        CyclesChronological(o, b, table, tags, clocks[1..], st1);
        ChronologicalExtend(st.log, st1.log, r.log, table, clocks[0], clocks[1]);
      } else {
        assert r == st1;
        ChronologicalAppend(st1.log[|st.log|..], [], table, clocks[0], clocks[0]);
        assert st1.log[|st.log|..] + [] == st1.log[|st.log|..];
      }
    } else {
      assert r.log[|st.log|..] == [];
    }
  }

  lemma ReconnectsFollowFailuresTrans(t1: seq<Call>, t: seq<Call>, from: nat)
    requires |t1| <= |t| && t[..|t1|] == t1 && from <= |t1|
    requires ReconnectsFollowFailures(t1, from) && ReconnectsFollowFailures(t, |t1|)
    ensures ReconnectsFollowFailures(t, from)
  {
    forall j | from <= j < |t| && t[j].ReadCall? && t[j].reply.Failed?
      ensures j + 1 < |t| && t[j + 1].ConnectCall?
    {
      if j < |t1| {
        assert t1[j] == t[j];
        assert t1[j + 1] == t[j + 1];
      }
    }
    forall j | from <= j < |t| && t[j].ConnectCall?
      ensures from < j && t[j - 1].ReadCall? && t[j - 1].reply.Failed?
    {
      if j < |t1| {
        assert t1[j] == t[j];
        assert t1[j - 1] == t[j - 1];
      }
    }
  }

  lemma SessionsCurrentTrans(t1: seq<Call>, t: seq<Call>, from: nat)
    requires |t1| <= |t| && t[..|t1|] == t1 && from <= |t1|
    requires SessionsCurrent(t1, from) && SessionsCurrent(t, |t1|)
    ensures SessionsCurrent(t, from)
  {
    forall j | from <= j < |t| && t[j].ReadCall?
      ensures LatestSession(t[..j]) == Some(t[j].session)
    {
      if j < |t1| {
        assert t[..j] == t1[..j];
        assert t1[j] == t[j];
      }
    }
  }

  /** Over a run of cycles, every failed read is followed by exactly one
      reconnect attempt, and every read uses the current session. */
  lemma {:induction false} CyclesReconnectsAndSessions(o: Oracle, b: Binding, table: string, tags: seq<ModbusTag>, clocks: seq<int>, st: PollState)
    requires st.session.Some? && st.session == LatestSession(st.trace)
    ensures var r := Cycles(o, b, table, tags, clocks, st);
      && r.session == LatestSession(r.trace)
      && ReconnectsFollowFailures(r.trace, |st.trace|)
      && SessionsCurrent(r.trace, |st.trace|)
    decreases |clocks|
  {
    var r := Cycles(o, b, table, tags, clocks, st);
    if clocks != [] && st.panic.None? {
      var st1 := Cycle(o, b, table, tags, clocks[0], st);
      if !st.poisoned {
        VisitReconnects(o, b, table, clocks[0], tags, st);
        VisitSessions(o, b, table, clocks[0], tags, st);
      }
      CyclesReconnectsAndSessions(o, b, table, tags, clocks[1..], st1);
      ReconnectsFollowFailuresTrans(st1.trace, r.trace, |st.trace|);
      SessionsCurrentTrans(st1.trace, r.trace, |st.trace|);
    }
  }

  /** The outer loop only makes connect attempts, and leaves the session
      that of its latest successful one. */
  lemma {:induction false} RetryOnlyConnects(o: Oracle, fuel: nat, st: PollState)
    requires st.session.None? && st.session == LatestSession(st.trace)
    ensures var r := Retry(o, fuel, st);
      && |st.trace| <= |r.trace| && r.trace[..|st.trace|] == st.trace
      && r.session == LatestSession(r.trace)
      && (forall j :: |st.trace| <= j < |r.trace| ==> r.trace[j].ConnectCall?)
    decreases fuel
  {
    if fuel > 0 {
      var st' := Connect(o, st);
      var c := ConnectCall(st.connectCount, o.connectOk(st.connectCount));
      assert st'.trace == st.trace + [c];
      LatestSessionStep(st.trace, c);
      if st'.session.None? {
        RetryOnlyConnects(o, fuel - 1, st');
        var r := Retry(o, fuel - 1, st');
        assert r.trace[..|st.trace|] == r.trace[..|st'.trace|][..|st.trace|];
      }
    }
  }

  /** A trace that starts with connect attempts only and whose later reads
      use the current session never reads without a session: every read of
      it uses the session of the latest successful connect before it. */
  lemma ReadsFollowConnects(t0: seq<Call>, t: seq<Call>)
    requires |t0| <= |t| && t[..|t0|] == t0
    requires forall j :: 0 <= j < |t0| ==> t0[j].ConnectCall?
    requires SessionsCurrent(t, |t0|)
    ensures SessionsCurrent(t, 0)
    ensures forall j :: 0 <= j < |t| && t[j].ReadCall? ==> LatestSession(t[..j]).Some?
  {
    forall j | 0 <= j < |t| && t[j].ReadCall?
      ensures LatestSession(t[..j]) == Some(t[j].session)
    {
      if j < |t0| {
        assert false;
      }
    }
  }

  /** The whole poll loop of a device started afresh: no read is issued
      before the first successful connect, and from then on every read uses
      the session of the latest successful connect; after the first
      successful connect, a connect is attempted only right after a failed
      read, exactly once per failure. */
  lemma PollConnectsBeforeReading(o: Oracle, b: Binding, table: string, tags: seq<ModbusTag>, fuel: nat, clocks: seq<int>, st: PollState)
    requires st.session.None? && st.trace == []
    ensures var r := Poll(o, b, table, tags, fuel, clocks, st);
      var connected := Retry(o, fuel, st);
      && (forall j :: 0 <= j < |r.trace| && r.trace[j].ReadCall? ==> LatestSession(r.trace[..j]).Some?)
      && SessionsCurrent(r.trace, 0)
      && (r.trace != connected.trace ==> connected.session.Some? && ReconnectsFollowFailures(r.trace, |connected.trace|))
  {
    var connected := Retry(o, fuel, st);
    RetryOnlyConnects(o, fuel, st);
    var r := Poll(o, b, table, tags, fuel, clocks, st);
    if connected.session.Some? {
      assert r == Cycles(o, b, table, tags, clocks, connected);
      CyclesReconnectsAndSessions(o, b, table, tags, clocks, connected);
      ReadsFollowConnects(connected.trace, r.trace);
    } else {
      assert r == connected;
      ReadsFollowConnects(connected.trace, r.trace);
    }
  }
}
