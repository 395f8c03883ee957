# plclog: the Modbus TCP polling engine, modelled in Dafny

plclog is a field-device data logger. Each Modbus TCP device in its
configuration gets its own poll thread, `poll_modbus_tcp`. The thread connects
to the device and retries until a connect succeeds. It then runs cycles
forever. A cycle:

- takes the shared SQLite connection's mutex;
- reads the clock once;
- reads every holding-register tag in configured order: one register for
  `IntHolding`, two for `RealHolding`;
- decodes each reply and inserts one row per tag into the table named after
  the device.

A failed read is followed by one reconnect attempt. The session is replaced
only when that attempt succeeds, and the cycle goes on with the next tag.

The project has these modules:

- `Config` (config.dfy): the tag data model, and which read the loop issues
  for a tag.
- `Codec` (codec.dfy): `u16_to_float`, the 32-bit word built from two
  registers and reinterpreted through its native-order bytes, and the
  widening of one register.
- `Storage` (storage.dfy): the parameters bound into the INSERT statement,
  and the shared database behind its mutex, as a class.
- `Modbus` (modbus.dfy): the endpoint, as a class whose connect and read
  outcomes come from oracles indexed by the number of calls made so far.
- `PollSpec` (pollspec.dfy): the reference semantics of the poll loop, as
  functions over a `PollState`, and the properties of the loop, proved as
  lemmas.
- `Poller` (poller.dfy): the class `ModbusTcpPoller`. Its methods run the
  loop step by step, with loops and invariants. Each method is proved to move
  the thread, endpoint and database exactly as the `PollSpec` function does.
- `Scenarios` (scenarios.dfy): concrete runs. They cover a device that
  refuses three connects, three cycles over two float tags with a failure in
  the second, the register pair of pi, the IntHolding insert as it is
  written, and a cycle over the sample configuration's one IntHolding tag.

Where the code and the intended design disagree, the model follows the code:

- **The IntHolding insert.** The IntHolding branch binds five values to an
  INSERT with four placeholders (see "## Findings"), so the statement is
  rejected and `.unwrap()` panics. The engine takes a `Binding`: with
  `AsWritten` (the code, used by every scenario of a running device) a good
  IntHolding read panics and stores nothing; with `Corrected` it binds the
  four values the RealHolding branch binds. The `PollSpec` lemmas are proved
  for both bindings, and `PollSpec.PollTagLog` states the difference.

- **Panics.** A Modbus exception response is unwrapped with `res.unwrap()`.
  A reply with too few registers is indexed with `res[0]`/`res[1]`. A
  rejected INSERT is unwrapped with `.unwrap()`. Each of these panics and
  ends the device's thread; none of them is logged and skipped.
- **Lock scope.** The database lock is held for the whole cycle, not only
  for each write. A panic therefore poisons the mutex. From then on every
  device's `mutex.lock()` fails and all their later cycles store nothing, so
  devices are not isolated from one another.
- **Word order.** The first register read (named `lsb` at
  src/main.rs:265) becomes the high half of the float's bit pattern, because
  `u16_to_float(reg1, reg2)` shifts `reg1` left by 16.

Values of type `f32` are kept as their bit pattern (`FromBits`) or as the
converted register (`FromU16`); no float arithmetic is needed. The infinite
loops are modelled by a bound: `fuel` connect attempts, and one cycle per
element of a sequence of clock readings.

## Model

| member | source | states |
|---|---|---|
| Config.RequestForKinds | src/main.rs:228-262 | a tag is read exactly when it is IntHolding or RealHolding; the read asks for one register or two at the tag's address |
| Config.PolledRequests | src/main.rs:222-293 | the reads issued for a tag list are the reads of its polled tags, one per tag, in configured order |
| Codec.Word | src/main.rs:343-344 | `(reg1 << 16) \| reg2` has reg1 as its high half and reg2 as its low half; as a number it is reg1 * 65536 + reg2 |
| Codec.Split | src/main.rs:343-344 | every 32-bit word is assembled from its two halves |
| Codec.WordInjective | src/main.rs:343-344 | two register pairs give the same word exactly when they are equal |
| Codec.ToNeBytes | src/main.rs:345 | `to_ne_bytes` yields four bytes |
| Codec.ToNeBytesOrder | src/main.rs:345 | on a little-endian host the bytes hold the low half of the word first, each half low byte first; a big-endian host gives the same bytes reversed |
| Codec.FromNeBytes | src/main.rs:346 | `from_ne_bytes` inverts `to_ne_bytes` for either byte order |
| Codec.NeBytesRoundTrip | src/main.rs:345-346 | reading the native bytes of a word back gives the word |
| Codec.U16ToFloat | src/main.rs:343-347 | the float is the one whose bit pattern is the word of reg1 (high) and reg2 (low), whatever the host's byte order |
| Codec.Widen | src/main.rs:236 | `reg as f32` keeps the unsigned register value, below 65536 |
| Codec.Decode | src/main.rs:236-269 | the value takes the widened-register form exactly for IntHolding and the float-bit-pattern form for RealHolding; the values themselves are stated by Codec.DecodeRegisters |
| Codec.DecodeRegisters | src/main.rs:260-269 | IntHolding stores `words[0]` widened; RealHolding stores the float with `words[0]` as high half and `words[1]` as low half |
| Storage.SampleParams | src/main.rs:267-271 | the RealHolding parameters bind to the row (timestamp, tag name, description, value) |
| Storage.IntHoldingParamsAsWritten | src/main.rs:234-238 | the IntHolding parameters as written, five values for four placeholders, never bind |
| Storage.InsertParams | src/main.rs:233-271 | as written, the IntHolding parameters never bind and every other tag's bind to its row; corrected, every tag's parameters bind to the row (timestamp, name, description, value) |
| Storage.Database.Lock | src/main.rs:218 | `mutex.lock()` succeeds exactly when the mutex is not poisoned |
| Storage.Database.Execute | src/main.rs:233-238 | a statement is rejected unless its parameters bind; a bound one appends its row exactly when the database accepts it, and is counted |
| Modbus.Endpoint.ConnectWithTimeout | src/main.rs:210-213 | the k-th attempt yields session k exactly when the oracle accepts it |
| Modbus.Endpoint.ReadHoldingRegisters | src/main.rs:230-231 | the k-th read returns the oracle's k-th reply |
| PollSpec.ConnectOutcome | src/main.rs:210-213 | a connect attempt is counted and traced; a success replaces the session by the attempt's session, a failure keeps the old one; nothing else changes |
| PollSpec.RecordOutcome | src/main.rs:233-238 | `execute(...).unwrap()` appends the row exactly when the parameters bind and the database accepts them; otherwise the thread panics with the insert's unwrap and poisons the lock |
| PollSpec.ReadHoldingOutcome | src/main.rs:229-291 | the read is counted and traced with its request; an exception reply or too few registers panics and poisons the lock; a transport error leaves the log and the panic state as they were |
| PollSpec.RetryFrame | src/main.rs:209-216 | the outer loop makes at most `fuel` connect attempts, all `fuel` when none succeeds, and reads, stores and panics nothing |
| PollSpec.Cycle | src/main.rs:218-296 | a cycle keeps a session, and only appends to the call trace and the stored rows |
| PollSpec.Poll | src/main.rs:199-308 | the thread only appends rows; when no connect succeeds it reads and stores nothing |
| PollSpec.PollTag | src/main.rs:222-293 | one tag keeps a session, and only appends to the call trace and the stored rows |
| PollSpec.Visit | src/main.rs:222-295 | a cycle keeps a session, and only appends to the call trace and the stored rows |
| PollSpec.Cycles | src/main.rs:217-298 | a run of cycles keeps a session, and only appends to the call trace and the stored rows |
| PollSpec.PollTagTrace | src/main.rs:229-291 | a polled tag adds its read to the trace, then one connect attempt exactly when the read failed |
| PollSpec.PollTagLog | src/main.rs:233-271 | a tag stores its decoded sample under the cycle's timestamp exactly when the read returned enough registers, its parameters bind (never, as written, for IntHolding) and the insert succeeded; the thread survives only then, or after a failed read, or for a skipped tag; a panic poisons the lock |
| PollSpec.IntHoldingReadOutcome | src/main.rs:229-238 | as written, a good IntHolding read panics with the insert's unwrap, poisons the lock and stores nothing; corrected, it stores the widened register when the database accepts it |
| PollSpec.PollTagSession | src/main.rs:245-256 | the session is replaced by the reconnect's session exactly when the read failed and the reconnect succeeded |
| PollSpec.RetryFirstSuccess | src/main.rs:209-216 | the outer loop makes consecutive connect attempts, all refused but the last; it stops at the first success, whose session becomes current, or after `fuel` refusals; it reads and stores nothing |
| PollSpec.RetryOnlyConnects | src/main.rs:209-216 | the outer loop only makes connect attempts and leaves the session of the latest successful one |
| PollSpec.VisitStamped | src/main.rs:219-222 | every row a cycle stores goes to the device's table with the cycle's one timestamp, whatever reconnects happen |
| PollSpec.PollTagReads | src/main.rs:229-291 | one tag issues the read its kind calls for, or none, and, unless the tag's step panics (always, as written, for an IntHolding read that returns its register), stores the row of that read exactly when it returned registers |
| PollSpec.VisitReadsEveryTag | src/main.rs:222-295 | a cycle without a panic reads every holding-register tag once, in configured order, with its request; a failed read does not stop the cycle |
| PollSpec.VisitRecordsSuccessfulReads | src/main.rs:222-295 | a cycle without a panic stores, in configured order, exactly one row per read that returned registers, with the decoded value |
| PollSpec.VisitReadsInOrder | src/main.rs:222-295 | every cycle, panicking or not, issues a prefix of the reads of the tag list, in configured order, cut at the tag whose read ended it |
| PollSpec.VisitRecordsBeforePanic | src/main.rs:222-295 | a cycle that panics has issued at least one read and has kept, in configured order, the rows of every read before the panicking one, one per read that returned registers |
| PollSpec.VisitPanicCause | src/main.rs:233-271 | a cycle panics only after a read that came back, never on a transport error, and the panic poisons the lock |
| PollSpec.PollTagReconnects | src/main.rs:240-256 | for one tag, a failed read is followed by one connect attempt and no connect is attempted otherwise |
| PollSpec.VisitReconnects | src/main.rs:273-289 | in a cycle, every failed read is followed by exactly one reconnect attempt, and no other connect is attempted |
| PollSpec.PollTagSessions | src/main.rs:245-256 | one tag reads with the session of the latest successful connect and keeps that session current |
| PollSpec.VisitSessions | src/main.rs:278-289 | every read of a cycle uses the session of the latest successful connect; a failed reconnect keeps the old session for the remaining tags |
| PollSpec.CyclesPoisoned | src/main.rs:218 | once the lock is poisoned, cycles change nothing |
| PollSpec.PanicSilencesOtherDevices | src/main.rs:218-238 | after a panic in one device's cycle, every cycle of any device sharing the database stores nothing |
| PollSpec.CycleStamped | src/main.rs:218-222 | a cycle only adds rows of the device's table stamped with its timestamp |
| PollSpec.CyclesChronological | src/main.rs:217-222 | with a clock that does not go backwards, the rows of a run of cycles go to the device's table with non-decreasing timestamps no earlier than the first cycle's |
| PollSpec.CyclesReconnectsAndSessions | src/main.rs:217-298 | over a run of cycles, each failed read gets exactly one reconnect attempt and every read uses the current session |
| PollSpec.ReadsFollowConnects | src/main.rs:209-217 | a trace that starts with connect attempts only and then reads with the current session never reads without a session, and every read in it uses the session of the latest successful connect |
| PollSpec.PollConnectsBeforeReading | src/main.rs:209-298 | no read is issued before the first successful connect; after it, every read uses the current session and connects happen only right after failed reads |
| Poller.ModbusTcpPoller.Connect | src/main.rs:210-252 | a connect attempt, both the outer loop's (210-213, through AcquireSession) and the reconnect after a failed read (245-252), whose session replaces the old one exactly when it succeeds |
| Poller.ModbusTcpPoller.Abort | src/main.rs:236-238 | a panic while the lock is held marks the thread dead and poisons the mutex |
| Poller.ModbusTcpPoller.Record | src/main.rs:233-238 | `execute(...).unwrap()`: stores the row, or panics when the statement is rejected |
| Poller.ModbusTcpPoller.ReadHolding | src/main.rs:229-291 | a read of a holding-register tag, then a stored row, one reconnect or a panic, as in the reference step under the poller's binding |
| Poller.ModbusTcpPoller.PollTag | src/main.rs:229-293 | one iteration of the tag loop, as in the reference step |
| Poller.ModbusTcpPoller.Cycle | src/main.rs:218-296 | one pass of the inner loop: the lock, one timestamp, then the tags in order until a panic |
| Poller.ModbusTcpPoller.AcquireSession | src/main.rs:209-216 | the connect-retry loop, bounded by `fuel` attempts |
| Poller.ModbusTcpPoller.Run | src/main.rs:199-308 | the whole thread: connect, then one cycle per clock reading until a panic |
| Scenarios.RetryUntilAccepted | src/main.rs:209-216 | three refused connects then one accepted: exactly four attempts, session 3, nothing read or stored |
| Scenarios.PiRegisters | src/main.rs:343-347 | registers 0x4049, 0x0FDB give the float with bit pattern 0x40490FDB (pi) |
| Scenarios.OneAndTwo | src/main.rs:343-347 | registers (0x3F80, 0) and (0x4000, 0) give the bit patterns of 1.0 and 2.0 |
| Scenarios.CycleStoresBothTags | src/main.rs:260-271 | a cycle over two float tags stores 1.0 and 2.0 in configured order under one timestamp |
| Scenarios.FailedReadReconnectsOnce | src/main.rs:273-289 | when the second tag's read fails, the first tag's row is stored and one reconnect replaces the session |
| Scenarios.ThirdCycleRecordsBoth | src/main.rs:260-271 | the next cycle reads both tags through the new session and stores both rows |
| Scenarios.WidenIsUnsigned | src/main.rs:236 | register 0xFFFF widens to 65535 |
| Scenarios.IntHoldingAsWrittenPanics | src/main.rs:234-238 | as written, recording an IntHolding sample panics, poisons the lock and stores nothing |
| Scenarios.SampleConfigCycle | src/main.rs:121-126 | a cycle over the sample configuration's tag PIT-1001 (IntHolding, address 0) whose register reads 7: as written the thread panics, poisons the lock and stores nothing; corrected it stores 7 |

## Left out

- SQLite itself (the table layout, `init_db`, SQL parsing) is not modelled. It
  is replaced by parameter binding against the statement's four placeholders
  and an oracle for whether each bound statement succeeds.
- The network is replaced by oracles for connect and read outcomes. This
  includes the 5-second connect timeout and the exception codes' meaning.
- The clock is a parameter: one reading per cycle.
- `sleep` between cycles and between connect attempts is left out.
- Thread creation and the supervisor that starts one thread per device
  (src/main.rs:150-197) are not modelled. Interleavings between threads are
  not modelled either; other devices appear only through the shared log and
  poison flag (`PanicSilencesOtherDevices`).
- Parsing the address string, and `exit(1)` when it fails
  (src/main.rs:205-208, 309-312), are not modelled; the endpoint is given.
- The command line and configuration loading are not modelled. The sample
  configuration's tag (src/main.rs:121-126) appears only as the tag of
  `Scenarios.SampleConfigCycle`.
- The RTU and other device types, and the `IntInput`/`RealInput`/`Coil`
  kinds, are not polled by the code; the model skips those kinds as the code
  does.
- Console output (`println!`) is not modelled.
- The f32 numeric value is not modelled; only its bit pattern, or the
  register it converts, is kept.
- PollSpec.CyclesChronological: the stored timestamp is
  `Local::now().naive_local().and_utc().timestamp()` (src/main.rs:219-220),
  local wall-clock time relabelled as UTC. It goes back when daylight saving
  time ends, so the lemma's hypothesis that the clock readings do not
  decrease is not guaranteed by the code; the rows then need not be in
  timestamp order.
- Poller.ModbusTcpPoller.AcquireSession: the outer loop retries forever; the
  model bounds it by `fuel` attempts.
- Poller.ModbusTcpPoller.Run: the inner loop runs forever; the model runs
  one cycle per given clock reading.

## Findings

| source | as written | input that shows it | evidently intended | confidence | as-written member | corrected member |
|---|---|---|---|---|---|---|
| src/main.rs:234-238 | the IntHolding INSERT binds `(device_name, timestamp, tag.name, tag.description, value)`, five values, to a statement with four placeholders `?1..?4`, and unwraps the result | any IntHolding tag whose read returns one register: the statement is rejected for its parameter count, `.unwrap()` panics and poisons the shared mutex (`Scenarios.IntHoldingAsWrittenPanics`, `Scenarios.SampleConfigCycle`) | bind `(timestamp, tag.name, tag.description, value)` as the RealHolding branch does, so the row is stored | high, not executed | Storage.IntHoldingParamsAsWritten | Storage.InsertParams |
