/**
  The persistence sink: the parameters bound into each device table's INSERT
  statement, and the shared SQLite connection behind its mutex. The database
  itself is a foreign library; it is modelled by the rows it holds and by an
  oracle that says whether each executed statement succeeds.
 */
module Storage {
  import opened Config
  import opened Codec

  /** A value bound to an SQL parameter. */
  datatype SqlValue = Integer(i: int) | Text(s: string) | Real(f: F32)

  /** The values of `(timestamp, tag, description, value)` of one inserted row. */
  datatype Row = Row(timestamp: SqlValue, tag: SqlValue, description: SqlValue, value: SqlValue)

  /** A row inserted into the table named after a device. */
  datatype Entry = Entry(table: string, row: Row)

  /** `VALUES (NULL, ?1, ?2, ?3, ?4)`: the INSERT statement has four placeholders. */
  const InsertPlaceholders := 4

  /** Binding parameters to the INSERT statement: the call is rejected unless
      there is exactly one value per placeholder; `?k` takes the k-th value. */
  function Bind(params: seq<SqlValue>): Option<Row>
  {
    if |params| == InsertPlaceholders then Some(Row(params[0], params[1], params[2], params[3]))
    else None
  }

  /** The row recorded for one sample of a tag. */
  function SampleRow(timestamp: int, tag: ModbusTag, value: F32): Row
  {
    Row(Integer(timestamp), Text(tag.name), Text(tag.description), Real(value))
  }

  /** The parameters bound for a sample, as the RealHolding branch binds them:
      `(timestamp, &tag.name, &tag.description, value)`. */
  function SampleParams(timestamp: int, tag: ModbusTag, value: F32): (params: seq<SqlValue>)
    ensures Bind(params) == Some(SampleRow(timestamp, tag, value))
  {
    [Integer(timestamp), Text(tag.name), Text(tag.description), Real(value)]
  }

  /** The parameters the IntHolding branch binds as written:
      `(device_name, timestamp, &tag.name, &tag.description, value)`, five values
      for four placeholders, so the statement is always rejected. */
  function IntHoldingParamsAsWritten(device: string, timestamp: int, tag: ModbusTag, value: F32): (params: seq<SqlValue>)
    ensures Bind(params) == None
  {
    [Text(device), Integer(timestamp), Text(tag.name), Text(tag.description), Real(value)]
  }

  /** Which parameters the IntHolding branch binds: the five values the code
      binds, or the four the statement takes. */
  datatype Binding = AsWritten | Corrected

  /** The parameters bound for a sample of `tag` read by `device`'s thread. */
  function InsertParams(b: Binding, device: string, timestamp: int, tag: ModbusTag, value: F32): (params: seq<SqlValue>)
    ensures Bind(params) == if b == AsWritten && tag.value == IntHolding then None
                            else Some(SampleRow(timestamp, tag, value))
  {
    if b == AsWritten && tag.value == IntHolding then IntHoldingParamsAsWritten(device, timestamp, tag, value)
    else SampleParams(timestamp, tag, value)
  }

  /**
    The SQLite connection shared by every device's poll thread, behind its
    mutex. `log` is what the device tables hold; `writeOk(k)` says whether the
    k-th statement that reaches SQLite succeeds (a missing table, a full or
    locked database file make it fail). `poisoned` is the mutex's poison flag,
    set when a thread panics while it holds the lock.
   */
  class Database {
    const writeOk: nat -> bool
    var writeCount: nat
    ghost var log: seq<Entry>
    var poisoned: bool

    constructor (writeOk: nat -> bool)
      ensures this.writeOk == writeOk
      ensures writeCount == 0 && log == [] && !poisoned
    {
      this.writeOk := writeOk;
      writeCount := 0;
      log := [];
      poisoned := false;
    }

    /** `mutex.lock()`: succeeds unless the mutex is poisoned. */
    method Lock() returns (ok: bool)
      ensures ok == !poisoned
    {
      ok := !poisoned;
    }

    /** `conn.execute(INSERT INTO table ..., params)`: a statement whose
        parameters do not bind is rejected before it reaches SQLite; a bound
        one appends its row exactly when SQLite accepts it. */
    method Execute(table: string, params: seq<SqlValue>) returns (ok: bool)
      modifies this`writeCount, this`log
      ensures ok == (Bind(params).Some? && writeOk(old(writeCount)))
      ensures writeCount == old(writeCount) + (if Bind(params).Some? then 1 else 0)
      ensures log == if ok then old(log) + [Entry(table, Bind(params).value)] else old(log)
    {
      var row := Bind(params);
      if row.None? {
        return false;
      }
      ok := writeOk(writeCount);
      writeCount := writeCount + 1;
      if ok {
        log := log + [Entry(table, row.value)];
      }
    }

    /** A thread panics while it holds the lock: the mutex becomes poisoned. */
    method Poison()
      modifies this`poisoned
      ensures poisoned
    {
      poisoned := true;
    }
  }
}
