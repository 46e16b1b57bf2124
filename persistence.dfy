/** `insertIntoPostgres`: one connection per call, four fields bound to the
    four parameters of one INSERT into table `transform`, and every failure
    caught inside the call. */
module Persistence {
  import opened Wrappers
  import opened Foreign
  import Startup
  import opened Sequences

  /** A row of table `transform`: one value per column of `Columns`. */
  type Row = seq<SqlValue>

  /** The column list of the INSERT statement; column i receives parameter i + 1. */
  const Columns: seq<string> := ["doubled_value", "original_value", "status", "timestamp"]

  /** The setter the runner uses for each column: `setInt`, `setString`, `setTimestamp`. */
  datatype SqlType = IntType | TextType | TimestampType

  const ColumnTypes: seq<SqlType> := [IntType, IntType, TextType, TimestampType]

  /** Why a call of `insertIntoPostgres` wrote no row; each is caught inside it. */
  datatype InsertError =
    | ConnectFailed            // getConnection or prepareStatement threw
    | Unreadable(key: string)  // getInt / getString / Timestamp.valueOf threw for this field
    | ExecuteFailed            // executeUpdate threw

  /** Reading field `key` of `obj` for a parameter of type `ty`. */
  function ReadAs<O>(json: Json<O>, obj: O, key: string, ty: SqlType): Option<SqlValue> {
    match ty
    case IntType =>
      (match json.getInt(obj, key) case None => None case Some(i) => Some(SqlInt(i)))
    case TextType =>
      (match json.getString(obj, key) case None => None case Some(s) => Some(SqlText(s)))
    case TimestampType =>
      match json.getString(obj, key)
      case None => None
      case Some(s) =>
        match json.timestampOf(s) case None => None case Some(t) => Some(SqlTimestamp(t))
  }

  /** Every column's field can be read as the column's type. */
  predicate Readable<O>(json: Json<O>, obj: O) {
    forall c :: 0 <= c < |Columns| ==> ReadAs(json, obj, Columns[c], ColumnTypes[c]).Some?
  }

  /** The parameters bound by lines 161-164, read in that order; the first read
      that throws ends the call. */
  function Bindings<O>(json: Json<O>, obj: O): Result<Row, InsertError> {
    var d := json.getInt(obj, "doubled_value");
    var o := json.getInt(obj, "original_value");
    var s := json.getString(obj, "status");
    var t := json.getString(obj, "timestamp");
    if d.None? then Err(Unreadable("doubled_value"))
    else if o.None? then Err(Unreadable("original_value"))
    else if s.None? then Err(Unreadable("status"))
    else if t.None? || json.timestampOf(t.value).None? then Err(Unreadable("timestamp"))
    else Ok([SqlInt(d.value), SqlInt(o.value), SqlText(s.value), SqlTimestamp(json.timestampOf(t.value).value)])
  }

  /** The binding succeeds exactly when every column's field is readable, and
      then parameter c + 1 is the value read for column c; otherwise the error
      names the first column, in column order, whose read throws. */
  lemma BindingsSound<O>(json: Json<O>, obj: O)
    ensures Bindings(json, obj).Ok? <==> Readable(json, obj)
    ensures Bindings(json, obj).Ok? ==> |Bindings(json, obj).value| == |Columns|
    ensures Bindings(json, obj).Ok? ==> forall c :: 0 <= c < |Columns| ==>
              ReadAs(json, obj, Columns[c], ColumnTypes[c]) == Some(Bindings(json, obj).value[c])
    ensures Bindings(json, obj).Err? ==>
              exists c :: 0 <= c < |Columns| && Bindings(json, obj).error == Unreadable(Columns[c])
                          && ReadAs(json, obj, Columns[c], ColumnTypes[c]).None?
                          && forall d :: 0 <= d < c ==> ReadAs(json, obj, Columns[d], ColumnTypes[d]).Some?
  {
    assert Columns[0] == "doubled_value" && ColumnTypes[0] == IntType;
    assert Columns[1] == "original_value" && ColumnTypes[1] == IntType;
    assert Columns[2] == "status" && ColumnTypes[2] == TextType;
    assert Columns[3] == "timestamp" && ColumnTypes[3] == TimestampType;
  }

  /** What call number `call` of `insertIntoPostgres(obj, service)` ends in:
      the row it inserted, or the failure it caught. */
  function InsertOutcome<O>(json: Json<O>, driver: Driver, service: string, call: nat, obj: O)
    : Result<Row, InsertError>
  {
    if !driver.connects(Startup.JdbcUrl(service), call) then Err(ConnectFailed)
    else match Bindings(json, obj)
      case Err(e) => Err(e)
      case Ok(row) => if driver.executes(call, row) then Ok(row) else Err(ExecuteFailed)
  }

  /** A call inserts a row exactly when the connection opens, all four fields
      can be bound (see `BindingsSound`) and the execution succeeds, and the row is the bound
      parameters; a connection failure is reported before any field is read, a
      read failure before the INSERT runs, and the INSERT runs only on a
      readable object. */
  lemma InsertOutcomeSound<O>(json: Json<O>, driver: Driver, service: string, call: nat, obj: O)
    ensures InsertOutcome(json, driver, service, call, obj).Ok? <==>
              driver.connects(Startup.JdbcUrl(service), call) && Bindings(json, obj).Ok?
              && driver.executes(call, Bindings(json, obj).value)
    ensures InsertOutcome(json, driver, service, call, obj).Ok? ==>
              InsertOutcome(json, driver, service, call, obj) == Bindings(json, obj)
    ensures !driver.connects(Startup.JdbcUrl(service), call) ==>
              InsertOutcome(json, driver, service, call, obj) == Err(ConnectFailed)
    ensures driver.connects(Startup.JdbcUrl(service), call) && Bindings(json, obj).Err? ==>
              InsertOutcome(json, driver, service, call, obj) == Bindings(json, obj)
    ensures InsertOutcome(json, driver, service, call, obj) == Err(ExecuteFailed) ==>
              driver.connects(Startup.JdbcUrl(service), call) && Readable(json, obj)
  {
    BindingsSound(json, obj);
  }

  /** The rows a run of consecutive calls, numbered from `first`, adds to the table. */
  function Rows<O>(json: Json<O>, driver: Driver, service: string, first: nat, objs: seq<O>): seq<Row>
    decreases |objs|
  {
    if objs == [] then []
    else
      (match InsertOutcome(json, driver, service, first, objs[0])
       case Ok(row) => [row]
       case Err(_) => [])
      + Rows(json, driver, service, first + 1, objs[1..])
  }

  /** The database as the runner sees it: the rows it has written to
      `transform`, the number of `insertIntoPostgres` calls so far (the
      position in the driver's schedule), the connections it holds open, and
      the trace of objects handed to `insertIntoPostgres`. */
  class Postgres<O> {
    const driver: Driver
    var table: seq<Row>
    var calls: nat
    var open: nat
    ghost var attempts: seq<O>

    ghost predicate Valid()
      reads this
    {
      calls == |attempts|
    }

    constructor (driver: Driver, table: seq<Row>)
      ensures Valid() && this.driver == driver && this.table == table
      ensures attempts == [] && open == 0
    {
      this.driver := driver;
      this.table := table;
      calls := 0;
      open := 0;
      attempts := [];
    }
  }

  /** `insertIntoPostgres(obj, service)`: opens a connection, binds the four
      fields, runs the INSERT, and swallows whatever is thrown. The call is
      recorded, the table gains exactly the row `InsertOutcome` gives (if any),
      and the connection it opened is closed again on every path. */
  method InsertIntoPostgres<O>(json: Json<O>, db: Postgres<O>, obj: O, service: string)
    requires db.Valid()
    modifies db
    ensures db.Valid()
    ensures db.attempts == old(db.attempts) + [obj]
    ensures db.open == old(db.open)
    ensures db.table == old(db.table) + Rows(json, db.driver, service, old(db.calls), [obj])
  {
    var call := db.calls;
    db.calls := db.calls + 1;
    db.attempts := db.attempts + [obj];
    RowsOfOne(json, db.driver, service, call, obj);

    // try (Connection conn = connectToPostgres(service)) { conn.prepareStatement(...) ...
    var url := Startup.JdbcUrl(service);
    if !db.driver.connects(url, call) {
      return;  // caught: connection failed
    }
    db.open := db.open + 1;

    var params: map<nat, SqlValue> := map[];
    var doubled := json.getInt(obj, "doubled_value");
    if doubled.None? {
      db.open := db.open - 1;
      return;  // caught: closed by try-with-resources
    }
    params := params[1 := SqlInt(doubled.value)];
    var original := json.getInt(obj, "original_value");
    if original.None? {
      db.open := db.open - 1;
      return;
    }
    params := params[2 := SqlInt(original.value)];
    var status := json.getString(obj, "status");
    if status.None? {
      db.open := db.open - 1;
      return;
    }
    params := params[3 := SqlText(status.value)];
    var text := json.getString(obj, "timestamp");
    if text.None? {
      db.open := db.open - 1;
      return;
    }
    var stamp := json.timestampOf(text.value);
    if stamp.None? {
      db.open := db.open - 1;
      return;
    }
    params := params[4 := SqlTimestamp(stamp.value)];

    // stmt.executeUpdate(): the statement's parameters in column order
    var row := [params[1], params[2], params[3], params[4]];
    assert Bindings(json, obj) == Ok(row);
    if db.driver.executes(call, row) {
      db.table := db.table + [row];
    }
    db.open := db.open - 1;
  }

  /** A single call adds the row it inserted, or nothing. */
  lemma RowsOfOne<O>(json: Json<O>, driver: Driver, service: string, call: nat, obj: O)
    ensures Rows(json, driver, service, call, [obj]) ==
            if InsertOutcome(json, driver, service, call, obj).Ok?
            then [InsertOutcome(json, driver, service, call, obj).value] else []
  {
    assert [obj][1..] == [];
    assert Rows(json, driver, service, call + 1, []) == [];
  }

  /** Rows written by consecutive calls split at any point: the second run
      starts at call number `mid`. */
  lemma {:induction false} RowsAppend<O>(json: Json<O>, driver: Driver, service: string,
                                         first: nat, mid: nat, a: seq<O>, b: seq<O>)
    requires mid == first + |a|
    ensures Rows(json, driver, service, first, a + b)
         == Rows(json, driver, service, first, a) + Rows(json, driver, service, mid, b)
    decreases |a|
  {
    if a != [] {
      assert (a + b)[0] == a[0];
      assert (a + b)[1..] == a[1..] + b;
      RowsAppend(json, driver, service, first + 1, mid, a[1..], b);
      var head := match InsertOutcome(json, driver, service, first, a[0])
                  case Ok(row) => [row]
                  case Err(_) => [];
      AppendAssoc(head, Rows(json, driver, service, first + 1, a[1..]), Rows(json, driver, service, mid, b));
    } else {
      assert a + b == b;
    }
  }

  /** The ledger kept by a loop of calls: after the calls `before` the trace
      and the table extend their starting values `attempts0` and `table0`;
      after one more batch `step` they extend them by `before + step`. */
  lemma LedgerAppend<O>(json: Json<O>, driver: Driver, service: string,
                        attempts0: seq<O>, table0: seq<Row>, calls0: nat, before: seq<O>, step: seq<O>,
                        attempts: seq<O>, table: seq<Row>, calls: nat, attempts': seq<O>, table': seq<Row>)
    requires attempts == attempts0 + before && calls == calls0 + |before|
    requires table == table0 + Rows(json, driver, service, calls0, before)
    requires attempts' == attempts + step && table' == table + Rows(json, driver, service, calls, step)
    ensures attempts' == attempts0 + (before + step)
    ensures calls + |step| == calls0 + |before + step|
    ensures table' == table0 + Rows(json, driver, service, calls0, before + step)
  {
    RowsAppend(json, driver, service, calls0, calls, before, step);
    AppendAssoc(attempts0, before, step);
    AppendAssoc(table0, Rows(json, driver, service, calls0, before), Rows(json, driver, service, calls, step));
  }

  /** Each call writes at most one row. */
  lemma {:induction false} RowsAtMostOnePerCall<O>(json: Json<O>, driver: Driver, service: string,
                                                   first: nat, objs: seq<O>)
    ensures |Rows(json, driver, service, first, objs)| <= |objs|
    decreases |objs|
  {
    if objs != [] {
      RowsAtMostOnePerCall(json, driver, service, first + 1, objs[1..]);
    }
  }

  /** When the database accepts every call and every object carries the four
      fields, each call writes its object's row: one row per object, in order. */
  lemma {:induction false} RowsWhenAllSucceed<O>(json: Json<O>, driver: Driver, service: string,
                                                 first: nat, objs: seq<O>)
    requires forall i :: 0 <= i < |objs| ==> Readable(json, objs[i])
    requires forall k :: first <= k < first + |objs| ==> driver.connects(Startup.JdbcUrl(service), k)
    requires forall k, row :: first <= k < first + |objs| ==> driver.executes(k, row)
    ensures |Rows(json, driver, service, first, objs)| == |objs|
    ensures forall i :: 0 <= i < |objs| ==>
              Ok(Rows(json, driver, service, first, objs)[i]) == Bindings(json, objs[i])
    decreases |objs|
  {
    if objs != [] {
      RowsWhenAllSucceed(json, driver, service, first + 1, objs[1..]);
      var rest := Rows(json, driver, service, first + 1, objs[1..]);
      BindingsSound(json, objs[0]);
      InsertOutcomeSound(json, driver, service, first, objs[0]);
      assert InsertOutcome(json, driver, service, first, objs[0]).Ok?;
      forall i | 1 <= i < |objs|
        ensures Ok(Rows(json, driver, service, first, objs)[i]) == Bindings(json, objs[i])
      {
        assert objs[1..][i - 1] == objs[i];
      }
    }
  }
}
