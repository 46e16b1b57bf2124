/** The calls the runner makes into code this model does not contain: the
    org.json parser and readers, `java.sql.Timestamp.valueOf`, and the
    PostgreSQL JDBC driver. Each appears as a parameter: a call that may throw
    is a partial function whose `None` stands for the exception. */
module Foreign {
  import opened Wrappers

  /** Java's `int`, which `getInt` returns and `setInt` binds. */
  newtype Int32 = x: int | -0x8000_0000 <= x < 0x8000_0000

  /** A `java.sql.Timestamp` as its calendar fields. */
  datatype Timestamp = Timestamp(
    year: int, month: int, day: int, hour: int, minute: int, second: int, nanos: int)

  /** One element of a parsed `JSONArray`: either a `JSONObject` (what
      `getJSONObject(i)` returns) or any other JSON value (on which it throws). */
  datatype Element<O> = ObjectElement(obj: O) | OtherElement

  /** org.json and `Timestamp.valueOf`, over an abstract type `O` of
      `JSONObject`s. */
  datatype Json<!O> = Json(
    parseArray: string -> Option<seq<Element<O>>>,   // new JSONArray(text)
    parseObject: string -> Option<O>,                // new JSONObject(text)
    getInt: (O, string) -> Option<Int32>,            // obj.getInt(key)
    getString: (O, string) -> Option<string>,        // obj.getString(key)
    timestampOf: string -> Option<Timestamp>)        // Timestamp.valueOf(text)

  /** A value bound to a parameter of the prepared INSERT. */
  datatype SqlValue = SqlInt(i: Int32) | SqlText(s: string) | SqlTimestamp(t: Timestamp)

  /** The answers the database gives, indexed by the number of the
      `insertIntoPostgres` call (0, 1, 2, ...): whether `getConnection` on the
      URL and `prepareStatement` succeed, and whether `executeUpdate` of the
      bound row succeeds. */
  datatype Driver = Driver(
    connects: (string, nat) -> bool,
    executes: (nat, seq<SqlValue>) -> bool)
}
