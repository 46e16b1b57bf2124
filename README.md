# FleakFlowRunner record dispatch, in Dafny

`FleakFlowRunner` accepts jobs over an overlay network. It runs each job through a
ZephFlow pipeline that prints JSON records to standard output, captures that output,
and calls `insertIntoPostgres` on each JSON object it reaches: the object of an object
line, and an array's elements up to its first non-object. A successful insert adds
one row to the PostgreSQL table `transform`; one that fails is swallowed and writes
nothing. This project
models the part of the runner with statable behaviour:

- the argument guard at the top of `main` (`startup.dfy`);
- the JDBC URL that `connectToPostgres` builds (`startup.dfy`);
- the record dispatch over the captured output (`text.dfy`, `dispatch.dfy`):
  - the text is split on Java's `\R`;
  - each line is trimmed and classified by its first character, `[` before `{`;
  - array elements are inserted in index order until the first non-object;
  - each line has its own catch;
- `insertIntoPostgres` (`persistence.dfy`): one connection per call, four fields bound
  to the four parameters of the INSERT, and every failure swallowed.

Calls into code outside the runner are parameters (`foreign.dfy`):

- org.json parsing (`new JSONArray`, `new JSONObject`), `getInt` and `getString`, and
  `Timestamp.valueOf` are partial functions whose `None` stands for the exception they
  throw;
- `getJSONObject(i)` is decided by the kind of element i of the parsed array
  (`Foreign.Element`): it returns the object of an `ObjectElement` and throws on an
  `OtherElement`;
- the database is a `Driver`. Call number k of `insertIntoPostgres` connects, and then
  executes its row, exactly as the driver's answers for k say.

The database is a class, `Persistence.Postgres`. Its fields are:

- the rows of `transform`;
- the number of insert calls so far;
- the number of open connections;
- a ghost trace of the objects handed to `insertIntoPostgres`.

The methods are proved against specification functions:

- `Dispatch.HandleSpec` gives the calls one line makes and the fault that ends it;
- `Dispatch.Attempts` gives the calls of a sequence of lines;
- `Persistence.Rows` gives the rows that a run of calls writes.

The lemmas beside them state order, fault isolation, the stopping rule for array lines,
and when a row is written.

Where the code is more precise than a plain reading of it:

- `\R` breaks lines on CR LF and on each of LF, VT, FF, CR, NEL, U+2028 and U+2029, not
  only on `\n`, `\r` and `\r\n`.
- Empty output is split into one empty line, which is skipped.
- Trailing empty lines are dropped. Leading and inner empty lines are kept, and they
  are skipped.
- Cleanup of the staging file and of standard output is not done on every path, so the
  model claims no such invariant.

## Model

| member | source | states |
|---|---|---|
| Startup.CheckArgs | src/main/java/ai/fleak/FleakFlowRunner.java:31-35 | fewer than three arguments, and only then, exits with status 1; otherwise the first three arguments become identity, inbound service and outbound service |
| Startup.ExtraArgsIgnored | src/main/java/ai/fleak/FleakFlowRunner.java:31-35 | arguments after the third never change the outcome |
| Startup.JdbcUrl | src/main/java/ai/fleak/FleakFlowRunner.java:145 | the URL is `jdbc:postgresql://`, then the service, then `/mydb`, stated by length and by its three slices |
| Startup.ServiceOf | src/main/java/ai/fleak/FleakFlowRunner.java:145 | the host is read back exactly from strings of the URL's shape, and from no others |
| Startup.JdbcUrlRoundTrip | src/main/java/ai/fleak/FleakFlowRunner.java:145 | reading the host back from the URL gives the service |
| Startup.JdbcUrlInjective | src/main/java/ai/fleak/FleakFlowRunner.java:145 | distinct outbound services never share a URL |
| Startup.ServiceOfInverse | src/main/java/ai/fleak/FleakFlowRunner.java:145 | every string of the URL's shape is the URL of the host read from it |
| Text.Pieces | src/main/java/ai/fleak/FleakFlowRunner.java:103 | splitting at every `\R` match, CR LF as one match, yields at least one piece; where the cuts fall is stated by `PiecesOfSep` |
| Text.PiecesNoBreak | src/main/java/ai/fleak/FleakFlowRunner.java:103 | no piece contains a line-break character |
| Text.PiecesFlatten | src/main/java/ai/fleak/FleakFlowRunner.java:103 | the pieces, concatenated, are the text with its break characters removed, so no character is lost or reordered |
| Text.PiecesSingle | src/main/java/ai/fleak/FleakFlowRunner.java:103 | there is one piece exactly when the text has no break |
| Text.DropTrailingEmpty | src/main/java/ai/fleak/FleakFlowRunner.java:103 | the result is a prefix of the pieces that ends in a nonempty line (or is empty), and everything dropped is empty |
| Text.SplitLinesSound | src/main/java/ai/fleak/FleakFlowRunner.java:103 | `split("\\R")`: lines contain no break; they concatenate to the text minus its breaks; text without a break is returned whole; otherwise no trailing line is empty |
| Text.SplitLines | src/main/java/ai/fleak/FleakFlowRunner.java:103 | `split("\\R")`: the whole text when `\R` never matches, otherwise the pieces between matches without trailing empty ones; its meaning is stated by `SplitLinesSound`, `SplitLinesOfSep` and `SplitLinesOfJoin` |
| Text.PiecesOfSep | src/main/java/ai/fleak/FleakFlowRunner.java:103 | a break-free line followed by one `\R` match (CR LF, or a single LF, VT, FF, CR not followed by LF, NEL, U+2028 or U+2029) is a piece of its own, and the split continues after the match |
| Text.DropTrailingEmptyCons | src/main/java/ai/fleak/FleakFlowRunner.java:103 | when the pieces keep some line after trailing empty ones are dropped, a line put in front of them stays in front and the same empty pieces are dropped |
| Text.SplitLinesOfSep | src/main/java/ai/fleak/FleakFlowRunner.java:103 | `split("\\R")` of a break-free line, one `\R` match and a remainder whose last line is kept gives that line followed by the remainder's lines |
| Text.SplitLinesTwoLines | src/main/java/ai/fleak/FleakFlowRunner.java:103 | "a", any one `\R` match, then "b" splits into exactly ["a", "b"]: CR LF is one break, not two, and a lone CR, NEL, VT, FF, U+2028 or U+2029 breaks like LF |
| Text.SplitLinesInnerEmpty | src/main/java/ai/fleak/FleakFlowRunner.java:103 | two consecutive LFs keep the empty line between them |
| Text.SplitLinesFinalBreak | src/main/java/ai/fleak/FleakFlowRunner.java:103 | a final LF adds no trailing empty line |
| Text.PiecesOfLinePrefix | src/main/java/ai/fleak/FleakFlowRunner.java:103 | a break-free prefix joins the first piece of the text that follows it |
| Text.PiecesOfJoin | src/main/java/ai/fleak/FleakFlowRunner.java:103 | splitting break-free lines joined with LF at every break gives the lines back |
| Text.SplitLinesOfJoin | src/main/java/ai/fleak/FleakFlowRunner.java:103 | `split("\\R")` of LF-joined lines gives the lines back, minus trailing empty lines when there are several |
| Text.Trim | src/main/java/ai/fleak/FleakFlowRunner.java:112 | `String.trim()`: the line without its leading and trailing characters at or below U+0020; its meaning is stated by `TrimSound`, `TrimIsSlice` and `TrimIdempotent` |
| Text.LeadingBlank | src/main/java/ai/fleak/FleakFlowRunner.java:112 | the count of leading characters `trim` removes is at most the length |
| Text.TrailingBlank | src/main/java/ai/fleak/FleakFlowRunner.java:112 | the count of trailing characters `trim` removes is at most the length |
| Text.LeadingBlankSound | src/main/java/ai/fleak/FleakFlowRunner.java:112 | every leading character removed is at or below U+0020, and the first one kept is above it |
| Text.TrailingBlankSound | src/main/java/ai/fleak/FleakFlowRunner.java:112 | every trailing character removed is at or below U+0020, and the last one kept is above it |
| Text.TrimSound | src/main/java/ai/fleak/FleakFlowRunner.java:112 | `trim` gives the empty string exactly for blank lines; otherwise the result begins and ends with a character above U+0020 |
| Text.TrimIsSlice | src/main/java/ai/fleak/FleakFlowRunner.java:112 | the trimmed line is a contiguous slice of the line, and every character outside it is at or below U+0020 |
| Text.TrimIdempotent | src/main/java/ai/fleak/FleakFlowRunner.java:112 | trimming twice is trimming once |
| Dispatch.Classify | src/main/java/ai/fleak/FleakFlowRunner.java:112-125 | the decision of lines 112-125 on the trimmed line: `[` first, then `{`, else skip; stated by `ClassifySound` |
| Dispatch.ClassifySound | src/main/java/ai/fleak/FleakFlowRunner.java:112-125 | a line is an array line exactly when its trimmed text starts with `[`, and an object line exactly when it starts with `{`; the trimmed text is what gets parsed; blank lines are skipped |
| Dispatch.ObjectPrefix | src/main/java/ai/fleak/FleakFlowRunner.java:115-118 | an array's leading objects are never more than its elements |
| Dispatch.ObjectPrefixSound | src/main/java/ai/fleak/FleakFlowRunner.java:115-118 | the leading objects are the array's first elements, in index order, and they stop at the end of the array or at an element that is not an object |
| Dispatch.PrefixIsObjectPrefix | src/main/java/ai/fleak/FleakFlowRunner.java:115-118 | any run of leading objects that ends at the end of the array or at a non-object is exactly the array's object prefix |
| Dispatch.HandleSpec | src/main/java/ai/fleak/FleakFlowRunner.java:111-128 | the `insertIntoPostgres` calls of one line, in order, and the exception that ends the line, if any; `HandleLine` is proved to follow it and `HandleSpecSound` states its properties |
| Dispatch.HandleSpecSound | src/main/java/ai/fleak/FleakFlowRunner.java:111-128 | a skipped line makes no call and raises nothing; a parse failure makes no call; an object line makes at most one call; a non-object element faults only on an array line, at the index of the first element not inserted |
| Dispatch.Attempts | src/main/java/ai/fleak/FleakFlowRunner.java:110-130 | the calls of a run of lines, line after line; `DispatchLines` is proved to follow it and `AttemptsAppend` and `FaultIsolation` state its properties |
| Dispatch.InsertArray | src/main/java/ai/fleak/FleakFlowRunner.java:114-118 | the loop over an array's indices calls `insertIntoPostgres` on exactly the array's leading objects, in order; the table gains exactly their rows; it reports a fault at the first non-object, if there is one; every connection it opens is closed |
| Dispatch.HandleLine | src/main/java/ai/fleak/FleakFlowRunner.java:111-129 | one line's try block makes the calls `HandleSpec` gives, appends their rows to the table, and hands the catch exactly the fault `HandleSpec` gives |
| Dispatch.DispatchLines | src/main/java/ai/fleak/FleakFlowRunner.java:110-130 | the loop over lines makes the calls of every line, in line order, whatever faults occur, and the table gains exactly the rows those calls write |
| Dispatch.DispatchOutput | src/main/java/ai/fleak/FleakFlowRunner.java:103-130 | the captured output's insert trace is the in-order concatenation of the traces of its `\R`-split lines, and the table gains exactly their rows |
| Dispatch.AttemptsStep | src/main/java/ai/fleak/FleakFlowRunner.java:110-130 | handling one more line appends that line's calls to the trace |
| Dispatch.AttemptsAppend | src/main/java/ai/fleak/FleakFlowRunner.java:110-130 | the trace of consecutive groups of lines is the concatenation of their traces |
| Dispatch.FaultIsolation | src/main/java/ai/fleak/FleakFlowRunner.java:110-130 | whatever line j does, fault included, the lines before and after it make exactly the calls they make on their own |
| Dispatch.SkippedLinesMakeNoCalls | src/main/java/ai/fleak/FleakFlowRunner.java:123-125 | lines that are skipped, blank ones included, make no insert calls |
| Dispatch.ArrayLineStopsAtFirstNonObject | src/main/java/ai/fleak/FleakFlowRunner.java:113-118 | on an array whose first non-object is element i, exactly elements 0 .. i-1 are inserted, in order, and the fault names index i |
| Dispatch.ArrayLineOfObjects | src/main/java/ai/fleak/FleakFlowRunner.java:113-118 | on an array whose elements are all objects, every element is inserted, in index order, and nothing is raised |
| Dispatch.UnparsableLineMakesNoCalls | src/main/java/ai/fleak/FleakFlowRunner.java:113-128 | a line that starts like JSON but does not parse adds no calls, and the lines around it make their usual calls |
| Dispatch.DispatchOfJoinedLines | src/main/java/ai/fleak/FleakFlowRunner.java:103-130 | output written as one record per LF-terminated line is dispatched exactly as those lines; the empty lines that the split drops would have made no calls |
| Dispatch.OneCallPerObjectLine | src/main/java/ai/fleak/FleakFlowRunner.java:119-122 | output made of parsable object lines calls once per line, with that line's object, in line order |
| Persistence.Bindings | src/main/java/ai/fleak/FleakFlowRunner.java:158-164 | the four parameters of the INSERT, read in column order, or the first read that throws; stated by `BindingsSound` |
| Persistence.BindingsSound | src/main/java/ai/fleak/FleakFlowRunner.java:158-164 | binding succeeds exactly when all four fields can be read as their column's type; parameter c+1 is then the value of column c, in the INSERT's column order; otherwise the error names the first unreadable column |
| Persistence.InsertOutcomeSound | src/main/java/ai/fleak/FleakFlowRunner.java:155-176 | a row is written exactly when the connection opens, all four fields bind and `executeUpdate` succeeds, and the row is the bound parameters; a connection failure comes before any read; a read failure is reported as such; the INSERT runs only on a readable object |
| Persistence.InsertOutcome | src/main/java/ai/fleak/FleakFlowRunner.java:155-176 | the row one `insertIntoPostgres` call writes, or the failure it swallows; stated by `InsertOutcomeSound` |
| Persistence.Rows | src/main/java/ai/fleak/FleakFlowRunner.java:155-176 | the rows a run of consecutive calls writes, one per successful call, in call order; stated by `RowsOfOne`, `RowsAppend`, `RowsAtMostOnePerCall` and `RowsWhenAllSucceed` |
| Persistence.InsertIntoPostgres | src/main/java/ai/fleak/FleakFlowRunner.java:155-176 | every call returns normally, appends its object to the trace, adds to the table exactly the row `InsertOutcome` gives (if any), and leaves no connection open |
| Persistence.RowsOfOne | src/main/java/ai/fleak/FleakFlowRunner.java:155-176 | a single call adds its row when its outcome succeeds, and nothing otherwise |
| Persistence.RowsAppend | src/main/java/ai/fleak/FleakFlowRunner.java:155-176 | the rows of consecutive runs of calls concatenate, with call numbers that continue |
| Persistence.LedgerAppend | src/main/java/ai/fleak/FleakFlowRunner.java:155-176 | a trace, call count and table that are consistent with one run of calls stay consistent after a further run is appended |
| Persistence.RowsAtMostOnePerCall | src/main/java/ai/fleak/FleakFlowRunner.java:155-176 | each call writes at most one row |
| Persistence.RowsWhenAllSucceed | src/main/java/ai/fleak/FleakFlowRunner.java:155-176 | when the database accepts every call and every object is readable, each call writes its object's bound row, one per object, in order |

## Left out

- The Ziti overlay network is not modelled: context creation, `bind`, `accept`, and the 20-second propagation sleep (lines 41-56). It is network I/O through a foreign SDK.
- The job's staging file is not modelled: `transferTo`, the temporary file and its deletion (lines 59-65, 96).
- The redirection of `System.out` is not modelled (lines 68-70, 98). The captured text is a parameter of `Dispatch.DispatchOutput`, already decoded to characters. Byte-to-character decoding by `toString()` is not modelled.
- The ZephFlow pipeline is not modelled (lines 75-93). That includes the expression computing `doubled_value`, which the external engine evaluates. So nothing relates `doubled_value` to `original_value`.
- JDBC, org.json and `Timestamp.valueOf` internals are abstract parameters. Connection properties (lines 146-149) are not modelled. Neither is whether a JSON integer fits `getInt`: that is the reader's own answer.
- `stmt.close()` (line 172) and the try-with-resources close are modelled only as the count of open connections, which every call leaves as it found it.
- Timing and plumbing are not modelled: latency measurement (lines 91-99), the `hashCode` job id (line 58), the 1-second backoff and the outer catch (lines 135-139), and the double `client.close()` (lines 72, 133).
- Printing is not modelled: the record echo (lines 100, 104-107, 132) and the `printf` inside `insertIntoPostgres` (lines 165-169). That `printf` re-reads fields that were already read successfully, so it cannot throw where the binding did not.
- The prepared-statement setters (`setInt`, `setString`, `setTimestamp`, lines 161-164) are taken never to throw. An `SQLException` from one of them would be swallowed like any other failure and write no row. The model would report it as an unreadable field or a failed execute, so only the label of the swallowed failure differs, not the outcome.
- Java `Error`s and other throwables that no `catch (Exception e)` catches are not modelled. The model assumes every failure is an `Exception`.
- Persistence.InsertIntoPostgres: the database is an oracle indexed by call number, so the model says nothing about what the server does with concurrent writers or constraints.
