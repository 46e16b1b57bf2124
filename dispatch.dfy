/** The record dispatch inside the accept loop of `FleakFlowRunner.main`: the
    captured pipeline output is split into lines, each line is trimmed and
    classified by its first character, and every JSON object found is handed
    to `insertIntoPostgres`, with a catch around each line. */
module Dispatch {
  import opened Wrappers
  import opened Foreign
  import opened Text
  import opened Persistence
  import opened Sequences

  /** How the loop treats a line, by the first character of the trimmed line. */
  datatype LineKind = ArrayLine(text: string) | ObjectLine(text: string) | Skipped

  /** `[` is checked before `{`; a blank line and any other first character are
      skipped. An array or object line carries the trimmed text. */
  function Classify(line: string): LineKind {
    var trimmed := Trim(line);
    if ['['] <= trimmed then ArrayLine(trimmed)
    else if ['{'] <= trimmed then ObjectLine(trimmed)
    else Skipped
  }

  /** A line is an array line exactly when its trimmed text starts with `[`,
      an object line exactly when it starts with `{`, and a blank line is
      always skipped. */
  lemma ClassifySound(line: string)
    ensures Classify(line).ArrayLine? <==> Trim(line) != [] && Trim(line)[0] == '['
    ensures Classify(line).ObjectLine? <==> Trim(line) != [] && Trim(line)[0] == '{'
    ensures !Classify(line).Skipped? ==> Classify(line).text == Trim(line)
    ensures Blank(line) ==> Classify(line) == Skipped
  {
    TrimSound(line);
  }

  /** What the per-line catch can receive: the array or object text does not
      parse, or `getJSONObject(index)` finds a non-object element. */
  datatype Fault = ArrayUnparsable | ObjectUnparsable | NotAnObject(index: nat)

  /** The objects one line hands to `insertIntoPostgres`, in call order, and
      the exception (if any) that ended the line. */
  datatype LineReport<O> = LineReport(attempts: seq<O>, fault: Option<Fault>)

  /** The objects at the front of an array, up to the first element that is not
      an object: the calls `getJSONObject(0)`, `getJSONObject(1)`, ... succeed
      for exactly these. */
  function ObjectPrefix<O>(elems: seq<Element<O>>): (r: seq<O>)
    ensures |r| <= |elems|
  {
    if elems == [] then []
    else match elems[0]
      case OtherElement => []
      case ObjectElement(o) => [o] + ObjectPrefix(elems[1..])
  }

  /** The prefix holds the objects of the first elements, in order, and stops
      at the end of the array or at an element that is not an object. */
  lemma {:induction false} ObjectPrefixSound<O>(elems: seq<Element<O>>)
    ensures forall i :: 0 <= i < |ObjectPrefix(elems)| ==> elems[i] == ObjectElement(ObjectPrefix(elems)[i])
    ensures |ObjectPrefix(elems)| < |elems| ==> elems[|ObjectPrefix(elems)|].OtherElement?
  {
    if elems != [] && elems[0].ObjectElement? {
      var r, rest := ObjectPrefix(elems), ObjectPrefix(elems[1..]);
      ObjectPrefixSound(elems[1..]);
      assert r == [elems[0].obj] + rest;
      forall i | 1 <= i < |r| ensures elems[i] == ObjectElement(r[i]) {
        assert r[i] == rest[i - 1] && elems[i] == elems[1..][i - 1];
      }
      if |r| < |elems| {
        assert elems[|r|] == elems[1..][|rest|];
      }
    }
  }

  /** The outcome of the loop body for one line (lines 111-128). */
  function HandleSpec<O>(json: Json<O>, line: string): LineReport<O> {
    match Classify(line)
    case Skipped => LineReport([], None)
    case ObjectLine(text) =>
      (match json.parseObject(text)
       case None => LineReport([], Some(ObjectUnparsable))
       case Some(obj) => LineReport([obj], None))
    case ArrayLine(text) =>
      match json.parseArray(text)
      case None => LineReport([], Some(ArrayUnparsable))
      case Some(elems) =>
        var done := ObjectPrefix(elems);
        LineReport(done, if |done| < |elems| then Some(NotAnObject(|done|)) else None)
  }

  /** A skipped line makes no call and raises nothing; a parse failure makes no
      call; an object line makes at most one call; and a non-object array
      element is reported at the index of the first element not inserted. */
  lemma HandleSpecSound<O>(json: Json<O>, line: string)
    ensures Classify(line).Skipped? ==> HandleSpec(json, line) == LineReport([], None)
    ensures HandleSpec(json, line).fault in {Some(ArrayUnparsable), Some(ObjectUnparsable)} ==>
              HandleSpec(json, line).attempts == []
    ensures Classify(line).ObjectLine? ==> |HandleSpec(json, line).attempts| <= 1
    ensures HandleSpec(json, line).fault.Some? && HandleSpec(json, line).fault.value.NotAnObject? ==>
              Classify(line).ArrayLine?
              && HandleSpec(json, line).fault.value.index == |HandleSpec(json, line).attempts|
  {
  }

  /** Every `insertIntoPostgres` call the loop over `lines` makes, in order. */
  function Attempts<O>(json: Json<O>, lines: seq<string>): seq<O>
  {
    if lines == [] then [] else HandleSpec(json, lines[0]).attempts + Attempts(json, lines[1..])
  }

  /** The loop over the elements of an array line (lines 114-118): elements
      0, 1, ... are inserted until one is not an object, whose
      `getJSONObject` throws out of the loop. */
  method InsertArray<O>(json: Json<O>, db: Postgres<O>, elems: seq<Element<O>>, service: string)
    returns (fault: Option<Fault>)
    requires db.Valid()
    modifies db
    ensures db.Valid() && db.open == old(db.open)
    ensures db.attempts == old(db.attempts) + ObjectPrefix(elems)
    ensures db.table == old(db.table) + Rows(json, db.driver, service, old(db.calls), ObjectPrefix(elems))
    ensures fault == if |ObjectPrefix(elems)| < |elems| then Some(NotAnObject(|ObjectPrefix(elems)|)) else None
  {
    ghost var attempts0, table0, calls0 := db.attempts, db.table, db.calls;
    ghost var done: seq<O> := [];
    var i := 0;
    while i < |elems|
      invariant 0 <= i <= |elems| && |done| == i
      invariant forall j :: 0 <= j < i ==> elems[j] == ObjectElement(done[j])
      invariant db.Valid() && db.open == old(db.open)
      invariant db.attempts == attempts0 + done && db.calls == calls0 + |done|
      invariant db.table == table0 + Rows(json, db.driver, service, calls0, done)
    {
      match elems[i]
      case OtherElement =>
        PrefixIsObjectPrefix(elems, done);
        return Some(NotAnObject(i));
      case ObjectElement(obj) =>
        ghost var attempts, table, calls := db.attempts, db.table, db.calls;
        InsertIntoPostgres(json, db, obj, service);
        LedgerAppend(json, db.driver, service, attempts0, table0, calls0, done, [obj],
                     attempts, table, calls, db.attempts, db.table);
        done := done + [obj];
      i := i + 1;
    }
    PrefixIsObjectPrefix(elems, done);
    return None;
  }

  /** A run of objects that ends at the end of the array or at a non-object
      is the array's object prefix. */
  lemma {:induction false} PrefixIsObjectPrefix<O>(elems: seq<Element<O>>, done: seq<O>)
    requires |done| <= |elems|
    requires forall j :: 0 <= j < |done| ==> elems[j] == ObjectElement(done[j])
    requires |done| == |elems| || elems[|done|].OtherElement?
    ensures ObjectPrefix(elems) == done
  {
    if done != [] {
      assert elems[0] == ObjectElement(done[0]);
      forall j | 0 <= j < |done| - 1 ensures elems[1..][j] == ObjectElement(done[1..][j]) {
        assert elems[1..][j] == elems[j + 1];
      }
      if |done| < |elems| {
        assert elems[1..][|done| - 1] == elems[|done|];
      }
      PrefixIsObjectPrefix(elems[1..], done[1..]);
      assert done == [done[0]] + done[1..];
    } else if elems != [] {
      assert elems[0].OtherElement?;
    }
  }

  /** The body of the loop over lines (lines 111-128) for one line: the try
      block, with what reaches the catch returned as `fault`. */
  method HandleLine<O>(json: Json<O>, db: Postgres<O>, line: string, service: string)
    returns (fault: Option<Fault>)
    requires db.Valid()
    modifies db
    ensures db.Valid() && db.open == old(db.open)
    ensures fault == HandleSpec(json, line).fault
    ensures db.attempts == old(db.attempts) + HandleSpec(json, line).attempts
    ensures db.table == old(db.table)
                        + Rows(json, db.driver, service, old(db.calls), HandleSpec(json, line).attempts)
  {
    var trimmed := Trim(line);
    if ['['] <= trimmed {
      var arr := json.parseArray(trimmed);
      if arr.None? {
        return Some(ArrayUnparsable);
      }
      fault := InsertArray(json, db, arr.value, service);
    } else if ['{'] <= trimmed {
      var obj := json.parseObject(trimmed);
      if obj.None? {
        return Some(ObjectUnparsable);
      }
      InsertIntoPostgres(json, db, obj.value, service);
      fault := None;
    } else {
      fault := None;  // "Skipping non-JSON line"
    }
  }

  /** The loop over lines (lines 110-130): every line is handled in order,
      and a fault ends only its own line. */
  method DispatchLines<O>(json: Json<O>, db: Postgres<O>, lines: seq<string>, service: string)
    requires db.Valid()
    modifies db
    ensures db.Valid() && db.open == old(db.open)
    ensures db.attempts == old(db.attempts) + Attempts(json, lines)
    ensures db.table == old(db.table) + Rows(json, db.driver, service, old(db.calls), Attempts(json, lines))
  {
    ghost var attempts0, table0, calls0 := db.attempts, db.table, db.calls;
    var i := 0;
    while i < |lines|
      invariant 0 <= i <= |lines|
      invariant db.Valid() && db.open == old(db.open)
      invariant db.attempts == attempts0 + Attempts(json, lines[..i])
      invariant db.calls == calls0 + |Attempts(json, lines[..i])|
      invariant db.table == table0 + Rows(json, db.driver, service, calls0, Attempts(json, lines[..i]))
    {
      ghost var attempts, table, calls := db.attempts, db.table, db.calls;
      var _ := HandleLine(json, db, lines[i], service);
      LedgerAppend(json, db.driver, service, attempts0, table0, calls0,
                   Attempts(json, lines[..i]), HandleSpec(json, lines[i]).attempts,
                   attempts, table, calls, db.attempts, db.table);
      AttemptsStep(json, lines, i);
      i := i + 1;
    }
    assert lines[..i] == lines;
  }

  /** The dispatch (lines 103-130): split the captured output on `\R` and
      handle the lines. */
  method DispatchOutput<O>(json: Json<O>, db: Postgres<O>, captured: string, service: string)
    requires db.Valid()
    modifies db
    ensures db.Valid() && db.open == old(db.open)
    ensures db.attempts == old(db.attempts) + Attempts(json, SplitLines(captured))
    ensures db.table == old(db.table)
                        + Rows(json, db.driver, service, old(db.calls), Attempts(json, SplitLines(captured)))
  {
    var lines := SplitLines(captured);
    DispatchLines(json, db, lines, service);
  }

  /** One more line adds that line's calls at the end. */
  lemma AttemptsStep<O>(json: Json<O>, lines: seq<string>, i: nat)
    requires i < |lines|
    ensures Attempts(json, lines[..i + 1]) == Attempts(json, lines[..i]) + HandleSpec(json, lines[i]).attempts
  {
    AttemptsAppend(json, lines[..i], [lines[i]]);
    assert lines[..i + 1] == lines[..i] + [lines[i]];
    assert Attempts(json, [lines[i]]) == HandleSpec(json, lines[i]).attempts + Attempts(json, []);
  }

  /** The attempts of consecutive groups of lines concatenate. */
  lemma {:induction false} AttemptsAppend<O>(json: Json<O>, a: seq<string>, b: seq<string>)
    ensures Attempts(json, a + b) == Attempts(json, a) + Attempts(json, b)
  {
    if a == [] {
      assert a + b == b;
    } else {
      assert (a + b)[0] == a[0];
      assert (a + b)[1..] == a[1..] + b;
      AttemptsAppend(json, a[1..], b);
      AppendAssoc(HandleSpec(json, a[0]).attempts, Attempts(json, a[1..]), Attempts(json, b));
    }
  }

  /** Fault isolation: whatever happens on line `j`, including a fault, the
      lines before it and the lines after it make exactly the calls they
      would make on their own. */
  lemma FaultIsolation<O>(json: Json<O>, lines: seq<string>, j: nat)
    requires j < |lines|
    ensures Attempts(json, lines) ==
            Attempts(json, lines[..j]) + HandleSpec(json, lines[j]).attempts + Attempts(json, lines[j + 1..])
  {
    assert lines == lines[..j] + ([lines[j]] + lines[j + 1..]);
    AttemptsAppend(json, lines[..j], [lines[j]] + lines[j + 1..]);
    assert ([lines[j]] + lines[j + 1..])[1..] == lines[j + 1..];
  }

  /** Skipped lines, blank ones included, make no calls at all. */
  lemma {:induction false} SkippedLinesMakeNoCalls<O>(json: Json<O>, lines: seq<string>)
    requires forall i :: 0 <= i < |lines| ==> Classify(lines[i]).Skipped?
    ensures Attempts(json, lines) == []
  {
    if lines != [] {
      SkippedLinesMakeNoCalls(json, lines[1..]);
    }
  }

  /** An array line calls `insertIntoPostgres` on elements 0 .. i - 1, where i
      is its first non-object element, and on no later element. */
  lemma ArrayLineStopsAtFirstNonObject<O>(json: Json<O>, line: string, elems: seq<Element<O>>, i: nat)
    requires Classify(line).ArrayLine?
    requires json.parseArray(Trim(line)) == Some(elems)
    requires i < |elems| && elems[i].OtherElement?
    requires forall j :: 0 <= j < i ==> elems[j].ObjectElement?
    ensures HandleSpec(json, line).attempts == seq(i, j requires 0 <= j < i => elems[j].obj)
    ensures HandleSpec(json, line).fault == Some(NotAnObject(i))
  {
    var done := seq(i, j requires 0 <= j < i => elems[j].obj);
    PrefixIsObjectPrefix(elems, done);
  }

  /** An array line whose elements are all objects calls `insertIntoPostgres`
      on every element, in index order, and raises nothing. */
  lemma ArrayLineOfObjects<O>(json: Json<O>, line: string, elems: seq<Element<O>>)
    requires Classify(line).ArrayLine?
    requires json.parseArray(Trim(line)) == Some(elems)
    requires forall j :: 0 <= j < |elems| ==> elems[j].ObjectElement?
    ensures HandleSpec(json, line).attempts == seq(|elems|, j requires 0 <= j < |elems| => elems[j].obj)
    ensures HandleSpec(json, line).fault == None
  {
    PrefixIsObjectPrefix(elems, seq(|elems|, j requires 0 <= j < |elems| => elems[j].obj));
  }

  /** A line that starts like JSON but does not parse makes no calls, and the
      lines after it are still handled. */
  lemma UnparsableLineMakesNoCalls<O>(json: Json<O>, lines: seq<string>, j: nat)
    requires j < |lines|
    requires match Classify(lines[j])
             case ArrayLine(t) => json.parseArray(t).None?
             case ObjectLine(t) => json.parseObject(t).None?
             case Skipped => false
    ensures Attempts(json, lines) == Attempts(json, lines[..j]) + Attempts(json, lines[j + 1..])
  {
    FaultIsolation(json, lines, j);
  }

  /** Output written one record per line and joined with LF is dispatched as
      those lines: trailing empty lines the split drops never made calls. */
  lemma DispatchOfJoinedLines<O>(json: Json<O>, lines: seq<string>)
    requires |lines| >= 1
    requires forall i :: 0 <= i < |lines| ==> NoBreak(lines[i])
    ensures Attempts(json, SplitLines(JoinLines(lines))) == Attempts(json, lines)
  {
    SplitLinesOfJoin(lines);
    if |lines| > 1 {
      var kept := DropTrailingEmpty(lines);
      var tail := lines[|kept|..];
      assert lines == kept + tail;
      AttemptsAppend(json, kept, tail);
      assert Classify([]) == Skipped;
      forall i | 0 <= i < |tail| ensures Classify(tail[i]).Skipped? {
        assert tail[i] == lines[|kept| + i] == [];
      }
      SkippedLinesMakeNoCalls(json, tail);
    }
  }

  /** Each object line that parses makes exactly one call, with that object;
      an output made only of such lines calls once per line, in line order. */
  lemma {:induction false} OneCallPerObjectLine<O>(json: Json<O>, lines: seq<string>)
    requires forall i :: 0 <= i < |lines| ==>
               Classify(lines[i]).ObjectLine? && json.parseObject(Classify(lines[i]).text).Some?
    ensures |Attempts(json, lines)| == |lines|
    ensures forall i :: 0 <= i < |lines| ==>
              Attempts(json, lines)[i] == json.parseObject(Classify(lines[i]).text).value
  {
    if lines != [] {
      OneCallPerObjectLine(json, lines[1..]);
      var rest := Attempts(json, lines[1..]);
      var first := HandleSpec(json, lines[0]).attempts;
      assert first == [json.parseObject(Classify(lines[0]).text).value];
      assert Attempts(json, lines) == first + rest;
      forall i | 1 <= i < |lines|
        ensures Attempts(json, lines)[i] == json.parseObject(Classify(lines[i]).text).value
      {
        assert lines[1..][i - 1] == lines[i];
        assert Attempts(json, lines)[i] == rest[i - 1];
      }
    }
  }
}
