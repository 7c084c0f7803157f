/** Insert batching: many rows in as few statements as the length limit allows. */
module Batching {
  import opened Bytes

  const MAX_STATEMENT_LEN: nat := 1024000
  const COMMA: byte := 44

  /** Rows separated by commas. */
  function Join(rows: seq<Bytes>): Bytes
    requires rows != []
  {
    if |rows| == 1 then rows[0] else Join(rows[..|rows| - 1]) + [COMMA] + rows[|rows| - 1]
  }

  /** The text of one batch; every batch but the first has a comma before its first row. */
  function Body(prefix: Bytes, batch: seq<Bytes>, first: bool): Bytes
    requires batch != []
  {
    prefix + (if first then [] else [COMMA]) + Join(batch)
  }

  /** Would another row make the statement too long? */
  predicate Full(prefix: Bytes, postfix: Bytes, batch: seq<Bytes>, first: bool, row: Bytes)
    requires batch != []
  {
    |Body(prefix, batch, first)| + |row| + |postfix| + 1 > MAX_STATEMENT_LEN
  }

  lemma BodySnoc(prefix: Bytes, batch: seq<Bytes>, row: Bytes, first: bool)
    requires batch != []
    ensures Body(prefix, batch, first) + [COMMA] + row == Body(prefix, batch + [row], first)
  {
    assert (batch + [row])[..|batch|] == batch;
    Regroup(prefix + if first then [] else [COMMA], Join(batch), [COMMA], row);
  }

  lemma Regroup(a: Bytes, b: Bytes, c: Bytes, d: Bytes)
    ensures a + b + c + d == a + (b + c + d)
  {
  }

  lemma BodyOne(prefix: Bytes, row: Bytes)
    ensures prefix + row == Body(prefix, [row], true) && prefix + [COMMA] + row == Body(prefix, [row], false)
  {
    assert prefix + [] == prefix;
  }

  // ---------------------------------------------------------------- the run

  datatype Run = Run(statements: seq<Bytes>, total: Result<int>)

  /** Account for the statement just sent. */
  function After(statement: Bytes, n: int, later: Run): Run {
    Run([statement] + later.statements, if later.total.Ok? then Ok(n + later.total.value) else later.total)
  }

  /**
    * What is sent from here on, with `batch` pending and `k` statements already sent. `rows` are the rendered value
    * lists still to come; `execute` is the outcome of the k-th statement.
    */
  function Continue(prefix: Bytes, postfix: Bytes, batch: seq<Bytes>, k: nat, rows: seq<Result<Bytes>>,
                    execute: (nat, Bytes) -> Result<int>): Run
    requires batch != []
    decreases |rows|
  {
    var statement := Body(prefix, batch, k == 0) + postfix;
    if rows == [] then Run([statement], execute(k, statement))
    else match rows[0]
      case Err(e) => Run([], Err(e))
      case Ok(row) =>
        if !Full(prefix, postfix, batch, k == 0, row) then
          Continue(prefix, postfix, batch + [row], k, rows[1..], execute)
        else match execute(k, statement)
          case Err(e) => Run([statement], Err(e))
          case Ok(n) => After(statement, n, Continue(prefix, postfix, [row], k + 1, rows[1..], execute))
  }

  function Start(prefix: Bytes, postfix: Bytes, rows: seq<Result<Bytes>>, execute: (nat, Bytes) -> Result<int>): Run {
    if rows == [] then Run([], Ok(0))
    else match rows[0]
    case Err(e) => Run([], Err(e))
    case Ok(row) =>
      if |prefix| + |row| + |postfix| > MAX_STATEMENT_LEN then Run([], Err(DataError(CR_INVALID_PARAMETER_NO)))
      else Continue(prefix, postfix, [row], 0, rows[1..], execute)
  }

  /** The statements sent before `r`, and the rows they are known to have affected. */
  function Before(statements: seq<Bytes>, total: int, r: Run): Run {
    Run(statements + r.statements, if r.total.Ok? then Ok(total + r.total.value) else r.total)
  }

  lemma BeforeAfter(statements: seq<Bytes>, total: int, statement: Bytes, n: int, r: Run)
    ensures Before(statements, total, After(statement, n, r)) == Before(statements + [statement], total + n, r)
  {
    Associative(statements, [statement], r.statements);
  }

  method ExecuteMany(prefix: Bytes, postfix: Bytes, rows: seq<Result<Bytes>>, execute: (nat, Bytes) -> Result<int>)
    returns (r: Result<int>, statements: seq<Bytes>)
    ensures Run(statements, r) == Start(prefix, postfix, rows, execute)
  {
    if rows == [] {
      return Ok(0), [];
    }
    var sql := prefix;
    var total := 0;
    statements := [];
    ghost var batch: seq<Bytes> := [];
    for i := 0 to |rows|
      invariant i == 0 ==> sql == prefix && total == 0 && statements == []
      invariant i > 0 ==> batch != [] && sql == Body(prefix, batch, statements == [])
      invariant i > 0 ==>
                  Start(prefix, postfix, rows, execute)
                  == Before(statements, total, Continue(prefix, postfix, batch, |statements|, rows[i..], execute))
    {
      ghost var left := rows[i..];
      assert left[0] == rows[i] && left[1..] == rows[i + 1..];
      if rows[i].Err? {
        assert statements + [] == statements;
        return Err(rows[i].error), statements;
      }
      var value := rows[i].value;
      var separatorLen := if i > 0 then 1 else 0;
      BodyOne(prefix, value);
      if |sql| + |value| + |postfix| + separatorLen > MAX_STATEMENT_LEN {
        if i == 0 {
          return Err(DataError(CR_INVALID_PARAMETER_NO)), statements;
        }
        var statement := sql + postfix;
        var affected := execute(|statements|, statement);
        if affected.Err? {
          return affected, statements + [statement];
        }
        BeforeAfter(statements, total, statement, affected.value,
                    Continue(prefix, postfix, [value], |statements| + 1, left[1..], execute));
        statements, total := statements + [statement], total + affected.value;
        sql, batch := prefix, [value];
      } else if i == 0 {
        batch := [value];
        BeforeNothing(Continue(prefix, postfix, batch, 0, left[1..], execute));
      } else {
        BodySnoc(prefix, batch, value, statements == []);
        batch := batch + [value];
      }
      if i > 0 {
        sql := sql + [COMMA];
      }
      sql := sql + value;
    }
    var statement := sql + postfix;
    var affected := execute(|statements|, statement);
    statements := statements + [statement];
    r := if affected.Ok? then Ok(total + affected.value) else affected;
  }

  lemma BeforeNothing(r: Run)
    ensures Before([], 0, r) == r
  {
    assert [] + r.statements == r.statements;
  }

  // ---------------------------------------------------------------- what the run promises

  ghost predicate AllRendered(rows: seq<Result<Bytes>>) {
    forall i :: 0 <= i < |rows| ==> rows[i].Ok?
  }

  ghost function Values(rows: seq<Result<Bytes>>): seq<Bytes>
    requires AllRendered(rows)
  {
    if rows == [] then [] else [rows[0].value] + Values(rows[1..])
  }

  /**
    * `batches` explains the statements sent from the k-th on: each is the text of one non-empty batch; a batch of
    * two or more rows is within the limit; and a batch was closed only because the next row did not fit.
    */
  ghost predicate Explains(prefix: Bytes, postfix: Bytes, k: nat, batches: seq<seq<Bytes>>, statements: seq<Bytes>)
    decreases |batches|
  {
    if batches == [] then statements == []
    else
      && batches[0] != [] && statements != []
      && statements[0] == Body(prefix, batches[0], k == 0) + postfix
      && (|batches[0]| >= 2 ==> |statements[0]| <= MAX_STATEMENT_LEN)
      && (|batches| >= 2 ==> batches[1] != [] && Full(prefix, postfix, batches[0], k == 0, batches[1][0]))
      && Explains(prefix, postfix, k + 1, batches[1..], statements[1..])
  }

  /** The parts are the outcomes of the statements from the k-th on. */
  ghost predicate Paid(execute: (nat, Bytes) -> Result<int>, k: nat, statements: seq<Bytes>, parts: seq<int>)
    decreases |statements|
  {
    |parts| == |statements|
    && (statements != [] ==>
          execute(k, statements[0]) == Ok(parts[0]) && Paid(execute, k + 1, statements[1..], parts[1..]))
  }

  function Sum(ns: seq<int>): int {
    if ns == [] then 0 else ns[0] + Sum(ns[1..])
  }

  lemma {:induction false} ContinuePartitions(prefix: Bytes, postfix: Bytes, batch: seq<Bytes>, k: nat,
                                              rows: seq<Result<Bytes>>, execute: (nat, Bytes) -> Result<int>)
    returns (batches: seq<seq<Bytes>>, parts: seq<int>)
    requires batch != [] && Continue(prefix, postfix, batch, k, rows, execute).total.Ok?
    requires |batch| >= 2 ==> |Body(prefix, batch, k == 0)| + |postfix| <= MAX_STATEMENT_LEN
    ensures AllRendered(rows) && Flatten(batches) == batch + Values(rows)
    ensures batches != [] && batches[0] != [] && batches[0][0] == batch[0]
    ensures var r := Continue(prefix, postfix, batch, k, rows, execute);
            && Explains(prefix, postfix, k, batches, r.statements)
            && Paid(execute, k, r.statements, parts) && r.total == Ok(Sum(parts))
    decreases |rows|
  {
    var r := Continue(prefix, postfix, batch, k, rows, execute);
    if rows == [] {
      batches, parts := [batch], [r.total.value];
      LastBatch(batch);
      assert parts[1..] == [] && r.statements[1..] == [];
    } else {
      var row := rows[0].value;
      if !Full(prefix, postfix, batch, k == 0, row) {
        BodySnoc(prefix, batch, row, k == 0);
        batches, parts := ContinuePartitions(prefix, postfix, batch + [row], k, rows[1..], execute);
        Associative(batch, [row], Values(rows[1..]));
      } else {
        var later, rest := ContinuePartitions(prefix, postfix, [row], k + 1, rows[1..], execute);
        var n := execute(k, r.statements[0]).value;
        batches, parts := [batch] + later, [n] + rest;
        assert batches[1..] == later && parts[1..] == rest;
        assert r.statements[1..] == Continue(prefix, postfix, [row], k + 1, rows[1..], execute).statements;
      }
    }
  }

  lemma LastBatch(batch: seq<Bytes>)
    ensures Flatten([batch]) == batch + [] == batch
  {
    assert [batch][1..] == [];
  }

  /**
    * Over any rows that do not fail: the rows are partitioned in order, each in exactly one statement, no statement
    * is without a row, a statement of two or more rows is within the limit, a batch ends only when the next row does
    * not fit, and the total is the sum of the parts.
    */
  lemma {:induction false} RowsArePartitioned(prefix: Bytes, postfix: Bytes, rows: seq<Result<Bytes>>,
                           execute: (nat, Bytes) -> Result<int>)
    returns (batches: seq<seq<Bytes>>, parts: seq<int>)
    requires Start(prefix, postfix, rows, execute).total.Ok?
    ensures AllRendered(rows) && Flatten(batches) == Values(rows)
    ensures var r := Start(prefix, postfix, rows, execute);
            && Explains(prefix, postfix, 0, batches, r.statements)
            && Paid(execute, 0, r.statements, parts) && r.total == Ok(Sum(parts))
  {
    if rows == [] {
      batches, parts := [], [];
    } else {
      batches, parts := ContinuePartitions(prefix, postfix, [rows[0].value], 0, rows[1..], execute);
    }
  }

  /** Rows are separated by the byte 44, a comma, and nothing else. */
  lemma {:induction false} JoinedByCommas(a: seq<Bytes>, b: seq<Bytes>)
    requires a != [] && b != []
    ensures Join(a + b) == Join(a) + [44] + Join(b)
    decreases |b|
  {
    var front, last := b[..|b| - 1], b[|b| - 1];
    assert (a + b)[..|a + b| - 1] == a + front;
    if front == [] {
      assert a + front == a;
    } else {
      JoinedByCommas(a, front);
      RegroupJoin(Join(a), Join(front), last);
    }
  }

  lemma RegroupJoin(a: Bytes, b: Bytes, c: Bytes)
    ensures a + [44] + b + [44] + c == a + [44] + (b + [44] + c)
  {
  }

  /**
    * When nothing is sent: there are no rows, the first row cannot be rendered, or it does not fit into 1,024,000 bytes
    * with the prefix and the postfix. Later rows are sent whatever their length.
    */
  lemma NothingSentExactly(prefix: Bytes, postfix: Bytes, rows: seq<Result<Bytes>>,
                           execute: (nat, Bytes) -> Result<int>)
    requires forall i :: 1 <= i < |rows| ==> rows[i].Ok?
    ensures var r := Start(prefix, postfix, rows, execute);
            && (r.statements == [] <==>
                rows == [] || rows[0].Err? || |prefix| + |rows[0].value| + |postfix| > 1024000)
            && (rows == [] ==> r.total == Ok(0))
            && (rows != [] && rows[0].Err? ==> r.total == Err(rows[0].error))
            && (rows != [] && rows[0].Ok? && |prefix| + |rows[0].value| + |postfix| > 1024000 ==>
                  r.total == Err(DataError(2034)))
  {
    if rows != [] && rows[0].Ok? {
      SomethingSent(prefix, postfix, [rows[0].value], 0, rows[1..], execute);
    }
  }

  lemma {:induction false} SomethingSent(prefix: Bytes, postfix: Bytes, batch: seq<Bytes>, k: nat,
                                         rows: seq<Result<Bytes>>, execute: (nat, Bytes) -> Result<int>)
    requires batch != [] && forall i :: 0 <= i < |rows| ==> rows[i].Ok?
    ensures Continue(prefix, postfix, batch, k, rows, execute).statements != []
    decreases |rows|
  {
    if rows != [] && !Full(prefix, postfix, batch, k == 0, rows[0].value) {
      SomethingSent(prefix, postfix, batch + [rows[0].value], k, rows[1..], execute);
    }
  }

  /** A statement that fails is the last one sent, and its error is the outcome. */
  lemma {:induction false} FailureStops(prefix: Bytes, postfix: Bytes, batch: seq<Bytes>, k: nat,
                                        rows: seq<Result<Bytes>>, execute: (nat, Bytes) -> Result<int>)
    requires batch != [] && forall i :: 0 <= i < |rows| ==> rows[i].Ok?
    ensures var r := Continue(prefix, postfix, batch, k, rows, execute);
            && (forall i :: 0 <= i && i + 1 < |r.statements| ==> execute(k + i, r.statements[i]).Ok?)
            && (r.total.Err? ==> r.statements != []
                                 && execute(k + |r.statements| - 1, r.statements[|r.statements| - 1]) == r.total)
    decreases |rows|
  {
    if rows != [] {
      var row := rows[0].value;
      if !Full(prefix, postfix, batch, k == 0, row) {
        FailureStops(prefix, postfix, batch + [row], k, rows[1..], execute);
      } else {
        FailureStops(prefix, postfix, [row], k + 1, rows[1..], execute);
        SomethingSent(prefix, postfix, [row], k + 1, rows[1..], execute);
      }
    }
  }

  /**
    * The first row that cannot be rendered ends the run with its error. Compared with a run that ends before that row,
    * exactly the last statement is missing: the rows collected for it are not sent.
    */
  lemma {:induction false} UnrenderedRowStops(prefix: Bytes, postfix: Bytes, batch: seq<Bytes>, k: nat,
                                              rows: seq<Result<Bytes>>, execute: (nat, Bytes) -> Result<int>, n: nat)
    requires batch != [] && n < |rows| && rows[n].Err? && (forall i :: 0 <= i < n ==> rows[i].Ok?)
    requires forall i, s :: execute(i, s).Ok?
    ensures var r := Continue(prefix, postfix, batch, k, rows, execute);
            var shorter := Continue(prefix, postfix, batch, k, rows[..n], execute).statements;
            r.total == Err(rows[n].error) && shorter != [] && r.statements == shorter[..|shorter| - 1]
    decreases |rows|
  {
    if n > 0 {
      var row := rows[0].value;
      assert rows[..n][0] == rows[0] && rows[..n][1..] == rows[1..][..n - 1];
      if !Full(prefix, postfix, batch, k == 0, row) {
        UnrenderedRowStops(prefix, postfix, batch + [row], k, rows[1..], execute, n - 1);
      } else {
        UnrenderedRowStops(prefix, postfix, [row], k + 1, rows[1..], execute, n - 1);
      }
    }
  }

  // ---------------------------------------------------------------- the comma after the prefix

  lemma {:induction false} ExplainsAt(prefix: Bytes, postfix: Bytes, k: nat, batches: seq<seq<Bytes>>,
                                      statements: seq<Bytes>)
    requires Explains(prefix, postfix, k, batches, statements)
    ensures |batches| == |statements|
    ensures forall i :: 0 <= i < |batches| ==>
                          batches[i] != [] && statements[i] == Body(prefix, batches[i], k + i == 0) + postfix
    decreases |batches|
  {
    if batches != [] {
      ExplainsAt(prefix, postfix, k + 1, batches[1..], statements[1..]);
      forall i | 0 < i < |batches|
        ensures batches[i] != [] && statements[i] == Body(prefix, batches[i], k + i == 0) + postfix
      {
        assert batches[i] == batches[1..][i - 1] && statements[i] == statements[1..][i - 1];
      }
    }
  }

  lemma {:induction false} JoinGrows(a: seq<Bytes>, b: seq<Bytes>)
    requires a != []
    ensures |Join(a + b)| >= |Join(a)|
    decreases |b|
  {
    if b == [] {
      assert a + b == a;
    } else {
      JoinGrows(a, b[..|b| - 1]);
      assert (a + b)[..|a + b| - 1] == a + b[..|b| - 1];
    }
  }

  /** Every statement is the prefix, its rows separated by commas, and the postfix. */
  ghost predicate SpelledPlainly(prefix: Bytes, postfix: Bytes, batches: seq<seq<Bytes>>, statements: seq<Bytes>) {
    && |batches| == |statements|
    && forall i :: 0 <= i < |batches| ==> batches[i] != [] && statements[i] == prefix + Join(batches[i]) + postfix
  }

  /** Two batches mean that the rows do not fit in one statement. */
  lemma TwoBatchesDoNotFit(prefix: Bytes, postfix: Bytes, batches: seq<seq<Bytes>>, statements: seq<Bytes>)
    requires Explains(prefix, postfix, 0, batches, statements) && |batches| >= 2
    ensures Flatten(batches) != [] && |prefix| + |Join(Flatten(batches))| + |postfix| > MAX_STATEMENT_LEN
    ensures !SpelledPlainly(prefix, postfix, batches, statements)
  {
    ExplainsAt(prefix, postfix, 0, batches, statements);
    var a, row, more := batches[0], batches[1][0], batches[1][1..] + Flatten(batches[2..]);
    FlattenTwo(batches);
    BodySnoc(prefix, a, row, true);
    JoinGrows(a + [row], more);
    assert |statements[1]| == |prefix| + 1 + |Join(batches[1])| + |postfix|;
  }

  lemma FlattenTwo(batches: seq<seq<Bytes>>)
    requires |batches| >= 2 && batches[1] != []
    ensures Flatten(batches) == batches[0] + [batches[1][0]] + (batches[1][1..] + Flatten(batches[2..]))
  {
    var b := batches[1];
    assert batches[1..][1..] == batches[2..] && batches[1..][0] == b;
    assert b == [b[0]] + b[1..];
  }

  lemma OneBatchFits(prefix: Bytes, postfix: Bytes, batch: seq<Bytes>, statements: seq<Bytes>)
    requires Explains(prefix, postfix, 0, [batch], statements)
    requires |batch| == 1 ==> |prefix| + |batch[0]| + |postfix| <= MAX_STATEMENT_LEN
    ensures batch != [] && |prefix| + |Join(batch)| + |postfix| <= MAX_STATEMENT_LEN
    ensures SpelledPlainly(prefix, postfix, [batch], statements)
  {
    ExplainsAt(prefix, postfix, 0, [batch], statements);
    assert prefix + [] == prefix;
  }

  lemma SpelledExactly(prefix: Bytes, postfix: Bytes, values: seq<Bytes>, batches: seq<seq<Bytes>>,
                       statements: seq<Bytes>)
    requires Explains(prefix, postfix, 0, batches, statements) && Flatten(batches) == values
    requires values != [] ==> |prefix| + |values[0]| + |postfix| <= MAX_STATEMENT_LEN
    ensures SpelledPlainly(prefix, postfix, batches, statements)
            <==> values == [] || |prefix| + |Join(values)| + |postfix| <= MAX_STATEMENT_LEN
  {
    if |batches| >= 2 {
      TwoBatchesDoNotFit(prefix, postfix, batches, statements);
    } else if |batches| == 1 {
      LastBatch(batches[0]);
      assert batches == [batches[0]];
      OneBatchFits(prefix, postfix, batches[0], statements);
    }
  }

  lemma FirstRowFits(prefix: Bytes, postfix: Bytes, rows: seq<Result<Bytes>>, execute: (nat, Bytes) -> Result<int>)
    requires Start(prefix, postfix, rows, execute).total.Ok? && AllRendered(rows) && rows != []
    ensures Values(rows) != [] && |prefix| + |Values(rows)[0]| + |postfix| <= MAX_STATEMENT_LEN
  {
  }

  /**
    * Exactly when every statement is spelled as an insert of its rows, without a stray comma after the prefix: there
    * are no rows, or all of them fit in one statement.
    */
  lemma PlainInsertsExactly(prefix: Bytes, postfix: Bytes, rows: seq<Result<Bytes>>,
                            execute: (nat, Bytes) -> Result<int>, batches: seq<seq<Bytes>>)
    requires Start(prefix, postfix, rows, execute).total.Ok? && AllRendered(rows) && Flatten(batches) == Values(rows)
    requires Explains(prefix, postfix, 0, batches, Start(prefix, postfix, rows, execute).statements)
    ensures SpelledPlainly(prefix, postfix, batches, Start(prefix, postfix, rows, execute).statements)
            <==> rows == [] || |prefix| + |Join(Values(rows))| + |postfix| <= MAX_STATEMENT_LEN
  {
    if rows != [] {
      FirstRowFits(prefix, postfix, rows, execute);
    }
    SpelledExactly(prefix, postfix, Values(rows), batches, Start(prefix, postfix, rows, execute).statements);
  }

  /** Two rows that do not fit in one statement: the second statement has a comma before its row. */
  lemma StrayComma(prefix: Bytes, postfix: Bytes, a: Bytes, b: Bytes, execute: (nat, Bytes) -> Result<int>)
    requires |prefix| + |a| + |postfix| <= 1024000 < |prefix| + |a| + 1 + |b| + |postfix|
    requires execute(0, prefix + a + postfix).Ok?
    ensures Start(prefix, postfix, [Ok(a), Ok(b)], execute).statements
            == [prefix + a + postfix, prefix + [44] + b + postfix]
  {
    BodyOne(prefix, a);
    BodyOne(prefix, b);
    var rows: seq<Result<Bytes>> := [Ok(a), Ok(b)];
    var later: seq<Result<Bytes>> := [Ok(b)];
    assert rows[1..] == later && later[1..] == [];
    assert Continue(prefix, postfix, [b], 1, [], execute).statements == [prefix + [COMMA] + b + postfix];
    assert Full(prefix, postfix, [a], true, b);
    assert Continue(prefix, postfix, [a], 0, later, execute).statements
           == [prefix + a + postfix] + Continue(prefix, postfix, [b], 1, [], execute).statements;
  }
}
