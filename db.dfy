/**
 * DbAccess, the statement executor: every method runs exactly one prepared
 * statement and then selects what to hand back from the rows the statement
 * produced. PDO is opaque here: a recording fake answers each statement with
 * an abstract outcome and keeps the log of every statement it was given.
 */
module Db {
  import opened Php

  /** One row fetched in FETCH_ASSOC mode: column name to value, in select-list order. */
  type Row = PhpArray

  /** The `$params` argument: absent (null), positional (`[$id]`) or named (`[':c' => v]`). */
  datatype Params = NoParams | Positional(values: seq<Value>) | Named(entries: PhpArray)

  /** One prepare+execute issued to the connection. */
  datatype Call = Call(query: string, params: Params)

  /** What executing a statement gives: a PDOException, or the result rows in driver order. */
  datatype Outcome = Raised(message: string) | Executed(rows: seq<Row>)

  /** PDOStatement::fetch() on a fresh statement: its first row, or false when there is none. */
  function Fetch(rows: seq<Row>): OrFalse<Row> {
    if rows == [] then False else Val(rows[0])
  }

  /** PDOStatement::fetchAll(): every row, in driver order. */
  function FetchAll(rows: seq<Row>): OrFalse<seq<Row>> {
    Val(rows)
  }

  /** `($rows === false) ? [] : $rows`. */
  function RowsOrEmpty(fetched: OrFalse<seq<Row>>): seq<Row> {
    if fetched.False? then [] else fetched.value
  }

  /** `($row === false) ? null : $row`. */
  function RowOrNull(fetched: OrFalse<Row>): Option<Row> {
    if fetched.False? then None else Some(fetched.value)
  }

  /** `(array)$row`: null casts to the empty array. */
  function AsArray(row: Option<Row>): Row {
    if row.None? then [] else row.value
  }

  /** `count($row) ? reset($row) : null`. */
  function FirstValue(row: Row): Value {
    if |row| == 0 then Null else row[0].1
  }

  /** What queryRows hands back for the rows a statement produced. */
  function SelectRows(rows: seq<Row>): (r: seq<Row>)
    ensures r == rows
  {
    RowsOrEmpty(FetchAll(rows))
  }

  /** What queryRow hands back for the rows a statement produced. */
  function SelectRow(rows: seq<Row>): (r: Option<Row>)
    ensures r.None? <==> rows == []
    ensures r.Some? ==> r.value == rows[0]
  {
    RowOrNull(Fetch(rows))
  }

  /** What queryValue hands back for the rows a statement produced. */
  function SelectValue(rows: seq<Row>): (v: Value)
    ensures rows == [] ==> v == Null
    ensures rows != [] && rows[0] != [] ==> v == rows[0][0].1
  {
    FirstValue(AsArray(SelectRow(rows)))
  }

  /** A false from fetchAll never leaks out: it becomes the empty list. */
  lemma RowsNeverFalse()
    ensures RowsOrEmpty(False) == []
    ensures forall rows :: RowsOrEmpty(Val(rows)) == rows
  {
  }

  /**
   * queryValue gives null exactly when there is no row, the first row has no
   * column, or its first column is itself NULL; a falsy value such as 0 or ""
   * comes back as is.
   */
  lemma SelectValueNullIff(rows: seq<Row>)
    ensures SelectValue(rows) == Null <==> rows == [] || rows[0] == [] || rows[0][0].1 == Null
  {
  }

  lemma SelectValueFalsy()
    ensures SelectValue([[("0", Int(0))]]) == Int(0)
    ensures SelectValue([[("bar", Str(""))]]) == Str("")
    ensures SelectValue([[("b", Bool(false))]]) == Bool(false)
    ensures SelectValue([]) == Null
  {
  }

  /** The recording fake that stands for a DbAccess over a PDO connection. */
  class DbAccess {
    /** The opaque prepare+execute: the connection's answer to a call, given every call before it. */
    const exec: (seq<Call>, Call) -> Outcome
    /** PDO::lastInsertId() after the given calls. */
    const insertId: seq<Call> -> int
    /** Every statement prepared and executed so far, oldest first. */
    var log: seq<Call>

    constructor (exec: (seq<Call>, Call) -> Outcome, insertId: seq<Call> -> int)
      ensures this.exec == exec && this.insertId == insertId
      ensures log == []
    {
      this.exec := exec;
      this.insertId := insertId;
      log := [];
    }

    /** `stmt`: one prepare+execute of the query with the params. */
    method Stmt(query: string, params: Params) returns (o: Outcome)
      modifies this
      ensures log == old(log) + [Call(query, params)]
      ensures o == exec(old(log), Call(query, params))
    {
      o := exec(log, Call(query, params));
      log := log + [Call(query, params)];
    }

    /** `query`: runs the statement and returns nothing; a PDOException propagates unchanged. */
    method Query(query: string, params: Params) returns (r: Result<()>)
      modifies this
      ensures log == old(log) + [Call(query, params)]
      ensures var o := exec(old(log), Call(query, params));
              r == if o.Raised? then Err(PdoException(o.message)) else Ok(())
    {
      var o := Stmt(query, params);
      if o.Raised? {
        return Err(PdoException(o.message));
      }
      r := Ok(());
    }

    /** `queryRows`: every row, in driver order, and never false. */
    method QueryRows(query: string, params: Params) returns (r: Result<seq<Row>>)
      modifies this
      ensures log == old(log) + [Call(query, params)]
      ensures var o := exec(old(log), Call(query, params));
              r == if o.Raised? then Err(PdoException(o.message)) else Ok(SelectRows(o.rows))
    {
      var o := Stmt(query, params);
      if o.Raised? {
        return Err(PdoException(o.message));
      }
      var rows := FetchAll(o.rows);
      r := Ok(if rows.False? then [] else rows.value);
    }

    /** `queryRow`: the first row, or null when there is none. */
    method QueryRow(query: string, params: Params) returns (r: Result<Option<Row>>)
      modifies this
      ensures log == old(log) + [Call(query, params)]
      ensures var o := exec(old(log), Call(query, params));
              r == if o.Raised? then Err(PdoException(o.message)) else Ok(SelectRow(o.rows))
    {
      var o := Stmt(query, params);
      if o.Raised? {
        return Err(PdoException(o.message));
      }
      var row := Fetch(o.rows);
      r := Ok(if row.False? then None else Some(row.value));
    }

    /** `queryValue`: the first column of the first row, through one queryRow call. */
    method QueryValue(query: string, params: Params) returns (r: Result<Value>)
      modifies this
      ensures log == old(log) + [Call(query, params)]
      ensures var o := exec(old(log), Call(query, params));
              r == if o.Raised? then Err(PdoException(o.message)) else Ok(SelectValue(o.rows))
    {
      var fetched := QueryRow(query, params);
      if fetched.Err? {
        return Err(fetched.error);
      }
      var row := AsArray(fetched.value);
      r := Ok(if |row| == 0 then Null else row[0].1);
    }

    /** `getPdo()->lastInsertId()`. */
    method LastInsertId() returns (id: int)
      ensures id == insertId(log)
    {
      id := insertId(log);
    }
  }
}
