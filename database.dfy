/**
 * The SQLite wrapper class `Database`: the SQL text it builds itself
 * (`join`, `delete_all`) and the order in which each of its methods hands a
 * statement to the engine and commits. The engine is opaque: what it returns
 * or raises for a call is a parameter of that call, and the object keeps a
 * log of the statements it ran and of its commits.
 */
module DatabaseWrapper {
  import opened Wrappers
  import PyStr

  // ---------------------------------------------------------------- SQL text

  /** `[f'{prefix}{field}' for field in fields]`. */
  function PrefixFields(prefix: string, fields: seq<string>): (r: seq<string>)
    ensures |r| == |fields|
    ensures forall i :: 0 <= i < |fields| ==> r[i] == prefix + fields[i]
  {
    if fields == [] then [] else [prefix + fields[0]] + PrefixFields(prefix, fields[1..])
  }

  /** Distinct field lists stay distinct once prefixed: nothing is merged, dropped or reordered. */
  lemma PrefixFieldsInjective(prefix: string, a: seq<string>, b: seq<string>)
    requires PrefixFields(prefix, a) == PrefixFields(prefix, b)
    ensures a == b
  {
    forall i | 0 <= i < |a| ensures a[i] == b[i] {
      assert (prefix + a[i])[|prefix|..] == a[i];
      assert (prefix + b[i])[|prefix|..] == b[i];
    }
  }

  /** The select list of the join query: left fields, then `", "`, then right fields. */
  function SelectList(leftFieldList: seq<string>, rightFieldList: seq<string>): string
  {
    PyStr.Join(PrefixFields("_left.", leftFieldList), ",") + ", "
      + PyStr.Join(PrefixFields("_right.", rightFieldList), ",")
  }

  /** Prefixing with a comma-free prefix keeps comma-free fields comma-free. */
  lemma PrefixedFieldsCommaFree(prefix: string, fields: seq<string>)
    requires ',' !in prefix
    requires forall i :: 0 <= i < |fields| ==> ',' !in fields[i]
    ensures forall i :: 0 <= i < |fields| ==> ',' !in PrefixFields(prefix, fields)[i]
  {
  }

  /** The select list is one comma join of all select items. */
  lemma SelectListIsOneJoin(lp: seq<string>, rp: seq<string>)
    requires |lp| >= 1 && |rp| >= 1
    ensures PyStr.Join(lp, ",") + ", " + PyStr.Join(rp, ",") == PyStr.Join(lp + ([" " + rp[0]] + rp[1..]), ",")
  {
    var rest := [" " + rp[0]] + rp[1..];
    PyStr.JoinPrepend(" ", rp, ",");
    PyStr.JoinAppend(lp, rest, ",");
    assert PyStr.Join(lp, ",") + "," + (" " + PyStr.Join(rp, ","))
        == PyStr.Join(lp, ",") + ", " + PyStr.Join(rp, ",");
  }

  /**
   * Read back on ',' (for fields without commas), the select list is exactly
   * the prefixed left fields followed by the prefixed right fields, in order;
   * only the first right field carries the space written after the comma.
   */
  lemma SelectListSplits(leftFieldList: seq<string>, rightFieldList: seq<string>)
    requires |leftFieldList| >= 1 && |rightFieldList| >= 1
    requires forall i :: 0 <= i < |leftFieldList| ==> ',' !in leftFieldList[i]
    requires forall i :: 0 <= i < |rightFieldList| ==> ',' !in rightFieldList[i]
    ensures var lp, rp := PrefixFields("_left.", leftFieldList), PrefixFields("_right.", rightFieldList);
      PyStr.Split(SelectList(leftFieldList, rightFieldList), ",") == lp + [" " + rp[0]] + rp[1..]
  {
    var lp, rp := PrefixFields("_left.", leftFieldList), PrefixFields("_right.", rightFieldList);
    var items := lp + ([" " + rp[0]] + rp[1..]);
    PrefixedFieldsCommaFree("_left.", leftFieldList);
    PrefixedFieldsCommaFree("_right.", rightFieldList);
    SelectListIsOneJoin(lp, rp);
    assert forall i :: 0 <= i < |items| ==> ',' !in items[i] by {
      forall i | 0 <= i < |items| ensures ',' !in items[i] {
        if i < |lp| {
          assert items[i] == lp[i];
        } else if i == |lp| {
          assert items[i] == " " + rp[0];
        } else {
          assert items[i] == rp[i - |lp|];
        }
      }
    }
    PyStr.SplitJoin(items, ',');
    assert items == lp + [" " + rp[0]] + rp[1..];
  }

  /** The newline and indentation that the query's triple-quoted f-string carries. */
  const LineBreak: string := "\n        "

  /** The first line of the join query: the select list and the left table. */
  function FromLine(leftTable: string, leftFieldList: seq<string>, rightFieldList: seq<string>): string
  {
    "SELECT " + SelectList(leftFieldList, rightFieldList) + " FROM " + leftTable + " _left"
  }

  /** The second line, after its indentation: the join type and the right table. */
  function JoinLine(joinType: string, rightTable: string): string
  {
    joinType + " " + rightTable + " _right"
  }

  /** The third line, after its indentation: the join condition and the closing ';'. */
  function OnLine(leftJoinField: string, rightJoinField: string): string
  {
    "ON _left." + leftJoinField + " = _right." + rightJoinField + ";"
  }

  /** The query text of `join`, line by line as its f-string lays it out; every argument is pasted in as given. */
  function JoinQuery(joinType: string, leftTable: string, rightTable: string,
                     leftJoinField: string, rightJoinField: string,
                     leftFieldList: seq<string>, rightFieldList: seq<string>): string
  {
    FromLine(leftTable, leftFieldList, rightFieldList)
      + LineBreak + JoinLine(joinType, rightTable)
      + LineBreak + OnLine(leftJoinField, rightJoinField)
  }

  /**
   * When no argument holds a newline, the query has exactly three lines:
   * the SELECT list with the FROM clause, the join with the right table, and
   * the ON condition ending in ';', the last two indented by eight spaces.
   */
  lemma JoinQueryLines(joinType: string, leftTable: string, rightTable: string,
                       leftJoinField: string, rightJoinField: string,
                       leftFieldList: seq<string>, rightFieldList: seq<string>)
    requires '\n' !in joinType && '\n' !in leftTable && '\n' !in rightTable
    requires '\n' !in leftJoinField && '\n' !in rightJoinField
    requires '\n' !in SelectList(leftFieldList, rightFieldList)
    ensures PyStr.Split(JoinQuery(joinType, leftTable, rightTable, leftJoinField, rightJoinField,
                                  leftFieldList, rightFieldList), "\n")
         == [FromLine(leftTable, leftFieldList, rightFieldList),
             "        " + JoinLine(joinType, rightTable),
             "        " + OnLine(leftJoinField, rightJoinField)]
  {
    var l1 := FromLine(leftTable, leftFieldList, rightFieldList);
    var l2 := "        " + JoinLine(joinType, rightTable);
    var l3 := "        " + OnLine(leftJoinField, rightJoinField);
    assert '\n' !in l1 && '\n' !in l2 && '\n' !in l3;
    assert LineBreak == ['\n'] + "        ";
    assert JoinQuery(joinType, leftTable, rightTable, leftJoinField, rightJoinField,
                     leftFieldList, rightFieldList) == l1 + ['\n'] + l2 + ['\n'] + l3;
    PyStr.SplitThree(l1, l2, l3, '\n');
    assert "\n" == ['\n'];
  }

  /**
   * Field names are not escaped: a field that holds a comma and a prefix of
   * its own yields the same query as two separate fields.
   */
  lemma JoinQueryNotInjective()
    ensures JoinQuery("LEFT JOIN", "a", "b", "id", "id", ["x,_left.y"], ["*"])
         == JoinQuery("LEFT JOIN", "a", "b", "id", "id", ["x", "y"], ["*"])
  {
  }

  /** The statement text of `delete_all`. */
  function DeleteAllQuery(tableName: string): (q: string)
    ensures |q| == |tableName| + 13
  {
    "DELETE FROM " + tableName + ";"
  }

  /** The table name sits verbatim between `DELETE FROM ` and `;`, so it can be read back. */
  lemma DeleteAllQueryReadsBack(tableName: string)
    ensures DeleteAllQuery(tableName)[..12] == "DELETE FROM "
    ensures DeleteAllQuery(tableName)[12..|DeleteAllQuery(tableName)| - 1] == tableName
    ensures DeleteAllQuery(tableName)[|DeleteAllQuery(tableName)| - 1] == ';'
  {
  }

  /** Different tables give different statements. */
  lemma DeleteAllQueryInjective(a: string, b: string)
    requires DeleteAllQuery(a) == DeleteAllQuery(b)
    ensures a == b
  {
    DeleteAllQueryReadsBack(a);
    DeleteAllQueryReadsBack(b);
  }

  // ---------------------------------------------------------------- exceptions

  /** Python exception classes that can leave the engine, with sqlite3's hierarchy. */
  datatype ExceptionKind =
    | TypeError
    | InterfaceError
    | DatabaseError
    | DataError | OperationalError | IntegrityError | InternalError | ProgrammingError | NotSupportedError
    | OtherException(name: string)

  /** The classes an `except sqlite3.DatabaseError` clause catches. */
  predicate IsDatabaseError(kind: ExceptionKind)
  {
    kind in {DatabaseError, DataError, OperationalError, IntegrityError, InternalError,
             ProgrammingError, NotSupportedError}
  }

  /** A raised exception, with the one it was raised `from`. */
  datatype Exception = Exception(kind: ExceptionKind, message: string, cause: Option<Exception>)

  const InsertTypeMessage: string := "Please check your values and try again."
  const InsertDatabaseMessage: string := "Error inserting data!"

  /**
   * What `insert` raises for what the engine raised: a TypeError becomes a
   * TypeError, any DatabaseError a plain DatabaseError, each with its own
   * message and the original as cause; anything else passes unchanged.
   */
  function InsertError(e: Exception): (r: Exception)
    ensures r.kind == TypeError <==> e.kind == TypeError
    ensures IsDatabaseError(r.kind) <==> IsDatabaseError(e.kind)
    ensures e.kind == TypeError || IsDatabaseError(e.kind) ==> r.cause == Some(e)
    ensures IsDatabaseError(e.kind) ==> r.kind == DatabaseError
    ensures !(e.kind == TypeError || IsDatabaseError(e.kind)) ==> r == e
    ensures e.kind == TypeError ==> r.message == InsertTypeMessage
    ensures IsDatabaseError(e.kind) ==> r.message == InsertDatabaseMessage
  {
    if e.kind == TypeError then Exception(TypeError, InsertTypeMessage, Some(e))
    else if IsDatabaseError(e.kind) then Exception(DatabaseError, InsertDatabaseMessage, Some(e))
    else e
  }

  /** How the engine answered one call: a value, or an exception. */
  datatype Reply<+T> = Returns(value: T) | Raises(error: Exception)
  {
    /** The answer passed on to the caller unchanged. */
    function Passed(): Result<T, Exception>
    {
      match this
      case Returns(v) => Success(v)
      case Raises(e) => Failure(e)
    }
  }

  // ---------------------------------------------------------------- event log

  /** The methods of `Database` that hand a statement to the engine. */
  datatype Op =
    | CreateTable | Insert | InsertMany | Delete | DeleteAll | Update | RunScript
    | Fetch | FetchOne | QueryWithData | Vacuum | Join

  /** The methods whose body commits after its statement has run. */
  predicate CommitsAfterRun(op: Op)
  {
    match op
    case CreateTable | Insert | InsertMany | Delete | DeleteAll | Update | RunScript => true
    case Fetch | FetchOne | QueryWithData | Vacuum | Join => false
  }

  /** What was handed to the engine: one statement with its parameters, a batch, or a script. */
  datatype Call<V> =
    | Execute(query: string, params: seq<V>)
    | ExecuteMany(query: string, batch: seq<seq<V>>)
    | ExecuteScript(script: string)

  /** One entry of the log: a call made by `op` (and whether it returned), or a commit. */
  datatype Event<V> = Ran(op: Op, call: Call<V>, ok: bool) | Commit

  /** A run that its method follows with a commit. */
  predicate CommitDue<V>(e: Event<V>)
  {
    e.Ran? && e.ok && CommitsAfterRun(e.op)
  }

  /**
   * The commit discipline: a commit comes exactly after a run that returned
   * and belongs to a committing method, so the log neither starts with a
   * commit nor ends with a run still owing one.
   */
  predicate Disciplined<V>(log: seq<Event<V>>)
  {
    && (forall i :: 0 < i < |log| ==> (log[i].Commit? <==> CommitDue(log[i - 1])))
    && (|log| > 0 ==> !log[0].Commit? && !CommitDue(log[|log| - 1]))
  }

  /** The events one method call adds: its run, then a commit if one is due. */
  function Trace<V>(op: Op, call: Call<V>, ok: bool): seq<Event<V>>
  {
    [Ran(op, call, ok)] + (if ok && CommitsAfterRun(op) then [Commit] else [])
  }

  /** Each method call keeps the discipline. */
  lemma TraceKeepsDiscipline<V>(log: seq<Event<V>>, op: Op, call: Call<V>, ok: bool)
    requires Disciplined(log)
    ensures Disciplined(log + Trace(op, call, ok))
  {
  }

  /** Number of commits in a log. */
  function Commits<V>(log: seq<Event<V>>): nat
  {
    if log == [] then 0
    else Commits(log[..|log| - 1]) + (if log[|log| - 1].Commit? then 1 else 0)
  }

  /** Number of runs in a log that returned and belong to a committing method. */
  function CommittingRuns<V>(log: seq<Event<V>>): nat
  {
    if log == [] then 0
    else CommittingRuns(log[..|log| - 1]) + (if CommitDue(log[|log| - 1]) then 1 else 0)
  }

  /** In a prefix of a disciplined log, only a run at its very end can still await its commit. */
  lemma {:induction false} PrefixCounts<V>(log: seq<Event<V>>, k: nat)
    requires Disciplined(log) && k <= |log|
    ensures Commits(log[..k]) + (if k > 0 && CommitDue(log[k - 1]) then 1 else 0)
         == CommittingRuns(log[..k])
  {
    if k > 0 {
      PrefixCounts(log, k - 1);
      var e := log[k - 1];
      assert log[..k][..k - 1] == log[..k - 1];
      assert log[..k][k - 1] == e;
      assert Commits(log[..k]) == Commits(log[..k - 1]) + (if e.Commit? then 1 else 0);
      assert CommittingRuns(log[..k]) == CommittingRuns(log[..k - 1]) + (if CommitDue(e) then 1 else 0);
      if k - 1 > 0 {
        assert e.Commit? <==> CommitDue(log[k - 2]);
      }
    }
  }

  /** A disciplined log holds one commit for every run that returned and belongs to a committing method. */
  lemma CommitsMatchRuns<V>(log: seq<Event<V>>)
    requires Disciplined(log)
    ensures Commits(log) == CommittingRuns(log)
  {
    PrefixCounts(log, |log|);
    assert log[..|log|] == log;
  }

  // ---------------------------------------------------------------- the class

  /** The cursor object the connection hands out; `insert` and `query_with_data` return it. */
  class Cursor {
    constructor ()
    {
    }
  }

  /** `Database`: one connection, one cursor, and the log of what it ran and committed. */
  class Database<V> {
    const path: string
    const cur: Cursor
    var log: seq<Event<V>>

    predicate Valid()
      reads this
    {
      Disciplined(log)
    }

    /** `Database(db)`: opens the file (or ':memory:'); nothing has run yet. */
    constructor (db: string)
      ensures Valid() && path == db && log == []
    {
      path := db;
      cur := new Cursor();
      log := [];
    }

    /** `vacuum`: runs `VACUUM;` and does not commit. */
    method Vacuum(reply: Reply<()>) returns (r: Result<(), Exception>)
      requires Valid()
      modifies this
      ensures Valid() && r == reply.Passed()
      ensures log == old(log) + [Ran(Op.Vacuum, Execute("VACUUM;", []), r.Success?)]
    {
      log := log + [Ran(Op.Vacuum, Execute("VACUUM;", []), reply.Returns?)];
      r := reply.Passed();
      assert log == old(log) + Trace(Op.Vacuum, Execute("VACUUM;", []), reply.Returns?);
      TraceKeepsDiscipline(old(log), Op.Vacuum, Execute("VACUUM;", []), reply.Returns?);
    }

    /** `run_script`: runs the script, then commits if it returned. */
    method RunScript(script: string, reply: Reply<()>) returns (r: Result<(), Exception>)
      requires Valid()
      modifies this
      ensures Valid() && r == reply.Passed()
      ensures log == old(log) + [Ran(Op.RunScript, ExecuteScript(script), r.Success?)]
                              + (if r.Success? then [Commit] else [])
    {
      log := log + [Ran(Op.RunScript, ExecuteScript(script), reply.Returns?)];
      if reply.Returns? {
        log := log + [Commit];
      }
      r := reply.Passed();
      assert log == old(log) + Trace(Op.RunScript, ExecuteScript(script), reply.Returns?);
      TraceKeepsDiscipline(old(log), Op.RunScript, ExecuteScript(script), reply.Returns?);
    }

    /** `insert_many`: runs the batch, commits, and returns the engine's row count. */
    method InsertMany(query: string, values: seq<seq<V>>, reply: Reply<int>) returns (r: Result<int, Exception>)
      requires Valid()
      modifies this
      ensures Valid() && r == reply.Passed()
      ensures log == old(log) + [Ran(Op.InsertMany, ExecuteMany(query, values), r.Success?)]
                              + (if r.Success? then [Commit] else [])
    {
      log := log + [Ran(Op.InsertMany, ExecuteMany(query, values), reply.Returns?)];
      if reply.Returns? {
        log := log + [Commit];
      }
      r := reply.Passed();
      assert log == old(log) + Trace(Op.InsertMany, ExecuteMany(query, values), reply.Returns?);
      TraceKeepsDiscipline(old(log), Op.InsertMany, ExecuteMany(query, values), reply.Returns?);
    }

    /**
     * `insert`: runs the statement with its values and commits; returns the
     * cursor, or raises the translated exception without committing.
     */
    method Insert(query: string, values: seq<V>, reply: Reply<()>) returns (r: Result<Cursor, Exception>)
      requires Valid()
      modifies this
      ensures Valid()
      ensures r.Success? <==> reply.Returns?
      ensures r.Success? ==> r.value == cur
      ensures r.Failure? ==> r.error == InsertError(reply.error)
      ensures log == old(log) + [Ran(Op.Insert, Execute(query, values), r.Success?)]
                              + (if r.Success? then [Commit] else [])
    {
      log := log + [Ran(Op.Insert, Execute(query, values), reply.Returns?)];
      match reply {
        case Returns(_) =>
          log := log + [Commit];
          r := Success(cur);
        case Raises(e) =>
          r := Failure(InsertError(e));
      }
      assert log == old(log) + Trace(Op.Insert, Execute(query, values), reply.Returns?);
      TraceKeepsDiscipline(old(log), Op.Insert, Execute(query, values), reply.Returns?);
    }

    /** `delete`: runs the statement with the single parameter `pid`, then commits. */
    method Delete(query: string, pid: V, reply: Reply<()>) returns (r: Result<(), Exception>)
      requires Valid()
      modifies this
      ensures Valid() && r == reply.Passed()
      ensures log == old(log) + [Ran(Op.Delete, Execute(query, [pid]), r.Success?)]
                              + (if r.Success? then [Commit] else [])
    {
      log := log + [Ran(Op.Delete, Execute(query, [pid]), reply.Returns?)];
      if reply.Returns? {
        log := log + [Commit];
      }
      r := reply.Passed();
      assert log == old(log) + Trace(Op.Delete, Execute(query, [pid]), reply.Returns?);
      TraceKeepsDiscipline(old(log), Op.Delete, Execute(query, [pid]), reply.Returns?);
    }

    /** `delete_all`: runs `DELETE FROM <table>;`, then commits. */
    method DeleteAll(tableName: string, reply: Reply<()>) returns (r: Result<(), Exception>)
      requires Valid()
      modifies this
      ensures Valid() && r == reply.Passed()
      ensures log == old(log) + [Ran(Op.DeleteAll, Execute(DeleteAllQuery(tableName), []), r.Success?)]
                              + (if r.Success? then [Commit] else [])
    {
      var query := DeleteAllQuery(tableName);
      log := log + [Ran(Op.DeleteAll, Execute(query, []), reply.Returns?)];
      if reply.Returns? {
        log := log + [Commit];
      }
      r := reply.Passed();
      assert log == old(log) + Trace(Op.DeleteAll, Execute(query, []), reply.Returns?);
      TraceKeepsDiscipline(old(log), Op.DeleteAll, Execute(query, []), reply.Returns?);
    }

    /** `update`: runs the statement with its values, then commits; returns nothing. */
    method Update(query: string, values: seq<V>, reply: Reply<()>) returns (r: Result<(), Exception>)
      requires Valid()
      modifies this
      ensures Valid() && r == reply.Passed()
      ensures log == old(log) + [Ran(Op.Update, Execute(query, values), r.Success?)]
                              + (if r.Success? then [Commit] else [])
    {
      log := log + [Ran(Op.Update, Execute(query, values), reply.Returns?)];
      if reply.Returns? {
        log := log + [Commit];
      }
      r := reply.Passed();
      assert log == old(log) + Trace(Op.Update, Execute(query, values), reply.Returns?);
      TraceKeepsDiscipline(old(log), Op.Update, Execute(query, values), reply.Returns?);
    }

    /** `fetch`: runs the query without parameters and returns all rows; no commit. */
    method Fetch<R>(query: string, reply: Reply<seq<R>>) returns (r: Result<seq<R>, Exception>)
      requires Valid()
      modifies this
      ensures Valid() && r == reply.Passed()
      ensures log == old(log) + [Ran(Op.Fetch, Execute(query, []), r.Success?)]
    {
      log := log + [Ran(Op.Fetch, Execute(query, []), reply.Returns?)];
      r := reply.Passed();
      assert log == old(log) + Trace(Op.Fetch, Execute(query, []), reply.Returns?);
      TraceKeepsDiscipline(old(log), Op.Fetch, Execute(query, []), reply.Returns?);
    }

    /** `fetchone`: runs the query and returns the first row, or None; no commit. */
    method FetchOne<R>(query: string, reply: Reply<Option<R>>) returns (r: Result<Option<R>, Exception>)
      requires Valid()
      modifies this
      ensures Valid() && r == reply.Passed()
      ensures log == old(log) + [Ran(Op.FetchOne, Execute(query, []), r.Success?)]
    {
      log := log + [Ran(Op.FetchOne, Execute(query, []), reply.Returns?)];
      r := reply.Passed();
      assert log == old(log) + Trace(Op.FetchOne, Execute(query, []), reply.Returns?);
      TraceKeepsDiscipline(old(log), Op.FetchOne, Execute(query, []), reply.Returns?);
    }

    /** `query_with_data`: runs the query with its values and returns the cursor; no commit. */
    method QueryWithData(query: string, values: seq<V>, reply: Reply<()>) returns (r: Result<Cursor, Exception>)
      requires Valid()
      modifies this
      ensures Valid()
      ensures r == (if reply.Returns? then Success(cur) else Failure(reply.error))
      ensures log == old(log) + [Ran(Op.QueryWithData, Execute(query, values), r.Success?)]
    {
      log := log + [Ran(Op.QueryWithData, Execute(query, values), reply.Returns?)];
      r := if reply.Returns? then Success(cur) else Failure(reply.error);
      assert log == old(log) + Trace(Op.QueryWithData, Execute(query, values), reply.Returns?);
      TraceKeepsDiscipline(old(log), Op.QueryWithData, Execute(query, values), reply.Returns?);
    }

    /** `create_table`: runs the DDL statement, then commits. */
    method CreateTable(query: string, reply: Reply<()>) returns (r: Result<(), Exception>)
      requires Valid()
      modifies this
      ensures Valid() && r == reply.Passed()
      ensures log == old(log) + [Ran(Op.CreateTable, Execute(query, []), r.Success?)]
                              + (if r.Success? then [Commit] else [])
    {
      log := log + [Ran(Op.CreateTable, Execute(query, []), reply.Returns?)];
      if reply.Returns? {
        log := log + [Commit];
      }
      r := reply.Passed();
      assert log == old(log) + Trace(Op.CreateTable, Execute(query, []), reply.Returns?);
      TraceKeepsDiscipline(old(log), Op.CreateTable, Execute(query, []), reply.Returns?);
    }

    /** `join`: builds the join query, runs it without parameters and returns all rows; no commit. */
    method Join<R>(joinType: string, leftTable: string, rightTable: string,
                   leftJoinField: string, rightJoinField: string,
                   leftFieldList: seq<string>, rightFieldList: seq<string>,
                   reply: Reply<seq<R>>) returns (r: Result<seq<R>, Exception>)
      requires Valid()
      modifies this
      ensures Valid() && r == reply.Passed()
      ensures log == old(log) + [Ran(Op.Join, Execute(JoinQuery(joinType, leftTable, rightTable,
                                   leftJoinField, rightJoinField, leftFieldList, rightFieldList), []), r.Success?)]
    {
      var query := JoinQuery(joinType, leftTable, rightTable, leftJoinField, rightJoinField,
                             leftFieldList, rightFieldList);
      log := log + [Ran(Op.Join, Execute(query, []), reply.Returns?)];
      r := reply.Passed();
      assert log == old(log) + Trace(Op.Join, Execute(query, []), reply.Returns?);
      TraceKeepsDiscipline(old(log), Op.Join, Execute(query, []), reply.Returns?);
    }
  }
}
