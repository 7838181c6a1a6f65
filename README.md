# Exercise app utilities: date-string normalisation and the SQLite wrapper

This project models the two self-contained pieces of logic in the exercise
tracker's utility package:

* **Date-string normalisation** (`utilities/csv_tools.py`).
  `get_date_seperator` picks `'-'` when a date string contains a dash and
  `'/'` otherwise. `fix_date_str` splits the string on that separator. If the
  first part is four characters long (a year), it rejoins the parts with
  `'-'`. Otherwise it writes `last-first-second`, so `M/D/YYYY` becomes
  `YYYY-M-D`. The docstring promises `YYYY-MM-DD`, but nothing pads the
  month or the day: `1/2/2020` becomes `2020-1-2`.
* **The `Database` wrapper** (`utilities/database.py`). The model covers the
  SQL text the class builds itself (the `join` query and the `delete_all`
  statement) and the order in which each method hands a statement to SQLite
  and commits. The class keeps a log of events: each statement it runs, its
  parameters, whether the engine returned, and each commit. What SQLite does
  with a statement is not modelled. Every method takes the engine's reply
  (a value or a raised exception) as a parameter.

Files:

* `wrappers.dfy`: `Option` and `Result`.
* `py_str.dfy`: Python's `str.split(sep)` and `sep.join(parts)` (module
  `PyStr`), and the round-trip lemmas between them.
* `csv_tools.dfy`: the date helpers (module `CsvTools`).
* `database.dfy`: the SQL text builders, the exception translation of
  `insert`, the commit discipline over the event log, and the `Database`
  class (module `DatabaseWrapper`).

Modelling choices:

* Strings are `seq<char>`. `'-' in date_str` with a one-character needle is
  character membership.
* `fix_date_str` takes its separator as a full string. An empty separator
  fails as Python's `split` does (ValueError: `EmptySeparator`). A one-part
  split whose part is not four characters long fails on `parts[1]`
  (IndexError: `NoSecondPart`). Multi-character separators split left to
  right without overlap, as `str.split` does. The lemmas about the parts
  assume a one-character separator, which is what `get_date_seperator`
  returns.
* The docstrings call both functions helpers of `correct_date_format`, which
  the file does not define. `NormalizeDate` is the plain composition of the
  two.
* The join aliases are `_left` and `_right`, written without `AS`. The join
  type is any string, pasted in verbatim. The query
  keeps the f-string's literal newline followed by eight spaces of
  indentation.
* Statement parameters are a generic `seq<V>`. `delete` passes `[pid]`, the
  one-element tuple `(pid,)`.
* If the engine raises, the statement's run is still logged with
  `ok == false`, and no commit follows. Each method passes the engine's
  exception on unchanged, except `insert`. There, a `TypeError` becomes a
  `TypeError` with its own message. Any `sqlite3.DatabaseError` subclass
  becomes a plain `DatabaseError` with its own message. Both keep the
  original exception as cause. Any other exception passes unchanged.
* An empty left field list gives `SELECT , _right.… FROM …`. An empty right
  list gives `SELECT _left.…,  FROM …`. The model reproduces both as written.

## Model

| member | source | states |
|---|---|---|
| `PyStr.Join` | utilities/csv_tools.py:112 | `sep.join(parts)` has the total length of the parts plus one separator between each pair of neighbours |
| `PyStr.Split` | utilities/csv_tools.py:110 | `s.split(sep)` always yields at least one part |
| `PyStr.JoinSplit` | utilities/csv_tools.py:110-112 | rejoining the parts of a split with the same separator restores the input |
| `PyStr.SplitJoin` | utilities/database.py:167 | splitting a join of separator-free parts on that one-character separator gives back the same parts, in order |
| `PyStr.SplitPiecesFree` | utilities/csv_tools.py:110 | no part of a split on a one-character separator contains that character |
| `PyStr.SplitSinglePiece` | utilities/csv_tools.py:110-111 | a split on a one-character separator has exactly one part iff the separator does not occur |
| `CsvTools.GetDateSeparator` | utilities/csv_tools.py:90-99 | the result is `"-"` exactly when the input contains `'-'`, and otherwise `"/"`; it is always one of the two |
| `CsvTools.FixDateStr` | utilities/csv_tools.py:101-115 | fails exactly when the separator is empty, or when the first part is not 4 long and the split has fewer than two parts |
| `CsvTools.DashYearFirstUnchanged` | utilities/csv_tools.py:110-112 | with separator `"-"` and a 4-character first part, the input comes back unchanged |
| `CsvTools.YearFirstKeepsParts` | utilities/csv_tools.py:110-112 | year-first input without dashes: the result keeps every part in order and count (splitting it on `'-'` gives them back) and has the input's length |
| `CsvTools.ReorderShape` | utilities/csv_tools.py:113-115 | first part not 4 long, at least two parts: the result is `last + "-" + first + "-" + second`, so parts between the second and the last are dropped |
| `CsvTools.FixDateFailsExactly` | utilities/csv_tools.py:110-115 | with a one-character separator, the rewrite fails iff the string contains no separator and is not 4 characters long |
| `CsvTools.ReorderThreeKeepsChars` | utilities/csv_tools.py:110-115 | reorder branch with exactly three parts on a one-character separator, whatever the parts hold: result as long as the input, same characters with both separators replaced by dashes, no original separator left |
| `CsvTools.ReorderThreeParts` | utilities/csv_tools.py:110-115 | reorder branch with exactly three parts on a one-character separator (input without `'-'` unless the separator is `'-'`): the properties above, and the result splits on `'-'` into last, first, second |
| `CsvTools.NormalizeIdempotent` | utilities/csv_tools.py:90-115 | for any input that normalises and whose first or last part is 4 long, normalising the result again changes nothing |
| `CsvTools.NoYearRotates` | utilities/csv_tools.py:113-115 | `"1/2/3"` normalises to `"3-1-2"` |
| `CsvTools.UnpaddedStaysUnpadded` | utilities/csv_tools.py:101-115 | `"1/2/2020"` normalises to `"2020-1-2"`: month and day are not zero-padded, so the result is not `YYYY-MM-DD` |
| `CsvTools.NoYearNotIdempotent` | utilities/csv_tools.py:113-115 | `"3-1-2"` normalises to `"2-3-1"`: without a 4-character year, normalising twice is not normalising once |
| `DatabaseWrapper.PrefixFields` | utilities/database.py:164-165 | each field becomes prefix + field, with count and order kept (`'*'` gives `_left.*` / `_right.*`) |
| `DatabaseWrapper.PrefixFieldsInjective` | utilities/database.py:164-165 | two field lists with equal prefixed forms are equal: nothing is merged, dropped or reordered |
| `DatabaseWrapper.SelectListSplits` | utilities/database.py:167 | when both lists are non-empty and no field holds a comma: the select list, read back on `','`, is the prefixed left fields followed by the prefixed right fields (the first right one after the space of `", "`) |
| `DatabaseWrapper.JoinQueryLines` | utilities/database.py:167-169 | when no argument and no field holds a newline: the query is exactly three lines: `SELECT <list> FROM <left_table> _left`, then `<join_type> <right_table> _right`, then `ON _left.<f> = _right.<g>;`, the last two indented by eight spaces |
| `DatabaseWrapper.JoinQueryNotInjective` | utilities/database.py:164-169 | identifiers are pasted in without escaping: the field `x,_left.y` gives the same query as the two fields `x` and `y` |
| `DatabaseWrapper.DeleteAllQuery` | utilities/database.py:113 | the statement is 13 characters longer than the table name |
| `DatabaseWrapper.DeleteAllQueryReadsBack` | utilities/database.py:113 | the statement is `DELETE FROM `, then the table name verbatim, then `;` |
| `DatabaseWrapper.DeleteAllQueryInjective` | utilities/database.py:113 | different table names give different statements |
| `DatabaseWrapper.InsertError` | utilities/database.py:94-100 | a TypeError stays a TypeError and any DatabaseError subclass becomes a plain DatabaseError, each with insert's own message and the original as cause; any other exception passes unchanged |
| `DatabaseWrapper.TraceKeepsDiscipline` | utilities/database.py:57-145 | one method call (its run, then a commit exactly when it returned and the method commits) keeps the log's commit discipline |
| `DatabaseWrapper.CommitsMatchRuns` | utilities/database.py:57-145 | in a disciplined log, the number of commits equals the number of successful runs by committing methods |
| `DatabaseWrapper.Database.constructor` | utilities/database.py:12-19 | a new object keeps its path and has an empty log |
| `DatabaseWrapper.Database.Vacuum` | utilities/database.py:21-25 | logs a run of `VACUUM;` with no parameters and no commit |
| `DatabaseWrapper.Database.RunScript` | utilities/database.py:57-65 | logs the script's run, then one commit if it returned |
| `DatabaseWrapper.Database.InsertMany` | utilities/database.py:67-82 | logs the batch run, then one commit if it returned; returns the engine's row count |
| `DatabaseWrapper.Database.Insert` | utilities/database.py:84-101 | logs the run, then one commit on success, and returns the object's own cursor; on failure, no commit and the translated exception |
| `DatabaseWrapper.Database.Delete` | utilities/database.py:103-105 | logs a run with exactly the one parameter `pid`, then one commit if it returned |
| `DatabaseWrapper.Database.DeleteAll` | utilities/database.py:107-114 | logs a run of exactly `DELETE FROM <t>;` with no parameters, then one commit if it returned |
| `DatabaseWrapper.Database.Update` | utilities/database.py:116-118 | logs the run with its values, then one commit if it returned; returns no cursor |
| `DatabaseWrapper.Database.Fetch` | utilities/database.py:120-127 | logs a run without parameters and no commit; returns the engine's rows |
| `DatabaseWrapper.Database.FetchOne` | utilities/database.py:129-131 | logs a run without parameters and no commit; returns the first row or None |
| `DatabaseWrapper.Database.QueryWithData` | utilities/database.py:133-135 | logs the run with its values and no commit; returns the object's own cursor |
| `DatabaseWrapper.Database.CreateTable` | utilities/database.py:138-145 | logs the DDL run, then one commit if it returned |
| `DatabaseWrapper.Database.Join` | utilities/database.py:150-172 | logs a run of exactly the join query text with no parameters and no commit; returns the engine's rows |

Every `Database` method also keeps `Valid()`, which requires the log to follow
the commit discipline: a commit appears exactly after a successful run of a
committing method.

## Left out

- `backup_db` and its progress callback: a full copy done by the engine in one step (`pages=0`), with printed progress.
- `get_total_changes`: the value is the engine's own counter.
- `__del__`: closing the connection when the object is destroyed.
- Opening the connection (`sqlite3.connect`, `detect_types`, `row_factory`): the constructor cannot fail in the model.
- Rows, `rowcount`, `lastrowid` and what any statement does to the data: the engine's reply is a parameter of each method, not computed.
- `DatabaseWrapper.Database.RunScript`, `DatabaseWrapper.Database.InsertMany`, `DatabaseWrapper.Database.Insert`, `DatabaseWrapper.Database.Delete`, `DatabaseWrapper.Database.DeleteAll`, `DatabaseWrapper.Database.Update`, `DatabaseWrapper.Database.CreateTable`: a failing `conn.commit()` is not modelled. Commits always succeed, so these methods never raise after a run that returned, and the commit error that `insert` would translate is not covered.
- `DatabaseWrapper.Database.RunScript`: the implicit COMMIT that `executescript` issues before the script is the engine's doing and is not logged.
- `DatabaseWrapper.Database.Insert`, `DatabaseWrapper.Database.QueryWithData`: the cursor is returned by identity only. Its state after a statement (rows, `lastrowid`) is not modelled.
- Named placeholders (parameters passed as a mapping): parameters are modelled as a sequence only.
- The rest of `utilities/csv_tools.py`: the csv, chardet and pandas wrappers, the generator models and `main`. They are I/O through libraries that are not part of this model.
- The Streamlit pages and `Home.py`: UI rendering and MongoDB client calls.
