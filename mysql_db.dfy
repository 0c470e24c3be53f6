/**
 * The database gateway (`MYSQL_DB` in src/server/classes/MYSQL_DB.ts).
 *
 * An instance holds a connection pool and never reassigns it, so every
 * operation is modelled as a function of that pool: `None` is the pool that
 * was not created, and `Pool.execute` is the driver's `pool.execute`, an
 * oracle that answers a statement with either a result or a fault. What the
 * model pins down is the statement each operation sends and what it makes of
 * the answer.
 */
module MysqlDb {
  import opened Wrappers
  import opened Strings
  import opened JsValues
  import opened Placeholders
  import opened Format
  import opened SqlTimestamp

  /** A statement text and the parameters bound to its placeholders. */
  datatype Statement = Statement(sql: string, params: seq<Value>)

  /** A value coming back from the driver: an array, a row or header object, or a scalar. */
  datatype Js = Arr(elems: seq<Js>) | Record(fields: Mapping) | Scalar(v: Value)

  /**
   * What `pool.execute` settles to: the `[result, fields]` pair, or a rejection
   * with an `Error` carrying `message`.
   */
  datatype Reply = Returned(result: Js, fields: Js) | Fault(message: string)

  datatype Pool = Pool(execute: Statement -> Reply)

  const PoolNotCreated := "Pool was not created. Ensure the pool is created when running the app."
  /** The wording `UPDATE` and `INSERT_GETID` use. */
  const PoolNotCreatedShort := "Pool was not created. Ensure pool is created when running the app."
  /** The message of the `TypeError` thrown when reading property `name` of `null` or `undefined`. */
  function ReadFailure(base: string, name: string): string
  {
    "Cannot read properties of " + base + " (reading '" + name + "')"
  }

  /** What `this.pool.execute` throws when `this.pool` is `undefined`. */
  const ExecuteOnUndefined := "TypeError: " + ReadFailure("undefined", "execute")

  /** `${e}` for an `Error` whose message is `message`. */
  function ErrorText(message: string): string
  {
    "Error: " + message
  }

  /** The statement `executeQuery` hands to the pool: the query with `;` appended. */
  function Terminated(query: string, params: seq<Value>): (st: Statement)
    ensures |st.sql| == |query| + 1 && st.sql[..|query|] == query && st.sql[|query|] == ';'
    ensures st.params == params
  {
    Statement(query + ";", params)
  }

  /**
   * `processResult`: the first element of the result when the result is a
   * non-empty array whose first element is itself an array; otherwise no rows.
   */
  function ProcessResult(result: Js): (rows: seq<Js>)
    ensures result.Arr? && |result.elems| > 0 && result.elems[0].Arr? ==> rows == result.elems[0].elems
    ensures !(result.Arr? && |result.elems| > 0 && result.elems[0].Arr?) ==> rows == []
  {
    if result.Arr? && |result.elems| > 0 && result.elems[0].Arr? then result.elems[0].elems else []
  }

  // ---------------------------------------------------------------------
  // SELECT

  datatype JoinType = Inner | Left | Right | Full

  function JoinTypeName(t: JoinType): string
  {
    match t
    case Inner => "INNER"
    case Left => "LEFT"
    case Right => "RIGHT"
    case Full => "FULL"
  }

  /** A `JoinClause`; `columns` is `None` when a caller leaves it out. */
  datatype JoinClause = JoinClause(table: string, kind: JoinType, on: string, columns: Option<seq<string>>)

  /** The `options` of `SELECT`; absent options are all `None`. */
  datatype SelectOptions = SelectOptions(where: Option<Mapping>, like: Option<Mapping>, join: Option<JoinClause>)

  /** `${joinClause.table}.${col}` for each column. */
  function QualifiedColumns(table: string, columns: seq<string>): (r: seq<string>)
    ensures |r| == |columns|
    ensures forall i :: 0 <= i < |columns| ==> r[i] == table + "." + columns[i]
  {
    if columns == [] then [] else [table + "." + columns[0]] + QualifiedColumns(table, columns[1..])
  }

  /**
   * The statement up to its WHERE part. Without a join: `SELECT * FROM t` and
   * a newline. With a join that names columns: every column of the table and
   * the chosen columns of the joined table, then the FROM line and the JOIN
   * condition. With a join that names none, the first line stays
   * `SELECT * FROM t`, so the FROM line appears twice.
   */
  function SelectHead(table: string, join: Option<JoinClause>): (head: string)
    ensures join.None? ==> head == "SELECT * FROM " + table + "\n"
    ensures join.Some? && join.value.columns.Some? ==>
      head == "SELECT " + table + ".*, " + Join(QualifiedColumns(join.value.table, join.value.columns.value), ", ") + "\n"
              + "FROM " + table + "\n" + JoinTypeName(join.value.kind) + " JOIN " + join.value.table + " ON " + join.value.on
    ensures join.Some? && join.value.columns.None? ==>
      head == "SELECT * FROM " + table + "\n"
              + "FROM " + table + "\n" + JoinTypeName(join.value.kind) + " JOIN " + join.value.table + " ON " + join.value.on
  {
    var projection :=
      if join.Some? && join.value.columns.Some?
      then "SELECT " + table + ".*, " + Join(QualifiedColumns(join.value.table, join.value.columns.value), ", ") + "\n"
      else "SELECT * FROM " + table + "\n";
    if join.Some?
    then projection + ("FROM " + table + "\n" + JoinTypeName(join.value.kind) + " JOIN " + join.value.table + " ON " + join.value.on)
    else projection
  }

  /**
   * What follows the head: nothing when neither fragment has text, otherwise
   * ` WHERE ` and the WHERE text, then the LIKE text, with ` AND ` between
   * them only when both are present.
   */
  function WherePart(w: string, l: string): (t: string)
    ensures w == "" && l == "" ==> t == ""
    ensures w != "" && l == "" ==> t == " WHERE " + w
    ensures w == "" && l != "" ==> t == " WHERE " + l
    ensures w != "" && l != "" ==> t == " WHERE " + w + " AND " + l
  {
    var acc := if w != "" then "" + w else "";
    var combined := if l != "" then acc + (if acc != "" then " AND " else "") + l else acc;
    if combined != "" then " WHERE " + combined else ""
  }

  /** The statement `SELECT` builds, before `executeQuery` terminates it. */
  function SelectStatement(table: string, opts: SelectOptions): (st: Statement)
    ensures st.params == WhereClause(table, opts.where).params + LikeClause(table, opts.like).params
  {
    var w := WhereClause(table, opts.where);
    var l := LikeClause(table, opts.like);
    Statement(SelectHead(table, opts.join) + WherePart(w.sql, l.sql), w.params + l.params)
  }

  /**
   * `SELECT`: fails when there is no pool or the execution fails; otherwise
   * the rows of the first result set, or none when the result has another
   * shape. "No rows" is never a failure.
   */
  function Select(pool: Option<Pool>, table: string, opts: SelectOptions): (r: Result<seq<Js>>)
    ensures pool.None? ==> r == Failure(PoolNotCreated)
    ensures pool.Some? ==>
      var st := SelectStatement(table, opts);
      var reply := pool.value.execute(Terminated(st.sql, st.params));
      && (reply.Fault? ==> r == Failure("Error in SELECT: " + ErrorText(reply.message)))
      && (reply.Returned? ==> r == Success(if reply.result.Arr? then reply.result.elems else []))
  {
    if pool.None? then Failure(PoolNotCreated)
    else
      var st := SelectStatement(table, opts);
      match pool.value.execute(Terminated(st.sql, st.params))
      case Fault(m) => Failure("Error in SELECT: " + ErrorText(m))
      case Returned(result, fields) => Success(ProcessResult(Arr([result, fields])))
  }

  /**
   * Where the WHERE keyword goes: nothing is appended when neither mapping
   * contributes text, and a present LIKE mapping always contributes, even an
   * empty one, whose fragment is the lone `)`.
   */
  lemma SelectWhereCases(table: string, opts: SelectOptions)
    ensures var tail := WherePart(WhereClause(table, opts.where).sql, LikeClause(table, opts.like).sql);
      && SelectStatement(table, opts).sql == SelectHead(table, opts.join) + tail
      && (tail == "" <==> Entries(opts.where) == [] && opts.like.None?)
      && (Entries(opts.where) == [] && opts.like == Some([]) ==> tail == " WHERE )")
  {
    var w := WhereClause(table, opts.where).sql;
    var l := LikeClause(table, opts.like).sql;
    if w == "" && l != "" {
      assert WherePart(w, l) == " WHERE " + l;
      assert |WherePart(w, l)| > 0;
    } else if w != "" {
      assert |WherePart(w, l)| > 0;
    }
  }

  /** No name that goes into the SELECT text contains a placeholder. */
  predicate PlainSelect(table: string, opts: SelectOptions)
  {
    && PlainNames(table, Entries(opts.where))
    && PlainNames(table, Entries(opts.like))
    && (opts.join.Some? ==>
         && '?' !in opts.join.value.table
         && '?' !in opts.join.value.on
         && (opts.join.value.columns.Some? ==>
              forall i :: 0 <= i < |opts.join.value.columns.value| ==> '?' !in opts.join.value.columns.value[i]))
  }

  lemma {:induction false} JoinPlain(parts: seq<string>, sep: string)
    requires '?' !in sep && forall i :: 0 <= i < |parts| ==> '?' !in parts[i]
    ensures '?' !in Join(parts, sep)
  {
    if |parts| > 1 {
      JoinPlain(parts[1..], sep);
    }
  }

  lemma SelectHeadPlain(table: string, join: Option<JoinClause>)
    requires '?' !in table
    requires join.Some? ==> '?' !in join.value.table && '?' !in join.value.on
    requires join.Some? && join.value.columns.Some? ==>
      forall i :: 0 <= i < |join.value.columns.value| ==> '?' !in join.value.columns.value[i]
    ensures '?' !in SelectHead(table, join)
  {
    var projection := "SELECT * FROM " + table + "\n";
    if join.Some? && join.value.columns.Some? {
      var cols := QualifiedColumns(join.value.table, join.value.columns.value);
      forall i | 0 <= i < |cols| ensures '?' !in cols[i] {
        assert cols[i] == join.value.table + "." + join.value.columns.value[i];
      }
      JoinPlain(cols, ", ");
      projection := "SELECT " + table + ".*, " + Join(cols, ", ") + "\n";
    }
    assert '?' !in projection;
    if join.Some? {
      var j := join.value;
      assert '?' !in JoinTypeName(j.kind);
      var rest := "FROM " + table + "\n" + JoinTypeName(j.kind) + " JOIN " + j.table + " ON " + j.on;
      assert '?' !in rest;
      assert SelectHead(table, join) == projection + rest;
    } else {
      assert SelectHead(table, join) == projection;
    }
  }

  /** A WHERE fragment over plain names does not start with a placeholder. */
  lemma WhereClauseStart(table: string, where: Option<Mapping>)
    requires PlainNames(table, Entries(where))
    ensures var w := WhereClause(table, where).sql;
      w != "" ==> w[0] != '?'
  {
    var w := WhereClause(table, where).sql;
    if w != "" {
      var m := Entries(where);
      var conds := Conditions(table, Keys(m), " = ");
      var c := conds[0];
      assert c == table + ("." + Keys(m)[0] + " = ?");
      assert c[0] != '?' by {
        if table == "" {
          assert c[0] == '.';
        } else {
          assert c[0] == table[0];
        }
      }
    }
  }

  /** A WHERE or LIKE fragment over plain names stays non-empty once its parameters are filled in. */
  lemma FragmentsStayNonEmpty(table: string, opts: SelectOptions)
    requires PlainSelect(table, opts)
    ensures var w := WhereClause(table, opts.where);
      Spliced(w.sql, w.params) == "" <==> w.sql == ""
    ensures var l := LikeClause(table, opts.like);
      Spliced(l.sql, l.params) == "" <==> l.sql == ""
  {
    var w := WhereClause(table, opts.where);
    var l := LikeClause(table, opts.like);
    if w.sql != "" {
      WhereClauseStart(table, opts.where);
    }
    if l.sql != "" {
      var m := Entries(opts.like);
      if m == [] {
        assert l.sql[0] == ')';
      } else {
        LikeClauseShape(table, m);
        assert l.sql[0] == '(';
      }
    }
  }

  /** The WHERE part commutes with filling in parameters, each fragment taking its own. */
  lemma WherePartSpliced(w: string, l: string, pw: seq<Value>, pl: seq<Value>)
    requires PlaceholderCount(w) == |pw| && PlaceholderCount(l) == |pl|
    requires Spliced(w, pw) == "" <==> w == ""
    requires Spliced(l, pl) == "" <==> l == ""
    ensures PlaceholderCount(WherePart(w, l)) == |pw| + |pl|
    ensures Spliced(WherePart(w, l), pw + pl) == WherePart(Spliced(w, pw), Spliced(l, pl))
  {
    if w != "" && l != "" {
      SplicedBetween(" WHERE ", w, " AND ", l, pw, pl);
    } else if w != "" {
      assert pl == [] && pw + pl == pw;
      SplicedAfterPlain(" WHERE ", w, pw);
    } else if l != "" {
      assert pw == [] && pw + pl == pl;
      SplicedAfterPlain(" WHERE ", l, pl);
    } else {
      assert pw + pl == [];
    }
  }

  /**
   * The SELECT statement and its parameters line up: the executed text has
   * one placeholder per parameter, and filling them in gives the statement
   * built from the WHERE and LIKE fragments each filled with its own
   * parameters (WHERE parameters first, then LIKE).
   */
  lemma SelectAligned(table: string, opts: SelectOptions)
    requires PlainSelect(table, opts)
    ensures var st := SelectStatement(table, opts);
      var ex := Terminated(st.sql, st.params);
      PlaceholderCount(ex.sql) == |ex.params|
    ensures var st := SelectStatement(table, opts);
      var w := WhereClause(table, opts.where);
      var l := LikeClause(table, opts.like);
      Spliced(st.sql, st.params) == SelectHead(table, opts.join) + WherePart(Spliced(w.sql, w.params), Spliced(l.sql, l.params))
  {
    var st := SelectStatement(table, opts);
    var w := WhereClause(table, opts.where);
    var l := LikeClause(table, opts.like);
    var head := SelectHead(table, opts.join);
    var tail := WherePart(w.sql, l.sql);
    assert PlaceholderCount(w.sql) == |w.params| && PlaceholderCount(l.sql) == |l.params| by {
      WhereClauseAligned(table, opts.where);
      LikeClauseAligned(table, opts.like);
    }
    assert PlaceholderCount(tail) == |st.params|
        && Spliced(tail, st.params) == WherePart(Spliced(w.sql, w.params), Spliced(l.sql, l.params)) by {
      FragmentsStayNonEmpty(table, opts);
      WherePartSpliced(w.sql, l.sql, w.params, l.params);
    }
    assert st.sql == head + tail;
    assert PlaceholderCount(st.sql) == |st.params| && Spliced(st.sql, st.params) == head + Spliced(tail, st.params) by {
      SelectHeadPlain(table, opts.join);
      SplicedAfterPlain(head, tail, st.params);
    }
    CountAbsent(";", '?');
    CountConcat(st.sql, ";", '?');
  }

  // ---------------------------------------------------------------------
  // UPDATE

  /** `UPDATE <table> SET <set> WHERE <where>`, the SET parameters before the WHERE ones. */
  function UpdateStatement(table: string, values: Mapping, where: Mapping): (st: Statement)
    ensures st.params == Values(values) + Values(where)
  {
    var s := SetClause(values);
    var w := WhereClause(table, Some(where));
    Statement("UPDATE " + table + " SET " + s.sql + " WHERE " + w.sql, s.params + w.params)
  }

  /**
   * `result.<name>`: reading a property of `null` or `undefined` throws a
   * `TypeError`; a header or row object gives the field's value, and every
   * other value (or a missing field) gives `undefined`.
   */
  function ReadProperty(obj: Js, name: string): (r: Result<Value>)
    ensures r.Failure? <==> obj == Scalar(Null) || obj == Scalar(Undefined)
    ensures obj == Scalar(Null) ==> r == Failure(ReadFailure("null", name))
    ensures obj == Scalar(Undefined) ==> r == Failure(ReadFailure("undefined", name))
    ensures obj.Record? && Lookup(obj.fields, name).Some? ==> r == Success(Lookup(obj.fields, name).value)
    ensures r.Success? && r.value != Undefined ==> obj.Record? && Lookup(obj.fields, name) == Some(r.value)
  {
    match obj
    case Scalar(Null) => Failure(ReadFailure("null", name))
    case Scalar(Undefined) => Failure(ReadFailure("undefined", name))
    case Record(fields) => Success(if Lookup(fields, name).Some? then Lookup(fields, name).value else Undefined)
    case _ => Success(Undefined)
  }

  /** The value of the first entry named `name`. */
  function Lookup(m: Mapping, name: string): (r: Option<Value>)
    ensures r.Some? ==> exists i :: 0 <= i < |m| && m[i] == (name, r.value)
    ensures r.None? ==> forall i :: 0 <= i < |m| ==> m[i].0 != name
  {
    if m == [] then None
    else if m[0].0 == name then Some(m[0].1)
    else
      var r := Lookup(m[1..], name);
      assert r.Some? ==> exists i :: 1 <= i < |m| && m[i] == (name, r.value) by {
        if r.Some? {
          var i :| 0 <= i < |m[1..]| && m[1..][i] == (name, r.value);
          assert m[i + 1] == (name, r.value);
        }
      }
      r
  }

  /**
   * `UPDATE`: true exactly when the header reports one affected row; the
   * update still happened when it reports more.
   */
  function Update(pool: Option<Pool>, table: string, values: Mapping, where: Mapping): (r: Result<bool>)
    ensures pool.None? ==> r == Failure(PoolNotCreatedShort)
    ensures pool.Some? ==>
      var reply := pool.value.execute(UpdateStatement(table, values, where));
      var read := if reply.Returned? then ReadProperty(reply.result, "affectedRows") else Success(Undefined);
      && (reply.Fault? ==> r == Failure("Error in UPDATE: " + ErrorText(reply.message)))
      && (reply.Returned? && read.Failure? ==> r == Failure("Error in UPDATE: TypeError: " + read.error))
      && (reply.Returned? && read.Success? ==> r == Success(read.value == Num(1)))
  {
    if pool.None? then Failure(PoolNotCreatedShort)
    else
      match pool.value.execute(UpdateStatement(table, values, where))
      case Fault(m) => Failure("Error in UPDATE: " + ErrorText(m))
      case Returned(result, _) =>
        match ReadProperty(result, "affectedRows")
        case Failure(m) => Failure("Error in UPDATE: TypeError: " + m)
        case Success(affected) => Success(affected == Num(1))
  }

  /** A header reporting `n` affected rows makes `UPDATE` answer `n == 1`: false for 0 and for 2 or more. */
  lemma UpdateExactlyOne(pool: Pool, table: string, values: Mapping, where: Mapping, header: Mapping, n: int)
    requires pool.execute(UpdateStatement(table, values, where)).Returned?
    requires pool.execute(UpdateStatement(table, values, where)).result == Record(header)
    requires Lookup(header, "affectedRows") == Some(Num(n))
    ensures Update(Some(pool), table, values, where) == Success(n == 1)
  {
  }

  /** A `null` result makes `UPDATE` fail with the wrapped `TypeError` of reading `affectedRows`. */
  lemma UpdateNullResult(pool: Pool, table: string, values: Mapping, where: Mapping)
    requires pool.execute(UpdateStatement(table, values, where)) == Returned(Scalar(Null), Arr([]))
    ensures Update(Some(pool), table, values, where)
         == Failure("Error in UPDATE: TypeError: " + ReadFailure("null", "affectedRows"))
  {
  }

  /**
   * The UPDATE statement and its parameters line up: one placeholder per
   * parameter, and filling them in assigns each column its own value and
   * compares each WHERE column with its own value.
   */
  lemma UpdateAligned(table: string, values: Mapping, where: Mapping)
    requires PlainNames(table, values) && PlainKeys(where)
    ensures var st := UpdateStatement(table, values, where);
      PlaceholderCount(st.sql) == |st.params|
    ensures var st := UpdateStatement(table, values, where);
      Spliced(st.sql, st.params)
      == "UPDATE " + table + " SET " + Join(BoundAssignments(values), ", ")
         + " WHERE " + Join(BoundConditions(table, Keys(where), Values(where), " = "), " AND ")
  {
    var s := SetClause(values);
    var w := WhereClause(table, Some(where));
    var front := "UPDATE " + table + " SET ";
    var setText := Join(BoundAssignments(values), ", ");
    var whereText := Join(BoundConditions(table, Keys(where), Values(where), " = "), " AND ");
    assert PlaceholderCount(s.sql) == |s.params| && Spliced(s.sql, s.params) == setText by {
      SetClauseAligned(values);
    }
    assert Spliced(w.sql, w.params) == whereText && PlaceholderCount(w.sql) == |w.params| by {
      WhereClauseAligned(table, Some(where));
    }
    assert '?' !in front;
    SplicedBetween(front, s.sql, " WHERE ", w.sql, s.params, w.params);
  }

  // ---------------------------------------------------------------------
  // INSERT_BATCH_OVERWRITE

  datatype Counts = Counts(inserted: int, affected: int, changed: int)

  /** `Array(n).fill(x)`, and `data.map(() => x)` for `n` rows. */
  function Repeat<T>(x: T, n: nat): (r: seq<T>)
    ensures |r| == n && forall i :: 0 <= i < n ==> r[i] == x
  {
    if n == 0 then [] else [x] + Repeat(x, n - 1)
  }

  /** `(?, ?, …, ?)` with one placeholder per column. */
  function RowPlaceholders(columns: nat): string
  {
    "(" + Join(Repeat("?", columns), ", ") + ")"
  }

  /** `value !== undefined ? value : null`. */
  function NullIfUndefined(v: Value): (r: Value)
    ensures r != Undefined
    ensures v != Undefined ==> r == v
    ensures v == Undefined ==> r == Null
  {
    if v.Undefined? then Null else v
  }

  /** One row's values, in key order, with `undefined` sent as `null`. */
  function RowValues(row: Mapping): (vs: seq<Value>)
    ensures |vs| == |row|
    ensures forall i :: 0 <= i < |row| ==> vs[i] == NullIfUndefined(row[i].1)
  {
    if row == [] then [] else [NullIfUndefined(row[0].1)] + RowValues(row[1..])
  }

  /** `data.flatMap(...)`: every row's values, row after row; `undefined` never reaches the driver. */
  function FlatValues(data: seq<Mapping>): (vs: seq<Value>)
    ensures forall i :: 0 <= i < |vs| ==> !vs[i].Undefined?
  {
    if data == [] then [] else RowValues(data[0]) + FlatValues(data[1..])
  }

  /** `` `col` ``: a column name in backticks. */
  function Quoted(column: string): string
  {
    "`" + column + "`"
  }

  function QuotedColumns(keys: seq<string>): (r: seq<string>)
    ensures |r| == |keys|
    ensures forall i :: 0 <= i < |keys| ==> r[i] == Quoted(keys[i])
  {
    if keys == [] then [] else [Quoted(keys[0])] + QuotedColumns(keys[1..])
  }

  /** `` `col` = VALUES(`col`) ``: overwrite the column with the incoming row's value. */
  function Overwrite(column: string): string
  {
    Quoted(column) + " = VALUES(" + Quoted(column) + ")"
  }

  function OverwriteColumns(keys: seq<string>): (r: seq<string>)
    ensures |r| == |keys|
    ensures forall i :: 0 <= i < |keys| ==> r[i] == Overwrite(keys[i])
  {
    if keys == [] then [] else [Overwrite(keys[0])] + OverwriteColumns(keys[1..])
  }

  /**
   * The upsert text for `rows` rows with columns `keys`: when no name holds
   * a `?`, its only placeholders are those of the VALUES groups, `rows`
   * groups of one per column.
   */
  function BatchSql(table: string, keys: seq<string>, rows: nat): (sql: string)
    ensures '?' !in table && (forall i :: 0 <= i < |keys| ==> '?' !in keys[i]) ==>
      PlaceholderCount(sql) == rows * |keys|
  {
    var columns := Join(QuotedColumns(keys), ", ");
    var placeholders := Join(Repeat(RowPlaceholders(|keys|), rows), ", ");
    var updates := Join(OverwriteColumns(keys), ", ");
    var sql := "INSERT INTO " + table + " (" + columns + ") VALUES " + placeholders + " ON DUPLICATE KEY UPDATE " + updates;
    if '?' !in table && forall i :: 0 <= i < |keys| ==> '?' !in keys[i] then
      UpsertTextCount(table, keys, rows);
      sql
    else
      sql
  }

  /** Placeholders of the upsert text: those of the row groups, since names and keywords hold none. */
  lemma UpsertTextCount(table: string, keys: seq<string>, rows: nat)
    requires '?' !in table && forall i :: 0 <= i < |keys| ==> '?' !in keys[i]
    ensures PlaceholderCount("INSERT INTO " + table + " (" + Join(QuotedColumns(keys), ", ") + ") VALUES "
        + Join(Repeat(RowPlaceholders(|keys|), rows), ", ") + " ON DUPLICATE KEY UPDATE " + Join(OverwriteColumns(keys), ", "))
      == rows * |keys|
  {
    var columns, placeholders := Join(QuotedColumns(keys), ", "), Join(Repeat(RowPlaceholders(|keys|), rows), ", ");
    var updates := Join(OverwriteColumns(keys), ", ");
    assert PlaceholderCount(columns) == 0 && PlaceholderCount(updates) == 0 by { ColumnListsPlain(keys); }
    assert PlaceholderCount(placeholders) == rows * |keys| by { GroupsCount(rows, |keys|); }
    UpsertTextPlain(table);
    PlaceholdersOnlyInGroups("INSERT INTO " + table + " (", columns, ") VALUES ", placeholders, " ON DUPLICATE KEY UPDATE ", updates);
  }

  /**
   * The upsert statement: the column list and the ON DUPLICATE KEY UPDATE
   * list come from the first row alone, one placeholder group per row.
   */
  function BatchStatement(data: seq<Mapping>, table: string): (st: Statement)
    requires data != []
    ensures st.params == FlatValues(data)
  {
    Statement(BatchSql(table, Keys(data[0]), |data|), FlatValues(data))
  }

  /**
   * `value || 0` for a counter of a MySQL result header, which holds a number
   * there or nothing: a number is kept, anything else counts as 0.
   */
  function Counter(v: Value): (n: int)
    ensures v.Num? ==> n == v.n
    ensures !v.Num? ==> n == 0
  {
    match v
    case Num(k) => k
    case _ => 0
  }

  const NoBatchData := "INSERT_BATCH_OVERWRITE Error: No data provided for batch insert."

  /**
   * `INSERT_BATCH_OVERWRITE`: refuses an empty batch; otherwise reports the
   * engine's counters with `inserted = affected - changed`.
   */
  function InsertBatchOverwrite(pool: Option<Pool>, data: seq<Mapping>, table: string): (r: Result<Counts>)
    ensures pool.None? ==> r == Failure(PoolNotCreated)
    ensures pool.Some? && data == [] ==> r == Failure(NoBatchData)
    ensures pool.Some? && data != [] ==>
      var reply := pool.value.execute(BatchStatement(data, table));
      var affected := if reply.Returned? then ReadProperty(reply.result, "affectedRows") else Success(Undefined);
      var changed := if reply.Returned? then ReadProperty(reply.result, "changedRows") else Success(Undefined);
      && (reply.Fault? ==> r == Failure("INSERT_BATCH_OVERWRITE Error: " + reply.message))
      && (reply.Returned? && affected.Failure? ==> r == Failure("INSERT_BATCH_OVERWRITE Error: " + affected.error))
      && (reply.Returned? && affected.Success? ==>
            && changed.Success?
            && r.Success?
            && r.value.affected == Counter(affected.value)
            && r.value.changed == Counter(changed.value))
    ensures r.Success? ==> r.value.inserted == r.value.affected - r.value.changed
  {
    if pool.None? then Failure(PoolNotCreated)
    else if data == [] then Failure(NoBatchData)
    else
      match pool.value.execute(BatchStatement(data, table))
      case Fault(m) => Failure("INSERT_BATCH_OVERWRITE Error: " + m)
      case Returned(result, _) =>
        match ReadProperty(result, "affectedRows")
        case Failure(m) => Failure("INSERT_BATCH_OVERWRITE Error: " + m)
        case Success(a) =>
          var affected := Counter(a);
          var changed := Counter(ReadProperty(result, "changedRows").value);
          Success(Counts(affected - changed, affected, changed))
  }

  /** Every row has the same number of columns. */
  predicate Uniform(data: seq<Mapping>, columns: nat)
  {
    forall i :: 0 <= i < |data| ==> |data[i]| == columns
  }

  /** One more row adds one row's worth of entries. */
  lemma MulSucc(rows: nat, columns: nat)
    ensures (rows + 1) * columns == columns + rows * columns
  {
  }

  /** Index arithmetic of a row-major layout with `columns` entries per row. */
  lemma RowMajorIndex(i: nat, j: nat, rows: nat, columns: nat)
    requires i < rows && j < columns
    ensures i * columns + j < rows * columns
    ensures i > 0 ==> i * columns + j - columns == (i - 1) * columns + j
  {
    assert (i + 1) * columns == i * columns + columns;
    assert (i + 1) * columns <= rows * columns;
  }

  lemma {:induction false} BatchValuesLength(data: seq<Mapping>, columns: nat)
    requires Uniform(data, columns)
    ensures |FlatValues(data)| == |data| * columns
  {
    if data != [] {
      BatchValuesLength(data[1..], columns);
      MulSucc(|data[1..]|, columns);
    }
  }

  /** Value `j` of row `i` sits at parameter `i * columns + j`. */
  lemma {:induction false} BatchValueAt(data: seq<Mapping>, columns: nat, i: nat, j: nat)
    requires Uniform(data, columns) && i < |data| && j < columns
    ensures i * columns + j < |FlatValues(data)|
    ensures FlatValues(data)[i * columns + j] == NullIfUndefined(data[i][j].1)
  {
    BatchValuesLength(data, columns);
    RowMajorIndex(i, j, |data|, columns);
    var idx := i * columns + j;
    var head := RowValues(data[0]);
    var tail := FlatValues(data[1..]);
    assert FlatValues(data) == head + tail;
    assert |head| == columns;
    if i == 0 {
      assert idx == j;
      assert FlatValues(data)[j] == head[j];
    } else {
      var prev := (i - 1) * columns + j;
      assert idx == columns + prev;
      BatchValueAt(data[1..], columns, i - 1, j);
      assert data[i] == data[1..][i - 1];
      assert FlatValues(data)[idx] == tail[prev];
    }
  }

  /** Parameter `i * columns + j` exists and is value `j` of row `i`, `undefined` sent as `null`. */
  predicate ValueAt(data: seq<Mapping>, columns: nat, i: nat, j: nat)
    requires i < |data| && j < |data[i]|
  {
    i * columns + j < |FlatValues(data)| && FlatValues(data)[i * columns + j] == NullIfUndefined(data[i][j].1)
  }

  /**
   * For uniform rows the parameters are the rows' values in row-major order:
   * value `j` of row `i` is parameter `i * columns + j`.
   */
  lemma BatchValuesRowMajor(data: seq<Mapping>, columns: nat)
    requires Uniform(data, columns)
    ensures |FlatValues(data)| == |data| * columns
    ensures forall i: nat, j: nat :: i < |data| && j < columns ==> ValueAt(data, columns, i, j)
  {
    BatchValuesLength(data, columns);
    forall i: nat, j: nat | i < |data| && j < columns
      ensures ValueAt(data, columns, i, j)
    {
      BatchValueAt(data, columns, i, j);
    }
  }

  lemma {:induction false} JoinCount(parts: seq<string>, sep: string, per: nat)
    requires Count(sep, '?') == 0
    requires forall i :: 0 <= i < |parts| ==> Count(parts[i], '?') == per
    ensures Count(Join(parts, sep), '?') == |parts| * per
  {
    if |parts| > 1 {
      JoinCount(parts[1..], sep, per);
      CountConcat(parts[0], sep, '?');
      CountConcat(parts[0] + sep, Join(parts[1..], sep), '?');
      MulSucc(|parts| - 1, per);
    }
  }

  /** One placeholder per column in a row group. */
  lemma RowPlaceholdersCount(columns: nat)
    ensures PlaceholderCount(RowPlaceholders(columns)) == columns
  {
    CountAbsent(", ", '?');
    var inner := Join(Repeat("?", columns), ", ");
    JoinCount(Repeat("?", columns), ", ", 1);
    CountConcat("(", inner, '?');
    CountConcat("(" + inner, ")", '?');
  }

  lemma OverwritePlain(column: string)
    requires '?' !in column
    ensures '?' !in Quoted(column) && '?' !in Overwrite(column)
  {
    var q := Quoted(column);
    assert '?' !in q;
    assert '?' !in " = VALUES(";
    assert '?' !in q + " = VALUES(";
    assert '?' !in q + " = VALUES(" + q;
  }

  /** The column and overwrite lists of placeholder-free keys hold no placeholder. */
  lemma ColumnListsPlain(keys: seq<string>)
    requires forall i :: 0 <= i < |keys| ==> '?' !in keys[i]
    ensures Count(Join(QuotedColumns(keys), ", "), '?') == 0
    ensures Count(Join(OverwriteColumns(keys), ", "), '?') == 0
    ensures '?' !in Join(QuotedColumns(keys), ", ") && '?' !in Join(OverwriteColumns(keys), ", ")
  {
    var cols := QuotedColumns(keys);
    var upd := OverwriteColumns(keys);
    forall i | 0 <= i < |keys| ensures '?' !in cols[i] && '?' !in upd[i] {
      OverwritePlain(keys[i]);
    }
    JoinPlain(cols, ", ");
    CountAbsent(Join(cols, ", "), '?');
    JoinPlain(upd, ", ");
    CountAbsent(Join(upd, ", "), '?');
  }

  /** The fixed text of the upsert holds no placeholder. */
  lemma UpsertTextPlain(table: string)
    requires '?' !in table
    ensures '?' !in "INSERT INTO " + table + " (" && '?' !in ") VALUES " && '?' !in " ON DUPLICATE KEY UPDATE "
  {
  }

  /**
   * Upsert text laid out as head, column list, `VALUES` keyword, row groups,
   * update keyword and update list: when only the row groups hold
   * placeholders, the text holds exactly theirs.
   */
  lemma PlaceholdersOnlyInGroups(head: string, columns: string, values: string, groups: string, update: string, updates: string)
    requires '?' !in head && '?' !in values && '?' !in update
    requires PlaceholderCount(columns) == 0 && PlaceholderCount(updates) == 0
    ensures PlaceholderCount(head + columns + values + groups + update + updates) == PlaceholderCount(groups)
  {
    CountAbsent(head, '?');
    CountAbsent(values, '?');
    CountAbsent(update, '?');
    CountConcat(head, columns, '?');
    CountConcat(head + columns, values, '?');
    CountConcat(head + columns + values, groups, '?');
    CountConcat(head + columns + values + groups, update, '?');
    CountConcat(head + columns + values + groups + update, updates, '?');
  }

  /** `n` row groups of `columns` placeholders each. */
  lemma GroupsCount(rows: nat, columns: nat)
    ensures PlaceholderCount(Join(Repeat(RowPlaceholders(columns), rows), ", ")) == rows * columns
  {
    RowPlaceholdersCount(columns);
    CountAbsent(", ", '?');
    JoinCount(Repeat(RowPlaceholders(columns), rows), ", ", columns);
  }

  /**
   * Rows × first-record columns placeholders in all; with uniform rows that
   * is exactly one placeholder per parameter (`BatchAligned` says which).
   */
  lemma BatchPlaceholders(data: seq<Mapping>, table: string)
    requires data != [] && '?' !in table && PlainKeys(data[0])
    ensures PlaceholderCount(BatchStatement(data, table).sql) == |data| * |data[0]|
    ensures Uniform(data, |data[0]|) ==> PlaceholderCount(BatchStatement(data, table).sql) == |BatchStatement(data, table).params|
  {
    if Uniform(data, |data[0]|) {
      BatchValuesLength(data, |data[0]|);
    }
  }

  /** Each value as the text that fills its placeholder. */
  function Literals(vs: seq<Value>): (r: seq<string>)
    ensures |r| == |vs|
    ensures forall i :: 0 <= i < |vs| ==> r[i] == Literal(vs[i])
  {
    seq(|vs|, i requires 0 <= i < |vs| => Literal(vs[i]))
  }

  /** A record's values written into its row group: `(<value>, <value>, …)`, `undefined` as `null`. */
  function FilledGroup(row: Mapping): string
  {
    "(" + Join(Literals(RowValues(row)), ", ") + ")"
  }

  function FilledGroups(data: seq<Mapping>): (r: seq<string>)
    ensures |r| == |data|
    ensures forall i :: 0 <= i < |data| ==> r[i] == FilledGroup(data[i])
  {
    seq(|data|, i requires 0 <= i < |data| => FilledGroup(data[i]))
  }

  /** Each lone `?` of a row group, filled with its value, is that value's literal. */
  lemma HolesFilled(vs: seq<Value>)
    ensures AllEndInHole(Repeat("?", |vs|))
    ensures Filled(Repeat("?", |vs|), vs) == Literals(vs)
  {
    var holes := Repeat("?", |vs|);
    assert AllEndInHole(holes) by {
      forall i | 0 <= i < |holes| ensures EndsInHole(holes[i]) {
        assert holes[i] == "?" && holes[i][..0] == [];
      }
    }
    var f := Filled(holes, vs);
    forall i | 0 <= i < |vs| ensures f[i] == Literal(vs[i]) {
      assert holes[i][..|holes[i]| - 1] == "";
    }
    assert f == Literals(vs);
  }

  /** A row group filled with a list of values holds exactly those values, in order. */
  lemma GroupSpliced(vs: seq<Value>)
    ensures PlaceholderCount(RowPlaceholders(|vs|)) == |vs|
    ensures Spliced(RowPlaceholders(|vs|), vs) == "(" + Join(Literals(vs), ", ") + ")"
  {
    var holes := Repeat("?", |vs|);
    var inner := Join(holes, ", ");
    HolesFilled(vs);
    assert PlaceholderCount(inner) == |vs| by { JoinHolesCount(holes, ", "); }
    assert Spliced(inner, vs) == Join(Literals(vs), ", ") by { JoinHolesSpliced(holes, ", ", vs); }
    SplicedBetween("(", inner, ")", "", vs, []);
    assert "(" + inner + ")" + "" == RowPlaceholders(|vs|) && vs + [] == vs;
  }

  /** Every row group is filled with the values of its own record, record after record. */
  lemma {:induction false} GroupsSpliced(data: seq<Mapping>, columns: nat)
    requires data != [] && Uniform(data, columns)
    ensures Spliced(Join(Repeat(RowPlaceholders(columns), |data|), ", "), FlatValues(data)) == Join(FilledGroups(data), ", ")
  {
    var g, px := RowPlaceholders(columns), RowValues(data[0]);
    assert PlaceholderCount(g) == |px| && Spliced(g, px) == FilledGroup(data[0]) by { GroupSpliced(px); }
    if |data| == 1 {
      assert FlatValues(data) == px by { assert data[1..] == []; }
    } else {
      var rest, py := Join(Repeat(g, |data| - 1), ", "), FlatValues(data[1..]);
      var filledRest := Join(FilledGroups(data[1..]), ", ");
      assert Join(Repeat(g, |data|), ", ") == g + ", " + rest by {
        assert Repeat(g, |data|)[1..] == Repeat(g, |data| - 1);
      }
      assert FlatValues(data) == px + py;
      assert Spliced(rest, py) == filledRest by {
        assert Uniform(data[1..], columns);
        GroupsSpliced(data[1..], columns);
      }
      CommaSpliced(g, rest, px, py);
      assert Join(FilledGroups(data), ", ") == FilledGroup(data[0]) + ", " + filledRest by {
        assert FilledGroups(data)[1..] == FilledGroups(data[1..]);
      }
    }
  }

  /**
   * With uniform records over plain names, filling in the upsert's
   * placeholders puts record `i`'s values, in key order, into row group `i`.
   */
  lemma BatchAligned(data: seq<Mapping>, table: string)
    requires data != [] && Uniform(data, |data[0]|) && '?' !in table && PlainKeys(data[0])
    ensures var st := BatchStatement(data, table);
      Spliced(st.sql, st.params)
      == "INSERT INTO " + table + " (" + Join(QuotedColumns(Keys(data[0])), ", ") + ") VALUES "
         + Join(FilledGroups(data), ", ") + " ON DUPLICATE KEY UPDATE " + Join(OverwriteColumns(Keys(data[0])), ", ")
  {
    var keys, vs := Keys(data[0]), FlatValues(data);
    var columns, updates := Join(QuotedColumns(keys), ", "), Join(OverwriteColumns(keys), ", ");
    var groups := Join(Repeat(RowPlaceholders(|keys|), |data|), ", ");
    var front, tail := "INSERT INTO " + table + " (" + columns + ") VALUES ", " ON DUPLICATE KEY UPDATE ";
    assert '?' !in front && '?' !in tail && '?' !in updates by {
      ColumnListsPlain(keys);
      UpsertTextPlain(table);
    }
    assert PlaceholderCount(groups) == |vs| && Spliced(groups, vs) == Join(FilledGroups(data), ", ") by {
      GroupsCount(|data|, |keys|);
      BatchValuesLength(data, |keys|);
      GroupsSpliced(data, |keys|);
    }
    assert Spliced(updates, []) == updates by { SplicedPlain(updates, []); }
    SplicedBetween(front, groups, tail, updates, vs, []);
    assert BatchStatement(data, table) == Statement(front + groups + tail + updates, vs + []);
  }

  /** A `null` result header makes the batch fail with the `TypeError` message of reading `affectedRows`. */
  lemma InsertBatchNullResult(pool: Pool, data: seq<Mapping>, table: string)
    requires data != [] && pool.execute(BatchStatement(data, table)) == Returned(Scalar(Null), Arr([]))
    ensures InsertBatchOverwrite(Some(pool), data, table)
         == Failure("INSERT_BATCH_OVERWRITE Error: " + ReadFailure("null", "affectedRows"))
  {
  }

  /** The statement text depends on the first row only through its keys, and on the others only through their number. */
  lemma BatchTextFromFirstRow(data: seq<Mapping>, other: seq<Mapping>, table: string)
    requires data != [] && |other| == |data| && Keys(other[0]) == Keys(data[0])
    ensures BatchStatement(other, table).sql == BatchStatement(data, table).sql
  {
  }

  /**
   * A batch whose header reports 3 affected and 1 changed row reports
   * 2 inserted rows.
   */
  lemma InsertedFromCounters()
    ensures
      var header := Record([("affectedRows", Num(3)), ("changedRows", Num(1))]);
      var pool := Pool(st => Returned(header, Arr([])));
      var data := [[("id", Num(1)), ("v", Str("a"))], [("id", Num(2)), ("v", Str("b"))]];
      InsertBatchOverwrite(Some(pool), data, "t") == Success(Counts(2, 3, 1))
  {
  }

  // ---------------------------------------------------------------------
  // cleanTable and removeOldEntries

  function CleanTableStatement(table: string): Statement
  {
    Statement("DELETE FROM " + table + ";", [])
  }

  /** `cleanTable`: true unless it fails; both failures name the table. */
  function CleanTable(pool: Option<Pool>, table: string): (r: Result<bool>)
    ensures r.Success? ==> r.value
    ensures pool.None? ==> r == Failure("cleanTable failed for table: " + table + ": " + ErrorText(PoolNotCreated))
    ensures pool.Some? ==>
      var reply := pool.value.execute(CleanTableStatement(table));
      && (reply.Fault? ==> r == Failure("cleanTable failed for table: " + table + ": " + ErrorText(reply.message)))
      && (reply.Returned? ==> r == Success(true))
  {
    if pool.None? then Failure("cleanTable failed for table: " + table + ": " + ErrorText(PoolNotCreated))
    else
      match pool.value.execute(CleanTableStatement(table))
      case Fault(m) => Failure("cleanTable failed for table: " + table + ": " + ErrorText(m))
      case Returned(_, _) => Success(true)
  }

  /** The template literal's indentation. */
  function Spaces(n: nat): string
  {
    Repeat(' ', n)
  }

  /** The statement text up to the opening quote of the cutoff literal. */
  function DeleteHead(table: string, columnName: string): string
  {
    "\n" + Spaces(12) + "DELETE FROM " + table + "\n" + Spaces(12) + "WHERE " + columnName + " < "
  }

  /**
   * The statement `removeOldEntries` sends: no parameters, the cutoff spliced
   * in as a quoted timestamp literal.
   */
  function RemoveOldStatement(table: string, cutoff: DateParts, columnName: string): Statement
  {
    Statement(DeleteHead(table, columnName) + "'" + FormatDateToSqlTimestamp(cutoff) + "';\n" + Spaces(8), [])
  }

  /** `removeOldEntries`: nothing on success; every failure is wrapped with the operation's name. */
  function RemoveOldEntries(pool: Option<Pool>, table: string, cutoff: DateParts, columnName: string): (r: Result<()>)
    ensures pool.None? ==> r == Failure("Error in removeOldEntries: " + ExecuteOnUndefined)
    ensures pool.Some? ==>
      var reply := pool.value.execute(RemoveOldStatement(table, cutoff, columnName));
      && (reply.Fault? ==> r == Failure("Error in removeOldEntries: " + ErrorText(reply.message)))
      && (reply.Returned? ==> r == Success(()))
  {
    if pool.None? then Failure("Error in removeOldEntries: " + ExecuteOnUndefined)
    else
      match pool.value.execute(RemoveOldStatement(table, cutoff, columnName))
      case Fault(m) => Failure("Error in removeOldEntries: " + ErrorText(m))
      case Returned(_, _) => Success(())
  }

  lemma DeleteHeadUnquoted(table: string, columnName: string)
    requires '\'' !in table && '\'' !in columnName
    ensures '\'' !in DeleteHead(table, columnName)
  {
    assert '\'' !in Spaces(12);
    var p := "\n" + Spaces(12) + "DELETE FROM ";
    assert '\'' !in p;
    assert '\'' !in p + table + "\n";
    assert '\'' !in p + table + "\n" + Spaces(12) + "WHERE ";
  }

  /**
   * With quote-free table and column names, the first quote of the DELETE
   * statement opens the cutoff literal, the literal is the timestamp of the
   * cutoff date, and it reads back as that date.
   */
  lemma RemoveOldCutoffLiteral(table: string, cutoff: DateParts, columnName: string)
    requires ValidDate(cutoff)
    requires '\'' !in table && '\'' !in columnName
    ensures var sql := RemoveOldStatement(table, cutoff, columnName).sql;
      exists before, ts, after ::
        && sql == before + "'" + ts + "'" + after
        && '\'' !in before
        && ParseSqlTimestamp(ts) == Some(cutoff)
  {
    var before := DeleteHead(table, columnName);
    var ts := FormatDateToSqlTimestamp(cutoff);
    var after := ";\n" + Spaces(8);
    assert '\'' !in before by { DeleteHeadUnquoted(table, columnName); }
    assert ParseSqlTimestamp(ts) == Some(cutoff) by { TimestampRoundTrip(cutoff); }
    assert RemoveOldStatement(table, cutoff, columnName).sql == before + "'" + ts + "'" + after by {
      ClosingQuote(before, ts, Spaces(8));
    }
  }

  /** The closing quote of the cutoff literal, taken apart from the text after it. */
  lemma ClosingQuote(before: string, ts: string, tail: string)
    ensures before + "'" + ts + "';\n" + tail == before + "'" + ts + "'" + (";\n" + tail)
  {
    assert "';\n" == "'" + ";\n";
  }

  // ---------------------------------------------------------------------
  // INSERT_GETID

  /** `INSERT INTO <table> SET <set>`, before the parameters are spliced in. */
  function InsertSetSql(table: string, values: Mapping): string
  {
    "INSERT INTO " + table + " SET " + SetClause(values).sql
  }

  /**
   * `INSERT_GETID`: splices the SET parameters into the text and executes
   * the result with no parameters; any failure becomes the same message.
   */
  method InsertGetId(pool: Option<Pool>, table: string, values: Mapping) returns (r: Result<Js>)
    ensures pool.None? ==> r == Failure(PoolNotCreatedShort)
    ensures pool.Some? ==>
      var reply := pool.value.execute(Statement(Spliced(InsertSetSql(table, values), Values(values)), []));
      && (reply.Fault? ==> r == Failure("Error in INSERT_GETID"))
      && (reply.Returned? ==> r == Success(Arr([reply.result, reply.fields])))
  {
    if pool.None? {
      return Failure(PoolNotCreatedShort);
    }
    var assignments := SetClause(values);
    var sql := "INSERT INTO " + table + " SET " + assignments.sql;
    var params := assignments.params;
    var plainSql := SpliceParams(sql, params);
    var reply := pool.value.execute(Statement(plainSql, []));
    match reply {
      case Fault(_) =>
        r := Failure("Error in INSERT_GETID");
      case Returned(result, fields) =>
        r := Success(Arr([result, fields]));
    }
  }

  /**
   * The text `INSERT_GETID` executes assigns every column its own value:
   * strings quoted, other values as their text, in key order.
   */
  lemma InsertGetIdSpliced(table: string, values: Mapping)
    requires PlainNames(table, values)
    ensures Spliced(InsertSetSql(table, values), Values(values))
         == "INSERT INTO " + table + " SET " + Join(BoundAssignments(values), ", ")
  {
    SetClauseAligned(values);
    SplicedAfterPlain("INSERT INTO " + table + " SET ", SetClause(values).sql, Values(values));
  }
}
