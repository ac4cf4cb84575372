/** The relational schema of run-schema.cjs:6-110: four tables with their column types,
    defaults, NOT NULL / UNIQUE / PRIMARY KEY constraints, the foreign key from roadmaps to
    companies with ON DELETE CASCADE, and the BEFORE UPDATE trigger that stamps `updated_at`.
    The database is a value `Db` holding one table per relation, keyed by row id; `InsertInto`,
    `UpdateWhere` and `DeleteWhere` are the single-row statements on it, and the class `Database` holds
    the tables as fields that its methods replace. The clock (`NOW()`) and the generator of
    fresh ids (`uuid_generate_v4()`) are parameters. */
module Schema {
  import opened JsValues
  import Helpers

  // ===========================================================================
  // Values and column declarations

  /** A stored value. A uuid is an abstract number, a DECIMAL(p, s) value is held unscaled
      (the number times 10^s), a timestamp or date is an abstract instant or day. */
  datatype SqlValue =
    | SqlNull
    | Uuid(id: nat)
    | Text(s: string)
    | IntV(i: int)
    | Numeric(unscaled: int)
    | Timestamp(t: int)
    | Date(d: int)
    | TextArray(items: seq<string>)

  datatype SqlType = UuidType | Varchar(n: nat) | TextType | IntType | Decimal(precision: nat, scale: nat)
                   | TimestampTz | DateType | TextArrayType

  /** `DEFAULT uuid_generate_v4()`, `DEFAULT NOW()`, a constant default, or none (NULL). */
  datatype Default = NoDefault | GenerateUuid | Now | Constant(v: SqlValue)

  datatype Column = Column(name: string, ty: SqlType, notNull: bool, default: Default)

  function Col(name: string, ty: SqlType): Column { Column(name, ty, false, NoDefault) }

  /** `id UUID PRIMARY KEY DEFAULT uuid_generate_v4()`: a primary key is never NULL. */
  const IdColumn: Column := Column("id", UuidType, true, GenerateUuid)
  const CreatedAt: Column := Column("created_at", TimestampTz, false, Now)
  const UpdatedAt: Column := Column("updated_at", TimestampTz, false, Now)
  const Published: Default := Constant(Text("published"))

  /** run-schema.cjs:11-28 */
  const CompanyColumns: seq<Column> := [
    IdColumn,
    Column("name", Varchar(255), true, NoDefault),
    Col("name_en", Varchar(255)),
    Col("ticker", Varchar(50)),
    Col("region", Varchar(100)),
    Col("industry", Varchar(100)),
    Col("description", TextType),
    Col("website", Varchar(255)),
    Col("headquarters", Varchar(255)),
    Col("founded_year", IntType),
    Col("employees", IntType),
    Col("market_cap", Decimal(15, 2)),
    Col("revenue", Decimal(15, 2)),
    Column("status", Varchar(20), false, Published),
    CreatedAt,
    UpdatedAt]

  /** run-schema.cjs:31-44 */
  const RoadmapColumns: seq<Column> := [
    IdColumn,
    Col("company_id", UuidType),
    Col("node", Varchar(100)),
    Col("process_node", Varchar(50)),
    Column("status", Varchar(20), false, Published),
    Col("volume_sample", DateType),
    Col("risk_status", Varchar(50)),
    Col("estimated_yield", Varchar(50)),
    Col("remarks", TextType),
    Col("published_at", DateType),
    CreatedAt,
    UpdatedAt]

  /** run-schema.cjs:47-60 */
  const InsightColumns: seq<Column> := [
    IdColumn,
    Column("title", Varchar(255), true, NoDefault),
    Col("category", Varchar(50)),
    Col("summary", TextType),
    Col("content", TextType),
    Col("tags", TextArrayType),
    Col("cover_image", Varchar(500)),
    Column("read_count", IntType, false, Constant(IntV(0))),
    Column("status", Varchar(20), false, Published),
    Column("published_at", TimestampTz, false, Now),
    CreatedAt,
    UpdatedAt]

  /** run-schema.cjs:63-72 */
  const UserColumns: seq<Column> := [
    IdColumn,
    Column("email", Varchar(255), true, NoDefault),
    Col("name", Varchar(255)),
    Column("role", Varchar(20), false, Constant(Text("editor"))),
    Col("avatar_url", Varchar(500)),
    Col("last_login_at", TimestampTz),
    CreatedAt,
    UpdatedAt]

  datatype TableName = Companies | Roadmaps | Insights | Users

  function Columns(t: TableName): seq<Column>
  {
    match t
    case Companies => CompanyColumns
    case Roadmaps => RoadmapColumns
    case Insights => InsightColumns
    case Users => UserColumns
  }

  function ColumnNames(cols: seq<Column>): set<string>
  {
    set i | 0 <= i < |cols| :: cols[i].name
  }

  /** `cols[i]` is the column called `name`. */
  predicate NamedAt(cols: seq<Column>, name: string, i: nat)
  {
    i < |cols| && cols[i].name == name
  }

  // ===========================================================================
  // Rows and tables

  type Row = map<string, SqlValue>

  /** A column's value in a row; a column the row lacks reads as NULL. */
  function Val(row: Row, name: string): SqlValue
  {
    if name in row then row[name] else SqlNull
  }

  /** The row's primary key (0 for a row without a uuid id, which no stored row is). */
  function RowId(row: Row): nat
  {
    if Val(row, "id").Uuid? then Val(row, "id").id else 0
  }

  type Table = map<nat, Row>

  datatype Db = Db(companies: Table, roadmaps: Table, insights: Table, users: Table)

  const EmptyDb: Db := Db(map[], map[], map[], map[])

  function TableOf(db: Db, t: TableName): Table
  {
    match t
    case Companies => db.companies
    case Roadmaps => db.roadmaps
    case Insights => db.insights
    case Users => db.users
  }

  function WithTable(db: Db, t: TableName, table: Table): (r: Db)
    ensures TableOf(r, t) == table
    ensures forall u :: u != t ==> TableOf(r, u) == TableOf(db, u)
  {
    match t
    case Companies => db.(companies := table)
    case Roadmaps => db.(roadmaps := table)
    case Insights => db.(insights := table)
    case Users => db.(users := table)
  }

  // ===========================================================================
  // What a stored value must satisfy

  function Pow10(k: nat): (p: nat)
    ensures p >= 1
  {
    if k == 0 then 1 else 10 * Pow10(k - 1)
  }

  function Abs(x: int): nat
  {
    if x < 0 then -x else x
  }

  /** The value has the column's type and fits its length or range. */
  predicate Fits(ty: SqlType, v: SqlValue)
  {
    match v
    case SqlNull => true
    case Uuid(_) => ty == UuidType
    case Text(s) => ty == TextType || (ty.Varchar? && |s| <= ty.n)
    case IntV(i) => ty == IntType && -TwoTo31 <= i < TwoTo31
    case Numeric(u) => ty.Decimal? && Abs(u) < Pow10(ty.precision)
    case Timestamp(_) => ty == TimestampTz
    case Date(_) => ty == DateType
    case TextArray(_) => ty == TextArrayType
  }

  predicate ColumnOk(c: Column, v: SqlValue)
  {
    Fits(c.ty, v) && (c.notNull ==> v != SqlNull)
  }

  /** A row every column constraint of the table accepts: it has exactly the table's columns. */
  predicate RowOk(cols: seq<Column>, row: Row)
  {
    row.Keys == ColumnNames(cols) && forall i :: 0 <= i < |cols| ==> ColumnOk(cols[i], row[cols[i].name])
  }

  // ===========================================================================
  // Errors

  datatype DbError =
    | UndefinedColumn
    | InvalidType(column: string)
    | ValueTooLong(column: string)
    | OutOfRange(column: string)
    | NotNullViolation(column: string)
    | UniqueViolation(column: string)
    | ForeignKeyViolation(column: string)

  // ===========================================================================
  // Building the row a statement writes

  /** The value a column takes when an INSERT does not mention it. */
  function DefaultValue(d: Default, freshId: nat, now: int): SqlValue
  {
    match d
    case NoDefault => SqlNull
    case GenerateUuid => Uuid(freshId)
    case Now => Timestamp(now)
    case Constant(v) => v
  }

  /** The row an INSERT of `supplied` builds before any check: each column takes the supplied
      value (an explicit NULL included) or else its default. */
  function Materialise(cols: seq<Column>, supplied: Row, freshId: nat, now: int): (row: Row)
    ensures row.Keys == ColumnNames(cols)
  {
    map i | i in ColumnNames(cols) ::
      if i in supplied then supplied[i] else DefaultValue(DefaultOf(cols, i), freshId, now)
  }

  /** The default of the first column called `name`. */
  function DefaultOf(cols: seq<Column>, name: string): Default
  {
    if cols == [] then NoDefault
    else if cols[0].name == name then cols[0].default
    else DefaultOf(cols[1..], name)
  }

  predicate AllSpaces(s: string)
  {
    forall i :: 0 <= i < |s| ==> s[i] == ' '
  }

  /** Assignment to a column: the value must have the column's type; a string too long for a
      VARCHAR(n) is an error unless the excess is all spaces, which are cut off; an INT must fit
      in 32 bits and a DECIMAL(p, s) in p digits. NULL is accepted here. */
  function Coerce(c: Column, v: SqlValue): (r: Result<SqlValue, DbError>)
    ensures r.Ok? ==> Fits(c.ty, r.value) && (r.value == SqlNull <==> v == SqlNull)
    ensures r.Ok? && !v.Text? ==> r.value == v
    ensures r.Ok? && v.Text? ==> r.value.Text? && IsPrefix(r.value.s, v.s) && AllSpaces(v.s[|r.value.s|..])
    ensures Fits(c.ty, v) ==> r == Ok(v)
  {
    match v
    case SqlNull => Ok(v)
    case Text(s) =>
      if c.ty == TextType then Ok(v)
      else if !c.ty.Varchar? then Err(InvalidType(c.name))
      else if |s| <= c.ty.n then Ok(v)
      else if AllSpaces(s[c.ty.n..]) then Ok(Text(s[..c.ty.n]))
      else Err(ValueTooLong(c.name))
    case IntV(i) =>
      if c.ty != IntType then Err(InvalidType(c.name))
      else if -TwoTo31 <= i < TwoTo31 then Ok(v) else Err(OutOfRange(c.name))
    case Numeric(u) =>
      if !c.ty.Decimal? then Err(InvalidType(c.name))
      else if Abs(u) < Pow10(c.ty.precision) then Ok(v) else Err(OutOfRange(c.name))
    case _ => if Fits(c.ty, v) then Ok(v) else Err(InvalidType(c.name))
  }

  /** Coerces every column's value, in column order; the first failure is the error. */
  function CoerceRow(cols: seq<Column>, row: Row): (r: Result<Row, DbError>)
    ensures r.Ok? ==> r.value.Keys == row.Keys + ColumnNames(cols)
    ensures r.Ok? ==> forall k :: k in row && k !in ColumnNames(cols) ==> r.value[k] == row[k]
  {
    if cols == [] then Ok(row)
    else
      match Coerce(cols[0], Val(row, cols[0].name))
      case Err(e) => Err(e)
      case Ok(v) =>
        var rest := CoerceRow(cols[1..], row[cols[0].name := v]);
        assert ColumnNames(cols) == {cols[0].name} + ColumnNames(cols[1..]) by {
          assert forall i :: 0 < i < |cols| ==> cols[i] == cols[1..][i - 1];
        }
        rest
  }

  /** The first NOT NULL column holding NULL. */
  function NullViolation(cols: seq<Column>, row: Row): (r: Option<DbError>)
    ensures r.None? <==> forall i :: 0 <= i < |cols| && cols[i].notNull ==> Val(row, cols[i].name) != SqlNull
  {
    if cols == [] then None
    else if cols[0].notNull && Val(row, cols[0].name) == SqlNull then Some(NotNullViolation(cols[0].name))
    else
      var rest := NullViolation(cols[1..], row);
      assert forall i :: 0 < i < |cols| ==> cols[i] == cols[1..][i - 1];
      rest
  }

  /** Coercion and then the NOT NULL constraints. */
  function CheckedRow(cols: seq<Column>, row: Row): Result<Row, DbError>
  {
    match CoerceRow(cols, row)
    case Err(e) => Err(e)
    case Ok(r) => match NullViolation(cols, r) case Some(e) => Err(e) case None => Ok(r)
  }

  /** `update_updated_at_column`: the BEFORE UPDATE trigger sets `NEW.updated_at` to now. */
  function Stamp(newRow: Row, now: int): (r: Row)
    ensures r.Keys == newRow.Keys + {"updated_at"}
    ensures r["updated_at"] == Timestamp(now)
    ensures forall k :: k in newRow && k != "updated_at" ==> r[k] == newRow[k]
  {
    newRow["updated_at" := Timestamp(now)]
  }

  // ===========================================================================
  // Keys and references

  /** Another row of the table already has this email (UNIQUE; NULLs never clash). */
  predicate EmailTaken(users: Table, email: SqlValue, except: nat)
  {
    email != SqlNull && exists k :: k in users && k != except && Val(users[k], "email") == email
  }

  /** The roadmap's company_id is NULL or names an existing company. */
  predicate RefOk(companies: Table, roadmap: Row)
  {
    var ref := Val(roadmap, "company_id");
    ref == SqlNull || (ref.Uuid? && ref.id in companies)
  }

  /** Some roadmap refers to the company with this id. */
  predicate Referenced(db: Db, id: nat)
  {
    exists k :: k in db.roadmaps && Val(db.roadmaps[k], "company_id") == Uuid(id)
  }

  /** The key, unique and foreign-key checks of a row about to be stored under its id;
      `prevId` is the id the row had before an UPDATE (the new id for an INSERT). */
  function KeyViolation(db: Db, t: TableName, row: Row, prevId: nat, updating: bool): Option<DbError>
  {
    var id := RowId(row);
    var table := TableOf(db, t);
    if (!updating || id != prevId) && id in table then Some(UniqueViolation("id"))
    else if t == Users && EmailTaken(table, Val(row, "email"), if updating then prevId else id) then Some(UniqueViolation("email"))
    else if t == Roadmaps && !RefOk(db.companies, row) then Some(ForeignKeyViolation("company_id"))
    else if t == Companies && updating && id != prevId && Referenced(db, prevId) then Some(ForeignKeyViolation("company_id"))
    else None
  }

  // ===========================================================================
  // The statements

  /** The row an INSERT stores, once its values are coerced and checked. */
  function NewRow(t: TableName, supplied: Row, freshId: nat, now: int): Result<Row, DbError>
  {
    CheckedRow(Columns(t), Materialise(Columns(t), supplied, freshId, now))
  }

  /** `INSERT INTO t (...) VALUES (...)` of one row. */
  function InsertInto(db: Db, t: TableName, supplied: Row, freshId: nat, now: int): Result<Db, DbError>
  {
    if !(supplied.Keys <= ColumnNames(Columns(t))) then Err(UndefinedColumn)
    else
      match NewRow(t, supplied, freshId, now)
      case Err(e) => Err(e)
      case Ok(row) =>
        match KeyViolation(db, t, row, RowId(row), false)
        case Some(e) => Err(e)
        case None => Ok(WithTable(db, t, TableOf(db, t)[RowId(row) := row]))
  }

  /** The row an UPDATE writes in place of `prev`: the merged values coerced, then stamped by
      the trigger, then checked against the NOT NULL constraints. */
  function ChangedRow(t: TableName, prev: Row, changes: Row, now: int): Result<Row, DbError>
  {
    match CoerceRow(Columns(t), prev + changes)
    case Err(e) => Err(e)
    case Ok(merged) =>
      var row := Stamp(merged, now);
      match NullViolation(Columns(t), row)
      case Some(e) => Err(e)
      case None => Ok(row)
  }

  /** `UPDATE t SET ... WHERE id = ...`: the number of rows changed, 0 when there is no such row. */
  function UpdateWhere(db: Db, t: TableName, id: nat, changes: Row, now: int): Result<(Db, nat), DbError>
  {
    var table := TableOf(db, t);
    if !(changes.Keys <= ColumnNames(Columns(t))) then Err(UndefinedColumn)
    else if id !in table then Ok((db, 0))
    else
      match ChangedRow(t, table[id], changes, now)
      case Err(e) => Err(e)
      case Ok(row) =>
        match KeyViolation(db, t, row, id, true)
        case Some(e) => Err(e)
        case None => Ok((WithTable(db, t, (table - {id})[RowId(row) := row]), 1))
  }

  /** The roadmaps that do not refer to the company with this id. */
  function WithoutCompany(roadmaps: Table, id: nat): Table
  {
    map k | k in roadmaps && Val(roadmaps[k], "company_id") != Uuid(id) :: roadmaps[k]
  }

  /** `DELETE FROM t WHERE id = ...`: the number of rows deleted from `t`. Deleting a company
      deletes the roadmaps that refer to it (ON DELETE CASCADE). */
  function DeleteWhere(db: Db, t: TableName, id: nat): (Db, nat)
  {
    var table := TableOf(db, t);
    if id !in table then (db, 0)
    else if t == Companies then (db.(companies := table - {id}, roadmaps := WithoutCompany(db.roadmaps, id)), 1)
    else (WithTable(db, t, table - {id}), 1)
  }

  // ===========================================================================
  // The invariant the constraints keep

  predicate TableOk(t: TableName, table: Table)
  {
    forall k :: k in table ==> RowOk(Columns(t), table[k]) && RowId(table[k]) == k
  }

  predicate EmailsUnique(users: Table)
  {
    forall a, b :: a in users && b in users && a != b ==> Val(users[a], "email") != Val(users[b], "email")
  }

  predicate ForeignKeysOk(db: Db)
  {
    forall k :: k in db.roadmaps ==> RefOk(db.companies, db.roadmaps[k])
  }

  predicate Consistent(db: Db)
  {
    && TableOk(Companies, db.companies)
    && TableOk(Roadmaps, db.roadmaps)
    && TableOk(Insights, db.insights)
    && TableOk(Users, db.users)
    && EmailsUnique(db.users)
    && ForeignKeysOk(db)
  }

  // ===========================================================================
  // Facts about building rows

  predicate DistinctNames(cols: seq<Column>)
  {
    forall i, j :: 0 <= i < j < |cols| ==> cols[i].name != cols[j].name
  }

  /** No table declares a column twice. */
  lemma TablesHaveDistinctColumns(t: TableName)
    ensures DistinctNames(Columns(t))
  {
    match t
    case Companies => CompanyColumnsDistinct();
    case Roadmaps => RoadmapColumnsDistinct();
    case Insights => InsightColumnsDistinct();
    case Users => UserColumnsDistinct();
  }

  /** Every table starts with its id column. */
  lemma TableShape(t: TableName)
    ensures DistinctNames(Columns(t)) && |Columns(t)| > 0 && Columns(t)[0] == IdColumn
  {
    TablesHaveDistinctColumns(t);
  }

  lemma CompanyColumnsDistinct()
    ensures DistinctNames(CompanyColumns)
  {
  }

  lemma RoadmapColumnsDistinct()
    ensures DistinctNames(RoadmapColumns)
  {
  }

  lemma InsightColumnsDistinct()
    ensures DistinctNames(InsightColumns)
  {
  }

  lemma UserColumnsDistinct()
    ensures DistinctNames(UserColumns)
  {
  }

  lemma {:induction false} DefaultOfAt(cols: seq<Column>, i: nat)
    requires DistinctNames(cols) && i < |cols|
    ensures DefaultOf(cols, cols[i].name) == cols[i].default
  {
    if i > 0 {
      assert cols[0].name != cols[i].name;
      DefaultOfAt(cols[1..], i - 1);
    }
  }

  /** A column the INSERT mentions takes the supplied value, any other its default. */
  lemma MaterialiseAt(cols: seq<Column>, supplied: Row, freshId: nat, now: int, i: nat)
    requires DistinctNames(cols) && i < |cols|
    ensures var name := cols[i].name;
            Materialise(cols, supplied, freshId, now)[name] ==
              if name in supplied then supplied[name] else DefaultValue(cols[i].default, freshId, now)
  {
    DefaultOfAt(cols, i);
  }

  /** After coercion each column holds its own value coerced. */
  lemma {:induction false} CoerceRowAt(cols: seq<Column>, row: Row, i: nat)
    requires DistinctNames(cols) && i < |cols| && CoerceRow(cols, row).Ok?
    ensures Coerce(cols[i], Val(row, cols[i].name)).Ok?
    ensures CoerceRow(cols, row).value[cols[i].name] == Coerce(cols[i], Val(row, cols[i].name)).value
  {
    var v := Coerce(cols[0], Val(row, cols[0].name)).value;
    var next := row[cols[0].name := v];
    assert DistinctNames(cols[1..]) by {
      forall a, b | 0 <= a < b < |cols| - 1 ensures cols[1..][a].name != cols[1..][b].name {
        assert cols[1..][a] == cols[a + 1] && cols[1..][b] == cols[b + 1];
      }
    }
    if i == 0 {
      assert cols[0].name !in ColumnNames(cols[1..]) by {
        forall j | 0 <= j < |cols| - 1 ensures cols[1..][j].name != cols[0].name {
          assert cols[1..][j] == cols[j + 1];
        }
      }
    } else {
      assert cols[1..][i - 1] == cols[i];
      assert cols[i].name != cols[0].name;
      CoerceRowAt(cols[1..], next, i - 1);
    }
  }

  /** A row that passes the checks meets every column constraint. */
  lemma CheckedRowOk(cols: seq<Column>, row: Row)
    requires DistinctNames(cols) && row.Keys == ColumnNames(cols) && CheckedRow(cols, row).Ok?
    ensures RowOk(cols, CheckedRow(cols, row).value)
  {
    var r := CoerceRow(cols, row).value;
    forall i | 0 <= i < |cols| ensures ColumnOk(cols[i], r[cols[i].name]) {
      CoerceRowAt(cols, row, i);
    }
  }

  // ===========================================================================
  // What an INSERT stores

  /** A column the INSERT leaves out takes its default, when the default fits the column. */
  /** A value that already fits its column passes the checks unchanged. */
  lemma {:induction false} FittingValueKept(cols: seq<Column>, row: Row, i: nat)
    requires DistinctNames(cols) && i < |cols| && Fits(cols[i].ty, Val(row, cols[i].name))
    ensures CheckedRow(cols, row).Ok? ==> Val(CheckedRow(cols, row).value, cols[i].name) == Val(row, cols[i].name)
  {
    if CheckedRow(cols, row).Ok? {
      CoerceRowAt(cols, row, i);
    }
  }

  /** A column the INSERT leaves out holds its default in the stored row, when the default
      fits the column. */
  lemma DefaultStored(t: TableName, supplied: Row, freshId: nat, now: int, i: nat)
    requires i < |Columns(t)| && Columns(t)[i].name !in supplied
    requires Fits(Columns(t)[i].ty, DefaultValue(Columns(t)[i].default, freshId, now))
    ensures NewRow(t, supplied, freshId, now).Ok? ==>
              Val(NewRow(t, supplied, freshId, now).value, Columns(t)[i].name)
                == DefaultValue(Columns(t)[i].default, freshId, now)
  {
    var cols := Columns(t);
    TablesHaveDistinctColumns(t);
    MaterialiseAt(cols, supplied, freshId, now, i);
    FittingValueKept(cols, Materialise(cols, supplied, freshId, now), i);
  }

  /** A supplied value that already fits its column is stored as given; in particular an
      INSERT keeps a supplied `updated_at`, since the trigger fires only on UPDATE. */
  lemma SuppliedStored(t: TableName, supplied: Row, freshId: nat, now: int, i: nat)
    requires i < |Columns(t)| && Columns(t)[i].name in supplied
    requires Fits(Columns(t)[i].ty, supplied[Columns(t)[i].name])
    ensures NewRow(t, supplied, freshId, now).Ok? ==>
              Val(NewRow(t, supplied, freshId, now).value, Columns(t)[i].name) == supplied[Columns(t)[i].name]
  {
    var cols := Columns(t);
    TablesHaveDistinctColumns(t);
    MaterialiseAt(cols, supplied, freshId, now, i);
    FittingValueKept(cols, Materialise(cols, supplied, freshId, now), i);
  }

  /** The id a new row is stored under is the fresh uuid unless the INSERT supplies one. */
  lemma InsertedId(t: TableName, supplied: Row, freshId: nat, now: int)
    requires "id" !in supplied
    ensures NewRow(t, supplied, freshId, now).Ok? ==> RowId(NewRow(t, supplied, freshId, now).value) == freshId
  {
    TableShape(t);
    DefaultStored(t, supplied, freshId, now, 0);
  }

  /** Both timestamps default to the statement's time. */
  lemma InsertedTimestamps(t: TableName, supplied: Row, freshId: nat, now: int)
    requires "created_at" !in supplied && "updated_at" !in supplied
    ensures NewRow(t, supplied, freshId, now).Ok? ==>
              && Val(NewRow(t, supplied, freshId, now).value, "created_at") == Timestamp(now)
              && Val(NewRow(t, supplied, freshId, now).value, "updated_at") == Timestamp(now)
  {
    var n := |Columns(t)|;
    assert Columns(t)[n - 2] == CreatedAt && Columns(t)[n - 1] == UpdatedAt;
    DefaultStored(t, supplied, freshId, now, n - 2);
    DefaultStored(t, supplied, freshId, now, n - 1);
  }

  /** Where the columns with constant defaults sit. */
  lemma DefaultedColumns()
    ensures CompanyColumns[13] == Column("status", Varchar(20), false, Published)
    ensures RoadmapColumns[4] == Column("status", Varchar(20), false, Published)
    ensures InsightColumns[8] == Column("status", Varchar(20), false, Published)
    ensures InsightColumns[7] == Column("read_count", IntType, false, Constant(IntV(0)))
    ensures InsightColumns[9] == Column("published_at", TimestampTz, false, Now)
    ensures UserColumns[3] == Column("role", Varchar(20), false, Constant(Text("editor")))
  {
  }

  /** Where the status column of a published-by-default table sits. */
  function StatusColumn(t: TableName): (i: nat)
    requires t != Users
    ensures i < |Columns(t)| && Columns(t)[i] == Column("status", Varchar(20), false, Published)
  {
    DefaultedColumns();
    match t
    case Companies => 13
    case Roadmaps => 4
    case Insights => 8
  }

  /** Companies, roadmaps and insights default to status 'published'. */
  lemma InsertedStatus(t: TableName, supplied: Row, freshId: nat, now: int)
    requires t != Users && "status" !in supplied
    ensures NewRow(t, supplied, freshId, now).Ok? ==>
              Val(NewRow(t, supplied, freshId, now).value, "status") == Text("published")
  {
    DefaultStored(t, supplied, freshId, now, StatusColumn(t));
  }

  /** A user defaults to the 'editor' role. */
  lemma InsertedRole(supplied: Row, freshId: nat, now: int)
    requires "role" !in supplied
    ensures NewRow(Users, supplied, freshId, now).Ok? ==>
              Val(NewRow(Users, supplied, freshId, now).value, "role") == Text("editor")
  {
    DefaultedColumns();
    DefaultStored(Users, supplied, freshId, now, 3);
  }

  /** An insight starts with read_count 0 and is published now. */
  lemma InsertedInsightCounters(supplied: Row, freshId: nat, now: int)
    requires "read_count" !in supplied && "published_at" !in supplied
    ensures NewRow(Insights, supplied, freshId, now).Ok? ==>
              && Val(NewRow(Insights, supplied, freshId, now).value, "read_count") == IntV(0)
              && Val(NewRow(Insights, supplied, freshId, now).value, "published_at") == Timestamp(now)
  {
    DefaultedColumns();
    DefaultStored(Insights, supplied, freshId, now, 7);
    DefaultStored(Insights, supplied, freshId, now, 9);
  }

  /** Checking a row whose NOT NULL column holds NULL fails, at coercion or at the
      NOT NULL check. */
  lemma {:induction false} NullFailsCheck(cols: seq<Column>, row: Row, i: nat)
    requires DistinctNames(cols) && i < |cols| && cols[i].notNull && Val(row, cols[i].name) == SqlNull
    ensures CheckedRow(cols, row).Err?
  {
    if CoerceRow(cols, row).Ok? {
      CoerceRowAt(cols, row, i);
    }
  }

  /** A NOT NULL column without a default rejects an INSERT that leaves it out or sets it
      to NULL. */
  lemma NullRejected(db: Db, t: TableName, supplied: Row, freshId: nat, now: int, i: nat)
    requires i < |Columns(t)| && Columns(t)[i].notNull && Columns(t)[i].default == NoDefault
    requires Val(supplied, Columns(t)[i].name) == SqlNull
    ensures InsertInto(db, t, supplied, freshId, now).Err?
  {
    var cols := Columns(t);
    TablesHaveDistinctColumns(t);
    MaterialiseAt(cols, supplied, freshId, now, i);
    NullFailsCheck(cols, Materialise(cols, supplied, freshId, now), i);
  }

  /** A company needs a name, an insight a title and a user an email. */
  lemma RequiredColumns(db: Db, supplied: Row, freshId: nat, now: int)
    ensures Val(supplied, "name") == SqlNull ==> InsertInto(db, Companies, supplied, freshId, now).Err?
    ensures Val(supplied, "title") == SqlNull ==> InsertInto(db, Insights, supplied, freshId, now).Err?
    ensures Val(supplied, "email") == SqlNull ==> InsertInto(db, Users, supplied, freshId, now).Err?
  {
    if Val(supplied, "name") == SqlNull { NullRejected(db, Companies, supplied, freshId, now, 1); }
    if Val(supplied, "title") == SqlNull { NullRejected(db, Insights, supplied, freshId, now, 1); }
    if Val(supplied, "email") == SqlNull { NullRejected(db, Users, supplied, freshId, now, 1); }
  }

  // ===========================================================================
  // The statements keep the invariant

  lemma TableOkStore(t: TableName, table: Table, row: Row)
    requires TableOk(t, table) && RowOk(Columns(t), row)
    ensures TableOk(t, table[RowId(row) := row])
  {
  }

  lemma TableOkRemove(t: TableName, table: Table, id: nat)
    requires TableOk(t, table)
    ensures TableOk(t, table - {id})
  {
  }

  /** Storing a user whose email no other row has keeps emails unique. */
  lemma EmailsStore(users: Table, except: nat, row: Row)
    requires EmailsUnique(users)
    requires RowId(row) == except || RowId(row) !in users
    requires Val(row, "email") != SqlNull && !EmailTaken(users, Val(row, "email"), except)
    ensures EmailsUnique((users - {except})[RowId(row) := row])
  {
    var next := (users - {except})[RowId(row) := row];
    forall a, b | a in next && b in next && a != b
      ensures Val(next[a], "email") != Val(next[b], "email")
    {
      if a == RowId(row) {
        assert b in users && b != except;
      } else if b == RowId(row) {
        assert a in users && a != except;
      }
    }
  }

  /** A stored user's email is never NULL. */
  lemma UserEmailNotNull(row: Row)
    requires RowOk(UserColumns, row)
    ensures Val(row, "email") != SqlNull
  {
    assert UserColumns[1] == Column("email", Varchar(255), true, NoDefault);
    assert ColumnOk(UserColumns[1], row[UserColumns[1].name]);
  }

  /** References stay valid when companies are only added. */
  lemma ForeignKeysWider(db: Db, companies: Table)
    requires ForeignKeysOk(db) && db.companies.Keys <= companies.Keys
    ensures ForeignKeysOk(db.(companies := companies))
  {
  }

  /** Writing a checked row in place of the row `except` (absent for an INSERT) keeps every
      constraint, given the outcome of the key checks. */
  lemma {:induction false} StoreKeepsConsistent(db: Db, t: TableName, except: nat, row: Row)
    requires Consistent(db) && RowOk(Columns(t), row)
    requires RowId(row) == except || RowId(row) !in TableOf(db, t)
    requires t == Users ==> !EmailTaken(db.users, Val(row, "email"), except)
    requires t == Roadmaps ==> RefOk(db.companies, row)
    requires t == Companies ==> RowId(row) == except || !Referenced(db, except)
    ensures Consistent(WithTable(db, t, (TableOf(db, t) - {except})[RowId(row) := row]))
  {
    var table := TableOf(db, t);
    var stored := (table - {except})[RowId(row) := row];
    TableOkRemove(t, table, except);
    TableOkStore(t, table - {except}, row);
    if t == Users {
      UserEmailNotNull(row);
      EmailsStore(table, except, row);
    } else if t == Companies {
      if RowId(row) == except {
        ForeignKeysWider(db, stored);
      } else {
        CompanyIdFreed(db, except, stored);
      }
    }
  }

  /** The row an INSERT stores meets every column constraint. */
  lemma NewRowOk(t: TableName, supplied: Row, freshId: nat, now: int)
    requires NewRow(t, supplied, freshId, now).Ok?
    ensures RowOk(Columns(t), NewRow(t, supplied, freshId, now).value)
  {
    TablesHaveDistinctColumns(t);
    CheckedRowOk(Columns(t), Materialise(Columns(t), supplied, freshId, now));
  }

  /** A successful INSERT passed the key checks and stored the new row under its id. */
  lemma InsertStores(db: Db, t: TableName, supplied: Row, freshId: nat, now: int)
    requires InsertInto(db, t, supplied, freshId, now).Ok?
    ensures NewRow(t, supplied, freshId, now).Ok?
    ensures var row := NewRow(t, supplied, freshId, now).value;
            && KeyViolation(db, t, row, RowId(row), false).None?
            && InsertInto(db, t, supplied, freshId, now).value
               == WithTable(db, t, (TableOf(db, t) - {RowId(row)})[RowId(row) := row])
  {
    var row := NewRow(t, supplied, freshId, now).value;
    var table := TableOf(db, t);
    assert RowId(row) !in table;
    NothingToRemove(table, RowId(row));
  }

  lemma NothingToRemove(table: Table, id: nat)
    requires id !in table
    ensures table - {id} == table
  {
  }

  /** A successful INSERT keeps every constraint. */
  lemma {:induction false} InsertKeepsConsistent(db: Db, t: TableName, supplied: Row, freshId: nat, now: int)
    requires Consistent(db) && InsertInto(db, t, supplied, freshId, now).Ok?
    ensures Consistent(InsertInto(db, t, supplied, freshId, now).value)
  {
    InsertStores(db, t, supplied, freshId, now);
    NewRowOk(t, supplied, freshId, now);
    StoreKeepsConsistent(db, t, RowId(NewRow(t, supplied, freshId, now).value), NewRow(t, supplied, freshId, now).value);
  }

  /** Before the trigger runs the row has the table's columns, so the trigger adds none. */
  lemma UpdatedAtIsAColumn(t: TableName)
    ensures "updated_at" in ColumnNames(Columns(t))
    ensures forall i :: 0 <= i < |Columns(t)| && Columns(t)[i].name == "updated_at" ==> Columns(t)[i].ty == TimestampTz
  {
    var cols := Columns(t);
    assert cols[|cols| - 1] == UpdatedAt;
    TablesHaveDistinctColumns(t);
  }

  /** The row an UPDATE writes meets every column constraint. */
  lemma UpdatedRowOk(t: TableName, prev: Row, changes: Row, now: int)
    requires RowOk(Columns(t), prev) && changes.Keys <= ColumnNames(Columns(t))
    ensures ChangedRow(t, prev, changes, now).Ok? ==> RowOk(Columns(t), ChangedRow(t, prev, changes, now).value)
  {
    if ChangedRow(t, prev, changes, now).Ok? {
      TablesHaveDistinctColumns(t);
      UpdatedAtIsAColumn(t);
      ChangedRowOk(Columns(t), prev, changes, now);
    }
  }

  lemma ChangedRowOk(cols: seq<Column>, prev: Row, changes: Row, now: int)
    requires DistinctNames(cols) && prev.Keys == ColumnNames(cols) && changes.Keys <= ColumnNames(cols)
    requires "updated_at" in ColumnNames(cols)
    requires forall i :: 0 <= i < |cols| && cols[i].name == "updated_at" ==> cols[i].ty == TimestampTz
    requires CoerceRow(cols, prev + changes).Ok?
    requires NullViolation(cols, Stamp(CoerceRow(cols, prev + changes).value, now)).None?
    ensures RowOk(cols, Stamp(CoerceRow(cols, prev + changes).value, now))
  {
    var row := Stamp(CoerceRow(cols, prev + changes).value, now);
    ChangedRowKeys(cols, prev, changes, now);
    forall i | 0 <= i < |cols| ensures ColumnOk(cols[i], row[cols[i].name]) {
      ChangedColumnOk(cols, prev + changes, now, i);
    }
  }

  /** The row an UPDATE writes has exactly the table's columns. */
  lemma ChangedRowKeys(cols: seq<Column>, prev: Row, changes: Row, now: int)
    requires prev.Keys == ColumnNames(cols) && changes.Keys <= ColumnNames(cols)
    requires "updated_at" in ColumnNames(cols)
    requires CoerceRow(cols, prev + changes).Ok?
    ensures Stamp(CoerceRow(cols, prev + changes).value, now).Keys == ColumnNames(cols)
  {
    assert (prev + changes).Keys == ColumnNames(cols);
  }

  /** One column of the row an UPDATE writes: the coerced value, or the trigger's timestamp. */
  lemma ChangedColumnOk(cols: seq<Column>, merged: Row, now: int, i: nat)
    requires DistinctNames(cols) && i < |cols| && CoerceRow(cols, merged).Ok?
    requires cols[i].name == "updated_at" ==> cols[i].ty == TimestampTz
    requires NullViolation(cols, Stamp(CoerceRow(cols, merged).value, now)).None?
    ensures ColumnOk(cols[i], Stamp(CoerceRow(cols, merged).value, now)[cols[i].name])
  {
    if cols[i].name != "updated_at" {
      CoerceRowAt(cols, merged, i);
    }
  }

  /** A successful UPDATE keeps every constraint. */
  lemma {:induction false} UpdateKeepsConsistent(db: Db, t: TableName, id: nat, changes: Row, now: int)
    requires Consistent(db) && UpdateWhere(db, t, id, changes, now).Ok?
    ensures Consistent(UpdateWhere(db, t, id, changes, now).value.0)
  {
    var table := TableOf(db, t);
    if id in table {
      UpdateStores(db, t, id, changes, now);
      StoredRowOk(db, t, id);
      UpdatedRowOk(t, table[id], changes, now);
      StoreKeepsConsistent(db, t, id, ChangedRow(t, table[id], changes, now).value);
    }
  }

  /** A stored row meets its table's constraints and sits under its own id. */
  lemma StoredRowOk(db: Db, t: TableName, id: nat)
    requires Consistent(db) && id in TableOf(db, t)
    ensures RowOk(Columns(t), TableOf(db, t)[id]) && RowId(TableOf(db, t)[id]) == id
  {
    assert TableOk(t, TableOf(db, t));
  }

  /** A successful UPDATE of an existing row passed the key checks and stored the changed
      row under its id in place of the old one. */
  lemma UpdateStores(db: Db, t: TableName, id: nat, changes: Row, now: int)
    requires id in TableOf(db, t)
    ensures UpdateWhere(db, t, id, changes, now).Ok? ==>
              && ChangedRow(t, TableOf(db, t)[id], changes, now).Ok?
              && var row := ChangedRow(t, TableOf(db, t)[id], changes, now).value;
                 && KeyViolation(db, t, row, id, true).None?
                 && UpdateWhere(db, t, id, changes, now).value
                    == (WithTable(db, t, (TableOf(db, t) - {id})[RowId(row) := row]), 1)
  {
  }

  /** The row an UPDATE writes: the SET columns coerced, the others as they were, the id
      kept when the SET clause leaves it alone, and `updated_at` set by the trigger. */
  lemma {:induction false} UpdatedRowValues(cols: seq<Column>, prev: Row, changes: Row, now: int, i: nat)
    requires DistinctNames(cols) && 0 < |cols| && cols[0] == IdColumn
    requires RowOk(cols, prev) && "id" !in changes && i < |cols|
    ensures CoerceRow(cols, prev + changes).Ok? ==>
              var row := Stamp(CoerceRow(cols, prev + changes).value, now);
              var name := cols[i].name;
              && RowId(row) == RowId(prev)
              && row["updated_at"] == Timestamp(now)
              && (name in changes ==> Coerce(cols[i], changes[name]).Ok?)
              && (name != "updated_at" ==>
                    row[name] == if name in changes then Coerce(cols[i], changes[name]).value else prev[name])
  {
    if CoerceRow(cols, prev + changes).Ok? {
      assert ColumnOk(cols[0], prev[cols[0].name]);
      CoerceRowAt(cols, prev + changes, 0);
      CoerceRowAt(cols, prev + changes, i);
      assert ColumnOk(cols[i], prev[cols[i].name]);
    }
  }

  /** An UPDATE whose SET clause leaves the id alone writes the row back under the same id. */
  lemma IdKept(t: TableName, prev: Row, changes: Row, now: int)
    requires RowOk(Columns(t), prev) && "id" !in changes
    ensures ChangedRow(t, prev, changes, now).Ok? ==> RowId(ChangedRow(t, prev, changes, now).value) == RowId(prev)
  {
    TableShape(t);
    UpdatedRowValues(Columns(t), prev, changes, now, 0);
  }

  /** The database an UPDATE that leaves the id alone produces: the old one with that one row
      replaced, and every other row and table as it was. */
  lemma {:induction false} UpdateInPlace(db: Db, t: TableName, id: nat, changes: Row, now: int)
    requires id in TableOf(db, t) && "id" !in changes
    requires RowOk(Columns(t), TableOf(db, t)[id]) && RowId(TableOf(db, t)[id]) == id
    ensures UpdateWhere(db, t, id, changes, now).Ok? ==>
              && ChangedRow(t, TableOf(db, t)[id], changes, now).Ok?
              && UpdateWhere(db, t, id, changes, now).value
                 == (WithTable(db, t, TableOf(db, t)[id := ChangedRow(t, TableOf(db, t)[id], changes, now).value]), 1)
  {
    var table := TableOf(db, t);
    UpdateStores(db, t, id, changes, now);
    IdKept(t, table[id], changes, now);
    if ChangedRow(t, table[id], changes, now).Ok? {
      ReplaceRow(table, id, ChangedRow(t, table[id], changes, now).value);
    }
  }

  lemma ReplaceRow(table: Table, id: nat, row: Row)
    ensures (table - {id})[id := row] == table[id := row]
  {
  }

  /** The row that UPDATE writes: the trigger sets `updated_at` to the statement's time
      whatever the SET clause said, a column the SET clause names takes the coerced new value,
      and every other column keeps its value. */
  lemma {:induction false} UpdateRewritesRow(db: Db, t: TableName, id: nat, changes: Row, now: int, i: nat)
    requires id in TableOf(db, t) && "id" !in changes && i < |Columns(t)|
    requires RowOk(Columns(t), TableOf(db, t)[id]) && RowId(TableOf(db, t)[id]) == id
    ensures UpdateWhere(db, t, id, changes, now).Ok? ==>
              && id in TableOf(UpdateWhere(db, t, id, changes, now).value.0, t)
              && var row := TableOf(UpdateWhere(db, t, id, changes, now).value.0, t)[id];
                 var name := Columns(t)[i].name;
                 && Val(row, "updated_at") == Timestamp(now)
                 && (name in changes ==> Coerce(Columns(t)[i], changes[name]).Ok?)
                 && (name != "updated_at" ==>
                       Val(row, name) == if name in changes then Coerce(Columns(t)[i], changes[name]).value
                                         else Val(TableOf(db, t)[id], name))
  {
    TableShape(t);
    UpdateInPlace(db, t, id, changes, now);
    UpdatedRowValues(Columns(t), TableOf(db, t)[id], changes, now, i);
  }

  /** An UPDATE of a missing row changes nothing and reports 0 rows. */
  lemma UpdateMissing(db: Db, t: TableName, id: nat, changes: Row, now: int)
    requires id !in TableOf(db, t) && changes.Keys <= ColumnNames(Columns(t))
    ensures UpdateWhere(db, t, id, changes, now) == Ok((db, 0))
  {
  }

  /** Companies may lose an id that no roadmap refers to. */
  lemma CompanyIdFreed(db: Db, id: nat, companies: Table)
    requires ForeignKeysOk(db) && !Referenced(db, id) && db.companies.Keys - {id} <= companies.Keys
    ensures ForeignKeysOk(db.(companies := companies))
  {
    forall k | k in db.roadmaps ensures RefOk(companies, db.roadmaps[k]) {
      assert Val(db.roadmaps[k], "company_id") != Uuid(id);
    }
  }

  /** A DELETE keeps every constraint; deleting a company takes its roadmaps with it. */
  lemma {:induction false} DeleteKeepsConsistent(db: Db, t: TableName, id: nat)
    requires Consistent(db)
    ensures Consistent(DeleteWhere(db, t, id).0)
  {
    if id in TableOf(db, t) {
      if t == Companies {
        DeleteCompanyConsistent(db, id);
      } else {
        DeleteRowConsistent(db, t, id);
      }
    }
  }

  /** Removing one company and the roadmaps that refer to it keeps every constraint. */
  lemma DeleteCompanyConsistent(db: Db, id: nat)
    requires Consistent(db)
    ensures Consistent(db.(companies := db.companies - {id}, roadmaps := WithoutCompany(db.roadmaps, id)))
  {
    TableOkRemove(Companies, db.companies, id);
    var next := db.(companies := db.companies - {id}, roadmaps := WithoutCompany(db.roadmaps, id));
    forall k | k in next.roadmaps ensures RefOk(next.companies, next.roadmaps[k]) {
      assert Val(db.roadmaps[k], "company_id") != Uuid(id);
    }
  }

  /** Removing one row of a table other than companies keeps every constraint. */
  lemma DeleteRowConsistent(db: Db, t: TableName, id: nat)
    requires Consistent(db) && t != Companies
    ensures Consistent(WithTable(db, t, TableOf(db, t) - {id}))
  {
    TableOkRemove(t, TableOf(db, t), id);
  }

  /** Deleting a company removes exactly the roadmaps that refer to it and leaves the other
      tables alone; afterwards nothing refers to it. */
  lemma {:induction false} DeleteCompanyCascades(db: Db, id: nat)
    requires id in db.companies
    ensures var (next, count) := DeleteWhere(db, Companies, id);
            && count == 1
            && next.companies == db.companies - {id}
            && (forall k :: k in next.roadmaps <==> k in db.roadmaps && Val(db.roadmaps[k], "company_id") != Uuid(id))
            && (forall k :: k in next.roadmaps ==> next.roadmaps[k] == db.roadmaps[k])
            && next.insights == db.insights && next.users == db.users
            && !Referenced(next, id)
  {
    var next := DeleteWhere(db, Companies, id).0;
    assert next.roadmaps == WithoutCompany(db.roadmaps, id);
  }

  /** Deleting a missing row deletes nothing. */
  lemma DeleteMissing(db: Db, t: TableName, id: nat)
    requires id !in TableOf(db, t)
    ensures DeleteWhere(db, t, id) == (db, 0)
  {
  }

  // ===========================================================================
  // The database object

  class Database {
    var companies: Table
    var roadmaps: Table
    var insights: Table
    var users: Table

    function Snapshot(): Db
      reads this
    {
      Db(companies, roadmaps, insights, users)
    }

    /** The stored tables meet every constraint of the schema. */
    ghost predicate Valid()
      reads this
    {
      Consistent(Snapshot())
    }

    constructor ()
      ensures Snapshot() == EmptyDb && Valid()
    {
      companies, roadmaps, insights, users := map[], map[], map[], map[];
    }

    method Store(db: Db)
      modifies this
      ensures Snapshot() == db
    {
      companies, roadmaps, insights, users := db.companies, db.roadmaps, db.insights, db.users;
    }

    /** Runs an INSERT and returns the new row's id; on an error nothing changes. */
    method Insert(t: TableName, supplied: Row, freshId: nat, now: int) returns (r: Result<nat, DbError>)
      requires Valid()
      modifies this
      ensures Valid()
      ensures var out := InsertInto(old(Snapshot()), t, supplied, freshId, now);
              if out.Ok? then Snapshot() == out.value && r == Ok(RowId(NewRow(t, supplied, freshId, now).value))
              else Snapshot() == old(Snapshot()) && r == Err(out.error)
    {
      var out := InsertInto(Snapshot(), t, supplied, freshId, now);
      if out.Ok? {
        InsertKeepsConsistent(Snapshot(), t, supplied, freshId, now);
        var row := NewRow(t, supplied, freshId, now).value;
        Store(out.value);
        r := Ok(RowId(row));
      } else {
        r := Err(out.error);
      }
    }

    /** Runs an UPDATE of the row with this id and returns how many rows changed; on an error
        nothing changes. */
    method Update(t: TableName, id: nat, changes: Row, now: int) returns (r: Result<nat, DbError>)
      requires Valid()
      modifies this
      ensures Valid()
      ensures var out := UpdateWhere(old(Snapshot()), t, id, changes, now);
              if out.Ok? then Snapshot() == out.value.0 && r == Ok(out.value.1)
              else Snapshot() == old(Snapshot()) && r == Err(out.error)
    {
      var out := UpdateWhere(Snapshot(), t, id, changes, now);
      if out.Ok? {
        UpdateKeepsConsistent(Snapshot(), t, id, changes, now);
        Store(out.value.0);
        r := Ok(out.value.1);
      } else {
        r := Err(out.error);
      }
    }

    /** Runs a DELETE of the row with this id and returns how many rows of `t` were deleted. */
    method Delete(t: TableName, id: nat) returns (count: nat)
      requires Valid()
      modifies this
      ensures Valid()
      ensures (Snapshot(), count) == DeleteWhere(old(Snapshot()), t, id)
    {
      var out := DeleteWhere(Snapshot(), t, id);
      DeleteKeepsConsistent(Snapshot(), t, id);
      Store(out.0);
      count := out.1;
    }
  }

  /** The schema's default status for new rows is not one the dashboard knows: it gets the
      neutral colour and is shown as the raw string. */
  lemma DefaultStatusIsUnlabelled()
    ensures Published == Constant(Text("published"))
    ensures Helpers.GetStatusColor("published") == "default"
    ensures Helpers.GetStatusText("published") == "published"
  {
  }
}
