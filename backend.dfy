/**
 * What both connectors share about the two backends: choosing the driver at
 * construction, why opening a connection can fail, and the table a connector
 * reads and writes, kept as an in-memory sequence of rows with an
 * auto-increment id.
 */
module Backend {
  import opened Wrappers
  import opened Strings
  import opened Frames

  /** The embedded local store, the remote networked store, or a name neither branch recognises. */
  datatype Driver = Sqlite | Oracle | Unknown(name: string)

  function DriverNamed(name: string): (d: Driver)
    ensures d == Sqlite <==> name == "sqlite"
    ensures d == Oracle <==> name == "oracle"
  {
    if name == "sqlite" then Sqlite
    else if name == "oracle" then Oracle
    else Unknown(name)
  }

  /**
   * `DBConnector.__init__`: a non-empty `driver` argument is used as given;
   * otherwise the `DB_TYPE` setting, "sqlite" when unset, lower-cased.
   */
  function ChooseDriver(driverArg: Option<string>, dbType: Option<string>): (d: Driver)
    ensures driverArg.Some? && driverArg.value != [] ==> d == DriverNamed(driverArg.value)
    ensures (driverArg.None? || driverArg.value == []) && dbType.None? ==> d == Sqlite
    ensures (driverArg.None? || driverArg.value == []) && dbType.Some? ==> d == DriverNamed(Lower(dbType.value))
  {
    if driverArg.Some? && driverArg.value != [] then DriverNamed(driverArg.value)
    else DriverNamed(Lower(dbType.GetOr("sqlite")))
  }

  /**
   * Only the setting is lower-cased: "SQLite" in `DB_TYPE` selects the local
   * store, while the same text passed as the argument names no driver at all.
   */
  lemma DriverCase()
    ensures ChooseDriver(None, Some("SQLite")) == Sqlite
    ensures ChooseDriver(Some("SQLite"), None) == Unknown("SQLite")
  {
    assert Lower("SQLite") == "sqlite";
    assert "SQLite" != "sqlite";
  }

  /** Why `get_connection` gave no usable connection. */
  datatype ConnError =
    | MissingLibrary          // the remote driver's client library is not installed
    | IncompleteCredentials   // user, password or DSN empty or unset
    | Refused                 // the store could not be opened or reached
    | NoConnection            // unknown driver: `get_connection` returns None

  datatype Connection = Open | Failed(reason: ConnError)

  /** Column names as the store reports them: the remote store upper-cases unquoted names. */
  function ReportedColumns(driver: Driver, columns: seq<string>): seq<string> {
    if driver == Oracle then seq(|columns|, i requires 0 <= i < |columns| => Upper(columns[i]))
    else columns
  }

  /** `df.columns.str.lower()`. */
  function LowerAll(names: seq<string>): (r: seq<string>)
    ensures |r| == |names| && forall i :: 0 <= i < |r| ==> r[i] == Lower(names[i])
  {
    seq(|names|, i requires 0 <= i < |names| => Lower(names[i]))
  }

  /** Whatever case the store reports, a read's columns are the declared lower-case names. */
  lemma ReadColumnsAreDeclared(driver: Driver, columns: seq<string>)
    requires forall i :: 0 <= i < |columns| ==> IsLowerCase(columns[i])
    ensures LowerAll(ReportedColumns(driver, columns)) == columns
  {
    forall i | 0 <= i < |columns| ensures Lower(ReportedColumns(driver, columns)[i]) == columns[i] {
      if driver == Oracle {
        LowerUpper(columns[i]);
      } else {
        LowerIsLowerCase(columns[i]);
      }
    }
  }

  /**
   * How many rows `ORDER BY id DESC` returns out of `n`: SQLite reads a
   * negative LIMIT as no limit, while `FETCH FIRST k ROWS ONLY` returns
   * nothing for k <= 0.
   */
  function FetchCount(driver: Driver, limit: int, n: nat): (k: nat)
    ensures k <= n
    ensures limit >= 0 ==> k <= limit
    ensures 0 <= limit <= n ==> k == limit
    ensures limit > n ==> k == n
    ensures limit < 0 ==> k == (if driver == Sqlite then n else 0)
  {
    if driver == Sqlite && limit < 0 then n
    else if limit <= 0 then 0
    else if limit < n then limit
    else n
  }

  /**
   * One backend table. Rows are kept in insertion order; `nextId` is the id
   * the next insert receives (INTEGER PRIMARY KEY AUTOINCREMENT, or an
   * identity column), so ids only grow.
   */
  class Table {
    const name: string
    var created: bool
    var rows: seq<Row>
    var nextId: int

    ghost predicate Valid()
      reads this
    {
      && nextId >= 1
      && IdsAscending(rows)
      && (forall i :: 0 <= i < |rows| ==> 1 <= rows[i].id < nextId)
      && (!created ==> rows == [])
    }

    /** A table not yet created. */
    constructor Absent(name: string)
      ensures Valid() && this.name == name && !created && rows == [] && nextId == 1
    {
      this.name := name;
      created := false;
      rows := [];
      nextId := 1;
    }

    /** A table created outside the connector, still empty. */
    constructor Created(name: string)
      ensures Valid() && this.name == name && created && rows == [] && nextId == 1
    {
      this.name := name;
      created := true;
      rows := [];
      nextId := 1;
    }

    /** `CREATE TABLE` (a no-op on a table that already exists). */
    method Create()
      requires Valid()
      modifies this
      ensures Valid() && created && rows == old(rows) && nextId == old(nextId)
    {
      created := true;
    }

    /** One INSERT: the new row gets the next id, larger than every id already stored. */
    method Insert(cells: Cells) returns (id: int)
      requires Valid() && created
      modifies this
      ensures Valid() && created
      ensures id == old(nextId) && nextId == id + 1
      ensures rows == old(rows) + [Row(id, cells)]
      ensures forall r :: r in old(rows) ==> r.id < id
    {
      id := nextId;
      rows := rows + [Row(id, cells)];
      nextId := nextId + 1;
    }
  }
}
