/**
 * The first connector (`src/database/connector.py`). It differs from the
 * current one in four ways: the remote branch refuses incomplete
 * credentials, only the local table is ever created, the two stores use
 * different tables (the remote one keeps the interaction time in a column
 * named `valor`, aliased back on read), and reads return duplicates as
 * stored.
 */
module LegacyConnector {
  import opened Wrappers
  import opened Strings
  import opened Fields
  import opened Frames
  import opened Backend

  const LocalTable := "interacoes"
  const RemoteTable := "interacoes_totem"

  /** The remote table's column for the interaction time. */
  const Valor := "valor"

  /** Columns of the frame `ler_dados` returns, in order. */
  const Columns: seq<string> := ["id", Timestamp, SensorId, Dwell, Interaction, Kind]

  const LocalKeys: set<string> := {Timestamp, SensorId, Dwell, Interaction, Kind}
  const RemoteKeys: set<string> := {Timestamp, SensorId, Dwell, Valor, Kind}

  /** The `ORACLE_USER`, `ORACLE_PASS` and `ORACLE_DSN` settings. */
  datatype Credentials = Credentials(user: Option<string>, password: Option<string>, dsn: Option<string>)

  /** `user and password and dsn`: all three set and non-empty. */
  predicate Complete(c: Credentials) {
    c.user.Some? && c.user.value != [] && c.password.Some? && c.password.value != [] && c.dsn.Some? && c.dsn.value != []
  }

  /** `get_connection`, with the credential check the current connector no longer has. */
  function GetConnection(driver: Driver, oracleAvailable: bool, creds: Credentials, reachable: bool): (c: Connection)
    ensures c == Open <==> reachable && (driver == Sqlite || (driver == Oracle && oracleAvailable && Complete(creds)))
    ensures driver == Oracle && !oracleAvailable ==> c == Failed(MissingLibrary)
    ensures driver == Oracle && oracleAvailable && !Complete(creds) ==> c == Failed(IncompleteCredentials)
    ensures driver.Unknown? ==> c == Failed(NoConnection)
  {
    match driver
    case Sqlite => if reachable then Open else Failed(Refused)
    case Oracle =>
      if !oracleAvailable then Failed(MissingLibrary)
      else if !Complete(creds) then Failed(IncompleteCredentials)
      else if reachable then Open else Failed(Refused)
    case Unknown(_) => Failed(NoConnection)
  }

  /** The table `contar_total` counts: the local one only for the local driver. */
  function TableFor(driver: Driver): string {
    if driver == Sqlite then LocalTable else RemoteTable
  }

  /** The columns each store's rows hold (besides `id`). */
  function StoredKeys(driver: Driver): set<string> {
    if driver == Sqlite then LocalKeys else RemoteKeys
  }

  lemma ColumnsAreLowerCase()
    ensures forall i :: 0 <= i < |Columns| ==> IsLowerCase(Columns[i])
  {
    forall i | 0 <= i < |Columns| ensures IsLowerCase(Columns[i]) {
      assert Columns[i] in ["id", Timestamp, SensorId, Dwell, Interaction, Kind];
    }
  }

  /**
   * The cells `salvar_interacao` inserts, or None when one of the keys it
   * reads is missing. No optional column exists yet; the remote insert
   * writes the interaction time into `valor` and leaves `timestamp` to the
   * store's clock.
   */
  function InsertedCells(driver: Driver, dados: FieldMap, clock: string): (r: Option<Cells>)
    ensures r.Some? <==>
      && (driver == Sqlite || driver == Oracle)
      && SensorId in dados && Dwell in dados && Interaction in dados && Kind in dados
      && (driver == Sqlite ==> Timestamp in dados)
    ensures r.Some? ==> r.value.Keys == StoredKeys(driver)
    ensures r.Some? && driver == Sqlite ==>
      r.value == map k | k in LocalKeys :: dados[k]
    ensures r.Some? && driver == Oracle ==>
      && r.value[Timestamp] == Str(clock) && r.value[Valor] == dados[Interaction]
      && r.value[SensorId] == dados[SensorId] && r.value[Dwell] == dados[Dwell] && r.value[Kind] == dados[Kind]
  {
    if !(SensorId in dados && Dwell in dados && Interaction in dados && Kind in dados) then None
    else match driver
      case Sqlite =>
        if Timestamp !in dados then None
        else
          var c := map[Timestamp := dados[Timestamp], SensorId := dados[SensorId], Dwell := dados[Dwell],
                       Interaction := dados[Interaction], Kind := dados[Kind]];
          assert c == map k | k in LocalKeys :: dados[k];
          Some(c)
      case Oracle =>
        Some(map[Timestamp := Str(clock), SensorId := dados[SensorId], Dwell := dados[Dwell],
                 Valor := dados[Interaction], Kind := dados[Kind]])
      case Unknown(_) => None
  }

  /** One stored row as `ler_dados` selects it: remotely, `valor AS tempo_interacao`. */
  function Selected(driver: Driver, cells: Cells): (r: Cells)
    requires cells.Keys == StoredKeys(driver)
    ensures r.Keys == LocalKeys
  {
    if driver == Sqlite then cells
    else map[Timestamp := cells[Timestamp], SensorId := cells[SensorId], Dwell := cells[Dwell],
             Interaction := cells[Valor], Kind := cells[Kind]]
  }

  /** The interaction time survives the detour through `valor`: what is saved is what is read. */
  lemma SavedFieldsReadBack(driver: Driver, dados: FieldMap, clock: string)
    requires InsertedCells(driver, dados, clock).Some?
    ensures var back := Selected(driver, InsertedCells(driver, dados, clock).value);
      && back[SensorId] == dados[SensorId] && back[Dwell] == dados[Dwell]
      && back[Interaction] == dados[Interaction] && back[Kind] == dados[Kind]
      && back[Timestamp] == (if driver == Sqlite then dados[Timestamp] else Str(clock))
  {
  }

  predicate RowsStored(driver: Driver, rows: seq<Row>) {
    forall i :: 0 <= i < |rows| ==> rows[i].cells.Keys == StoredKeys(driver)
  }

  /** What `ler_dados(limit)` returns when the store holds `rows`: the newest rows, no de-duplication. */
  function Read(driver: Driver, rows: seq<Row>, limit: int): (df: Frame)
    requires IdsAscending(rows) && RowsStored(driver, rows)
    ensures df.columns == Columns
    ensures |df.rows| == FetchCount(driver, limit, |rows|)
    ensures IdsDescending(df.rows)
    ensures forall i :: 0 <= i < |df.rows| ==>
      var src := rows[|rows| - 1 - i];
      df.rows[i].id == src.id && df.rows[i].cells == Selected(driver, src.cells)
  {
    var window := Newest(rows, FetchCount(driver, limit, |rows|));
    NewestAreTopIds(rows, |window|);
    Frame(Columns, seq(|window|, i requires 0 <= i < |window| => Row(window[i].id, Selected(driver, window[i].cells))))
  }

  /** Saving the same event twice and reading both back yields it twice: nothing is de-duplicated. */
  lemma {:induction false} DuplicatesAreKept(driver: Driver, rows: seq<Row>, cells: Cells, id: int)
    requires driver == Sqlite || driver == Oracle
    requires IdsAscending(rows) && RowsStored(driver, rows) && forall r :: r in rows ==> r.id < id
    requires cells.Keys == StoredKeys(driver)
    ensures var df := Read(driver, rows + [Row(id, cells), Row(id + 1, cells)], 2);
      df.rows == [Row(id + 1, Selected(driver, cells)), Row(id, Selected(driver, cells))]
  {
    var all := rows + [Row(id, cells), Row(id + 1, cells)];
    assert IdsAscending(all);
    var df := Read(driver, all, 2);
    assert |df.rows| == 2;
    assert all[|all| - 1] == Row(id + 1, cells) && all[|all| - 2] == Row(id, cells);
  }

  /** `DBConnector` of the first version. */
  class DBConnector {
    const driver: Driver
    const oracleAvailable: bool
    const creds: Credentials
    const table: Table

    ghost predicate Valid()
      reads this, table
    {
      && table.Valid()
      && table.name == TableFor(driver)
      && RowsStored(driver, table.rows)
    }

    constructor(driverArg: Option<string>, dbType: Option<string>, oracleAvailable: bool, creds: Credentials, table: Table)
      requires table.Valid() && table.name == TableFor(ChooseDriver(driverArg, dbType))
      requires RowsStored(ChooseDriver(driverArg, dbType), table.rows)
      ensures Valid()
      ensures driver == ChooseDriver(driverArg, dbType)
      ensures this.oracleAvailable == oracleAvailable && this.creds == creds && this.table == table
    {
      driver := ChooseDriver(driverArg, dbType);
      this.oracleAvailable := oracleAvailable;
      this.creds := creds;
      this.table := table;
    }

    predicate Connected(reachable: bool)
      reads this
    {
      GetConnection(driver, oracleAvailable, creds, reachable) == Open
    }

    /**
     * `init_db`: only the local table is created; for any other driver it
     * does nothing and cannot fail. `ok` is false where the source raises.
     */
    method InitDb(reachable: bool) returns (ok: bool)
      requires Valid()
      modifies table
      ensures Valid()
      ensures ok == (driver != Sqlite || Connected(reachable))
      ensures table.created == (old(table.created) || (driver == Sqlite && ok))
      ensures table.rows == old(table.rows) && table.nextId == old(table.nextId)
    {
      if driver != Sqlite {
        return true;
      }
      if !Connected(reachable) {
        return false;
      }
      table.Create();
      ok := true;
    }

    /** `contar_total`: rows of `interacoes` or `interacoes_totem`, 0 on any failure. */
    method CountTotal(reachable: bool) returns (total: int)
      requires Valid()
      ensures total >= 0
      ensures total == (if Connected(reachable) && table.created then |table.rows| else 0)
    {
      if !Connected(reachable) || !table.created {
        return 0;
      }
      total := |table.rows|;
    }

    /** `salvar_interacao`: appends one row with the next id, or changes nothing. */
    method SaveInteraction(dados: FieldMap, reachable: bool, clock: string)
      requires Valid()
      modifies table
      ensures Valid()
      ensures table.created == old(table.created)
      ensures var c := InsertedCells(driver, dados, clock);
        if Connected(reachable) && table.created && c.Some? then
          table.rows == old(table.rows) + [Row(old(table.nextId), c.value)] && table.nextId == old(table.nextId) + 1
        else
          table.rows == old(table.rows) && table.nextId == old(table.nextId)
    ensures |table.rows| > |old(table.rows)| ==>
      forall r :: r in old(table.rows) ==> r.id < table.rows[|table.rows| - 1].id
    {
      if !Connected(reachable) || !table.created {
        return;
      }
      var cells := InsertedCells(driver, dados, clock);
      if cells.Some? {
        var _ := table.Insert(cells.value);
      }
    }

    /** `ler_dados`: the frame `Read` describes, or the empty frame on any failure. */
    method ReadData(limit: int, reachable: bool) returns (df: Frame)
      requires Valid()
      ensures df == (if Connected(reachable) && table.created then Read(driver, table.rows, limit) else EmptyFrame)
    {
      if !Connected(reachable) || !table.created {
        return EmptyFrame;
      }
      var window := Newest(table.rows, FetchCount(driver, limit, |table.rows|));
      var selected := seq(|window|, i requires 0 <= i < |window| => Row(window[i].id, Selected(driver, window[i].cells)));
      ColumnsAreLowerCase();
      ReadColumnsAreDeclared(driver, Columns);
      df := Frame(LowerAll(ReportedColumns(driver, Columns)), selected);
    }
  }
}
