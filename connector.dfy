/**
 * The current connector (`ai-totem/src/database/connector.py`): one table,
 * FLEXMEDIA_LIVE_V3, on the local or the remote store; inserts fill the
 * optional columns with defaults, and reads return the newest rows, newest
 * first, with exact duplicates (ignoring `id`) removed.
 *
 * Every failure is swallowed as in the source: counting yields 0, saving
 * leaves the table as it was, reading yields the empty frame. Whether the
 * store can be reached at all is the `reachable` parameter.
 */
module Connector {
  import opened Wrappers
  import opened Strings
  import opened Fields
  import opened Frames
  import opened Backend
  import Schemas

  const TableName := "FLEXMEDIA_LIVE_V3"

  /** The table's columns after `id`, in declaration order. */
  const DataColumns: seq<string> := [Timestamp, SensorId, Dwell, Interaction, Action, Latency, Status, Kind]
  const DataKeys: set<string> := {Timestamp, SensorId, Dwell, Interaction, Action, Latency, Status, Kind}
  const Columns: seq<string> := ["id"] + DataColumns

  /** `get_connection`: the remote store needs its client library; an unknown driver yields no connection. */
  function GetConnection(driver: Driver, oracleAvailable: bool, reachable: bool): (c: Connection)
    ensures c == Open <==> reachable && (driver == Sqlite || (driver == Oracle && oracleAvailable))
    ensures driver == Oracle && !oracleAvailable ==> c == Failed(MissingLibrary)
    ensures driver.Unknown? ==> c == Failed(NoConnection)
  {
    match driver
    case Sqlite => if reachable then Open else Failed(Refused)
    case Oracle =>
      if !oracleAvailable then Failed(MissingLibrary)
      else if reachable then Open else Failed(Refused)
    case Unknown(_) => Failed(NoConnection)
  }

  lemma ColumnsAreLowerCase()
    ensures forall i :: 0 <= i < |Columns| ==> IsLowerCase(Columns[i])
  {
    forall i | 0 <= i < |Columns| ensures IsLowerCase(Columns[i]) {
      assert Columns[i] in ["id", Timestamp, SensorId, Dwell, Interaction, Action, Latency, Status, Kind];
    }
  }

  /**
   * The cells `salvar_interacao` inserts for `dados`, or None when a key it
   * reads with `dados[...]` is missing (the KeyError is swallowed). The
   * remote insert leaves `timestamp` to the column default, the store's
   * clock at insert time, which is `clock` here.
   */
  function InsertedCells(driver: Driver, dados: FieldMap, clock: string): (r: Option<Cells>)
    ensures r.Some? <==>
      && (driver == Sqlite || driver == Oracle)
      && SensorId in dados && Dwell in dados && Interaction in dados && Kind in dados
      && (driver == Sqlite ==> Timestamp in dados)
    ensures r.Some? ==> r.value.Keys == DataKeys
    ensures r.Some? ==>
      && r.value[SensorId] == dados[SensorId] && r.value[Dwell] == dados[Dwell]
      && r.value[Interaction] == dados[Interaction] && r.value[Kind] == dados[Kind]
      && r.value[Timestamp] == (if driver == Sqlite then dados[Timestamp] else Str(clock))
    ensures r.Some? ==>
      && r.value[Action] == (if Action in dados then dados[Action] else Str(Schemas.DefaultAction))
      && r.value[Latency] == (if Latency in dados then dados[Latency] else Num(Schemas.DefaultLatency as real))
      && r.value[Status] == (if Status in dados then dados[Status] else Str(Schemas.DefaultStatus))
  {
    var acao := GetOr(dados, Action, Str(Schemas.DefaultAction));
    var latencia := GetOr(dados, Latency, Num(Schemas.DefaultLatency as real));
    var status := GetOr(dados, Status, Str(Schemas.DefaultStatus));
    if !(SensorId in dados && Dwell in dados && Interaction in dados && Kind in dados) then None
    else match driver
      case Sqlite =>
        if Timestamp !in dados then None
        else Some(map[Timestamp := dados[Timestamp], SensorId := dados[SensorId], Dwell := dados[Dwell],
                      Interaction := dados[Interaction], Action := acao, Latency := latencia,
                      Status := status, Kind := dados[Kind]])
      case Oracle =>
        Some(map[Timestamp := Str(clock), SensorId := dados[SensorId], Dwell := dados[Dwell],
                 Interaction := dados[Interaction], Action := acao, Latency := latencia,
                 Status := status, Kind := dados[Kind]])
      case Unknown(_) => None
  }

  /**
   * A validated event, dumped, is stored column for column: locally exactly
   * as dumped, remotely with the store's own timestamp.
   */
  lemma DumpIsStoredAsIs(rec: Schemas.Record, clock: string)
    ensures InsertedCells(Sqlite, Schemas.Dump(rec), clock) == Some(Schemas.Dump(rec))
    ensures InsertedCells(Oracle, Schemas.Dump(rec), clock) == Some(Schemas.Dump(rec)[Timestamp := Str(clock)])
  {
    var d := Schemas.Dump(rec);
    var c := InsertedCells(Sqlite, d, clock).value;
    assert c.Keys == d.Keys;
    assert c == d;
    var o := InsertedCells(Oracle, d, clock).value;
    assert o.Keys == d[Timestamp := Str(clock)].Keys;
    assert o == d[Timestamp := Str(clock)];
  }

  /** What `ler_dados(limit)` returns when the store holds `rows`. */
  function Read(driver: Driver, rows: seq<Row>, limit: int): (df: Frame)
    requires IdsAscending(rows)
    ensures df.columns == Columns
    ensures |df.rows| <= |rows| && (limit >= 0 ==> |df.rows| <= limit)
    ensures IdsDescending(df.rows) && DistinctCells(df.rows)
    ensures forall r :: r in df.rows ==> r in rows
    ensures CellsOf(df.rows) == CellsOf(Newest(rows, FetchCount(driver, limit, |rows|)))
  {
    var window := Newest(rows, FetchCount(driver, limit, |rows|));
    NewestAreTopIds(rows, |window|);
    DropDuplicatesIsSubsequence(window);
    SubsequenceMembers(DropDuplicates(window), window);
    SubsequenceDescending(DropDuplicates(window), window);
    Frame(Columns, DropDuplicates(window))
  }

  /** What `ler_dados(limit)` returns: `Read`, or the empty frame when there is no connection or no table. */
  function Fetched(driver: Driver, oracleAvailable: bool, reachable: bool, created: bool, rows: seq<Row>, limit: int): (df: Frame)
    requires IdsAscending(rows)
    ensures df == EmptyFrame <==> !(GetConnection(driver, oracleAvailable, reachable) == Open && created)
    ensures limit >= 0 ==> |df.rows| <= limit
  {
    if GetConnection(driver, oracleAvailable, reachable) == Open && created then Read(driver, rows, limit)
    else EmptyFrame
  }

  /** Reading one row right after an insert returns exactly the inserted row. */
  lemma {:induction false} ReadAfterInsert(driver: Driver, rows: seq<Row>, id: int, cells: Cells)
    requires driver == Sqlite || driver == Oracle
    requires IdsAscending(rows) && forall r :: r in rows ==> r.id < id
    ensures Read(driver, rows + [Row(id, cells)], 1).rows == [Row(id, cells)]
  {
    var all := rows + [Row(id, cells)];
    assert Newest(all, 1) == [Row(id, cells)];
    assert DropDuplicates([Row(id, cells)]) == [Row(id, cells)] by {
      DropDuplicatesOfDistinct([Row(id, cells)]);
    }
  }

  /** `DBConnector`: a driver fixed at construction, talking to the FLEXMEDIA_LIVE_V3 table of its store. */
  class DBConnector {
    const driver: Driver
    const oracleAvailable: bool
    const table: Table

    ghost predicate Valid()
      reads this, table
    {
      && table.Valid()
      && table.name == TableName
      && (forall i :: 0 <= i < |table.rows| ==> table.rows[i].cells.Keys == DataKeys)
    }

    constructor(driverArg: Option<string>, dbType: Option<string>, oracleAvailable: bool, table: Table)
      requires table.Valid() && table.name == TableName
      requires forall i :: 0 <= i < |table.rows| ==> table.rows[i].cells.Keys == DataKeys
      ensures Valid()
      ensures driver == ChooseDriver(driverArg, dbType)
      ensures this.oracleAvailable == oracleAvailable && this.table == table
    {
      driver := ChooseDriver(driverArg, dbType);
      this.oracleAvailable := oracleAvailable;
      this.table := table;
    }

    predicate Connected(reachable: bool)
      reads this
    {
      GetConnection(driver, oracleAvailable, reachable) == Open
    }

    /**
     * `init_db`: creates the table if it is missing; `ok` is false where the
     * source raises (no connection). A second call changes nothing.
     */
    method InitDb(reachable: bool) returns (ok: bool)
      requires Valid()
      modifies table
      ensures Valid()
      ensures ok == Connected(reachable)
      ensures table.created == (old(table.created) || ok)
      ensures table.rows == old(table.rows) && table.nextId == old(table.nextId)
    {
      if !Connected(reachable) {
        return false;
      }
      if driver == Sqlite {
        // CREATE TABLE IF NOT EXISTS
        table.Create();
      } else if !table.created {
        // the remote CREATE fails on an existing table and the error is ignored
        table.Create();
      }
      ok := true;
    }

    /** `contar_total`: the number of stored rows, 0 on any failure. */
    method CountTotal(reachable: bool) returns (total: int)
      requires Valid()
      ensures total >= 0
      ensures total == (if Connected(reachable) && table.created then |table.rows| else 0)
    {
      if !Connected(reachable) || !table.created {
        return 0;
      }
      total := |table.rows|;
    }

    /**
     * `salvar_interacao`: appends one row with the next id, or leaves the
     * table untouched when the connection, the table or a required key is
     * missing.
     */
    method SaveInteraction(dados: FieldMap, reachable: bool, clock: string)
      requires Valid()
      modifies table
      ensures Valid()
      ensures table.created == old(table.created)
      ensures var c := InsertedCells(driver, dados, clock);
        if Connected(reachable) && table.created && c.Some? then
          table.rows == old(table.rows) + [Row(old(table.nextId), c.value)] && table.nextId == old(table.nextId) + 1
        else
          table.rows == old(table.rows) && table.nextId == old(table.nextId)
    ensures |table.rows| > |old(table.rows)| ==>
      forall r :: r in old(table.rows) ==> r.id < table.rows[|table.rows| - 1].id
    {
      if !Connected(reachable) || !table.created {
        return;
      }
      var cells := InsertedCells(driver, dados, clock);
      if cells.Some? {
        var _ := table.Insert(cells.value);
      }
    }

    /** `ler_dados`: the frame `Read` describes, or the empty frame on any failure. */
    method ReadData(limit: int, reachable: bool) returns (df: Frame)
      requires Valid()
      ensures df == Fetched(driver, oracleAvailable, reachable, table.created, table.rows, limit)
    {
      if !Connected(reachable) || !table.created {
        return EmptyFrame;
      }
      var fetched := Newest(table.rows, FetchCount(driver, limit, |table.rows|));
      ColumnsAreLowerCase();
      ReadColumnsAreDeclared(driver, Columns);
      df := Frame(LowerAll(ReportedColumns(driver, Columns)), fetched);
      if df.rows != [] {
        df := Frame(df.columns, DropDuplicates(df.rows));
      }
    }
  }

  /**
   * The first start-up on a store without the table: `init_db` creates it,
   * and after one `salvar_interacao` the store counts exactly that row, or
   * none when the connection or a required key is missing.
   */
  method FirstStartUp(driverArg: Option<string>, dbType: Option<string>, oracleAvailable: bool,
                      reachable: bool, dados: FieldMap, clock: string)
    returns (ok: bool, total: int)
    ensures ok == (GetConnection(ChooseDriver(driverArg, dbType), oracleAvailable, reachable) == Open)
    ensures total == (if ok && InsertedCells(ChooseDriver(driverArg, dbType), dados, clock).Some? then 1 else 0)
  {
    var table := new Table.Absent(TableName);
    var db := new DBConnector(driverArg, dbType, oracleAvailable, table);
    ok := db.InitDb(reachable);
    db.SaveInteraction(dados, reachable, clock);
    total := db.CountTotal(reachable);
  }
}
