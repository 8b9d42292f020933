/** The database-facing checks of the server (backend/wrapper/user_wrapper.go):
    rebuilding a room's tile grid from its sparse records, the credential
    check of a login, and the default placement of a new character. The
    result of the database call is a parameter. */
module UserWrapper {
  import opened Wire

  /** A column value as `MapScan` hands it over. */
  datatype Value = IntValue(i: int) | StringValue(s: string) | NullValue | OtherValue

  /** One result row: column name to value. */
  type Record = map<string, Value>

  /** What `GetData` returned: a list of rows (what it always returns), a
      single row, or nil. */
  datatype Fetched = RowList(rows: seq<Record>) | SingleRow(row: Record) | NilResult

  datatype Query = QueryError(cause: string) | QueryOk(result: Fetched)

  // ---------------------------------------------------------------------
  // GetUserData

  datatype AuthError =
    | QueryFailed(cause: string)
    | UserNotFound
    | PasswordNotFound
    | InvalidPasswordFormat
    | InvalidPassword

  /** The checks of `GetUserData` on the result of the password query: it
      succeeds (`None`) only for a first row whose password is the one
      supplied, and names the first check that failed otherwise. */
  function GetUserData(q: Query, password: string): (r: Option<AuthError>)
    ensures r.None? <==>
      && q.QueryOk? && q.result.RowList? && |q.result.rows| > 0
      && "password" in q.result.rows[0] && q.result.rows[0]["password"] == StringValue(password)
    ensures q.QueryError? <==> r.Some? && r.value.QueryFailed?
    ensures q.QueryError? ==> r == Some(QueryFailed(q.cause))
    ensures r == Some(UserNotFound) <==> q.QueryOk? && !(q.result.RowList? && |q.result.rows| > 0)
    ensures r == Some(PasswordNotFound) <==>
      && q.QueryOk? && q.result.RowList? && |q.result.rows| > 0
      && ("password" !in q.result.rows[0] || q.result.rows[0]["password"] == NullValue)
    ensures r == Some(InvalidPasswordFormat) <==>
      && q.QueryOk? && q.result.RowList? && |q.result.rows| > 0 && "password" in q.result.rows[0]
      && !q.result.rows[0]["password"].StringValue? && q.result.rows[0]["password"] != NullValue
    ensures r == Some(InvalidPassword) <==>
      && q.QueryOk? && q.result.RowList? && |q.result.rows| > 0 && "password" in q.result.rows[0]
      && q.result.rows[0]["password"].StringValue? && q.result.rows[0]["password"].s != password
  {
    if q.QueryError? then Some(QueryFailed(q.cause))
    else if !q.result.RowList? || |q.result.rows| == 0 then Some(UserNotFound)
    else
      var row := q.result.rows[0];
      if "password" !in row || row["password"] == NullValue then Some(PasswordNotFound)
      else if !row["password"].StringValue? then Some(InvalidPasswordFormat)
      else if password != row["password"].s then Some(InvalidPassword)
      else None
  }

  // ---------------------------------------------------------------------
  // GetOrCreatePlayerPosition

  /** The row written to `Game.characters`. */
  datatype CharacterRow = CharacterRow(characterId: string, roomId: string, x: int, y: int, name: string)

  /** The result of `GetOrCreatePlayerPosition`, and the row it inserted,
      if any. */
  datatype Placement = Placement(x: int, y: int, roomId: string, err: Option<string>, inserted: Option<CharacterRow>)

  const DefaultRoom: string := "room1"
  const DefaultX: int := 0
  const DefaultY: int := 7

  /** `v.(int)` with the zero value when the assertion fails. */
  function IntOrZero(row: Record, key: string): int
  {
    if key in row && row[key].IntValue? then row[key].i else 0
  }

  /** `v.(string)` with the zero value when the assertion fails. */
  function StringOrEmpty(row: Record, key: string): string
  {
    if key in row && row[key].StringValue? then row[key].s else ""
  }

  /** `GetOrCreatePlayerPosition`: a lookup that produced a single row is
      read back; anything else inserts the default character, whose outcome
      `insertError` is the result of that insert. */
  function GetOrCreatePlayerPosition(q: Query, username: string, insertError: Option<string>): (p: Placement)
    ensures q.QueryOk? && q.result.SingleRow? ==>
      var row := q.result.row;
      p == Placement(IntOrZero(row, "x"), IntOrZero(row, "y"), StringOrEmpty(row, "room_id"), None, None)
    ensures !(q.QueryOk? && q.result.SingleRow?) ==>
      && p.inserted == Some(CharacterRow(username, DefaultRoom, DefaultX, DefaultY, username))
      && (insertError.None? ==> p.x == DefaultX && p.y == DefaultY && p.roomId == DefaultRoom && p.err == None)
      && (insertError.Some? ==> p.x == 0 && p.y == 0 && p.roomId == "" && p.err == insertError)
  {
    if q.QueryOk? && q.result != NilResult && q.result.SingleRow? then
      var row := q.result.row;
      Placement(IntOrZero(row, "x"), IntOrZero(row, "y"), StringOrEmpty(row, "room_id"), None, None)
    else
      var insert := CharacterRow(username, DefaultRoom, DefaultX, DefaultY, username);
      if insertError.Some? then Placement(0, 0, "", insertError, Some(insert))
      else Placement(DefaultX, DefaultY, DefaultRoom, None, Some(insert))
  }

  /** `GetData` returns a list of rows or an error, never a single row, so
      the lookup is never read back: every call inserts the default
      character. */
  lemma PlacementAlwaysInserts(q: Query, username: string, insertError: Option<string>)
    requires q.QueryError? || q.result.RowList?
    ensures var p := GetOrCreatePlayerPosition(q, username, insertError);
      && p.inserted.Some?
      && (p.err.None? ==> p.x == 0 && p.y == 7 && p.roomId == "room1")
  {
  }

  // ---------------------------------------------------------------------
  // GetRoomData

  const MaxInt32: int := 0x7fff_ffff
  const MinInt32: int := -0x8000_0000

  datatype Cell = Cell(row: int, col: int)

  /** The record's coordinates, when both are integers. */
  function Coords(rec: Record): Option<Cell>
  {
    if "row" in rec && rec["row"].IntValue? && "col" in rec && rec["col"].IntValue?
    then Some(Cell(rec["row"].i, rec["col"].i))
    else None
  }

  /** The record's tile, when it is a string. */
  function Tile(rec: Record): Option<string>
  {
    if "tile_type" in rec && rec["tile_type"].StringValue? then Some(rec["tile_type"].s) else None
  }

  datatype Box = Box(minRow: int, maxRow: int, minCol: int, maxCol: int)

  /** The bounds before any record is seen. */
  const EmptyBox: Box := Box(MaxInt32, MinInt32, MaxInt32, MinInt32)

  /** The bounds after seeing `rec`. */
  function Widen(b: Box, rec: Record): Box
  {
    match Coords(rec)
    case None => b
    case Some(c) =>
      Box(if c.row < b.minRow then c.row else b.minRow,
          if c.row > b.maxRow then c.row else b.maxRow,
          if c.col < b.minCol then c.col else b.minCol,
          if c.col > b.maxCol then c.col else b.maxCol)
  }

  /** The bounds over the first `n` records. */
  function BoxOf(records: seq<Record>, n: nat): Box
    requires n <= |records|
  {
    if n == 0 then EmptyBox else Widen(BoxOf(records, n - 1), records[n - 1])
  }

  /** Record `j` names cell `c`. */
  predicate NamesCell(records: seq<Record>, j: int, c: Cell)
  {
    0 <= j < |records| && Coords(records[j]) == Some(c)
  }

  /** Every record with coordinates lies inside the bounds, whatever the
      starting values. */
  lemma {:induction false} BoxTight(records: seq<Record>, n: nat, j: int)
    requires n <= |records| && 0 <= j < n && Coords(records[j]).Some?
    ensures var b, c := BoxOf(records, n), Coords(records[j]).value;
      b.minRow <= c.row <= b.maxRow && b.minCol <= c.col <= b.maxCol
  {
    if j < n - 1 {
      BoxTight(records, n - 1, j);
    }
  }

  /** Coordinates that fit the 32-bit `int` columns of `Game.room`. */
  predicate Fits32(records: seq<Record>)
  {
    forall j :: 0 <= j < |records| && Coords(records[j]).Some? ==>
      MinInt32 <= Coords(records[j]).value.row <= MaxInt32 && MinInt32 <= Coords(records[j]).value.col <= MaxInt32
  }

  /** With 32-bit coordinates and at least one record with coordinates, each
      bound is attained by a record. */
  lemma {:induction false} BoxAttained(records: seq<Record>, n: nat)
    requires n <= |records| && Fits32(records)
    requires exists j :: 0 <= j < n && Coords(records[j]).Some?
    ensures var b := BoxOf(records, n);
      && (exists j :: 0 <= j < n && Coords(records[j]).Some? && Coords(records[j]).value.row == b.minRow)
      && (exists j :: 0 <= j < n && Coords(records[j]).Some? && Coords(records[j]).value.row == b.maxRow)
      && (exists j :: 0 <= j < n && Coords(records[j]).Some? && Coords(records[j]).value.col == b.minCol)
      && (exists j :: 0 <= j < n && Coords(records[j]).Some? && Coords(records[j]).value.col == b.maxCol)
  {
    var b := BoxOf(records, n);
    if Coords(records[n - 1]).None? {
      assert exists j :: 0 <= j < n - 1 && Coords(records[j]).Some?;
      BoxAttained(records, n - 1);
    } else if exists j :: 0 <= j < n - 1 && Coords(records[j]).Some? {
      BoxAttained(records, n - 1);
    } else {
      assert BoxOf(records, n - 1) == EmptyBox by {
        NoCoordsEmptyBox(records, n - 1);
      }
      assert Coords(records[n - 1]).value.row == b.minRow;
    }
  }

  lemma {:induction false} NoCoordsEmptyBox(records: seq<Record>, n: nat)
    requires n <= |records|
    requires forall j :: 0 <= j < n ==> Coords(records[j]).None?
    ensures BoxOf(records, n) == EmptyBox
  {
    if n > 0 {
      NoCoordsEmptyBox(records, n - 1);
    }
  }

  /** The tile at cell `c` once the first `n` records are placed: the tile
      of the last of them that names `c` and has a tile, or grass. */
  function CellAfter(records: seq<Record>, n: nat, c: Cell): string
    requires n <= |records|
  {
    if n == 0 then "G"
    else if Coords(records[n - 1]) == Some(c) && Tile(records[n - 1]).Some? then Tile(records[n - 1]).value
    else CellAfter(records, n - 1, c)
  }

  /** A cell no record with a tile names is grass. */
  lemma {:induction false} CellDefaultsToGrass(records: seq<Record>, n: nat, c: Cell)
    requires n <= |records|
    requires forall j :: 0 <= j < n && NamesCell(records, j, c) ==> Tile(records[j]).None?
    ensures CellAfter(records, n, c) == "G"
  {
    if n > 0 {
      assert NamesCell(records, n - 1, c) ==> Tile(records[n - 1]).None?;
      CellDefaultsToGrass(records, n - 1, c);
    }
  }

  /** The last record that names a cell and has a tile decides it. */
  lemma {:induction false} LastWriteWins(records: seq<Record>, n: nat, c: Cell, j: int)
    requires n <= |records| && 0 <= j < n
    requires NamesCell(records, j, c) && Tile(records[j]).Some?
    requires forall k :: j < k < n && NamesCell(records, k, c) ==> Tile(records[k]).None?
    ensures CellAfter(records, n, c) == Tile(records[j]).value
  {
    if j < n - 1 {
      assert NamesCell(records, n - 1, c) ==> Tile(records[n - 1]).None?;
      LastWriteWins(records, n - 1, c, j);
    }
  }

  /** The placement guard `adjR >= 0 && adjR < rowsCount && ...` holds for
      every record with coordinates, since the bounds come from the same
      records. */
  lemma GuardAlwaysPasses(records: seq<Record>, j: int)
    requires 0 <= j < |records| && Coords(records[j]).Some?
    ensures var b, c := BoxOf(records, |records|), Coords(records[j]).value;
      && 0 <= c.row - b.minRow < b.maxRow - b.minRow + 1
      && 0 <= c.col - b.minCol < b.maxCol - b.minCol + 1
  {
    BoxTight(records, |records|, j);
  }

  datatype RoomError = FetchFailed(cause: string) | UnexpectedResultType

  datatype RoomResult = RoomFailed(error: RoomError) | Room(grid: seq<seq<string>>)

  /** Before a record list that is not empty can be laid out, one of its
      records must have coordinates: otherwise the dimensions come out
      negative and `make` panics. */
  predicate CanLayOut(q: Query)
  {
    q.QueryOk? && q.result.RowList? && |q.result.rows| > 0 ==>
      exists j :: 0 <= j < |q.result.rows| && Coords(q.result.rows[j]).Some?
  }

  /** `grid` is the `rows` x `cols` layout of the first `n` records, with
      cell (0, 0) at `origin`. */
  ghost predicate Laid(records: seq<Record>, n: nat, origin: Cell, rows: int, cols: int, grid: seq<seq<string>>)
    requires n <= |records|
  {
    && |grid| == rows
    && (forall r :: 0 <= r < rows ==> |grid[r]| == cols)
    && (forall r, c :: 0 <= r < rows && 0 <= c < cols ==>
          grid[r][c] == CellAfter(records, n, Cell(origin.row + r, origin.col + c)))
  }

  /** Placing record `n` keeps the layout, whether or not it lands in
      the grid. */
  lemma PlaceStep(records: seq<Record>, n: nat, origin: Cell, rows: int, cols: int,
                  grid: seq<seq<string>>, grid': seq<seq<string>>)
    requires n < |records| && Laid(records, n, origin, rows, cols, grid)
    requires var rec := records[n];
      if Coords(rec).Some? && Tile(rec).Some?
         && 0 <= Coords(rec).value.row - origin.row < rows && 0 <= Coords(rec).value.col - origin.col < cols
      then
        var r, c := Coords(rec).value.row - origin.row, Coords(rec).value.col - origin.col;
        grid' == grid[r := grid[r][c := Tile(rec).value]]
      else grid' == grid
    ensures Laid(records, n + 1, origin, rows, cols, grid')
  {
  }

  /** The grass grid before any record is placed. */
  lemma GrassLaid(records: seq<Record>, origin: Cell, rows: int, cols: int, grid: seq<seq<string>>)
    requires |grid| == rows
    requires forall r :: 0 <= r < rows ==> |grid[r]| == cols && forall c :: 0 <= c < cols ==> grid[r][c] == "G"
    ensures Laid(records, 0, origin, rows, cols, grid)
  {
  }

  /** `GetRoomData` on the result of the room query. A failed query and a
      result that is not a row list are errors; no rows give the one-cell
      grass room; otherwise the grid spans the bounds of the records with
      coordinates, and each cell holds the tile of the last record that
      names it, or grass. */
  method GetRoomData(q: Query) returns (result: RoomResult)
    requires CanLayOut(q)
    ensures q.QueryError? ==> result == RoomFailed(FetchFailed(q.cause))
    ensures q.QueryOk? && !q.result.RowList? ==> result == RoomFailed(UnexpectedResultType)
    ensures q.QueryOk? && q.result.RowList? && q.result.rows == [] ==> result == Room([["G"]])
    ensures q.QueryOk? && q.result.RowList? && q.result.rows != [] ==>
      var records := q.result.rows;
      var b := BoxOf(records, |records|);
      && result.Room?
      && Laid(records, |records|, Cell(b.minRow, b.minCol), b.maxRow - b.minRow + 1, b.maxCol - b.minCol + 1,
              result.grid)
      && b.maxRow - b.minRow + 1 >= 1 && b.maxCol - b.minCol + 1 >= 1
  {
    if q.QueryError? {
      return RoomFailed(FetchFailed(q.cause));
    }
    if !q.result.RowList? {
      return RoomFailed(UnexpectedResultType);
    }
    var records := q.result.rows;
    if |records| == 0 {
      return Room([["G"]]);
    }

    // the bounds
    var minRow, maxRow, minCol, maxCol := MaxInt32, MinInt32, MaxInt32, MinInt32;
    var i := 0;
    while i < |records|
      invariant 0 <= i <= |records|
      invariant BoxOf(records, i) == Box(minRow, maxRow, minCol, maxCol)
    {
      var c := Coords(records[i]);
      if c.Some? {
        if c.value.row < minRow { minRow := c.value.row; }
        if c.value.row > maxRow { maxRow := c.value.row; }
        if c.value.col < minCol { minCol := c.value.col; }
        if c.value.col > maxCol { maxCol := c.value.col; }
      }
      i := i + 1;
    }
    var j :| 0 <= j < |records| && Coords(records[j]).Some?;
    BoxTight(records, |records|, j);
    var rowsCount := maxRow - minRow + 1;
    var colsCount := maxCol - minCol + 1;

    // the grass grid
    var grid: seq<seq<string>> := [];
    var r := 0;
    while r < rowsCount
      invariant 0 <= r <= rowsCount && |grid| == r
      invariant forall k :: 0 <= k < r ==> |grid[k]| == colsCount && forall c :: 0 <= c < colsCount ==> grid[k][c] == "G"
    {
      var row: seq<string> := [];
      var c := 0;
      while c < colsCount
        invariant 0 <= c <= colsCount && |row| == c
        invariant forall k :: 0 <= k < c ==> row[k] == "G"
      {
        row := row + ["G"];
        c := c + 1;
      }
      grid := grid + [row];
      r := r + 1;
    }
    var origin := Cell(minRow, minCol);
    GrassLaid(records, origin, rowsCount, colsCount, grid);

    // the tiles
    i := 0;
    while i < |records|
      invariant 0 <= i <= |records|
      invariant Laid(records, i, origin, rowsCount, colsCount, grid)
    {
      var c, t := Coords(records[i]), Tile(records[i]);
      ghost var before := grid;
      if c.Some? && t.Some? {
        var adjR, adjC := c.value.row - minRow, c.value.col - minCol;
        if adjR >= 0 && adjR < rowsCount && adjC >= 0 && adjC < colsCount {
          grid := grid[adjR := grid[adjR][adjC := t.value]];
        }
      }
      PlaceStep(records, i, origin, rowsCount, colsCount, before, grid);
      i := i + 1;
    }
    return Room(grid);
  }
}
