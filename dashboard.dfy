/** The browser side of the tile world (frontend/src/components/dashboard.jsx):
    loading the room grid, moving the local player, tracking the other players
    and the one adjacent peer, and gating the chat window. */
module Dashboard {
  import opened Wire

  /** Houses are drawn as HOUSE_SIZE x HOUSE_SIZE blocks from their anchor. */
  const HouseSize: int := 5

  /** A room grid as the server sends it: rows of tile codes. */
  type Grid = seq<seq<string>>

  datatype Pos = Pos(row: int, col: int)

  // ---------------------------------------------------------------------
  // Tiles and houses

  /** `WALKABLE_TILES.has(t)`; `None` is JavaScript's `undefined`, read past
      the end of a short row. */
  predicate IsWalkable(tile: Option<string>)
  {
    tile == Some("G") || tile == Some("R")
  }

  /** `map[r][c]` for a row that exists: a column past the end of the row
      reads `undefined`. */
  function TileAt(grid: Grid, r: int, c: int): Option<string>
    requires 0 <= r < |grid| && 0 <= c
  {
    if c < |grid[r]| then Some(grid[r][c]) else None
  }

  /** The footprint of the house anchored at `h` contains `p`. */
  predicate Covers(h: Pos, p: Pos)
  {
    h.row <= p.row < h.row + HouseSize && h.col <= p.col < h.col + HouseSize
  }

  /** `housePositions.some(...)`, scanning from the first house. */
  function InHouse(houses: seq<Pos>, p: Pos): (b: bool)
    ensures b <==> exists i :: 0 <= i < |houses| && Covers(houses[i], p)
  {
    if houses == [] then false
    else Covers(houses[0], p) || InHouse(houses[1..], p)
  }

  /** A cell the player may stand on: inside the `rows` x `cols` box, on a
      walkable tile and outside every house footprint. */
  predicate Occupiable(grid: Grid, rows: int, cols: int, houses: seq<Pos>, p: Pos)
    requires rows <= |grid|
  {
    && 0 <= p.row < rows && 0 <= p.col < cols
    && IsWalkable(TileAt(grid, p.row, p.col))
    && forall i :: 0 <= i < |houses| ==> !Covers(houses[i], p)
  }

  // ---------------------------------------------------------------------
  // movePlayer's decision

  /** Why a move was refused, or where it goes. */
  datatype Verdict = Accepted(to: Pos) | OutOfBounds | NotWalkable | InsideHouse

  /** The checks of `movePlayer`, in its order: the four bounds tests, then
      the tile (read only once the bounds hold), then the houses. */
  function CheckMove(grid: Grid, rows: int, cols: int, houses: seq<Pos>, from: Pos, dr: int, dc: int): (v: Verdict)
    requires rows <= |grid|
    ensures var target := Pos(from.row + dr, from.col + dc);
      && (v.Accepted? <==> Occupiable(grid, rows, cols, houses, target))
      && (v.Accepted? ==> v.to == target)
      && (v == OutOfBounds <==> !(0 <= target.row < rows && 0 <= target.col < cols))
      && (v == NotWalkable ==> !IsWalkable(TileAt(grid, target.row, target.col)))
      && (v == InsideHouse ==> exists i :: 0 <= i < |houses| && Covers(houses[i], target))
  {
    var newR, newC := from.row + dr, from.col + dc;
    if newR < 0 || newR >= rows || newC < 0 || newC >= cols then OutOfBounds
    else if !IsWalkable(TileAt(grid, newR, newC)) then NotWalkable
    else if InHouse(houses, Pos(newR, newC)) then InsideHouse
    else Accepted(Pos(newR, newC))
  }

  // ---------------------------------------------------------------------
  // Keys

  datatype Command = Move(dr: int, dc: int) | OpenChatKey | EscapeKey | NoCommand

  /** The `switch (e.key)` of the keydown handler. */
  function KeyCommand(key: string): (cmd: Command)
    ensures key in {"ArrowUp", "w", "W"} ==> cmd == Move(-1, 0)
    ensures key in {"ArrowDown", "s", "S"} ==> cmd == Move(1, 0)
    ensures key in {"ArrowLeft", "a", "A"} ==> cmd == Move(0, -1)
    ensures key in {"ArrowRight", "d", "D"} ==> cmd == Move(0, 1)
    ensures cmd.Move? <==> key in {"ArrowUp", "w", "W", "ArrowDown", "s", "S",
                                   "ArrowLeft", "a", "A", "ArrowRight", "d", "D"}
    ensures cmd == OpenChatKey <==> key == "c" || key == "C"
    ensures cmd == EscapeKey <==> key == "Escape"
  {
    if key == "ArrowUp" || key == "w" || key == "W" then Move(-1, 0)
    else if key == "ArrowDown" || key == "s" || key == "S" then Move(1, 0)
    else if key == "ArrowLeft" || key == "a" || key == "A" then Move(0, -1)
    else if key == "ArrowRight" || key == "d" || key == "D" then Move(0, 1)
    else if key == "c" || key == "C" then OpenChatKey
    else if key == "Escape" then EscapeKey
    else NoCommand
  }

  /** JavaScript truthiness of `adjacentTo`: neither `null` nor "". */
  predicate Truthy(a: Option<string>)
  {
    a.Some? && a.value != ""
  }

  // ---------------------------------------------------------------------
  // Map normalisation

  /** What the loader leaves in a cell it visits: house and player markers
      become grass. */
  function Cleared(t: string): string
  {
    if t == "H" || t == "P" then "G" else t
  }

  /** `cur` is `orig` with the cells before column `k` (and before `cols`,
      the width taken from the first row) cleared, and the rest untouched. */
  ghost predicate ClearedUpTo(orig: seq<string>, cols: int, cur: seq<string>, k: int)
  {
    && |cur| == |orig|
    && forall c :: 0 <= c < |orig| ==> cur[c] == if c < k && c < cols then Cleared(orig[c]) else orig[c]
  }

  /** `m` is the grid the loader builds from `data`. */
  ghost predicate Normalized(data: Grid, cols: int, m: Grid)
  {
    && |m| == |data|
    && forall r :: 0 <= r < |data| ==> ClearedUpTo(data[r], cols, m[r], cols)
  }

  /** The house anchors among the first `k` cells of row `r`, left to
      right. */
  function RowAnchors(row: seq<string>, r: int, k: nat): seq<Pos>
  {
    if k == 0 then []
    else RowAnchors(row, r, k - 1) + (if k - 1 < |row| && row[k - 1] == "H" then [Pos(r, k - 1)] else [])
  }

  /** The house anchors of the first `n` rows, in row-major order. */
  function Anchors(data: Grid, cols: nat, n: nat): seq<Pos>
    requires n <= |data|
  {
    if n == 0 then [] else Anchors(data, cols, n - 1) + RowAnchors(data[n - 1], n - 1, cols)
  }

  /** The later of two findings. */
  function Later(earlier: Option<Pos>, later: Option<Pos>): Option<Pos>
  {
    if later.Some? then later else earlier
  }

  /** The last player marker among the first `k` cells of row `r`. */
  function RowSpawn(row: seq<string>, r: int, k: nat): Option<Pos>
  {
    if k == 0 then None
    else Later(RowSpawn(row, r, k - 1), if k - 1 < |row| && row[k - 1] == "P" then Some(Pos(r, k - 1)) else None)
  }

  /** The last player marker of the first `n` rows in row-major order. */
  function Spawn(data: Grid, cols: nat, n: nat): Option<Pos>
    requires n <= |data|
  {
    if n == 0 then None else Later(Spawn(data, cols, n - 1), RowSpawn(data[n - 1], n - 1, cols))
  }

  /** A marker cell the loader visits: in the first `n` rows, before column
      `cols`, and present in its row. */
  predicate MarkerAt(data: Grid, cols: int, n: int, p: Pos, marker: string)
    requires n <= |data|
  {
    0 <= p.row < n && 0 <= p.col < cols && p.col < |data[p.row]| && data[p.row][p.col] == marker
  }

  /** Row-major order of cells. */
  predicate Before(p: Pos, q: Pos)
  {
    p.row < q.row || (p.row == q.row && p.col < q.col)
  }

  /** The loader has been over the first `r` rows of `data`, leaving `m`. */
  ghost predicate RowsCleared(data: Grid, cols: int, m: Grid, r: int)
  {
    && 0 <= r <= |data| && |m| == |data|
    && (forall i :: 0 <= i < r ==> ClearedUpTo(data[i], cols, m[i], cols))
    && (forall i :: r <= i < |data| ==> m[i] == data[i])
  }

  lemma RowsClearedStep(data: Grid, cols: int, m: Grid, r: int, cur: seq<string>)
    requires RowsCleared(data, cols, m, r) && r < |data|
    requires ClearedUpTo(data[r], cols, cur, cols)
    ensures RowsCleared(data, cols, m[r := cur], r + 1)
  {
  }

  /** Visiting column `c` of a row: the cell still holds its original tile,
      and clearing it extends the cleared prefix by one. */
  lemma ClearedStep(orig: seq<string>, cols: int, cur: seq<string>, c: int)
    requires 0 <= c < cols && ClearedUpTo(orig, cols, cur, c)
    ensures c < |cur| ==> cur[c] == orig[c]
    ensures ClearedUpTo(orig, cols, if c < |cur| then cur[c := Cleared(cur[c])] else cur, c + 1)
  {
  }

  /** Visiting column `c` adds that cell's house anchor and player marker,
      if it holds one, to the findings. */
  lemma RowFindingsStep(row: seq<string>, r: int, c: nat)
    ensures RowAnchors(row, r, c + 1) == RowAnchors(row, r, c) + (if c < |row| && row[c] == "H" then [Pos(r, c)] else [])
    ensures RowSpawn(row, r, c + 1) == if c < |row| && row[c] == "P" then Some(Pos(r, c)) else RowSpawn(row, r, c)
  {
  }

  /** The inner loop of the loader, over one row. */
  method NormalizeRow(row: seq<string>, r: int, cols: nat) returns (cur: seq<string>, anchors: seq<Pos>, spawn: Option<Pos>)
    ensures ClearedUpTo(row, cols, cur, cols)
    ensures anchors == RowAnchors(row, r, cols)
    ensures spawn == RowSpawn(row, r, cols)
  {
    cur, anchors, spawn := row, [], None;
    var c := 0;
    while c < cols
      invariant 0 <= c <= cols
      invariant ClearedUpTo(row, cols, cur, c)
      invariant anchors == RowAnchors(row, r, c)
      invariant spawn == RowSpawn(row, r, c)
    {
      ClearedStep(row, cols, cur, c);
      RowFindingsStep(row, r, c);
      if c < |cur| && cur[c] == "H" {
        anchors := anchors + [Pos(r, c)];
        cur := cur[c := "G"];
      }
      if c < |cur| && cur[c] == "P" {
        spawn := Some(Pos(r, c));
        cur := cur[c := "G"];
      }
      c := c + 1;
    }
  }

  /** The loader's loops over a non-empty grid: the new map, the house
      anchors in the order they were pushed, and the last player marker
      (the last `setPlayerPos` of the loop), if any. */
  method NormalizeMap(data: Grid) returns (newMap: Grid, houses: seq<Pos>, spawn: Option<Pos>)
    requires |data| > 0
    ensures Normalized(data, |data[0]|, newMap)
    ensures houses == Anchors(data, |data[0]|, |data|)
    ensures spawn == Spawn(data, |data[0]|, |data|)
  {
    var rows, cols := |data|, |data[0]|;
    newMap, houses, spawn := data, [], None;
    var r := 0;
    while r < rows
      invariant RowsCleared(data, cols, newMap, r)
      invariant houses == Anchors(data, cols, r)
      invariant spawn == Spawn(data, cols, r)
    {
      var cur, anchors, found := NormalizeRow(newMap[r], r, cols);
      RowsClearedStep(data, cols, newMap, r, cur);
      newMap := newMap[r := cur];
      houses := houses + anchors;
      spawn := Later(spawn, found);
      r := r + 1;
    }
  }

  /** The loader keeps the shape of the grid. */
  lemma NormalizedShape(data: Grid, cols: int, m: Grid)
    requires |data| > 0 && Normalized(data, cols, m)
    ensures |m| == |data| && |m[0]| == |data[0]|
  {
    assert ClearedUpTo(data[0], cols, m[0], cols);
  }

  /** A row the loader has been over keeps no marker before column `cols`. */
  lemma ClearedHasNoMarkers(orig: seq<string>, cols: int, cur: seq<string>)
    requires ClearedUpTo(orig, cols, cur, cols)
    ensures forall c :: 0 <= c < |cur| && c < cols ==> cur[c] != "H" && cur[c] != "P"
  {
  }

  /** On a rectangular grid, such as the one the server builds, no house or
      player marker survives the loader. */
  lemma NormalizedHasNoMarkers(data: Grid, m: Grid)
    requires |data| > 0 && forall r :: 0 <= r < |data| ==> |data[r]| == |data[0]|
    requires Normalized(data, |data[0]|, m)
    ensures forall r, c :: 0 <= r < |m| && 0 <= c < |m[r]| ==> m[r][c] != "H" && m[r][c] != "P"
  {
    forall r | 0 <= r < |m| {
      ClearedHasNoMarkers(data[r], |data[0]|, m[r]);
    }
  }

  /** The anchors of one row are exactly its house cells. */
  lemma {:induction false} RowAnchorsExact(row: seq<string>, r: int, k: nat, p: Pos)
    ensures p in RowAnchors(row, r, k) <==> p.row == r && 0 <= p.col < k && p.col < |row| && row[p.col] == "H"
  {
    if k > 0 {
      RowAnchorsExact(row, r, k - 1, p);
    }
  }

  /** A marker in the first `n` rows is one in the first `n - 1` rows or
      one in row `n - 1`. */
  lemma MarkerAtStep(data: Grid, cols: int, n: int, p: Pos, marker: string)
    requires 0 < n <= |data|
    ensures MarkerAt(data, cols, n, p, marker) <==>
      MarkerAt(data, cols, n - 1, p, marker)
      || (p.row == n - 1 && 0 <= p.col < cols && p.col < |data[n - 1]| && data[n - 1][p.col] == marker)
  {
  }

  /** `p` is among the anchors of the first `n` rows. */
  predicate IsAnchor(data: Grid, cols: nat, n: nat, p: Pos)
    requires n <= |data|
  {
    p in Anchors(data, cols, n)
  }

  /** The anchors of `n` rows are those of the first `n - 1` rows and the
      house cells of row `n - 1`. */
  lemma InAnchorsStep(data: Grid, cols: nat, n: nat, p: Pos)
    requires 0 < n <= |data|
    ensures IsAnchor(data, cols, n, p)
        == (IsAnchor(data, cols, n - 1, p)
            || (p.row == n - 1 && 0 <= p.col < cols && p.col < |data[n - 1]| && data[n - 1][p.col] == "H"))
  {
    var a, b := Anchors(data, cols, n - 1), RowAnchors(data[n - 1], n - 1, cols);
    RowAnchorsExact(data[n - 1], n - 1, cols, p);
    if p in Anchors(data, cols, n) {
      assert p in a + b;
    } else {
      assert p !in a + b;
    }
  }

  lemma {:induction false} IsAnchorExact(data: Grid, cols: nat, n: nat, p: Pos)
    requires n <= |data|
    ensures IsAnchor(data, cols, n, p) <==> MarkerAt(data, cols, n, p, "H")
  {
    if n > 0 {
      IsAnchorExact(data, cols, n - 1, p);
      InAnchorsStep(data, cols, n, p);
      MarkerAtStep(data, cols, n, p, "H");
    }
  }

  /** The anchors are exactly the house cells the loader visits. */
  lemma AnchorsExact(data: Grid, cols: nat, n: nat, p: Pos)
    requires n <= |data|
    ensures p in Anchors(data, cols, n) <==> MarkerAt(data, cols, n, p, "H")
  {
    IsAnchorExact(data, cols, n, p);
  }

  /** The anchors of a row lie in that row, left to right. */
  lemma {:induction false} RowAnchorsSorted(row: seq<string>, r: int, k: nat)
    ensures forall i :: 0 <= i < |RowAnchors(row, r, k)| ==>
      RowAnchors(row, r, k)[i].row == r && 0 <= RowAnchors(row, r, k)[i].col < k
    ensures forall i, j :: 0 <= i < j < |RowAnchors(row, r, k)| ==>
      Before(RowAnchors(row, r, k)[i], RowAnchors(row, r, k)[j])
  {
    if k > 0 {
      RowAnchorsSorted(row, r, k - 1);
    }
  }

  /** The houses are pushed in strictly increasing row-major order. */
  lemma {:induction false} AnchorsSorted(data: Grid, cols: nat, n: nat)
    requires n <= |data|
    ensures forall i :: 0 <= i < |Anchors(data, cols, n)| ==> 0 <= Anchors(data, cols, n)[i].row < n
    ensures forall i, j :: 0 <= i < j < |Anchors(data, cols, n)| ==>
      Before(Anchors(data, cols, n)[i], Anchors(data, cols, n)[j])
  {
    if n > 0 {
      AnchorsSorted(data, cols, n - 1);
      RowAnchorsSorted(data[n - 1], n - 1, cols);
      var a, b := Anchors(data, cols, n - 1), RowAnchors(data[n - 1], n - 1, cols);
      assert Anchors(data, cols, n) == a + b;
      forall i, j | 0 <= i < j < |a + b| ensures Before((a + b)[i], (a + b)[j]) {
        if j < |a| {
          assert (a + b)[i] == a[i] && (a + b)[j] == a[j];
        } else if i < |a| {
          assert (a + b)[i] == a[i] && (a + b)[j] == b[j - |a|];
        } else {
          assert (a + b)[i] == b[i - |a|] && (a + b)[j] == b[j - |a|];
        }
      }
    }
  }

  /** The last marker of a row is a marker, and none follows it. */
  lemma {:induction false} RowSpawnLast(row: seq<string>, r: int, k: nat)
    ensures RowSpawn(row, r, k).Some? ==>
      var p := RowSpawn(row, r, k).value;
      && p.row == r && 0 <= p.col < k && p.col < |row| && row[p.col] == "P"
      && forall c :: p.col < c < k && c < |row| ==> row[c] != "P"
    ensures RowSpawn(row, r, k).None? ==> forall c :: 0 <= c < k && c < |row| ==> row[c] != "P"
  {
    if k > 0 {
      RowSpawnLast(row, r, k - 1);
    }
  }

  /** The player starts on the last player marker in row-major order, and
      keeps its position when there is none. */
  lemma {:induction false} SpawnLast(data: Grid, cols: nat, n: nat)
    requires n <= |data|
    ensures Spawn(data, cols, n).Some? ==>
      var p := Spawn(data, cols, n).value;
      && MarkerAt(data, cols, n, p, "P")
      && forall q :: Before(p, q) ==> !MarkerAt(data, cols, n, q, "P")
    ensures Spawn(data, cols, n).None? ==> forall q :: !MarkerAt(data, cols, n, q, "P")
  {
    if n > 0 {
      SpawnLast(data, cols, n - 1);
      RowSpawnLast(data[n - 1], n - 1, cols);
      var row := RowSpawn(data[n - 1], n - 1, cols);
      if row.Some? {
        forall q | Before(row.value, q) ensures !MarkerAt(data, cols, n, q, "P") {
          if q.row == n - 1 && 0 <= q.col < cols && q.col < |data[n - 1]| {
            assert data[q.row][q.col] == data[n - 1][q.col];
          }
        }
      } else {
        forall q | MarkerAt(data, cols, n, q, "P") ensures MarkerAt(data, cols, n - 1, q, "P") {
          if q.row == n - 1 {
            assert false;
          }
        }
      }
    }
  }

  // ---------------------------------------------------------------------
  // The component's state

  class Client {
    /** `localStorage.getItem("username")`. */
    const username: string
    var isLoading: bool
    /** `map`; [] until a room is loaded. */
    var grid: Grid
    /** `gridDims`. */
    var rows: int
    var cols: int
    /** `housePositions`. */
    var houses: seq<Pos>
    var playerPos: Pos
    var otherPlayers: map<string, Pos>
    /** `null` is `None`. */
    var adjacentTo: Option<string>
    var isChatOpen: bool
    var chatRecipient: string
    var isColliding: bool
    var isJumping: bool
    /** The frames sent on the socket so far. */
    var sent: seq<Message>

    /** The dimensions describe the grid, and an open chat is bound to a
        player. */
    ghost predicate Valid()
      reads this
    {
      && rows == |grid|
      && (rows == 0 ==> cols == 0)
      && (rows > 0 ==> cols == |grid[0]|)
      && (isChatOpen ==> chatRecipient != "")
    }

    constructor (username: string)
      ensures Valid()
      ensures this.username == username && isLoading && grid == [] && rows == 0 && cols == 0
      ensures houses == [] && playerPos == Pos(0, 0) && otherPlayers == map[]
      ensures adjacentTo == None && !isChatOpen && chatRecipient == ""
      ensures !isColliding && !isJumping && sent == []
    {
      this.username := username;
      isLoading := true;
      grid := [];
      rows, cols := 0, 0;
      houses := [];
      playerPos := Pos(0, 0);
      otherPlayers := map[];
      adjacentTo := None;
      isChatOpen := false;
      chatRecipient := "";
      isColliding, isJumping := false, false;
      sent := [];
    }

    /** `fetchMap` once the response is in: `payload` is the parsed body
        when it is an array, `None` when the fetch, the parse or the array
        test failed. An empty array is refused as well. */
    method Load(payload: Option<Grid>)
      requires Valid()
      modifies this`isLoading, this`grid, this`rows, this`cols, this`houses, this`playerPos
      ensures Valid()
      ensures !isLoading
      ensures payload.Some? && |payload.value| > 0 ==>
        var data := payload.value;
        && Normalized(data, |data[0]|, grid)
        && houses == Anchors(data, |data[0]|, |data|)
        && playerPos == (if Spawn(data, |data[0]|, |data|).Some? then Spawn(data, |data[0]|, |data|).value
                         else old(playerPos))
        && rows == |data| && cols == |data[0]|
      ensures !(payload.Some? && |payload.value| > 0) ==>
        grid == old(grid) && houses == old(houses) && playerPos == old(playerPos)
        && rows == old(rows) && cols == old(cols)
    {
      if payload.Some? && |payload.value| > 0 {
        var data := payload.value;
        var newMap, found, spawn := NormalizeMap(data);
        NormalizedShape(data, |data[0]|, newMap);
        if spawn.Some? {
          playerPos := spawn.value;
        }
        houses := found;
        grid := newMap;
        rows, cols := |data|, |data[0]|;
      }
      isLoading := false;
    }

    /** `movePlayer(dr, dc)`. `socketOpen` is `readyState === OPEN` at the
        time of the call. A refused move only raises the collision flag; an
        accepted one moves the player, sends one position frame when the
        socket is open and a username is stored, and raises the jump
        flag. */
    method MovePlayer(dr: int, dc: int, socketOpen: bool)
      requires Valid()
      modifies this`playerPos, this`sent, this`isColliding, this`isJumping
      ensures Valid()
      ensures var v := CheckMove(grid, rows, cols, houses, old(playerPos), dr, dc);
        && (v.Accepted? ==>
              && playerPos == v.to
              && sent == old(sent) + (if socketOpen && username != "" then [PositionFrame(username, v.to.row, v.to.col)] else [])
              && isJumping && isColliding == old(isColliding))
        && (!v.Accepted? ==>
              && playerPos == old(playerPos) && sent == old(sent)
              && isColliding && isJumping == old(isJumping))
    {
      var v := CheckMove(grid, rows, cols, houses, playerPos, dr, dc);
      if !v.Accepted? {
        isColliding := true;
        return;
      }
      playerPos := v.to;
      if socketOpen && username != "" {
        sent := sent + [PositionFrame(username, v.to.row, v.to.col)];
      }
      isJumping := true;
    }

    /** `socket.onmessage`: a position frame of another player records it,
        a position frame of this player changes nothing; a proximity frame
        aimed at this player sets or clears the adjacent peer, and clearing
        it closes the chat. A leave only counts when it comes from the
        current peer. Every other frame is ignored. */
    method OnMessage(data: Message)
      requires Valid()
      modifies this`otherPlayers, this`adjacentTo, this`isChatOpen, this`chatRecipient
      ensures Valid()
      ensures otherPlayers == if data.kind == "position" && data.username != username
                              then old(otherPlayers)[data.username := Pos(data.row, data.col)]
                              else old(otherPlayers)
      ensures var forMe := data.kind == "proximity" && OmitEmptyEquals(data.target, username);
        && (forMe && data.action == "approach" ==>
              adjacentTo == Some(data.username)
              && isChatOpen == old(isChatOpen) && chatRecipient == old(chatRecipient))
        && (forMe && data.action == "leave" && old(adjacentTo) == Some(data.username) ==>
              adjacentTo == None && !isChatOpen && chatRecipient == "")
        && (!(forMe && (data.action == "approach" || (data.action == "leave" && old(adjacentTo) == Some(data.username)))) ==>
              adjacentTo == old(adjacentTo) && isChatOpen == old(isChatOpen) && chatRecipient == old(chatRecipient))
    {
      if data.kind == "position" && data.username != username {
        otherPlayers := otherPlayers[data.username := Pos(data.row, data.col)];
      }
      if data.kind == "proximity" {
        if OmitEmptyEquals(data.target, username) {
          if OmitEmptyEquals(data.action, "approach") {
            adjacentTo := Some(data.username);
          } else if OmitEmptyEquals(data.action, "leave") && adjacentTo == Some(data.username) {
            adjacentTo := None;
            isChatOpen := false;
            chatRecipient := "";
          }
        }
      }
    }

    /** `openChat`: with a peer, the chat opens bound to it; without one
        nothing happens. */
    method OpenChat()
      requires Valid()
      modifies this`isChatOpen, this`chatRecipient
      ensures Valid()
      ensures Truthy(adjacentTo) ==> isChatOpen && chatRecipient == adjacentTo.value
      ensures !Truthy(adjacentTo) ==> isChatOpen == old(isChatOpen) && chatRecipient == old(chatRecipient)
    {
      if Truthy(adjacentTo) {
        isChatOpen := true;
        chatRecipient := adjacentTo.value;
      }
    }

    /** `closeChat`: always closed, with no recipient. */
    method CloseChat()
      requires Valid()
      modifies this`isChatOpen, this`chatRecipient
      ensures Valid()
      ensures !isChatOpen && chatRecipient == ""
    {
      isChatOpen := false;
      chatRecipient := "";
    }

    /** The keydown handler: the arrows and WASD move, C opens the chat only
        when there is a peer and it is closed, Escape closes an open chat,
        and any other key does nothing. */
    method HandleKey(key: string, socketOpen: bool)
      requires Valid()
      modifies this`playerPos, this`sent, this`isColliding, this`isJumping, this`isChatOpen, this`chatRecipient
      ensures Valid()
      ensures !KeyCommand(key).Move? ==>
        && playerPos == old(playerPos) && sent == old(sent)
        && isColliding == old(isColliding) && isJumping == old(isJumping)
      ensures KeyCommand(key).Move? ==>
        var v := CheckMove(grid, rows, cols, houses, old(playerPos), KeyCommand(key).dr, KeyCommand(key).dc);
        && (v.Accepted? ==>
              && playerPos == v.to
              && sent == old(sent) + (if socketOpen && username != "" then [PositionFrame(username, v.to.row, v.to.col)] else [])
              && isJumping && isColliding == old(isColliding))
        && (!v.Accepted? ==>
              && playerPos == old(playerPos) && sent == old(sent)
              && isColliding && isJumping == old(isJumping))
      ensures KeyCommand(key).Move? ==>
        adjacentTo == old(adjacentTo) && isChatOpen == old(isChatOpen) && chatRecipient == old(chatRecipient)
      ensures KeyCommand(key) == OpenChatKey ==>
        if Truthy(old(adjacentTo)) && !old(isChatOpen) then isChatOpen && chatRecipient == old(adjacentTo).value
        else isChatOpen == old(isChatOpen) && chatRecipient == old(chatRecipient)
      ensures KeyCommand(key) == EscapeKey ==>
        if old(isChatOpen) then !isChatOpen && chatRecipient == ""
        else !isChatOpen && chatRecipient == old(chatRecipient)
      ensures KeyCommand(key) == NoCommand ==>
        isChatOpen == old(isChatOpen) && chatRecipient == old(chatRecipient)
    {
      match KeyCommand(key)
      case Move(dr, dc) =>
        MovePlayer(dr, dc, socketOpen);
      case OpenChatKey =>
        if Truthy(adjacentTo) && !isChatOpen {
          OpenChat();
        }
      case EscapeKey =>
        if isChatOpen {
          CloseChat();
        }
      case NoCommand =>
    }
  }
}
