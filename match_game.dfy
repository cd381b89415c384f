/** The match-3 board of src/components/Match3/MatchGame.tsx: an 8 by 8 grid of lettered tiles. */
module MatchGame {

  /** `GRID_SIZE`: columns per board and tiles per column. */
  const GridSize: nat := 8

  /** The alphabet new tiles draw their letter from. */
  const Characters: string := "ABCDEFGHIJKLMNOPQRSTUVWXYZabcdefghijklmnopqrstuvwxyz0123456789"

  datatype TileInfo = TileInfo(content: char, id: nat)

  /** One `<Tile key x y>` element produced by `renderTiles`. */
  datatype RenderedTile = RenderedTile(key: nat, x: nat, y: nat, content: char)

  /** `tiles[x][y]` as the element `renderTiles` yields for it. */
  function Rendered(tiles: seq<seq<TileInfo>>, x: nat, y: nat): RenderedTile
    requires x < |tiles| && y < |tiles[x]|
  {
    RenderedTile(tiles[x][y].id, x, y, tiles[x][y].content)
  }

  /** `tiles` is GRID_SIZE columns of GRID_SIZE tiles each. */
  ghost predicate IsGrid(tiles: seq<seq<TileInfo>>)
  {
    |tiles| == GridSize && forall i :: 0 <= i < |tiles| ==> |tiles[i]| == GridSize
  }

  /** No two cells of the grid hold tiles with the same id. */
  ghost predicate DistinctIds(tiles: seq<seq<TileInfo>>)
  {
    forall i1, j1, i2, j2 ::
      (0 <= i1 < |tiles| && 0 <= j1 < |tiles[i1]| && 0 <= i2 < |tiles| && 0 <= j2 < |tiles[i2]| &&
       tiles[i1][j1].id == tiles[i2][j2].id) ==> i1 == i2 && j1 == j2
  }

  class MatchGame {
    var tiles: seq<seq<TileInfo>>
    var nextId: nat
    /** Calls of `_force_update` made by the game. */
    var forceUpdates: nat

    ghost predicate Valid()
      reads this
    {
      IsGrid(tiles) && DistinctIds(tiles) &&
      forall i, j :: 0 <= i < |tiles| && 0 <= j < |tiles[i]| ==> tiles[i][j].id < nextId
    }

    /**
     * Builds the grid column by column; `picks[k]` is the random index of the letter of the
     * k-th tile created.
     */
    constructor(picks: seq<nat>)
      requires |picks| == GridSize * GridSize
      requires forall k :: 0 <= k < |picks| ==> picks[k] < |Characters|
      ensures Valid()
      ensures nextId == GridSize * GridSize && forceUpdates == 0
      ensures forall i, j :: 0 <= i < GridSize && 0 <= j < GridSize ==>
        tiles[i][j] == TileInfo(Characters[picks[i * GridSize + j]], i * GridSize + j)
    {
      nextId := 0;
      forceUpdates := 0;
      tiles := [];
      new;
      var i := 0;
      while i < GridSize
        invariant 0 <= i <= GridSize
        invariant |tiles| == i && nextId == i * GridSize && forceUpdates == 0
        invariant forall a :: 0 <= a < i ==> |tiles[a]| == GridSize
        invariant forall a, b :: 0 <= a < i && 0 <= b < GridSize ==>
          tiles[a][b] == TileInfo(Characters[picks[a * GridSize + b]], a * GridSize + b)
      {
        var column: seq<TileInfo> := [];
        var j := 0;
        while j < GridSize
          invariant 0 <= j <= GridSize
          invariant |column| == j && nextId == i * GridSize + j && forceUpdates == 0
          invariant |tiles| == i
          invariant forall a :: 0 <= a < i ==> |tiles[a]| == GridSize
          invariant forall a, b :: 0 <= a < i && 0 <= b < GridSize ==>
            tiles[a][b] == TileInfo(Characters[picks[a * GridSize + b]], a * GridSize + b)
          invariant forall b :: 0 <= b < j ==>
            column[b] == TileInfo(Characters[picks[i * GridSize + b]], i * GridSize + b)
        {
          var t := NewTile(picks[i * GridSize + j]);
          column := column + [t];
          j := j + 1;
        }
        tiles := tiles + [column];
        i := i + 1;
      }
    }

    /** `newTile`: the letter `Characters[pick]`, the next id, and the counter moves on by one. */
    method NewTile(pick: nat) returns (t: TileInfo)
      requires pick < |Characters|
      modifies this`nextId
      ensures t == TileInfo(Characters[pick], old(nextId))
      ensures nextId == old(nextId) + 1
    {
      t := TileInfo(Characters[pick], nextId);
      nextId := nextId + 1;
    }

    /**
     * `deleteTile(x, y)`: takes tile `y` out of column `x` (the tiles above it move down) and
     * puts a new tile on top; every other column is untouched, `_force_update` is called once.
     */
    method DeleteTile(x: nat, y: nat, pick: nat)
      requires Valid()
      requires x < GridSize && y < GridSize && pick < |Characters|
      modifies this
      ensures Valid()
      ensures tiles == old(tiles)[x := old(tiles)[x][..y] + old(tiles)[x][y + 1..]
                                       + [TileInfo(Characters[pick], old(nextId))]]
      ensures nextId == old(nextId) + 1
      ensures forceUpdates == old(forceUpdates) + 1
    {
      ghost var before := tiles;
      var column := tiles[x][..y] + tiles[x][y + 1..];
      tiles := tiles[x := column];
      var t := NewTile(pick);
      tiles := tiles[x := tiles[x] + [t]];
      forceUpdates := forceUpdates + 1;
      DeletePreservesIds(before, x, y, t);
    }

    /**
     * `renderTiles`: all 64 tiles, top row (`y` = 7) first, each row from `x` = 0 to 7, keyed
     * by tile id.
     */
    method RenderTiles() returns (r: seq<RenderedTile>)
      requires Valid()
      ensures |r| == GridSize * GridSize
      ensures forall k :: 0 <= k < |r| ==>
        r[k] == Rendered(tiles, k % GridSize, GridSize - 1 - k / GridSize)
    {
      r := [];
      var j: int := GridSize - 1;
      while j >= 0
        invariant -1 <= j < GridSize
        invariant |r| == (GridSize - 1 - j) * GridSize
        invariant forall k :: 0 <= k < |r| ==>
          r[k] == Rendered(tiles, k % GridSize, GridSize - 1 - k / GridSize)
      {
        var i := 0;
        while i < GridSize
          invariant 0 <= i <= GridSize
          invariant |r| == (GridSize - 1 - j) * GridSize + i
          invariant forall k :: 0 <= k < |r| ==>
            r[k] == Rendered(tiles, k % GridSize, GridSize - 1 - k / GridSize)
        {
          RowColumn(GridSize - 1 - j, i);
          r := r + [Rendered(tiles, i, j)];
          i := i + 1;
        }
        j := j - 1;
      }
    }
  }

  /** Position `row * GridSize + i` of the rendered list is column `i` of output row `row`. */
  lemma RowColumn(row: nat, i: nat)
    requires i < GridSize
    ensures (row * GridSize + i) % GridSize == i && (row * GridSize + i) / GridSize == row
  {
  }

  /** Deleting a tile and appending one with a fresh id keeps the grid shape and the ids distinct. */
  lemma DeletePreservesIds(before: seq<seq<TileInfo>>, x: nat, y: nat, t: TileInfo)
    requires IsGrid(before) && DistinctIds(before)
    requires x < GridSize && y < GridSize
    requires forall i, j :: 0 <= i < |before| && 0 <= j < |before[i]| ==> before[i][j].id < t.id
    ensures var after := before[x := before[x][..y] + before[x][y + 1..] + [t]];
      IsGrid(after) && DistinctIds(after) &&
      forall i, j :: 0 <= i < |after| && 0 <= j < |after[i]| ==> after[i][j].id < t.id + 1
  {
    var after := before[x := before[x][..y] + before[x][y + 1..] + [t]];
    // where each cell of `after` came from in `before` (the new tile has no origin)
    assert forall j :: 0 <= j < y ==> after[x][j] == before[x][j];
    assert forall j :: y <= j < GridSize - 1 ==> after[x][j] == before[x][j + 1];
    assert after[x][GridSize - 1] == t;
  }
}
