/** One generation of the Game of Life example program: `grid` and
    `copy_grid` are `grid_width` by `grid_height` boolean arrays indexed
    `[x, y]`; the border cells are never updated. */
module GameOfLife {
  const GridWidth: int := 20
  const GridHeight: int := 20

  /** `cond ? 1 : 0`. */
  function Bit(b: bool): int { if b then 1 else 0 }

  /** Both grids have the shape the program allocates, and they are
      distinct arrays. */
  predicate Grids(grid: array2<bool>, copyGrid: array2<bool>) {
    grid != copyGrid &&
    grid.Length0 == GridWidth && grid.Length1 == GridHeight &&
    copyGrid.Length0 == GridWidth && copyGrid.Length1 == GridHeight
  }

  /** A cell `update_grid` computes: neither on the first nor on the last
      row or column. */
  predicate Interior(x: int, y: int) {
    1 <= x < GridWidth - 1 && 1 <= y < GridHeight - 1
  }

  /** Live cells among `g[x, y0 .. y0 + n - 1]`. */
  function ColumnLive(g: array2<bool>, x: int, y0: int, n: nat): int
    requires 0 <= x < g.Length0 && 0 <= y0 && y0 + n <= g.Length1
    reads g
  {
    if n == 0 then 0 else ColumnLive(g, x, y0, n - 1) + Bit(g[x, y0 + n - 1])
  }

  /** Live cells in the block of `w` columns from `x0` and 3 rows from `y0`. */
  function BlockLive(g: array2<bool>, x0: int, y0: int, w: nat): int
    requires 0 <= x0 && x0 + w <= g.Length0 && 0 <= y0 && y0 + 3 <= g.Length1
    reads g
  {
    if w == 0 then 0 else BlockLive(g, x0, y0, w - 1) + ColumnLive(g, x0 + w - 1, y0, 3)
  }

  /** The live neighbours of an interior cell: its 3 by 3 block without the
      cell itself. */
  function LiveNeighbours(g: array2<bool>, x: int, y: int): int
    requires 1 <= x < g.Length0 - 1 && 1 <= y < g.Length1 - 1
    reads g
  {
    BlockLive(g, x - 1, y - 1, 3) - Bit(g[x, y])
  }

  /** A column of three cells, unfolded. */
  lemma ColumnThree(g: array2<bool>, x: int, y0: int)
    requires 0 <= x < g.Length0 && 0 <= y0 && y0 + 3 <= g.Length1
    ensures ColumnLive(g, x, y0, 3) == Bit(g[x, y0]) + Bit(g[x, y0 + 1]) + Bit(g[x, y0 + 2])
  {
    assert ColumnLive(g, x, y0, 1) == Bit(g[x, y0]);
  }

  /** The neighbourhood of an interior cell, cell by cell. */
  lemma Neighbours(g: array2<bool>, x: int, y: int)
    requires 1 <= x < g.Length0 - 1 && 1 <= y < g.Length1 - 1
    ensures LiveNeighbours(g, x, y) ==
              Bit(g[x - 1, y - 1]) + Bit(g[x - 1, y]) + Bit(g[x - 1, y + 1]) +
              Bit(g[x, y - 1]) + Bit(g[x, y + 1]) +
              Bit(g[x + 1, y - 1]) + Bit(g[x + 1, y]) + Bit(g[x + 1, y + 1])
  {
    ColumnThree(g, x - 1, y - 1);
    ColumnThree(g, x, y - 1);
    ColumnThree(g, x + 1, y - 1);
    assert BlockLive(g, x - 1, y - 1, 1) == ColumnLive(g, x - 1, y - 1, 3);
    assert BlockLive(g, x - 1, y - 1, 2) == BlockLive(g, x - 1, y - 1, 1) + ColumnLive(g, x, y - 1, 3);
  }

  /** Conway's rule B3/S23: a live cell survives with 2 or 3 live
      neighbours, a dead cell is born with exactly 3. */
  predicate Life(alive: bool, neighbours: int) {
    (alive && (neighbours == 2 || neighbours == 3)) || (!alive && neighbours == 3)
  }

  /** The eight `total_cells += grid[..][..] ? 1 : 0` lines: the live
      neighbours of `(x, y)`, between 0 and 8. */
  method NeighbourCount(grid: array2<bool>, x: int, y: int) returns (total: int)
    requires 1 <= x < grid.Length0 - 1 && 1 <= y < grid.Length1 - 1
    ensures total == LiveNeighbours(grid, x, y)
    ensures 0 <= total <= 8
  {
    total := 0;
    total := total + Bit(grid[x - 1, y - 1]);
    total := total + Bit(grid[x - 1, y]);
    total := total + Bit(grid[x - 1, y + 1]);
    total := total + Bit(grid[x, y - 1]);
    total := total + Bit(grid[x, y + 1]);
    total := total + Bit(grid[x + 1, y - 1]);
    total := total + Bit(grid[x + 1, y]);
    total := total + Bit(grid[x + 1, y + 1]);
    Neighbours(grid, x, y);
  }

  /** The branches on `grid[x][y]` and `total_cells`: the new state of a
      cell is the one rule B3/S23 gives. */
  method NextCell(alive: bool, total: int) returns (next: bool)
    ensures next <==> Life(alive, total)
  {
    if alive {
      if total == 0 || total == 1 {
        next := false;
      } else if total == 2 || total == 3 {
        next := true;
      } else if 4 <= total && total <= 8 {
        next := false;
      } else {
        next := false;
      }
    } else {
      if total == 3 {
        next := true;
      } else {
        next := false;
      }
    }
  }

  /** The first nested loop of `update_grid`: every interior cell of
      `copy_grid` gets the next state of the same cell of `grid`; `grid`
      and the border of `copy_grid` are left alone. */
  method ComputeNext(grid: array2<bool>, copyGrid: array2<bool>)
    requires Grids(grid, copyGrid)
    modifies copyGrid
    ensures forall x, y :: Interior(x, y) ==>
              copyGrid[x, y] == Life(grid[x, y], LiveNeighbours(grid, x, y))
    ensures forall x, y :: 0 <= x < GridWidth && 0 <= y < GridHeight && !Interior(x, y) ==>
              copyGrid[x, y] == old(copyGrid[x, y])
  {
    for y := 1 to GridHeight - 1
      invariant forall x', y' :: Interior(x', y') && y' < y ==>
                  copyGrid[x', y'] == Life(grid[x', y'], LiveNeighbours(grid, x', y'))
      invariant forall x', y' ::
                  (0 <= x' < GridWidth && 0 <= y' < GridHeight && !(Interior(x', y') && y' < y)) ==>
                  copyGrid[x', y'] == old(copyGrid[x', y'])
    {
      for x := 1 to GridWidth - 1
        invariant forall x', y' :: Interior(x', y') && (y' < y || (y' == y && x' < x)) ==>
                    copyGrid[x', y'] == Life(grid[x', y'], LiveNeighbours(grid, x', y'))
        invariant forall x', y' ::
                    (0 <= x' < GridWidth && 0 <= y' < GridHeight &&
                     !(Interior(x', y') && (y' < y || (y' == y && x' < x)))) ==>
                    copyGrid[x', y'] == old(copyGrid[x', y'])
      {
        var total := NeighbourCount(grid, x, y);
        var next := NextCell(grid[x, y], total);
        copyGrid[x, y] := next;
      }
    }
  }

  /** The second nested loop of `update_grid`: every cell of `grid` takes
      the value of the same cell of `copy_grid`. */
  method CopyBack(grid: array2<bool>, copyGrid: array2<bool>)
    requires Grids(grid, copyGrid)
    modifies grid
    ensures forall x, y :: 0 <= x < GridWidth && 0 <= y < GridHeight ==> grid[x, y] == copyGrid[x, y]
  {
    for x := 0 to GridWidth
      invariant forall x', y' :: 0 <= x' < x && 0 <= y' < GridHeight ==> grid[x', y'] == copyGrid[x', y']
    {
      for y := 0 to GridHeight
        invariant forall x', y' :: 0 <= x' < x && 0 <= y' < GridHeight ==> grid[x', y'] == copyGrid[x', y']
        invariant forall y' :: 0 <= y' < y ==> grid[x, y'] == copyGrid[x, y']
      {
        grid[x, y] := copyGrid[x, y];
      }
    }
  }

  /** `update_grid`: each interior cell of `grid` takes its next state
      under rule B3/S23, computed from the old grid; the border of `grid`
      takes whatever the (never written) border of `copy_grid` holds; and
      afterwards both grids agree on every cell. */
  method UpdateGrid(grid: array2<bool>, copyGrid: array2<bool>)
    requires Grids(grid, copyGrid)
    modifies grid, copyGrid
    ensures forall x, y :: Interior(x, y) ==>
              grid[x, y] == Life(old(grid[x, y]), old(LiveNeighbours(grid, x, y)))
    ensures forall x, y :: 0 <= x < GridWidth && 0 <= y < GridHeight && !Interior(x, y) ==>
              copyGrid[x, y] == old(copyGrid[x, y]) && grid[x, y] == old(copyGrid[x, y])
    ensures forall x, y :: 0 <= x < GridWidth && 0 <= y < GridHeight ==> grid[x, y] == copyGrid[x, y]
  {
    ComputeNext(grid, copyGrid);
    CopyBack(grid, copyGrid);
  }

  /** The counted neighbours of an interior cell are between 0 and 8. */
  lemma LiveNeighboursBound(g: array2<bool>, x: int, y: int)
    requires 1 <= x < g.Length0 - 1 && 1 <= y < g.Length1 - 1
    ensures 0 <= LiveNeighbours(g, x, y) <= 8
  {
    Neighbours(g, x, y);
  }
}
