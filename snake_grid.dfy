/**
 * Counting the Snake grid: a free cell for the apple exists exactly when the
 * body does not cover the whole grid. This is what the source's rejection
 * sampling loop needs in order to end.
 */
module SnakeGrid {
  import opened Snake

  /** The cells of row y with column below n. */
  function RowCells(y: int, n: nat): set<Vec> {
    set x | 0 <= x < n :: Vec(x, y)
  }

  /** The cells of the first `rows` rows of a grid `count` cells wide. */
  function Cells(rows: nat, count: nat): set<Vec> {
    set x, y | 0 <= x < count && 0 <= y < rows :: Vec(x, y)
  }

  /** The cells a body occupies. */
  function Occupied(body: seq<Vec>): set<Vec> {
    set c | c in body
  }

  lemma {:induction false} RowCellsSize(y: int, n: nat)
    ensures |RowCells(y, n)| == n
  {
    if n == 0 {
      assert RowCells(y, 0) == {};
    } else {
      RowCellsSize(y, n - 1);
      assert RowCells(y, n) == RowCells(y, n - 1) + {Vec(n - 1, y)};
    }
  }

  lemma {:induction false} CellsSize(rows: nat, count: nat)
    ensures |Cells(rows, count)| == rows * count
  {
    if rows == 0 {
      assert Cells(0, count) == {};
    } else {
      CellsSize(rows - 1, count);
      RowCellsSize(rows - 1, count);
      assert Cells(rows, count) == Cells(rows - 1, count) + RowCells(rows - 1, count);
      assert Cells(rows - 1, count) !! RowCells(rows - 1, count);
      assert rows * count == (rows - 1) * count + count;
    }
  }

  lemma {:induction false} OccupiedSize(body: seq<Vec>)
    requires Distinct(body)
    ensures |Occupied(body)| == |body|
  {
    if body == [] {
      assert Occupied(body) == {};
    } else {
      OccupiedSize(body[1..]);
      assert Occupied(body) == {body[0]} + Occupied(body[1..]);
      assert body[0] !in body[1..];
    }
  }

  lemma SubsetSize(a: set<Vec>, b: set<Vec>)
    requires a <= b
    ensures |a| <= |b|
  {
    assert b == a + (b - a);
  }

  /**
   * A body of distinct in-grid cells leaves a grid cell free exactly when it
   * has fewer cells than the grid.
   */
  lemma FreeCellIffNotFull(body: seq<Vec>, count: nat)
    requires Distinct(body) && AllInGrid(body, count)
    ensures (exists c :: InGrid(c, count) && c !in body) <==> |body| < count * count
  {
    var occupied, grid := Occupied(body), Cells(count, count);
    OccupiedSize(body);
    CellsSize(count, count);
    assert occupied <= grid;
    if |body| < count * count {
      if grid <= occupied {
        SubsetSize(grid, occupied);
        assert false;
      }
      var c :| c in grid && c !in occupied;
      assert InGrid(c, count) && c !in body;
    }
    if c :| InGrid(c, count) && c !in body {
      assert c in grid;
      assert occupied <= grid - {c};
      SubsetSize(occupied, grid - {c});
    }
  }

  /**
   * When the step eats the apple in the grid's last free cell, no stream of
   * in-grid cells holds a cell off the grown body, so no stream feeds the
   * step: the source's sampling loop would never end there.
   */
  lemma LastAppleStarves(g: Game, count: nat, candidates: seq<Vec>)
    requires Inv(g, count) && Eats(g, count) && |g.body| + 1 == count * count
    ensures !Feeds(g, count, candidates)
  {
    var grown := [g.apple] + g.body;
    assert Distinct(grown) by {
      forall i, j | 0 <= i < j < |grown| ensures grown[i] != grown[j] {
        if i > 0 {
          assert grown[i] == g.body[i - 1] && grown[j] == g.body[j - 1];
        }
      }
    }
    FreeCellIffNotFull(grown, count);
    if AllInGrid(candidates, count) && HasFree(candidates, grown) {
      assert false;
    }
  }
}
