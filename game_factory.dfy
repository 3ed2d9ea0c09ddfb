/** The stateful half of src/game/game.py: `GameFactoryFromJson` over the
    parsed game description. The payoff lists (cells) of the parsed matrix
    are mutable objects; the rows built by the transpose are new lists that
    hold the very same cell objects, so reversing a cell of the transpose
    also reverses it inside the parsed description. */
module GameFactories {
  import opened PayoffMatrices

  /** One mutable payoff list of the parsed description. */
  type Cell = array<int>

  /** A nested list of payoff lists as the parser builds it. */
  type CellMatrix = seq<seq<Cell>>

  /** Every cell object reachable from `m`. */
  ghost function CellsOf(m: CellMatrix): set<Cell> {
    set row, cell | row in m && cell in row :: cell
  }

  /** No cell object occurs at two positions (the parser never shares lists). */
  predicate DistinctCells(m: CellMatrix) {
    forall r1, c1, r2, c2 ::
      0 <= r1 < |m| && 0 <= c1 < |m[r1]| && 0 <= r2 < |m| && 0 <= c2 < |m[r2]| &&
      (r1 != r2 || c1 != c2) ==>
        m[r1][c1] != m[r2][c2]
  }

  /** The payoff lists of one row, frozen. */
  function FreezeRow(row: seq<Cell>): (ps: seq<Payoffs>)
    reads set cell | cell in row
    ensures |ps| == |row|
    ensures forall c :: 0 <= c < |row| ==> ps[c] == row[c][..]
  {
    if row == [] then [] else [row[0][..]] + FreezeRow(row[1..])
  }

  /** `nested_list_to_nested_tuple` on a payoff matrix: the same shape at
      every level and the same payoffs at every position, as values. */
  function Freeze(m: CellMatrix): (p: PayoffMatrix)
    reads CellsOf(m)
    ensures |p| == |m|
    ensures forall r :: 0 <= r < |m| ==> |p[r]| == |m[r]|
    ensures forall r, c {:trigger p[r][c]} :: 0 <= r < |m| && 0 <= c < |m[r]| ==> p[r][c] == m[r][c][..]
  {
    if m == [] then [] else [FreezeRow(m[0])] + Freeze(m[1..])
  }

  lemma CellIn(m: CellMatrix, r: nat, c: nat)
    requires r < |m| && c < |m[r]|
    ensures m[r][c] in CellsOf(m)
  {
    assert m[r] in m && m[r][c] in m[r];
  }

  /** Every cell of `Transpose(m)` is a cell of the first MinLen(m) columns
      of `m`, and the transpose does not repeat a cell. */
  lemma TransposeShares(m: CellMatrix)
    requires DistinctCells(m)
    ensures DistinctCells(Transpose(m))
    ensures CellsOf(Transpose(m)) <= CellsOf(m)
    ensures forall r, c :: 0 <= r < |m| && MinLen(m) <= c < |m[r]| ==> m[r][c] !in CellsOf(Transpose(m))
  {
    TransposeDistinct(m);
    forall cell | cell in CellsOf(Transpose(m))
      ensures cell in CellsOf(m)
    {
      var r, c := TransposeCellOrigin(m, cell);
      CellIn(m, r, c);
    }
    forall r, c | 0 <= r < |m| && MinLen(m) <= c < |m[r]|
      ensures m[r][c] !in CellsOf(Transpose(m))
    {
      if m[r][c] in CellsOf(Transpose(m)) {
        var r', c' := TransposeCellOrigin(m, m[r][c]);
      }
    }
  }

  lemma TransposeDistinct(m: CellMatrix)
    requires DistinctCells(m)
    ensures DistinctCells(Transpose(m))
  {
    var t := Transpose(m);
    forall c1, r1, c2, r2 |
      0 <= c1 < |t| && 0 <= r1 < |t[c1]| && 0 <= c2 < |t| && 0 <= r2 < |t[c2]| &&
      (c1 != c2 || r1 != r2)
      ensures t[c1][r1] != t[c2][r2]
    {
      assert t[c1][r1] == m[r1][c1] && t[c2][r2] == m[r2][c2];
    }
  }

  /** The position in `m` a cell of the transpose comes from. */
  lemma TransposeCellOrigin(m: CellMatrix, cell: Cell) returns (r: nat, c: nat)
    requires cell in CellsOf(Transpose(m))
    ensures r < |m| && c < MinLen(m) && c < |m[r]| && cell == m[r][c]
  {
    var t := Transpose(m);
    var row :| row in t && cell in row;
    var i :| 0 <= i < |t| && t[i] == row;
    var j :| 0 <= j < |row| && row[j] == cell;
    r, c := j, i;
    assert cell == t[i][j] == m[j][i];
  }

  /** The column player's view read back from the reversed transpose. */
  lemma ColumnViewFromCells(m: CellMatrix, before: PayoffMatrix, col: PayoffMatrix)
    requires |before| == |m| && forall r :: 0 <= r < |m| ==> |before[r]| == |m[r]|
    requires |col| == MinLen(m) && forall c :: 0 <= c < |col| ==> |col[c]| == |m|
    requires forall c, r :: 0 <= c < |col| && 0 <= r < |m| ==> col[c][r] == Reverse(before[r][c])
    ensures col == ColumnView(before)
  {
    MinLenSameShape(m, before);
    MatrixEqual(col, ColumnView(before));
  }

  /** Once the cells of the first MinLen columns of `m` are reversed, the
      transpose of `m` freezes to the column view of the matrix as it was. */
  lemma ColumnViewOfReversedCells(m: CellMatrix, before: PayoffMatrix)
    requires |before| == |m| && forall r :: 0 <= r < |m| ==> |before[r]| == |m[r]|
    requires forall r, c :: 0 <= r < |m| && 0 <= c < MinLen(m) ==> m[r][c][..] == Reverse(before[r][c])
    ensures Freeze(Transpose(m)) == ColumnView(before)
  {
    var t := Transpose(m);
    var col := Freeze(t);
    forall c, r | 0 <= c < |col| && 0 <= r < |m|
      ensures col[c][r] == Reverse(before[r][c])
    {
      assert t[c][r] == m[r][c];
    }
    ColumnViewFromCells(m, before, col);
  }

  /** `list.reverse()` on one payoff list. */
  method ReverseCell(cell: Cell)
    modifies cell
    ensures cell[..] == Reverse(old(cell[..]))
  {
    var before := cell[..];
    forall k | 0 <= k < cell.Length {
      cell[k] := before[cell.Length - 1 - k];
    }
  }

  /** The cells of row `i` are cells of `m`, each at one place only, and
      no other row holds one of them. */
  lemma RowCells(m: CellMatrix, i: nat)
    requires DistinctCells(m) && i < |m|
    ensures (set cell | cell in m[i]) <= CellsOf(m)
    ensures forall a, b :: 0 <= a < b < |m[i]| ==> m[i][a] != m[i][b]
    ensures forall r, c :: 0 <= r < |m| && r != i && 0 <= c < |m[r]| ==> m[r][c] !in m[i]
  {
    forall cell | cell in m[i]
      ensures cell in CellsOf(m)
    {
      var c :| 0 <= c < |m[i]| && m[i][c] == cell;
      CellIn(m, i, c);
    }
  }

  /** The inner loop of `__invert_row_col_payoffs_order`: every payoff list
      of one row reversed in place. */
  method ReverseRow(row: seq<Cell>)
    requires forall a, b :: 0 <= a < b < |row| ==> row[a] != row[b]
    modifies set cell | cell in row
    ensures forall c :: 0 <= c < |row| ==> row[c][..] == Reverse(old(row[c][..]))
  {
    for j := 0 to |row|
      invariant forall c :: 0 <= c < j ==> row[c][..] == Reverse(old(row[c][..]))
      invariant forall c :: j <= c < |row| ==> row[c][..] == old(row[c][..])
    {
      ReverseCell(row[j]);
    }
  }

  /** The parsed game description (`self.json_dict`); its payoff lists are
      the only state the factory's methods change. */
  class GameFactoryFromJson {
    const id: int
    const gameType: string
    const payoffMatrix: CellMatrix

    ghost predicate Valid() {
      DistinctCells(payoffMatrix)
    }

    /** Holds an already parsed description (reading the file is not modelled). */
    constructor (id: int, gameType: string, payoffMatrix: CellMatrix)
      requires DistinctCells(payoffMatrix)
      ensures Valid()
      ensures this.id == id && this.gameType == gameType && this.payoffMatrix == payoffMatrix
    {
      this.id := id;
      this.gameType := gameType;
      this.payoffMatrix := payoffMatrix;
    }

    /** `__invert_row_col_payoffs_order`: reverses every payoff list of
        `transposed` in place; no other object changes. */
    method InvertRowColPayoffsOrder(transposed: CellMatrix)
      requires DistinctCells(transposed)
      modifies CellsOf(transposed)
      ensures forall r, c :: 0 <= r < |transposed| && 0 <= c < |transposed[r]| ==>
        transposed[r][c][..] == Reverse(old(transposed[r][c][..]))
    {
      for i := 0 to |transposed|
        invariant forall r, c :: 0 <= r < i && 0 <= c < |transposed[r]| ==>
          transposed[r][c][..] == Reverse(old(transposed[r][c][..]))
        invariant forall r, c :: i <= r < |transposed| && 0 <= c < |transposed[r]| ==>
          transposed[r][c][..] == old(transposed[r][c][..])
      {
        RowCells(transposed, i);
        ReverseRow(transposed[i]);
      }
    }

    /** `_convert_payoff_row_to_col`: returns the column player's view of
        the matrix as it was, and leaves every cell of the first MinLen
        columns of the parsed description reversed. */
    method ConvertPayoffRowToCol() returns (col: PayoffMatrix)
      requires Valid()
      modifies CellsOf(payoffMatrix)
      ensures col == ColumnView(old(Freeze(payoffMatrix)))
      ensures forall r, c :: 0 <= r < |payoffMatrix| && 0 <= c < |payoffMatrix[r]| ==>
        payoffMatrix[r][c][..] ==
          if c < MinLen(payoffMatrix) then Reverse(old(payoffMatrix[r][c][..]))
          else old(payoffMatrix[r][c][..])
    {
      ghost var before := Freeze(payoffMatrix);
      var transposed := Transpose(payoffMatrix);
      TransposeShares(payoffMatrix);
      InvertRowColPayoffsOrder(transposed);
      forall r, c | 0 <= r < |payoffMatrix| && 0 <= c < |payoffMatrix[r]|
        ensures payoffMatrix[r][c][..] ==
          if c < MinLen(payoffMatrix) then Reverse(old(payoffMatrix[r][c][..]))
          else old(payoffMatrix[r][c][..])
      {
        if c < MinLen(payoffMatrix) {
          assert transposed[c][r] == payoffMatrix[r][c];
        }
      }
      ColumnViewOfReversedCells(payoffMatrix, before);
      col := Freeze(transposed);
    }

    /** `create_game`: `payoff_row` is frozen before the conversion reverses
        the shared cells, so the record describes the matrix as parsed. */
    method CreateGame() returns (g: Game)
      requires Valid()
      modifies CellsOf(payoffMatrix)
      ensures g == MakeGame(id, gameType, old(Freeze(payoffMatrix)))
      ensures forall r, c :: 0 <= r < |payoffMatrix| && 0 <= c < |payoffMatrix[r]| ==>
        payoffMatrix[r][c][..] ==
          if c < MinLen(payoffMatrix) then Reverse(old(payoffMatrix[r][c][..]))
          else old(payoffMatrix[r][c][..])
    {
      var payoffRow := Freeze(payoffMatrix);
      var payoffCol := ConvertPayoffRowToCol();
      g := Game(id, gameType, payoffRow == payoffCol, payoffRow, payoffCol);
    }
  }

  /** A factory is spent after one `create_game`: the shared payoff lists of
      its description are reversed, so a second call on a rectangular matrix
      freezes every payoff list reversed. */
  method CreateGameTwice(factory: GameFactoryFromJson, cols: nat) returns (first: Game, second: Game)
    requires factory.Valid()
    requires Rectangular(factory.payoffMatrix, cols) && cols > 0
    modifies CellsOf(factory.payoffMatrix)
    ensures first == MakeGame(factory.id, factory.gameType, old(Freeze(factory.payoffMatrix)))
    ensures second == MakeGame(factory.id, factory.gameType, ReverseCells(first.payoffRow))
  {
    first := factory.CreateGame();
    FrozenAfterReversal(factory.payoffMatrix, first.payoffRow, cols);
    second := factory.CreateGame();
  }

  /** On a rectangular matrix with a column every cell lies in the first
      MinLen columns, so all of them are reversed. */
  lemma FrozenAfterReversal(m: CellMatrix, before: PayoffMatrix, cols: nat)
    requires Rectangular(m, cols) && cols > 0
    requires |before| == |m| && forall r :: 0 <= r < |m| ==> |before[r]| == |m[r]|
    requires forall r, c :: 0 <= r < |m| && 0 <= c < |m[r]| ==>
      m[r][c][..] == if c < MinLen(m) then Reverse(before[r][c]) else before[r][c]
    ensures Freeze(m) == ReverseCells(before)
  {
    if |m| > 0 {
      MinLenRectangular(m, cols);
    }
    MatrixEqual(Freeze(m), ReverseCells(before));
  }
}
