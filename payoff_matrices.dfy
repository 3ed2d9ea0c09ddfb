/** The pure half of src/game/game.py: payoff matrices as immutable nested
    sequences, `zip`-style transposition, the column player's view and the
    frozen `Game` record. */
module PayoffMatrices {

  /** The payoffs of one joint action, indexed by player (row player first). */
  type Payoffs = seq<int>

  /** A frozen payoff matrix, indexed [row action][column action][player]. */
  type PayoffMatrix = seq<seq<Payoffs>>

  /** The immutable record built from one game description. */
  datatype Game = Game(
    id: int,
    gameType: string,
    symmetric: bool,
    payoffRow: PayoffMatrix,
    payoffCol: PayoffMatrix)

  /** The effect of Python's `list.reverse()` on the contents of a list. */
  function Reverse<T>(s: seq<T>): (r: seq<T>)
    ensures |r| == |s|
    ensures forall k {:trigger r[k]} :: 0 <= k < |s| ==> r[k] == s[|s| - 1 - k]
  {
    if s == [] then [] else Reverse(s[1..]) + [s[0]]
  }

  lemma ReverseReverse<T>(s: seq<T>)
    ensures Reverse(Reverse(s)) == s
  {
    assert forall k :: 0 <= k < |s| ==> Reverse(Reverse(s))[k] == s[k];
  }

  /** Every row of `m` has exactly `cols` entries. */
  predicate Rectangular<T>(m: seq<seq<T>>, cols: nat) {
    forall r :: 0 <= r < |m| ==> |m[r]| == cols
  }

  /** As many column actions as row actions in every row. */
  predicate Square<T>(m: seq<seq<T>>) {
    Rectangular(m, |m|)
  }

  /** The length of the shortest row, 0 when there is no row: the number of
      tuples `zip(*m)` produces. */
  function MinLen<T>(m: seq<seq<T>>): (n: nat)
    ensures forall r :: 0 <= r < |m| ==> n <= |m[r]|
    ensures |m| > 0 ==> exists r :: 0 <= r < |m| && n == |m[r]|
    ensures |m| == 0 ==> n == 0
  {
    if |m| == 0 then 0
    else if |m| == 1 then |m[0]|
    else
      var rest := MinLen(m[1..]);
      assert forall r :: 1 <= r < |m| ==> m[1..][r - 1] == m[r];
      if |m[0]| <= rest then |m[0]| else rest
  }

  lemma MinLenRectangular<T>(m: seq<seq<T>>, cols: nat)
    requires Rectangular(m, cols) && |m| > 0
    ensures MinLen(m) == cols
  {
  }

  /** The shortest row depends only on the row lengths. */
  lemma MinLenSameShape<S, T>(a: seq<seq<S>>, b: seq<seq<T>>)
    requires |a| == |b| && forall r :: 0 <= r < |a| ==> |a[r]| == |b[r]|
    ensures MinLen(a) == MinLen(b)
  {
    if |a| > 0 {
      var i :| 0 <= i < |a| && MinLen(a) == |a[i]|;
      var j :| 0 <= j < |b| && MinLen(b) == |b[j]|;
      assert MinLen(a) <= |a[j]| && MinLen(b) <= |b[i]|;
    }
  }

  predicate AllNonEmpty<T>(m: seq<seq<T>>) {
    forall r :: 0 <= r < |m| ==> |m[r]| > 0
  }

  /** The first entry of every row: one tuple drawn by `zip`. */
  function Heads<T>(m: seq<seq<T>>): (h: seq<T>)
    requires AllNonEmpty(m)
    ensures |h| == |m| && forall r :: 0 <= r < |m| ==> h[r] == m[r][0]
  {
    seq(|m|, r requires 0 <= r < |m| => m[r][0])
  }

  /** Every row without its first entry: what `zip` has left to draw. */
  function Tails<T>(m: seq<seq<T>>): (t: seq<seq<T>>)
    requires AllNonEmpty(m)
    ensures |t| == |m| && forall r :: 0 <= r < |m| ==> t[r] == m[r][1..]
  {
    seq(|m|, r requires 0 <= r < |m| => m[r][1..])
  }

  lemma MinLenTails<T>(m: seq<seq<T>>)
    requires |m| > 0 && AllNonEmpty(m)
    ensures MinLen(Tails(m)) == MinLen(m) - 1
  {
    var t := Tails(m);
    var r :| 0 <= r < |m| && MinLen(m) == |m[r]|;
    var q :| 0 <= q < |t| && MinLen(t) == |t[q]|;
    assert MinLen(t) <= |t[r]|;
    assert MinLen(m) <= |m[q]|;
  }

  /** `list(map(list, zip(*m)))`: tuples are drawn while every row still has
      an entry, so the result has as many rows as the shortest row of `m`. */
  function Transpose<T>(m: seq<seq<T>>): (t: seq<seq<T>>)
    ensures |t| == MinLen(m)
    ensures forall c :: 0 <= c < |t| ==> |t[c]| == |m|
    ensures forall c, r {:trigger t[c][r]} :: 0 <= c < |t| && 0 <= r < |m| ==> t[c][r] == m[r][c]
    decreases if m == [] then 0 else |m[0]|
  {
    if m == [] || !AllNonEmpty(m) then
      []
    else
      MinLenTails(m);
      var rest := Transpose(Tails(m));
      assert forall c, r :: 0 <= c < |rest| && 0 <= r < |m| ==> rest[c][r] == Tails(m)[r][c] == m[r][c + 1];
      [Heads(m)] + rest
  }

  /** An R x C matrix with R > 0 transposes to C rows of R entries; with no
      row at all `zip` draws nothing. */
  lemma TransposeRectangular<T>(m: seq<seq<T>>, cols: nat)
    requires Rectangular(m, cols)
    ensures |m| > 0 ==> |Transpose(m)| == cols
    ensures |m| == 0 ==> Transpose(m) == []
    ensures Rectangular(Transpose(m), |m|)
  {
    if |m| > 0 {
      MinLenRectangular(m, cols);
    }
  }

  /** Every payoff list reversed in place, nothing else changed. */
  function ReverseCells(m: PayoffMatrix): (out: PayoffMatrix)
    ensures |out| == |m|
    ensures forall r :: 0 <= r < |m| ==> |out[r]| == |m[r]|
    ensures forall r, c {:trigger out[r][c]} :: 0 <= r < |m| && 0 <= c < |m[r]| ==> out[r][c] == Reverse(m[r][c])
  {
    seq(|m|, r requires 0 <= r < |m| => seq(|m[r]|, c requires 0 <= c < |m[r]| => Reverse(m[r][c])))
  }

  /** The column player's matrix: transpose, then swap every payoff list. */
  function ColumnView(p: PayoffMatrix): (col: PayoffMatrix)
    ensures |col| == MinLen(p)
    ensures forall c :: 0 <= c < |col| ==> |col[c]| == |p|
    ensures forall c, r {:trigger col[c][r]} :: 0 <= c < |col| && 0 <= r < |p| ==> col[c][r] == Reverse(p[r][c])
  {
    ReverseCells(Transpose(p))
  }

  /** An R x C matrix with R > 0 has a C x R view (empty when C is 0). */
  lemma ColumnViewShape(p: PayoffMatrix, cols: nat)
    requires Rectangular(p, cols)
    ensures |p| > 0 ==> |ColumnView(p)| == cols
    ensures Rectangular(ColumnView(p), |p|)
  {
    if |p| > 0 {
      MinLenRectangular(p, cols);
    }
  }

  /** Deriving the column view twice gives back the original matrix. */
  lemma {:induction false} ColumnViewInvolution(p: PayoffMatrix, cols: nat)
    requires Rectangular(p, cols) && cols > 0
    ensures ColumnView(ColumnView(p)) == p
  {
    if |p| > 0 {
      forall r | 0 <= r < |p|
        ensures ColumnView(ColumnView(p))[r] == p[r]
      {
        ColumnViewTwiceRow(p, cols, r);
      }
      SameElements(ColumnView(ColumnView(p)), p);
    }
  }

  lemma ColumnViewTwiceRow(p: PayoffMatrix, cols: nat, r: nat)
    requires Rectangular(p, cols) && cols > 0 && r < |p|
    ensures |ColumnView(ColumnView(p))| == |p|
    ensures r < |ColumnView(ColumnView(p))| && ColumnView(ColumnView(p))[r] == p[r]
  {
    var q := ColumnView(p);
    ColumnViewShape(p, cols);
    MinLenRectangular(q, |p|);
    var back := ColumnView(q);
    forall c | 0 <= c < cols
      ensures back[r][c] == p[r][c]
    {
      ReverseReverse(p[r][c]);
    }
    SameElements(back[r], p[r]);
  }

  lemma SameElements<T>(a: seq<T>, b: seq<T>)
    requires |a| == |b| && forall i :: 0 <= i < |a| ==> a[i] == b[i]
    ensures a == b
  {
  }

  /** Without a column the round trip loses the (empty) rows. */
  lemma ColumnViewInvolutionNeedsAColumn()
    ensures ColumnView(ColumnView([[]])) == []
  {
  }

  /** A jagged matrix is cut down to its shortest row by the round trip. */
  lemma ColumnViewTruncatesJagged()
    ensures ColumnView(ColumnView([[[1, 2], [3, 4]], [[5, 6]]])) == [[[1, 2]], [[5, 6]]]
  {
    ColumnViewOfJagged([1, 2], [3, 4], [5, 6]);
    ReversePair(1, 2);
    ReversePair(5, 6);
    ColumnViewOfRow([2, 1], [6, 5]);
    ReversePair(2, 1);
    ReversePair(6, 5);
  }

  lemma ReversePair(x: int, y: int)
    ensures Reverse([x, y]) == [y, x]
  {
    assert [x, y][1..] == [y];
  }

  /** The column view of a 2 x 2 matrix, entry by entry. */
  lemma ColumnViewOfSquare(a: Payoffs, b: Payoffs, c: Payoffs, d: Payoffs)
    ensures ColumnView([[a, b], [c, d]]) == [[Reverse(a), Reverse(c)], [Reverse(b), Reverse(d)]]
  {
    var p := [[a, b], [c, d]];
    MinLenRectangular(p, 2);
    MatrixEqual(ColumnView(p), [[Reverse(a), Reverse(c)], [Reverse(b), Reverse(d)]]);
  }

  /** The column view of a matrix whose second row is one entry short. */
  lemma ColumnViewOfJagged(a: Payoffs, b: Payoffs, c: Payoffs)
    ensures ColumnView([[a, b], [c]]) == [[Reverse(a), Reverse(c)]]
  {
    var p := [[a, b], [c]];
    assert MinLen(p) == 1;
    MatrixEqual(ColumnView(p), [[Reverse(a), Reverse(c)]]);
  }

  /** The column view of a single row of two entries. */
  lemma ColumnViewOfRow(a: Payoffs, b: Payoffs)
    ensures ColumnView([[a, b]]) == [[Reverse(a)], [Reverse(b)]]
  {
    var p := [[a, b]];
    MinLenRectangular(p, 2);
    MatrixEqual(ColumnView(p), [[Reverse(a)], [Reverse(b)]]);
  }

  /** Two matrices with the same shape and the same payoff lists are equal. */
  lemma MatrixEqual(a: PayoffMatrix, b: PayoffMatrix)
    requires |a| == |b|
    requires forall r :: 0 <= r < |a| ==> |a[r]| == |b[r]|
    requires forall r, c :: 0 <= r < |a| && 0 <= c < |a[r]| ==> a[r][c] == b[r][c]
    ensures a == b
  {
    forall r | 0 <= r < |a|
      ensures a[r] == b[r]
    {
      SameElements(a[r], b[r]);
    }
    SameElements(a, b);
  }

  /** `create_game` without the file: both views and their structural equality. */
  function MakeGame(id: int, gameType: string, payoffRow: PayoffMatrix): (g: Game)
    ensures g.id == id && g.gameType == gameType && g.payoffRow == payoffRow
    ensures g.payoffCol == ColumnView(payoffRow)
    ensures g.symmetric <==> g.payoffRow == g.payoffCol
  {
    var payoffCol := ColumnView(payoffRow);
    Game(id, gameType, payoffRow == payoffCol, payoffRow, payoffCol)
  }

  /** Every payoff list is the reverse of the one at the mirrored position
      of a square matrix: the game looks the same from both seats. */
  predicate Mirrored(p: PayoffMatrix) {
    Square(p) && forall r, c :: 0 <= r < |p| && 0 <= c < |p| ==> p[c][r] == Reverse(p[r][c])
  }

  /** A game is symmetric exactly when its matrix is mirrored. */
  lemma {:induction false} SymmetricIff(id: int, gameType: string, p: PayoffMatrix)
    ensures MakeGame(id, gameType, p).symmetric <==> Mirrored(p)
  {
    if ColumnView(p) == p {
      SymmetricIsMirrored(p);
    }
    if Mirrored(p) {
      MirroredIsSymmetric(p);
    }
  }

  lemma SymmetricIsMirrored(p: PayoffMatrix)
    requires ColumnView(p) == p
    ensures Mirrored(p)
  {
    var col := ColumnView(p);
    assert forall c :: 0 <= c < |p| ==> |p[c]| == |col[c]| == |p|;
  }

  lemma MirroredIsSymmetric(p: PayoffMatrix)
    requires Mirrored(p)
    ensures ColumnView(p) == p
  {
    if |p| > 0 {
      MinLenRectangular(p, |p|);
    }
    MatrixEqual(ColumnView(p), p);
  }

  /** A symmetric game has as many row actions as column actions. */
  lemma SymmetricImpliesSquare(id: int, gameType: string, p: PayoffMatrix)
    requires MakeGame(id, gameType, p).symmetric
    ensures Square(p)
  {
    SymmetricIff(id, gameType, p);
  }

  /** The example in the docstring of `_convert_payoff_row_to_col`. */
  lemma ConvertExample()
    ensures ColumnView([[[1, 2], [3, 4]], [[5, 6], [7, 8]]]) == [[[2, 1], [6, 5]], [[4, 3], [8, 7]]]
  {
    ColumnViewOfSquare([1, 2], [3, 4], [5, 6], [7, 8]);
    ReversePair(1, 2);
    ReversePair(3, 4);
    ReversePair(5, 6);
    ReversePair(7, 8);
  }

  /** The example in the docstring of `__invert_row_col_payoffs_order`. */
  lemma InvertExample()
    ensures ReverseCells([[[1, 2], [2, 3]], [[3, 4], [4, 5]]]) == [[[2, 1], [3, 2]], [[4, 3], [5, 4]]]
  {
    MatrixEqual(ReverseCells([[[1, 2], [2, 3]], [[3, 4], [4, 5]]]), [[[2, 1], [3, 2]], [[4, 3], [5, 4]]]);
  }

  /** An asymmetric game: the column view swaps the first payoff pair. */
  lemma AsymmetricExample()
    ensures !MakeGame(0, "", [[[1, 2], [2, 3]], [[3, 4], [4, 5]]]).symmetric
  {
    ColumnViewOfSquare([1, 2], [2, 3], [3, 4], [4, 5]);
    ReversePair(1, 2);
    assert [2, 1] != [1, 2];
  }

  /** A symmetric game: the prisoner's dilemma. */
  lemma SymmetricExample()
    ensures MakeGame(1, "", [[[3, 3], [0, 5]], [[5, 0], [1, 1]]]).symmetric
  {
    var b: PayoffMatrix := [[[3, 3], [0, 5]], [[5, 0], [1, 1]]];
    assert Reverse(b[0][0]) == b[0][0];
    assert Reverse(b[1][1]) == b[1][1];
    assert Reverse(b[0][1]) == b[1][0];
    assert Reverse(b[1][0]) == b[0][1];
    MirroredIsSymmetric(b);
  }
}
