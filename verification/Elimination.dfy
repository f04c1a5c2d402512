/**
 * The projective map that straightens a photographed screen: Gauss-Jordan elimination with partial
 * pivoting on eight equations, over the reals.
 */
module Elimination {
  datatype Point = Point(x: real, y: real)

  /** Eight coefficients and a right-hand side. */
  type Row = r: seq<real> | |r| == 9 witness seq(9, _ => 0.0)

  type Vector = v: seq<real> | |v| == 9 witness seq(9, _ => 0.0)

  function Abs(x: real): real {
    if x < 0.0 then -x else x
  }

  /** The first n terms of a row applied to a vector. */
  function Dot(row: Row, v: Vector, n: nat): real
    requires n <= 9
  {
    if n == 0 then 0.0 else Dot(row, v, n - 1) + row[n - 1] * v[n - 1]
  }

  /**
   * Every row sends the vector to nothing. With -1 in the last place the rest solves the equations; with
   * 0 there it is a solution of the equations without their right-hand sides.
   */
  ghost predicate Annihilates(m: seq<Row>, v: Vector) {
    forall i :: 0 <= i < |m| ==> Dot(m[i], v, 9) == 0.0
  }

  ghost predicate SameNull(m: seq<Row>, n: seq<Row>) {
    forall v: Vector :: Annihilates(m, v) <==> Annihilates(n, v)
  }

  ghost predicate Solves(m: seq<Row>, c: seq<real>)
    requires |c| == 8
  {
    Annihilates(m, c + [-1.0])
  }

  ghost predicate Zero(v: Vector) {
    forall k :: 0 <= k < 9 ==> v[k] == 0.0
  }

  /** The left-hand sides determine the unknowns. */
  ghost predicate Regular(m: seq<Row>) {
    forall v: Vector :: v[8] == 0.0 && Annihilates(m, v) ==> Zero(v)
  }

  // ----------------------------------------------------- row operations

  /** row - f * lead in the columns from col on. */
  function Subtract(row: Row, f: real, lead: Row, col: nat): Row {
    seq(9, k requires 0 <= k < 9 => if k < col then row[k] else row[k] - f * lead[k])
  }

  lemma Expand(a: real, f: real, b: real, v: real)
    ensures (a - f * b) * v == a * v - f * (b * v)
  {
  }

  lemma {:induction false} SubtractDot(row: Row, f: real, lead: Row, col: nat, v: Vector, n: nat)
    requires n <= 9 && forall k :: 0 <= k < col && k < 9 ==> lead[k] == 0.0
    ensures Dot(Subtract(row, f, lead, col), v, n) == Dot(row, v, n) - f * Dot(lead, v, n)
  {
    if n > 0 {
      SubtractDot(row, f, lead, col, v, n - 1);
      Expand(row[n - 1], f, lead[n - 1], v[n - 1]);
      Distribute(f, Dot(lead, v, n - 1), lead[n - 1] * v[n - 1]);
    }
  }

  lemma Distribute(f: real, a: real, b: real)
    ensures f * (a + b) == f * a + f * b
  {
  }

  lemma SwapKeepsNull(m: seq<Row>, i: nat, j: nat)
    requires i < |m| && j < |m|
    ensures SameNull(m, m[i := m[j]][j := m[i]])
  {
    var n := m[i := m[j]][j := m[i]];
    forall v: Vector ensures Annihilates(m, v) <==> Annihilates(n, v) {
      if Annihilates(m, v) {
        forall k | 0 <= k < |n| ensures Dot(n[k], v, 9) == 0.0 {
          assert n[k] == if k == j then m[i] else if k == i then m[j] else m[k];
        }
      }
      if Annihilates(n, v) {
        assert n[j] == m[i] && (i != j ==> n[i] == m[j]);
        forall k | 0 <= k < |m| ensures Dot(m[k], v, 9) == 0.0 {
          assert k != i && k != j ==> n[k] == m[k];
        }
      }
    }
  }

  // -------------------------------------------------------- elimination

  /** Below the first cols rows, the first cols columns are cleared. */
  predicate Cleared(m: seq<Row>, cols: nat)
    requires cols <= 8
  {
    forall r, j :: cols <= r < |m| && 0 <= j < cols ==> m[r][j] == 0.0
  }

  /** The first cols columns are those of a diagonal matrix with nothing zero on its diagonal. */
  predicate Diagonal(m: seq<Row>, cols: nat)
    requires cols <= 8 && |m| == 8
  {
    forall r, j :: 0 <= r < 8 && 0 <= j < cols ==> (m[r][j] == 0.0 <==> r != j)
  }

  /** A row that meets the vector in at most two places. */
  lemma {:induction false} DotTwo(row: Row, v: Vector, p: nat, q: nat, n: nat)
    requires p < q < 9 && n <= 9
    requires forall k :: 0 <= k < 9 && k != p && k != q ==> row[k] == 0.0 || v[k] == 0.0
    ensures Dot(row, v, n) == (if p < n then row[p] * v[p] else 0.0) + (if q < n then row[q] * v[q] else 0.0)
  {
    if n > 0 {
      DotTwo(row, v, p, q, n - 1);
      if n - 1 != p && n - 1 != q {
        assert row[n - 1] * v[n - 1] == 0.0;
      }
    }
  }

  /** What a vanishing pivot gives away: unknowns that are not all zero, sent to nothing. */
  function Witness(m: seq<Row>, col: nat): Vector
    requires |m| == 8 && col < 8 && Diagonal(m, col)
  {
    seq(9, k requires 0 <= k < 9 => if k < col then -m[k][col] / m[k][k] else if k == col then 1.0 else 0.0)
  }

  lemma Cancels(a: real, b: real)
    requires b != 0.0
    ensures b * (-a / b) + a * 1.0 == 0.0
  {
  }

  lemma Nothing(a: real)
    ensures a * 0.0 == 0.0
  {
  }

  lemma ZeroPivotIsSingular(m: seq<Row>, col: nat)
    requires |m| == 8 && col < 8 && Diagonal(m, col) && Cleared(m, col)
    requires forall r :: col <= r < 8 ==> m[r][col] == 0.0
    ensures Annihilates(m, Witness(m, col)) && !Independent(m, col + 1)
  {
    var v := Witness(m, col);
    forall i | 0 <= i < 8 ensures Dot(m[i], v, 9) == 0.0 {
      if i < col {
        DotTwo(m[i], v, i, col, 9);
        Cancels(m[i][col], m[i][i]);
        assert v[i] == -m[i][col] / m[i][i] && v[col] == 1.0;
      } else {
        DotTwo(m[i], v, col, 8, 9);
        assert m[i][col] == 0.0 && v[8] == 0.0;
        Nothing(m[i][8]);
      }
    }
    assert v[8] == 0.0 && v[col] == 1.0;
  }

  /** The first columns of the left-hand sides determine their unknowns, when the others are nothing. */
  ghost predicate Independent(m: seq<Row>, cols: nat) {
    forall v: Vector :: (forall k :: cols <= k < 9 ==> v[k] == 0.0) && Annihilates(m, v) ==> Zero(v)
  }

  lemma RegularIsIndependent(m: seq<Row>)
    ensures Regular(m) <==> Independent(m, 8)
  {
    if Independent(m, 8) {
      forall v: Vector | v[8] == 0.0 && Annihilates(m, v) ensures Zero(v) {
        assert forall k :: 8 <= k < 9 ==> v[k] == 0.0;
      }
    }
  }

  lemma IndependentStays(m: seq<Row>, n: seq<Row>, cols: nat)
    requires SameNull(m, n) && Independent(m, cols)
    ensures Independent(n, cols)
  {
    forall v: Vector | (forall k :: cols <= k < 9 ==> v[k] == 0.0) && Annihilates(n, v) ensures Zero(v) {
      assert Annihilates(m, v);
    }
  }

  lemma FewerIndependent(m: seq<Row>, cols: nat)
    requires cols < 8 && Independent(m, cols + 1)
    ensures Independent(m, cols)
  {
  }

  lemma NullTrans(a: seq<Row>, b: seq<Row>, c: seq<Row>)
    requires SameNull(a, b) && SameNull(b, c)
    ensures SameNull(a, c)
  {
    forall v: Vector ensures Annihilates(a, v) <==> Annihilates(c, v) {
      assert Annihilates(a, v) <==> Annihilates(b, v);
      assert Annihilates(b, v) <==> Annihilates(c, v);
    }
  }

  /** The code's guard against dividing by nothing. */
  function Divisor(x: real): (d: real)
    ensures d != 0.0
  {
    if x != 0.0 then x else 0.000000000001
  }

  // ------------------------------------------------------------- one column

  /** The first row from col down whose entry in that column is largest, of those before row n. */
  function LargestFrom(m: seq<Row>, col: nat, n: nat): (p: nat)
    requires |m| == 8 && col < n <= 8
    ensures col <= p < n
  {
    if n == col + 1 then col
    else
      var p := LargestFrom(m, col, n - 1);
      if Abs(m[n - 1][col]) > Abs(m[p][col]) then n - 1 else p
  }

  lemma {:induction false} LargestIsFirst(m: seq<Row>, col: nat, n: nat)
    requires |m| == 8 && col < n <= 8
    ensures forall r :: col <= r < n ==> Abs(m[r][col]) <= Abs(m[LargestFrom(m, col, n)][col])
    ensures forall r :: col <= r < LargestFrom(m, col, n) ==> Abs(m[r][col]) < Abs(m[LargestFrom(m, col, n)][col])
  {
    if n > col + 1 { LargestIsFirst(m, col, n - 1); }
  }

  /** The row with the largest entry changes places with row col. */
  function Swapped(m: seq<Row>, col: nat): (s: seq<Row>)
    requires |m| == 8 && col < 8
    ensures |s| == 8
  {
    var p := LargestFrom(m, col, 8);
    m[col := m[p]][p := m[col]]
  }

  /** Column col taken out of every row but its own, with the stand-in for a leading entry that is nothing. */
  function ColumnOut(s: seq<Row>, col: nat): (n: seq<Row>)
    requires |s| == 8 && col < 8
    ensures |n| == 8
  {
    seq(8, r requires 0 <= r < 8 =>
      if r == col then s[r] else Subtract(s[r], s[r][col] / Divisor(s[col][col]), s[col], col))
  }

  function Stepped(m: seq<Row>, col: nat): (n: seq<Row>)
    requires |m| == 8 && col < 8
    ensures |n| == 8
  {
    ColumnOut(Swapped(m, col), col)
  }

  /** The rows after the first columns have been gone through. */
  function Reduced(m: seq<Row>, cols: nat): (n: seq<Row>)
    requires |m| == 8 && cols <= 8
    ensures |n| == 8
  {
    if cols == 0 then m else Stepped(Reduced(m, cols - 1), cols - 1)
  }

  function Coefficients(m: seq<Row>): (c: seq<real>)
    requires |m| == 8
    ensures |c| == 8
  {
    seq(8, i requires 0 <= i < 8 => m[i][8] / Divisor(m[i][i]))
  }

  // ------------------------------------------------------ what a step keeps

  lemma SwappedKeeps(m: seq<Row>, col: nat)
    requires |m| == 8 && col < 8 && Cleared(m, col)
    ensures SameNull(m, Swapped(m, col)) && Cleared(Swapped(m, col), col)
    ensures Diagonal(m, col) ==> Diagonal(Swapped(m, col), col)
    ensures Swapped(m, col)[col][col] == 0.0 ==> forall r :: col <= r < 8 ==> Swapped(m, col)[r][col] == 0.0
  {
    var p := LargestFrom(m, col, 8);
    var s := Swapped(m, col);
    LargestIsFirst(m, col, 8);
    SwapKeepsNull(m, col, p);
    assert forall r :: 0 <= r < 8 ==> s[r] == if r == p then m[col] else if r == col then m[p] else m[r];
    assert forall r :: col <= r < 8 ==> Abs(s[r][col]) <= Abs(s[col][col]);
  }

  lemma FactorClears(a: real, lead: real)
    requires lead != 0.0
    ensures a - a / lead * lead == 0.0
  {
  }

  lemma LessNothing(f: real, a: real)
    requires a == 0.0
    ensures f * a == 0.0
  {
  }

  /** Taking multiples of one row from the others loses and gains no solutions. */
  lemma ColumnKeepsNull(s: seq<Row>, col: nat)
    requires |s| == 8 && col < 8 && Cleared(s, col)
    ensures SameNull(s, ColumnOut(s, col))
  {
    var n := ColumnOut(s, col);
    assert forall k :: 0 <= k < col ==> s[col][k] == 0.0;
    forall v: Vector ensures Annihilates(s, v) <==> Annihilates(n, v) {
      forall r | 0 <= r < 8 && r != col
        ensures Dot(s[col], v, 9) == 0.0 ==> Dot(n[r], v, 9) == Dot(s[r], v, 9)
      {
        var f := s[r][col] / Divisor(s[col][col]);
        SubtractDot(s[r], f, s[col], col, v, 9);
        if Dot(s[col], v, 9) == 0.0 { LessNothing(f, Dot(s[col], v, 9)); }
      }
      assert n[col] == s[col];
    }
  }

  /** What a column's turn leaves: earlier columns as they were, its own cleared when it has a pivot. */
  lemma ColumnCleared(s: seq<Row>, col: nat)
    requires |s| == 8 && col < 8
    ensures var n := ColumnOut(s, col);
            && n[col] == s[col]
            && (forall i, k :: 0 <= i < 8 && 0 <= k < col ==> n[i][k] == s[i][k])
            && (s[col][col] != 0.0 ==> forall i :: 0 <= i < 8 && i != col ==> n[i][col] == 0.0)
            && (s[col][col] == 0.0 ==> forall i :: 0 <= i < 8 ==> n[i][col] == s[i][col])
  {
    forall i | 0 <= i < 8 && i != col
      ensures s[col][col] != 0.0 ==> ColumnOut(s, col)[i][col] == 0.0
      ensures s[col][col] == 0.0 ==> ColumnOut(s, col)[i][col] == s[i][col]
    {
      var f := s[i][col] / Divisor(s[col][col]);
      assert ColumnOut(s, col)[i][col] == s[i][col] - f * s[col][col];
      if s[col][col] != 0.0 { FactorClears(s[i][col], s[col][col]); } else { LessNothing(f, s[col][col]); }
    }
  }

  lemma SteppedKeeps(m: seq<Row>, col: nat)
    requires |m| == 8 && col < 8 && Cleared(m, col)
    ensures SameNull(m, Stepped(m, col)) && Cleared(Stepped(m, col), col + 1)
    ensures Diagonal(m, col) && Independent(m, col + 1) ==> Diagonal(Stepped(m, col), col + 1)
  {
    var s := Swapped(m, col);
    SwappedKeeps(m, col);
    ColumnKeepsNull(s, col);
    NullTrans(m, s, Stepped(m, col));
    ColumnCleared(s, col);
    if Diagonal(m, col) && Independent(m, col + 1) {
      IndependentStays(m, s, col + 1);
      if s[col][col] == 0.0 { ZeroPivotIsSingular(s, col); }
    }
  }

  /**
   * Column by column the solutions stay; and as far as the left-hand sides' first columns are independent,
   * those end up diagonal.
   */
  lemma {:induction false} ReducedKeeps(m: seq<Row>, cols: nat)
    requires |m| == 8 && cols <= 8
    ensures SameNull(m, Reduced(m, cols)) && Cleared(Reduced(m, cols), cols)
    ensures Independent(m, cols) ==> Diagonal(Reduced(m, cols), cols)
  {
    if cols > 0 {
      var n := Reduced(m, cols - 1);
      ReducedKeeps(m, cols - 1);
      SteppedKeeps(n, cols - 1);
      NullTrans(m, n, Reduced(m, cols));
      if Independent(m, cols) {
        FewerIndependent(m, cols - 1);
        IndependentStays(m, n, cols);
      }
    }
  }

  // ---------------------------------------------------------------- methods

  method FindPivot(rows: array<Row>, col: nat) returns (pivot: nat)
    requires rows.Length == 8 && col < 8
    ensures pivot == LargestFrom(rows[..], col, 8)
  {
    pivot := col;
    for r := col + 1 to 8
      invariant pivot == LargestFrom(rows[..], col, r)
    {
      if Abs(rows[r][col]) > Abs(rows[pivot][col]) {
        pivot := r;
      }
    }
  }

  /** One entry at a time, a multiple of the leading row is taken from row r. */
  method SubtractRow(rows: array<Row>, r: nat, col: nat, factor: real)
    requires rows.Length == 8 && r < 8 && col < 8 && r != col
    modifies rows
    ensures rows[..] == old(rows[..])[r := Subtract(old(rows[r]), factor, old(rows[col]), col)]
  {
    for k := col to 9
      invariant forall i :: 0 <= i < 8 && i != r ==> rows[i] == old(rows[i])
      invariant forall j :: 0 <= j < 9 ==>
        rows[r][j] == if col <= j < k then old(rows[r])[j] - factor * old(rows[col])[j] else old(rows[r])[j]
    {
      rows[r] := rows[r][k := rows[r][k] - factor * rows[col][k]];
    }
    ghost var row := Subtract(old(rows[r]), factor, old(rows[col]), col);
    assert forall j :: 0 <= j < 9 ==> rows[r][j] == row[j];
    assert rows[r] == row;
  }

  method EliminateColumn(rows: array<Row>, col: nat)
    requires rows.Length == 8 && col < 8
    modifies rows
    ensures rows[..] == ColumnOut(old(rows[..]), col)
  {
    ghost var s := rows[..];
    var lead := Divisor(rows[col][col]);
    for r := 0 to 8
      invariant forall i :: 0 <= i < 8 ==> rows[i] == if i < r then ColumnOut(s, col)[i] else s[i]
    {
      if r == col {
        continue;
      }
      var factor := rows[r][col] / lead;
      SubtractRow(rows, r, col, factor);
    }
  }

  method Pivot(rows: array<Row>, col: nat)
    requires rows.Length == 8 && col < 8
    modifies rows
    ensures rows[..] == Swapped(old(rows[..]), col)
  {
    var pivot := FindPivot(rows, col);
    rows[col], rows[pivot] := rows[pivot], rows[col];
  }

  method Reduce(rows: array<Row>)
    requires rows.Length == 8
    modifies rows
    ensures rows[..] == Reduced(old(rows[..]), 8)
  {
    for col := 0 to 8
      invariant rows[..] == Reduced(old(rows[..]), col)
    {
      Pivot(rows, col);
      EliminateColumn(rows, col);
    }
  }

  // -------------------------------------------------------------- equations

  function EquationX(p: Point, q: Point): Row {
    [p.x, p.y, 1.0, 0.0, 0.0, 0.0, -p.x * q.x, -p.y * q.x, q.x]
  }

  function EquationY(p: Point, q: Point): Row {
    [0.0, 0.0, 0.0, p.x, p.y, 1.0, -p.x * q.y, -p.y * q.y, q.y]
  }

  /** Two equations for each pair of corners. */
  function Equations(from: seq<Point>, to: seq<Point>): seq<Row>
    requires |from| == 4 && |to| == 4
  {
    seq(8, i requires 0 <= i < 8 =>
      if i % 2 == 0 then EquationX(from[i / 2], to[i / 2]) else EquationY(from[i / 2], to[i / 2]))
  }

  /** The coefficients [a, b, c, d, e, f, g, h] the elimination comes to. */
  function HomographyOf(from: seq<Point>, to: seq<Point>): (c: seq<real>)
    requires |from| == 4 && |to| == 4
    ensures |c| == 8
  {
    Coefficients(Reduced(Equations(from, to), 8))
  }

  method Homography(from: seq<Point>, to: seq<Point>) returns (map_: seq<real>)
    requires |from| == 4 && |to| == 4
    ensures map_ == HomographyOf(from, to)
  {
    var rows := BuildRows(from, to);
    Reduce(rows);
    map_ := seq(8, i requires 0 <= i < 8 reads rows => rows[i][8] / Divisor(rows[i][i]));
    assert map_ == Coefficients(rows[..]);
  }

  /** They solve the equations whenever these determine them. */
  lemma HomographySolves(from: seq<Point>, to: seq<Point>)
    requires |from| == 4 && |to| == 4 && Regular(Equations(from, to))
    ensures Solves(Equations(from, to), HomographyOf(from, to))
  {
    var m := Equations(from, to);
    RegularIsIndependent(m);
    ReducedKeeps(m, 8);
    DiagonalIsSolved(Reduced(m, 8));
    assert Annihilates(m, HomographyOf(from, to) + [-1.0]);
  }

  method BuildRows(from: seq<Point>, to: seq<Point>) returns (rows: array<Row>)
    requires |from| == 4 && |to| == 4
    ensures fresh(rows) && rows[..] == Equations(from, to)
  {
    rows := new Row[8];
    for i := 0 to 4
      invariant forall j :: 0 <= j < i ==>
        rows[2 * j] == EquationX(from[j], to[j]) && rows[2 * j + 1] == EquationY(from[j], to[j])
    {
      rows[2 * i] := EquationX(from[i], to[i]);
      rows[2 * i + 1] := EquationY(from[i], to[i]);
    }
    forall j | 0 <= j < 8 ensures rows[j] == Equations(from, to)[j] {
      assert j == 2 * (j / 2) || j == 2 * (j / 2) + 1;
    }
  }

  lemma DiagonalIsSolved(m: seq<Row>)
    requires |m| == 8 && Diagonal(m, 8)
    ensures Solves(m, Coefficients(m))
  {
    var v: Vector := Coefficients(m) + [-1.0];
    forall i | 0 <= i < 8 ensures Dot(m[i], v, 9) == 0.0 {
      DotTwo(m[i], v, i, 8, 9);
      Quotient(m[i][8], m[i][i]);
    }
  }

  lemma Quotient(a: real, b: real)
    requires b != 0.0
    ensures b * (a / b) + a * -1.0 == 0.0
  {
  }
}
