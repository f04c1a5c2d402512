/**
 * Quads whose four corners are in one line: the equations may still be solvable, and what the elimination
 * then comes to decides whether the corners are reached.
 */
module Collinear {
  import opened Elimination
  import opened Straighten
  import opened Quads

  // --------------------------------------------- the first six columns

  function Less(a: Row, b: Row): (r: Row)
    ensures forall k :: 0 <= k < 9 ==> r[k] == a[k] - b[k]
  {
    seq(9, k requires 0 <= k < 9 => a[k] - b[k])
  }

  /** All entries from row col down are nothing or the same, the first of these in row p. */
  predicate PivotAt(m: seq<Row>, col: nat, p: nat)
    requires |m| == 8 && col <= p < 8
  {
    && m[p][col] != 0.0
    && (forall r :: col <= r < 8 ==> m[r][col] == 0.0 || m[r][col] == m[p][col])
    && (forall r :: col <= r < p ==> m[r][col] == 0.0)
  }

  lemma PivotIs(m: seq<Row>, col: nat, p: nat)
    requires |m| == 8 && col <= p < 8 && PivotAt(m, col, p)
    ensures LargestFrom(m, col, 8) == p
  {
    LargestIsFirst(m, col, 8);
    var q := LargestFrom(m, col, 8);
    assert Abs(m[p][col]) <= Abs(m[q][col]);
    assert m[q][col] == m[p][col];
  }

  lemma Whole(a: real)
    requires a != 0.0
    ensures a / a == 1.0
  {
  }

  /** A row below the pivot stays, or has the pivot's row taken from it once. */
  lemma RowAfter(m: seq<Row>, col: nat, p: nat, r: nat)
    requires |m| == 8 && col <= p < 8 && col < r < 8 && PivotAt(m, col, p) && Cleared(m, col)
    ensures var was := if r == p then m[col] else m[r];
            Stepped(m, col)[r] == if was[col] == 0.0 then was else Less(was, m[p])
  {
    PivotIs(m, col, p);
    var s := Swapped(m, col);
    var was := if r == p then m[col] else m[r];
    assert s[r] == was && s[col] == m[p];
    var f := was[col] / Divisor(m[p][col]);
    var n := Stepped(m, col)[r];
    assert n == Subtract(was, f, m[p], col);
    forall k | 0 <= k < 9 ensures n[k] == if was[col] == 0.0 then was[k] else was[k] - m[p][k] {
      if was[col] == 0.0 {
        assert f == 0.0;
      } else {
        assert was[col] == m[p][col];
        Whole(m[p][col]);
      }
    }
    assert n == if was[col] == 0.0 then was else Less(was, m[p]);
  }

  /** The eight equations from a rectangle. */
  function RectangleRows(width: real, height: real, quad: seq<Point>): (m: seq<Row>)
    requires |quad| == 4
    ensures |m| == 8
  {
    Equations(Rectangle(width, height), quad)
  }

  /** Their entries in the six columns before those of g and h. */
  predicate FirstSix(m: seq<Row>, width: real, height: real)
    requires |m| == 8
  {
    && Six(m[0], 0.0, 0.0, 1.0, 0.0, 0.0, 0.0) && Six(m[1], 0.0, 0.0, 0.0, 0.0, 0.0, 1.0)
    && Six(m[2], width, 0.0, 1.0, 0.0, 0.0, 0.0) && Six(m[3], 0.0, 0.0, 0.0, width, 0.0, 1.0)
    && Six(m[4], width, height, 1.0, 0.0, 0.0, 0.0) && Six(m[5], 0.0, 0.0, 0.0, width, height, 1.0)
    && Six(m[6], 0.0, height, 1.0, 0.0, 0.0, 0.0) && Six(m[7], 0.0, 0.0, 0.0, 0.0, height, 1.0)
  }

  predicate Six(r: Row, a: real, b: real, c: real, d: real, e: real, f: real) {
    r[0] == a && r[1] == b && r[2] == c && r[3] == d && r[4] == e && r[5] == f
  }

  lemma RectangleSix(width: real, height: real, quad: seq<Point>)
    requires |quad| == 4
    ensures FirstSix(RectangleRows(width, height, quad), width, height)
  {
  }

  /** What is left below the first columns, as differences of the rows begun with. */
  predicate Left1(n: seq<Row>, m: seq<Row>)
    requires |n| == 8 && |m| == 8
  {
    n[1] == m[1] && n[2] == m[0] && n[3] == m[3] && n[4] == Less(m[4], m[2]) && n[5] == m[5] && n[6] == m[6] && n[7] == m[7]
  }

  predicate Left2(n: seq<Row>, m: seq<Row>)
    requires |n| == 8 && |m| == 8
  {
    && n[2] == m[0] && n[3] == m[3] && n[4] == m[1] && n[5] == m[5] && n[6] == Less(m[6], Less(m[4], m[2])) && n[7] == m[7]
  }

  predicate Left3(n: seq<Row>, m: seq<Row>)
    requires |n| == 8 && |m| == 8
  {
    n[3] == m[3] && n[4] == m[1] && n[5] == m[5] && n[6] == LastX(m) && n[7] == m[7]
  }

  predicate Left4(n: seq<Row>, m: seq<Row>)
    requires |n| == 8 && |m| == 8
  {
    n[4] == m[1] && n[5] == Less(m[5], m[3]) && n[6] == LastX(m) && n[7] == m[7]
  }

  predicate Left5(n: seq<Row>, m: seq<Row>)
    requires |n| == 8 && |m| == 8
  {
    n[5] == m[1] && n[6] == LastX(m) && n[7] == Less(m[7], Less(m[5], m[3]))
  }

  /** The two rows that are left for g and h. */
  function LastX(m: seq<Row>): Row
    requires |m| == 8
  {
    Less(Less(m[6], Less(m[4], m[2])), m[0])
  }

  function LastY(m: seq<Row>): Row
    requires |m| == 8
  {
    Less(Less(m[7], Less(m[5], m[3])), m[1])
  }

  lemma FirstThree(m: seq<Row>, width: real, height: real)
    requires |m| == 8 && width > 0.0 && height > 0.0 && FirstSix(m, width, height)
    ensures Left1(Reduced(m, 1), m) && Left2(Reduced(m, 2), m) && Left3(Reduced(m, 3), m)
  {
    ReducedKeeps(m, 1);
    ReducedKeeps(m, 2);
    assert Reduced(m, 0) == m;
    Column1(m, width, height);
    Column2(m, Reduced(m, 1), width, height);
    Column3(m, Reduced(m, 2), width, height);
  }

  lemma Column1(m: seq<Row>, width: real, height: real)
    requires |m| == 8 && width > 0.0 && FirstSix(m, width, height)
    ensures Left1(Stepped(m, 0), m)
  {
    assert PivotAt(m, 0, 2);
    forall r | 1 <= r < 8
      ensures Stepped(m, 0)[r] == var was := if r == 2 then m[0] else m[r]; if was[0] == 0.0 then was else Less(was, m[2])
    {
      RowAfter(m, 0, 2, r);
    }
  }

  lemma Column2(m: seq<Row>, n: seq<Row>, width: real, height: real)
    requires |m| == 8 && |n| == 8 && height > 0.0 && FirstSix(m, width, height) && Left1(n, m) && Cleared(n, 1)
    ensures Left2(Stepped(n, 1), m)
  {
    assert PivotAt(n, 1, 4);
    forall r | 2 <= r < 8
      ensures Stepped(n, 1)[r] == var was := if r == 4 then n[1] else n[r]; if was[1] == 0.0 then was else Less(was, n[4])
    {
      RowAfter(n, 1, 4, r);
    }
  }

  lemma Column3(m: seq<Row>, n: seq<Row>, width: real, height: real)
    requires |m| == 8 && |n| == 8 && FirstSix(m, width, height) && Left2(n, m) && Cleared(n, 2)
    ensures Left3(Stepped(n, 2), m)
  {
    assert PivotAt(n, 2, 2);
    forall r | 3 <= r < 8 ensures Stepped(n, 2)[r] == if n[r][2] == 0.0 then n[r] else Less(n[r], n[2]) {
      RowAfter(n, 2, 2, r);
    }
  }

  lemma Column4(m: seq<Row>, n: seq<Row>, width: real, height: real)
    requires |m| == 8 && |n| == 8 && width > 0.0 && FirstSix(m, width, height) && Left3(n, m) && Cleared(n, 3)
    ensures Left4(Stepped(n, 3), m)
  {
    assert PivotAt(n, 3, 3);
    forall r | 4 <= r < 8 ensures Stepped(n, 3)[r] == if n[r][3] == 0.0 then n[r] else Less(n[r], n[3]) {
      RowAfter(n, 3, 3, r);
    }
  }

  lemma Column5(m: seq<Row>, n: seq<Row>, width: real, height: real)
    requires |m| == 8 && |n| == 8 && height > 0.0 && FirstSix(m, width, height) && Left4(n, m) && Cleared(n, 4)
    ensures Left5(Stepped(n, 4), m)
  {
    assert PivotAt(n, 4, 5);
    forall r | 5 <= r < 8
      ensures Stepped(n, 4)[r] == var was := if r == 5 then n[4] else n[r]; if was[4] == 0.0 then was else Less(was, n[5])
    {
      RowAfter(n, 4, 5, r);
    }
  }

  lemma Column6(m: seq<Row>, n: seq<Row>, width: real, height: real)
    requires |m| == 8 && |n| == 8 && FirstSix(m, width, height) && Left5(n, m) && Cleared(n, 5)
    ensures Stepped(n, 5)[6] == LastX(m) && Stepped(n, 5)[7] == LastY(m)
  {
    assert PivotAt(n, 5, 5);
    RowAfter(n, 5, 5, 6);
    RowAfter(n, 5, 5, 7);
  }

  /** After six columns the rows left for g and h are known, whatever the quad. */
  lemma SixColumns(width: real, height: real, quad: seq<Point>)
    requires |quad| == 4 && width > 0.0 && height > 0.0
    ensures var m := RectangleRows(width, height, quad); Reduced(m, 6)[6] == LastX(m) && Reduced(m, 6)[7] == LastY(m)
  {
    var m := RectangleRows(width, height, quad);
    RectangleSix(width, height, quad);
    FirstThree(m, width, height);
    ReducedKeeps(m, 3);
    ReducedKeeps(m, 4);
    ReducedKeeps(m, 5);
    Column4(m, Reduced(m, 3), width, height);
    Column5(m, Reduced(m, 4), width, height);
    Column6(m, Reduced(m, 5), width, height);
  }

  predicate Rest(r: Row, g: real, h: real, k: real) {
    r[6] == g && r[7] == h && r[8] == k
  }

  lemma RestOfX(width: real, height: real, quad: seq<Point>)
    requires |quad| == 4
    ensures var m := RectangleRows(width, height, quad);
            && Rest(m[0], 0.0, 0.0, quad[0].x) && Rest(m[2], -width * quad[1].x, 0.0, quad[1].x)
            && Rest(m[4], -width * quad[2].x, -height * quad[2].x, quad[2].x)
            && Rest(m[6], 0.0, -height * quad[3].x, quad[3].x)
  {
  }

  lemma RestOfY(width: real, height: real, quad: seq<Point>)
    requires |quad| == 4
    ensures var m := RectangleRows(width, height, quad);
            && Rest(m[1], 0.0, 0.0, quad[0].y) && Rest(m[3], -width * quad[1].y, 0.0, quad[1].y)
            && Rest(m[5], -width * quad[2].y, -height * quad[2].y, quad[2].y)
            && Rest(m[7], 0.0, -height * quad[3].y, quad[3].y)
  {
  }

  lemma Apart(w: real, a: real, b: real)
    ensures -(-w * a - -w * b) == w * (a - b)
  {
  }

  /** Three differences of the rows of one coordinate. */
  lemma RestLeft(r0: Row, r1: Row, r2: Row, r3: Row, width: real, height: real, q0: real, q1: real, q2: real, q3: real)
    requires Rest(r0, 0.0, 0.0, q0) && Rest(r1, -width * q1, 0.0, q1)
    requires Rest(r2, -width * q2, -height * q2, q2) && Rest(r3, 0.0, -height * q3, q3)
    ensures Rest(Less(Less(r3, Less(r2, r1)), r0), width * (q2 - q1), height * (q2 - q3), q3 - q2 + q1 - q0)
  {
    Apart(width, q2, q1);
    Apart(height, q2, q3);
  }

  /** What is left for g and h, by the sides of the quad. */
  lemma LastRows(width: real, height: real, quad: seq<Point>)
    requires |quad| == 4
    ensures var m := RectangleRows(width, height, quad);
            && Rest(LastX(m), width * (quad[2].x - quad[1].x), height * (quad[2].x - quad[3].x),
                    quad[3].x - quad[2].x + quad[1].x - quad[0].x)
            && Rest(LastY(m), width * (quad[2].y - quad[1].y), height * (quad[2].y - quad[3].y),
                    quad[3].y - quad[2].y + quad[1].y - quad[0].y)
  {
    var m := RectangleRows(width, height, quad);
    RestOfX(width, height, quad);
    RestOfY(width, height, quad);
    RestLeft(m[0], m[2], m[4], m[6], width, height, quad[0].x, quad[1].x, quad[2].x, quad[3].x);
    RestLeft(m[1], m[3], m[5], m[7], width, height, quad[0].y, quad[1].y, quad[2].y, quad[3].y);
  }

  // --------------------------------------------------- solving and reaching

  /** Coefficients that reach the corners solve the equations; the other way round the map must be defined there. */
  lemma ReachedIsSolved(c: seq<real>, from: seq<Point>, to: seq<Point>)
    requires |c| == 8 && |from| == 4 && |to| == 4
    ensures ReachesAll(c, from, to) <==>
      Solves(Equations(from, to), c) && forall i :: 0 <= i < 4 ==> Denominator(c, from[i]) != 0.0
  {
    if ReachesAll(c, from, to) { ReachingSolves(c, from, to); }
    if Solves(Equations(from, to), c) && forall i :: 0 <= i < 4 ==> Denominator(c, from[i]) != 0.0 {
      forall i | 0 <= i < 4 ensures MapPoint(c, from[i]) == to[i] {
        SolutionMapsCorners(from, to, c, i);
      }
    }
  }

  lemma ReachingSolves(c: seq<real>, from: seq<Point>, to: seq<Point>)
    requires |c| == 8 && |from| == 4 && |to| == 4 && ReachesAll(c, from, to)
    ensures Solves(Equations(from, to), c)
  {
    var v: Vector := c + [-1.0];
    AnnihilatesMeets(from, to, v);
    forall i | 0 <= i < 4 ensures Meets(v, from[i], to[i]) {
      Numerators(c, from[i], to[i]);
    }
  }

  lemma FourDefined(c: seq<real>, width: real, height: real)
    requires |c| == 8
    ensures (forall i :: 0 <= i < 4 ==> Denominator(c, Rectangle(width, height)[i]) != 0.0) <==>
      Corner1(c, width) != 0.0 && Corner2(c, width, height) != 0.0 && Corner3(c, height) != 0.0
  {
    CornerDenominators(c, width, height);
    var r := Rectangle(width, height);
    if Corner1(c, width) != 0.0 && Corner2(c, width, height) != 0.0 && Corner3(c, height) != 0.0 {
      forall i | 0 <= i < 4 ensures Denominator(c, r[i]) != 0.0 {
        assert i == 0 || i == 1 || i == 2 || i == 3;
      }
    } else {
      assert Denominator(c, r[1]) == 0.0 || Denominator(c, r[2]) == 0.0 || Denominator(c, r[3]) == 0.0;
    }
  }

  lemma SolvedWeighs(c: seq<real>, width: real, height: real, quad: seq<Point>)
    requires |c| == 8 && |quad| == 4 && Solves(RectangleRows(width, height, quad), c)
    ensures var (d1, d2, d3) := (Corner1(c, width), Corner2(c, width, height), Corner3(c, height));
            && quad[0].x + quad[2].x * d2 == quad[1].x * d1 + quad[3].x * d3
            && quad[0].y + quad[2].y * d2 == quad[1].y * d1 + quad[3].y * d3
  {
    var (d1, d2, d3) := (Corner1(c, width), Corner2(c, width, height), Corner3(c, height));
    SolvedNumerators(c, width, height, quad);
    Opposite(c[2], c[0] * width, c[1] * height, quad[0].x, quad[1].x * d1, quad[2].x * d2, quad[3].x * d3);
    Opposite(c[5], c[3] * width, c[4] * height, quad[0].y, quad[1].y * d1, quad[2].y * d2, quad[3].y * d3);
  }

  lemma SolvedNumerators(c: seq<real>, width: real, height: real, quad: seq<Point>)
    requires |c| == 8 && |quad| == 4 && Solves(RectangleRows(width, height, quad), c)
    ensures Reaches(c[2], c[5], quad[0], 1.0)
    ensures Reaches(c[0] * width + c[2], c[3] * width + c[5], quad[1], Corner1(c, width))
    ensures Reaches(c[0] * width + c[1] * height + c[2], c[3] * width + c[4] * height + c[5], quad[2], Corner2(c, width, height))
    ensures Reaches(c[1] * height + c[2], c[4] * height + c[5], quad[3], Corner3(c, height))
  {
    var v: Vector := c + [-1.0];
    AnnihilatesMeets(Rectangle(width, height), quad, v);
    RectangleEquations(v, width, height, quad);
    assert RectangleMeets(v, width, height, quad);
    assert v[8] == -1.0 && v[6] == c[6] && v[7] == c[7];
    assert Corner2(c, width, height) == c[6] * width + c[7] * height - v[8];
  }

  // ------------------------------------------------- independent columns

  lemma SixIndependent(width: real, height: real, quad: seq<Point>)
    requires |quad| == 4 && width > 0.0 && height > 0.0
    ensures Independent(RectangleRows(width, height, quad), 6)
  {
    forall v: Vector | (forall k :: 6 <= k < 9 ==> v[k] == 0.0) && Annihilates(RectangleRows(width, height, quad), v)
      ensures Zero(v)
    {
      SixVanish(v, width, height, quad);
    }
  }

  lemma SixVanish(v: Vector, width: real, height: real, quad: seq<Point>)
    requires |quad| == 4 && width > 0.0 && height > 0.0 && v[6] == 0.0 && v[7] == 0.0 && v[8] == 0.0
    requires Annihilates(RectangleRows(width, height, quad), v)
    ensures Zero(v)
  {
    AnnihilatesMeets(Rectangle(width, height), quad, v);
    RectangleEquations(v, width, height, quad);
    assert v[6] * width - v[8] == 0.0 && v[7] * height - v[8] == 0.0;
    Nothing(quad[0].x);
    Nothing(quad[0].y);
    Nothing(quad[1].x);
    Nothing(quad[1].y);
    Nothing(quad[3].x);
    Nothing(quad[3].y);
    assert v[2] == 0.0 && v[5] == 0.0;
    NoProduct(v[0], width);
    NoProduct(v[3], width);
    NoProduct(v[1], height);
    NoProduct(v[4], height);
  }

  lemma SevenIndependent(width: real, height: real, quad: seq<Point>)
    requires |quad| == 4 && width > 0.0 && height > 0.0 && quad[1] != quad[2]
    ensures Independent(RectangleRows(width, height, quad), 7)
  {
    forall v: Vector | (forall k :: 7 <= k < 9 ==> v[k] == 0.0) && Annihilates(RectangleRows(width, height, quad), v)
      ensures Zero(v)
    {
      GVanishes(v, width, height, quad);
      SixVanish(v, width, height, quad);
    }
  }

  lemma GVanishes(v: Vector, width: real, height: real, quad: seq<Point>)
    requires |quad| == 4 && width > 0.0 && height > 0.0 && v[7] == 0.0 && v[8] == 0.0 && quad[1] != quad[2]
    requires Annihilates(RectangleRows(width, height, quad), v)
    ensures v[6] == 0.0
  {
    AnnihilatesMeets(Rectangle(width, height), quad, v);
    RectangleEquations(v, width, height, quad);
    var gw := v[6] * width;
    assert v[7] * height == 0.0;
    Nothing(quad[0].x);
    Nothing(quad[0].y);
    Nothing(quad[3].x);
    Nothing(quad[3].y);
    assert v[2] == 0.0 && v[5] == 0.0 && v[1] * height == 0.0 && v[4] * height == 0.0;
    assert v[0] * width == quad[1].x * gw && v[0] * width == quad[2].x * gw;
    assert v[3] * width == quad[1].y * gw && v[3] * width == quad[2].y * gw;
    SameTimes(quad[1].x, quad[2].x, gw);
    SameTimes(quad[1].y, quad[2].y, gw);
    NoProduct(v[6], width);
  }

  lemma SameTimes(a: real, b: real, g: real)
    requires a * g == b * g
    ensures a == b || g == 0.0
  {
    if g != 0.0 {
      assert (a - b) * g == 0.0;
      NoProduct(a - b, g);
    }
  }

  // ------------------------------------------------------ the last columns

  /** A column that is nothing from its own row down leaves rows as they are in every earlier column. */
  lemma NoPivot(m: seq<Row>, col: nat)
    requires |m| == 8 && col < 8 && Cleared(m, col) && forall r :: col <= r < 8 ==> m[r][col] == 0.0
    ensures LargestFrom(m, col, 8) == col && Swapped(m, col) == m
    ensures forall r :: col <= r < 8 ==> Stepped(m, col)[r] == m[r]
  {
    LargestIsFirst(m, col, 8);
    assert Swapped(m, col) == m;
    forall r | col <= r < 8 ensures Stepped(m, col)[r] == m[r] {
      if r != col { NothingTaken(m[r], m[col], col, Divisor(m[col][col])); }
    }
  }

  lemma NothingTaken(row: Row, lead: Row, col: nat, d: real)
    requires col < 9 && row[col] == 0.0 && d != 0.0
    ensures Subtract(row, row[col] / d, lead, col) == row
  {
    var f := row[col] / d;
    assert f == 0.0;
    forall k | 0 <= k < 9 ensures Subtract(row, f, lead, col)[k] == row[k] {
    }
  }

  /** The last row is its own pivot. */
  lemma LastPivot(m: seq<Row>)
    requires |m| == 8
    ensures LargestFrom(m, 7, 8) == 7 && Swapped(m, 7) == m && Stepped(m, 7) == ColumnOut(m, 7) && Stepped(m, 7)[7] == m[7]
  {
    assert Swapped(m, 7) == m;
  }

  /** The first columns of the rows are those of a diagonal matrix with nothing zero on its diagonal, and stay so. */
  lemma DiagonalStays(m: seq<Row>, cols: nat, col: nat)
    requires |m| == 8 && cols <= col < 8 && Diagonal(m, cols) && Cleared(m, cols) && Swapped(m, col) == m
    ensures Diagonal(Stepped(m, col), cols)
  {
    ColumnCleared(m, col);
  }

  /** A row of the last matrix with its own unknown is solved when the free unknowns are nothing. */
  lemma RowSolved(m: seq<Row>, i: nat)
    requires |m| == 8 && i < 8 && m[i][i] != 0.0
    requires forall k :: 0 <= k < 8 && k != i ==> m[i][k] == 0.0 || Coefficients(m)[k] == 0.0
    ensures Dot(m[i], Coefficients(m) + [-1.0], 9) == 0.0
  {
    var v: Vector := Coefficients(m) + [-1.0];
    DotTwo(m[i], v, i, 8, 9);
    Quotient(m[i][8], m[i][i]);
  }

  lemma RowOfNothing(m: seq<Row>, i: nat, c: seq<real>)
    requires |m| == 8 && i < 8 && |c| == 8
    requires forall k :: 0 <= k < 8 ==> m[i][k] == 0.0 || c[k] == 0.0
    ensures Dot(m[i], c + [-1.0], 9) == -m[i][8]
  {
    DotTwo(m[i], c + [-1.0], 0, 8, 9);
  }

  lemma FreeIsNothing(m: seq<Row>, i: nat)
    requires |m| == 8 && i < 8 && m[i][8] == 0.0
    ensures Coefficients(m)[i] == 0.0
  {
  }

  // ------------------------------- in one line, the right edge not a point

  /** With seven columns independent and the equations solvable but undetermined: solved, with h nothing. */
  lemma SevenSolves(m: seq<Row>, x: seq<real>)
    requires |m| == 8 && |x| == 8 && Solves(m, x) && Independent(m, 7) && !Regular(m)
    ensures Solves(m, Coefficients(Reduced(m, 8))) && Coefficients(Reduced(m, 8))[7] == 0.0
  {
    var (n, last) := (Reduced(m, 7), Reduced(m, 8));
    ReducedKeeps(m, 7);
    ReducedKeeps(m, 8);
    LastPivot(n);
    ColumnCleared(n, 7);
    DiagonalStays(n, 7, 7);
    LastIsNothing(m, n, x);
    assert last[7] == n[7];
    FreeIsNothing(last, 7);
    forall i | 0 <= i < 8 ensures Dot(last[i], Coefficients(last) + [-1.0], 9) == 0.0 {
      if i < 7 {
        RowSolved(last, i);
      } else {
        RowOfNothing(last, 7, Coefficients(last));
      }
    }
    assert Annihilates(last, Coefficients(last) + [-1.0]);
  }

  lemma LastIsNothing(m: seq<Row>, n: seq<Row>, x: seq<real>)
    requires |m| == 8 && |n| == 8 && |x| == 8 && Solves(m, x) && !Regular(m)
    requires SameNull(m, n) && Diagonal(n, 7) && Cleared(n, 7)
    ensures n[7][7] == 0.0 && n[7][8] == 0.0
  {
    if n[7][7] != 0.0 {
      SevenAndPivotRegular(n);
      RegularStaysSame(n, m);
    }
    assert Annihilates(n, x + [-1.0]);
    assert Dot(n[7], x + [-1.0], 9) == 0.0;
    RowOfNothing(n, 7, x);
  }

  lemma RegularStaysSame(n: seq<Row>, m: seq<Row>)
    requires SameNull(m, n) && Regular(n)
    ensures Regular(m)
  {
    forall v: Vector | v[8] == 0.0 && Annihilates(m, v) ensures Zero(v) {
      assert Annihilates(n, v);
    }
  }

  lemma SevenAndPivotRegular(n: seq<Row>)
    requires |n| == 8 && Diagonal(n, 7) && Cleared(n, 7) && n[7][7] != 0.0
    ensures Regular(n)
  {
    forall v: Vector | v[8] == 0.0 && Annihilates(n, v) ensures Zero(v) {
      assert Dot(n[7], v, 9) == 0.0;
      DotTwo(n[7], v, 7, 8, 9);
      NoProduct(v[7], n[7][7]);
      forall i | 0 <= i < 7 ensures v[i] == 0.0 {
        assert Dot(n[i], v, 9) == 0.0;
        DotTwo(n[i], v, i, 8, 9);
        NoProduct(v[i], n[i][i]);
      }
    }
  }

  /** In one line: the left edge is as many times the right edge. */
  lemma EdgesInLine(quad: seq<Point>)
    requires |quad| == 4 && AllInLine(quad) && quad[1] != quad[2]
    ensures exists d: real :: EdgesAre(quad, d)
  {
    var (p0, p1, p2, p3) := (quad[0], quad[1], quad[2], quad[3]);
    var (ux, uy) := (p2.x - p1.x, p2.y - p1.y);
    var (vx, vy) := (p3.x - p0.x, p3.y - p0.y);
    assert ux * vy == uy * vx by {
      CrossTurns(p0, p1, p2);
      assert Cross(p1, p2, p3) == ux * (p3.y - p1.y) - uy * (p3.x - p1.x);
      assert Cross(p1, p2, p0) == ux * (p0.y - p1.y) - uy * (p0.x - p1.x);
      LessEach(ux, p3.y - p1.y, p0.y - p1.y);
      LessEach(uy, p3.x - p1.x, p0.x - p1.x);
    }
    var d := if ux != 0.0 then vx / ux else vy / uy;
    Multiple(ux, uy, vx, vy);
    assert EdgesAre(quad, d);
  }

  predicate EdgesAre(quad: seq<Point>, d: real)
    requires |quad| == 4
  {
    d * (quad[2].x - quad[1].x) == quad[3].x - quad[0].x && d * (quad[2].y - quad[1].y) == quad[3].y - quad[0].y
  }

  lemma LessEach(u: real, a: real, b: real)
    ensures u * a - u * b == u * (a - b)
  {
  }

  lemma Multiple(ux: real, uy: real, vx: real, vy: real)
    requires ux * vy == uy * vx && (ux != 0.0 || uy != 0.0)
    ensures var d := if ux != 0.0 then vx / ux else vy / uy; d * ux == vx && d * uy == vy
  {
    if ux != 0.0 {
      Cancel(vx, ux);
      var d := vx / ux;
      assert (d * uy - vy) * ux == uy * (d * ux) - ux * vy;
      NoProduct(d * uy - vy, ux);
    } else {
      Cancel(vy, uy);
      NoProduct(vx, uy);
    }
  }

  /** Such a quad's equations are solvable, with h nothing. */
  function LineSolution(width: real, height: real, quad: seq<Point>, d: real): (c: seq<real>)
    requires |quad| == 4 && width > 0.0 && height > 0.0
    ensures |c| == 8
  {
    [(quad[1].x * d - quad[0].x) / width, (quad[3].x - quad[0].x) / height, quad[0].x,
     (quad[1].y * d - quad[0].y) / width, (quad[3].y - quad[0].y) / height, quad[0].y, (d - 1.0) / width, 0.0]
  }

  lemma LineIsSolvable(width: real, height: real, quad: seq<Point>, d: real)
    requires |quad| == 4 && width > 0.0 && height > 0.0 && EdgesAre(quad, d)
    ensures Solves(RectangleRows(width, height, quad), LineSolution(width, height, quad, d))
  {
    var c := LineSolution(width, height, quad, d);
    var v: Vector := c + [-1.0];
    Cancel(quad[1].x * d - quad[0].x, width);
    Cancel(quad[1].y * d - quad[0].y, width);
    Cancel(quad[3].x - quad[0].x, height);
    Cancel(quad[3].y - quad[0].y, height);
    Cancel(d - 1.0, width);
    LessEach(d, quad[2].x, quad[1].x);
    LessEach(d, quad[2].y, quad[1].y);
    LineMeets(v, width, height, quad, d);
    RectangleEquations(v, width, height, quad);
    AnnihilatesMeets(Rectangle(width, height), quad, v);
  }

  lemma LineMeets(v: Vector, width: real, height: real, quad: seq<Point>, d: real)
    requires |quad| == 4 && v[2] == quad[0].x && v[5] == quad[0].y && v[7] == 0.0 && v[8] == -1.0
    requires v[0] * width == quad[1].x * d - quad[0].x && v[3] * width == quad[1].y * d - quad[0].y
    requires v[1] * height == quad[3].x - quad[0].x && v[4] * height == quad[3].y - quad[0].y
    requires v[6] * width == d - 1.0
    requires d * quad[2].x - d * quad[1].x == quad[3].x - quad[0].x && d * quad[2].y - d * quad[1].y == quad[3].y - quad[0].y
    ensures RectangleMeets(v, width, height, quad)
  {
  }

  lemma SomeSolution(width: real, height: real, quad: seq<Point>) returns (x: seq<real>)
    requires |quad| == 4 && width > 0.0 && height > 0.0 && AllInLine(quad) && quad[1] != quad[2]
    ensures |x| == 8 && Solves(RectangleRows(width, height, quad), x)
  {
    EdgesInLine(quad);
    var d :| EdgesAre(quad, d);
    LineIsSolvable(width, height, quad, d);
    x := LineSolution(width, height, quad, d);
  }

  /** In one line, with different right corners: the elimination solves the equations. */
  lemma RightEdgeSolves(width: real, height: real, quad: seq<Point>)
    requires |quad| == 4 && width > 0.0 && height > 0.0 && AllInLine(quad) && quad[1] != quad[2]
    ensures var c := HomographyOf(Rectangle(width, height), quad);
            Solves(RectangleRows(width, height, quad), c) && c[7] == 0.0
  {
    var x := SomeSolution(width, height, quad);
    SevenIndependent(width, height, quad);
    RectangleIsRegular(width, height, quad);
    CrossTurns(quad[1], quad[2], quad[3]);
    SevenSolves(RectangleRows(width, height, quad), x);
  }

  /** Coefficients that solve the equations reach the corners where they are defined. */
  lemma SolvedReaches(c: seq<real>, width: real, height: real, quad: seq<Point>)
    requires |c| == 8 && |quad| == 4 && Solves(RectangleRows(width, height, quad), c)
    ensures ReachesAll(c, Rectangle(width, height), quad) <==>
      Corner1(c, width) != 0.0 && Corner2(c, width, height) != 0.0 && Corner3(c, height) != 0.0
  {
    ReachedIsSolved(c, Rectangle(width, height), quad);
    FourDefined(c, width, height);
  }

  /** They are reached exactly when the left corners differ too. */
  lemma RightEdgeReaches(width: real, height: real, quad: seq<Point>)
    requires |quad| == 4 && width > 0.0 && height > 0.0 && AllInLine(quad) && quad[1] != quad[2]
    ensures ReachesAll(HomographyOf(Rectangle(width, height), quad), Rectangle(width, height), quad) <==> quad[3] != quad[0]
  {
    RightEdgeSolves(width, height, quad);
    RightEdgeReached(HomographyOf(Rectangle(width, height), quad), width, height, quad);
  }

  lemma RightEdgeReached(c: seq<real>, width: real, height: real, quad: seq<Point>)
    requires |c| == 8 && |quad| == 4 && Solves(RectangleRows(width, height, quad), c) && c[7] == 0.0 && quad[1] != quad[2]
    ensures ReachesAll(c, Rectangle(width, height), quad) <==> quad[3] != quad[0]
  {
    SolvedReaches(c, width, height, quad);
    SolvedWeighs(c, width, height, quad);
    RightEdgeDefined(c, width, height, quad);
  }

  lemma RightEdgeDefined(c: seq<real>, width: real, height: real, quad: seq<Point>)
    requires |c| == 8 && |quad| == 4 && c[7] == 0.0 && quad[1] != quad[2]
    requires quad[0].x + quad[2].x * Corner2(c, width, height) == quad[1].x * Corner1(c, width) + quad[3].x * Corner3(c, height)
    requires quad[0].y + quad[2].y * Corner2(c, width, height) == quad[1].y * Corner1(c, width) + quad[3].y * Corner3(c, height)
    ensures Corner3(c, height) == 1.0 && Corner2(c, width, height) == Corner1(c, width)
    ensures Corner1(c, width) != 0.0 <==> quad[3] != quad[0]
  {
    var d := Corner1(c, width);
    assert Corner3(c, height) == 1.0;
    LessEach(d, quad[2].x, quad[1].x);
    LessEach(d, quad[2].y, quad[1].y);
    assert d * (quad[2].x - quad[1].x) == quad[3].x - quad[0].x && d * (quad[2].y - quad[1].y) == quad[3].y - quad[0].y;
    if quad[3] == quad[0] {
      if quad[2].x != quad[1].x { NoProduct(d, quad[2].x - quad[1].x); } else { NoProduct(d, quad[2].y - quad[1].y); }
    }
  }

  // --------------------------------------- in one line, the right edge a point

  /** With the right corners the same, only h is left in the rows of the two coordinates. */
  lemma HRows(width: real, height: real, quad: seq<Point>)
    requires |quad| == 4 && quad[1] == quad[2]
    ensures var m := RectangleRows(width, height, quad);
            && Rest(LastX(m), 0.0, height * (quad[2].x - quad[3].x), quad[3].x - quad[0].x)
            && Rest(LastY(m), 0.0, height * (quad[2].y - quad[3].y), quad[3].y - quad[0].y)
  {
    LastRows(width, height, quad);
    assert quad[2].x - quad[1].x == 0.0 && quad[2].y - quad[1].y == 0.0;
    Nothing(width);
  }

  lemma SevenColumns(m: seq<Row>)
    requires |m| == 8 && Independent(m, 6) && Reduced(m, 6)[6][6] == 0.0 && Reduced(m, 6)[7][6] == 0.0
    ensures var n := Reduced(m, 7);
            SameNull(m, n) && Diagonal(n, 6) && Cleared(n, 6) && n[6] == Reduced(m, 6)[6] && n[7] == Reduced(m, 6)[7]
  {
    var (six, n) := (Reduced(m, 6), Reduced(m, 7));
    ReducedKeeps(m, 6);
    ReducedKeeps(m, 7);
    assert forall r :: 6 <= r < 8 ==> six[r][6] == 0.0;
    NoPivot(six, 6);
    DiagonalStays(six, 6, 6);
  }

  /** After six columns and a seventh without a pivot. */
  lemma OnlyHLeft(width: real, height: real, quad: seq<Point>)
    requires |quad| == 4 && width > 0.0 && height > 0.0 && quad[1] == quad[2]
    ensures var n := Reduced(RectangleRows(width, height, quad), 7);
            && SameNull(RectangleRows(width, height, quad), n) && Diagonal(n, 6) && Cleared(n, 6)
            && Rest(n[6], 0.0, height * (quad[2].x - quad[3].x), quad[3].x - quad[0].x)
            && Rest(n[7], 0.0, height * (quad[2].y - quad[3].y), quad[3].y - quad[0].y)
  {
    SixIndependent(width, height, quad);
    SixColumns(width, height, quad);
    HRows(width, height, quad);
    SevenColumns(RectangleRows(width, height, quad));
  }

  /** The last column, when h has a pivot in the row of the second coordinate. */
  lemma LastColumnPivot(n: seq<Row>)
    requires |n| == 8 && Diagonal(n, 6) && Cleared(n, 6) && n[6][6] == 0.0 && n[7][6] == 0.0 && n[7][7] != 0.0
    requires n[6][8] * n[7][7] == n[6][7] * n[7][8]
    ensures var c := Coefficients(Stepped(n, 7)); Solves(Stepped(n, 7), c) && c[6] == 0.0
  {
    var last := Stepped(n, 7);
    LastPivot(n);
    ColumnCleared(n, 7);
    DiagonalStays(n, 6, 7);
    var f := n[6][7] / n[7][7];
    assert last[6] == Subtract(n[6], f, n[7], 7);
    Proportion(n[6][7], n[6][8], n[7][7], n[7][8]);
    FreeIsNothing(last, 6);
    forall i | 0 <= i < 8 ensures Dot(last[i], Coefficients(last) + [-1.0], 9) == 0.0 {
      if i == 6 {
        RowOfNothing(last, 6, Coefficients(last));
      } else {
        RowSolved(last, i);
      }
    }
  }

  lemma Proportion(h: real, k: real, h': real, k': real)
    requires h' != 0.0 && k * h' == h * k'
    ensures k - h / h' * k' == 0.0
  {
    Cancel(h, h');
    assert (k - h / h' * k') * h' == k * h' - (h / h' * h') * k';
    NoProduct(k - h / h' * k', h');
  }

  /** And when it has none: g is what the first coordinate's row asks of nothing, and h is nothing. */
  lemma LastColumnNone(n: seq<Row>)
    requires |n| == 8 && Diagonal(n, 6) && Cleared(n, 6) && n[6][6] == 0.0 && n[7][6] == 0.0 && n[7][7] == 0.0 && n[7][8] == 0.0
    ensures var (last, c) := (Stepped(n, 7), Coefficients(Stepped(n, 7)));
            && (n[6][8] == 0.0 ==> Solves(last, c) && c[6] == 0.0 && c[7] == 0.0)
            && (n[6][8] != 0.0 ==> !Solves(last, c))
  {
    var last := Stepped(n, 7);
    LastPivot(n);
    ColumnCleared(n, 7);
    DiagonalStays(n, 6, 7);
    var f := n[6][7] / Divisor(n[7][7]);
    assert last[6] == Subtract(n[6], f, n[7], 7);
    Nothing(f);
    assert last[6][7] == n[6][7] && last[6][8] == n[6][8] && last[7] == n[7];
    FreeIsNothing(last, 7);
    if n[6][8] == 0.0 {
      FreeIsNothing(last, 6);
      forall i | 0 <= i < 8 ensures Dot(last[i], Coefficients(last) + [-1.0], 9) == 0.0 {
        if i < 6 { RowSolved(last, i); } else { RowOfNothing(last, i, Coefficients(last)); }
      }
    } else {
      RowOfNothing(last, 6, Coefficients(last));
      assert Dot(last[6], Coefficients(last) + [-1.0], 9) != 0.0;
    }
  }

  /** Whether the corners are reached when all four are in one line. */
  predicate LineReached(quad: seq<Point>)
    requires |quad| == 4
  {
    if quad[1] != quad[2] then quad[3] != quad[0]
    else if quad[2].y != quad[3].y then quad[2].y != quad[0].y
    else quad[3] == quad[0]
  }

  lemma SolvedSame(m: seq<Row>, n: seq<Row>, c: seq<real>)
    requires |c| == 8 && SameNull(m, n)
    ensures Solves(m, c) <==> Solves(n, c)
  {
  }

  lemma LastStep(m: seq<Row>)
    requires |m| == 8
    ensures Reduced(m, 8) == Stepped(Reduced(m, 7), 7)
  {
  }

  lemma LastStepSolves(m: seq<Row>, n: seq<Row>, c: seq<real>)
    requires |m| == 8 && |n| == 8 && |c| == 8 && SameNull(m, n) && Cleared(n, 6) && n[7][6] == 0.0
    ensures Solves(m, c) <==> Solves(Stepped(n, 7), c)
  {
    assert Cleared(n, 7);
    SteppedKeeps(n, 7);
    NullTrans(m, n, Stepped(n, 7));
    SolvedSame(m, Stepped(n, 7), c);
  }

  /** The second coordinate's row gives h, and the first's asks for the same. */
  predicate Consistent(hx: real, kx: real, hy: real, ky: real) {
    hy != 0.0 && kx * hy == hx * ky
  }

  lemma PivotSolves(m: seq<Row>, n: seq<Row>, hx: real, kx: real, hy: real, ky: real)
    requires |m| == 8 && |n| == 8 && SameNull(m, n) && Diagonal(n, 6) && Cleared(n, 6)
    requires Rest(n[6], 0.0, hx, kx) && Rest(n[7], 0.0, hy, ky) && Consistent(hx, kx, hy, ky)
    ensures var c := Coefficients(Stepped(n, 7)); Solves(m, c) && c[6] == 0.0
  {
    LastColumnPivot(n);
    LastStepSolves(m, n, Coefficients(Stepped(n, 7)));
  }

  lemma RightPointSolves(width: real, height: real, quad: seq<Point>)
    requires |quad| == 4 && width > 0.0 && height > 0.0 && AllInLine(quad) && quad[1] == quad[2] && quad[2].y != quad[3].y
    ensures var c := HomographyOf(Rectangle(width, height), quad);
            Solves(RectangleRows(width, height, quad), c) && c[6] == 0.0
  {
    var m := RectangleRows(width, height, quad);
    OnlyHLeft(width, height, quad);
    PivotRow(width, height, quad);
    PivotSolves(m, Reduced(m, 7), height * (quad[2].x - quad[3].x), quad[3].x - quad[0].x,
                height * (quad[2].y - quad[3].y), quad[3].y - quad[0].y);
    LastStep(m);
  }

  lemma RightPointPivot(width: real, height: real, quad: seq<Point>)
    requires |quad| == 4 && width > 0.0 && height > 0.0 && AllInLine(quad) && quad[1] == quad[2] && quad[2].y != quad[3].y
    ensures ReachesAll(HomographyOf(Rectangle(width, height), quad), Rectangle(width, height), quad) <==> quad[2].y != quad[0].y
  {
    RightPointSolves(width, height, quad);
    RightPointReached(HomographyOf(Rectangle(width, height), quad), width, height, quad);
  }

  lemma RightPointReached(c: seq<real>, width: real, height: real, quad: seq<Point>)
    requires |c| == 8 && |quad| == 4 && Solves(RectangleRows(width, height, quad), c)
    requires c[6] == 0.0 && quad[1] == quad[2] && quad[2].y != quad[3].y
    ensures ReachesAll(c, Rectangle(width, height), quad) <==> quad[2].y != quad[0].y
  {
    SolvedReaches(c, width, height, quad);
    SolvedWeighs(c, width, height, quad);
    RightPointDefined(c, width, height, quad);
  }

  lemma PivotRow(width: real, height: real, quad: seq<Point>)
    requires |quad| == 4 && height > 0.0 && AllInLine(quad) && quad[1] == quad[2] && quad[2].y != quad[3].y
    ensures Consistent(height * (quad[2].x - quad[3].x), quad[3].x - quad[0].x,
                       height * (quad[2].y - quad[3].y), quad[3].y - quad[0].y)
  {
    var (ux, uy) := (quad[2].x - quad[3].x, quad[2].y - quad[3].y);
    var (vx, vy) := (quad[3].x - quad[0].x, quad[3].y - quad[0].y);
    if height * uy == 0.0 { NoProduct(uy, height); }
    assert vx * uy == ux * vy by {
      assert Cross(quad[2], quad[3], quad[0]) == (-ux) * (-vy - uy) - (-uy) * (-vx - ux);
      Crossed(ux, uy, vx, vy);
    }
    assert vx * (height * uy) == height * (vx * uy);
    assert height * ux * vy == height * (ux * vy);
  }

  lemma Crossed(ux: real, uy: real, vx: real, vy: real)
    ensures (-ux) * (-vy - uy) - (-uy) * (-vx - ux) == ux * vy - uy * vx
  {
    assert (-ux) * (-vy - uy) == ux * vy + ux * uy;
    assert (-uy) * (-vx - ux) == uy * vx + uy * ux;
  }

  lemma RightPointDefined(c: seq<real>, width: real, height: real, quad: seq<Point>)
    requires |c| == 8 && |quad| == 4 && c[6] == 0.0 && quad[1] == quad[2] && quad[2].y != quad[3].y
    requires quad[0].y + quad[2].y * Corner2(c, width, height) == quad[1].y * Corner1(c, width) + quad[3].y * Corner3(c, height)
    ensures Corner1(c, width) == 1.0 && Corner2(c, width, height) == Corner3(c, height)
    ensures Corner3(c, height) != 0.0 <==> quad[2].y != quad[0].y
  {
    var d := Corner3(c, height);
    assert Corner1(c, width) == 1.0;
    LessEach(d, quad[2].y, quad[3].y);
    assert d * (quad[2].y - quad[3].y) == quad[2].y - quad[0].y;
    if quad[2].y == quad[0].y { NoProduct(d, quad[2].y - quad[3].y); }
  }

  /** Without a pivot for h: solved exactly when the rows left ask nothing of nothing. */
  lemma NoneSolves(m: seq<Row>, n: seq<Row>)
    requires |m| == 8 && |n| == 8 && SameNull(m, n) && Diagonal(n, 6) && Cleared(n, 6)
    requires n[6][6] == 0.0 && n[7][6] == 0.0 && n[7][7] == 0.0
    ensures var c := Coefficients(Stepped(n, 7));
            && (Solves(m, c) <==> n[6][8] == 0.0 && n[7][8] == 0.0)
            && (Solves(m, c) ==> c[6] == 0.0 && c[7] == 0.0)
  {
    var c := Coefficients(Stepped(n, 7));
    if n[7][8] != 0.0 {
      SolvedSame(m, n, c);
      RowOfNothing(n, 7, c);
    } else {
      LastColumnNone(n);
      LastStepSolves(m, n, c);
    }
  }

  lemma RightPointNone(width: real, height: real, quad: seq<Point>)
    requires |quad| == 4 && width > 0.0 && height > 0.0 && quad[1] == quad[2] && quad[2].y == quad[3].y
    ensures ReachesAll(HomographyOf(Rectangle(width, height), quad), Rectangle(width, height), quad) <==> quad[3] == quad[0]
  {
    var c := HomographyOf(Rectangle(width, height), quad);
    NoneSolvesQuad(width, height, quad);
    ReachedIsSolved(c, Rectangle(width, height), quad);
    if Solves(RectangleRows(width, height, quad), c) {
      NothingDefined(c, width, height);
      SolvedReaches(c, width, height, quad);
    }
  }

  lemma NoneSolvesQuad(width: real, height: real, quad: seq<Point>)
    requires |quad| == 4 && width > 0.0 && height > 0.0 && quad[1] == quad[2] && quad[2].y == quad[3].y
    ensures var c := HomographyOf(Rectangle(width, height), quad);
            && (Solves(RectangleRows(width, height, quad), c) <==> quad[3] == quad[0])
            && (Solves(RectangleRows(width, height, quad), c) ==> c[6] == 0.0 && c[7] == 0.0)
  {
    OnlyHLeft(width, height, quad);
    Nothing(height);
    NoneSolves(RectangleRows(width, height, quad), Reduced(RectangleRows(width, height, quad), 7));
    LastStep(RectangleRows(width, height, quad));
  }

  lemma NothingDefined(c: seq<real>, width: real, height: real)
    requires |c| == 8 && c[6] == 0.0 && c[7] == 0.0
    ensures Corner1(c, width) == 1.0 && Corner2(c, width, height) == 1.0 && Corner3(c, height) == 1.0
  {
  }

  /**
   * What straighten's map comes to, for every quad: it reaches all four corners exactly when no three are in
   * a line, or all four are and, by the edges, the line can be reached.
   */
  lemma ReachesIff(width: real, height: real, quad: seq<Point>)
    requires |quad| == 4 && width > 0.0 && height > 0.0
    ensures ReachesAll(HomographyOf(Rectangle(width, height), quad), Rectangle(width, height), quad)
       <==> NoThreeInLine(quad) || (AllInLine(quad) && LineReached(quad))
  {
    var c := HomographyOf(Rectangle(width, height), quad);
    if NoThreeInLine(quad) {
      RectangleIsRegular(width, height, quad);
      HomographySolves(Rectangle(width, height), quad);
      MapsAllCorners(width, height, quad, c);
    } else if !AllInLine(quad) {
      InLineIsMissed(c, width, height, quad);
    } else if quad[1] != quad[2] {
      RightEdgeReaches(width, height, quad);
    } else if quad[2].y != quad[3].y {
      RightPointPivot(width, height, quad);
    } else {
      RightPointNone(width, height, quad);
    }
  }

  /** All four at one height, and where the first and last, and the middle two, are apart. */
  lemma LevelIsInLine(quad: seq<Point>)
    requires |quad| == 4 && quad[0].y == quad[1].y == quad[2].y == quad[3].y
    ensures AllInLine(quad) && !NoThreeInLine(quad)
    ensures LineReached(quad) <==> (quad[1].x == quad[2].x <==> quad[3].x == quad[0].x)
  {
    LevelIsFlat(quad[0], quad[1], quad[2]);
    LevelIsFlat(quad[1], quad[2], quad[3]);
    LevelIsFlat(quad[2], quad[3], quad[0]);
    LevelIsFlat(quad[3], quad[0], quad[1]);
    LevelIsFlat(quad[2], quad[1], quad[3]);
  }

  lemma LevelIsFlat(a: Point, b: Point, c: Point)
    requires a.y == b.y == c.y
    ensures Cross(a, b, c) == 0.0
  {
  }

  /** Corners all at one height are reached or missed: exactly when the middle two coincide as the outer two do. */
  lemma LevelGoesBothWays(width: real, height: real, quad: seq<Point>)
    requires width > 0.0 && height > 0.0 && |quad| == 4 && quad[0].y == quad[1].y == quad[2].y == quad[3].y
    ensures ReachesAll(HomographyOf(Rectangle(width, height), quad), Rectangle(width, height), quad)
       <==> (quad[1].x == quad[2].x <==> quad[3].x == quad[0].x)
  {
    ReachesIff(width, height, quad);
    LevelIsInLine(quad);
  }

  /** The stand-in shows: with the middle two of four level corners in one place, g is a million million times the outer two's gap. */
  lemma StandInShows(width: real, height: real, quad: seq<Point>)
    requires width > 0.0 && height > 0.0 && |quad| == 4 && quad[0].y == quad[1].y == quad[2].y == quad[3].y
    requires quad[1].x == quad[2].x
    ensures var c := HomographyOf(Rectangle(width, height), quad);
            c[7] == 0.0 && c[6] == 1_000_000_000_000.0 * (quad[3].x - quad[0].x)
  {
    var m := RectangleRows(width, height, quad);
    OnlyHLeft(width, height, quad);
    Nothing(height);
    LastStep(m);
    StandsIn(Reduced(m, 7), quad[3].x - quad[0].x);
  }

  lemma StandsIn(n: seq<Row>, gap: real)
    requires |n| == 8 && n[6][6] == 0.0 && n[6][8] == gap && n[7][6] == 0.0 && n[7][7] == 0.0 && n[7][8] == 0.0
    ensures var c := Coefficients(Stepped(n, 7)); c[7] == 0.0 && c[6] == 1_000_000_000_000.0 * gap
  {
    LastPivot(n);
    var f := n[6][7] / Divisor(n[7][7]);
    assert Stepped(n, 7)[6] == Subtract(n[6], f, n[7], 7) && Stepped(n, 7)[7] == n[7];
    Nothing(f);
  }

  method CornerMap(width: real, height: real, quad: seq<Point>) returns (c: seq<real>)
    requires width > 0.0 && height > 0.0 && |quad| == 4
    ensures c == HomographyOf(Rectangle(width, height), quad)
    ensures ReachesAll(c, Rectangle(width, height), quad) <==>
      NoThreeInLine(quad) || (AllInLine(quad) && LineReached(quad))
  {
    c := Homography(Rectangle(width, height), quad);
    ReachesIff(width, height, quad);
  }
}
