/**
 * Integer grids, the state representation of both domains (2-D numpy arrays in
 * Problem.py): locating a value the way `np.where(state == v)[0][0]` and
 * `[1][0]` do, writing one cell of a copy, the bytes key of `tobytes`, and the
 * finite set of all grids of one shape over a finite set of cell values.
 */
module Grids {
  import opened Wrappers

  type Grid = seq<seq<int>>

  /** A cell address: row first, then column. */
  datatype Pos = Pos(row: nat, col: nat)

  /** A non-empty grid whose rows all have the width of the first row (a 2-D array's shape). */
  predicate Rectangular(g: Grid) {
    |g| > 0 && |g[0]| > 0 && forall r :: 0 <= r < |g| ==> |g[r]| == |g[0]|
  }

  /** `g` is `height` by `width`. */
  predicate HasShape(g: Grid, height: nat, width: nat) {
    |g| == height && forall r :: 0 <= r < |g| ==> |g[r]| == width
  }

  /** Two grids of the same shape. */
  predicate SameShape(a: Grid, b: Grid) {
    |a| == |b| && forall r :: 0 <= r < |a| ==> |a[r]| == |b[r]|
  }

  /** `p` addresses a cell of `g`. */
  predicate Inside(g: Grid, p: Pos) {
    p.row < |g| && p.col < |g[p.row]|
  }

  /** Cell `q` comes no later than cell `p` in row-major order. */
  predicate NotAfter(q: Pos, p: Pos) {
    q.row < p.row || (q.row == p.row && q.col <= p.col)
  }

  /** The first column at or after `c` of `row` holding `v`. */
  function FindInRow(row: seq<int>, v: int, c: nat): (r: Option<nat>)
    requires c <= |row|
    ensures r.Some? ==> c <= r.value < |row| && row[r.value] == v
    ensures r.Some? ==> forall j :: c <= j < r.value ==> row[j] != v
    ensures r.None? ==> forall j :: c <= j < |row| ==> row[j] != v
    decreases |row| - c
  {
    if c == |row| then None
    else if row[c] == v then Some(c)
    else FindInRow(row, v, c + 1)
  }

  /** The first cell, in row-major order from row `r` on, holding `v`. */
  function FindFrom(g: Grid, v: int, r: nat): (res: Option<Pos>)
    requires r <= |g|
    ensures res.Some? ==> r <= res.value.row && Inside(g, res.value) && g[res.value.row][res.value.col] == v
    ensures res.None? ==> forall i, j :: r <= i < |g| && 0 <= j < |g[i]| ==> g[i][j] != v
    decreases |g| - r
  {
    if r == |g| then None
    else match FindInRow(g[r], v, 0)
      case Some(c) => Some(Pos(r, c))
      case None => FindFrom(g, v, r + 1)
  }

  /**
   * `(np.where(g == v)[0][0], np.where(g == v)[1][0])`: the first cell holding
   * `v` in row-major order (`FindIsFirst`), or `None` where numpy would raise
   * an IndexError because no cell holds `v`.
   */
  function Find(g: Grid, v: int): (res: Option<Pos>)
    ensures res.Some? ==> Inside(g, res.value) && g[res.value.row][res.value.col] == v
    ensures res.None? ==> forall i, j :: 0 <= i < |g| && 0 <= j < |g[i]| ==> g[i][j] != v
  {
    FindFrom(g, v, 0)
  }

  /** No cell holding `v` comes before the cell `FindFrom` returns. */
  lemma {:induction false} FindFromIsFirst(g: Grid, v: int, r: nat, i: nat, j: nat)
    requires r <= i < |g| && j < |g[i]| && g[i][j] == v
    ensures FindFrom(g, v, r).Some? && NotAfter(FindFrom(g, v, r).value, Pos(i, j))
    decreases |g| - r
  {
    if FindInRow(g[r], v, 0).None? {
      assert r != i;
      FindFromIsFirst(g, v, r + 1, i, j);
    }
  }

  /** `Find` returns the first cell holding `v` in row-major order. */
  lemma FindIsFirst(g: Grid, v: int, i: nat, j: nat)
    requires i < |g| && j < |g[i]| && g[i][j] == v
    ensures Find(g, v).Some? && NotAfter(Find(g, v).value, Pos(i, j))
  {
    FindFromIsFirst(g, v, 0, i, j);
  }

  /** `ret[row][col] = v` on a copy `ret` of `g`. */
  function Set(g: Grid, row: nat, col: nat, v: int): Grid
    requires row < |g| && col < |g[row]|
  {
    g[row := g[row][col := v]]
  }

  /** The cells of `g` row after row: the contents `g.tobytes()` encodes. */
  function Flatten(g: Grid): seq<int> {
    if g == [] then [] else g[0] + Flatten(g[1..])
  }

  /** Grids of the same shape have the same flattening exactly when they are equal. */
  lemma {:induction false} FlattenInjective(a: Grid, b: Grid)
    requires SameShape(a, b)
    ensures Flatten(a) == Flatten(b) <==> a == b
    decreases |a|
  {
    if a != [] && Flatten(a) == Flatten(b) {
      assert a[0] == Flatten(a)[..|a[0]|];
      assert b[0] == Flatten(b)[..|b[0]|];
      assert Flatten(a[1..]) == Flatten(a)[|a[0]|..];
      assert Flatten(b[1..]) == Flatten(b)[|b[0]|..];
      FlattenInjective(a[1..], b[1..]);
      assert a == [a[0]] + a[1..];
      assert b == [b[0]] + b[1..];
    }
  }

  /**
   * The `tobytes` key of `g` singles `g` out among the grids of its shape: a
   * dictionary keyed by it holds one entry per grid of that shape.
   */
  lemma FlattenKeys(g: Grid)
    ensures forall b :: SameShape(b, g) ==> (Flatten(b) == Flatten(g) <==> b == g)
  {
    forall b | SameShape(b, g) ensures Flatten(b) == Flatten(g) <==> b == g {
      FlattenInjective(b, g);
    }
  }

  /** Why the shape matters: a 2-by-2 and a 1-by-4 grid with the same bytes. */
  lemma FlattenNeedsShape()
    ensures Flatten([[1, 1], [1, 2]]) == Flatten([[1, 1, 1, 2]])
  {
    assert Flatten([[1, 2]]) == [1, 2] + Flatten([]);
    assert Flatten([[1, 1], [1, 2]]) == [1, 1] + Flatten([[1, 2]]);
    assert Flatten([[1, 1, 1, 2]]) == [1, 1, 1, 2] + Flatten([]);
  }

  /** Writing a cell replaces one occurrence of the old value by the new one in the flattened cells. */
  lemma {:induction false} FlattenSet(g: Grid, row: nat, col: nat, v: int)
    requires row < |g| && col < |g[row]|
    ensures multiset(Flatten(Set(g, row, col, v))) + multiset{g[row][col]}
         == multiset(Flatten(g)) + multiset{v}
    decreases row
  {
    var r := Set(g, row, col, v);
    var x := g[row][col];
    var tail, tail' := multiset(Flatten(g[1..])), multiset(Flatten(r[1..]));
    assert multiset(Flatten(r)) == multiset(r[0]) + tail';
    assert multiset(Flatten(g)) == multiset(g[0]) + tail;
    if row == 0 {
      assert r[1..] == g[1..];
      RowSet(g[0], col, v);
      assert multiset(r[0]) + multiset{x} == multiset(g[0]) + multiset{v};
    } else {
      assert r[1..] == Set(g[1..], row - 1, col, v);
      assert g[1..][row - 1][col] == x;
      FlattenSet(g[1..], row - 1, col, v);
      assert r[0] == g[0];
      calc {
        multiset(Flatten(r)) + multiset{x};
        multiset(g[0]) + (tail' + multiset{x});
        multiset(g[0]) + (tail + multiset{v});
        multiset(Flatten(g)) + multiset{v};
      }
    }
  }

  /** The multiset form of writing one element of a row. */
  lemma RowSet(row: seq<int>, col: nat, v: int)
    requires col < |row|
    ensures multiset(row[col := v]) + multiset{row[col]} == multiset(row) + multiset{v}
  {
    assert row == row[..col] + [row[col]] + row[col + 1..];
    assert row[col := v] == row[..col] + [v] + row[col + 1..];
  }

  /** Equal sums with a common part have equal remainders. */
  lemma MultisetCancel(a: multiset<int>, b: multiset<int>, c: multiset<int>)
    requires a + c == b + c
    ensures a == b
  {
    forall x ensures a[x] == b[x] {
      assert (a + c)[x] == (b + c)[x];
    }
  }

  /** Swapping the contents of two cells keeps the multiset of all cells. */
  lemma SwapKeepsCells(g: Grid, p: Pos, q: Pos)
    requires Inside(g, p) && Inside(g, q)
    ensures var s1 := Set(g, p.row, p.col, g[q.row][q.col]);
      && q.col < |s1[q.row]|
      && multiset(Flatten(Set(s1, q.row, q.col, g[p.row][p.col]))) == multiset(Flatten(g))
  {
    var u, v := g[p.row][p.col], g[q.row][q.col];
    var s1 := Set(g, p.row, p.col, v);
    var s2 := Set(s1, q.row, q.col, u);
    FlattenSet(g, p.row, p.col, v);
    assert s1[q.row][q.col] == v;
    FlattenSet(s1, q.row, q.col, u);
    assert multiset(Flatten(s2)) + multiset{v} == multiset(Flatten(s1)) + multiset{u};
    MultisetCancel(multiset(Flatten(s2)), multiset(Flatten(g)), multiset{v});
  }

  // ---------------------------------------------------------------------------
  // Counting cells and bounding their values

  /** The number of elements of `row` equal to `v`. */
  function CountRow(row: seq<int>, v: int): nat {
    if |row| == 0 then 0 else (if row[0] == v then 1 else 0) + CountRow(row[1..], v)
  }

  /** The number of cells of `g` holding `v`. */
  function Count(g: Grid, v: int): nat {
    if |g| == 0 then 0 else CountRow(g[0], v) + Count(g[1..], v)
  }

  /** Every element of `row` is in `vals`. */
  predicate RowIn(row: seq<int>, vals: set<int>) {
    |row| == 0 || (row[0] in vals && RowIn(row[1..], vals))
  }

  /** Every cell of `g` is in `vals`. */
  predicate CellsIn(g: Grid, vals: set<int>) {
    |g| == 0 || (RowIn(g[0], vals) && CellsIn(g[1..], vals))
  }

  /** A row whose every element is in `vals` satisfies `RowIn`. */
  lemma {:induction false} RowInOf(row: seq<int>, vals: set<int>)
    requires forall i :: 0 <= i < |row| ==> row[i] in vals
    ensures RowIn(row, vals)
    decreases |row|
  {
    if |row| > 0 {
      var tail := row[1..];
      assert forall i :: 0 <= i < |tail| ==> tail[i] == row[i + 1];
      RowInOf(tail, vals);
    }
  }

  /** A grid whose every flattened cell is in `vals` satisfies `CellsIn`. */
  lemma {:induction false} CellsInOf(g: Grid, vals: set<int>)
    requires forall x :: x in Flatten(g) ==> x in vals
    ensures CellsIn(g, vals)
    decreases |g|
  {
    if |g| > 0 {
      var f, rest := Flatten(g), Flatten(g[1..]);
      assert f == g[0] + rest;
      forall i | 0 <= i < |g[0]| ensures g[0][i] in vals {
        assert f[i] == g[0][i];
      }
      RowInOf(g[0], vals);
      forall x | x in rest ensures x in vals {
        var i :| 0 <= i < |rest| && rest[i] == x;
        assert f[|g[0]| + i] == x;
      }
      CellsInOf(g[1..], vals);
    }
  }

  /** Writing `v` over element `c` trades one count of the old value for one of `v`. */
  lemma {:induction false} CountRowSet(row: seq<int>, c: nat, v: int, x: int)
    requires c < |row|
    ensures CountRow(row[c := v], x) + (if row[c] == x then 1 else 0)
         == CountRow(row, x) + (if v == x then 1 else 0)
    decreases c
  {
    if c == 0 {
      assert row[c := v][1..] == row[1..];
    } else {
      assert row[c := v][1..] == row[1..][c - 1 := v];
      CountRowSet(row[1..], c - 1, v, x);
    }
  }

  /** Writing `v` over a cell trades one count of the old value for one of `v`. */
  lemma {:induction false} CountSet(g: Grid, row: nat, col: nat, v: int, x: int)
    requires row < |g| && col < |g[row]|
    ensures Count(Set(g, row, col, v), x) + (if g[row][col] == x then 1 else 0)
         == Count(g, x) + (if v == x then 1 else 0)
    decreases row
  {
    var r := Set(g, row, col, v);
    if row == 0 {
      assert r[1..] == g[1..];
      CountRowSet(g[0], col, v, x);
    } else {
      assert r[1..] == Set(g[1..], row - 1, col, v);
      CountSet(g[1..], row - 1, col, v, x);
    }
  }

  /** The value of element `c` is counted. */
  lemma {:induction false} CountRowAt(row: seq<int>, c: nat)
    requires c < |row|
    ensures CountRow(row, row[c]) >= 1
    decreases c
  {
    if c > 0 {
      CountRowAt(row[1..], c - 1);
    }
  }

  /** The value of every cell is counted. */
  lemma {:induction false} CountAt(g: Grid, i: nat, j: nat)
    requires i < |g| && j < |g[i]|
    ensures Count(g, g[i][j]) >= 1
    decreases i
  {
    if i == 0 {
      CountRowAt(g[0], j);
    } else {
      CountAt(g[1..], i - 1, j);
    }
  }

  /** A value some cell holds is found. */
  lemma CountedIsFound(g: Grid, v: int)
    requires Count(g, v) >= 1
    ensures Find(g, v).Some?
  {
    if Find(g, v).None? {
      CountNone(g, v, 0);
    }
  }

  /** No cell from row `r` on holds `v`, so none is counted. */
  lemma {:induction false} CountNone(g: Grid, v: int, r: nat)
    requires r <= |g| && forall i, j :: r <= i < |g| && 0 <= j < |g[i]| ==> g[i][j] != v
    ensures Count(g[r..], v) == 0
    decreases |g| - r
  {
    if r < |g| {
      CountNone(g, v, r + 1);
      assert g[r..][1..] == g[r + 1..];
      CountRowNone(g[r], v, 0);
    } else {
      assert g[r..] == [];
    }
    if r == 0 {
      assert g[0..] == g;
    }
  }

  /** No element of `row` from `c` on is `v`, so none is counted. */
  lemma {:induction false} CountRowNone(row: seq<int>, v: int, c: nat)
    requires c <= |row| && forall j :: c <= j < |row| ==> row[j] != v
    ensures CountRow(row[c..], v) == 0
    decreases |row| - c
  {
    if c < |row| {
      CountRowNone(row, v, c + 1);
      assert row[c..][1..] == row[c + 1..];
    } else {
      assert row[c..] == [];
    }
  }

  /** Element `c` of a row over `vals` is in `vals`. */
  lemma {:induction false} RowInAt(row: seq<int>, vals: set<int>, c: nat)
    requires RowIn(row, vals) && c < |row|
    ensures row[c] in vals
    decreases c
  {
    if c > 0 {
      RowInAt(row[1..], vals, c - 1);
    }
  }

  /** Every cell of a grid over `vals` is in `vals`. */
  lemma {:induction false} CellsInAt(g: Grid, vals: set<int>, i: nat, j: nat)
    requires CellsIn(g, vals) && i < |g| && j < |g[i]|
    ensures g[i][j] in vals
    decreases i
  {
    if i == 0 {
      RowInAt(g[0], vals, j);
    } else {
      CellsInAt(g[1..], vals, i - 1, j);
    }
  }

  /** Writing a value from `vals` keeps a row over `vals`. */
  lemma {:induction false} RowInSet(row: seq<int>, vals: set<int>, c: nat, v: int)
    requires RowIn(row, vals) && c < |row| && v in vals
    ensures RowIn(row[c := v], vals)
    decreases c
  {
    if c == 0 {
      assert row[c := v][1..] == row[1..];
    } else {
      assert row[c := v][1..] == row[1..][c - 1 := v];
      RowInSet(row[1..], vals, c - 1, v);
    }
  }

  /** Writing a value from `vals` keeps a grid over `vals`. */
  lemma {:induction false} CellsInSet(g: Grid, vals: set<int>, row: nat, col: nat, v: int)
    requires CellsIn(g, vals) && row < |g| && col < |g[row]| && v in vals
    ensures CellsIn(Set(g, row, col, v), vals)
    decreases row
  {
    var r := Set(g, row, col, v);
    if row == 0 {
      assert r[1..] == g[1..];
      RowInSet(g[0], vals, col, v);
    } else {
      assert r[1..] == Set(g[1..], row - 1, col, v);
      CellsInSet(g[1..], vals, row - 1, col, v);
    }
  }

  // ---------------------------------------------------------------------------
  // The finite sets of all grids of one shape

  /** All rows of length `width` over the cell values `vals`. */
  ghost function AllRows(width: nat, vals: set<int>): set<seq<int>>
    decreases width
  {
    if width == 0 then {[]}
    else set x, row | x in vals && row in AllRows(width - 1, vals) :: [x] + row
  }

  /** All `height` by `width` grids over the cell values `vals`. */
  ghost function AllGrids(height: nat, width: nat, vals: set<int>): set<Grid>
    decreases height
  {
    if height == 0 then {[]}
    else set row, g | row in AllRows(width, vals) && g in AllGrids(height - 1, width, vals) :: [row] + g
  }

  /** Every row over `vals` is among `AllRows` of its length. */
  lemma {:induction false} InRows(row: seq<int>, vals: set<int>)
    requires RowIn(row, vals)
    ensures row in AllRows(|row|, vals)
    decreases |row|
  {
    if row != [] {
      var x, rest := row[0], row[1..];
      InRows(rest, vals);
      assert row == [x] + rest;
      assert AllRows(|row|, vals) == set y, r | y in vals && r in AllRows(|rest|, vals) :: [y] + r;
      assert [x] + rest in AllRows(|row|, vals);
    }
  }

  /** Every grid of the right shape over `vals` is among `AllGrids`. */
  lemma {:induction false} InGrids(g: Grid, width: nat, vals: set<int>)
    requires HasShape(g, |g|, width) && CellsIn(g, vals)
    ensures g in AllGrids(|g|, width, vals)
    decreases |g|
  {
    if g != [] {
      assert HasShape(g[1..], |g[1..]|, width);
      InGrids(g[1..], width, vals);
      InRows(g[0], vals);
      assert g == [g[0]] + g[1..];
      assert AllGrids(|g|, width, vals)
          == set r, h | r in AllRows(width, vals) && h in AllGrids(|g[1..]|, width, vals) :: [r] + h;
    }
  }

  /** Every grid in `AllGrids` has the shape it was built with and cells from `vals`. */
  lemma {:induction false} GridsShape(g: Grid, height: nat, width: nat, vals: set<int>)
    requires g in AllGrids(height, width, vals)
    ensures HasShape(g, height, width) && CellsIn(g, vals)
    decreases height
  {
    if height > 0 {
      var row, rest :| row in AllRows(width, vals) && rest in AllGrids(height - 1, width, vals) && g == [row] + rest;
      GridsShape(rest, height - 1, width, vals);
      RowsShape(row, width, vals);
      assert g[1..] == rest;
    }
  }

  /** Every row in `AllRows` has the length it was built with and elements from `vals`. */
  lemma {:induction false} RowsShape(row: seq<int>, width: nat, vals: set<int>)
    requires row in AllRows(width, vals)
    ensures |row| == width && RowIn(row, vals)
    decreases width
  {
    if width > 0 {
      var x, rest :| x in vals && rest in AllRows(width - 1, vals) && row == [x] + rest;
      RowsShape(rest, width - 1, vals);
      assert row[1..] == rest;
    }
  }

  /** `np.array_equal(a, b)`: the same shape and the same value in every cell. */
  function ArrayEqual(a: Grid, b: Grid): (r: bool)
    ensures r <==> SameShape(a, b) && forall i, j :: 0 <= i < |a| && 0 <= j < |a[i]| ==> a[i][j] == b[i][j]
  {
    CellsEqual(a, b);
    a == b
  }

  /** Two grids are equal exactly when they have the same shape and agree on every cell. */
  lemma CellsEqual(a: Grid, b: Grid)
    ensures a == b <==> SameShape(a, b) && forall i, j :: 0 <= i < |a| && 0 <= j < |a[i]| ==> a[i][j] == b[i][j]
  {
    if SameShape(a, b) && forall i, j :: 0 <= i < |a| && 0 <= j < |a[i]| ==> a[i][j] == b[i][j] {
      forall i | 0 <= i < |a| ensures a[i] == b[i] {
        assert forall j :: 0 <= j < |a[i]| ==> a[i][j] == b[i][j];
      }
    }
  }

  // ---------------------------------------------------------------------------
  // Moving to a neighbouring cell

  /** The four moves, as the strings "north", "east", "south" and "west". */
  datatype Direction = North | East | South | West

  /** The order in which `_actions` lists the moves. */
  function Rank(d: Direction): nat {
    match d
    case North => 0
    case East => 1
    case South => 2
    case West => 3
  }

  /** The four directions in the order `_actions` tests them. */
  const Directions: seq<Direction> := [North, East, South, West]

  /** Directions listed in strictly increasing north, east, south, west order. */
  predicate Ranked(ds: seq<Direction>) {
    forall i, j :: 0 <= i < j < |ds| ==> Rank(ds[i]) < Rank(ds[j])
  }

  /** `Directions` lists every direction once, in order. */
  lemma DirectionsRanked()
    ensures Ranked(Directions)
    ensures forall d: Direction :: d in Directions
  {
    assert forall i :: 0 <= i < |Directions| ==> Rank(Directions[i]) == i;
    forall d: Direction ensures d in Directions {
      assert d == Directions[Rank(d)];
    }
  }

  /** The directions of `ds` that pass the test `ok`, kept in their order (a run of `if ...: ret.append(d)`). */
  function Keep(ds: seq<Direction>, ok: Direction -> bool): (r: seq<Direction>)
    requires Ranked(ds)
    ensures forall d :: d in r <==> d in ds && ok(d)
    ensures Ranked(r)
  {
    if ds == [] then []
    else
      var rest := Keep(ds[1..], ok);
      assert forall d :: d in rest ==> Rank(ds[0]) < Rank(d);
      if ok(ds[0]) then [ds[0]] + rest else rest
  }

  /** The signed indices of the cell one step from `p` in direction `d`. */
  function Step(p: Pos, d: Direction): (int, int) {
    match d
    case North => (p.row - 1, p.col)
    case East => (p.row, p.col + 1)
    case South => (p.row + 1, p.col)
    case West => (p.row, p.col - 1)
  }

  /** The step from `p` in direction `d` stays on the rectangular grid `g`. */
  predicate StepInside(g: Grid, p: Pos, d: Direction)
    requires Rectangular(g)
  {
    0 <= Step(p, d).0 < |g| && 0 <= Step(p, d).1 < |g[0]|
  }

  /**
   * Indexing `ret[...]` with the step from `p` does not raise an IndexError:
   * one past the last row or column does, while -1 counts from the end.
   */
  predicate NoIndexError(g: Grid, p: Pos, d: Direction)
    requires Rectangular(g)
  {
    match d
    case East => p.col + 1 < |g[0]|
    case South => p.row + 1 < |g|
    case _ => true
  }

  /**
   * The cell a write to the step from `p` lands on: the step itself when it
   * stays on the grid, and the last row or column when it is -1.
   */
  function Landing(g: Grid, p: Pos, d: Direction): (t: Pos)
    requires Rectangular(g) && Inside(g, p) && NoIndexError(g, p, d)
    ensures Inside(g, t)
    ensures StepInside(g, p, d) ==> t == Pos(Step(p, d).0, Step(p, d).1)
    ensures !StepInside(g, p, d) ==>
      || (d == North && p.row == 0 && t == Pos(|g| - 1, p.col))
      || (d == West && p.col == 0 && t == Pos(p.row, |g[0]| - 1))
  {
    Pos(Wrap(Step(p, d).0, |g|), Wrap(Step(p, d).1, |g[0]|))
  }

  /** A step that stays on the grid leaves the cell it starts from. */
  lemma StepMoves(g: Grid, p: Pos, d: Direction)
    requires Rectangular(g) && Inside(g, p) && StepInside(g, p, d)
    ensures NoIndexError(g, p, d) && Landing(g, p, d) != p
  {
  }

  /** Python's index into an axis of length `n`: a negative index counts from the end. */
  function Wrap(i: int, n: nat): (r: nat)
    requires -(n as int) <= i < n
    ensures r < n && (r == i || r == i + n)
  {
    if i < 0 then i + n else i
  }
}
