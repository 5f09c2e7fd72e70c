/** What the probes derive from a particle snapshot: the per-colour occupancy grids,
    their per-column totals (the concentration series) and the per-cell mixing
    probabilities fed to the entropy formula. */
module Binning {
  import opened Particles

  /** A width x height grid indexed [x][y]. */
  type Grid = seq<seq<nat>>
  type Field = seq<seq<real>>

  /** Python's int() on a float: truncation toward zero, which is the floor for
      non-negative values. */
  function IntPart(v: real): (n: int)
    ensures 0.0 <= v ==> 0 <= n && n as real <= v < n as real + 1.0
    ensures v < 0.0 ==> n <= 0 && n as real - 1.0 < v <= n as real
  {
    if v >= 0.0 then v.Floor else -((-v).Floor)
  }

  /** A coordinate in [0, max) bins to an index in [0, max). */
  lemma BinIndexInRange(v: real, max: int)
    requires 0.0 <= v < max as real
    ensures 0 <= IntPart(v) < max
  {
  }

  /** The particle has colour c and its bin (int(x), int(y)) lies in [x0, x1) x [y0, y1). */
  predicate Inside(p: ParticleState, c: Color, x0: int, x1: int, y0: int, y1: int) {
    p.color == c && x0 <= IntPart(p.x) < x1 && y0 <= IntPart(p.y) < y1
  }

  /** How many particles of colour c bin into [x0, x1) x [y0, y1). */
  function CountIn(ps: seq<ParticleState>, c: Color, x0: int, x1: int, y0: int, y1: int): nat {
    if ps == [] then 0
    else CountIn(ps[..|ps| - 1], c, x0, x1, y0, y1) + (if Inside(ps[|ps| - 1], c, x0, x1, y0, y1) then 1 else 0)
  }

  /** How many particles of colour c bin into cell (i, j). */
  function CellCount(ps: seq<ParticleState>, c: Color, i: int, j: int): nat {
    CountIn(ps, c, i, i + 1, j, j + 1)
  }

  /** How many particles have colour c. */
  function ColourCount(ps: seq<ParticleState>, c: Color): nat {
    if ps == [] then 0
    else ColourCount(ps[..|ps| - 1], c) + (if ps[|ps| - 1].color == c then 1 else 0)
  }

  /** The occupancy grid of colour c: cell [i][j] counts the particles of that
      colour binned at (i, j). */
  function Density(ps: seq<ParticleState>, c: Color, width: nat, height: nat): (g: Grid)
    ensures |g| == width
    ensures forall i :: 0 <= i < width ==> |g[i]| == height
    ensures forall i, j :: 0 <= i < width && 0 <= j < height ==> g[i][j] == CellCount(ps, c, i, j)
  {
    seq(width, i requires 0 <= i < width => seq(height, j requires 0 <= j < height => CellCount(ps, c, i, j)))
  }

  function Sum(s: seq<nat>): nat {
    if s == [] then 0 else Sum(s[..|s| - 1]) + s[|s| - 1]
  }

  /** The grid summed along y: one total per x. */
  function Concentration(g: Grid): (s: seq<nat>)
    ensures |s| == |g|
    ensures forall i :: 0 <= i < |g| ==> s[i] == Sum(g[i])
  {
    seq(|g|, i requires 0 <= i < |g| => Sum(g[i]))
  }

  /** The contents of a two-dimensional array as a grid. */
  function GridOf(a: array2<nat>): (g: Grid)
    reads a
    ensures |g| == a.Length0
    ensures forall i :: 0 <= i < a.Length0 ==> |g[i]| == a.Length1
    ensures forall i, j :: 0 <= i < a.Length0 && 0 <= j < a.Length1 ==> g[i][j] == a[i, j]
  {
    seq(a.Length0, i requires 0 <= i < a.Length0 reads a =>
      seq(a.Length1, j requires 0 <= j < a.Length1 reads a => a[i, j]))
  }

  /** Two grids with the same shape and the same cells are equal. */
  lemma GridsEqual(a: Grid, b: Grid)
    requires SameShape(a, b)
    requires forall i, j :: 0 <= i < |a| && 0 <= j < |a[i]| ==> a[i][j] == b[i][j]
    ensures a == b
  {
    forall i | 0 <= i < |a|
      ensures a[i] == b[i]
    {
    }
  }

  /** Counting over a y-range splits at any point in between. */
  lemma {:induction false} SplitY(ps: seq<ParticleState>, c: Color, x0: int, x1: int, y0: int, y1: int, y2: int)
    requires y0 <= y1 <= y2
    ensures CountIn(ps, c, x0, x1, y0, y2) == CountIn(ps, c, x0, x1, y0, y1) + CountIn(ps, c, x0, x1, y1, y2)
  {
    if ps != [] {
      SplitY(ps[..|ps| - 1], c, x0, x1, y0, y1, y2);
    }
  }

  /** Counting over an x-range splits at any point in between. */
  lemma {:induction false} SplitX(ps: seq<ParticleState>, c: Color, x0: int, x1: int, x2: int, y0: int, y1: int)
    requires x0 <= x1 <= x2
    ensures CountIn(ps, c, x0, x2, y0, y1) == CountIn(ps, c, x0, x1, y0, y1) + CountIn(ps, c, x1, x2, y0, y1)
  {
    if ps != [] {
      SplitX(ps[..|ps| - 1], c, x0, x1, x2, y0, y1);
    }
  }

  /** A row of cell counts sums to the count of its column over the row's y-range. */
  lemma {:induction false} RowTotal(ps: seq<ParticleState>, c: Color, i: int, row: seq<nat>)
    requires forall j :: 0 <= j < |row| ==> row[j] == CellCount(ps, c, i, j)
    ensures Sum(row) == CountIn(ps, c, i, i + 1, 0, |row|)
  {
    if row == [] {
      SplitY(ps, c, i, i + 1, 0, 0, 0);
    } else {
      var n := |row| - 1;
      RowTotal(ps, c, i, row[..n]);
      SplitY(ps, c, i, i + 1, 0, n, n + 1);
    }
  }

  /** Column totals sum to the count over all those columns. */
  lemma {:induction false} ColumnsTotal(ps: seq<ParticleState>, c: Color, cols: seq<nat>, height: int)
    requires forall i :: 0 <= i < |cols| ==> cols[i] == CountIn(ps, c, i, i + 1, 0, height)
    ensures Sum(cols) == CountIn(ps, c, 0, |cols|, 0, height)
  {
    if cols == [] {
      SplitX(ps, c, 0, 0, 0, 0, height);
    } else {
      var n := |cols| - 1;
      ColumnsTotal(ps, c, cols[..n], height);
      SplitX(ps, c, 0, n, n + 1, 0, height);
    }
  }

  /** With every particle in the chamber, every particle bins into the grid. */
  lemma {:induction false} AllBinned(ps: seq<ParticleState>, c: Color, width: int, height: int)
    requires InBounds(ps, width, height)
    ensures CountIn(ps, c, 0, width, 0, height) == ColourCount(ps, c)
  {
    if ps != [] {
      var last := ps[|ps| - 1];
      assert InBounds(ps[..|ps| - 1], width, height);
      AllBinned(ps[..|ps| - 1], c, width, height);
      BinIndexInRange(last.x, width);
      BinIndexInRange(last.y, height);
    }
  }

  /** Conservation of the concentration series: with every particle in the chamber,
      entry x counts the particles of colour c in column x, and the series sums to
      the number of particles of colour c. */
  lemma ConcentrationConserves(ps: seq<ParticleState>, c: Color, width: nat, height: nat)
    requires InBounds(ps, width, height)
    ensures |Concentration(Density(ps, c, width, height))| == width
    ensures forall i :: 0 <= i < width ==>
              Concentration(Density(ps, c, width, height))[i] == CountIn(ps, c, i, i + 1, 0, height)
    ensures Sum(Concentration(Density(ps, c, width, height))) == ColourCount(ps, c)
  {
    var g := Density(ps, c, width, height);
    var s := Concentration(g);
    forall i | 0 <= i < width
      ensures s[i] == CountIn(ps, c, i, i + 1, 0, height)
    {
      RowTotal(ps, c, i, g[i]);
    }
    ColumnsTotal(ps, c, s, height);
    AllBinned(ps, c, width, height);
  }

  /** The mixing probabilities of one cell holding orange and blue particles; an
      empty cell counts as holding one particle, so both its probabilities are 0. */
  function CellProbabilities(orange: nat, blue: nat): (p: (real, real))
    ensures orange + blue == 0 ==> p.0 == 0.0 && p.1 == 0.0
    ensures orange + blue > 0 ==> p.0 + p.1 == 1.0 && 0.0 <= p.0 <= 1.0 && 0.0 <= p.1 <= 1.0
    ensures p.0 * (orange + blue) as real == orange as real
    ensures p.1 * (orange + blue) as real == blue as real
  {
    var total := if orange + blue == 0 then 1 else orange + blue;
    (orange as real / total as real, blue as real / total as real)
  }

  /** Two grids of the same shape. */
  ghost predicate SameShape(a: Grid, b: Grid) {
    |a| == |b| && forall i :: 0 <= i < |a| ==> |a[i]| == |b[i]|
  }

  /** The orange and blue probability fields, cell by cell: 0 and 0 for an empty
      cell, otherwise two shares in [0, 1] that add up to 1. */
  function Probabilities(orange: Grid, blue: Grid): (f: (Field, Field))
    requires SameShape(orange, blue)
    ensures |f.0| == |f.1| == |orange|
    ensures forall i :: 0 <= i < |orange| ==> |f.0[i]| == |f.1[i]| == |orange[i]|
    ensures forall i, j :: 0 <= i < |orange| && 0 <= j < |orange[i]| && orange[i][j] + blue[i][j] == 0 ==>
              f.0[i][j] == 0.0 && f.1[i][j] == 0.0
    ensures forall i, j :: 0 <= i < |orange| && 0 <= j < |orange[i]| && orange[i][j] + blue[i][j] > 0 ==>
              f.0[i][j] + f.1[i][j] == 1.0 && 0.0 <= f.0[i][j] <= 1.0 && 0.0 <= f.1[i][j] <= 1.0
  {
    var po := seq(|orange|, i requires 0 <= i < |orange| =>
      seq(|orange[i]|, j requires 0 <= j < |orange[i]| => CellProbabilities(orange[i][j], blue[i][j]).0));
    var pb := seq(|orange|, i requires 0 <= i < |orange| =>
      seq(|orange[i]|, j requires 0 <= j < |orange[i]| => CellProbabilities(orange[i][j], blue[i][j]).1));
    (po, pb)
  }

  /** The probability fields of a particle snapshot in a width x height chamber. */
  function ProbabilityFields(ps: seq<ParticleState>, width: nat, height: nat): (Field, Field) {
    Probabilities(Density(ps, Orange, width, height), Density(ps, Blue, width, height))
  }
}
