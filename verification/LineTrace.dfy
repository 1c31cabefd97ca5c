/** The grid line tracer of the visual lane map. */
module LineTrace {

  datatype Cell = Cell(x: int, y: int)

  function Abs(x: int): nat { if x < 0 then -x else x }
  function Sign(x: int): int { if x < 0 then -1 else 1 }

  /** k counted in the direction of d. */
  function Along(d: int, k: int): int { if d < 0 then -k else k }

  /** Number of steps: the longer of the two extents. */
  function Steps(a: Cell, b: Cell): nat {
    var dx, dy := Abs(b.x - a.x), Abs(b.y - a.y);
    if dx > dy then dx else dy
  }

  /**
   * After k of n major steps with minor extent m, the minor offset q is the true one, k m / n,
   * rounded to the nearest cell (half-way points away from the start).
   */
  predicate Nearest(n: int, m: int, k: int, q: int) { -n <= 2 * (m * k) - 2 * (n * q) < n }

  /** The cell of the line from a to b after k steps along its longer axis. */
  predicate LineCell(a: Cell, b: Cell, k: int, c: Cell) {
    var dx, dy := Abs(b.x - a.x), Abs(b.y - a.y);
    if dx > dy then c.x == a.x + Along(b.x - a.x, k) && Nearest(dx, dy, k, Along(b.y - a.y, c.y - a.y))
    else if dy > 0 then c.y == a.y + Along(b.y - a.y, k) && Nearest(dy, dx, k, Along(b.x - a.x, c.x - a.x))
    else c == a
  }

  lemma MulSub(n: int, p: int, q: int)
    ensures n * (p - q) == n * p - n * q
  {}

  lemma MulAtLeast(n: int, d: int, c: int)
    requires n >= 0 && d >= c
    ensures n * d >= n * c
  {
    MulSub(n, d, c);
    assert n * (d - c) >= 0;
  }

  lemma NearestUnique(n: int, m: int, k: int, q: int, q': int)
    requires Nearest(n, m, k, q) && Nearest(n, m, k, q')
    ensures q == q'
  {
    MulSub(n, q, q');
    MulSub(n, q', q);
    if q > q' { MulAtLeast(n, q - q', 1); }
    if q < q' { MulAtLeast(n, q' - q, 1); }
  }

  /** Each step of the longer axis has exactly one cell. */
  lemma LineCellUnique(a: Cell, b: Cell, k: int, c: Cell, d: Cell)
    requires LineCell(a, b, k, c) && LineCell(a, b, k, d)
    ensures c == d
  {
    var dx, dy := Abs(b.x - a.x), Abs(b.y - a.y);
    if dx > dy {
      NearestUnique(dx, dy, k, Along(b.y - a.y, c.y - a.y), Along(b.y - a.y, d.y - a.y));
    } else if dy > 0 {
      NearestUnique(dy, dx, k, Along(b.x - a.x, c.x - a.x), Along(b.x - a.x, d.x - a.x));
    }
  }

  lemma NearestAtEnd(n: int, m: int)
    requires n > 0
    ensures Nearest(n, m, n, m) && Nearest(n, m, 0, 0)
  {
    assert m * n == n * m;
  }

  /** The line starts at its first point and ends exactly at its last one. */
  lemma LineEnds(a: Cell, b: Cell)
    ensures LineCell(a, b, 0, a) && LineCell(a, b, Steps(a, b), b)
  {
    var dx, dy := Abs(b.x - a.x), Abs(b.y - a.y);
    if dx > dy {
      NearestAtEnd(dx, dy);
    } else if dy > 0 {
      NearestAtEnd(dy, dx);
    }
  }

  lemma NearestSteps(n: int, m: int, k: int, q: int, q': int)
    requires 0 <= m <= n && Nearest(n, m, k, q) && Nearest(n, m, k + 1, q')
    ensures q' == q || q' == q + 1
  {
    MulSub(m, k + 1, k);
    MulSub(n, q', q);
    MulSub(n, q, q');
    if q' < q { MulAtLeast(n, q - q', 1); }
    if q' > q + 1 { MulAtLeast(n, q' - q, 2); }
  }

  /** Successive cells are neighbours: one step along the longer axis, at most one along the other. */
  lemma LineIsConnected(a: Cell, b: Cell, k: int, c: Cell, d: Cell)
    requires 0 <= k < Steps(a, b) && LineCell(a, b, k, c) && LineCell(a, b, k + 1, d)
    ensures Abs(d.x - c.x) <= 1 && Abs(d.y - c.y) <= 1 && c != d
  {
    var dx, dy := Abs(b.x - a.x), Abs(b.y - a.y);
    if dx > dy {
      NearestSteps(dx, dy, k, Along(b.y - a.y, c.y - a.y), Along(b.y - a.y, d.y - a.y));
    } else {
      NearestSteps(dy, dx, k, Along(b.x - a.x, c.x - a.x), Along(b.x - a.x, d.x - a.x));
    }
  }

  /** The code's error term after k steps. */
  function Fraction(n: int, m: int, k: int, q: int): int { 2 * (m * (k + 1)) - n - 2 * (n * q) }

  /** One step of the error term: it decides exactly whether the minor coordinate moves. */
  lemma ErrorTermDecides(n: int, m: int, k: int, q: int)
    requires 0 <= m <= n && Nearest(n, m, k, q)
    ensures var q', f := if Fraction(n, m, k, q) >= 0 then q + 1 else q, Fraction(n, m, k, q);
      Nearest(n, m, k + 1, q') && Fraction(n, m, k + 1, q') == f + 2 * m - (if f >= 0 then 2 * n else 0)
  {
    MulSub(m, k + 1, k);
    MulSub(m, k + 2, k + 1);
    MulSub(n, q + 1, q);
  }

  /** The cells visited are those of the line, in order. */
  ghost predicate Visits(a: Cell, b: Cell, cells: seq<Cell>) {
    forall k :: 0 <= k < |cells| ==> LineCell(a, b, k, cells[k])
  }

  /** No cell after the first asked to stop. */
  ghost predicate Unstopped(cells: seq<Cell>, stop: Cell -> bool) {
    forall k :: 0 < k < |cells| ==> !stop(cells[k])
  }

  /** What a trace promises: all cells up to the end, or up to the first one that stops it. */
  ghost predicate Traced(a: Cell, b: Cell, cells: seq<Cell>, stopped: bool, stop: Cell -> bool) {
    && cells != [] && Visits(a, b, cells)
    && (if stopped then 2 <= |cells| <= Steps(a, b) + 1 && stop(cells[|cells| - 1]) && Unstopped(cells[..|cells| - 1], stop)
        else |cells| == Steps(a, b) + 1 && cells[|cells| - 1] == b && Unstopped(cells, stop))
  }

  /** A trace that has made k steps without being stopped. */
  ghost predicate Tracing(a: Cell, b: Cell, cells: seq<Cell>, stop: Cell -> bool, k: int) {
    |cells| == k + 1 && k <= Steps(a, b) && Visits(a, b, cells) && Unstopped(cells, stop)
  }

  lemma TracingStep(a: Cell, b: Cell, cells: seq<Cell>, stop: Cell -> bool, k: int, c: Cell)
    requires 0 <= k < Steps(a, b) && Tracing(a, b, cells, stop, k) && LineCell(a, b, k + 1, c)
    ensures stop(c) ==> Traced(a, b, cells + [c], true, stop)
    ensures !stop(c) ==> Tracing(a, b, cells + [c], stop, k + 1)
  {
    assert (cells + [c])[..|cells|] == cells;
  }

  lemma TracingEnds(a: Cell, b: Cell, cells: seq<Cell>, stop: Cell -> bool, k: int)
    requires k == Steps(a, b) && Tracing(a, b, cells, stop, k)
    ensures Traced(a, b, cells, false, stop)
  {
    LineEnds(a, b);
    LineCellUnique(a, b, k, cells[k], b);
  }

  lemma TracingStarts(a: Cell, b: Cell, stop: Cell -> bool)
    ensures Tracing(a, b, [a], stop, 0)
  {
    LineEnds(a, b);
  }

  /** The loop for lines that are wider than high. */
  method LineX(x0: int, y0: int, x1: int, y1: int, stop: Cell -> bool) returns (cells: seq<Cell>, stopped: bool)
    requires Abs(x1 - x0) > Abs(y1 - y0)
    ensures Traced(Cell(x0, y0), Cell(x1, y1), cells, stopped, stop)
  {
    ghost var a, b := Cell(x0, y0), Cell(x1, y1);
    TracingStarts(a, b, stop);
    var dx, dy, stepx, stepy := Abs(x1 - x0), Abs(y1 - y0), Sign(x1 - x0), Sign(y1 - y0);
    var x, y, fraction: int := x0, y0, 2 * dy - dx;
    cells, stopped := [Cell(x, y)], false;
    ghost var k: int, q: int := 0, 0;
    while x != x1
      invariant 0 <= k <= dx && x == x0 + Along(x1 - x0, k) && y == y0 + Along(y1 - y0, q)
      invariant Tracing(a, b, cells, stop, k) && !stopped
      invariant dx > 0 ==> Nearest(dx, dy, k, q) && fraction == Fraction(dx, dy, k, q)
      decreases dx - k
    {
      ErrorTermDecides(dx, dy, k, q);
      if fraction >= 0 {
        y := y + stepy;
        q := q + 1;
        fraction := fraction - 2 * dx;
      }
      x := x + stepx;
      fraction := fraction + 2 * dy;
      TracingStep(a, b, cells, stop, k, Cell(x, y));
      k := k + 1;
      cells := cells + [Cell(x, y)];
      if stop(Cell(x, y)) {
        stopped := true;
        return;
      }
    }
    TracingEnds(a, b, cells, stop, k);
  }

  /** The loop for the other lines. */
  method LineY(x0: int, y0: int, x1: int, y1: int, stop: Cell -> bool) returns (cells: seq<Cell>, stopped: bool)
    requires Abs(x1 - x0) <= Abs(y1 - y0)
    ensures Traced(Cell(x0, y0), Cell(x1, y1), cells, stopped, stop)
  {
    ghost var a, b := Cell(x0, y0), Cell(x1, y1);
    TracingStarts(a, b, stop);
    var dx, dy, stepx, stepy := Abs(x1 - x0), Abs(y1 - y0), Sign(x1 - x0), Sign(y1 - y0);
    var x, y, fraction: int := x0, y0, 2 * dx - dy;
    cells, stopped := [Cell(x, y)], false;
    ghost var k: int, q: int := 0, 0;
    while y != y1
      invariant 0 <= k <= dy && y == y0 + Along(y1 - y0, k) && x == x0 + Along(x1 - x0, q)
      invariant Tracing(a, b, cells, stop, k) && !stopped
      invariant dy > 0 ==> Nearest(dy, dx, k, q) && fraction == Fraction(dy, dx, k, q)
      decreases dy - k
    {
      ErrorTermDecides(dy, dx, k, q);
      if fraction >= 0 {
        x := x + stepx;
        q := q + 1;
        fraction := fraction - 2 * dy;
      }
      y := y + stepy;
      fraction := fraction + 2 * dx;
      TracingStep(a, b, cells, stop, k, Cell(x, y));
      k := k + 1;
      cells := cells + [Cell(x, y)];
      if stop(Cell(x, y)) {
        stopped := true;
        return;
      }
    }
    TracingEnds(a, b, cells, stop, k);
  }

  /**
   * Trace from (x0, y0) to (x1, y1), calling back on each cell; the answer on the first cell is
   * ignored, any later one may stop the trace.
   */
  method Line(x0: int, y0: int, x1: int, y1: int, stop: Cell -> bool) returns (cells: seq<Cell>, stopped: bool)
    ensures Traced(Cell(x0, y0), Cell(x1, y1), cells, stopped, stop)
  {
    if Abs(x1 - x0) > Abs(y1 - y0) {
      cells, stopped := LineX(x0, y0, x1, y1, stop);
    } else {
      cells, stopped := LineY(x0, y0, x1, y1, stop);
    }
  }
}
