/** Day 12: a grid of heights, the cells one may climb to from a cell, and the
  * shortest of the paths found from every lowest cell. */
module Day12 {
  import opened Wrappers

  /** A cell: its column, its row and its height (`i32`, `i32` and `u32` in the source). */
  datatype Position = Position(x: int, y: int, value: nat)

  /** The source's `u32::MAX`, part two's answer when no start reaches the end. */
  const U32Max: nat := 0xFFFF_FFFF

  /** The four moves, in the order `neighbors` tries them: up, down, left, right. */
  const Deltas: seq<(int, int)> := [(0, -1), (0, 1), (-1, 0), (1, 0)]

  /** Every cell stores its own column and row. */
  predicate Indexed(positions: seq<seq<Position>>)
  {
    forall y, x :: 0 <= y < |positions| && 0 <= x < |positions[y]| ==>
      positions[y][x].x == x && positions[y][x].y == y
  }

  /** `|a - b|` on integers. */
  function Abs(a: int): nat
  {
    if a < 0 then -a else a
  }

  datatype Grid = Grid(positions: seq<seq<Position>>)
  {
    /** The cell at column `x` of row `y`, if there is one. */
    function Get(x: int, y: int): (r: Option<Position>)
      ensures r.Some? <==> 0 <= y < |positions| && 0 <= x < |positions[y]|
      ensures r.Some? ==> r.value == positions[y][x]
    {
      if x < 0 || y < 0 then None
      else if y >= |positions| then None
      else if x >= |positions[y]| then None
      else Some(positions[y][x])
    }

    /** The cell move `j` leads to from `p`, if it exists and is at most one higher. */
    function Reach(p: Position, j: nat): Option<Position>
      requires j < |Deltas|
    {
      var here := Get(p.x + Deltas[j].0, p.y + Deltas[j].1);
      if here.Some? && here.value.value <= p.value + 1 then here else None
    }

    /** The cells reachable from `p` by the first `k` moves, each with cost 1, in order. */
    function NeighborsUpTo(p: Position, k: nat): seq<(Position, nat)>
      requires k <= |Deltas|
    {
      if k == 0 then []
      else
        var here := Reach(p, k - 1);
        NeighborsUpTo(p, k - 1) + (if here.Some? then [(here.value, 1)] else [])
    }

    /** What `neighbors` returns. */
    function NeighborsOf(p: Position): seq<(Position, nat)>
    {
      NeighborsUpTo(p, |Deltas|)
    }

    /** neighbors: tries the four moves in turn and keeps the cells at most one higher. */
    method Neighbors(p: Position) returns (ns: seq<(Position, nat)>)
      ensures ns == NeighborsOf(p)
    {
      ns := [];
      for k := 0 to |Deltas|
        invariant ns == NeighborsUpTo(p, k)
      {
        var (dx, dy) := Deltas[k];
        var lookup := Get(p.x + dx, p.y + dy);
        if lookup.Some? {
          if lookup.value.value <= p.value + 1 {
            ns := ns + [(lookup.value, 1)];
          }
        }
      }
    }
  }

  /** `e` is a cell of the grid orthogonally next to `p`, at most one higher, at cost 1. */
  predicate Climbable(g: Grid, p: Position, e: (Position, nat))
  {
    e.1 == 1 && e.0.value <= p.value + 1 && Abs(e.0.x - p.x) + Abs(e.0.y - p.y) == 1 &&
    g.Get(e.0.x, e.0.y) == Some(e.0)
  }

  /** Each of the first `k` moves contributes at most once, a cell of the grid orthogonally next
    * to `p`, at most one higher, at cost 1; and every such cell reached by one of these moves
    * is there. */
  lemma {:induction false} NeighborsUpToSpec(g: Grid, p: Position, k: nat)
    requires Indexed(g.positions) && k <= |Deltas|
    ensures |g.NeighborsUpTo(p, k)| <= k
    ensures forall i :: 0 <= i < |g.NeighborsUpTo(p, k)| ==> Climbable(g, p, g.NeighborsUpTo(p, k)[i])
    ensures forall j :: 0 <= j < k && g.Reach(p, j).Some? ==> (g.Reach(p, j).value, 1) in g.NeighborsUpTo(p, k)
  {
    if k > 0 {
      NeighborsUpToSpec(g, p, k - 1);
      var prev := g.NeighborsUpTo(p, k - 1);
      var here := g.Reach(p, k - 1);
      var add := if here.Some? then [(here.value, 1)] else [];
      assert g.NeighborsUpTo(p, k) == prev + add;
      if here.Some? {
        ReachClimbable(g, p, k - 1);
      }
    }
  }

  /** A move up, down, left or right that lands on a cell at most one higher. */
  lemma ReachClimbable(g: Grid, p: Position, j: nat)
    requires Indexed(g.positions) && j < |Deltas| && g.Reach(p, j).Some?
    ensures Climbable(g, p, (g.Reach(p, j).value, 1))
  {
    var (dx, dy) := Deltas[j];
    var q := g.positions[p.y + dy][p.x + dx];
    assert q.x == p.x + dx && q.y == p.y + dy;
  }

  /** neighbors returns at most four cells, each next to `p` up, down, left or right, at most one
    * higher and at cost 1; and every such cell of the grid is among them. */
  lemma NeighborsSpec(g: Grid, p: Position)
    requires Indexed(g.positions)
    ensures |g.NeighborsOf(p)| <= 4
    ensures forall i :: 0 <= i < |g.NeighborsOf(p)| ==> Climbable(g, p, g.NeighborsOf(p)[i])
    ensures forall y, x ::
      (0 <= y < |g.positions| && 0 <= x < |g.positions[y]| &&
       Abs(x - p.x) + Abs(y - p.y) == 1 && g.positions[y][x].value <= p.value + 1) ==>
      (g.positions[y][x], 1) in g.NeighborsOf(p)
  {
    NeighborsUpToSpec(g, p, 4);
    forall y, x | 0 <= y < |g.positions| && 0 <= x < |g.positions[y]| &&
      Abs(x - p.x) + Abs(y - p.y) == 1 && g.positions[y][x].value <= p.value + 1
      ensures (g.positions[y][x], 1) in g.NeighborsOf(p)
    {
      var j := if y == p.y - 1 then 0 else if y == p.y + 1 then 1 else if x == p.x - 1 then 2 else 3;
      assert p.x + Deltas[j].0 == x && p.y + Deltas[j].1 == y;
      assert g.Reach(p, j) == Some(g.positions[y][x]);
    }
  }

  // ---------------------------------------------------------------------
  // Parsing.

  /** The height of a map character: 'a'..'z' are 1..26, the start 'S' is 1 and the end 'E'
    * is 26; any other character is None (the source panics). */
  function Height(c: char): (h: Option<nat>)
    ensures h.Some? ==> 1 <= h.value <= 26
    ensures h.Some? <==> 'a' <= c <= 'z' || c == 'S' || c == 'E'
  {
    if 'a' <= c <= 'z' then Some(c as int - 'a' as int + 1)
    else if c == 'S' then Some(1)
    else if c == 'E' then Some(26)
    else None
  }

  predicate ValidLine(line: string)
  {
    forall x :: 0 <= x < |line| ==> Height(line[x]).Some?
  }

  predicate ValidLines(lines: seq<string>)
  {
    forall y :: 0 <= y < |lines| ==> ValidLine(lines[y])
  }

  /** The cells of the first `n` characters of row `y`. */
  function RowOf(line: string, y: nat, n: nat): (r: seq<Position>)
    requires n <= |line| && forall x :: 0 <= x < n ==> Height(line[x]).Some?
    ensures |r| == n
  {
    seq(n, x requires 0 <= x < n => Position(x, y, Height(line[x]).value))
  }

  /** The rows of the first `n` lines. */
  function RowsOf(lines: seq<string>, n: nat): (r: seq<seq<Position>>)
    requires n <= |lines| && forall y :: 0 <= y < n ==> ValidLine(lines[y])
    ensures |r| == n
  {
    seq(n, y requires 0 <= y < n && ValidLine(lines[y]) => RowOf(lines[y], y, |lines[y]|))
  }

  /** The last column before `n` holding `c`. */
  function LastIn(line: string, c: char, n: nat): (r: Option<nat>)
    requires n <= |line|
    ensures r.Some? ==> r.value < n && line[r.value] == c && forall x :: r.value < x < n ==> line[x] != c
    ensures r.None? ==> forall x :: 0 <= x < n ==> line[x] != c
  {
    if n == 0 then None else if line[n - 1] == c then Some(n - 1) else LastIn(line, c, n - 1)
  }

  /** The last cell of the first `y` rows holding `c`, in reading order, as (column, row). */
  function MarkIn(lines: seq<string>, c: char, y: nat): (r: Option<(nat, nat)>)
    requires y <= |lines|
    ensures r.Some? ==> r.value.1 < y && r.value.0 < |lines[r.value.1]| && lines[r.value.1][r.value.0] == c
    ensures r.Some? ==> forall x :: r.value.0 < x < |lines[r.value.1]| ==> lines[r.value.1][x] != c
    ensures r.Some? ==> forall v, x :: r.value.1 < v < y && 0 <= x < |lines[v]| ==> lines[v][x] != c
    ensures r.None? ==> forall v, x :: 0 <= v < y && 0 <= x < |lines[v]| ==> lines[v][x] != c
  {
    if y == 0 then None
    else
      var l := LastIn(lines[y - 1], c, |lines[y - 1]|);
      if l.Some? then Some((l.value, y - 1)) else MarkIn(lines, c, y - 1)
  }

  /** The mark seen so far at column `x` of row `y`. */
  function Seen(lines: seq<string>, c: char, y: nat, x: nat): Option<(nat, nat)>
    requires y < |lines| && x <= |lines[y]|
  {
    var l := LastIn(lines[y], c, x);
    if l.Some? then Some((l.value, y)) else MarkIn(lines, c, y)
  }

  function AsPosition(m: Option<(nat, nat)>, value: nat): Option<Position>
  {
    if m.Some? then Some(Position(m.value.0, m.value.1, value)) else None
  }

  datatype Parse = Parse(positions: seq<seq<Position>>, start: Position, end: Position)

  /** What `parse_input` returns: the rows of cells, the last 'S' as the start and the last 'E'
    * as the end; None where a character is invalid or a marker is missing (panics). */
  function Parsed(lines: seq<string>): Option<Parse>
  {
    if !ValidLines(lines) then None
    else
      var s := AsPosition(MarkIn(lines, 'S', |lines|), 1);
      var e := AsPosition(MarkIn(lines, 'E', |lines|), 26);
      if s.None? || e.None? then None
      else Some(Parse(RowsOf(lines, |lines|), s.value, e.value))
  }

  /** The parse is defined exactly when every character is valid and both markers occur; then
    * every cell stores its own column and row and its character's height, the start is the
    * last 'S' at height 1, and the end is the last 'E' at height 26. */
  lemma ParsedSpec(lines: seq<string>)
    ensures Parsed(lines).Some? <==>
      (ValidLines(lines) &&
       (exists y, x :: 0 <= y < |lines| && 0 <= x < |lines[y]| && lines[y][x] == 'S') &&
       (exists y, x :: 0 <= y < |lines| && 0 <= x < |lines[y]| && lines[y][x] == 'E'))
    ensures Parsed(lines).Some? ==>
      var p := Parsed(lines).value;
      Indexed(p.positions) && |p.positions| == |lines| &&
      (forall y :: 0 <= y < |lines| ==> |p.positions[y]| == |lines[y]|) &&
      (forall y, x :: 0 <= y < |lines| && 0 <= x < |lines[y]| ==>
         Height(lines[y][x]) == Some(p.positions[y][x].value))
    ensures Parsed(lines).Some? ==>
      var p := Parsed(lines).value;
      0 <= p.start.y < |lines| && 0 <= p.start.x < |lines[p.start.y]| &&
      lines[p.start.y][p.start.x] == 'S' && p.start.value == 1 &&
      0 <= p.end.y < |lines| && 0 <= p.end.x < |lines[p.end.y]| &&
      lines[p.end.y][p.end.x] == 'E' && p.end.value == 26
  {
    if ValidLines(lines) {
      var ms := MarkIn(lines, 'S', |lines|);
      var me := MarkIn(lines, 'E', |lines|);
      if ms.Some? {
        assert lines[ms.value.1][ms.value.0] == 'S';
      }
      if me.Some? {
        assert lines[me.value.1][me.value.0] == 'E';
      }
    }
  }

  lemma RowOfNext(line: string, y: nat, n: nat)
    requires n < |line| && forall x :: 0 <= x <= n ==> Height(line[x]).Some?
    ensures RowOf(line, y, n + 1) == RowOf(line, y, n) + [Position(n, y, Height(line[n]).value)]
  {
  }

  lemma RowsOfNext(lines: seq<string>, n: nat)
    requires n < |lines| && forall y :: 0 <= y <= n ==> ValidLine(lines[y])
    ensures RowsOf(lines, n + 1) == RowsOf(lines, n) + [RowOf(lines[n], n, |lines[n]|)]
  {
  }

  /** One row of parse_input: each character's cell is pushed, and the markers are noted. */
  method ParseRow(lines: seq<string>, y: nat, start0: Option<Position>, end0: Option<Position>)
    returns (row: Option<seq<Position>>, start: Option<Position>, end: Option<Position>)
    requires y < |lines|
    requires start0 == AsPosition(MarkIn(lines, 'S', y), 1) && end0 == AsPosition(MarkIn(lines, 'E', y), 26)
    ensures row.None? <==> !ValidLine(lines[y])
    ensures row.Some? ==> row.value == RowOf(lines[y], y, |lines[y]|)
    ensures row.Some? ==> start == AsPosition(MarkIn(lines, 'S', y + 1), 1)
    ensures row.Some? ==> end == AsPosition(MarkIn(lines, 'E', y + 1), 26)
  {
    var line := lines[y];
    var cells: seq<Position> := [];
    start, end := start0, end0;
    for x := 0 to |line|
      invariant forall i :: 0 <= i < x ==> Height(line[i]).Some?
      invariant cells == RowOf(line, y, x)
      invariant start == AsPosition(Seen(lines, 'S', y, x), 1)
      invariant end == AsPosition(Seen(lines, 'E', y, x), 26)
    {
      var c := line[x];
      var value: nat;
      if 'a' <= c <= 'z' {
        value := c as int - 'a' as int + 1;
      } else if c == 'S' {
        start := Some(Position(x, y, 1));
        value := 1;
      } else if c == 'E' {
        end := Some(Position(x, y, 26));
        value := 26;
      } else {
        return None, start, end;
      }
      RowOfNext(line, y, x);
      cells := cells + [Position(x, y, value)];
    }
    return Some(cells), start, end;
  }

  /** parse_input: the rows in order, then the start and the end, which must both exist. */
  method ParseInput(lines: seq<string>) returns (r: Option<Parse>)
    ensures r == Parsed(lines)
  {
    var positions: seq<seq<Position>> := [];
    var start: Option<Position> := None;
    var end: Option<Position> := None;
    for y := 0 to |lines|
      invariant forall v :: 0 <= v < y ==> ValidLine(lines[v])
      invariant positions == RowsOf(lines, y)
      invariant start == AsPosition(MarkIn(lines, 'S', y), 1)
      invariant end == AsPosition(MarkIn(lines, 'E', y), 26)
    {
      var row;
      row, start, end := ParseRow(lines, y, start, end);
      if row.None? {
        return None;
      }
      RowsOfNext(lines, y);
      positions := positions + [row.value];
    }
    if start.None? || end.None? {
      return None;
    }
    return Some(Parse(positions, start.value, end.value));
  }

  // ---------------------------------------------------------------------
  // Part two: the lowest cells and the shortest of their paths.

  /** The cells of height 1 among the first `n` of `row`, in order. */
  function LowIn(row: seq<Position>, n: nat): seq<Position>
    requires n <= |row|
  {
    if n == 0 then [] else LowIn(row, n - 1) + (if row[n - 1].value == 1 then [row[n - 1]] else [])
  }

  /** The cells of height 1 in the first `m` rows, in reading order. */
  function LowUpTo(positions: seq<seq<Position>>, m: nat): seq<Position>
    requires m <= |positions|
  {
    if m == 0 then [] else LowUpTo(positions, m - 1) + LowIn(positions[m - 1], |positions[m - 1]|)
  }

  lemma {:induction false} LowInSpec(row: seq<Position>, n: nat)
    requires n <= |row|
    ensures forall q :: q in LowIn(row, n) <==> exists x :: 0 <= x < n && q == row[x] && q.value == 1
  {
    if n > 0 {
      LowInSpec(row, n - 1);
    }
  }

  /** The starts are exactly the cells of height 1. */
  lemma {:induction false} LowUpToSpec(positions: seq<seq<Position>>, m: nat)
    requires m <= |positions|
    ensures forall q :: q in LowUpTo(positions, m) <==>
      exists y, x :: 0 <= y < m && 0 <= x < |positions[y]| && q == positions[y][x] && q.value == 1
  {
    if m > 0 {
      LowUpToSpec(positions, m - 1);
      LowInSpec(positions[m - 1], |positions[m - 1]|);
      forall q | q in LowUpTo(positions, m)
        ensures exists y, x :: 0 <= y < m && 0 <= x < |positions[y]| && q == positions[y][x] && q.value == 1
      {
        if q !in LowUpTo(positions, m - 1) {
          var x :| 0 <= x < |positions[m - 1]| && q == positions[m - 1][x] && q.value == 1;
          assert q == positions[m - 1][x];
        }
      }
    }
  }

  /** The loop collecting `starts`. */
  method CollectStarts(positions: seq<seq<Position>>) returns (starts: seq<Position>)
    ensures starts == LowUpTo(positions, |positions|)
  {
    starts := [];
    for y := 0 to |positions|
      invariant starts == LowUpTo(positions, y)
    {
      var row := positions[y];
      for x := 0 to |row|
        invariant starts == LowUpTo(positions, y) + LowIn(row, x)
      {
        if row[x].value == 1 {
          starts := starts + [row[x]];
        }
      }
    }
  }

  /** The shortest path length over the first `n` starts, or `U32Max` if none has a path;
    * `search` stands for the A* call and gives the number of moves of the path it finds. */
  function ShortestUpTo(starts: seq<Position>, search: Position -> Option<nat>, n: nat): nat
    requires n <= |starts|
  {
    if n == 0 then U32Max
    else
      var best := ShortestUpTo(starts, search, n - 1);
      var found := search(starts[n - 1]);
      if found.Some? && found.value < best then found.value else best
  }

  /** The selection keeps the minimum: it is at most every found length, and it is one of them
    * unless it is `U32Max`. */
  lemma {:induction false} ShortestUpToSpec(starts: seq<Position>, search: Position -> Option<nat>, n: nat)
    requires n <= |starts|
    ensures ShortestUpTo(starts, search, n) <= U32Max
    ensures forall i :: 0 <= i < n && search(starts[i]).Some? ==>
      ShortestUpTo(starts, search, n) <= search(starts[i]).value
    ensures ShortestUpTo(starts, search, n) == U32Max ||
      exists i :: 0 <= i < n && search(starts[i]) == Some(ShortestUpTo(starts, search, n))
  {
    if n > 0 {
      ShortestUpToSpec(starts, search, n - 1);
    }
  }

  /** The loop over the starts keeping `shortest`. */
  method Shortest(starts: seq<Position>, search: Position -> Option<nat>) returns (shortest: nat)
    ensures shortest == ShortestUpTo(starts, search, |starts|)
  {
    shortest := U32Max;
    for i := 0 to |starts|
      invariant shortest == ShortestUpTo(starts, search, i)
    {
      var result := search(starts[i]);
      if result.Some? {
        if result.value < shortest {
          shortest := result.value;
        }
      }
    }
  }

  /** part_one: the length of the path found from the start; None where parsing panics or no
    * path is found (the source unwraps it). */
  method PartOne(lines: seq<string>, search: Position -> Option<nat>) returns (r: Option<nat>)
    ensures r.Some? <==> Parsed(lines).Some? && search(Parsed(lines).value.start).Some?
    ensures r.Some? ==> r == search(Parsed(lines).value.start)
  {
    var parsed := ParseInput(lines);
    if parsed.None? {
      return None;
    }
    r := search(parsed.value.start);
  }

  /** part_two: the shortest path over all cells of height 1 that have a path, or `U32Max`. */
  method PartTwo(lines: seq<string>, search: Position -> Option<nat>) returns (r: Option<nat>)
    ensures r.Some? <==> Parsed(lines).Some?
    ensures r.Some? ==> var g := Parsed(lines).value.positions;
      (forall y, x :: 0 <= y < |g| && 0 <= x < |g[y]| && g[y][x].value == 1 && search(g[y][x]).Some? ==>
         r.value <= search(g[y][x]).value) &&
      (r.value == U32Max ||
       exists y, x :: 0 <= y < |g| && 0 <= x < |g[y]| && g[y][x].value == 1 && search(g[y][x]) == Some(r.value))
  {
    var parsed := ParseInput(lines);
    if parsed.None? {
      return None;
    }
    var g := parsed.value.positions;
    var starts := CollectStarts(g);
    var shortest := Shortest(starts, search);
    LowUpToSpec(g, |g|);
    ShortestUpToSpec(starts, search, |starts|);
    forall y, x | 0 <= y < |g| && 0 <= x < |g[y]| && g[y][x].value == 1 && search(g[y][x]).Some?
      ensures shortest <= search(g[y][x]).value
    {
      assert g[y][x] in starts;
      var i :| 0 <= i < |starts| && starts[i] == g[y][x];
    }
    if shortest != U32Max {
      var i :| 0 <= i < |starts| && search(starts[i]) == Some(shortest);
      assert starts[i] in starts;
    }
    return Some(shortest);
  }
}
