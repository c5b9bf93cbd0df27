/**
 * Day 8: a rectangular grid of tree heights. A tree is visible when it is taller than
 * every tree between it and the border in some direction; its scenic score multiplies
 * how far one can see in the four directions.
 */
module Day08 {
  import opened Wrappers
  import opened Text
  import opened Seqs

  type Forest = seq<seq<nat>>

  // ---------------------------------------------------------------------
  // Parsing: one row per line, one height per digit.

  function DigitOf(c: char): (d: nat)
    requires IsDigit(c)
    ensures d < 10
  {
    c as int - '0' as int
  }

  /** A row of heights; `to_digit(10).unwrap()` panics on any other character. */
  function ParseRow(line: string): (r: Option<seq<nat>>)
    ensures r.Some? <==> AllDigits(line)
    ensures r.Some? ==> |r.value| == |line|
    ensures r.Some? ==> forall i :: 0 <= i < |line| ==> r.value[i] == line[i] as int - '0' as int
  {
    if line == [] then Some([])
    else if !IsDigit(line[0]) then None
    else
      match ParseRow(line[1..])
      case None => None
      case Some(rest) => Some([DigitOf(line[0])] + rest)
  }

  function RenderRow(row: seq<nat>): (s: string)
    requires forall i :: 0 <= i < |row| ==> row[i] < 10
  {
    if row == [] then [] else [('0' as int + row[0]) as char] + RenderRow(row[1..])
  }

  /** Parsing a rendered row of single-digit heights gives the row back. */
  lemma {:induction false} ParseRender(row: seq<nat>)
    requires forall i :: 0 <= i < |row| ==> row[i] < 10
    ensures ParseRow(RenderRow(row)) == Some(row)
  {
    if row != [] {
      ParseRender(row[1..]);
      assert RenderRow(row)[1..] == RenderRow(row[1..]);
      assert [row[0]] + row[1..] == row;
    }
  }

  function ParseInput(lines: seq<string>): (r: Option<Forest>)
    ensures r.Some? <==> forall i :: 0 <= i < |lines| ==> AllDigits(lines[i])
    ensures r.Some? ==> |r.value| == |lines|
    ensures r.Some? ==> forall i :: 0 <= i < |lines| ==> ParseRow(lines[i]) == Some(r.value[i])
  {
    if lines == [] then Some([])
    else
      match ParseRow(lines[0])
      case None => None
      case Some(row) =>
        match ParseInput(lines[1..])
        case None =>
          assert forall i :: 1 <= i < |lines| ==> lines[i] == lines[1..][i - 1];
          None
        case Some(rest) => Some([row] + rest)
  }

  // ---------------------------------------------------------------------
  // The four lines of sight, in the order the source walks them.

  function Cols(f: Forest): nat
  {
    if f == [] then 0 else |f[0]|
  }

  predicate Rectangular(f: Forest)
  {
    forall i :: 0 <= i < |f| ==> |f[i]| == Cols(f)
  }

  predicate InGrid(f: Forest, x: nat, y: nat)
  {
    Rectangular(f) && x < |f| && y < Cols(f)
  }

  // Each line starts next to the tree and runs towards the border.

  function LeftOf(f: Forest, x: nat, y: nat): seq<nat>
    requires InGrid(f, x, y)
  {
    seq(y, i requires 0 <= i < y => f[x][y - 1 - i])
  }

  function RightOf(f: Forest, x: nat, y: nat): seq<nat>
    requires InGrid(f, x, y)
  {
    f[x][y + 1..]
  }

  function DownOf(f: Forest, x: nat, y: nat): seq<nat>
    requires InGrid(f, x, y)
  {
    seq(|f| - x - 1, i requires 0 <= i < |f| - x - 1 => f[x + 1 + i][y])
  }

  function UpOf(f: Forest, x: nat, y: nat): seq<nat>
    requires InGrid(f, x, y)
  {
    seq(x, i requires 0 <= i < x => f[x - 1 - i][y])
  }

  // ---------------------------------------------------------------------
  // Part one: visibility.

  predicate AllShorter(ts: seq<nat>, h: nat)
  {
    forall i :: 0 <= i < |ts| ==> ts[i] < h
  }

  predicate Visible(f: Forest, x: nat, y: nat)
    requires InGrid(f, x, y)
  {
    var h := f[x][y];
    AllShorter(LeftOf(f, x, y), h) || AllShorter(RightOf(f, x, y), h) ||
    AllShorter(DownOf(f, x, y), h) || AllShorter(UpOf(f, x, y), h)
  }

  /** Visible exactly when strictly taller than every tree up to the border in one direction. */
  lemma VisibleIff(f: Forest, x: nat, y: nat)
    requires InGrid(f, x, y)
    ensures Visible(f, x, y) <==>
              (forall k :: 0 <= k < y ==> f[x][k] < f[x][y]) ||
              (forall k :: y < k < Cols(f) ==> f[x][k] < f[x][y]) ||
              (forall r :: x < r < |f| ==> f[r][y] < f[x][y]) ||
              (forall r :: 0 <= r < x ==> f[r][y] < f[x][y])
  {
    var h := f[x][y];
    var left, right, down, up := LeftOf(f, x, y), RightOf(f, x, y), DownOf(f, x, y), UpOf(f, x, y);
    assert AllShorter(left, h) <==> forall k :: 0 <= k < y ==> f[x][k] < h by {
      if AllShorter(left, h) {
        forall k | 0 <= k < y ensures f[x][k] < h {
          assert left[y - 1 - k] == f[x][k];
        }
      }
    }
    assert AllShorter(right, h) <==> forall k :: y < k < Cols(f) ==> f[x][k] < h by {
      if AllShorter(right, h) {
        forall k | y < k < Cols(f) ensures f[x][k] < h {
          assert right[k - y - 1] == f[x][k];
        }
      }
    }
    assert AllShorter(down, h) <==> forall r :: x < r < |f| ==> f[r][y] < h by {
      if AllShorter(down, h) {
        forall r | x < r < |f| ensures f[r][y] < h {
          assert down[r - x - 1] == f[r][y];
        }
      }
    }
    assert AllShorter(up, h) <==> forall r :: 0 <= r < x ==> f[r][y] < h by {
      if AllShorter(up, h) {
        forall r | 0 <= r < x ensures f[r][y] < h {
          assert up[x - 1 - r] == f[r][y];
        }
      }
    }
  }

  predicate OnBorder(f: Forest, x: nat, y: nat)
  {
    x == 0 || y == 0 || x + 1 == |f| || y + 1 == Cols(f)
  }

  /** A border tree has an empty line of sight, so it is always visible. */
  lemma BorderVisible(f: Forest, x: nat, y: nat)
    requires InGrid(f, x, y) && OnBorder(f, x, y)
    ensures Visible(f, x, y)
  {
    if x == 0 {
      assert UpOf(f, x, y) == [];
    } else if y == 0 {
      assert LeftOf(f, x, y) == [];
    } else if x + 1 == |f| {
      assert DownOf(f, x, y) == [];
    } else {
      assert RightOf(f, x, y) == [];
    }
  }

  /** The visible trees among the first n of row x. */
  function CountRow(f: Forest, x: nat, n: nat): (c: nat)
    requires Rectangular(f) && x < |f| && n <= Cols(f)
    ensures c <= n
  {
    if n == 0 then 0 else CountRow(f, x, n - 1) + (if Visible(f, x, n - 1) then 1 else 0)
  }

  /** The visible trees among the first m rows: never more than the trees there. */
  function Count(f: Forest, m: nat): (c: nat)
    requires Rectangular(f) && m <= |f|
    ensures c <= m * Cols(f)
  {
    if m == 0 then 0
    else
      var c := Count(f, m - 1) + CountRow(f, m - 1, Cols(f));
      assert (m - 1) * Cols(f) + Cols(f) == m * Cols(f);
      c
  }

  /** `determine_visible`: the nested loop over rows and trees counts the visible ones. */
  method DetermineVisible(f: Forest) returns (visible: nat)
    requires Rectangular(f)
    ensures visible == Count(f, |f|)
  {
    visible := 0;
    for x := 0 to |f|
      invariant visible == Count(f, x)
    {
      var inRow := VisibleInRow(f, x);
      visible := visible + inRow;
    }
  }

  /** The inner loop of `determine_visible`, over the trees of row x. */
  method VisibleInRow(f: Forest, x: nat) returns (visible: nat)
    requires Rectangular(f) && x < |f|
    ensures visible == CountRow(f, x, Cols(f))
  {
    visible := 0;
    for y := 0 to |f[x]|
      invariant visible == CountRow(f, x, y)
    {
      if Visible(f, x, y) {
        visible := visible + 1;
      }
    }
  }

  // ---------------------------------------------------------------------
  // Part two: viewing distances and scenic scores.

  /** The length of the leading run of trees shorter than h (`take_while`). */
  function TakeShorter(ts: seq<nat>, h: nat): (k: nat)
    ensures k <= |ts| && forall i :: 0 <= i < k ==> ts[i] < h
    ensures k < |ts| ==> ts[k] >= h
  {
    if ts == [] || ts[0] >= h then 0 else 1 + TakeShorter(ts[1..], h)
  }

  /**
   * How far one sees along ts from a tree of height h: nothing at the border, the whole
   * line when every tree is shorter, and otherwise up to and including the first tree at
   * least as tall.
   */
  function ViewDistance(ts: seq<nat>, h: nat): (d: nat)
    ensures d <= |ts|
    ensures d == 0 <==> ts == []
    ensures AllShorter(ts, h) ==> d == |ts|
    ensures !AllShorter(ts, h) ==> 1 <= d && ts[d - 1] >= h && forall i :: 0 <= i < d - 1 ==> ts[i] < h
  {
    if |ts| == 0 then 0
    else
      var k := TakeShorter(ts, h);
      if k == |ts| then k else k + 1
  }

  const U32: nat := 0x1_0000_0000

  /** The product of the four viewing distances, truncated to `u32` by `as u32`. */
  function Score(f: Forest, x: nat, y: nat): (s: nat)
    requires InGrid(f, x, y)
    ensures s < U32
  {
    var h := f[x][y];
    (ViewDistance(LeftOf(f, x, y), h) * ViewDistance(RightOf(f, x, y), h) *
     ViewDistance(DownOf(f, x, y), h) * ViewDistance(UpOf(f, x, y), h)) % U32
  }

  /** Every border tree scores zero: one of its lines of sight is empty. */
  lemma BorderScoresZero(f: Forest, x: nat, y: nat)
    requires InGrid(f, x, y) && OnBorder(f, x, y)
    ensures Score(f, x, y) == 0
  {
    var h := f[x][y];
    var l, r, d, u := ViewDistance(LeftOf(f, x, y), h), ViewDistance(RightOf(f, x, y), h),
                      ViewDistance(DownOf(f, x, y), h), ViewDistance(UpOf(f, x, y), h);
    if x == 0 {
      assert UpOf(f, x, y) == [];
      assert u == 0;
    } else if y == 0 {
      assert LeftOf(f, x, y) == [];
      assert l == 0;
    } else if x + 1 == |f| {
      assert DownOf(f, x, y) == [];
      assert d == 0;
    } else {
      assert RightOf(f, x, y) == [];
      assert r == 0;
    }
    ProductZero(l, r, d, u);
  }

  lemma ProductZero(a: nat, b: nat, c: nat, d: nat)
    requires a == 0 || b == 0 || c == 0 || d == 0
    ensures (a * b * c * d) % U32 == 0
  {
    assert a * b * c * d == 0;
  }

  /** The scores along row x, as a function of the column. */
  function RowScorer(f: Forest, x: nat): nat --> nat
    requires Rectangular(f) && x < |f|
  {
    (y: nat) requires y < Cols(f) => Score(f, x, y)
  }

  /** The score rows, as a function of the row. */
  function Scorer(f: Forest): nat --> seq<nat>
    requires Rectangular(f)
  {
    (x: nat) requires x < |f| => Tabulate(Cols(f), RowScorer(f, x))
  }

  /** Entry (x, y) of the score grid is the score of tree (x, y). */
  lemma ScoresAt(f: Forest, x: nat, y: nat)
    requires InGrid(f, x, y)
    ensures |Tabulate(|f|, Scorer(f))[x]| == Cols(f)
    ensures Tabulate(|f|, Scorer(f))[x][y] == Score(f, x, y)
  {
    TabulateAt(|f|, Scorer(f), x);
    TabulateAt(Cols(f), RowScorer(f, x), y);
  }

  /** `determine_scores`: one row of scores per row of trees, one score per tree. */
  method DetermineScores(f: Forest) returns (scores: seq<seq<nat>>)
    requires Rectangular(f)
    ensures scores == Tabulate(|f|, Scorer(f))
  {
    ghost var g := Scorer(f);
    scores := [];
    for x := 0 to |f|
      invariant scores == Tabulate(x, g)
    {
      var rowScores := RowScores(f, x);
      scores := scores + [rowScores];
    }
  }

  /** The inner loop of `determine_scores`, pushing the scores of row x. */
  method RowScores(f: Forest, x: nat) returns (rowScores: seq<nat>)
    requires Rectangular(f) && x < |f|
    ensures rowScores == Tabulate(Cols(f), RowScorer(f, x))
  {
    ghost var g := RowScorer(f, x);
    rowScores := [];
    for y := 0 to |f[x]|
      invariant rowScores == Tabulate(y, g)
    {
      var score := Score(f, x, y);
      RowScorerNext(f, x, y);
      rowScores := rowScores + [score];
    }
  }

  lemma RowScorerNext(f: Forest, x: nat, y: nat)
    requires InGrid(f, x, y)
    ensures Tabulate(y + 1, RowScorer(f, x)) == Tabulate(y, RowScorer(f, x)) + [Score(f, x, y)]
  {
  }

  /**
   * part two's `max().unwrap()` over each row and then over the rows: the largest score,
   * or `None` (a panic) when there are no rows or some row is empty.
   */
  function MaxScore(scores: seq<seq<nat>>): (r: Option<nat>)
    ensures r.None? <==> scores == [] || exists x :: 0 <= x < |scores| && scores[x] == []
    ensures r.Some? ==> exists x, y :: 0 <= x < |scores| && 0 <= y < |scores[x]| && scores[x][y] == r.value
    ensures r.Some? ==> forall x, y :: 0 <= x < |scores| && 0 <= y < |scores[x]| ==> scores[x][y] <= r.value
  {
    if scores == [] || exists x :: 0 <= x < |scores| && scores[x] == [] then None
    else
      var maxima := seq(|scores|, x requires 0 <= x < |scores| => Max(scores[x]));
      var m := Max(maxima);
      assert forall i, j :: 0 <= i < |scores| && 0 <= j < |scores[i]| ==> scores[i][j] <= maxima[i];
      assert forall i :: 0 <= i < |scores| ==> maxima[i] in scores[i];
      Some(m)
  }

  // ---------------------------------------------------------------------
  // The answers. A line with a non-digit panics in parsing; rows of unequal
  // lengths make some line of sight index past the end of a shorter row.

  method PartOne(lines: seq<string>) returns (r: Option<nat>)
    ensures r.Some? <==> ParseInput(lines).Some? && Rectangular(ParseInput(lines).value)
    ensures r.Some? ==> var f := ParseInput(lines).value; r.value == Count(f, |f|)
  {
    var forest := ParseInput(lines);
    if forest.None? || !Rectangular(forest.value) {
      return None;
    }
    var visible := DetermineVisible(forest.value);
    r := Some(visible);
  }

  method PartTwo(lines: seq<string>) returns (r: Option<nat>)
    ensures match ParseInput(lines)
            case None => r.None?
            case Some(f) => r == if Rectangular(f) then MaxScore(Tabulate(|f|, Scorer(f))) else None
  {
    var forest := ParseInput(lines);
    if forest.None? || !Rectangular(forest.value) {
      return None;
    }
    var scores := DetermineScores(forest.value);
    r := MaxScore(scores);
  }

  /** The score grid has one row per row of trees, each as long as the rows of trees. */
  lemma GridShape(f: Forest)
    requires Rectangular(f)
    ensures forall i :: 0 <= i < |f| ==> |Tabulate(|f|, Scorer(f))[i]| == Cols(f)
  {
    forall i | 0 <= i < |f|
      ensures |Tabulate(|f|, Scorer(f))[i]| == Cols(f)
    {
      TabulateAt(|f|, Scorer(f), i);
    }
  }

  /** Part two's answer bounds the score of every tree. */
  lemma BestScoreBounds(f: Forest, x: nat, y: nat)
    requires InGrid(f, x, y)
    ensures MaxScore(Tabulate(|f|, Scorer(f))).Some?
    ensures Score(f, x, y) <= MaxScore(Tabulate(|f|, Scorer(f))).value
  {
    var scores := Tabulate(|f|, Scorer(f));
    GridShape(f);
    assert scores[x] != [];
    ScoresAt(f, x, y);
  }

  /**
   * Part two's answer exists exactly when there are trees. MaxScore then makes it an entry
   * of the grid, and ScoresAt makes that entry a tree's score.
   */
  lemma BestScoreExists(f: Forest)
    requires Rectangular(f)
    ensures MaxScore(Tabulate(|f|, Scorer(f))).Some? <==> |f| > 0 && Cols(f) > 0
  {
    var scores := Tabulate(|f|, Scorer(f));
    GridShape(f);
    if |f| > 0 && Cols(f) == 0 {
      assert scores[0] == [];
    }
  }
}
