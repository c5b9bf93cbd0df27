/** Day 14: rock paths are scanned into a cave, and sand poured in at (500, 0)
  * falls down, down-left or down-right until it comes to rest. */
module Day14 {
  import opened Wrappers
  import opened Text
  import Seqs

  /** A scanned point `x,y` (both `u64` in the source). */
  type Rock = (nat, nat)

  // ---------------------------------------------------------------------
  // Parsing one path line `x,y -> x,y -> ...`.

  /** One endpoint: the trimmed piece split at commas, whose first two parts must parse;
    * None where the source's `unwrap` or index panics. */
  function ParsePoint(s: string): Option<Rock>
  {
    var v := Split(Trim(s), ',');
    if |v| < 2 then None
    else
      var x := ParseUnsigned(v[0], U64);
      var y := ParseUnsigned(v[1], U64);
      if x.Some? && y.Some? then Some((x.value, y.value)) else None
  }

  /** A point written as `x,y` parses back to itself. */
  lemma ParsePointRender(x: nat, y: nat)
    requires x < U64 && y < U64
    ensures ParsePoint(Decimal(x) + [','] + Decimal(y)) == Some((x, y))
  {
    PointText(Decimal(x), Decimal(y));
    DecimalRoundTrip(x, U64);
    DecimalRoundTrip(y, U64);
  }

  /** Two numbers written with a comma between them are trimmed to themselves and split back
    * into the two numbers. */
  lemma PointText(dx: string, dy: string)
    requires dx != [] && AllDigits(dx) && dy != [] && AllDigits(dy)
    ensures Split(Trim(dx + [','] + dy), ',') == [dx, dy]
  {
    var s := dx + [','] + dy;
    assert s[0] == dx[0] && s[|s| - 1] == dy[|dy| - 1];
    TrimUnspaced(s);
    assert ',' !in dx by { assert forall i :: 0 <= i < |dx| ==> IsDigit(dx[i]); }
    assert ',' !in dy by { assert forall i :: 0 <= i < |dy| ==> IsDigit(dy[i]); }
    assert Join([dx, dy], ',') == s by { assert [dx, dy][1..] == [dy]; }
    SplitJoin([dx, dy], ',');
  }

  /** The values of `opts`, if none is missing. */
  function AllPresent(opts: seq<Option<Rock>>): Option<seq<Rock>>
  {
    if opts == [] then Some([])
    else
      var rest := AllPresent(opts[1..]);
      if opts[0].Some? && rest.Some? then Some([opts[0].value] + rest.value) else None
  }

  lemma {:induction false} AllPresentSpec(opts: seq<Option<Rock>>)
    ensures AllPresent(opts).Some? <==> forall i :: 0 <= i < |opts| ==> opts[i].Some?
    ensures AllPresent(opts).Some? ==> |AllPresent(opts).value| == |opts|
    ensures AllPresent(opts).Some? ==>
      forall i :: 0 <= i < |opts| ==> AllPresent(opts).value[i] == opts[i].value
  {
    if opts != [] {
      AllPresentSpec(opts[1..]);
      assert forall i :: 1 <= i < |opts| ==> opts[i] == opts[1..][i - 1];
    }
  }

  /** Each piece's point, or None where it does not parse. */
  function PointsOf(pieces: seq<string>): (r: seq<Option<Rock>>)
    ensures |r| == |pieces|
  {
    seq(|pieces|, i requires 0 <= i < |pieces| => ParsePoint(pieces[i]))
  }

  /** The endpoints of a path line, split at `->`: None where a piece does not parse. */
  function ParseLine(line: string): Option<seq<Rock>>
  {
    AllPresent(PointsOf(SplitOn(line, "->")))
  }

  /** A line is rejected exactly when one of its pieces does not parse, and otherwise its
    * endpoints are the pieces' points, in order. */
  lemma EndpointsSpec(pieces: seq<string>)
    ensures AllPresent(PointsOf(pieces)).Some? <==> forall i :: 0 <= i < |pieces| ==> ParsePoint(pieces[i]).Some?
    ensures AllPresent(PointsOf(pieces)).Some? ==> |AllPresent(PointsOf(pieces)).value| == |pieces|
    ensures AllPresent(PointsOf(pieces)).Some? ==>
      forall i :: 0 <= i < |pieces| ==> AllPresent(PointsOf(pieces)).value[i] == ParsePoint(pieces[i]).value
  {
    var opts := PointsOf(pieces);
    AllPresentSpec(opts);
    assert forall i :: 0 <= i < |pieces| ==> opts[i] == ParsePoint(pieces[i]);
  }

  // ---------------------------------------------------------------------
  // Segment expansion.

  /** `n` points of column `x`, from row `lo` downwards. */
  function Column(x: nat, lo: nat, n: nat): (r: seq<Rock>)
    ensures |r| == n && forall i :: 0 <= i < n ==> r[i] == (x, lo + i)
  {
    seq(n, i requires 0 <= i < n => (x, lo + i))
  }

  /** `n` points of row `y`, from column `lo` rightwards. */
  function Row(y: nat, lo: nat, n: nat): (r: seq<Rock>)
    ensures |r| == n && forall i :: 0 <= i < n ==> r[i] == (lo + i, y)
  {
    seq(n, i requires 0 <= i < n => (lo + i, y))
  }

  /** Strictly horizontal or strictly vertical: the only segments the source accepts. */
  predicate Straight(a: Rock, b: Rock)
  {
    (a.0 == b.0 && a.1 != b.1) || (a.1 == b.1 && a.0 != b.0)
  }

  function Min(a: nat, b: nat): nat { if a <= b then a else b }
  function Max(a: nat, b: nat): nat { if a <= b then b else a }

  /** `p` lies in the box spanned by `a` and `b` (for a straight segment: on it). */
  predicate Between(a: Rock, b: Rock, p: Rock)
  {
    Min(a.0, b.0) <= p.0 <= Max(a.0, b.0) && Min(a.1, b.1) <= p.1 <= Max(a.1, b.1)
  }

  /** The points one window of endpoints pushes, lowest coordinate first whichever way the
    * segment runs; None for a segment that is not straight (the source panics). */
  function Segment(a: Rock, b: Rock): Option<seq<Rock>>
  {
    var (x1, y1) := a;
    var (x2, y2) := b;
    if x1 == x2 && y1 < y2 then Some(Column(x1, y1, y2 - y1 + 1))
    else if x1 == x2 && y1 > y2 then Some(Column(x1, y2, y1 - y2 + 1))
    else if x1 < x2 && y1 == y2 then Some(Row(y1, x1, x2 - x1 + 1))
    else if x1 > x2 && y1 == y2 then Some(Row(y1, x2, x1 - x2 + 1))
    else None
  }

  /** A segment is expanded exactly when it is straight, and then into every point between
    * its endpoints inclusive, each once. */
  lemma SegmentPoints(a: Rock, b: Rock)
    ensures Segment(a, b).Some? <==> Straight(a, b)
    ensures Segment(a, b).Some? ==>
      |Segment(a, b).value| == Max(a.0, b.0) - Min(a.0, b.0) + Max(a.1, b.1) - Min(a.1, b.1) + 1
    ensures Segment(a, b).Some? ==> forall p :: p in Segment(a, b).value <==> Between(a, b, p)
  {
    if Straight(a, b) {
      var seg := Segment(a, b).value;
      forall p: Rock | Between(a, b, p)
        ensures p in seg
      {
        if a.0 == b.0 {
          assert seg[p.1 - Min(a.1, b.1)] == p;
        } else {
          assert seg[p.0 - Min(a.0, b.0)] == p;
        }
      }
    }
  }

  /** The number of windows of consecutive endpoints. */
  function Windows(eps: seq<Rock>): nat
  {
    if |eps| < 2 then 0 else |eps| - 1
  }

  /** The points pushed for the first `k` windows of a path. */
  function PathRocks(eps: seq<Rock>, k: nat): Option<seq<Rock>>
    requires k <= Windows(eps)
  {
    if k == 0 then Some([])
    else
      var rs := PathRocks(eps, k - 1);
      var seg := Segment(eps[k - 1], eps[k]);
      if rs.Some? && seg.Some? then Some(rs.value + seg.value) else None
  }

  /** Once a window fails, so does the whole path. */
  lemma {:induction false} PathRocksNone(eps: seq<Rock>, k: nat, m: nat)
    requires k <= m <= Windows(eps)
    requires PathRocks(eps, k).None?
    ensures PathRocks(eps, m).None?
    decreases m
  {
    if m > k {
      PathRocksNone(eps, k, m - 1);
    }
  }

  /** A path's points are those of its windows, and it fails where any window is not straight. */
  lemma {:induction false} PathRocksPoints(eps: seq<Rock>, k: nat)
    requires k <= Windows(eps)
    ensures PathRocks(eps, k).Some? <==> forall j :: 0 <= j < k ==> Straight(eps[j], eps[j + 1])
    ensures PathRocks(eps, k).Some? ==>
      forall p :: p in PathRocks(eps, k).value <==> exists j :: 0 <= j < k && Between(eps[j], eps[j + 1], p)
  {
    if k > 0 {
      PathRocksPoints(eps, k - 1);
      SegmentPoints(eps[k - 1], eps[k]);
      if PathRocks(eps, k).Some? {
        var rs := PathRocks(eps, k - 1).value;
        var seg := Segment(eps[k - 1], eps[k]).value;
        assert PathRocks(eps, k).value == rs + seg;
        forall p
          ensures p in rs + seg <==> exists j :: 0 <= j < k && Between(eps[j], eps[j + 1], p)
        {
          if p in seg {
            assert Between(eps[k - 1], eps[k], p);
          }
        }
      }
    }
  }

  /** The points of one line, or None where it does not parse or a segment is not straight. */
  function LineRocks(line: string): Option<seq<Rock>>
  {
    var eps := ParseLine(line);
    if eps.Some? then PathRocks(eps.value, Windows(eps.value)) else None
  }

  /** The points pushed for the first `n` lines, given each line's own points. */
  function Flatten(parts: seq<Option<seq<Rock>>>, n: nat): Option<seq<Rock>>
    requires n <= |parts|
  {
    if n == 0 then Some([])
    else
      var rs := Flatten(parts, n - 1);
      var seg := parts[n - 1];
      if rs.Some? && seg.Some? then Some(rs.value + seg.value) else None
  }

  /** Each line's points, or None for a line the source panics on. */
  function PerLine(lines: seq<string>): (r: seq<Option<seq<Rock>>>)
    ensures |r| == |lines|
  {
    seq(|lines|, i requires 0 <= i < |lines| => LineRocks(lines[i]))
  }

  /** What `parse_input` returns: the rock locations of every line, in order. */
  function RockLocations(lines: seq<string>): Option<seq<Rock>>
  {
    Flatten(PerLine(lines), |lines|)
  }

  /** Once a line fails, so does the whole input. */
  lemma {:induction false} FlattenNone(parts: seq<Option<seq<Rock>>>, n: nat, m: nat)
    requires n <= m <= |parts|
    requires Flatten(parts, n).None?
    ensures Flatten(parts, m).None?
    decreases m
  {
    if m > n {
      FlattenNone(parts, n, m - 1);
    }
  }

  /** The input parses exactly when every line does, and its rock locations are those of its lines. */
  lemma {:induction false} FlattenPoints(parts: seq<Option<seq<Rock>>>, n: nat)
    requires n <= |parts|
    ensures Flatten(parts, n).Some? <==> forall i :: 0 <= i < n ==> parts[i].Some?
    ensures Flatten(parts, n).Some? ==>
      forall p :: p in Flatten(parts, n).value <==> exists i :: 0 <= i < n && p in parts[i].value
  {
    if n > 0 {
      FlattenPoints(parts, n - 1);
      if Flatten(parts, n).Some? {
        var rs := Flatten(parts, n - 1).value;
        var seg := parts[n - 1].value;
        assert Flatten(parts, n).value == rs + seg;
        forall p
          ensures p in rs + seg <==> exists i :: 0 <= i < n && p in parts[i].value
        {
          if p in seg {
            assert p in parts[n - 1].value;
          }
        }
      }
    }
  }

  lemma ColumnNext(x: nat, lo: nat, n: nat)
    ensures Column(x, lo, n + 1) == Column(x, lo, n) + [(x, lo + n)]
  {
  }

  lemma RowNext(y: nat, lo: nat, n: nat)
    ensures Row(y, lo, n + 1) == Row(y, lo, n) + [(lo + n, y)]
  {
  }

  /** Pushes the points of one window onto `rocks`, in the source's order. */
  method PushSegment(rocks: seq<Rock>, a: Rock, b: Rock) returns (r: Option<seq<Rock>>)
    ensures r.None? <==> Segment(a, b).None?
    ensures r.Some? ==> r.value == rocks + Segment(a, b).value
  {
    var (x1, y1) := a;
    var (x2, y2) := b;
    var out := rocks;
    if x1 == x2 && y1 < y2 {
      for y := y1 to y2 + 1
        invariant out == rocks + Column(x1, y1, y - y1)
      {
        ColumnNext(x1, y1, y - y1);
        out := out + [(x1, y)];
      }
    } else if x1 == x2 && y1 > y2 {
      for y := y2 to y1 + 1
        invariant out == rocks + Column(x1, y2, y - y2)
      {
        ColumnNext(x1, y2, y - y2);
        out := out + [(x1, y)];
      }
    } else if x1 < x2 && y1 == y2 {
      for x := x1 to x2 + 1
        invariant out == rocks + Row(y1, x1, x - x1)
      {
        RowNext(y1, x1, x - x1);
        out := out + [(x, y1)];
      }
    } else if x1 > x2 && y1 == y2 {
      for x := x2 to x1 + 1
        invariant out == rocks + Row(y1, x2, x - x2)
      {
        RowNext(y1, x2, x - x2);
        out := out + [(x, y1)];
      }
    } else {
      return None;
    }
    return Some(out);
  }

  /** The loop over one line's windows: each window's points are pushed in turn. */
  method PushPath(rocks: seq<Rock>, eps: seq<Rock>) returns (r: Option<seq<Rock>>)
    ensures r.None? <==> PathRocks(eps, Windows(eps)).None?
    ensures r.Some? ==> r.value == rocks + PathRocks(eps, Windows(eps)).value
  {
    var out := rocks;
    for j := 0 to Windows(eps)
      invariant PathRocks(eps, j).Some? && out == rocks + PathRocks(eps, j).value
    {
      var pushed := PushSegment(out, eps[j], eps[j + 1]);
      if pushed.None? {
        PathRocksNone(eps, j + 1, Windows(eps));
        return None;
      }
      out := pushed.value;
    }
    return Some(out);
  }

  /** One line of parse_input: its endpoints are parsed, then its windows pushed. */
  method ExpandLine(rocks: seq<Rock>, line: string) returns (r: Option<seq<Rock>>)
    ensures r.None? <==> LineRocks(line).None?
    ensures r.Some? ==> r.value == rocks + LineRocks(line).value
  {
    var endpoints := ParseLine(line);
    if endpoints.None? {
      return None;
    }
    r := PushPath(rocks, endpoints.value);
  }

  /** The loop has pushed the points of the first `n` lines, and they are `rocks`. */
  predicate Pushed(lines: seq<string>, n: nat, rocks: seq<Rock>)
  {
    n <= |lines| && Flatten(PerLine(lines), n) == Some(rocks)
  }

  /** One turn of the line loop: line `n` expanded onto the points of the lines before it;
    * a line that fails fails the whole input. */
  method PushLine(rocks: seq<Rock>, lines: seq<string>, n: nat) returns (r: Option<seq<Rock>>)
    requires n < |lines| && Pushed(lines, n, rocks)
    ensures r.Some? ==> Pushed(lines, n + 1, r.value)
    ensures r.None? ==> RockLocations(lines).None?
  {
    ghost var parts := PerLine(lines);
    ghost var seg := parts[n];
    assert seg == LineRocks(lines[n]);
    assert Flatten(parts, n + 1) == if seg.Some? then Some(rocks + seg.value) else None;
    r := ExpandLine(rocks, lines[n]);
    if r.None? {
      FlattenNone(parts, n + 1, |lines|);
    }
  }

  /** parse_input: every line's windows are expanded and pushed onto one list. */
  method ParseInput(lines: seq<string>) returns (r: Option<seq<Rock>>)
    ensures r == RockLocations(lines)
  {
    var rocks: seq<Rock> := [];
    for n := 0 to |lines|
      invariant Pushed(lines, n, rocks)
    {
      var pushed := PushLine(rocks, lines, n);
      if pushed.None? {
        return None;
      }
      rocks := pushed.value;
    }
    return Some(rocks);
  }

  // ---------------------------------------------------------------------
  // The cave and the falling sand.

  /** A cave tile: `x` is an `i64` and `y` a `u64` in the source. */
  datatype Point = Point(x: int, y: nat)

  datatype Criteria = Overflow | Spout

  /** What a call of `fill_sand` does: return a count, or loop forever. */
  datatype Outcome = Returned(count: nat) | Diverges

  function PointOf(r: Rock): Point
  {
    Point(r.0, r.1)
  }

  /** The tiles occupied by a list of rock locations. */
  function RockSet(rocks: seq<Rock>): set<Point>
  {
    if rocks == [] then {} else RockSet(rocks[..|rocks| - 1]) + {PointOf(rocks[|rocks| - 1])}
  }

  lemma {:induction false} RockSetMembers(rocks: seq<Rock>)
    ensures forall p :: p in RockSet(rocks) <==> exists i :: 0 <= i < |rocks| && p == PointOf(rocks[i])
  {
    if rocks != [] {
      var init := rocks[..|rocks| - 1];
      RockSetMembers(init);
      assert forall i :: 0 <= i < |init| ==> init[i] == rocks[i];
    }
  }

  function Ys(rocks: seq<Rock>): (r: seq<int>)
    ensures |r| == |rocks| && forall i :: 0 <= i < |rocks| ==> r[i] == rocks[i].1
  {
    seq(|rocks|, i requires 0 <= i < |rocks| => rocks[i].1)
  }

  /** One more than the lowest rock row. */
  function CaveHeight(rocks: seq<Rock>): (h: nat)
    requires rocks != []
    ensures h >= 1
    ensures forall p :: p in RockSet(rocks) ==> p.y < h
    ensures exists p :: p in RockSet(rocks) && p.y == h - 1
  {
    var ys := Ys(rocks);
    var m := Seqs.Max(ys);
    RockSetMembers(rocks);
    assert m >= 0 by { assert m in ys; }
    var i :| 0 <= i < |ys| && ys[i] == m;
    assert PointOf(rocks[i]) in RockSet(rocks);
    m + 1
  }

  /** The fixed parameters of one `fill_sand` call. */
  datatype Config = Config(height: nat, floor: nat, criteria: Criteria)

  /** The state at the head of `fill_sand`'s loop, or the value it returns with the final tiles. */
  datatype Sim = Running(objects: set<Point>, x: int, y: nat, count: nat)
               | Finished(objects: set<Point>, count: nat)

  /** The row count sand can occupy: `height` with Overflow, `height + floor` with Spout. */
  function Limit(c: Config): nat
  {
    if c.criteria == Overflow then c.height else c.height + c.floor
  }

  /** The parameters for which the loop is well behaved; a cave always has height at least 1,
    * and with Spout a one-row cave without floor would let the grain fall forever. */
  predicate Sane(c: Config)
  {
    c.height >= 1 && (c.criteria == Spout ==> c.height + c.floor >= 2)
  }

  /** All three tiles below `(x, y)` are taken. */
  predicate Blocked(objects: set<Point>, x: int, y: nat)
  {
    Point(x, y + 1) in objects && Point(x - 1, y + 1) in objects && Point(x + 1, y + 1) in objects
  }

  /** The grain at `(x, y)` moves down, down-left or down-right, or comes to rest. */
  function Fall(objects: set<Point>, x: int, y: nat, count: nat, criteria: Criteria): (r: Sim)
    // it rests, and is counted, exactly when all three tiles below are taken
    ensures r.count == count + 1 <==> Blocked(objects, x, y)
    ensures Blocked(objects, x, y) ==>
      (r.Finished? <==> criteria == Spout && x == 500 && y == 0) &&
      (r.Running? ==> r.objects == objects + {Point(x, y)} && r.x == 500 && r.y == 0) &&
      (r.Finished? ==> r.objects == objects)
    // otherwise it moves one row down into a free tile, preferring down, then down-left
    ensures !Blocked(objects, x, y) ==>
      r.Running? && r.objects == objects && r.count == count && r.y == y + 1 &&
      x - 1 <= r.x <= x + 1 && Point(r.x, r.y) !in objects &&
      (r.x == x <==> Point(x, y + 1) !in objects) &&
      (r.x == x + 1 ==> Point(x - 1, y + 1) in objects)
  {
    if Point(x, y + 1) !in objects then Running(objects, x, y + 1, count)
    else if Point(x - 1, y + 1) !in objects then Running(objects, x - 1, y + 1, count)
    else if Point(x + 1, y + 1) !in objects then Running(objects, x + 1, y + 1, count)
    else if criteria == Spout && x == 500 && y == 0 then Finished(objects, count + 1)
    else Running(objects + {Point(x, y)}, 500, 0, count + 1)
  }

  /** One pass of `fill_sand`'s loop body. */
  function Step(s: Sim, c: Config): (r: Sim)
    ensures s.Finished? ==> r == s
    ensures s.objects <= r.objects
    // with Overflow the call returns, with nothing added, as soon as y + 1 >= height
    ensures s.Running? && c.criteria == Overflow ==>
      (r.Finished? <==> s.y + 1 >= c.height) &&
      (s.y + 1 >= c.height ==> r == Finished(s.objects, s.count))
    // with Spout a grain one row above `height + floor` becomes a floor tile, uncounted
    ensures s.Running? && c.criteria == Spout && s.y + 1 == c.height + c.floor ==>
      Point(s.x, s.y) in r.objects && (r.Running? ==> r.count == s.count)
    // with Spout the call returns when a counted grain rests at the source
    ensures s.Running? && c.criteria == Spout && r.Finished? ==> r.count == s.count + 1
  {
    match s
    case Finished(_, _) => s
    case Running(objects, x, y, count) =>
      if c.criteria == Overflow && y + 1 >= c.height then Finished(objects, count)
      else if c.criteria == Spout && y + 1 == c.height + c.floor then
        Fall(objects + {Point(x, y)}, 500, 0, count, c.criteria)
      else Fall(objects, x, y, count, c.criteria)
  }

  /** `n` passes of the loop from state `s`. */
  function Steps(s: Sim, c: Config, n: nat): Sim
  {
    if n == 0 then s else Step(Steps(s, c, n - 1), c)
  }

  /** `n` passes of the loop of a call on a cave holding `objects`. */
  function Run(objects: set<Point>, c: Config, n: nat): Sim
  {
    Steps(Running(objects, 500, 0, 0), c, n)
  }

  lemma RunNext(objects: set<Point>, c: Config, k: nat)
    ensures Run(objects, c, k + 1) == Step(Run(objects, c, k), c)
  {
  }

  lemma {:induction false} StepsAdd(s: Sim, c: Config, a: nat, b: nat)
    ensures Steps(s, c, a + b) == Steps(Steps(s, c, a), c, b)
    decreases b
  {
    if b > 0 {
      StepsAdd(s, c, a, b - 1);
    }
  }

  /** The tile set only grows. */
  lemma {:induction false} StepsGrow(s: Sim, c: Config, n: nat)
    ensures s.objects <= Steps(s, c, n).objects
  {
    if n > 0 {
      StepsGrow(s, c, n - 1);
    }
  }

  /** Once the call has returned, nothing changes any more. */
  lemma {:induction false} FinishedStays(s: Sim, c: Config, n: nat, m: nat)
    requires n <= m
    requires Steps(s, c, n).Finished?
    ensures Steps(s, c, m) == Steps(s, c, n)
    decreases m
  {
    if m > n {
      FinishedStays(s, c, n, m - 1);
    }
  }

  /** The tiles sand may reach: the triangle below the source, above the limit row. */
  ghost function Region(c: Config): set<Point>
  {
    set x: int, y: nat | y < Limit(c) && 500 - y <= x <= 500 + y :: Point(x, y)
  }

  /** The loop-head invariant: the grain is inside the triangle below the source, and it is on
    * a free tile unless it is a new grain at the source. */
  predicate InPlay(s: Sim, c: Config)
  {
    s.Running? ==>
      s.y < Limit(c) && 500 - s.y <= s.x <= 500 + s.y &&
      (Point(s.x, s.y) !in s.objects || (s.x == 500 && s.y == 0))
  }

  /** With Overflow, a grain at the blocked source that is itself taken: the source inserts it
    * again, counts it and starts over in the same state, forever. */
  predicate Stuck(s: Sim, c: Config)
  {
    s.Running? && c.criteria == Overflow && c.height >= 2 && s.x == 500 && s.y == 0 &&
    Point(500, 0) in s.objects && Blocked(s.objects, 500, 0)
  }

  lemma StepInPlay(s: Sim, c: Config)
    requires Sane(c) && InPlay(s, c)
    ensures InPlay(Step(s, c), c)
  {
  }

  /** Each pass that neither returns nor is stuck frees the triangle of one more tile or moves
    * the grain one row down: the loop terminates unless it gets stuck. */
  lemma StepProgress(s: Sim, c: Config)
    requires Sane(c) && InPlay(s, c) && s.Running? && !Stuck(s, c)
    ensures Step(s, c).Running? ==>
      |Region(c) - Step(s, c).objects| < |Region(c) - s.objects| ||
      (Step(s, c).objects == s.objects && s.y < Step(s, c).y < Limit(c))
  {
    var r := Step(s, c);
    var reg := Region(c);
    if r.Running? && r.objects != s.objects {
      var p := if c.criteria == Spout && s.y + 1 == c.height + c.floor then Point(s.x, s.y)
               else Point(s.x, s.y);
      assert p !in s.objects;
      assert p in reg;
      assert r.objects == s.objects + {p};
      assert reg - r.objects == (reg - s.objects) - {p};
    }
  }

  /** A stuck state repeats itself with one more grain counted at every pass. */
  lemma {:induction false} StuckForever(s: Sim, c: Config, j: nat)
    requires Stuck(s, c)
    ensures Steps(s, c, j) == Running(s.objects, 500, 0, s.count + j)
  {
    if j > 0 {
      StuckForever(s, c, j - 1);
      assert s.objects + {Point(500, 0)} == s.objects;
    }
  }

  /** A run that reaches a stuck state is still running at every pass. */
  lemma RunningAt(objects: set<Point>, c: Config, k: nat, n: nat)
    requires Stuck(Run(objects, c, k), c)
    ensures Run(objects, c, n).Running?
  {
    var s0 := Running(objects, 500, 0, 0);
    if n < k {
      if Run(objects, c, n).Finished? {
        FinishedStays(s0, c, n, k);
      }
    } else {
      StepsAdd(s0, c, k, n - k);
      StuckForever(Run(objects, c, k), c, n - k);
    }
  }

  /** A run that reaches a stuck state never returns. */
  lemma NeverFinishes(objects: set<Point>, c: Config, k: nat)
    requires Stuck(Run(objects, c, k), c)
    ensures forall n: nat :: Run(objects, c, n).Running?
  {
    forall n: nat
      ensures Run(objects, c, n).Running?
    {
      RunningAt(objects, c, k, n);
    }
  }

  // ---------------------------------------------------------------------
  // Counting: the answer is the number of grains that came to rest.

  /** The sand the run added: new tiles above the limit row (floor tiles sit on that row). */
  ghost function Sand(objects: set<Point>, start: set<Point>, c: Config): set<Point>
  {
    set p | p in objects && p !in start && p.y + 1 < Limit(c)
  }

  /** The count is the sand added, plus the final grain that Spout counts without inserting. */
  ghost predicate Tally(s: Sim, start: set<Point>, c: Config)
  {
    s.count == |Sand(s.objects, start, c)| + (if s.Finished? && c.criteria == Spout then 1 else 0)
  }

  ghost predicate Inv(s: Sim, start: set<Point>, c: Config)
  {
    InPlay(s, c) && start <= s.objects && (Stuck(s, c) || Tally(s, start, c))
  }

  lemma AddSand(objects: set<Point>, start: set<Point>, c: Config, p: Point)
    requires start <= objects && p !in objects && p.y + 1 < Limit(c)
    ensures |Sand(objects + {p}, start, c)| == |Sand(objects, start, c)| + 1
  {
    assert Sand(objects + {p}, start, c) == Sand(objects, start, c) + {p};
  }

  lemma AddFloor(objects: set<Point>, start: set<Point>, c: Config, p: Point)
    requires p.y + 1 == Limit(c)
    ensures Sand(objects + {p}, start, c) == Sand(objects, start, c)
  {
  }

  lemma StepInv(s: Sim, start: set<Point>, c: Config)
    requires Sane(c) && Inv(s, start, c)
    ensures Inv(Step(s, c), start, c)
  {
    StepInPlay(s, c);
    var r := Step(s, c);
    if s.Running? && !Stuck(s, c) {
      var objects := s.objects;
      if c.criteria == Overflow && s.y + 1 >= c.height {
      } else if c.criteria == Spout && s.y + 1 == c.height + c.floor {
        var floorTile := Point(s.x, s.y);
        var o1 := objects + {floorTile};
        AddFloor(objects, start, c, floorTile);
        if Blocked(o1, 500, 0) {
          assert r == Finished(o1, s.count + 1);
        }
      } else if Blocked(objects, s.x, s.y) {
        if r.Running? {
          AddSand(objects, start, c, Point(s.x, s.y));
        }
      }
    } else if Stuck(s, c) {
      StuckForever(s, c, 1);
    }
  }

  lemma {:induction false} RunInv(objects: set<Point>, c: Config, n: nat)
    requires Sane(c)
    ensures Inv(Run(objects, c, n), objects, c)
  {
    if n == 0 {
      assert Sand(objects, objects, c) == {};
    } else {
      RunInv(objects, c, n - 1);
      StepInv(Run(objects, c, n - 1), objects, c);
    }
  }

  /** When the call returns, its count is the number of grains that came to rest, plus, with
    * Spout, the last grain, which rests at the source. */
  lemma SandCount(objects: set<Point>, c: Config, n: nat)
    requires Sane(c) && Run(objects, c, n).Finished?
    ensures Run(objects, c, n).count ==
      |Sand(Run(objects, c, n).objects, objects, c)| + (if c.criteria == Spout then 1 else 0)
  {
    RunInv(objects, c, n);
  }

  /** The outcome a call on a cave holding `objects` has, stated by the run. */
  ghost predicate Answers(objects: set<Point>, c: Config, outcome: Outcome)
  {
    (outcome.Returned? ==> exists n: nat :: Run(objects, c, n).Finished? && Run(objects, c, n).count == outcome.count) &&
    (outcome.Diverges? ==> forall n: nat :: Run(objects, c, n).Running?)
  }

  class Cave {
    var objects: set<Point>
    const height: nat

    /** Cave::new: the rock tiles, and one more than the lowest rock row. */
    constructor (rocks: seq<Rock>)
      requires rocks != []
      ensures objects == RockSet(rocks)
      ensures height == CaveHeight(rocks)
    {
      var tiles: set<Point> := {};
      for i := 0 to |rocks|
        invariant tiles == RockSet(rocks[..i])
      {
        assert rocks[..i + 1][..i] == rocks[..i];
        tiles := tiles + {PointOf(rocks[i])};
      }
      assert rocks[..|rocks|] == rocks;
      objects := tiles;
      height := CaveHeight(rocks);
    }

    /** The grain at `(x, y)` tries down, then down-left, then down-right, and otherwise rests:
      * the source's three-way match on the tiles below. */
    method Settle(x: int, y: nat, count: nat, criteria: Criteria) returns (next: Sim)
      modifies this
      ensures next == Fall(old(objects), x, y, count, criteria)
      ensures objects == next.objects
    {
      if Point(x, y + 1) in objects {
        if Point(x - 1, y + 1) in objects {
          if Point(x + 1, y + 1) in objects {
            if criteria == Spout && x == 500 && y == 0 {
              return Finished(objects, count + 1);
            }
            objects := objects + {Point(x, y)};
            return Running(objects, 500, 0, count + 1);
          } else {
            return Running(objects, x + 1, y + 1, count);
          }
        } else {
          return Running(objects, x - 1, y + 1, count);
        }
      } else {
        return Running(objects, x, y + 1, count);
      }
    }

    /** fill_sand: pours grains from (500, 0) until the stopping rule returns; the source's
      * endless loop on a stuck cave is reported as Diverges. */
    method FillSand(floor: nat, criteria: Criteria) returns (outcome: Outcome)
      requires height >= 1
      requires criteria == Spout ==> height + floor >= 2
      modifies this
      ensures old(objects) <= objects
      ensures criteria == Spout ==> outcome.Returned?
      ensures outcome.Returned? ==>
        exists n: nat :: Run(old(objects), Config(height, floor, criteria), n) == Finished(objects, outcome.count)
      ensures outcome.Diverges? ==> forall n: nat :: Run(old(objects), Config(height, floor, criteria), n).Running?
    {
      ghost var c := Config(height, floor, criteria);
      ghost var start := objects;
      var sandCount: nat := 0;
      var x: int := 500;
      var y: nat := 0;
      ghost var k: nat := 0;
      while true
        invariant Run(start, c, k) == Running(objects, x, y, sandCount)
        invariant InPlay(Running(objects, x, y, sandCount), c)
        invariant start <= objects
        decreases |Region(c) - objects|, Limit(c) - y
      {
        ghost var before := Running(objects, x, y, sandCount);
        RunNext(start, c, k);
        StepInPlay(before, c);
        match criteria {
          case Overflow =>
            if y + 1 >= height {
              assert Step(before, c) == Finished(objects, sandCount);
              return Returned(sandCount);
            }
          case Spout =>
            if y + 1 == height + floor {
              objects := objects + {Point(x, y)};
              x := 500;
              y := 0;
            }
        }
        if criteria == Overflow && x == 500 && y == 0 && Point(x, y) in objects && Blocked(objects, x, y) {
          assert Stuck(before, c);
          NeverFinishes(start, c, k);
          return Diverges;
        }
        assert Step(before, c) == Fall(objects, x, y, sandCount, criteria);
        var next := Settle(x, y, sandCount, criteria);
        if next.Finished? {
          return Returned(next.count);
        }
        x, y, sandCount := next.x, next.y, next.count;
        StepProgress(before, c);
        k := k + 1;
      }
    }
  }

  /** part_one: with Overflow and no floor; None where parsing panics or there is no rock. */
  method PartOne(lines: seq<string>) returns (r: Option<Outcome>)
    ensures r.None? <==> RockLocations(lines).None? || RockLocations(lines) == Some([])
    ensures r.Some? ==> RockLocations(lines).Some? && RockLocations(lines).value != []
    ensures r.Some? ==>
      (var rocks := RockLocations(lines).value;
       Answers(RockSet(rocks), Config(CaveHeight(rocks), 0, Overflow), r.value))
  {
    var rocks := ParseInput(lines);
    if rocks.None? || rocks.value == [] {
      return None;
    }
    var cave := new Cave(rocks.value);
    var dropped := cave.FillSand(0, Overflow);
    return Some(dropped);
  }

  /** part_two: with Spout and a floor two rows below the lowest rock; it always returns. */
  method PartTwo(lines: seq<string>) returns (r: Option<Outcome>)
    ensures r.None? <==> RockLocations(lines).None? || RockLocations(lines) == Some([])
    ensures r.Some? ==> r.value.Returned?
    ensures r.Some? ==> RockLocations(lines).Some? && RockLocations(lines).value != []
    ensures r.Some? ==>
      (var rocks := RockLocations(lines).value;
       Answers(RockSet(rocks), Config(CaveHeight(rocks), 2, Spout), r.value))
  {
    var rocks := ParseInput(lines);
    if rocks.None? || rocks.value == [] {
      return None;
    }
    var cave := new Cave(rocks.value);
    var dropped := cave.FillSand(2, Spout);
    return Some(dropped);
  }
}
