/** Day 15: sensors, each with the beacon nearest to it in Manhattan distance; the positions
  * of one row that no beacon can occupy. */
module Day15 {
  import opened Wrappers
  import opened Seqs

  type Point = (int, int)

  datatype Beacon = Beacon(x: int, y: int)

  datatype Sensor = Sensor(x: int, y: int, nearest: Beacon)

  function Abs(n: int): nat
  {
    if n < 0 then -n else n
  }

  /** `Sensor::distance`: the Manhattan distance from the sensor to `location`. */
  function Distance(s: Sensor, location: Point): (r: nat)
    ensures r == 0 <==> location == (s.x, s.y)
  {
    Abs(s.x - location.0) + Abs(s.y - location.1)
  }

  /** `Sensor::distance_to_nearest`: how far the sensor reaches. */
  function Reach(s: Sensor): nat
  {
    Distance(s, (s.nearest.x, s.nearest.y))
  }

  // ---------------------------------------------------------------------
  // The perimeter.

  /** The four points one turn of the perimeter loop pushes, for `y` and `x = d - y`. */
  function Corners(s: Sensor, d: int, y: int): seq<Point>
  {
    var x := d - y;
    [(s.x + x, s.y + y), (s.x + x, s.y - y), (s.x - x, s.y + y), (s.x - x, s.y - y)]
  }

  /** The points pushed by the first `n` turns of the loop. */
  function Pushed(s: Sensor, d: int, n: nat): (r: seq<Point>)
    ensures |r| == 4 * n
  {
    if n == 0 then [] else Pushed(s, d, n - 1) + Corners(s, d, n - 1)
  }

  /** The first `n` turns push exactly the points at distance `d` whose row is less than `n`
    * away from the sensor's. */
  lemma {:induction false} PushedSpec(s: Sensor, d: nat, n: nat, p: Point)
    requires n <= d
    ensures p in Pushed(s, d, n) <==> Distance(s, p) == d && Abs(p.1 - s.y) < n
  {
    if n > 0 {
      PushedSpec(s, d, n - 1, p);
      var y := n - 1;
      if Distance(s, p) == d && Abs(p.1 - s.y) == y {
        assert p in Corners(s, d, y);
      }
      if p in Corners(s, d, y) {
        assert Distance(s, p) == d && Abs(p.1 - s.y) == y;
      }
    }
  }

  /** The perimeter `Sensor::perimeter` returns: the pushed points without repetitions. */
  function PerimeterOf(s: Sensor): seq<Point>
  {
    Unique(Pushed(s, Reach(s), Reach(s)))
  }

  /** `Sensor::perimeter`. */
  method Perimeter(s: Sensor) returns (points: seq<Point>)
    ensures points == PerimeterOf(s)
  {
    var pushed: seq<Point> := [];
    var distance := Reach(s);
    for y := 0 to distance
      invariant pushed == Pushed(s, distance, y)
    {
      var x := distance - y;
      pushed := pushed + [(s.x + x, s.y + y)];
      pushed := pushed + [(s.x + x, s.y - y)];
      pushed := pushed + [(s.x - x, s.y + y)];
      pushed := pushed + [(s.x - x, s.y - y)];
    }
    points := Unique(pushed);
  }

  /** The perimeter holds each point once, and a point is on it exactly when it lies at the
    * sensor's reach and not in the sensor's column. */
  lemma PerimeterSpec(s: Sensor, p: Point)
    ensures Distinct(PerimeterOf(s))
    ensures p in PerimeterOf(s) <==> Distance(s, p) == Reach(s) && Abs(p.1 - s.y) < Reach(s)
  {
    PushedSpec(s, Reach(s), Reach(s), p);
  }

  /** Because the loop stops before `y = d`, the top and bottom points of the diamond are
    * missing from the perimeter, although they lie at the sensor's reach. */
  lemma PerimeterOmitsTips(s: Sensor)
    requires Reach(s) > 0
    ensures Distance(s, (s.x, s.y + Reach(s))) == Reach(s) && (s.x, s.y + Reach(s)) !in PerimeterOf(s)
    ensures Distance(s, (s.x, s.y - Reach(s))) == Reach(s) && (s.x, s.y - Reach(s)) !in PerimeterOf(s)
  {
    PerimeterSpec(s, (s.x, s.y + Reach(s)));
    PerimeterSpec(s, (s.x, s.y - Reach(s)));
  }

  // ---------------------------------------------------------------------
  // One row.

  /** The `x` of every point of `ps` in row `row`, in order. */
  function RowXs(ps: seq<Point>, row: int): (r: seq<int>)
    ensures forall x :: x in r <==> (x, row) in ps
  {
    if ps == [] then []
    else
      var rest := RowXs(ps[..|ps| - 1], row);
      var last := ps[|ps| - 1];
      assert forall p :: p in ps <==> p in ps[..|ps| - 1] || p == last;
      if last.1 == row then rest + [last.0] else rest
  }

  /** `Sensor::range_given_row`: the least and greatest `x` of the perimeter points in the row. */
  function RangeGivenRow(s: Sensor, row: int): (r: Option<(int, int)>)
    ensures r.Some? ==> r.value.0 <= r.value.1
  {
    var xs := RowXs(PerimeterOf(s), row);
    if xs == [] then None else Some((Min(xs), Max(xs)))
  }

  /** The range is there exactly when the row is nearer to the sensor than its reach, and it
    * then runs from `x - k` to `x + k`, where `k` is the reach left after the rows. */
  lemma RangeGivenRowSpec(s: Sensor, row: int)
    ensures RangeGivenRow(s, row).Some? <==> Abs(row - s.y) < Reach(s)
    ensures RangeGivenRow(s, row).Some? ==>
      var k := Reach(s) - Abs(row - s.y);
      RangeGivenRow(s, row).value == (s.x - k, s.x + k)
  {
    if Abs(row - s.y) < Reach(s) {
      RangeInside(s, row);
    } else {
      RangeOutside(s, row);
    }
  }

  /** A row the sensor reaches holds two perimeter points, at the ends of the range. */
  lemma RangeInside(s: Sensor, row: int)
    requires Abs(row - s.y) < Reach(s)
    ensures var k := Reach(s) - Abs(row - s.y); RangeGivenRow(s, row) == Some((s.x - k, s.x + k))
  {
    var k := Reach(s) - Abs(row - s.y);
    var xs := RowXs(PerimeterOf(s), row);
    RowOfPerimeter(s, row);
    BoundsOfPair(xs, s.x - k, s.x + k);
    assert RangeGivenRow(s, row) == Some((Min(xs), Max(xs)));
  }

  /** A row beyond the sensor's reach holds no perimeter point. */
  lemma RangeOutside(s: Sensor, row: int)
    requires Reach(s) <= Abs(row - s.y)
    ensures RangeGivenRow(s, row) == None
  {
    var xs := RowXs(PerimeterOf(s), row);
    if xs != [] {
      var x := xs[0];
      PerimeterSpec(s, (x, row));
    }
  }

  /** The perimeter's points in a row: none beyond the reach, and otherwise the two at
    * `x - k` and `x + k`. */
  lemma RowOfPerimeter(s: Sensor, row: int)
    ensures forall x :: x in RowXs(PerimeterOf(s), row) <==>
      Abs(row - s.y) < Reach(s) && (x == s.x - (Reach(s) - Abs(row - s.y)) || x == s.x + (Reach(s) - Abs(row - s.y)))
  {
    forall x
      ensures x in RowXs(PerimeterOf(s), row) <==>
        Abs(row - s.y) < Reach(s) && (x == s.x - (Reach(s) - Abs(row - s.y)) || x == s.x + (Reach(s) - Abs(row - s.y)))
    {
      PerimeterSpec(s, (x, row));
    }
  }

  /** A sequence holding exactly `lo` and `hi`, with `lo <= hi`, ranges from `lo` to `hi`. */
  lemma BoundsOfPair(xs: seq<int>, lo: int, hi: int)
    requires lo <= hi && forall x :: x in xs <==> x == lo || x == hi
    ensures xs != [] && Min(xs) == lo && Max(xs) == hi
  {
    assert lo in xs && hi in xs;
    var i :| 0 <= i < |xs| && xs[i] == lo;
    var j :| 0 <= j < |xs| && xs[j] == hi;
    assert Min(xs) <= xs[i] && Max(xs) >= xs[j];
  }

  /** Inside a row the sensor's range reaches, the range holds exactly the points within the
    * sensor's reach. */
  lemma RangeCovers(s: Sensor, row: int, x: int)
    requires RangeGivenRow(s, row).Some?
    ensures RangeGivenRow(s, row).value.0 <= x <= RangeGivenRow(s, row).value.1
      <==> Distance(s, (x, row)) <= Reach(s)
  {
    RangeGivenRowSpec(s, row);
  }

  // ---------------------------------------------------------------------
  // part_one.

  /** The beacons of `parse_input`, one per sensor. */
  function Beacons(sensors: seq<Sensor>): (r: seq<Point>)
    ensures |r| == |sensors|
    ensures forall i :: 0 <= i < |sensors| ==> r[i] == (sensors[i].nearest.x, sensors[i].nearest.y)
  {
    if sensors == [] then []
    else Beacons(sensors[..|sensors| - 1]) + [(sensors[|sensors| - 1].nearest.x, sensors[|sensors| - 1].nearest.y)]
  }

  /** The ranges of the sensors that reach the row, in the sensors' order (`filter_map`). */
  function Ranges(sensors: seq<Sensor>, row: int): (r: seq<(int, int)>)
    ensures forall i :: 0 <= i < |r| ==> r[i].0 <= r[i].1
  {
    if sensors == [] then []
    else
      var r := RangeGivenRow(sensors[|sensors| - 1], row);
      Ranges(sensors[..|sensors| - 1], row) + (if r.Some? then [r.value] else [])
  }

  /** The points of one range in the row that are not beacons. */
  ghost function Span(range: (int, int), beacons: seq<Point>, row: int): set<Point>
  {
    set x | range.0 <= x <= range.1 && (x, row) !in beacons :: (x, row)
  }

  lemma SpanGrow(start: int, x: int, beacons: seq<Point>, row: int)
    ensures Span((start, x), beacons, row)
      == Span((start, x - 1), beacons, row) + (if start <= x && (x, row) !in beacons then {(x, row)} else {})
  {
  }

  /** The points the nested loops insert for the ranges. */
  ghost function Marked(ranges: seq<(int, int)>, beacons: seq<Point>, row: int): set<Point>
  {
    if ranges == [] then {}
    else Marked(ranges[..|ranges| - 1], beacons, row) + Span(ranges[|ranges| - 1], beacons, row)
  }

  /** part_one's nested loops for the given row: the number of positions in the ranges that
    * hold no beacon. */
  method CountRow(sensors: seq<Sensor>, row: int) returns (count: nat)
    ensures count == |Marked(Ranges(sensors, row), Beacons(sensors), row)|
  {
    var beacons := Beacons(sensors);
    var ranges := Ranges(sensors, row);
    var locations: set<Point> := {};
    for i := 0 to |ranges|
      invariant locations == Marked(ranges[..i], beacons, row)
    {
      var (start, end) := ranges[i];
      var x := start;
      while x <= end
        invariant start <= x <= end + 1
        invariant locations == Marked(ranges[..i], beacons, row) + Span((start, x - 1), beacons, row)
        decreases end - x
      {
        SpanGrow(start, x, beacons, row);
        if (x, row) !in beacons {
          locations := locations + {(x, row)};
        }
        x := x + 1;
      }
      assert ranges[..i + 1][..i] == ranges[..i];
    }
    assert ranges[..|ranges|] == ranges;
    count := |locations|;
  }

  /** `s` has a range in the row, and `p` lies within its reach. */
  predicate Covers(s: Sensor, row: int, p: Point)
  {
    Abs(row - s.y) < Reach(s) && Distance(s, p) <= Reach(s)
  }

  /** Some sensor covers `p`. */
  predicate Covered(sensors: seq<Sensor>, row: int, p: Point)
  {
    exists i :: 0 <= i < |sensors| && Covers(sensors[i], row, p)
  }

  lemma CoveredSnoc(sensors: seq<Sensor>, row: int, p: Point)
    requires sensors != []
    ensures Covered(sensors, row, p) <==>
      Covered(sensors[..|sensors| - 1], row, p) || Covers(sensors[|sensors| - 1], row, p)
  {
    var init := sensors[..|sensors| - 1];
    if Covered(init, row, p) {
      var i :| 0 <= i < |init| && Covers(init[i], row, p);
      assert sensors[i] == init[i];
    }
    if Covered(sensors, row, p) {
      var i :| 0 <= i < |sensors| && Covers(sensors[i], row, p);
      if i < |init| {
        assert init[i] == sensors[i];
      }
    }
  }

  /** A position of the row is counted exactly when it is no beacon and some sensor whose
    * range reaches the row has it within its reach. */
  lemma {:induction false} MarkedSpec(sensors: seq<Sensor>, beacons: seq<Point>, row: int, p: Point)
    ensures p in Marked(Ranges(sensors, row), beacons, row) <==>
      p.1 == row && p !in beacons && Covered(sensors, row, p)
  {
    if sensors != [] {
      var init := sensors[..|sensors| - 1];
      var s := sensors[|sensors| - 1];
      MarkedSpec(init, beacons, row, p);
      CoveredSnoc(sensors, row, p);
      var r := RangeGivenRow(s, row);
      RangeGivenRowSpec(s, row);
      var ranges := Ranges(sensors, row);
      if r.Some? {
        assert ranges[..|ranges| - 1] == Ranges(init, row);
        RangeCovers(s, row, p.0);
      } else {
        assert ranges == Ranges(init, row);
      }
    }
  }

  /** part_one: the row is 10, as for the example. */
  method PartOne(sensors: seq<Sensor>) returns (r: Option<nat>)
    ensures r.Some? && r.value == |Marked(Ranges(sensors, 10), Beacons(sensors), 10)|
  {
    var count := CountRow(sensors, 10);
    return Some(count);
  }
}
