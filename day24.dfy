/**
 * Day 24: blizzards drift through a walled basin, one cell per minute, and wrap around
 * the walls. The set of open cells repeats with the period lcm(width, height) of the
 * interior, so the crossing is searched on a graph whose nodes are (cell, minute mod period).
 */
module Day24 {

  import opened Wrappers
  import opened Modular
  import opened Sets

  datatype Direction = Up | Down | Left | Right

  datatype Pos = Pos(x: int, y: int)

  datatype Blizzard = Blizzard(dir: Direction, pos: Pos)

  function Abs(n: int): nat
  {
    if n < 0 then -n else n
  }

  function Manhattan(a: Pos, b: Pos): nat
  {
    Abs(a.x - b.x) + Abs(a.y - b.y)
  }

  function Add(a: Pos, b: Pos): Pos
  {
    Pos(a.x + b.x, a.y + b.y)
  }

  predicate Vertical(d: Direction)
  {
    d == Up || d == Down
  }

  /** Down and Right increase a coordinate (y grows downwards). */
  predicate Forward(d: Direction)
  {
    d == Down || d == Right
  }

  /** Direction::unit_vector: one cell along the direction's own axis, y pointing down. */
  function UnitVector(d: Direction): (v: Pos)
    ensures Manhattan(v, Pos(0, 0)) == 1
    ensures v.x == 0 <==> Vertical(d)
    ensures v.x + v.y == (if Forward(d) then 1 else -1)
  {
    match d
    case Up => Pos(0, -1)
    case Down => Pos(0, 1)
    case Left => Pos(-1, 0)
    case Right => Pos(1, 0)
  }

  predicate InBox(p: Pos, maxX: int, maxY: int)
  {
    0 <= p.x <= maxX && 0 <= p.y <= maxY
  }

  /** The coordinate a direction moves, and the largest value it may take. */
  function Along(d: Direction, p: Pos): int
  {
    if Vertical(d) then p.y else p.x
  }

  function Across(d: Direction, p: Pos): int
  {
    if Vertical(d) then p.x else p.y
  }

  function Extent(d: Direction, maxX: int, maxY: int): int
  {
    if Vertical(d) then maxY else maxX
  }

  /** The moved coordinate has left [0, max] on the side the direction heads for. */
  predicate Overshoots(d: Direction, maxX: int, maxY: int, q: Pos)
  {
    if Forward(d) then Along(d, q) > Extent(d, maxX, maxY) else Along(d, q) < 0
  }

  /**
   * Direction::step: add the unit vector; a coordinate pushed past the box on the side the
   * blizzard moves towards is reset to the opposite edge (max for Up and Left, 0 for Down and
   * Right). Inside the box this is a step modulo max + 1 on the moving axis.
   */
  function Step(d: Direction, maxX: int, maxY: int, p: Pos): (r: Pos)
    ensures Across(d, r) == Across(d, p)
    ensures !Overshoots(d, maxX, maxY, Add(p, UnitVector(d))) ==> r == Add(p, UnitVector(d))
    ensures Overshoots(d, maxX, maxY, Add(p, UnitVector(d))) ==>
              Along(d, r) == (if Forward(d) then 0 else Extent(d, maxX, maxY))
  {
    var next := Add(p, UnitVector(d));
    match d
    case Up => if next.y < 0 then Pos(next.x, maxY) else next
    case Down => if next.y > maxY then Pos(next.x, 0) else next
    case Left => if next.x < 0 then Pos(maxX, next.y) else next
    case Right => if next.x > maxX then Pos(0, next.y) else next
  }

  /** Inside the box a step is an addition modulo max + 1 on the moving axis. */
  lemma StepModular(d: Direction, maxX: int, maxY: int, p: Pos)
    requires InBox(p, maxX, maxY)
    ensures InBox(Step(d, maxX, maxY, p), maxX, maxY)
    ensures Step(d, maxX, maxY, p) ==
            Pos((p.x + UnitVector(d).x) % (maxX + 1), (p.y + UnitVector(d).y) % (maxY + 1))
  {
    var next := Add(p, UnitVector(d));
    ModUnique(maxX + 1, maxX + 1, 1, 0);
    ModUnique(-1, maxX + 1, -1, maxX);
    ModUnique(maxY + 1, maxY + 1, 1, 0);
    ModUnique(-1, maxY + 1, -1, maxY);
    if 0 <= next.x <= maxX { SmallMod(next.x, maxX + 1); }
    if 0 <= next.y <= maxY { SmallMod(next.y, maxY + 1); }
  }

  /**
   * How many steps a position on `home`'s line needs to come back to `home`, moving in
   * direction d around a line of max + 1 cells.
   */
  function StepsHome(d: Direction, maxX: int, maxY: int, q: Pos, home: Pos): int
  {
    var a := Along(d, q);
    var h := Along(d, home);
    var n := Extent(d, maxX, maxY) + 1;
    if Forward(d) then (if h >= a then h - a else h - a + n)
    else (if a >= h then a - h else a - h + n)
  }

  predicate OnLine(d: Direction, maxX: int, maxY: int, q: Pos, home: Pos)
  {
    InBox(q, maxX, maxY) && InBox(home, maxX, maxY) && Across(d, q) == Across(d, home)
  }

  lemma StepTowardsHome(d: Direction, maxX: int, maxY: int, q: Pos, home: Pos)
    requires OnLine(d, maxX, maxY, q, home) && q != home
    ensures OnLine(d, maxX, maxY, Step(d, maxX, maxY, q), home)
    ensures 0 <= StepsHome(d, maxX, maxY, Step(d, maxX, maxY, q), home) < StepsHome(d, maxX, maxY, q, home)
  {
  }

  /**
   * The wall-skipping loop of Blizzards::step as a recursion: keep stepping while the
   * proposed cell is a wall. It ends at the latest back at `home`, which is not a wall.
   */
  function Scan(d: Direction, maxX: int, maxY: int, walls: set<Pos>, q: Pos, home: Pos): (r: Pos)
    requires OnLine(d, maxX, maxY, q, home) && home !in walls
    ensures r !in walls && OnLine(d, maxX, maxY, r, home)
    decreases StepsHome(d, maxX, maxY, q, home)
  {
    if q in walls then
      StepTowardsHome(d, maxX, maxY, q, home);
      Scan(d, maxX, maxY, walls, Step(d, maxX, maxY, q), home)
    else
      q
  }

  /** Where one blizzard is a minute later. */
  function NextPos(b: Blizzard, walls: set<Pos>, maxX: int, maxY: int): (r: Pos)
    requires InBox(b.pos, maxX, maxY) && b.pos !in walls
    ensures r !in walls && InBox(r, maxX, maxY) && Across(b.dir, r) == Across(b.dir, b.pos)
  {
    Scan(b.dir, maxX, maxY, walls, Step(b.dir, maxX, maxY, b.pos), b.pos)
  }

  /** Every blizzard lies inside the wall bounding box, on a cell that is not a wall. */
  predicate Placed(bs: seq<Blizzard>, walls: set<Pos>, maxX: int, maxY: int)
  {
    forall i :: 0 <= i < |bs| ==> InBox(bs[i].pos, maxX, maxY) && bs[i].pos !in walls
  }

  function StepAll(bs: seq<Blizzard>, walls: set<Pos>, maxX: int, maxY: int): (r: seq<Blizzard>)
    requires Placed(bs, walls, maxX, maxY)
    ensures |r| == |bs| && Placed(r, walls, maxX, maxY)
    ensures forall i :: 0 <= i < |bs| ==>
              r[i] == Blizzard(bs[i].dir, NextPos(bs[i], walls, maxX, maxY))
  {
    if bs == [] then []
    else [Blizzard(bs[0].dir, NextPos(bs[0], walls, maxX, maxY))] + StepAll(bs[1..], walls, maxX, maxY)
  }

  /** The largest value of a set of integers, or 0 if none is larger (the fold from 0 in boundaries). */
  ghost function MaxOrZero(s: set<int>): (m: int)
    ensures m >= 0 && (forall v :: v in s ==> v <= m) && (m == 0 || m in s)
  {
    if s == {} then 0
    else
      NonEmptyHasMember(s);
      var v :| v in s;
      var rest := MaxOrZero(s - {v});
      assert forall u :: u in s ==> u == v || u in s - {v};
      if v > rest then v else rest
  }

  lemma MaxOrZeroUnique(s: set<int>, m: int)
    requires m >= 0 && (forall v :: v in s ==> v <= m) && (m == 0 || m in s)
    ensures m == MaxOrZero(s)
  {
  }

  ghost function BoundX(walls: set<Pos>): int
  {
    MaxOrZero(set w | w in walls :: w.x)
  }

  ghost function BoundY(walls: set<Pos>): int
  {
    MaxOrZero(set w | w in walls :: w.y)
  }

  /** boundaries: the largest x and the largest y among the walls, each at least 0. */
  method Boundaries(walls: set<Pos>) returns (maxX: int, maxY: int)
    ensures maxX == BoundX(walls) && maxY == BoundY(walls)
    ensures maxX >= 0 && maxY >= 0
    ensures forall w :: w in walls ==> w.x <= maxX && w.y <= maxY
    ensures maxX == 0 || exists w :: w in walls && w.x == maxX
    ensures maxY == 0 || exists w :: w in walls && w.y == maxY
  {
    maxX, maxY := 0, 0;
    var rest := walls;
    while rest != {}
      invariant rest <= walls
      invariant maxX >= 0 && maxY >= 0
      invariant forall w :: w in walls - rest ==> w.x <= maxX && w.y <= maxY
      invariant maxX == 0 || exists w :: w in walls && w.x == maxX
      invariant maxY == 0 || exists w :: w in walls && w.y == maxY
      decreases rest
    {
      var w :| w in rest;
      if w.x > maxX { maxX := w.x; }
      if w.y > maxY { maxY := w.y; }
      rest := rest - {w};
    }
    MaxOrZeroUnique(set w | w in walls :: w.x, maxX);
    MaxOrZeroUnique(set w | w in walls :: w.y, maxY);
  }

  /**
   * Blizzards::step: every blizzard takes one step and keeps stepping while it stands on a
   * wall. The box is the walls' bounding box; order and directions are kept.
   */
  method StepBlizzards(bs: seq<Blizzard>, walls: set<Pos>) returns (r: seq<Blizzard>)
    requires Placed(bs, walls, BoundX(walls), BoundY(walls))
    ensures r == StepAll(bs, walls, BoundX(walls), BoundY(walls))
  {
    var maxX, maxY := Boundaries(walls);
    r := [];
    var i := 0;
    while i < |bs|
      invariant 0 <= i <= |bs| && |r| == i
      invariant forall k :: 0 <= k < i ==> r[k] == Blizzard(bs[k].dir, NextPos(bs[k], walls, maxX, maxY))
    {
      var b := bs[i];
      var proposed := SkipWalls(b, walls, maxX, maxY);
      r := r + [Blizzard(b.dir, proposed)];
      i := i + 1;
    }
  }

  /** The inner loop of Blizzards::step: step, then keep stepping while on a wall. */
  method SkipWalls(b: Blizzard, walls: set<Pos>, maxX: int, maxY: int) returns (proposed: Pos)
    requires InBox(b.pos, maxX, maxY) && b.pos !in walls
    ensures proposed == NextPos(b, walls, maxX, maxY)
  {
    StepModular(b.dir, maxX, maxY, b.pos);
    proposed := Step(b.dir, maxX, maxY, b.pos);
    while proposed in walls
      invariant OnLine(b.dir, maxX, maxY, proposed, b.pos)
      invariant Scan(b.dir, maxX, maxY, walls, proposed, b.pos) == NextPos(b, walls, maxX, maxY)
      decreases StepsHome(b.dir, maxX, maxY, proposed, b.pos)
    {
      StepTowardsHome(b.dir, maxX, maxY, proposed, b.pos);
      proposed := Step(b.dir, maxX, maxY, proposed);
    }
  }

  /** The cell on p's line whose moving coordinate is k. */
  function AtAlong(d: Direction, p: Pos, k: int): Pos
  {
    if Vertical(d) then Pos(p.x, k) else Pos(k, p.y)
  }

  /**
   * The basin's shape seen from one blizzard: both ends of its line (coordinate 0 and max)
   * are walls, every cell in between is open, and the blizzard is in between.
   */
  ghost predicate Walled(b: Blizzard, walls: set<Pos>, maxX: int, maxY: int)
  {
    var n := Extent(b.dir, maxX, maxY);
    n >= 2 && InBox(b.pos, maxX, maxY) && 1 <= Along(b.dir, b.pos) <= n - 1 && b.pos !in walls &&
    AtAlong(b.dir, b.pos, 0) in walls && AtAlong(b.dir, b.pos, n) in walls &&
    forall k :: 1 <= k <= n - 1 ==> AtAlong(b.dir, b.pos, k) !in walls
  }

  /** The moving coordinate after t minutes on an interior of `span` open cells starting at c. */
  function Drift(d: Direction, c: int, t: nat, span: int): int
    requires span > 0
  {
    1 + (if Forward(d) then c - 1 + t else c - 1 - t) % span
  }

  lemma SameLine(d: Direction, p: Pos, q: Pos)
    requires Across(d, p) == Across(d, q)
    ensures forall k :: AtAlong(d, p, k) == AtAlong(d, q, k)
  {
  }

  /** Walled depends only on the line and on staying strictly inside it. */
  lemma WalledMove(b: Blizzard, p: Pos, walls: set<Pos>, maxX: int, maxY: int)
    requires Walled(b, walls, maxX, maxY)
    requires Across(b.dir, p) == Across(b.dir, b.pos)
    requires 1 <= Along(b.dir, p) <= Extent(b.dir, maxX, maxY) - 1
    ensures Walled(Blizzard(b.dir, p), walls, maxX, maxY)
  {
    SameLine(b.dir, p, b.pos);
    assert p == AtAlong(b.dir, b.pos, Along(b.dir, p));
  }

  lemma StepInside(b: Blizzard, walls: set<Pos>, maxX: int, maxY: int)
    requires Walled(b, walls, maxX, maxY)
    requires var c := Along(b.dir, b.pos);
             if Forward(b.dir) then c + 1 <= Extent(b.dir, maxX, maxY) - 1 else c - 1 >= 1
    ensures NextPos(b, walls, maxX, maxY) ==
            AtAlong(b.dir, b.pos, if Forward(b.dir) then Along(b.dir, b.pos) + 1 else Along(b.dir, b.pos) - 1)
  {
    var p := b.pos;
    match b.dir
    case Right =>
      assert Step(Right, maxX, maxY, p) == Pos(p.x + 1, p.y);
      assert AtAlong(Right, p, p.x + 1) == Pos(p.x + 1, p.y);
    case Left =>
      assert Step(Left, maxX, maxY, p) == Pos(p.x - 1, p.y);
      assert AtAlong(Left, p, p.x - 1) == Pos(p.x - 1, p.y);
    case Down =>
      assert Step(Down, maxX, maxY, p) == Pos(p.x, p.y + 1);
      assert AtAlong(Down, p, p.y + 1) == Pos(p.x, p.y + 1);
    case Up =>
      assert Step(Up, maxX, maxY, p) == Pos(p.x, p.y - 1);
      assert AtAlong(Up, p, p.y - 1) == Pos(p.x, p.y - 1);
  }

  lemma StepWraps(b: Blizzard, walls: set<Pos>, maxX: int, maxY: int)
    requires Walled(b, walls, maxX, maxY)
    requires var c := Along(b.dir, b.pos);
             if Forward(b.dir) then c == Extent(b.dir, maxX, maxY) - 1 else c == 1
    ensures NextPos(b, walls, maxX, maxY) ==
            AtAlong(b.dir, b.pos, if Forward(b.dir) then 1 else Extent(b.dir, maxX, maxY) - 1)
  {
    var p := b.pos;
    match b.dir
    case Right =>
      assert AtAlong(Right, p, 1) == Pos(1, p.y);
      assert Step(Right, maxX, maxY, p) == Pos(maxX, p.y) && Pos(maxX, p.y) in walls;
      assert Step(Right, maxX, maxY, Pos(maxX, p.y)) == Pos(0, p.y) && Pos(0, p.y) in walls;
      assert Step(Right, maxX, maxY, Pos(0, p.y)) == Pos(1, p.y) && Pos(1, p.y) !in walls;
      assert Scan(Right, maxX, maxY, walls, Pos(0, p.y), p) == Pos(1, p.y);
    case Left =>
      assert AtAlong(Left, p, maxX - 1) == Pos(maxX - 1, p.y);
      assert Step(Left, maxX, maxY, p) == Pos(0, p.y) && Pos(0, p.y) in walls;
      assert Step(Left, maxX, maxY, Pos(0, p.y)) == Pos(maxX, p.y) && Pos(maxX, p.y) in walls;
      assert Step(Left, maxX, maxY, Pos(maxX, p.y)) == Pos(maxX - 1, p.y) && Pos(maxX - 1, p.y) !in walls;
      assert Scan(Left, maxX, maxY, walls, Pos(maxX, p.y), p) == Pos(maxX - 1, p.y);
    case Down =>
      assert AtAlong(Down, p, 1) == Pos(p.x, 1);
      assert Step(Down, maxX, maxY, p) == Pos(p.x, maxY) && Pos(p.x, maxY) in walls;
      assert Step(Down, maxX, maxY, Pos(p.x, maxY)) == Pos(p.x, 0) && Pos(p.x, 0) in walls;
      assert Step(Down, maxX, maxY, Pos(p.x, 0)) == Pos(p.x, 1) && Pos(p.x, 1) !in walls;
      assert Scan(Down, maxX, maxY, walls, Pos(p.x, 0), p) == Pos(p.x, 1);
    case Up =>
      assert AtAlong(Up, p, maxY - 1) == Pos(p.x, maxY - 1);
      assert Step(Up, maxX, maxY, p) == Pos(p.x, 0) && Pos(p.x, 0) in walls;
      assert Step(Up, maxX, maxY, Pos(p.x, 0)) == Pos(p.x, maxY) && Pos(p.x, maxY) in walls;
      assert Step(Up, maxX, maxY, Pos(p.x, maxY)) == Pos(p.x, maxY - 1) && Pos(p.x, maxY - 1) !in walls;
      assert Scan(Up, maxX, maxY, walls, Pos(p.x, maxY), p) == Pos(p.x, maxY - 1);
  }

  /** One minute of a walled blizzard: it moves one cell round its interior cycle. */
  lemma WalledStep(b: Blizzard, walls: set<Pos>, maxX: int, maxY: int)
    requires Walled(b, walls, maxX, maxY)
    ensures b.pos !in walls
    ensures NextPos(b, walls, maxX, maxY) ==
            AtAlong(b.dir, b.pos, Drift(b.dir, Along(b.dir, b.pos), 1, Extent(b.dir, maxX, maxY) - 1))
    ensures Walled(Blizzard(b.dir, NextPos(b, walls, maxX, maxY)), walls, maxX, maxY)
  {
    var d, n, c := b.dir, Extent(b.dir, maxX, maxY), Along(b.dir, b.pos);
    assert b.pos == AtAlong(d, b.pos, c);
    var k := Drift(d, c, 1, n - 1);
    assert NextPos(b, walls, maxX, maxY) == AtAlong(d, b.pos, k) by {
      DriftOne(d, c, n - 1);
      if (Forward(d) && c + 1 <= n - 1) || (!Forward(d) && c - 1 >= 1) {
        StepInside(b, walls, maxX, maxY);
      } else {
        StepWraps(b, walls, maxX, maxY);
      }
    }
    assert 1 <= k <= n - 1;
    WalledMove(b, AtAlong(d, b.pos, k), walls, maxX, maxY);
  }

  /** One minute round a cycle of `span` cells numbered 1 .. span. */
  lemma DriftOne(d: Direction, c: int, span: int)
    requires 1 <= c <= span
    ensures Drift(d, c, 1, span) ==
            if Forward(d) then (if c < span then c + 1 else 1) else (if c > 1 then c - 1 else span)
  {
    if Forward(d) {
      if c < span {
        SmallMod(c, span);
      } else {
        ModUnique(span, span, 1, 0);
      }
    } else {
      if c > 1 {
        SmallMod(c - 2, span);
      } else {
        ModUnique(-1, span, -1, span - 1);
      }
    }
  }

  /** A blizzard after t minutes. */
  function After(b: Blizzard, walls: set<Pos>, maxX: int, maxY: int, t: nat): (r: Blizzard)
    requires InBox(b.pos, maxX, maxY) && b.pos !in walls
    ensures r.dir == b.dir && InBox(r.pos, maxX, maxY) && r.pos !in walls
  {
    if t == 0 then b
    else
      var prev := After(b, walls, maxX, maxY, t - 1);
      Blizzard(b.dir, NextPos(prev, walls, maxX, maxY))
  }

  lemma DriftSucc(d: Direction, c: int, t: nat, span: int)
    requires span > 0 && t > 0
    ensures Drift(d, Drift(d, c, t - 1, span), 1, span) == Drift(d, c, t, span)
  {
    var k := Drift(d, c, t - 1, span) - 1;
    SmallMod(k, span);
    if Forward(d) {
      ModSucc(c - 1 + t - 1, span);
      ModSucc(k, span);
    } else {
      ModPred(c - 1 - (t - 1), span);
      ModPred(k, span);
    }
  }

  /** A walled blizzard after t minutes is t cells further round its interior cycle. */
  lemma {:induction false} WalledAfter(b: Blizzard, walls: set<Pos>, maxX: int, maxY: int, t: nat)
    requires Walled(b, walls, maxX, maxY)
    ensures Walled(After(b, walls, maxX, maxY, t), walls, maxX, maxY)
    ensures After(b, walls, maxX, maxY, t) ==
            Blizzard(b.dir, AtAlong(b.dir, b.pos, Drift(b.dir, Along(b.dir, b.pos), t, Extent(b.dir, maxX, maxY) - 1)))
  {
    var d, c, span := b.dir, Along(b.dir, b.pos), Extent(b.dir, maxX, maxY) - 1;
    if t == 0 {
      SmallMod(c - 1, span);
      assert b.pos == AtAlong(d, b.pos, c);
    } else {
      WalledAfter(b, walls, maxX, maxY, t - 1);
      var prev := After(b, walls, maxX, maxY, t - 1);
      WalledStep(prev, walls, maxX, maxY);
      assert Along(d, prev.pos) == Drift(d, c, t - 1, span);
      SameLine(d, prev.pos, b.pos);
      DriftSucc(d, c, t, span);
    }
  }

  /** A walled blizzard is back where it started after any multiple of its cycle length. */
  lemma WalledPeriodic(b: Blizzard, walls: set<Pos>, maxX: int, maxY: int, t: nat)
    requires Walled(b, walls, maxX, maxY)
    requires t % (Extent(b.dir, maxX, maxY) - 1) == 0
    ensures After(b, walls, maxX, maxY, t) == b
  {
    var d, c, span := b.dir, Along(b.dir, b.pos), Extent(b.dir, maxX, maxY) - 1;
    WalledAfter(b, walls, maxX, maxY, t);
    DriftPeriodic(d, c, t, span);
    assert b.pos == AtAlong(d, b.pos, c);
  }

  lemma DriftPeriodic(d: Direction, c: int, t: nat, span: int)
    requires span > 0 && 1 <= c <= span && t % span == 0
    ensures Drift(d, c, t, span) == c
  {
    var q := t / span;
    assert t == q * span;
    SmallMod(c - 1, span);
    if Forward(d) {
      ModShift(c - 1, q, span);
      assert c - 1 + t == c - 1 + q * span;
      assert (c - 1 + t) % span == c - 1;
    } else {
      ModShift(c - 1, -q, span);
      assert c - 1 - t == c - 1 + (-q) * span;
      assert (c - 1 - t) % span == c - 1;
    }
  }

  predicate CommonMultiple(k: int, a: int, b: int)
    requires a > 0 && b > 0
  {
    k > 0 && k % a == 0 && k % b == 0
  }

  function LcmFrom(a: int, b: int, k: int): (r: int)
    requires a > 0 && b > 0 && 1 <= k <= a * b
    requires forall j :: 1 <= j < k ==> !CommonMultiple(j, a, b)
    ensures CommonMultiple(r, a, b) && forall j :: 1 <= j < r ==> !CommonMultiple(j, a, b)
    decreases a * b - k
  {
    if CommonMultiple(k, a, b) then k
    else
      ProductIsCommon(a, b);
      LcmFrom(a, b, k + 1)
  }

  lemma ProductIsCommon(a: int, b: int)
    requires a > 0 && b > 0
    ensures CommonMultiple(a * b, a, b)
  {
    MulAtLeast(a, b);
    ModUnique(a * b, a, b, 0);
    ModUnique(a * b, b, a, 0);
  }

  /** num::integer::lcm on positive arguments: the least positive common multiple. */
  function Lcm(a: int, b: int): (r: int)
    requires a > 0 && b > 0
    ensures CommonMultiple(r, a, b) && forall j :: 1 <= j < r ==> !CommonMultiple(j, a, b)
  {
    MulAtLeast(a, b);
    LcmFrom(a, b, 1)
  }

  /** The whole field after t minutes: Blizzards::step applied t times. */
  function FieldAt(bs: seq<Blizzard>, walls: set<Pos>, maxX: int, maxY: int, t: nat): (r: seq<Blizzard>)
    requires Placed(bs, walls, maxX, maxY)
    ensures |r| == |bs| && Placed(r, walls, maxX, maxY)
  {
    if t == 0 then bs else StepAll(FieldAt(bs, walls, maxX, maxY, t - 1), walls, maxX, maxY)
  }

  lemma {:induction false} FieldAtEach(bs: seq<Blizzard>, walls: set<Pos>, maxX: int, maxY: int, t: nat)
    requires Placed(bs, walls, maxX, maxY)
    ensures forall i :: 0 <= i < |bs| ==> FieldAt(bs, walls, maxX, maxY, t)[i] == After(bs[i], walls, maxX, maxY, t)
  {
    if t > 0 {
      FieldAtEach(bs, walls, maxX, maxY, t - 1);
    }
  }

  /** The interior width and height of the basin: the cycle lengths of horizontal and vertical blizzards. */
  function Period(maxX: int, maxY: int): (r: int)
    requires maxX >= 2 && maxY >= 2
    ensures r > 0 && r % (maxX - 1) == 0 && r % (maxY - 1) == 0
  {
    Lcm(maxX - 1, maxY - 1)
  }

  /**
   * In a basin whose every blizzard is walled, the field after Period minutes is the field
   * at minute 0: this is why the graph may link its last layer back to layer 0.
   */
  lemma FieldPeriodic(bs: seq<Blizzard>, walls: set<Pos>, maxX: int, maxY: int)
    requires maxX >= 2 && maxY >= 2
    requires forall i :: 0 <= i < |bs| ==> Walled(bs[i], walls, maxX, maxY)
    ensures Placed(bs, walls, maxX, maxY)
    ensures FieldAt(bs, walls, maxX, maxY, Period(maxX, maxY)) == bs
  {
    var p := Period(maxX, maxY);
    WalledPlaced(bs, walls, maxX, maxY);
    FieldAtEach(bs, walls, maxX, maxY, p);
    var f := FieldAt(bs, walls, maxX, maxY, p);
    forall i | 0 <= i < |bs|
      ensures f[i] == bs[i]
    {
      WalledBackAtPeriod(bs[i], walls, maxX, maxY);
    }
  }

  lemma WalledBackAtPeriod(b: Blizzard, walls: set<Pos>, maxX: int, maxY: int)
    requires maxX >= 2 && maxY >= 2 && Walled(b, walls, maxX, maxY)
    ensures After(b, walls, maxX, maxY, Period(maxX, maxY)) == b
  {
    var p := Period(maxX, maxY);
    SpanDivides(b.dir, maxX, maxY, p);
    WalledPeriodic(b, walls, maxX, maxY, p);
  }

  lemma SpanDivides(d: Direction, maxX: int, maxY: int, p: int)
    requires maxX >= 2 && maxY >= 2 && p % (maxX - 1) == 0 && p % (maxY - 1) == 0
    ensures p % (Extent(d, maxX, maxY) - 1) == 0
  {
  }

  lemma WalledPlaced(bs: seq<Blizzard>, walls: set<Pos>, maxX: int, maxY: int)
    requires forall i :: 0 <= i < |bs| ==> Walled(bs[i], walls, maxX, maxY)
    ensures Placed(bs, walls, maxX, maxY)
  {
  }

  /** The blizzard a map character stands for, if any. */
  function CellBlizzard(c: char): Option<Direction>
  {
    match c
    case '>' => Some(Right)
    case '<' => Some(Left)
    case '^' => Some(Up)
    case 'v' => Some(Down)
    case _ => None
  }

  /** The walls of a map: every '#', at (column, line). */
  ghost function WallsOf(lines: seq<string>): set<Pos>
  {
    set y, x | 0 <= y < |lines| && 0 <= x < |lines[y]| && lines[y][x] == '#' :: Pos(x, y)
  }

  /** The blizzards of one map line, left to right. */
  function RowBlizzards(row: string, y: int): seq<Blizzard>
  {
    if row == [] then []
    else
      var x := |row| - 1;
      RowBlizzards(row[..x], y) + match CellBlizzard(row[x]) { case Some(d) => [Blizzard(d, Pos(x, y))] case None => [] }
  }

  /** The blizzards of a map in reading order. */
  function GridBlizzards(lines: seq<string>): seq<Blizzard>
  {
    if lines == [] then []
    else
      var y := |lines| - 1;
      GridBlizzards(lines[..y]) + RowBlizzards(lines[y], y)
  }

  /** parse: walls are the '#' cells, blizzards the arrow cells in reading order. */
  method Parse(lines: seq<string>) returns (bs: seq<Blizzard>, walls: set<Pos>)
    ensures bs == GridBlizzards(lines)
    ensures walls == WallsOf(lines)
  {
    bs, walls := [], {};
    var y := 0;
    while y < |lines|
      invariant 0 <= y <= |lines|
      invariant bs == GridBlizzards(lines[..y])
      invariant forall p :: p in walls <==> 0 <= p.y < y && 0 <= p.x < |lines[p.y]| && lines[p.y][p.x] == '#'
    {
      var line := lines[y];
      var x := 0;
      while x < |line|
        invariant 0 <= x <= |line|
        invariant bs == GridBlizzards(lines[..y]) + RowBlizzards(line[..x], y)
        invariant forall p :: p in walls <==>
                    (0 <= p.y < y && 0 <= p.x < |lines[p.y]| && lines[p.y][p.x] == '#') ||
                    (p.y == y && 0 <= p.x < x && line[p.x] == '#')
      {
        var c := line[x];
        var position := Pos(x, y);
        assert line[..x + 1][..x] == line[..x];
        match c {
          case '#' => walls := walls + {position};
          case '>' => bs := bs + [Blizzard(Right, position)];
          case '<' => bs := bs + [Blizzard(Left, position)];
          case '^' => bs := bs + [Blizzard(Up, position)];
          case 'v' => bs := bs + [Blizzard(Down, position)];
          case _ =>
        }
        x := x + 1;
      }
      assert line[..x] == line;
      assert lines[..y + 1][..y] == lines[..y];
      y := y + 1;
    }
    assert lines[..y] == lines;
    assert forall p :: p in walls <==> p in WallsOf(lines);
  }

  lemma {:induction false} RowBlizzardsMember(row: string, y: int, b: Blizzard)
    ensures b in RowBlizzards(row, y) <==>
            b.pos.y == y && 0 <= b.pos.x < |row| && CellBlizzard(row[b.pos.x]) == Some(b.dir)
  {
    if row != [] {
      var x := |row| - 1;
      RowBlizzardsMember(row[..x], y, b);
    }
  }

  /** Each parsed blizzard stands on the arrow that names its direction, and each arrow yields one. */
  lemma {:induction false} GridBlizzardsMember(lines: seq<string>, b: Blizzard)
    ensures b in GridBlizzards(lines) <==>
            0 <= b.pos.y < |lines| && 0 <= b.pos.x < |lines[b.pos.y]| &&
            CellBlizzard(lines[b.pos.y][b.pos.x]) == Some(b.dir)
  {
    if lines != [] {
      var y := |lines| - 1;
      GridBlizzardsMember(lines[..y], b);
      RowBlizzardsMember(lines[y], y, b);
    }
  }

  /** No parsed blizzard starts on a wall. */
  lemma ParsedApart(lines: seq<string>)
    ensures forall b :: b in GridBlizzards(lines) ==> b.pos !in WallsOf(lines)
  {
    forall b | b in GridBlizzards(lines)
      ensures b.pos !in WallsOf(lines)
    {
      GridBlizzardsMember(lines, b);
    }
  }

  /** A graph node: an open cell at one minute of the period. */
  datatype Node = Node(pos: Pos, cycle: nat)

  datatype Edge = Edge(from: Node, to: Node)

  /** Some blizzard stands on p. */
  ghost predicate Occupied(bs: seq<Blizzard>, p: Pos)
  {
    exists i :: 0 <= i < |bs| && bs[i].pos == p
  }

  /** blizzards.iter().any(|(_, pos)| *pos == p) */
  function AnyAt(bs: seq<Blizzard>, p: Pos): (r: bool)
    ensures r <==> Occupied(bs, p)
  {
    if bs == [] then false
    else
      assert forall i :: 1 <= i < |bs| ==> bs[i] == bs[1..][i - 1];
      bs[0].pos == p || AnyAt(bs[1..], p)
  }

  /** The open cells of the bounding box while the blizzards stand at bs, as nodes of one minute. */
  ghost function Layer(bs: seq<Blizzard>, walls: set<Pos>, maxX: int, maxY: int, cycle: nat): set<Node>
  {
    set x, y | 0 <= x <= maxX && 0 <= y <= maxY && Pos(x, y) !in walls && !Occupied(bs, Pos(x, y)) ::
      Node(Pos(x, y), cycle)
  }

  lemma LayerMember(bs: seq<Blizzard>, walls: set<Pos>, maxX: int, maxY: int, cycle: nat, n: Node)
    ensures n in Layer(bs, walls, maxX, maxY, cycle) <==>
            n.cycle == cycle && InBox(n.pos, maxX, maxY) && n.pos !in walls && !Occupied(bs, n.pos)
  {
    if n.cycle == cycle && InBox(n.pos, maxX, maxY) && n.pos !in walls && !Occupied(bs, n.pos) {
      assert n == Node(Pos(n.pos.x, n.pos.y), cycle);
    }
  }

  /** The last minute of the period: no node is later. */
  ghost predicate IsLastCycle(nodes: set<Node>, c: int)
  {
    forall n :: n in nodes ==> n.cycle <= c
  }

  /** The minute after c, with the last minute followed by minute 0. */
  ghost function NextCycle(nodes: set<Node>, c: int): int
  {
    if IsLastCycle(nodes, c) then 0 else c + 1
  }

  /** The edges finalize_edges adds: wait in place or move one cell, into the next minute. */
  ghost predicate Link(nodes: set<Node>, e: Edge)
  {
    e.from in nodes && e.to in nodes && Manhattan(e.from.pos, e.to.pos) <= 1 &&
    e.to.cycle == NextCycle(nodes, e.from.cycle)
  }

  /** Nodes on the lowest row (largest y) and on the highest row (smallest y). */
  ghost function Endings(nodes: set<Node>): set<Node>
  {
    set n | n in nodes && forall m :: m in nodes ==> m.pos.y <= n.pos.y
  }

  ghost function Starts(nodes: set<Node>): set<Node>
  {
    set n | n in nodes && forall m :: m in nodes ==> m.pos.y >= n.pos.y
  }

  /** A wait edge out of a node in `from`: the edges removed at the entrance and exit rows. */
  ghost predicate WaitFrom(from: set<Node>, nodes: set<Node>, e: Edge)
  {
    e.from in from && e.to.pos == e.from.pos &&
    (e.to.cycle == e.from.cycle + 1 || (IsLastCycle(nodes, e.from.cycle) && e.to.cycle == 0))
  }

  ghost predicate Pruned(nodes: set<Node>, e: Edge)
  {
    WaitFrom(Endings(nodes), nodes, e) || WaitFrom(Starts(nodes), nodes, e)
  }

  method MaxOf(s: set<int>) returns (m: int)
    requires s != {}
    ensures m in s && forall v :: v in s ==> v <= m
  {
    NonEmptyHasMember(s);
    var v :| v in s;
    m := v;
    var rest := s - {v};
    while rest != {}
      invariant rest <= s && m in s
      invariant forall u :: u in s - rest ==> u <= m
      decreases rest
    {
      NonEmptyHasMember(rest);
      var u :| u in rest;
      if u > m { m := u; }
      assert forall w :: w in s - (rest - {u}) ==> w in s - rest || w == u;
      rest := rest - {u};
    }
    assert s - rest == s;
  }

  method MinOf(s: set<int>) returns (m: int)
    requires s != {}
    ensures m in s && forall v :: v in s ==> m <= v
  {
    NonEmptyHasMember(s);
    var v :| v in s;
    m := v;
    var rest := s - {v};
    while rest != {}
      invariant rest <= s && m in s
      invariant forall u :: u in s - rest ==> m <= u
      decreases rest
    {
      NonEmptyHasMember(rest);
      var u :| u in rest;
      if u < m { m := u; }
      assert forall w :: w in s - (rest - {u}) ==> w in s - rest || w == u;
      rest := rest - {u};
    }
    assert s - rest == s;
  }

  /** The time-expanded graph of open cells: the DiGraphMap as its node and edge sets. */
  class OpenGraph {
    var nodes: set<Node>
    var edges: set<Edge>

    constructor ()
      ensures nodes == {} && edges == {}
    {
      nodes, edges := {}, {};
    }

    /** add_cycle_nodes: one node per cell of the bounding box that is neither wall nor blizzard. */
    method AddCycleNodes(bs: seq<Blizzard>, walls: set<Pos>, cycle: nat)
      modifies this
      ensures nodes == old(nodes) + Layer(bs, walls, BoundX(walls), BoundY(walls), cycle)
      ensures edges == old(edges)
    {
      var maxX, maxY := Boundaries(walls);
      ghost var layer := Layer(bs, walls, maxX, maxY, cycle);
      var x := 0;
      while x <= maxX
        invariant 0 <= x <= maxX + 1 && edges == old(edges)
        invariant forall n :: n in nodes <==> n in old(nodes) || (n in layer && n.pos.x < x)
      {
        var y := 0;
        while y <= maxY
          invariant 0 <= y <= maxY + 1 && edges == old(edges)
          invariant forall n :: n in nodes <==>
                      n in old(nodes) || (n in layer && (n.pos.x < x || (n.pos.x == x && n.pos.y < y)))
        {
          var position := Pos(x, y);
          LayerMember(bs, walls, maxX, maxY, cycle, Node(position, cycle));
          if position !in walls && !AnyAt(bs, position) {
            nodes := nodes + {Node(position, cycle)};
          }
          y := y + 1;
        }
        x := x + 1;
      }
      forall n | n in layer
        ensures n.pos.x <= maxX
      {
        LayerMember(bs, walls, maxX, maxY, cycle, n);
      }
    }

    /** The largest cycle number among the nodes (num_cycles in finalize_edges). */
    method LastCycle() returns (top: nat)
      requires nodes != {}
      ensures IsLastCycle(nodes, top) && exists n :: n in nodes && n.cycle == top
    {
      var cycles := set n | n in nodes :: n.cycle as int;
      var n0 :| n0 in nodes;
      assert n0.cycle as int in cycles;
      var v := MaxOf(cycles);
      top := v;
      assert forall n :: n in nodes ==> n.cycle as int in cycles;
    }

    /** endings: the nodes on the row with the largest y. */
    method FindEndings() returns (r: set<Node>)
      requires nodes != {}
      ensures r == Endings(nodes)
    {
      var ys := set n | n in nodes :: n.pos.y;
      var n0 :| n0 in nodes;
      assert n0.pos.y in ys;
      var maxY := MaxOf(ys);
      assert forall n :: n in nodes ==> n.pos.y in ys;
      r := set n | n in nodes && n.pos.y == maxY;
    }

    /** starts: the nodes on the row with the smallest y. */
    method FindStarts() returns (r: set<Node>)
      requires nodes != {}
      ensures r == Starts(nodes)
    {
      var ys := set n | n in nodes :: n.pos.y;
      var n0 :| n0 in nodes;
      assert n0.pos.y in ys;
      var minY := MinOf(ys);
      assert forall n :: n in nodes ==> n.pos.y in ys;
      r := set n | n in nodes && n.pos.y == minY;
    }

    /** Link every node of minute c to each node of minute c2 at distance at most 1. */
    method LinkCycles(c: nat, c2: nat)
      modifies this
      ensures nodes == old(nodes)
      ensures forall e :: e in edges <==>
                e in old(edges) ||
                (e.from in nodes && e.to in nodes && e.from.cycle == c && e.to.cycle == c2 &&
                 Manhattan(e.from.pos, e.to.pos) <= 1)
    {
      var from := set n | n in nodes && n.cycle == c;
      var to := set n | n in nodes && n.cycle == c2;
      var rest := from;
      while rest != {}
        invariant rest <= from && nodes == old(nodes)
        invariant forall e :: e in edges <==>
                    e in old(edges) || (e.from in from - rest && e.to in to && Manhattan(e.from.pos, e.to.pos) <= 1)
        decreases rest
      {
        var node :| node in rest;
        var targets := to;
        while targets != {}
          invariant targets <= to && nodes == old(nodes)
          invariant forall e :: e in edges <==>
                      e in old(edges) ||
                      (e.from in from - rest && e.to in to && Manhattan(e.from.pos, e.to.pos) <= 1) ||
                      (e.from == node && e.to in to - targets && Manhattan(e.from.pos, e.to.pos) == 1)
          decreases targets
        {
          var next :| next in targets;
          if Manhattan(node.pos, next.pos) == 1 {
            edges := edges + {Edge(node, next)};
          }
          targets := targets - {next};
        }
        var same := Node(node.pos, c2);
        if same in nodes {
          edges := edges + {Edge(node, same)};
        }
        rest := rest - {node};
      }
    }

    /** Remove the wait edge out of every node of `from` (both continuations of the last minute). */
    method RemoveWaits(from: set<Node>, top: nat)
      requires IsLastCycle(nodes, top) && exists n :: n in nodes && n.cycle == top
      requires from <= nodes
      modifies this
      ensures nodes == old(nodes)
      ensures forall e :: e in edges <==> e in old(edges) && !WaitFrom(from, nodes, e)
    {
      var rest := from;
      while rest != {}
        invariant rest <= from && nodes == old(nodes)
        invariant forall e :: e in edges <==> e in old(edges) && !WaitFrom(from - rest, nodes, e)
        decreases rest
      {
        var node :| node in rest;
        edges := edges - {Edge(node, Node(node.pos, node.cycle + 1))};
        if node.cycle == top {
          edges := edges - {Edge(node, Node(node.pos, 0))};
        }
        rest := rest - {node};
      }
    }

    /**
     * finalize_edges: link each minute to the next and the last minute to minute 0, then drop
     * the wait edges on the first and last rows.
     */
    method FinalizeEdges()
      requires nodes != {}
      modifies this
      ensures nodes == old(nodes)
      ensures forall e :: e in edges <==> (e in old(edges) || Link(nodes, e)) && !Pruned(nodes, e)
    {
      var top := LastCycle();
      var c := 0;
      while c < top
        invariant 0 <= c <= top && nodes == old(nodes)
        invariant forall e :: e in edges <==> e in old(edges) || (Link(nodes, e) && e.from.cycle < c)
      {
        LinkCycles(c, c + 1);
        c := c + 1;
      }
      LinkCycles(top, 0);
      assert forall e :: e in edges <==> e in old(edges) || Link(nodes, e);
      var ends := FindEndings();
      RemoveWaits(ends, top);
      var starts := FindStarts();
      RemoveWaits(starts, top);
    }
  }

  /** The nodes of a run of minutes: the open cells of each minute's field, minute t at index t. */
  ghost function LayersOf(fields: seq<seq<Blizzard>>, walls: set<Pos>, maxX: int, maxY: int): set<Node>
  {
    if fields == [] then {}
    else
      var t := |fields| - 1;
      LayersOf(fields[..t], walls, maxX, maxY) + Layer(fields[t], walls, maxX, maxY, t)
  }

  /** A node belongs to the layers iff its minute is in range and its cell is open then. */
  lemma {:induction false} LayersMember(fields: seq<seq<Blizzard>>, walls: set<Pos>, maxX: int, maxY: int, v: Node)
    ensures v in LayersOf(fields, walls, maxX, maxY) <==>
            v.cycle < |fields| && InBox(v.pos, maxX, maxY) && v.pos !in walls && !Occupied(fields[v.cycle], v.pos)
  {
    if fields != [] {
      var t := |fields| - 1;
      LayersMember(fields[..t], walls, maxX, maxY, v);
      LayerMember(fields[t], walls, maxX, maxY, t, v);
    }
  }

  /** The fields of minutes 0 .. n - 1. */
  ghost function Fields(bs: seq<Blizzard>, walls: set<Pos>, maxX: int, maxY: int, n: nat): (r: seq<seq<Blizzard>>)
    requires Placed(bs, walls, maxX, maxY)
    ensures |r| == n && forall t :: 0 <= t < n ==> r[t] == FieldAt(bs, walls, maxX, maxY, t)
  {
    if n == 0 then [] else Fields(bs, walls, maxX, maxY, n - 1) + [FieldAt(bs, walls, maxX, maxY, n - 1)]
  }

  ghost function Layers(bs: seq<Blizzard>, walls: set<Pos>, maxX: int, maxY: int, n: nat): set<Node>
    requires Placed(bs, walls, maxX, maxY)
  {
    LayersOf(Fields(bs, walls, maxX, maxY, n), walls, maxX, maxY)
  }

  lemma LayersSnoc(bs: seq<Blizzard>, walls: set<Pos>, maxX: int, maxY: int, n: nat)
    requires Placed(bs, walls, maxX, maxY)
    ensures Layers(bs, walls, maxX, maxY, n + 1) ==
            Layers(bs, walls, maxX, maxY, n) + Layer(FieldAt(bs, walls, maxX, maxY, n), walls, maxX, maxY, n)
  {
    var fields := Fields(bs, walls, maxX, maxY, n + 1);
    assert fields[..n] == Fields(bs, walls, maxX, maxY, n);
  }

  /**
   * The graph-building half of part_one: one layer of open cells per minute of the period
   * lcm(max_x - 1, max_y - 1), stepping the blizzards between layers, then finalize_edges.
   * `ok` is false where finalize_edges would panic on an empty graph.
   */
  method BuildGraph(bs: seq<Blizzard>, walls: set<Pos>) returns (g: OpenGraph, ok: bool)
    requires BoundX(walls) >= 2 && BoundY(walls) >= 2
    requires Placed(bs, walls, BoundX(walls), BoundY(walls))
    ensures fresh(g)
    ensures g.nodes == Layers(bs, walls, BoundX(walls), BoundY(walls), Period(BoundX(walls), BoundY(walls)))
    ensures ok <==> g.nodes != {}
    ensures ok ==> forall e :: e in g.edges <==> Link(g.nodes, e) && !Pruned(g.nodes, e)
  {
    var maxX, maxY := Boundaries(walls);
    var numCycles := Lcm(maxX - 1, maxY - 1);
    g := new OpenGraph();
    var blizzards := bs;
    var cycle := 0;
    while cycle < numCycles
      invariant 0 <= cycle <= numCycles
      invariant blizzards == FieldAt(bs, walls, maxX, maxY, cycle)
      invariant g.nodes == Layers(bs, walls, maxX, maxY, cycle) && g.edges == {}
    {
      LayersSnoc(bs, walls, maxX, maxY, cycle);
      g.AddCycleNodes(blizzards, walls, cycle);
      blizzards := StepBlizzards(blizzards, walls);
      cycle := cycle + 1;
    }
    ok := g.nodes != {};
    if ok {
      g.FinalizeEdges();
    }
  }

  /** Layers are numbered 0 .. period - 1. */
  lemma LayersBelowPeriod(bs: seq<Blizzard>, walls: set<Pos>, maxX: int, maxY: int)
    requires maxX >= 2 && maxY >= 2 && Placed(bs, walls, maxX, maxY)
    ensures forall v :: v in Layers(bs, walls, maxX, maxY, Period(maxX, maxY)) ==> v.cycle < Period(maxX, maxY)
  {
    forall v | v in Layers(bs, walls, maxX, maxY, Period(maxX, maxY))
      ensures v.cycle < Period(maxX, maxY)
    {
      LayersMember(Fields(bs, walls, maxX, maxY, Period(maxX, maxY)), walls, maxX, maxY, v);
    }
  }

  /**
   * Every link of the graph is a legal minute of the walk in a walled basin: it starts on a
   * cell open at its minute and ends one cell away (or in place) on a cell open a minute later.
   * For the link from the last layer to layer 0 this rests on the field's periodicity. It needs
   * the last layer to hold some node, or "last" would name an earlier minute.
   */
  lemma LinkIsMove(bs: seq<Blizzard>, walls: set<Pos>, maxX: int, maxY: int, e: Edge)
    requires maxX >= 2 && maxY >= 2 && Placed(bs, walls, maxX, maxY)
    requires forall i :: 0 <= i < |bs| ==> Walled(bs[i], walls, maxX, maxY)
    requires exists v :: v in Layers(bs, walls, maxX, maxY, Period(maxX, maxY)) && v.cycle == Period(maxX, maxY) - 1
    requires Link(Layers(bs, walls, maxX, maxY, Period(maxX, maxY)), e)
    ensures Manhattan(e.from.pos, e.to.pos) <= 1
    ensures InBox(e.from.pos, maxX, maxY) && e.from.pos !in walls
    ensures !Occupied(FieldAt(bs, walls, maxX, maxY, e.from.cycle), e.from.pos)
    ensures InBox(e.to.pos, maxX, maxY) && e.to.pos !in walls
    ensures !Occupied(FieldAt(bs, walls, maxX, maxY, e.from.cycle + 1), e.to.pos)
  {
    var period := Period(maxX, maxY);
    var nodes := Layers(bs, walls, maxX, maxY, period);
    var fields := Fields(bs, walls, maxX, maxY, period);
    LayersMember(fields, walls, maxX, maxY, e.from);
    LayersMember(fields, walls, maxX, maxY, e.to);
    LayersBelowPeriod(bs, walls, maxX, maxY);
    if e.from.cycle == period - 1 {
      assert IsLastCycle(nodes, e.from.cycle);
      FieldPeriodic(bs, walls, maxX, maxY);
      assert e.to.cycle == 0;
    } else {
      assert !IsLastCycle(nodes, e.from.cycle);
    }
  }
}
