/** Day 23: elves spreading out on an unbounded grid. Each round every elf with
  * a neighbour proposes a step in the first of four directions (rotating from
  * round to round) whose three cells ahead are empty; proposals that collide
  * are dropped and the rest are carried out. */
module Day23 {
  import opened Wrappers
  import opened Sets
  import Seqs

  datatype Direction = North | South | West | East

  datatype Pos = Pos(x: int, y: int)

  function Plus(a: Pos, b: Pos): Pos
  {
    Pos(a.x + b.x, a.y + b.y)
  }

  /** The position of a direction in the declared order North, South, West, East. */
  function Index(d: Direction): nat
  {
    match d
    case North => 0
    case South => 1
    case West => 2
    case East => 3
  }

  /** next_direction: the next direction in declaration order, East wrapping to North. */
  function NextDirection(d: Direction): (r: Direction)
    ensures Index(r) == (Index(d) + 1) % 4
  {
    match d
    case North => South
    case South => West
    case West => East
    case East => North
  }

  /** `d` turned k times. */
  function Turn(d: Direction, k: nat): Direction
  {
    if k == 0 then d else NextDirection(Turn(d, k - 1))
  }

  lemma {:induction false} TurnIndex(d: Direction, k: nat)
    ensures Index(Turn(d, k)) == (Index(d) + k) % 4
  {
    if k > 0 {
      TurnIndex(d, k - 1);
    }
  }

  /** The round directions of the source's cycling iterator: round r uses the r-th entry of
    * [North, South, West, East] taken modulo 4, which is North turned r times. */
  lemma RoundDirection(r: nat)
    ensures Turn(North, r) == [North, South, West, East][r % 4]
  {
    TurnIndex(North, r);
  }

  /** Four turns lead back to the start, and no fewer do. */
  lemma TurnPeriod(d: Direction)
    ensures Turn(d, 4) == d
    ensures Turn(d, 1) != d && Turn(d, 2) != d && Turn(d, 3) != d
  {
    match d
    case North =>
    case South =>
    case West =>
    case East =>
  }

  /** The uniquely defined result of the direction_cycle loop. */
  function Cycle(d: Direction): seq<Direction>
  {
    [d, Turn(d, 1), Turn(d, 2), Turn(d, 3)]
  }

  /** Each cycle lists all four directions once, starting with `d`. */
  lemma CycleListsAll(d: Direction)
    ensures |Cycle(d)| == 4 && Cycle(d)[0] == d
    ensures forall i, j :: 0 <= i < j < 4 ==> Cycle(d)[i] != Cycle(d)[j]
    ensures forall e: Direction :: e in Cycle(d)
  {
    TurnIndex(d, 1);
    TurnIndex(d, 2);
    TurnIndex(d, 3);
    forall e: Direction
      ensures e in Cycle(d)
    {
      var k := (Index(e) + 4 - Index(d)) % 4;
      TurnIndex(d, k);
      assert Index(Turn(d, k)) == Index(e);
      assert Cycle(d)[k] == e;
    }
  }

  method DirectionCycle(d: Direction) returns (ds: seq<Direction>)
    ensures ds == Cycle(d)
    ensures |ds| == 4 && ds[0] == d
    ensures forall i :: 0 <= i < 3 ==> ds[i + 1] == NextDirection(ds[i])
  {
    TurnPeriod(d);
    ds := [d];
    var next := NextDirection(d);
    while next != d
      invariant 1 <= |ds| <= 4
      invariant ds == Cycle(d)[..|ds|]
      invariant next == Turn(d, |ds|)
      decreases 4 - |ds|
    {
      assert |ds| < 4;
      assert Cycle(d)[..|ds| + 1] == Cycle(d)[..|ds|] + [next];
      ds := ds + [next];
      next := NextDirection(next);
    }
  }

  /** The step a direction stands for. */
  function Unit(d: Direction): Pos
  {
    match d
    case North => Pos(0, -1)
    case South => Pos(0, 1)
    case West => Pos(-1, 0)
    case East => Pos(1, 0)
  }

  /** One of the eight cells around the origin. */
  predicate IsNeighbour(v: Pos)
  {
    -1 <= v.x <= 1 && -1 <= v.y <= 1 && v != Pos(0, 0)
  }

  /** `v` lies on `d`'s side of the origin (the row or column d faces). */
  predicate OnSide(d: Direction, v: Pos)
  {
    match d
    case North => v.y == -1
    case South => v.y == 1
    case West => v.x == -1
    case East => v.x == 1
  }

  /** comparison_vectors: the step itself first, then its two diagonals, which are
    * exactly the three neighbours on d's side. */
  function ComparisonVectors(d: Direction): (r: seq<Pos>)
    ensures |r| == 3 && r[0] == Unit(d)
    ensures forall v :: v in r <==> IsNeighbour(v) && OnSide(d, v)
  {
    match d
    case North => [Pos(0, -1), Pos(1, -1), Pos(-1, -1)]
    case South => [Pos(0, 1), Pos(1, 1), Pos(-1, 1)]
    case West => [Pos(-1, 0), Pos(-1, 1), Pos(-1, -1)]
    case East => [Pos(1, 0), Pos(1, 1), Pos(1, -1)]
  }

  /** The four sides together cover the eight neighbours. */
  lemma SidesCoverNeighbours(v: Pos)
    requires IsNeighbour(v)
    ensures exists d: Direction :: v in ComparisonVectors(d)
  {
    if v.y == -1 {
      assert v in ComparisonVectors(North);
    } else if v.y == 1 {
      assert v in ComparisonVectors(South);
    } else if v.x == -1 {
      assert v in ComparisonVectors(West);
    } else {
      assert v in ComparisonVectors(East);
    }
  }

  // ---------------------------------------------------------------------
  // check_direction

  /** Some elf stands on one of the three cells `elf` checks towards `d`. */
  predicate Blocked(elf: Pos, d: Direction, occupied: set<Pos>)
  {
    var vs := ComparisonVectors(d);
    Plus(elf, vs[0]) in occupied || Plus(elf, vs[1]) in occupied || Plus(elf, vs[2]) in occupied
  }

  /** No elf stands on any of the eight cells around `elf`. */
  ghost predicate Alone(elf: Pos, occupied: set<Pos>)
  {
    forall v :: IsNeighbour(v) ==> Plus(elf, v) !in occupied
  }

  /** The step towards the first direction of `ds` that is not blocked. */
  function FirstOpen(elf: Pos, ds: seq<Direction>, occupied: set<Pos>): (r: Option<Pos>)
    ensures r.Some? ==> r.value !in occupied
    ensures r.None? <==> forall i :: 0 <= i < |ds| ==> Blocked(elf, ds[i], occupied)
  {
    if ds == [] then None
    else if !Blocked(elf, ds[0], occupied) then Some(Plus(elf, Unit(ds[0])))
    else FirstOpen(elf, ds[1..], occupied)
  }

  /** What check_direction returns for `elf` in a round that starts with direction `d`. */
  function Proposal(elf: Pos, d: Direction, occupied: set<Pos>): Option<Pos>
  {
    var ds := Cycle(d);
    if !(Blocked(elf, ds[0], occupied) || Blocked(elf, ds[1], occupied)
         || Blocked(elf, ds[2], occupied) || Blocked(elf, ds[3], occupied))
    then None
    else FirstOpen(elf, ds, occupied)
  }

  /** An elf with no neighbour stays put. */
  lemma AloneStays(elf: Pos, d: Direction, occupied: set<Pos>)
    requires Alone(elf, occupied)
    ensures Proposal(elf, d, occupied) == None
  {
    var ds := Cycle(d);
    forall i | 0 <= i < 4
      ensures !Blocked(elf, ds[i], occupied)
    {
      var vs := ComparisonVectors(ds[i]);
      assert IsNeighbour(vs[0]) && IsNeighbour(vs[1]) && IsNeighbour(vs[2]);
    }
  }

  /** And an elf that proposes had a neighbour. */
  lemma ProposerHasNeighbour(elf: Pos, d: Direction, occupied: set<Pos>)
    requires Proposal(elf, d, occupied).Some?
    ensures !Alone(elf, occupied)
  {
    var ds := Cycle(d);
    var i := if Blocked(elf, ds[0], occupied) then 0
             else if Blocked(elf, ds[1], occupied) then 1
             else if Blocked(elf, ds[2], occupied) then 2
             else 3;
    var vs := ComparisonVectors(ds[i]);
    assert IsNeighbour(vs[0]) && IsNeighbour(vs[1]) && IsNeighbour(vs[2]);
  }

  /** A proposal is one step in the first open direction of the cycle, onto an empty cell;
    * an elf with neighbours that is boxed in on all four sides proposes nothing. */
  lemma ProposalIsFirstOpen(elf: Pos, d: Direction, occupied: set<Pos>, i: nat)
    requires i < 4 && !Blocked(elf, Cycle(d)[i], occupied)
    requires forall j :: 0 <= j < i ==> Blocked(elf, Cycle(d)[j], occupied)
    requires !Alone(elf, occupied)
    ensures Proposal(elf, d, occupied) == Some(Plus(elf, Unit(Cycle(d)[i])))
    ensures Plus(elf, Unit(Cycle(d)[i])) !in occupied
  {
    var ds := Cycle(d);
    var v :| IsNeighbour(v) && Plus(elf, v) in occupied;
    SidesCoverNeighbours(v);
    var e: Direction :| v in ComparisonVectors(e);
    CycleListsAll(d);
    assert e in ds;
    var k :| 0 <= k < |ds| && ds[k] == e;
    assert Blocked(elf, ds[k], occupied);
    FirstOpenAt(elf, ds, occupied, i);
  }

  lemma {:induction false} FirstOpenAt(elf: Pos, ds: seq<Direction>, occupied: set<Pos>, i: nat)
    requires i < |ds| && !Blocked(elf, ds[i], occupied)
    requires forall j :: 0 <= j < i ==> Blocked(elf, ds[j], occupied)
    ensures FirstOpen(elf, ds, occupied) == Some(Plus(elf, Unit(ds[i])))
  {
    if i > 0 {
      FirstOpenAt(elf, ds[1..], occupied, i - 1);
    }
  }

  lemma BoxedIn(elf: Pos, d: Direction, occupied: set<Pos>)
    requires forall i :: 0 <= i < 4 ==> Blocked(elf, Cycle(d)[i], occupied)
    ensures Proposal(elf, d, occupied) == None
  {
  }

  /** The elves of a location list, as a set. */
  function ElvesOf(locations: seq<Pos>): set<Pos>
  {
    set p | p in locations
  }

  /** Whether any of the three cells `elf` checks towards `dir` holds an elf. */
  method AnyOccupied(elf: Pos, dir: Direction, locations: seq<Pos>) returns (b: bool)
    ensures b == Blocked(elf, dir, ElvesOf(locations))
  {
    var vs := ComparisonVectors(dir);
    b := false;
    for k := 0 to 3
      invariant b <==> exists j :: 0 <= j < k && Plus(elf, vs[j]) in ElvesOf(locations)
    {
      if Plus(elf, vs[k]) in locations {
        b := true;
      }
    }
  }

  method CheckDirection(elf: Pos, d: Direction, locations: seq<Pos>) returns (r: Option<Pos>)
    ensures r == Proposal(elf, d, ElvesOf(locations))
  {
    ghost var occupied := ElvesOf(locations);
    var cycle := DirectionCycle(d);
    var anyNeighbour := false;
    for i := 0 to 4
      invariant anyNeighbour <==> exists j :: 0 <= j < i && Blocked(elf, cycle[j], occupied)
    {
      var b := AnyOccupied(elf, cycle[i], locations);
      anyNeighbour := anyNeighbour || b;
    }
    if !anyNeighbour {
      return None;
    }
    for i := 0 to 4
      invariant forall j :: 0 <= j < i ==> Blocked(elf, cycle[j], occupied)
    {
      var blocked := AnyOccupied(elf, cycle[i], locations);
      if !blocked {
        FirstOpenAt(elf, cycle, occupied, i);
        var vs := ComparisonVectors(cycle[i]);
        return Some(Plus(elf, vs[0]));
      }
    }
    return None;
  }

  // ---------------------------------------------------------------------
  // One round.

  /** The proposals of all elves that have one (the HashMap keyed by elf). */
  function Proposals(elves: set<Pos>, d: Direction): map<Pos, Pos>
  {
    map e | e in elves && Proposal(e, d, elves).Some? :: Proposal(e, d, elves).value
  }

  /** The elves that propose target `t`. */
  function Contested(props: map<Pos, Pos>, t: Pos): set<Pos>
  {
    set k | k in props && props[k] == t
  }

  /** The proposals left after removing every elf whose target another elf also proposes. */
  function Uncontested(props: map<Pos, Pos>): (r: map<Pos, Pos>)
    ensures r.Keys <= props.Keys && forall k :: k in r ==> r[k] == props[k]
    ensures forall k :: k in props ==> (k in r <==> |Contested(props, props[k])| == 1)
  {
    map k | k in props && |Contested(props, props[k])| == 1 :: props[k]
  }

  /** After duplicate removal no two remaining proposals share a target. */
  lemma UncontestedIsInjective(props: map<Pos, Pos>)
    ensures Injective(Uncontested(props))
  {
    var r := Uncontested(props);
    forall j, k | j in r && k in r && j != k
      ensures r[j] != r[k]
    {
      if r[j] == r[k] {
        var c := Contested(props, props[j]);
        assert j in c && k in c;
        assert {j, k} <= c;
        SubsetCard({j, k}, c);
        assert false;
      }
    }
  }

  /** The elves after the moves: movers leave their cells and appear at their targets. */
  function Moved(elves: set<Pos>, moves: map<Pos, Pos>): set<Pos>
  {
    (elves - moves.Keys) + moves.Values
  }

  function NextElves(elves: set<Pos>, d: Direction): set<Pos>
  {
    Moved(elves, Uncontested(Proposals(elves, d)))
  }

  /** Every proposal comes from an elf and targets an empty cell. */
  lemma ProposalsTargetEmpty(elves: set<Pos>, d: Direction)
    ensures Proposals(elves, d).Keys <= elves
    ensures forall k :: k in Proposals(elves, d) ==> Proposals(elves, d)[k] !in elves
  {
    forall k | k in Proposals(elves, d)
      ensures Proposals(elves, d)[k] !in elves
    {
      ProposalLandsEmpty(k, d, elves);
    }
  }

  lemma ProposalLandsEmpty(elf: Pos, d: Direction, occupied: set<Pos>)
    requires Proposal(elf, d, occupied).Some?
    ensures Proposal(elf, d, occupied).value !in occupied
  {
  }

  /** A round keeps the number of elves. */
  lemma ElfCountKept(elves: set<Pos>, d: Direction)
    ensures |NextElves(elves, d)| == |elves|
  {
    var props := Proposals(elves, d);
    ProposalsTargetEmpty(elves, d);
    UncontestedIsInjective(props);
    MovedCard(elves, Uncontested(props));
  }

  method CollectProposals(locations: seq<Pos>, d: Direction) returns (props: map<Pos, Pos>)
    ensures props == Proposals(ElvesOf(locations), d)
  {
    ghost var all := Proposals(ElvesOf(locations), d);
    props := map[];
    for i := 0 to |locations|
      invariant forall e :: e in props <==> e in locations[..i] && e in all
      invariant forall e :: e in props ==> props[e] == all[e]
    {
      assert locations[..i + 1] == locations[..i] + [locations[i]];
      var p := CheckDirection(locations[i], d, locations);
      assert p.Some? <==> locations[i] in all;
      if p.Some? {
        assert all[locations[i]] == p.value;
        props := props[locations[i] := p.value];
      }
    }
    assert locations[..|locations|] == locations;
    assert props.Keys == all.Keys;
  }

  method CountTarget(props: map<Pos, Pos>, t: Pos) returns (n: nat)
    ensures n == |Contested(props, t)|
  {
    n := 0;
    var rest := props.Keys;
    while rest != {}
      invariant rest <= props.Keys
      invariant n == |set k | k in props.Keys - rest && props[k] == t|
      decreases rest
    {
      var k :| k in rest;
      ghost var before := set j | j in props.Keys - rest && props[j] == t;
      ghost var after := set j | j in props.Keys - (rest - {k}) && props[j] == t;
      if props[k] == t {
        assert after == before + {k};
        n := n + 1;
      } else {
        assert after == before;
      }
      rest := rest - {k};
    }
    assert (set k | k in props.Keys - rest && props[k] == t) == Contested(props, t);
  }

  method RemoveDuplicates(props: map<Pos, Pos>) returns (r: map<Pos, Pos>)
    ensures r == Uncontested(props)
  {
    var duplicates: seq<Pos> := [];
    var rest := props.Keys;
    while rest != {}
      invariant rest <= props.Keys
      invariant forall k :: k in duplicates <==> k in props.Keys - rest && |Contested(props, props[k])| > 1
      decreases rest
    {
      var k :| k in rest;
      var count := CountTarget(props, props[k]);
      if count > 1 {
        duplicates := duplicates + [k];
      }
      rest := rest - {k};
    }
    r := props;
    for i := 0 to |duplicates|
      invariant r.Keys == props.Keys - set j | 0 <= j < i :: duplicates[j]
      invariant forall k :: k in r ==> r[k] == props[k]
    {
      r := r - {duplicates[i]};
    }
    forall k | k in props
      ensures k in r <==> |Contested(props, props[k])| == 1
    {
      assert props[k] in props.Values;
      assert k in Contested(props, props[k]);
      if k !in r {
        var j :| 0 <= j < |duplicates| && duplicates[j] == k;
      }
    }
  }

  /** `s` with every occurrence of `x` removed (`Vec::retain`). */
  function Retain(s: seq<Pos>, x: Pos): (r: seq<Pos>)
    ensures ElvesOf(r) == ElvesOf(s) - {x}
    ensures Seqs.Distinct(s) ==> Seqs.Distinct(r) && |r| == (if x in s then |s| - 1 else |s|)
  {
    if s == [] then []
    else
      var rest := Retain(s[1..], x);
      assert ElvesOf(s) == {s[0]} + ElvesOf(s[1..]);
      if s[0] == x then rest
      else
        assert ElvesOf([s[0]] + rest) == {s[0]} + ElvesOf(rest);
        assert s[0] !in s[1..] ==> s[0] !in rest;
        [s[0]] + rest
  }


  /** The targets of the moves whose elves are in `ks`. */
  function Targets(moves: map<Pos, Pos>, ks: set<Pos>): set<Pos>
    requires ks <= moves.Keys
  {
    set k | k in ks :: moves[k]
  }

  method ApplyMoves(locations: seq<Pos>, moves: map<Pos, Pos>) returns (r: seq<Pos>)
    requires Seqs.Distinct(locations) && moves.Keys <= ElvesOf(locations) && Injective(moves)
    requires forall k :: k in moves ==> moves[k] !in ElvesOf(locations)
    ensures Seqs.Distinct(r) && |r| == |locations|
    ensures ElvesOf(r) == Moved(ElvesOf(locations), moves)
  {
    ghost var elves := ElvesOf(locations);
    r := locations;
    var rest := moves.Keys;
    while rest != {}
      invariant rest <= moves.Keys
      invariant Seqs.Distinct(r) && |r| == |locations|
      invariant ElvesOf(r) == (elves - (moves.Keys - rest)) + Targets(moves, moves.Keys - rest)
      decreases rest
    {
      var k :| k in rest;
      ghost var done := moves.Keys - rest;
      assert k !in Targets(moves, done);
      assert k in ElvesOf(r);
      var t := moves[k];
      assert t !in Targets(moves, done);
      var kept := Retain(r, k);
      assert t !in ElvesOf(kept);
      r := kept + [t];
      assert ElvesOf(r) == ElvesOf(kept) + {t};
      assert moves.Keys - (rest - {k}) == done + {k};
      assert Targets(moves, done + {k}) == Targets(moves, done) + {t};
      rest := rest - {k};
    }
    assert Targets(moves, moves.Keys) == moves.Values;
  }

  /** One round; `proposed` is false when no elf had a proposal (part two's stop signal). */
  method Round(locations: seq<Pos>, d: Direction) returns (next: seq<Pos>, proposed: bool)
    requires Seqs.Distinct(locations)
    ensures Seqs.Distinct(next) && |next| == |locations|
    ensures ElvesOf(next) == NextElves(ElvesOf(locations), d)
    ensures proposed <==> |Proposals(ElvesOf(locations), d)| > 0
  {
    var props := CollectProposals(locations, d);
    proposed := props != map[];
    var moves := RemoveDuplicates(props);
    ProposalsTargetEmpty(ElvesOf(locations), d);
    UncontestedIsInjective(props);
    next := ApplyMoves(locations, moves);
  }

  // ---------------------------------------------------------------------
  // Bounding box (get_boundaries, get_size).

  const I32Max: int := 0x7fff_ffff
  const I32Min: int := -0x8000_0000

  /** `lo` and `hi` are the corners of the smallest box holding every elf of `s`. */
  ghost predicate Tight(s: set<Pos>, lo: Pos, hi: Pos)
  {
    (forall p :: p in s ==> lo.x <= p.x <= hi.x && lo.y <= p.y <= hi.y)
    && lo.x in Xs(s) && lo.y in Ys(s) && hi.x in Xs(s) && hi.y in Ys(s)
  }

  function Xs(s: set<Pos>): set<int>
  {
    set p | p in s :: p.x
  }

  function Ys(s: set<Pos>): set<int>
  {
    set p | p in s :: p.y
  }

  /** get_boundaries: the componentwise minimum and maximum, starting from the i32 extremes.
    * The first elf replaces both extremes outright, which is what the minimum and maximum
    * against i32::MAX and i32::MIN give for i32 coordinates. */
  method GetBoundaries(locations: seq<Pos>) returns (lo: Pos, hi: Pos)
    ensures locations != [] ==> Tight(ElvesOf(locations), lo, hi)
    ensures locations == [] ==> lo == Pos(I32Max, I32Max) && hi == Pos(I32Min, I32Min)
  {
    ghost var elves := ElvesOf(locations);
    lo, hi := Pos(I32Max, I32Max), Pos(I32Min, I32Min);
    for i := 0 to |locations|
      invariant forall j :: 0 <= j < i ==> lo.x <= locations[j].x <= hi.x && lo.y <= locations[j].y <= hi.y
      invariant i == 0 ==> lo == Pos(I32Max, I32Max) && hi == Pos(I32Min, I32Min)
      invariant i > 0 ==> lo.x in Xs(elves) && lo.y in Ys(elves) && hi.x in Xs(elves) && hi.y in Ys(elves)
    {
      var p := locations[i];
      assert p in elves;
      assert p.x in Xs(elves) && p.y in Ys(elves);
      if i == 0 {
        lo, hi := p, p;
      } else {
        if p.x < lo.x { lo := lo.(x := p.x); }
        if p.y < lo.y { lo := lo.(y := p.y); }
        if p.x > hi.x { hi := hi.(x := p.x); }
        if p.y > hi.y { hi := hi.(y := p.y); }
      }
    }
    forall p | p in elves
      ensures lo.x <= p.x <= hi.x && lo.y <= p.y <= hi.y
    {
      var j :| 0 <= j < |locations| && locations[j] == p;
    }
  }

  /** get_size: the box's width and height, both inclusive. */
  function Size(lo: Pos, hi: Pos): (int, int)
  {
    (hi.x - lo.x + 1, hi.y - lo.y + 1)
  }

  /** The cells of the box from lo to hi. */
  ghost function Box(lo: Pos, hi: Pos): set<Pos>
  {
    set x, y | lo.x <= x <= hi.x && lo.y <= y <= hi.y :: Pos(x, y)
  }

  ghost function Row(x0: int, x1: int, y: int): set<Pos>
  {
    set x | x0 <= x <= x1 :: Pos(x, y)
  }

  lemma {:induction false} RowCard(x0: int, x1: int, y: int)
    requires x0 <= x1 + 1
    ensures |Row(x0, x1, y)| == x1 - x0 + 1
    decreases x1 - x0
  {
    if x0 <= x1 {
      RowCard(x0, x1 - 1, y);
      assert Row(x0, x1, y) == Row(x0, x1 - 1, y) + {Pos(x1, y)};
    } else {
      assert Row(x0, x1, y) == {};
    }
  }

  /** The box holds width · height cells. */
  lemma {:induction false} BoxCard(lo: Pos, hi: Pos)
    requires lo.x <= hi.x + 1 && lo.y <= hi.y + 1
    ensures |Box(lo, hi)| == (hi.x - lo.x + 1) * (hi.y - lo.y + 1)
    decreases hi.y - lo.y
  {
    if lo.y <= hi.y {
      var below := hi.(y := hi.y - 1);
      BoxCard(lo, below);
      RowCard(lo.x, hi.x, hi.y);
      BoxTopRow(lo, hi);
      var w, h := hi.x - lo.x + 1, hi.y - lo.y + 1;
      assert |Box(lo, hi)| == |Box(lo, below)| + w;
      assert below.y - lo.y + 1 == h - 1;
      MulPred(w, h);
    } else {
      assert Box(lo, hi) == {};
    }
  }

  lemma MulPred(w: int, h: int)
    ensures w * h == w * (h - 1) + w
  {
  }

  /** A box is the box one row lower plus its top row, which is disjoint from it. */
  lemma BoxTopRow(lo: Pos, hi: Pos)
    requires lo.y <= hi.y
    ensures Box(lo, hi) == Box(lo, hi.(y := hi.y - 1)) + Row(lo.x, hi.x, hi.y)
    ensures Box(lo, hi.(y := hi.y - 1)) * Row(lo.x, hi.x, hi.y) == {}
  {
    var below := hi.(y := hi.y - 1);
    forall p | p in Box(lo, hi)
      ensures p in Box(lo, below) + Row(lo.x, hi.x, hi.y)
    {
      if p.y < hi.y {
        assert p in Box(lo, below);
      }
    }
  }

  /** part_one's answer, area minus elf count, is the number of empty cells of the box
    * around distinct elves (so the u32 subtraction cannot underflow). */
  lemma EmptyCells(locations: seq<Pos>, lo: Pos, hi: Pos)
    requires Seqs.Distinct(locations) && locations != []
    requires forall p :: p in locations ==> lo.x <= p.x <= hi.x && lo.y <= p.y <= hi.y
    ensures Size(lo, hi).0 >= 1 && Size(lo, hi).1 >= 1
    ensures Size(lo, hi).0 * Size(lo, hi).1 - |locations| == |Box(lo, hi) - ElvesOf(locations)|
  {
    assert locations[0] in locations;
    BoxCard(lo, hi);
    DistinctCard(locations);
    assert ElvesOf(locations) <= Box(lo, hi) by {
      forall p | p in ElvesOf(locations)
        ensures p in Box(lo, hi)
      {
        assert p == Pos(p.x, p.y);
      }
    }
    assert |Box(lo, hi) - ElvesOf(locations)| + |ElvesOf(locations)| == |Box(lo, hi)| by {
      assert Box(lo, hi) == (Box(lo, hi) - ElvesOf(locations)) + ElvesOf(locations);
    }
  }

  lemma {:induction false} DistinctCard(s: seq<Pos>)
    requires Seqs.Distinct(s)
    ensures |ElvesOf(s)| == |s|
  {
    if s != [] {
      DistinctCard(s[1..]);
      assert ElvesOf(s) == {s[0]} + ElvesOf(s[1..]);
      assert s[0] !in ElvesOf(s[1..]);
    } else {
      assert ElvesOf(s) == {};
    }
  }

  // ---------------------------------------------------------------------
  // Parsing and the two parts.

  /** The '#' cells of the input, x counting columns and y counting lines. */
  ghost function Grid(lines: seq<string>): set<Pos>
  {
    set y, x | 0 <= y < |lines| && 0 <= x < |lines[y]| && lines[y][x] == '#' :: Pos(x, y)
  }

  /** parse: the '#' cells, in reading order. */
  method Parse(lines: seq<string>) returns (elves: seq<Pos>)
    ensures Seqs.Distinct(elves) && ElvesOf(elves) == Grid(lines)
  {
    elves := [];
    for y := 0 to |lines|
      invariant Seqs.Distinct(elves)
      invariant forall p :: p in elves ==> p.y < y
      invariant forall p :: p in elves <==> 0 <= p.y < y && 0 <= p.x < |lines[p.y]| && lines[p.y][p.x] == '#'
    {
      for x := 0 to |lines[y]|
        invariant Seqs.Distinct(elves)
        invariant forall p :: p in elves ==> p.y < y || (p.y == y && p.x < x)
        invariant forall p :: p in elves <==>
                    (0 <= p.y < y && 0 <= p.x < |lines[p.y]| && lines[p.y][p.x] == '#')
                    || (p.y == y && 0 <= p.x < x && lines[y][p.x] == '#')
      {
        if lines[y][x] == '#' {
          elves := elves + [Pos(x, y)];
        }
      }
    }
    forall p | p in Grid(lines)
      ensures p in ElvesOf(elves)
    {
      var y, x :| 0 <= y < |lines| && 0 <= x < |lines[y]| && lines[y][x] == '#' && p == Pos(x, y);
    }
  }

  /** The elves after n rounds, the first round facing `d`. */
  function Simulate(elves: set<Pos>, d: Direction, n: nat): set<Pos>
    decreases n
  {
    if n == 0 then elves else Simulate(NextElves(elves, d), NextDirection(d), n - 1)
  }

  /** Round n + 1 starts from the elves after n rounds, facing `d` turned n times. */
  lemma {:induction false} SimulateSucc(elves: set<Pos>, d: Direction, n: nat)
    ensures Simulate(elves, d, n + 1) == NextElves(Simulate(elves, d, n), Turn(d, n))
    decreases n
  {
    if n > 0 {
      SimulateSucc(NextElves(elves, d), NextDirection(d), n - 1);
      TurnShift(d, n);
    }
  }

  lemma {:induction false} TurnShift(d: Direction, n: nat)
    requires n > 0
    ensures Turn(NextDirection(d), n - 1) == Turn(d, n)
  {
    if n > 1 {
      TurnShift(d, n - 1);
    }
  }

  /** The first n rounds, starting with North. */
  method RunRounds(start: seq<Pos>, n: nat) returns (locations: seq<Pos>)
    requires Seqs.Distinct(start)
    ensures Seqs.Distinct(locations) && |locations| == |start|
    ensures ElvesOf(locations) == Simulate(ElvesOf(start), North, n)
  {
    ghost var elves := ElvesOf(start);
    locations := start;
    var d := North;
    for round := 0 to n
      invariant Seqs.Distinct(locations) && |locations| == |start|
      invariant d == Turn(North, round)
      invariant ElvesOf(locations) == Simulate(elves, North, round)
    {
      SimulateSucc(elves, North, round);
      var proposed;
      locations, proposed := Round(locations, d);
      d := NextDirection(d);
    }
  }

  /** part_one: the empty ground in the smallest box around the elves after ten rounds. */
  method PartOne(lines: seq<string>) returns (empty: int)
    ensures Grid(lines) != {} ==> exists lo: Pos, hi: Pos ::
      (Tight(Simulate(Grid(lines), North, 10), lo, hi)
       && empty == |Box(lo, hi) - Simulate(Grid(lines), North, 10)|)
  {
    var start := Parse(lines);
    var locations := RunRounds(start, 10);
    var lo, hi := GetBoundaries(locations);
    var size := Size(lo, hi);
    empty := size.0 * size.1 - |locations|;
    if start != [] {
      assert locations != [];
      EmptyCells(locations, lo, hi);
      assert Tight(ElvesOf(locations), lo, hi);
    }
  }

  /** The number of elves that propose a move in round n of part two, rounds numbered
    * from 1 as the source counts them. */
  ghost function Proposing(elves: set<Pos>, n: nat): nat
    requires n >= 1
  {
    |Proposals(Simulate(elves, North, n - 1), Turn(North, n - 1))|
  }

  /** The rounds of part two: the number of the first round in which no elf proposes.
    * The source has no bound; the model gives up after `limit` rounds. */
  method RoundsUntilQuiet(start: seq<Pos>, limit: nat) returns (r: Option<nat>)
    requires Seqs.Distinct(start)
    ensures r.Some? ==> (1 <= r.value <= limit && Proposing(ElvesOf(start), r.value) == 0
                         && forall n :: 1 <= n < r.value ==> Proposing(ElvesOf(start), n) > 0)
    ensures r.None? ==> forall n :: 1 <= n <= limit ==> Proposing(ElvesOf(start), n) > 0
  {
    ghost var elves := ElvesOf(start);
    var locations := start;
    var d := North;
    var round := 0;
    while round < limit
      invariant 0 <= round <= limit && Seqs.Distinct(locations)
      invariant d == Turn(North, round)
      invariant ElvesOf(locations) == Simulate(elves, North, round)
      invariant forall n :: 1 <= n <= round ==> Proposing(elves, n) > 0
      decreases limit - round
    {
      SimulateSucc(elves, North, round);
      ghost var now := Simulate(elves, North, round);
      ghost var facing := d;
      var proposed;
      locations, proposed := Round(locations, d);
      d := NextDirection(d);
      round := round + 1;
      assert Proposing(elves, round) == |Proposals(now, facing)|;
      if !proposed {
        return Some(round);
      }
      forall n | 1 <= n <= round
        ensures Proposing(elves, n) > 0
      {
        if n == round {
          assert Proposing(elves, n) == |Proposals(now, facing)|;
        }
      }
    }
    return None;
  }

  /** part_two. */
  method PartTwo(lines: seq<string>, limit: nat) returns (r: Option<nat>)
    ensures r.Some? ==> (1 <= r.value <= limit && Proposing(Grid(lines), r.value) == 0
                         && forall n :: 1 <= n < r.value ==> Proposing(Grid(lines), n) > 0)
    ensures r.None? ==> forall n :: 1 <= n <= limit ==> Proposing(Grid(lines), n) > 0
  {
    var start := Parse(lines);
    r := RoundsUntilQuiet(start, limit);
  }
}
