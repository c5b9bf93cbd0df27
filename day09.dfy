/** Day 9: a rope of knots whose head follows move instructions and whose other knots each
  * follow the knot before them; the answer is the number of places the tail has been. */
module Day09 {
  import opened Wrappers
  import opened Text
  import Seqs

  type Pos = (int, int)

  datatype Instruction = Up(spaces: int) | Down(spaces: int) | Left(spaces: int) | Right(spaces: int)

  function Abs(a: int): nat
  {
    if a < 0 then -a else a
  }

  /** How many king moves separate `p` from `q`. */
  function Dist(p: Pos, q: Pos): nat
  {
    var dx := Abs(p.0 - q.0);
    var dy := Abs(p.1 - q.1);
    if dx < dy then dy else dx
  }

  /** The source's adjacency: at most one apart on each axis, diagonals and overlap included. */
  predicate Adjacent(p: Pos, q: Pos)
  {
    Abs(p.0 - q.0) <= 1 && Abs(p.1 - q.1) <= 1
  }

  /** One pass of move_relative's loop: one unit toward `t` on each axis where they differ. */
  function Toward(p: Pos, t: Pos): (q: Pos)
    ensures Abs(q.0 - p.0) <= 1 && Abs(q.1 - p.1) <= 1
    ensures p.0 == t.0 ==> q.0 == p.0
    ensures p.0 != t.0 ==> Abs(q.0 - t.0) == Abs(p.0 - t.0) - 1
    ensures p.1 == t.1 ==> q.1 == p.1
    ensures p.1 != t.1 ==> Abs(q.1 - t.1) == Abs(p.1 - t.1) - 1
    ensures !Adjacent(p, t) ==> Dist(q, t) == Dist(p, t) - 1
  {
    var x := if p.0 == t.0 then p.0 else if p.0 < t.0 then p.0 + 1 else p.0 - 1;
    var y := if p.1 == t.1 then p.1 else if p.1 < t.1 then p.1 + 1 else p.1 - 1;
    (x, y)
  }

  /** The positions move_relative appends to the history, starting from `p`: one per move,
    * then the final position once more. */
  function Trail(p: Pos, t: Pos): (r: seq<Pos>)
    ensures |r| >= 1
    decreases Dist(p, t)
  {
    if Adjacent(p, t) then [p] else [Toward(p, t)] + Trail(Toward(p, t), t)
  }

  /** The trail ends next to `t`; it is one entry long when the knot stays put, and otherwise
    * has one entry per move plus the repeated final position. */
  lemma {:induction false} TrailSpec(p: Pos, t: Pos)
    ensures var r := Trail(p, t);
      |r| >= 1 && Adjacent(r[|r| - 1], t) &&
      |r| == (if Adjacent(p, t) then 1 else Dist(p, t)) &&
      (!Adjacent(p, t) ==> r[|r| - 2] == r[|r| - 1])
    decreases Dist(p, t)
  {
    if !Adjacent(p, t) {
      var q := Toward(p, t);
      TrailSpec(q, t);
      var rest := Trail(q, t);
      assert Trail(p, t) == [q] + rest;
    }
  }

  /** Consecutive entries are at most one unit apart on each axis. */
  predicate UnitSteps(r: seq<Pos>)
  {
    forall i :: 0 < i < |r| ==> Abs(r[i].0 - r[i - 1].0) <= 1 && Abs(r[i].1 - r[i - 1].1) <= 1
  }

  lemma UnitStepsCons(p: Pos, r: seq<Pos>)
    requires |r| >= 1 && UnitSteps(r) && Abs(r[0].0 - p.0) <= 1 && Abs(r[0].1 - p.1) <= 1
    ensures UnitSteps([p] + r)
  {
    var s := [p] + r;
    forall i | 1 < i < |s|
      ensures Abs(s[i].0 - s[i - 1].0) <= 1 && Abs(s[i].1 - s[i - 1].1) <= 1
    {
      assert s[i] == r[i - 1] && s[i - 1] == r[i - 2];
    }
  }

  /** Starting from `p`, each entry of the trail is at most one unit from the one before. */
  lemma {:induction false} TrailSteps(p: Pos, t: Pos)
    ensures UnitSteps([p] + Trail(p, t))
    decreases Dist(p, t)
  {
    if !Adjacent(p, t) {
      var q := Toward(p, t);
      TrailSteps(q, t);
      assert Trail(p, t) == [q] + Trail(q, t);
      UnitStepsCons(p, Trail(p, t));
    }
  }

  /** One move off the front of the trail onto the history keeps their concatenation and the
    * trail's end. */
  lemma TrailStep(h: seq<Pos>, p: Pos, t: Pos)
    requires !Adjacent(p, t)
    ensures h + Trail(p, t) == (h + [Toward(p, t)]) + Trail(Toward(p, t), t)
    ensures Last(Trail(p, t)) == Last(Trail(Toward(p, t), t))
  {
    var q := Toward(p, t);
    assert Trail(p, t) == [q] + Trail(q, t);
  }

  function Last<T>(s: seq<T>): T
    requires |s| >= 1
  {
    s[|s| - 1]
  }

  /** A knot's position and the places it has been recorded at. */
  datatype KnotState = KnotState(at: Pos, history: seq<Pos>)

  /** move_relative on values: the knot ends at the trail's last entry, appended to its history. */
  function MoveRel(k: KnotState, t: Pos): (r: KnotState)
  {
    var trail := Trail(k.at, t);
    KnotState(Last(trail), k.history + trail)
  }

  /** After move_relative the knot is next to the one it follows, its old history is kept, and
    * its position is the last entry of its history. */
  lemma MoveRelSpec(k: KnotState, t: Pos)
    ensures var r := MoveRel(k, t);
      Adjacent(r.at, t) && |r.history| > |k.history| && r.history[..|k.history|] == k.history &&
      r.at == Last(r.history)
  {
    TrailSpec(k.at, t);
    var r := MoveRel(k, t);
    assert r.history[..|k.history|] == k.history;
  }

  /** A new knot: at the origin, with the origin in its history. */
  const Fresh: KnotState := KnotState((0, 0), [(0, 0)])

  /** follow_up up to index `k`: knots 1..k-1 have each moved after their already-moved
    * predecessor. */
  function FollowUpTo(ks: seq<KnotState>, k: nat): (r: seq<KnotState>)
    requires 1 <= k <= |ks|
    ensures |r| == |ks|
  {
    if k == 1 then ks
    else
      var s := FollowUpTo(ks, k - 1);
      s[k - 1 := MoveRel(s[k - 1], s[k - 2].at)]
  }

  function FollowUp(ks: seq<KnotState>): (r: seq<KnotState>)
    requires |ks| >= 1
  {
    FollowUpTo(ks, |ks|)
  }

  /** follow_up keeps the head, moves knots in order, each after the already-moved knot before
    * it, and leaves every knot next to its predecessor. */
  lemma {:induction false} FollowUpToSpec(ks: seq<KnotState>, k: nat)
    requires 1 <= k <= |ks|
    ensures var r := FollowUpTo(ks, k);
      r[0] == ks[0] &&
      (forall j :: k <= j < |ks| ==> r[j] == ks[j]) &&
      (forall j :: 1 <= j < k ==> r[j] == MoveRel(ks[j], r[j - 1].at) && Adjacent(r[j].at, r[j - 1].at))
  {
    if k > 1 {
      FollowUpToSpec(ks, k - 1);
      var s := FollowUpTo(ks, k - 1);
      MoveRelSpec(s[k - 1], s[k - 2].at);
    }
  }

  /** The head moves one unit by `d`, then follow_up. */
  function Pull(ks: seq<KnotState>, d: Pos): (r: seq<KnotState>)
    requires |ks| >= 1
    ensures |r| == |ks|
  {
    FollowUp(ks[0 := KnotState((ks[0].at.0 + d.0, ks[0].at.1 + d.1), ks[0].history)])
  }

  function Pulls(ks: seq<KnotState>, d: Pos, n: nat): (r: seq<KnotState>)
    requires |ks| >= 1
    ensures |r| == |ks|
  {
    if n == 0 then ks else Pull(Pulls(ks, d, n - 1), d)
  }

  /** The unit move of each direction; Up adds one to y. */
  function Delta(i: Instruction): Pos
  {
    match i
    case Up(_) => (0, 1)
    case Down(_) => (0, -1)
    case Left(_) => (-1, 0)
    case Right(_) => (1, 0)
  }

  /** An empty range `0..spaces` for a negative distance moves nothing. */
  function Count(i: Instruction): nat
  {
    if i.spaces > 0 then i.spaces else 0
  }

  /** movement: `spaces` head moves, each followed by follow_up. */
  function Move(ks: seq<KnotState>, i: Instruction): (r: seq<KnotState>)
    requires |ks| >= 1
    ensures |r| == |ks|
  {
    Pulls(ks, Delta(i), Count(i))
  }

  /** `n` pulls move the head `n` units along `d` and keep its history. */
  lemma {:induction false} PullsHead(ks: seq<KnotState>, d: Pos, n: nat)
    requires |ks| >= 1
    ensures Pulls(ks, d, n)[0] == KnotState((ks[0].at.0 + n * d.0, ks[0].at.1 + n * d.1), ks[0].history)
  {
    if n > 0 {
      PullsHead(ks, d, n - 1);
      var s := Pulls(ks, d, n - 1);
      var moved := s[0 := KnotState((s[0].at.0 + d.0, s[0].at.1 + d.1), s[0].history)];
      FollowUpToSpec(moved, |moved|);
      assert (n - 1) * d.0 + d.0 == n * d.0 && (n - 1) * d.1 + d.1 == n * d.1;
    }
  }

  /** After a pull every knot behind the head is next to its predecessor. */
  lemma PullTaut(ks: seq<KnotState>, d: Pos)
    requires |ks| >= 1
    ensures var r := Pull(ks, d);
      forall j :: 1 <= j < |ks| ==> Adjacent(r[j].at, r[j - 1].at)
  {
    var moved := ks[0 := KnotState((ks[0].at.0 + d.0, ks[0].at.1 + d.1), ks[0].history)];
    FollowUpToSpec(moved, |moved|);
  }

  /** Every knot after the head stands on the last place of its history, and every history
    * has the origin first. */
  predicate Recorded(ks: seq<KnotState>)
  {
    (forall j :: 0 <= j < |ks| ==> |ks[j].history| >= 1 && ks[j].history[0] == (0, 0)) &&
    (forall j :: 1 <= j < |ks| ==> ks[j].at == Last(ks[j].history))
  }

  lemma {:induction false} FollowUpToRecorded(ks: seq<KnotState>, k: nat)
    requires 1 <= k <= |ks| && Recorded(ks)
    ensures Recorded(FollowUpTo(ks, k))
  {
    if k > 1 {
      FollowUpToRecorded(ks, k - 1);
      var s := FollowUpTo(ks, k - 1);
      MoveRelSpec(s[k - 1], s[k - 2].at);
    }
  }

  /** Moving keeps every history starting at the origin and every follower on its last entry. */
  lemma {:induction false} PullsRecorded(ks: seq<KnotState>, d: Pos, n: nat)
    requires |ks| >= 1 && Recorded(ks)
    ensures Recorded(Pulls(ks, d, n))
  {
    if n > 0 {
      PullsRecorded(ks, d, n - 1);
      var s := Pulls(ks, d, n - 1);
      var moved := s[0 := KnotState((s[0].at.0 + d.0, s[0].at.1 + d.1), s[0].history)];
      assert Recorded(moved);
      FollowUpToRecorded(moved, |moved|);
    }
  }

  /** The instructions one after another. */
  function Run(ks: seq<KnotState>, instrs: seq<Instruction>): (r: seq<KnotState>)
    requires |ks| >= 1
    ensures |r| == |ks|
  {
    if instrs == [] then ks else Move(Run(ks, instrs[..|instrs| - 1]), instrs[|instrs| - 1])
  }

  lemma {:induction false} RunRecorded(ks: seq<KnotState>, instrs: seq<Instruction>)
    requires |ks| >= 1 && Recorded(ks)
    ensures Recorded(Run(ks, instrs))
  {
    if instrs != [] {
      RunRecorded(ks, instrs[..|instrs| - 1]);
      var i := instrs[|instrs| - 1];
      PullsRecorded(Run(ks, instrs[..|instrs| - 1]), Delta(i), Count(i));
    }
  }

  /** The places a history records, each once. */
  function Places(history: seq<Pos>): set<Pos>
  {
    set i | 0 <= i < |history| :: history[i]
  }

  /** The answer for a rope of `length` knots: the number of distinct places the tail has been. */
  function TailPlaces(instrs: seq<Instruction>, length: nat): nat
    requires length >= 1
  {
    |Places(Last(Run(seq(length, _ => Fresh), instrs)).history)|
  }

  /** The count is at least one, since the origin is always recorded. */
  lemma TailPlacesSpec(instrs: seq<Instruction>, length: nat)
    requires length >= 1
    ensures var tail := Last(Run(seq(length, _ => Fresh), instrs));
      (0, 0) in Places(tail.history) && (length > 1 ==> tail.at in Places(tail.history))
    ensures TailPlaces(instrs, length) >= 1
  {
    var ks := seq(length, _ => Fresh);
    RunRecorded(ks, instrs);
    var tail := Last(Run(ks, instrs));
    assert tail.history[0] in Places(tail.history);
    if length > 1 {
      assert tail.history[|tail.history| - 1] in Places(tail.history);
    }
  }

  // ---------------------------------------------------------------------
  // The knots as objects.

  class Knot {
    var x: int
    var y: int
    var history: seq<Pos>

    constructor ()
      ensures State() == Fresh
    {
      x, y := 0, 0;
      history := [(0, 0)];
    }

    function State(): KnotState
      reads this
    {
      KnotState((x, y), history)
    }

    /** is_adjacent: at most one king move apart. */
    function IsAdjacent(other: Knot): (r: bool)
      reads this, other
      ensures r <==> Dist((x, y), (other.x, other.y)) <= 1
    {
      var dx := Abs(x - other.x);
      var dy := Abs(y - other.y);
      dx <= 1 && dy <= 1
    }

    /** move_relative: step toward `other` until adjacent, recording every position, and the
      * final one once more. */
    method MoveRelative(other: Knot)
      requires other != this
      modifies this
      ensures State() == MoveRel(old(State()), (other.x, other.y))
    {
      ghost var start := (x, y);
      ghost var t := (other.x, other.y);
      ghost var h0 := history;
      while !IsAdjacent(other)
        invariant h0 + Trail(start, t) == history + Trail((x, y), t)
        invariant Last(Trail(start, t)) == Last(Trail((x, y), t))
        decreases Dist((x, y), t)
      {
        ghost var before := (x, y);
        if x != other.x {
          if x < other.x {
            x := x + 1;
          } else {
            x := x - 1;
          }
        }
        if y != other.y {
          if y < other.y {
            y := y + 1;
          } else {
            y := y - 1;
          }
        }
        assert (x, y) == Toward(before, t);
        TrailStep(history, before, t);
        history := history + [(x, y)];
      }
      history := history + [(x, y)];
    }
  }


  class Rope {
    const knots: seq<Knot>

    /** Rope::new: `length` separate knots, each at the origin. */
    constructor (length: nat)
      ensures |knots| == length && Seqs.Distinct(knots) && fresh(set k | k in knots)
      ensures State() == seq(length, _ => Fresh)
    {
      var ks: seq<Knot> := [];
      for i := 0 to length
        invariant |ks| == i && Seqs.Distinct(ks) && fresh(set k | k in ks)
        invariant forall j :: 0 <= j < i ==> ks[j].State() == Fresh
      {
        var k := new Knot();
        ks := ks + [k];
      }
      knots := ks;
      new;
      assert State() == seq(length, _ => Fresh);
    }

    function State(): (r: seq<KnotState>)
      reads this, set k | k in knots
      ensures |r| == |knots| && forall j :: 0 <= j < |knots| ==> r[j] == knots[j].State()
    {
      seq(|knots|, j reads this, set k | k in knots requires 0 <= j < |knots| => knots[j].State())
    }

    /** Knot i moves after knot i - 1. */
    method FollowKnot(i: nat)
      requires Seqs.Distinct(knots) && 1 <= i < |knots|
      modifies knots[i]
      ensures State() == old(State())[i := MoveRel(old(State())[i], old(State())[i - 1].at)]
    {
      knots[i].MoveRelative(knots[i - 1]);
      forall j | 0 <= j < |knots| && j != i
        ensures knots[j] != knots[i]
      {
      }
    }

    /** follow_up: knots 1.. in order, each after its predecessor. */
    method FollowUpKnots()
      requires Seqs.Distinct(knots) && |knots| >= 1
      modifies set k | k in knots
      ensures State() == FollowUp(old(State()))
    {
      ghost var s0 := State();
      for i := 1 to |knots|
        invariant State() == FollowUpTo(s0, i)
      {
        FollowKnot(i);
      }
    }

    /** One head move by `d` and the knots after it. */
    method PullHead(d: Pos)
      requires Seqs.Distinct(knots) && |knots| >= 1
      modifies set k | k in knots
      ensures State() == Pull(old(State()), d)
    {
      ghost var s0 := State();
      var head := knots[0];
      head.x, head.y := head.x + d.0, head.y + d.1;
      forall j | 0 < j < |knots|
        ensures knots[j] != head
      {
      }
      assert State() == s0[0 := KnotState((s0[0].at.0 + d.0, s0[0].at.1 + d.1), s0[0].history)];
      FollowUpKnots();
    }

    method Repeat(d: Pos, n: nat)
      requires Seqs.Distinct(knots) && |knots| >= 1
      modifies set k | k in knots
      ensures State() == Pulls(old(State()), d, n)
    {
      ghost var s0 := State();
      for step := 0 to n
        invariant State() == Pulls(s0, d, step)
      {
        PullHead(d);
      }
    }

    /** movement: the instruction's distance as head moves in its direction. */
    method Movement(instr: Instruction)
      requires Seqs.Distinct(knots) && |knots| >= 1
      modifies set k | k in knots
      ensures State() == Move(old(State()), instr)
    {
      match instr {
        case Up(spaces) => Repeat((0, 1), if spaces > 0 then spaces else 0);
        case Down(spaces) => Repeat((0, -1), if spaces > 0 then spaces else 0);
        case Left(spaces) => Repeat((-1, 0), if spaces > 0 then spaces else 0);
        case Right(spaces) => Repeat((1, 0), if spaces > 0 then spaces else 0);
      }
    }
  }

  // ---------------------------------------------------------------------
  // Parsing.

  /** One line: a direction letter, a space, and an `i32` distance; None where the source panics
    * (a missing or unparsable distance, an unknown direction). Further pieces are ignored. */
  function ParseLine(line: string): (r: Option<Instruction>)
  {
    var parts := Split(line, ' ');
    if |parts| < 2 then None
    else
      var distance := ParseSigned(parts[1], I32Min, I32Max);
      if distance.None? then None
      else Direction(parts[0], distance.value)
  }

  /** The match on the direction letter; any other piece is the panic. */
  function Direction(letter: string, spaces: int): Option<Instruction>
  {
    if letter == "R" then Some(Right(spaces))
    else if letter == "L" then Some(Left(spaces))
    else if letter == "U" then Some(Up(spaces))
    else if letter == "D" then Some(Down(spaces))
    else None
  }

  function Letter(i: Instruction): string
  {
    match i
    case Up(_) => "U"
    case Down(_) => "D"
    case Left(_) => "L"
    case Right(_) => "R"
  }

  /** Writing an instruction as "<letter> <distance>" and parsing it back gives it back. */
  lemma ParseLineRender(i: Instruction)
    requires I32Min <= i.spaces <= I32Max
    ensures ParseLine(Letter(i) + [' '] + SignedDecimal(i.spaces)) == Some(i)
  {
    var d := SignedDecimal(i.spaces);
    SignedDecimalRoundTrip(i.spaces);
    assert Letter(i) + [' '] + d == Join([Letter(i), d], ' ');
    SplitJoin([Letter(i), d], ' ');
    DirectionLetter(i);
  }

  /** Each instruction's letter is matched back to its direction. */
  lemma DirectionLetter(i: Instruction)
    ensures Direction(Letter(i), i.spaces) == Some(i)
  {
    match i {
      case Right(_) =>
      case Left(_) => assert Letter(i)[0] != "R"[0];
      case Up(_) => assert Letter(i)[0] != "R"[0] && Letter(i)[0] != "L"[0];
      case Down(_) => assert Letter(i)[0] != "R"[0] && Letter(i)[0] != "L"[0] && Letter(i)[0] != "U"[0];
    }
  }

  /** The instructions of all lines, or None when one line panics. */
  function ParseInput(lines: seq<string>): (r: Option<seq<Instruction>>)
    ensures r.Some? <==> forall k :: 0 <= k < |lines| ==> ParseLine(lines[k]).Some?
    ensures r.Some? ==> |r.value| == |lines|
    ensures r.Some? ==> forall k :: 0 <= k < |lines| ==> ParseLine(lines[k]) == Some(r.value[k])
  {
    if lines == [] then Some([])
    else
      var first := ParseLine(lines[0]);
      var rest := ParseInput(lines[1..]);
      if first.None? || rest.None? then None
      else Some([first.value] + rest.value)
  }

  // ---------------------------------------------------------------------
  // The answers.

  /** The loop over the instructions on a rope of `length` knots, then the tail's distinct places. */
  method Simulate(instrs: seq<Instruction>, length: nat) returns (count: nat)
    requires length >= 1
    ensures count == TailPlaces(instrs, length)
  {
    var rope := new Rope(length);
    ghost var s0 := rope.State();
    for i := 0 to |instrs|
      invariant rope.State() == Run(s0, instrs[..i])
    {
      rope.Movement(instrs[i]);
      assert instrs[..i + 1][..i] == instrs[..i];
    }
    assert instrs[..|instrs|] == instrs;
    var tail := rope.knots[|rope.knots| - 1];
    count := |Places(tail.history)|;
  }

  /** part_one: a rope of two knots. */
  method PartOne(lines: seq<string>) returns (r: Option<nat>)
    ensures r.Some? <==> ParseInput(lines).Some?
    ensures r.Some? ==> r.value == TailPlaces(ParseInput(lines).value, 2) && r.value >= 1
  {
    var instrs := ParseInput(lines);
    if instrs.None? {
      return None;
    }
    var count := Simulate(instrs.value, 2);
    TailPlacesSpec(instrs.value, 2);
    return Some(count);
  }

  /** part_two: a rope of ten knots. */
  method PartTwo(lines: seq<string>) returns (r: Option<nat>)
    ensures r.Some? <==> ParseInput(lines).Some?
    ensures r.Some? ==> r.value == TailPlaces(ParseInput(lines).value, 10) && r.value >= 1
  {
    var instrs := ParseInput(lines);
    if instrs.None? {
      return None;
    }
    var count := Simulate(instrs.value, 10);
    TailPlacesSpec(instrs.value, 10);
    return Some(count);
  }
}
