/** Day 5: stacks of crates drawn as text, moved by two different cranes; the answer is the
  * top crate of every stack. */
module Day05 {
  import opened Wrappers
  import opened Text
  import opened Seqs

  // ---------------------------------------------------------------------
  // The drawing of the stacks.

  predicate IsUpper(c: char)
  {
    'A' <= c <= 'Z'
  }

  /** The number of stacks: the label line is `4 * n - 1` characters wide. */
  function Width(block: seq<string>): nat
    requires |block| >= 1
  {
    (|block[|block| - 1]| + 1) / 4
  }

  /** The crate drawn for stack `k` in one row: the character at `1 + 4 * k`, if it is a letter. */
  function Cell(row: string, k: nat): seq<char>
  {
    if 1 + 4 * k < |row| && IsUpper(row[1 + 4 * k]) then [row[1 + 4 * k]] else []
  }

  /** Stack `k` as drawn in `rows`, top first. */
  function Column(rows: seq<string>, k: nat): seq<char>
  {
    if rows == [] then [] else Cell(rows[0], k) + Column(rows[1..], k)
  }

  /** A label position holds a space or the letter of an existing stack. */
  predicate LabelOk(row: string, k: nat, n: nat)
    requires 1 + 4 * k < |row|
  {
    row[1 + 4 * k] == ' ' || (IsUpper(row[1 + 4 * k]) && k < n)
  }

  /** A crate row is not empty (the source slices off its first character) and every label position is fine. */
  predicate RowOk(row: string, n: nat)
  {
    |row| >= 1 && forall k: nat :: k < |row| && 1 + 4 * k < |row| ==> LabelOk(row, k, n)
  }

  /** The drawing parses: it has a label line, and every crate row above it is fine. */
  predicate BlockOk(block: seq<string>)
  {
    |block| >= 1 && forall i :: 0 <= i < |block| - 1 ==> RowOk(block[i], Width(block))
  }

  /** The stacks the drawing shows, each top first. */
  function Drawn(block: seq<string>): (r: seq<seq<char>>)
    requires |block| >= 1
    ensures |r| == Width(block)
  {
    seq(Width(block), k requires 0 <= k => Column(block[..|block| - 1], k))
  }

  datatype StackError = InvalidLabel(found: char) | Panic

  /** Row `row` shows `c` at the label position of stack `k`. */
  predicate Shows(row: string, k: nat, c: char)
  {
    1 + 4 * k < |row| && row[1 + 4 * k] == c
  }

  /** One crate row, scanned left to right: letters go on the front of their stack. */
  method PushRow(stacks: seq<seq<char>>, line: string) returns (r: Result<seq<seq<char>>, StackError>)
    requires |line| >= 1
    ensures r.Ok? <==> RowOk(line, |stacks|)
    ensures r.Ok? ==> |r.value| == |stacks|
    ensures r.Ok? ==> forall k :: 0 <= k < |stacks| ==> r.value[k] == Cell(line, k) + stacks[k]
    ensures r.Err? && r.error.InvalidLabel? ==>
      r.error.found != ' ' && !IsUpper(r.error.found) && exists k: nat :: Shows(line, k, r.error.found)
  {
    var out := stacks;
    var id: nat := 0;
    var pos: nat := 1;
    while pos < |line|
      invariant pos == 1 + 4 * id
      invariant |out| == |stacks|
      invariant forall k: nat :: 1 + 4 * k < |line| && k < id ==> LabelOk(line, k, |stacks|)
      invariant forall k :: 0 <= k < |stacks| ==> out[k] == (if k < id then Cell(line, k) else []) + stacks[k]
      decreases |line| - pos
    {
      var container := line[pos];
      if container == ' ' {
      } else if IsUpper(container) {
        if id >= |out| {
          assert !LabelOk(line, id, |stacks|);
          return Err(Panic);
        }
        out := out[id := [container] + out[id]];
      } else {
        assert !LabelOk(line, id, |stacks|);
        assert Shows(line, id, container);
        return Err(InvalidLabel(container));
      }
      id, pos := id + 1, pos + 4;
    }
    forall k | 0 <= k < |stacks| && k >= id
      ensures Cell(line, k) == []
    {
    }
    return Ok(out);
  }

  lemma ColumnFrom(rows: seq<string>, v: nat, k: nat)
    requires v < |rows|
    ensures Column(rows[v..], k) == Cell(rows[v], k) + Column(rows[v + 1..], k)
  {
    assert rows[v..][1..] == rows[v + 1..];
  }

  /** The crate rows of the drawing from `j` down have been pushed, bottom row first, onto the
    * stacks, and every one of them was fine. */
  predicate Stacked(block: seq<string>, j: nat, stacks: seq<seq<char>>)
  {
    |block| >= 1 && j <= |block| - 1 && |stacks| == Width(block) &&
    (forall k :: 0 <= k < |stacks| ==> stacks[k] == Column(block[..|block| - 1][j..], k)) &&
    (forall v :: j <= v < |block| - 1 ==> RowOk(block[v], Width(block)))
  }

  /** Once every crate row is pushed, the stacks are the drawn ones and the drawing parses. */
  lemma StackedAll(block: seq<string>, stacks: seq<seq<char>>)
    requires Stacked(block, 0, stacks)
    ensures BlockOk(block) && stacks == Drawn(block)
  {
    assert block[..|block| - 1][0..] == block[..|block| - 1];
  }

  /** One turn of the loop over the rows: push row `j - 1` onto the stacks of the rows below it. */
  method StackRow(block: seq<string>, j: nat, stacks: seq<seq<char>>) returns (r: Result<seq<seq<char>>, StackError>)
    requires 0 < j && Stacked(block, j, stacks)
    ensures r.Ok? ==> Stacked(block, j - 1, r.value)
    ensures r.Err? ==> !BlockOk(block)
    ensures r.Err? && r.error.InvalidLabel? ==>
      r.error.found != ' ' && !IsUpper(r.error.found) &&
      exists i: nat, k: nat :: i < |block| - 1 && Shows(block[i], k, r.error.found)
  {
    var line := block[j - 1];
    if |line| == 0 {
      return Err(Panic);
    }
    r := PushRow(stacks, line);
    if r.Err? && r.error.InvalidLabel? {
      var k: nat :| Shows(line, k, r.error.found);
      assert Shows(block[j - 1], k, r.error.found);
    } else if r.Ok? {
      ghost var rows := block[..|block| - 1];
      forall k | 0 <= k < |stacks|
        ensures r.value[k] == Column(rows[j - 1..], k)
      {
        ColumnFrom(rows, j - 1, k);
      }
    }
  }

  /** parse_stacks: the rows from the bottom up, after the label line, pushed onto empty stacks. */
  method ParseStacks(block: seq<string>) returns (r: Result<seq<seq<char>>, StackError>)
    ensures r.Ok? <==> BlockOk(block)
    ensures r.Ok? ==> r.value == Drawn(block)
    ensures r.Err? && r.error.InvalidLabel? ==>
      r.error.found != ' ' && !IsUpper(r.error.found) &&
      exists i: nat, k: nat :: i < |block| - 1 && Shows(block[i], k, r.error.found)
  {
    if |block| == 0 {
      return Err(Panic);
    }
    var n := (|block[|block| - 1]| + 1) / 4;
    var stacks: seq<seq<char>> := [];
    for k := 0 to n
      invariant stacks == seq(k, _ => [])
    {
      stacks := stacks + [[]];
    }
    for i := 1 to |block|
      invariant Stacked(block, |block| - i, stacks)
    {
      var pushed := StackRow(block, |block| - i, stacks);
      if pushed.Err? {
        return Err(pushed.error);
      }
      stacks := pushed.value;
    }
    StackedAll(block, stacks);
    return Ok(stacks);
  }

  // ---------------------------------------------------------------------
  // The moves.

  /** A move, as the regex's three numbers decode it. */
  datatype Move = Move(number: nat, source: nat, target: nat)

  /** One capture `\d+` parsed as a `usize`; too large is the unwrap's panic. */
  function Number(p: string): (r: Option<nat>)
    ensures r.Some? ==> r.value < U64
  {
    if p != [] && AllDigits(p) && DigitsValue(p) < U64 then Some(DigitsValue(p)) else None
  }

  /** A line "move N from S to T". */
  function ParseMove(line: string): Option<Move>
  {
    var ps := Split(line, ' ');
    if |ps| != 6 || ps[0] != "move" || ps[2] != "from" || ps[4] != "to" then None
    else
      var n := Number(ps[1]);
      var s := Number(ps[3]);
      var t := Number(ps[5]);
      if n.None? || s.None? || t.None? then None else Some(Move(n.value, s.value, t.value))
  }

  function RenderMove(m: Move): string
  {
    Join(["move", Decimal(m.number), "from", Decimal(m.source), "to", Decimal(m.target)], ' ')
  }

  lemma DecimalNumber(n: nat)
    requires n < U64
    ensures Number(Decimal(n)) == Some(n) && ' ' !in Decimal(n)
  {
    DecimalValue(n);
    assert forall k :: 0 <= k < |Decimal(n)| ==> IsDigit(Decimal(n)[k]);
  }

  /** A move written out in the input's form parses back to itself. */
  lemma ParseMoveRender(m: Move)
    requires m.number < U64 && m.source < U64 && m.target < U64
    ensures ParseMove(RenderMove(m)) == Some(m)
  {
    DecimalNumber(m.number);
    DecimalNumber(m.source);
    DecimalNumber(m.target);
    var ps := ["move", Decimal(m.number), "from", Decimal(m.source), "to", Decimal(m.target)];
    SplitJoin(ps, ' ');
  }

  /** The moves of all lines in order, or the first line that is not a move. */
  function MovesOf(lines: seq<string>): (r: Result<seq<Move>, string>)
  {
    if lines == [] then Ok([])
    else
      var prev := MovesOf(lines[..|lines| - 1]);
      var m := ParseMove(lines[|lines| - 1]);
      if prev.Err? then prev
      else if m.None? then Err(lines[|lines| - 1])
      else Ok(prev.value + [m.value])
  }

  /** The moves parse exactly when every line is a move, one move per line in order; otherwise
    * the error is the first line that is not. */
  lemma {:induction false} MovesOfSpec(lines: seq<string>)
    ensures MovesOf(lines).Ok? <==> forall i :: 0 <= i < |lines| ==> ParseMove(lines[i]).Some?
    ensures MovesOf(lines).Ok? ==> |MovesOf(lines).value| == |lines|
    ensures MovesOf(lines).Ok? ==>
      forall i :: 0 <= i < |lines| ==> ParseMove(lines[i]) == Some(MovesOf(lines).value[i])
    ensures MovesOf(lines).Err? ==>
      exists i :: 0 <= i < |lines| && lines[i] == MovesOf(lines).error && ParseMove(lines[i]).None? &&
        (forall j :: 0 <= j < i ==> ParseMove(lines[j]).Some?)
  {
    if lines != [] {
      var init := lines[..|lines| - 1];
      MovesOfSpec(init);
      assert forall i :: 0 <= i < |init| ==> init[i] == lines[i];
    }
  }

  /** parse_moves: the loop over the lines, stopping at the first that is not a move. */
  method ParseMoves(lines: seq<string>) returns (r: Result<seq<Move>, string>)
    ensures r == MovesOf(lines)
  {
    var moves: seq<Move> := [];
    for i := 0 to |lines|
      invariant MovesOf(lines[..i]) == Ok(moves)
    {
      assert lines[..i + 1][..i] == lines[..i];
      var m := ParseMove(lines[i]);
      if m.None? {
        MovesErrStays(lines, i + 1);
        return Err(lines[i]);
      }
      moves := moves + [m.value];
    }
    assert lines[..|lines|] == lines;
    return Ok(moves);
  }

  lemma {:induction false} MovesErrStays(lines: seq<string>, i: nat)
    requires i <= |lines| && MovesOf(lines[..i]).Err?
    ensures MovesOf(lines) == MovesOf(lines[..i])
    decreases |lines| - i
  {
    if i < |lines| {
      assert lines[..i + 1][..i] == lines[..i];
      MovesErrStays(lines, i + 1);
    } else {
      assert lines[..i] == lines;
    }
  }

  // ---------------------------------------------------------------------
  // The cranes.

  /** Takes the top crate of stack `s` and puts it on top of stack `t`. */
  function MoveOne(st: seq<seq<char>>, s: nat, t: nat): (r: seq<seq<char>>)
    requires s < |st| && t < |st| && st[s] != []
    ensures |r| == |st|
  {
    var popped := st[s := st[s][1..]];
    popped[t := [st[s][0]] + popped[t]]
  }

  /** `n` single-crate moves, None once the source stack is empty (the unwrap's panic). */
  function Repeat9000(st: seq<seq<char>>, s: nat, t: nat, n: nat): (r: Option<seq<seq<char>>>)
    requires s < |st| && t < |st|
    ensures r.Some? ==> |r.value| == |st|
  {
    if n == 0 then Some(st)
    else
      var prev := Repeat9000(st, s, t, n - 1);
      if prev.None? || prev.value[s] == [] then None else Some(MoveOne(prev.value, s, t))
  }

  /** A valid 1-based stack number. */
  predicate Index(st: seq<seq<char>>, i: nat)
  {
    1 <= i <= |st|
  }

  /** part_one's move: one crate at a time. A move of nothing touches no stack; otherwise a
    * stack number out of range is an indexing panic. */
  function Step9000(st: seq<seq<char>>, m: Move): (r: Option<seq<seq<char>>>)
    ensures r.Some? ==> |r.value| == |st|
  {
    if m.number == 0 then Some(st)
    else if !Index(st, m.source) || !Index(st, m.target) then None
    else Repeat9000(st, m.source - 1, m.target - 1, m.number)
  }

  /** part_two's move: the top `number` crates taken off together and put down in the same order. */
  function Step9001(st: seq<seq<char>>, m: Move): (r: Option<seq<seq<char>>>)
  {
    if m.number == 0 then Some(st)
    else if !Index(st, m.source) || |st[m.source - 1]| < m.number || !Index(st, m.target) then None
    else
      var s := m.source - 1;
      var popped := st[s := st[s][m.number..]];
      Some(popped[m.target - 1 := st[s][..m.number] + popped[m.target - 1]])
  }

  /** Moving crate by crate between different stacks succeeds exactly when the source holds
    * enough crates, and puts the moved group on the target in reverse order. */
  lemma {:induction false} Transfer9000(st: seq<seq<char>>, s: nat, t: nat, n: nat)
    requires s < |st| && t < |st| && s != t
    ensures Repeat9000(st, s, t, n).Some? <==> n <= |st[s]|
    ensures n <= |st[s]| ==>
      Repeat9000(st, s, t, n) == Some(st[s := st[s][n..]][t := Reverse(st[s][..n]) + st[t]])
  {
    if n > 0 {
      Transfer9000(st, s, t, n - 1);
      if n - 1 <= |st[s]| {
        var prev := st[s := st[s][n - 1..]][t := Reverse(st[s][..n - 1]) + st[t]];
        if n <= |st[s]| {
          assert Repeat9000(st, s, t, n) == Some(MoveOne(prev, s, t));
          var next := MoveOne(prev, s, t);
          assert prev[s][1..] == st[s][n..];
          assert [st[s][n - 1]] + Reverse(st[s][..n - 1]) == Reverse(st[s][..n]);
          assert [st[s][n - 1]] + (Reverse(st[s][..n - 1]) + st[t]) == Reverse(st[s][..n]) + st[t];
          assert next == st[s := st[s][n..]][t := Reverse(st[s][..n]) + st[t]];
        } else {
          assert prev[s] == [];
        }
      }
    } else {
      assert st[s][0..] == st[s] && Reverse(st[s][..0]) + st[t] == st[t];
      assert st[s := st[s]][t := st[t]] == st;
    }
  }

  /** Moving crates from a stack onto itself changes nothing, and fails only on an empty stack. */
  lemma {:induction false} SameStack9000(st: seq<seq<char>>, s: nat, n: nat)
    requires s < |st|
    ensures Repeat9000(st, s, s, n).Some? <==> n == 0 || st[s] != []
    ensures Repeat9000(st, s, s, n).Some? ==> Repeat9000(st, s, s, n) == Some(st)
  {
    if n > 0 {
      SameStack9000(st, s, n - 1);
      if st[s] != [] {
        assert [st[s][0]] + st[s][1..] == st[s];
        assert st[s := st[s]] == st;
        assert MoveOne(st, s, s) == st;
      }
    }
  }

  /** Moving a group onto itself changes nothing; between different stacks the group keeps
    * its order. */
  lemma Step9001Spec(st: seq<seq<char>>, m: Move)
    requires Step9001(st, m).Some? && m.number > 0
    ensures m.source == m.target ==> Step9001(st, m) == Some(st)
    ensures m.source != m.target ==> var r := Step9001(st, m).value;
      r[m.target - 1] == st[m.source - 1][..m.number] + st[m.target - 1] &&
      r[m.source - 1] == st[m.source - 1][m.number..] &&
      forall k :: 0 <= k < |st| && k != m.source - 1 && k != m.target - 1 ==> r[k] == st[k]
  {
    var s := m.source - 1;
    if m.source == m.target {
      var popped := st[s := st[s][m.number..]];
      assert st[s][..m.number] + popped[s] == st[s];
      assert popped[s := st[s]] == st;
    }
  }

  /** The two cranes differ only in the order of the group on the target stack. */
  lemma CranesDiffer(st: seq<seq<char>>, m: Move)
    requires m.number > 0 && Index(st, m.source) && Index(st, m.target) && m.source != m.target
    ensures Step9000(st, m).Some? <==> Step9001(st, m).Some?
    ensures Step9000(st, m).Some? ==>
      Step9000(st, m).value == Step9001(st, m).value[m.target - 1 := Reverse(st[m.source - 1][..m.number]) + st[m.target - 1]]
  {
    Transfer9000(st, m.source - 1, m.target - 1, m.number);
  }

  function Total(st: seq<seq<char>>): nat
  {
    if st == [] then 0 else |st[0]| + Total(st[1..])
  }

  lemma {:induction false} TotalUpdate(st: seq<seq<char>>, i: nat, v: seq<char>)
    requires i < |st|
    ensures Total(st[i := v]) == Total(st) - |st[i]| + |v|
  {
    if i > 0 {
      TotalUpdate(st[1..], i - 1, v);
      assert st[i := v][1..] == st[1..][i - 1 := v];
    } else {
      assert st[i := v][1..] == st[1..];
    }
  }

  datatype Crane = CrateMover9000 | CrateMover9001

  function Step(crane: Crane, st: seq<seq<char>>, m: Move): Option<seq<seq<char>>>
  {
    match crane
    case CrateMover9000 => Step9000(st, m)
    case CrateMover9001 => Step9001(st, m)
  }

  /** Either crane keeps the number of stacks and the number of crates. */
  lemma StepKeepsCrates(crane: Crane, st: seq<seq<char>>, m: Move)
    requires Step(crane, st, m).Some?
    ensures |Step(crane, st, m).value| == |st| && Total(Step(crane, st, m).value) == Total(st)
  {
    if m.number > 0 {
      var s, t := m.source - 1, m.target - 1;
      if crane.CrateMover9000? {
        if s == t {
          SameStack9000(st, s, m.number);
        } else {
          Transfer9000(st, s, t, m.number);
          var popped := st[s := st[s][m.number..]];
          TotalUpdate(st, s, st[s][m.number..]);
          TotalUpdate(popped, t, Reverse(st[s][..m.number]) + st[t]);
        }
      } else {
        var popped := st[s := st[s][m.number..]];
        TotalUpdate(st, s, st[s][m.number..]);
        TotalUpdate(popped, t, st[s][..m.number] + popped[t]);
      }
    }
  }

  /** The moves one after another, None at the first panic. */
  function RunMoves(crane: Crane, st: seq<seq<char>>, moves: seq<Move>): Option<seq<seq<char>>>
  {
    if moves == [] then Some(st)
    else
      var prev := RunMoves(crane, st, moves[..|moves| - 1]);
      if prev.None? then None else Step(crane, prev.value, moves[|moves| - 1])
  }

  lemma {:induction false} RunKeepsCrates(crane: Crane, st: seq<seq<char>>, moves: seq<Move>)
    requires RunMoves(crane, st, moves).Some?
    ensures |RunMoves(crane, st, moves).value| == |st| && Total(RunMoves(crane, st, moves).value) == Total(st)
  {
    if moves != [] {
      RunKeepsCrates(crane, st, moves[..|moves| - 1]);
      StepKeepsCrates(crane, RunMoves(crane, st, moves[..|moves| - 1]).value, moves[|moves| - 1]);
    }
  }

  /** The top crate of every stack in order; an empty stack is the indexing panic. */
  function TopsOf(st: seq<seq<char>>): (r: Option<string>)
  {
    if exists k :: 0 <= k < |st| && st[k] == [] then None
    else Some(seq(|st|, k requires 0 <= k < |st| => st[k][0]))
  }

  class Dock {
    var stacks: seq<seq<char>>

    constructor (initial: seq<seq<char>>)
      ensures stacks == initial
    {
      stacks := initial;
    }

    /** part_one's inner loop for one move; false where the source panics. */
    method Move9000(m: Move) returns (ok: bool)
      modifies this
      ensures ok <==> Step9000(old(stacks), m).Some?
      ensures ok ==> stacks == Step9000(old(stacks), m).value
    {
      ghost var s0 := stacks;
      ok := true;
      for k := 0 to m.number
        invariant ok
        invariant k > 0 ==> Index(s0, m.source) && Index(s0, m.target)
        invariant k == 0 ==> stacks == s0
        invariant k > 0 ==> Repeat9000(s0, m.source - 1, m.target - 1, k) == Some(stacks)
      {
        if m.source == 0 || m.source > |stacks| {
          return false;
        }
        var src := m.source - 1;
        if stacks[src] == [] {
          if k > 0 {
            RepeatNoneStays(s0, src, m.target - 1, k + 1, m.number);
          } else if Index(s0, m.target) {
            RepeatNoneStays(s0, src, m.target - 1, 1, m.number);
          }
          return false;
        }
        var container := stacks[src][0];
        ghost var before := stacks;
        stacks := stacks[src := stacks[src][1..]];
        if m.target == 0 || m.target > |stacks| {
          return false;
        }
        var dst := m.target - 1;
        stacks := stacks[dst := [container] + stacks[dst]];
        assert stacks == MoveOne(before, src, dst);
      }
    }

    /** part_two's two loops for one move: take `number` crates off, then put them down from the
      * last taken to the first; false where the source panics. */
    method Move9001(m: Move) returns (ok: bool)
      modifies this
      ensures ok <==> Step9001(old(stacks), m).Some?
      ensures ok ==> stacks == Step9001(old(stacks), m).value
    {
      var containers;
      ok, containers := TakeCrates(m.source, m.number);
      if ok {
        ok := PutCrates(m.target, containers);
      }
    }

    /** part_two's first loop: pops `n` crates off stack `source` (1-based), the top one first;
      * false where popping an empty or missing stack panics. */
    method TakeCrates(source: nat, n: nat) returns (ok: bool, containers: seq<char>)
      modifies this
      ensures ok <==> n == 0 || (Index(old(stacks), source) && n <= |old(stacks)[source - 1]|)
      ensures ok && n == 0 ==> stacks == old(stacks) && containers == []
      ensures ok && n > 0 ==> stacks == old(stacks)[source - 1 := old(stacks)[source - 1][n..]]
      ensures ok && n > 0 ==> containers == old(stacks)[source - 1][..n]
    {
      ghost var s0 := stacks;
      ok := true;
      containers := [];
      for k := 0 to n
        invariant ok
        invariant k > 0 ==> Index(s0, source) && k <= |s0[source - 1]|
        invariant k == 0 ==> stacks == s0 && containers == []
        invariant k > 0 ==> stacks == s0[source - 1 := s0[source - 1][k..]] && containers == s0[source - 1][..k]
      {
        if source == 0 || source > |stacks| {
          return false, containers;
        }
        var src := source - 1;
        if stacks[src] == [] {
          return false, containers;
        }
        var container := stacks[src][0];
        stacks := stacks[src := stacks[src][1..]];
        containers := containers + [container];
        assert s0[src][..k + 1] == s0[src][..k] + [s0[src][k]];
      }
    }

    /** part_two's second loop: pushes `containers` onto stack `target` (1-based) from the last
      * to the first, so they end up in their original order; false where the stack is missing. */
    method PutCrates(target: nat, containers: seq<char>) returns (ok: bool)
      modifies this
      ensures ok <==> containers == [] || Index(old(stacks), target)
      ensures ok && containers == [] ==> stacks == old(stacks)
      ensures ok && containers != [] ==> stacks == old(stacks)[target - 1 := containers + old(stacks)[target - 1]]
    {
      ghost var s0 := stacks;
      ok := true;
      for k := 0 to |containers|
        invariant ok
        invariant k > 0 ==> Index(s0, target)
        invariant k == 0 ==> stacks == s0
        invariant k > 0 ==> stacks == s0[target - 1 := containers[|containers| - k..] + s0[target - 1]]
      {
        if target == 0 || target > |stacks| {
          return false;
        }
        var dst := target - 1;
        ghost var cur := stacks[dst];
        assert cur == containers[|containers| - k..] + s0[dst];
        stacks := stacks[dst := [containers[|containers| - 1 - k]] + stacks[dst]];
        assert containers[|containers| - (k + 1)..] == [containers[|containers| - 1 - k]] + containers[|containers| - k..];
        assert [containers[|containers| - 1 - k]] + cur == containers[|containers| - (k + 1)..] + s0[dst];
      }
      if containers != [] {
        assert containers[|containers| - |containers|..] == containers;
      }
    }
  }

  lemma {:induction false} RepeatNoneStays(st: seq<seq<char>>, s: nat, t: nat, i: nat, n: nat)
    requires s < |st| && t < |st| && i <= n && Repeat9000(st, s, t, i).None?
    ensures Repeat9000(st, s, t, n).None?
    decreases n - i
  {
    if i < n {
      RepeatNoneStays(st, s, t, i + 1, n);
    }
  }

  /** The final loop collecting the top crate of each stack. */
  method Tops(st: seq<seq<char>>) returns (r: Option<string>)
    ensures r == TopsOf(st)
  {
    var labels: string := [];
    for k := 0 to |st|
      invariant forall j :: 0 <= j < k ==> st[j] != []
      invariant |labels| == k && forall j :: 0 <= j < k ==> labels[j] == st[j][0]
    {
      if st[k] == [] {
        return None;
      }
      labels := labels + [st[k][0]];
    }
    assert !exists j :: 0 <= j < |st| && st[j] == [];
    assert labels == seq(|st|, j requires 0 <= j < |st| => st[j][0]);
    return Some(labels);
  }

  // ---------------------------------------------------------------------
  // The answers.

  /** parse_part_one: the text before the first blank line is the drawing, the text up to the
    * next blank line the moves; a missing part or an error is the unwrap's panic. */
  function Parsed(input: string): Option<(seq<seq<char>>, seq<Move>)>
  {
    var parts := SplitOn(input, "\n\n");
    if |parts| < 2 then None
    else
      var block := Lines(parts[0]);
      var moves := MovesOf(Lines(parts[1]));
      if !BlockOk(block) || moves.Err? then None else Some((Drawn(block), moves.value))
  }

  /** The answer with the given crane: the top crates after all moves. */
  function Solve(input: string, crane: Crane): Option<string>
  {
    var p := Parsed(input);
    if p.None? then None
    else
      var last := RunMoves(crane, p.value.0, p.value.1);
      if last.None? then None else TopsOf(last.value)
  }

  /** An answer names one crate per stack of the drawing, and the moves lose no crate. */
  lemma SolveSpec(input: string, crane: Crane)
    requires Solve(input, crane).Some?
    ensures var p := Parsed(input).value;
      var last := RunMoves(crane, p.0, p.1).value;
      |Solve(input, crane).value| == |p.0| && Total(last) == Total(p.0)
  {
    var p := Parsed(input).value;
    RunKeepsCrates(crane, p.0, p.1);
  }

  method Parse(input: string) returns (r: Option<(seq<seq<char>>, seq<Move>)>)
    ensures r == Parsed(input)
  {
    var parts := SplitOn(input, "\n\n");
    if |parts| < 2 {
      return None;
    }
    var stacks := ParseStacks(Lines(parts[0]));
    if stacks.Err? {
      return None;
    }
    var moves := ParseMoves(Lines(parts[1]));
    if moves.Err? {
      return None;
    }
    return Some((stacks.value, moves.value));
  }

  /** The move loop and the top crates with the given crane. */
  method Operate(input: string, crane: Crane) returns (r: Option<string>)
    ensures r == Solve(input, crane)
  {
    var parsed := Parse(input);
    if parsed.None? {
      return None;
    }
    var (initial, moves) := parsed.value;
    var dock := new Dock(initial);
    for i := 0 to |moves|
      invariant RunMoves(crane, initial, moves[..i]) == Some(dock.stacks)
    {
      assert moves[..i + 1][..i] == moves[..i];
      var ok;
      if crane.CrateMover9000? {
        ok := dock.Move9000(moves[i]);
      } else {
        ok := dock.Move9001(moves[i]);
      }
      if !ok {
        RunNoneStays(crane, initial, moves, i + 1);
        return None;
      }
    }
    assert moves[..|moves|] == moves;
    r := Tops(dock.stacks);
  }

  lemma {:induction false} RunNoneStays(crane: Crane, st: seq<seq<char>>, moves: seq<Move>, i: nat)
    requires i <= |moves| && RunMoves(crane, st, moves[..i]).None?
    ensures RunMoves(crane, st, moves).None?
    decreases |moves| - i
  {
    if i < |moves| {
      assert moves[..i + 1][..i] == moves[..i];
      RunNoneStays(crane, st, moves, i + 1);
    } else {
      assert moves[..i] == moves;
    }
  }

  /** part_one: the CrateMover 9000, which moves one crate at a time. */
  method PartOne(input: string) returns (r: Option<string>)
    ensures r == Solve(input, CrateMover9000)
  {
    r := Operate(input, CrateMover9000);
  }

  /** part_two: the CrateMover 9001, which moves the whole group at once. */
  method PartTwo(input: string) returns (r: Option<string>)
    ensures r == Solve(input, CrateMover9001)
  {
    r := Operate(input, CrateMover9001);
  }
}
