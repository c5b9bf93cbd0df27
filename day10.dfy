/** Day 10: a CPU with one register and the instructions `noop` and `addx`; the signal
  * strengths at cycles 20, 60, 100, ... and the pixels of a 40-column screen. */
module Day10 {
  import opened Wrappers
  import opened Text
  import opened Seqs
  import opened Modular

  datatype Instruction = Add(value: int) | Noop

  // ---------------------------------------------------------------------
  // parse_instruction.

  /** A line split at every space: two pieces make an add of the second, read as an `i32`,
    * whatever the first says; the single piece "noop" is a noop; anything else panics. */
  function ParseInstruction(line: string): Option<Instruction>
  {
    var parts := Split(line, ' ');
    if |parts| == 2 then
      var amount := ParseSigned(parts[1], I32Min, I32Max);
      if amount.Some? then Some(Add(amount.value)) else None
    else if parts == ["noop"] then Some(Noop)
    else None
  }

  /** The line as the puzzle writes it. */
  function RenderInstruction(i: Instruction): string
  {
    match i
    case Add(v) => "addx " + SignedDecimal(v)
    case Noop => "noop"
  }

  /** An instruction whose amount is an `i32` parses back from its line. */
  lemma ParseRenderInstruction(i: Instruction)
    requires i.Add? ==> I32Min <= i.value <= I32Max
    ensures ParseInstruction(RenderInstruction(i)) == Some(i)
  {
    if i.Add? {
      SignedDecimalRoundTrip(i.value);
      var d := SignedDecimal(i.value);
      assert ' ' !in "addx";
      ParseTwoPieces("addx", d);
      assert RenderInstruction(i) == "addx" + " " + d;
    } else {
      ParseNoop("noop");
    }
  }

  /** Any two space-free pieces make an add of the second, whatever the first is. */
  lemma ParseTwoPieces(a: string, b: string)
    requires ' ' !in a && ' ' !in b
    ensures ParseInstruction(a + " " + b) ==
      (if ParseSigned(b, I32Min, I32Max).Some? then Some(Add(ParseSigned(b, I32Min, I32Max).value)) else None)
  {
    var ps := [a, b];
    forall k | 0 <= k < |ps|
      ensures ' ' !in ps[k]
    {
    }
    SplitJoin(ps, ' ');
    assert Join(ps, ' ') == a + " " + b;
  }

  /** Exactly the line "noop" parses to a noop. */
  lemma ParseNoop(line: string)
    ensures ParseInstruction(line) == Some(Noop) <==> line == "noop"
  {
    if ParseInstruction(line) == Some(Noop) {
      JoinSplit(line, ' ');
      assert Join(["noop"], ' ') == "noop";
    }
    if line == "noop" {
      var ps := ["noop"];
      assert ' ' !in ps[0];
      SplitJoin(ps, ' ');
    }
  }

  // ---------------------------------------------------------------------
  // Operations and the per-cycle changes of the register.

  /** An instruction in flight, with the cycles it still needs. */
  datatype Operation = Operation(value: int, cycles: nat)

  /** `Operation::from`: an add takes two cycles, a noop one and adds nothing. */
  function OperationOf(i: Instruction): Operation
  {
    match i
    case Add(v) => Operation(v, 2)
    case Noop => Operation(0, 1)
  }

  /** `Operation::complete`. */
  predicate Complete(op: Operation)
  {
    op.cycles == 0
  }

  /** What the remaining cycles of `op` add to the register, one entry per cycle: nothing until
    * the last cycle, and the value then. */
  function Pending(op: Operation): (r: seq<int>)
    ensures |r| == op.cycles
    decreases op.cycles
  {
    if op.cycles == 0 then []
    else if op.cycles == 1 then [op.value]
    else [0] + Pending(op.(cycles := op.cycles - 1))
  }

  /** An add contributes two cycles and its value at the second; a noop one cycle and nothing. */
  lemma PendingOf(i: Instruction)
    ensures Pending(OperationOf(i)) == if i.Add? then [0, i.value] else [0]
  {
  }

  /** The register changes of the operations of a queue, front first. */
  function Expand(queue: seq<Operation>): seq<int>
  {
    if queue == [] then [] else Pending(queue[0]) + Expand(queue[1..])
  }

  lemma {:induction false} ExpandAppend(a: seq<Operation>, b: seq<Operation>)
    ensures Expand(a + b) == Expand(a) + Expand(b)
  {
    if a != [] {
      assert (a + b)[1..] == a[1..] + b;
      ExpandAppend(a[1..], b);
    } else {
      assert a + b == b;
    }
  }

  /** The register changes of a program, cycle by cycle. */
  function Deltas(instrs: seq<Instruction>): seq<int>
  {
    if instrs == [] then [] else Pending(OperationOf(instrs[0])) + Deltas(instrs[1..])
  }

  lemma {:induction false} DeltasSnoc(instrs: seq<Instruction>, i: Instruction)
    ensures Deltas(instrs + [i]) == Deltas(instrs) + Pending(OperationOf(i))
  {
    if instrs != [] {
      assert (instrs + [i])[1..] == instrs[1..] + [i];
      DeltasSnoc(instrs[1..], i);
    } else {
      assert [] + [i] == [i];
    }
  }

  /** The register after each cycle, starting from `x`. */
  function Run(x: int, ds: seq<int>): (r: seq<int>)
    ensures |r| == |ds|
    ensures ds != [] ==> r[|r| - 1] == x + Sum(ds)
    decreases ds
  {
    if ds == [] then [] else [x + ds[0]] + Run(x + ds[0], ds[1..])
  }

  lemma {:induction false} RunAppend(x: int, a: seq<int>, b: seq<int>)
    ensures Run(x, a + b) == Run(x, a) + Run(x + Sum(a), b)
    decreases a
  {
    if a != [] {
      assert (a + b)[1..] == a[1..] + b;
      RunAppend(x + a[0], a[1..], b);
    } else {
      assert a + b == b;
    }
  }

  /** `register.history.last().unwrap_or(&1)`. */
  function Last(history: seq<int>): int
  {
    if history == [] then 1 else history[|history| - 1]
  }

  // ---------------------------------------------------------------------
  // The cycle loop.

  /** How many instructions the loop has queued before cycle `cycle`. */
  function Queued(cycle: nat, n: nat): nat
  {
    if cycle == 0 then 0 else if cycle - 1 < n then cycle - 1 else n
  }

  /** The `while` loop of `part_one` and `part_two`: one register value per cycle. Each cycle
    * queues the next instruction, works one cycle on the front operation, and puts it back at
    * the front when it is not yet complete. */
  method RunProgram(instrs: seq<Instruction>) returns (history: seq<int>)
    ensures history == Run(1, Deltas(instrs))
    ensures history == Trace(instrs, 1)
  {
    var queue: seq<Operation> := [];
    history := [];
    var cycle: nat := 1;
    ghost var done: seq<int> := [];
    while instrs != [] || queue != []
      invariant cycle >= 1 && |done| == cycle - 1
      invariant Deltas(instrs[..Queued(cycle, |instrs|)]) == done + Expand(queue)
      invariant history == Run(1, done)
      invariant forall k :: 0 <= k < |queue| ==> queue[k].cycles >= 1
      decreases 2 * (|instrs| - Queued(cycle, |instrs|)) + |Expand(queue)|
    {
      if cycle - 1 < |instrs| {
        Enqueue(instrs, cycle, queue, done);
        queue := queue + [OperationOf(instrs[cycle - 1])];
      }
      if queue == [] {
        break;
      }
      queue, history, done := Tick(queue, history, done);
      cycle := cycle + 1;
    }
    assert Queued(cycle, |instrs|) == |instrs| && queue == [];
    assert instrs[..|instrs|] == instrs;
    assert done + [] == done;
    TraceOfDeltas(instrs, 1);
  }

  /** Queueing the instruction of cycle `cycle` extends the changes still to come by its own. */
  lemma Enqueue(instrs: seq<Instruction>, cycle: nat, queue: seq<Operation>, done: seq<int>)
    requires 1 <= cycle && cycle - 1 < |instrs|
    requires Deltas(instrs[..Queued(cycle, |instrs|)]) == done + Expand(queue)
    ensures Deltas(instrs[..Queued(cycle + 1, |instrs|)]) == done + Expand(queue + [OperationOf(instrs[cycle - 1])])
    ensures |Expand(queue + [OperationOf(instrs[cycle - 1])])| <= |Expand(queue)| + 2
  {
    var op := OperationOf(instrs[cycle - 1]);
    assert instrs[..cycle] == instrs[..cycle - 1] + [instrs[cycle - 1]];
    DeltasSnoc(instrs[..cycle - 1], instrs[cycle - 1]);
    ExpandAppend(queue, [op]);
    assert Expand([op]) == Pending(op);
    AppendAssoc(done, Expand(queue), Pending(op));
  }

  /** One cycle of work on the front operation: its change to the register is recorded, and it
    * goes back to the front of the queue when it is not yet complete. */
  method Tick(queue: seq<Operation>, history: seq<int>, ghost done: seq<int>)
    returns (queue': seq<Operation>, history': seq<int>, ghost done': seq<int>)
    requires queue != [] && forall k :: 0 <= k < |queue| ==> queue[k].cycles >= 1
    requires history == Run(1, done)
    ensures forall k :: 0 <= k < |queue'| ==> queue'[k].cycles >= 1
    ensures done' + Expand(queue') == done + Expand(queue) && |done'| == |done| + 1
    ensures history' == Run(1, done')
  {
    var operation := queue[0];
    var rest := queue[1..];
    assert queue == [operation] + rest;
    Work(operation, rest);
    operation := operation.(cycles := operation.cycles - 1);
    ghost var d := if Complete(operation) then operation.value else 0;
    RunSnoc(done, d);
    if Complete(operation) {
      history' := history + [Last(history) + operation.value];
      queue' := rest;
    } else {
      queue' := [operation] + rest;
      history' := history + [Last(history)];
    }
    done' := done + [d];
    AppendAssoc(done, [d], Expand(queue'));
  }

  /** Recording one more cycle appends the register after it: the last value, or 1 at first,
    * plus the cycle's change. */
  lemma RunSnoc(done: seq<int>, d: int)
    ensures Run(1, done + [d]) == Run(1, done) + [Last(Run(1, done)) + d]
  {
    RunAppend(1, done, [d]);
    SumAppend(done, [d]);
    if done == [] {
      assert Run(1, [d]) == [1 + d] + Run(1 + d, []);
    }
  }

  /** One cycle of work on the front operation `op`: the cycle's change is the operation's value
    * when it completes, and nothing otherwise, with the rest of the operation still queued. */
  lemma Work(op: Operation, rest: seq<Operation>)
    requires op.cycles >= 1
    ensures var next := op.(cycles := op.cycles - 1);
      Expand([op] + rest) ==
        if Complete(next) then [op.value] + Expand(rest) else [0] + Expand([next] + rest)
  {
    var next := op.(cycles := op.cycles - 1);
    assert ([op] + rest)[1..] == rest;
    if !Complete(next) {
      assert ([next] + rest)[1..] == rest;
    }
  }

  // ---------------------------------------------------------------------
  // The reference CPU.

  /** The register during each cycle after the first, run one instruction at a time: a noop
    * keeps it for one cycle; an add keeps it for one cycle and changes it by its value at the
    * end of the second. */
  function Trace(instrs: seq<Instruction>, x: int): seq<int>
  {
    if instrs == [] then []
    else match instrs[0]
      case Noop => [x] + Trace(instrs[1..], x)
      case Add(v) => [x, x + v] + Trace(instrs[1..], x + v)
  }

  /** The queue's register changes give the same register values as the reference CPU. */
  lemma {:induction false} TraceOfDeltas(instrs: seq<Instruction>, x: int)
    ensures Run(x, Deltas(instrs)) == Trace(instrs, x)
  {
    if instrs != [] {
      var i := instrs[0];
      RunAppend(x, Pending(OperationOf(i)), Deltas(instrs[1..]));
      RunOfInstruction(x, i);
      TraceOfDeltas(instrs[1..], x + (if i.Add? then i.value else 0));
    }
  }

  /** One instruction's cycles: the register values it records and its change to the register. */
  lemma RunOfInstruction(x: int, i: Instruction)
    ensures Run(x, Pending(OperationOf(i))) == if i.Add? then [x, x + i.value] else [x]
    ensures Sum(Pending(OperationOf(i))) == if i.Add? then i.value else 0
  {
    PendingOf(i);
    if i.Add? {
      assert Run(x, [0, i.value]) == [x] + Run(x, [i.value]);
      assert [0, i.value][1..] == [i.value];
    }
  }

  /** The cycles a program takes: two per add and one per noop. */
  function Cycles(instrs: seq<Instruction>): nat
  {
    if instrs == [] then 0 else (if instrs[0].Add? then 2 else 1) + Cycles(instrs[1..])
  }

  /** One register value is recorded per cycle. */
  lemma {:induction false} TraceLength(instrs: seq<Instruction>, x: int)
    ensures |Trace(instrs, x)| == Cycles(instrs)
  {
    if instrs != [] {
      match instrs[0] {
        case Noop => TraceLength(instrs[1..], x);
        case Add(v) => TraceLength(instrs[1..], x + v);
      }
    }
  }

  // ---------------------------------------------------------------------
  // part_one.

  /** The signal strength summed over the cycles `c` with `1 <= c < m`, `c < |h|` and
    * `c % 40 == 20`: the register value `h[c - 2]` times `c`. */
  function Strength(h: seq<int>, m: nat): int
  {
    if m <= 1 then 0
    else
      var c := m - 1;
      Strength(h, c) + (if c % 40 == 20 && c < |h| then h[c - 2] * c else 0)
  }

  /** No cycle before 20 adds anything. */
  lemma {:induction false} StrengthStart(h: seq<int>, m: nat)
    requires m <= 20
    ensures Strength(h, m) == 0
  {
    if m > 1 {
      StrengthStart(h, m - 1);
      SmallMod(m - 1, 40);
    }
  }

  /** Between two cycles that are 20 more than a multiple of 40, no cycle adds anything. */
  lemma {:induction false} StrengthQuiet(h: seq<int>, c: nat, j: nat)
    requires c % 40 == 20 && 1 <= j <= 40
    ensures Strength(h, c + j) == Strength(h, c + 1)
    decreases j
  {
    if j > 1 {
      StrengthQuiet(h, c, j - 1);
      var q := c / 40;
      assert c == q * 40 + 20;
      if j - 1 < 20 {
        ModUnique(c + j - 1, 40, q, 20 + j - 1);
      } else {
        ModUnique(c + j - 1, 40, q + 1, j - 21);
      }
    }
  }

  /** Cycles from the length of the history on add nothing. */
  lemma {:induction false} StrengthBeyond(h: seq<int>, m: nat)
    requires m >= |h|
    ensures Strength(h, m) == Strength(h, |h|)
    decreases m
  {
    if m > |h| {
      StrengthBeyond(h, m - 1);
    }
  }

  /** The loop over `(1..len).skip(19).step_by(40)`. */
  method SignalSum(history: seq<int>) returns (sum: int)
    ensures sum == Strength(history, |history|)
  {
    sum := 0;
    var cycle: nat := 20;
    StrengthStart(history, 20);
    while cycle < |history|
      invariant cycle % 40 == 20
      invariant sum == Strength(history, cycle)
      invariant cycle <= |history| + 39
      decreases |history| - cycle
    {
      sum := sum + history[cycle - 2] * cycle;
      StrengthQuiet(history, cycle, 40);
      ModShift(cycle, 1, 40);
      cycle := cycle + 40;
    }
    StrengthBeyond(history, cycle);
  }

  /** part_one: the signal strength of the program, `None` when a line fails to parse. */
  method PartOne(lines: seq<string>) returns (r: Option<int>)
    ensures r.Some? <==> ParseAll(lines, ParseInstruction).Some?
    ensures r.Some? ==> var h := Trace(ParseAll(lines, ParseInstruction).value, 1); r.value == Strength(h, |h|)
  {
    var instrs := ParseLines(lines, ParseInstruction);
    if instrs.None? {
      return None;
    }
    var history := RunProgram(instrs.value);
    var sum := SignalSum(history);
    return Some(sum);
  }

  // ---------------------------------------------------------------------
  // part_two.

  /** The pixel drawn at position `i`: lit when the sprite `x - 1 ..= x + 1` covers the column. */
  function Pixel(h: seq<int>, i: nat): char
    requires i < |h|
  {
    if h[i] - 1 <= i % 40 <= h[i] + 1 then '#' else '.'
  }

  /** The drawing loop over the history with 1 prepended: one pixel per value, and a line break
    * after every 40. */
  method Draw(history: seq<int>) returns (screen: string)
    ensures var h := [1] + history; |screen| == |h| + |h| / 40
    ensures var h := [1] + history; forall i :: 0 <= i < |h| ==> screen[i + i / 40] == Pixel(h, i)
    ensures var h := [1] + history; forall i :: 0 <= i < |h| && i % 40 == 39 ==> screen[i + i / 40 + 1] == '\n'
  {
    var h := [1] + history;
    screen := [];
    for i := 0 to |h|
      invariant |screen| == i + i / 40
      invariant forall j :: 0 <= j < i ==> screen[j + j / 40] == Pixel(h, j)
      invariant forall j :: 0 <= j < i && j % 40 == 39 ==> screen[j + j / 40 + 1] == '\n'
    {
      screen := screen + [Pixel(h, i)];
      if i % 40 == 39 {
        screen := screen + ['\n'];
      }
    }
  }

  /** part_two: returns the empty string, `None` where the source panics on a line; `screen` is
    * what it prints. */
  method PartTwo(lines: seq<string>) returns (output: Option<string>, screen: string)
    ensures output.Some? <==> ParseAll(lines, ParseInstruction).Some?
    ensures output.Some? ==> output.value == ""
    ensures output.Some? ==> var h := [1] + Trace(ParseAll(lines, ParseInstruction).value, 1);
      |screen| == |h| + |h| / 40 && forall i :: 0 <= i < |h| ==> screen[i + i / 40] == Pixel(h, i)
  {
    var instrs := ParseLines(lines, ParseInstruction);
    if instrs.None? {
      return None, [];
    }
    var history := RunProgram(instrs.value);
    screen := Draw(history);
    output := Some("");
  }
}
