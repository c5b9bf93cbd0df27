/** Day 21: monkeys that yell numbers or the result of an operation on two
  * other monkeys' numbers. Evaluation repeatedly sweeps a snapshot of the
  * monkey map, resolving every operation whose operands are known, until
  * `root` is no longer an operation; part two turns `root` into an equality
  * test and searches for the value of `humn` that makes it hold. */
module Day21 {
  import opened Wrappers
  import opened Text
  import opened Sets

  datatype Op =
    | Add(left: string, right: string)
    | Subtract(left: string, right: string)
    | Multiply(left: string, right: string)
    | Divide(left: string, right: string)
    | Equal(left: string, right: string)

  /** What a monkey currently holds; `Equality` is the source's `State::Equal`. */
  datatype State = Number(value: nat) | Operation(op: Op) | Equality(holds: bool)

  /** The source's panics (and its endless loop, `NoProgress`) as values. */
  datatype Failure =
    | MissingColon
    | MissingToken
    | UnknownOperation(token: string)
    | MissingRoot
    | MissingKey(key: string)
    | Underflow
    | DivisionByZero
    | EqualBelowRoot(key: string)
    | EqualInPartOne
    | UnknownState
    | RootUnresolved
    | NoProgress

  datatype Entry = Entry(key: string, state: State)

  // ---------------------------------------------------------------------
  // Parsing (`parse_input` and `parse_input_part_two`).

  /** The monkey name of a line: the trimmed text before the first colon. */
  function LineKey(line: string): string
  {
    Trim(Split(line, ':')[0])
  }

  /** One line `name: number` or `name: a op b`; in part two root's operator becomes `Equal`. */
  function ParseLine(line: string, partTwo: bool): (r: Result<Entry, Failure>)
    ensures r.Ok? ==> r.value.key == LineKey(line) && !r.value.state.Equality?
    ensures r.Ok? && r.value.state.Operation? && r.value.state.op.Equal? ==> partTwo && r.value.key == "root"
  {
    var parts := Split(line, ':');
    var key := Trim(parts[0]);
    if |parts| < 2 then Err(MissingColon)
    else
      var value := Trim(parts[1]);
      var n := ParseUnsigned(value, U64);
      if n.Some? then Ok(Entry(key, Number(n.value)))
      else
        var ws := Words(value);
        if |ws| < 3 then Err(MissingToken)
        else
          var left, token, right := ws[0], ws[1], ws[2];
          if partTwo && key == "root" then Ok(Entry(key, Operation(Equal(left, right))))
          else if token == "+" then Ok(Entry(key, Operation(Add(left, right))))
          else if token == "-" then Ok(Entry(key, Operation(Subtract(left, right))))
          else if token == "*" then Ok(Entry(key, Operation(Multiply(left, right))))
          else if token == "/" then Ok(Entry(key, Operation(Divide(left, right))))
          else Err(UnknownOperation(token))
  }

  /** In part two, root is an equality test whatever operator its line has, and
    * every other line parses exactly as in part one. */
  lemma RootBecomesEqual(line: string)
    ensures ParseLine(line, false).Ok? ==> var r := ParseLine(line, true);
      r.Ok? && r.value.key == ParseLine(line, false).value.key
      && (if r.value.key == "root" && ParseLine(line, false).value.state.Operation?
          then r.value.state.Operation? && r.value.state.op.Equal?
            && r.value.state.op.left == ParseLine(line, false).value.state.op.left
            && r.value.state.op.right == ParseLine(line, false).value.state.op.right
          else r.value.state == ParseLine(line, false).value.state)
  {
  }

  /** No monkey holds a verdict yet. */
  predicate NoVerdicts(m: map<string, State>)
  {
    forall k :: k in m ==> !m[k].Equality?
  }

  /** The map after inserting the lines in order; the first bad line is the error. */
  function ParseAll(lines: seq<string>, partTwo: bool): (r: Result<map<string, State>, Failure>)
    ensures r.Ok? ==> NoVerdicts(r.value)
    ensures r.Ok? ==> forall k :: k in r.value <==> exists i :: 0 <= i < |lines| && LineKey(lines[i]) == k
  {
    if lines == [] then Ok(map[])
    else
      var last := lines[|lines| - 1];
      var prev := ParseAll(lines[..|lines| - 1], partTwo);
      if prev.Err? then prev
      else
        var e := ParseLine(last, partTwo);
        if e.Err? then Err(e.error)
        else
          assert forall i :: 0 <= i < |lines| - 1 ==> lines[..|lines| - 1][i] == lines[i];
          Ok(prev.value[e.value.key := e.value.state])
  }

  /** Once a prefix fails, the whole input fails with the same error. */
  lemma {:induction false} ParseAllStops(lines: seq<string>, n: nat, partTwo: bool)
    requires n <= |lines| && ParseAll(lines[..n], partTwo).Err?
    ensures ParseAll(lines, partTwo) == ParseAll(lines[..n], partTwo)
    decreases |lines| - n
  {
    if n < |lines| {
      var longer := lines[..n + 1];
      assert longer[..n] == lines[..n];
      ParseAllStops(lines, n + 1, partTwo);
    } else {
      assert lines[..n] == lines;
    }
  }

  method ParseInput(lines: seq<string>, partTwo: bool) returns (r: Result<map<string, State>, Failure>)
    ensures r == ParseAll(lines, partTwo)
  {
    var m: map<string, State> := map[];
    for i := 0 to |lines|
      invariant ParseAll(lines[..i], partTwo) == Ok(m)
    {
      var e := ParseLine(lines[i], partTwo);
      ghost var next := lines[..i + 1];
      assert next[..i] == lines[..i] && next[i] == lines[i];
      if e.Err? {
        assert ParseAll(next, partTwo) == Err(e.error);
        assert ParseAll(lines, partTwo) == Err(e.error) by {
          ParseAllStops(lines, i + 1, partTwo);
        }
        return Err(e.error);
      }
      m := m[e.value.key := e.value.state];
      assert ParseAll(next, partTwo) == Ok(m);
    }
    assert lines[..|lines|] == lines;
    return Ok(m);
  }

  // ---------------------------------------------------------------------
  // One entry of a sweep.

  datatype Mode = PartOne | HumanSearch

  datatype Update = Keep | Write(state: State) | Abort | Fail(failure: Failure)

  /** The value an operation yields on known operands; `None` where u64
    * subtraction would underflow or the divisor is zero. */
  function Value(op: Op, a: nat, b: nat): (r: Option<State>)
    ensures r.Some? ==> !r.value.Operation?
    ensures r.Some? && r.value.Equality? ==> op.Equal? && (r.value.holds <==> a == b)
  {
    match op
    case Add(_, _) => Some(Number(a + b))
    case Subtract(_, _) => if a < b then None else Some(Number(a - b))
    case Multiply(_, _) => Some(Number(a * b))
    case Divide(_, _) => if b == 0 then None else Some(Number(a / b))
    case Equal(_, _) => Some(Equality(a == b))
  }

  /** Both operands of `op` are monkeys that already hold numbers. */
  predicate Known(op: Op, m: map<string, State>)
  {
    op.left in m && op.right in m && m[op.left].Number? && m[op.right].Number?
  }

  /** What the sweep does with `key`, whose snapshot value is `snap`, given the live map:
    * a missing operand is an `unwrap` panic, an unknown operand leaves the entry alone. */
  function EntryUpdate(mode: Mode, key: string, snap: State, live: map<string, State>): (u: Update)
    ensures snap.Number? ==> u == Keep
    ensures u.Write? ==> (snap.Operation? && Known(snap.op, live)
                          && Value(snap.op, live[snap.op.left].value, live[snap.op.right].value) == Some(u.state))
    ensures u.Abort? ==> mode == HumanSearch
    ensures mode == HumanSearch && snap.Operation? && Known(snap.op, live) ==>
      var a, b := live[snap.op.left].value, live[snap.op.right].value;
      ((snap.op.Subtract? && a < b) || (snap.op.Divide? && b != 0 && a % b != 0) ==> u == Abort)
  {
    match snap
    case Number(_) => Keep
    case Equality(_) => if mode == HumanSearch then Abort else Fail(UnknownState)
    case Operation(op) =>
      if mode == PartOne && op.Equal? then Fail(EqualInPartOne)
      else if op.left !in live then Fail(MissingKey(op.left))
      else if op.right !in live then Fail(MissingKey(op.right))
      else if !(live[op.left].Number? && live[op.right].Number?) then Keep
      else
        var a, b := live[op.left].value, live[op.right].value;
        match op
        case Add(_, _) => Write(Number(a + b))
        case Subtract(_, _) =>
          if a < b then (if mode == HumanSearch then Abort else Fail(Underflow))
          else Write(Number(a - b))
        case Multiply(_, _) => Write(Number(a * b))
        case Divide(_, _) =>
          if b == 0 then Fail(DivisionByZero)
          else if mode == HumanSearch && a % b != 0 then Abort
          else Write(Number(a / b))
        case Equal(_, _) =>
          if key != "root" then Fail(EqualBelowRoot(key)) else Write(Equality(a == b))
  }

  // ---------------------------------------------------------------------
  // One sweep over the snapshot, in the map's iteration order.

  datatype PassResult = Completed(m: map<string, State>) | PassAborted | PassFailed(failure: Failure)

  predicate Distinct(s: seq<string>)
  {
    forall i, j :: 0 <= i < j < |s| ==> s[i] != s[j]
  }

  /** The keys of `m`, each exactly once: a HashMap iteration order. */
  predicate Enumerates(order: seq<string>, m: map<string, State>)
  {
    Distinct(order) && (forall i :: 0 <= i < |order| ==> order[i] in m) && (forall k :: k in m ==> k in order)
  }

  /** The keys still to visit, whose live values still equal the snapshot. */
  predicate Pending(snap: map<string, State>, live: map<string, State>, rest: seq<string>)
  {
    Distinct(rest) && forall i :: 0 <= i < |rest| ==> rest[i] in snap && rest[i] in live && live[rest[i]] == snap[rest[i]]
  }

  /** Visits `rest` in order, reading operands from the live map. Every entry ends
    * either unchanged or turned from an operation into a non-operation. */
  function Pass(mode: Mode, snap: map<string, State>, live: map<string, State>, rest: seq<string>): (r: PassResult)
    requires Pending(snap, live, rest)
    ensures r.Completed? ==> (r.m.Keys == live.Keys
                              && forall k :: k in live ==> r.m[k] == live[k] || (live[k].Operation? && !r.m[k].Operation?))
    decreases |rest|
  {
    if rest == [] then Completed(live)
    else
      var k := rest[0];
      assert forall i :: 0 <= i < |rest| - 1 ==> rest[1..][i] == rest[i + 1];
      match EntryUpdate(mode, k, snap[k], live)
      case Keep => Pass(mode, snap, live, rest[1..])
      case Write(s) => Pass(mode, snap, live[k := s], rest[1..])
      case Abort => PassAborted
      case Fail(f) => PassFailed(f)
  }

  method RunPass(mode: Mode, snap: map<string, State>, order: seq<string>) returns (r: PassResult)
    requires Pending(snap, snap, order)
    ensures r == Pass(mode, snap, snap, order)
  {
    var live := snap;
    var i := 0;
    while i < |order|
      invariant 0 <= i <= |order|
      invariant Pending(snap, live, order[i..])
      invariant Pass(mode, snap, live, order[i..]) == Pass(mode, snap, snap, order)
    {
      var k := order[i];
      assert order[i..][0] == k && order[i..][1..] == order[i + 1..];
      match EntryUpdate(mode, k, snap[k], live) {
        case Keep =>
        case Write(s) =>
          live := live[k := s];
        case Abort =>
          return PassAborted;
        case Fail(f) =>
          return PassFailed(f);
      }
      i := i + 1;
    }
    return Completed(live);
  }

  // ---------------------------------------------------------------------
  // Repeated sweeps until root is settled.

  datatype Outcome = Settled(m: map<string, State>) | Aborted | Failed(failure: Failure) | Stalled

  function OpKeys(m: map<string, State>): set<string>
  {
    set k | k in m && m[k].Operation?
  }

  /** A sweep that changes anything resolves at least one operation. */
  lemma ShrinkOps(m: map<string, State>, m': map<string, State>)
    requires m'.Keys == m.Keys && m' != m
    requires forall k :: k in m ==> m'[k] == m[k] || (m[k].Operation? && !m'[k].Operation?)
    ensures |OpKeys(m')| < |OpKeys(m)|
  {
    var k :| k in m && m'[k] != m[k];
    assert OpKeys(m') <= OpKeys(m) - {k};
    SubsetCard(OpKeys(m'), OpKeys(m) - {k});
  }

  /** The outer loop: stops once root is not an operation, on an abort or a panic,
    * and reports `Stalled` where a sweep changes nothing (the source spins forever). */
  function Evaluate(mode: Mode, m: map<string, State>, order: seq<string>): (o: Outcome)
    requires "root" in m && Enumerates(order, m)
    ensures o.Settled? ==> o.m.Keys == m.Keys && !o.m["root"].Operation?
    decreases |OpKeys(m)|
  {
    if !m["root"].Operation? then Settled(m)
    else
      match Pass(mode, m, m, order)
      case PassAborted => Aborted
      case PassFailed(f) => Failed(f)
      case Completed(m') =>
        if m' == m then Stalled
        else
          ShrinkOps(m, m');
          Evaluate(mode, m', order)
  }

  method Settle(mode: Mode, m: map<string, State>, order: seq<string>) returns (o: Outcome)
    requires "root" in m && Enumerates(order, m)
    ensures o == Evaluate(mode, m, order)
  {
    var cur := m;
    while cur["root"].Operation?
      invariant "root" in cur && Enumerates(order, cur)
      invariant Evaluate(mode, cur, order) == Evaluate(mode, m, order)
      decreases |OpKeys(cur)|
    {
      var p := RunPass(mode, cur, order);
      match p {
        case PassAborted =>
          return Aborted;
        case PassFailed(f) =>
          return Failed(f);
        case Completed(next) =>
          if next == cur {
            return Stalled;
          }
          ShrinkOps(cur, next);
          cur := next;
      }
    }
    return Settled(cur);
  }

  // ---------------------------------------------------------------------
  // What evaluation computes.

  /** `s` is what the operation `s0` yields on the numbers its operands hold in `m`. */
  ghost predicate Resolved(s0: State, s: State, m: map<string, State>)
  {
    s0.Operation? && Known(s0.op, m) && Value(s0.op, m[s0.op.left].value, m[s0.op.right].value) == Some(s)
  }

  /** Every entry of `m` is either its original `m0` value or the honest result of
    * its original operation on the operands' values in `m`. */
  ghost predicate Consistent(m0: map<string, State>, m: map<string, State>)
  {
    m.Keys == m0.Keys && forall k :: k in m0 ==> m[k] == m0[k] || Resolved(m0[k], m[k], m)
  }

  lemma {:induction false} PassConsistent(mode: Mode, m0: map<string, State>, snap: map<string, State>,
                                          live: map<string, State>, rest: seq<string>)
    requires Pending(snap, live, rest) && Consistent(m0, live)
    ensures Pass(mode, snap, live, rest).Completed? ==> Consistent(m0, Pass(mode, snap, live, rest).m)
    decreases |rest|
  {
    if rest != [] {
      var k := rest[0];
      assert forall i :: 0 <= i < |rest| - 1 ==> rest[1..][i] == rest[i + 1];
      match EntryUpdate(mode, k, snap[k], live)
      case Keep =>
        PassConsistent(mode, m0, snap, live, rest[1..]);
      case Write(s) =>
        var live' := live[k := s];
        WriteConsistent(m0, live, k, s);
        PassConsistent(mode, m0, snap, live', rest[1..]);
      case Abort =>
      case Fail(_) =>
    }
  }

  /** Resolving one still-unresolved operation keeps the map consistent. */
  lemma WriteConsistent(m0: map<string, State>, live: map<string, State>, k: string, s: State)
    requires Consistent(m0, live) && k in live && live[k].Operation?
    requires Known(live[k].op, live) && Value(live[k].op, live[live[k].op.left].value, live[live[k].op.right].value) == Some(s)
    ensures Consistent(m0, live[k := s])
  {
    var live' := live[k := s];
    assert live[k] == m0[k];
    forall j | j in m0
      ensures live'[j] == m0[j] || Resolved(m0[j], live'[j], live')
    {
      if j != k && live[j] != m0[j] {
        assert Resolved(m0[j], live[j], live);
      }
    }
  }

  lemma {:induction false} EvaluateConsistent(mode: Mode, m0: map<string, State>, m: map<string, State>, order: seq<string>)
    requires "root" in m && Enumerates(order, m) && Consistent(m0, m)
    ensures Evaluate(mode, m, order).Settled? ==> Consistent(m0, Evaluate(mode, m, order).m)
    decreases |OpKeys(m)|
  {
    if m["root"].Operation? {
      PassConsistent(mode, m0, m, m, order);
      match Pass(mode, m, m, order)
      case Completed(m') =>
        if m' != m {
          ShrinkOps(m, m');
          EvaluateConsistent(mode, m0, m', order);
        }
      case PassAborted =>
      case PassFailed(_) =>
    }
  }

  // ---------------------------------------------------------------------
  // Part one.

  /** Root's number after evaluation in part-one mode. */
  function RootNumber(m: map<string, State>, order: seq<string>): Result<nat, Failure>
    requires Enumerates(order, m)
  {
    if "root" !in m then Err(MissingRoot)
    else
      match Evaluate(PartOne, m, order)
      case Settled(mf) => if mf["root"].Number? then Ok(mf["root"].value) else Err(RootUnresolved)
      case Failed(f) => Err(f)
      case Aborted => Err(RootUnresolved)
      case Stalled => Err(NoProgress)
  }

  method SolvePartOne(m: map<string, State>, order: seq<string>) returns (r: Result<nat, Failure>)
    requires Enumerates(order, m)
    ensures r == RootNumber(m, order)
  {
    if "root" !in m {
      return Err(MissingRoot);
    }
    var o := Settle(PartOne, m, order);
    match o {
      case Settled(mf) =>
        if mf["root"].Number? {
          return Ok(mf["root"].value);
        }
        return Err(RootUnresolved);
      case Failed(f) =>
        return Err(f);
      case Aborted =>
        return Err(RootUnresolved);
      case Stalled =>
        return Err(NoProgress);
    }
  }

  /** Part one's answer is honest: root ends up holding the number its operation
    * yields, and every monkey resolved on the way holds its operation's value. */
  lemma PartOneHonest(m: map<string, State>, order: seq<string>)
    requires Enumerates(order, m) && NoVerdicts(m)
    requires RootNumber(m, order).Ok?
    ensures Evaluate(PartOne, m, order).Settled?
    ensures var mf := Evaluate(PartOne, m, order).m;
      Consistent(m, mf) && mf["root"] == Number(RootNumber(m, order).value)
  {
    EvaluateConsistent(PartOne, m, m, order);
  }

  // ---------------------------------------------------------------------
  // Part two.

  datatype Verdict = Accepted(h: nat) | Rejected | Panicked(failure: Failure) | Loops

  /** The map with `humn` bound to `h`. */
  function Bind(m: map<string, State>, h: nat): map<string, State>
  {
    m["humn" := Number(h)]
  }

  /** `find_human_value`: Ok(h) exactly when root settles as a true equality;
    * an abort leaves root an operation, which is an `Err`. */
  function HumanVerdict(m: map<string, State>, h: nat, order: seq<string>): Verdict
    requires Enumerates(order, Bind(m, h))
  {
    var m1 := Bind(m, h);
    if "root" !in m1 then Panicked(MissingRoot)
    else
      match Evaluate(HumanSearch, m1, order)
      case Settled(mf) => if mf["root"] == Equality(true) then Accepted(h) else Rejected
      case Aborted => Rejected
      case Failed(f) => Panicked(f)
      case Stalled => Loops
  }

  method FindHumanValue(m: map<string, State>, h: nat, order: seq<string>) returns (v: Verdict)
    requires Enumerates(order, Bind(m, h))
    ensures v == HumanVerdict(m, h, order)
  {
    var m1 := m["humn" := Number(h)];
    if "root" !in m1 {
      return Panicked(MissingRoot);
    }
    var o := Settle(HumanSearch, m1, order);
    match o {
      case Settled(mf) =>
        if mf["root"] == Equality(true) {
          return Accepted(h);
        }
        return Rejected;
      case Aborted =>
        return Rejected;
      case Failed(f) =>
        return Panicked(f);
      case Stalled =>
        return Loops;
    }
  }

  /** An accepted `h` really balances root: root was an equality test whose two
    * operands settle to the same number, with `humn` still bound to `h` and
    * every resolved monkey holding its operation's value. */
  lemma AcceptedBalances(m: map<string, State>, h: nat, order: seq<string>)
    requires Enumerates(order, Bind(m, h)) && NoVerdicts(m)
    requires HumanVerdict(m, h, order) == Accepted(h)
    ensures "root" in m && m["root"].Operation? && m["root"].op.Equal?
    ensures var mf := Evaluate(HumanSearch, Bind(m, h), order).m;
      var op := m["root"].op;
      Consistent(Bind(m, h), mf) && mf["humn"] == Number(h)
      && op.left in mf && op.right in mf && mf[op.left].Number? && mf[op.left] == mf[op.right]
  {
    var m1 := Bind(m, h);
    EvaluateConsistent(HumanSearch, m1, m1, order);
  }

  datatype Search = Answer(h: nat) | Exhausted | Crashed(at: nat, failure: Failure) | Hangs(at: nat)

  /** `part_two` tries h = 1, 2, 3, ... and returns the first accepted value; the source
    * has no upper bound, so the model stops after `limit` candidates. */
  method PartTwo(m: map<string, State>, order: seq<string>, limit: nat) returns (r: Search)
    requires forall h: nat :: Enumerates(order, Bind(m, h))
    ensures r.Answer? ==> (1 <= r.h <= limit && HumanVerdict(m, r.h, order) == Accepted(r.h)
                           && forall g: nat :: 1 <= g < r.h ==> HumanVerdict(m, g, order) == Rejected)
    ensures r.Exhausted? ==> forall g: nat :: 1 <= g <= limit ==> HumanVerdict(m, g, order) == Rejected
    ensures r.Crashed? ==> (1 <= r.at <= limit && HumanVerdict(m, r.at, order) == Panicked(r.failure)
                            && forall g: nat :: 1 <= g < r.at ==> HumanVerdict(m, g, order) == Rejected)
    ensures r.Hangs? ==> (1 <= r.at <= limit && HumanVerdict(m, r.at, order) == Loops
                          && forall g: nat :: 1 <= g < r.at ==> HumanVerdict(m, g, order) == Rejected)
  {
    var h: nat := 1;
    while h <= limit
      invariant 1 <= h <= limit + 1
      invariant forall g: nat :: 1 <= g < h ==> HumanVerdict(m, g, order) == Rejected
    {
      var v := FindHumanValue(m, h, order);
      match v {
        case Accepted(_) =>
          return Answer(h);
        case Rejected =>
        case Panicked(f) =>
          return Crashed(h, f);
        case Loops =>
          return Hangs(h);
      }
      h := h + 1;
    }
    return Exhausted;
  }
}
