/**
 * Day 11: monkeys pass items around. Each monkey inspects the items it holds front
 * to back, computes a new worry level with its operation, and throws the item to one
 * of two other monkeys depending on whether the new worry level is divisible by its
 * test number. Part one divides worry by three after each inspection; part two keeps
 * worry levels small by reducing them modulo the product of all test numbers.
 */
module Day11 {
  import opened Wrappers
  import opened Modular
  import Text

  datatype Operation = Add(value: nat) | Multiply(value: nat) | Square

  /** The fields of a monkey that never change during the game. */
  datatype Rule = Rule(operation: Operation, test: nat, onTrue: nat, onFalse: nat)

  /** The fields of a monkey that its turns change: its queue and how often it inspected. */
  datatype MonkeyState = MonkeyState(items: seq<nat>, inspections: nat)

  /** A monkey as read from the input, before the game starts. */
  datatype MonkeyNotes = MonkeyNotes(items: seq<nat>, rule: Rule)

  /** Where an inspected item goes, and with which worry level. */
  datatype Throw = Throw(target: nat, worry: nat)

  /**
   * How the worry level is kept in check: part one's division by three, part two's
   * reduction modulo a number, and, as the reference part two is compared with, no
   * reduction at all.
   */
  datatype Mode = Relief | NoRelief(modulo: nat) | Unreduced

  predicate ValidMode(mode: Mode)
  {
    mode.NoRelief? ==> mode.modulo > 0
  }

  // ---------------------------------------------------------------------
  // Worry levels.

  /** The worry level after the operation, before any relief. */
  function Apply(op: Operation, item: nat): nat
  {
    match op
    case Add(v) => item + v
    case Multiply(v) => item * v
    case Square => item * item
  }

  /** Part one's worry: the operation, then division by three rounded down. */
  function CalculateWorry(op: Operation, item: nat): (r: nat)
    ensures 3 * r <= Apply(op, item) < 3 * r + 3
  {
    Apply(op, item) / 3
  }

  /** Part two's worry: the operation reduced modulo `modulo`. */
  function CalculateWorryNoRelief(op: Operation, item: nat, modulo: nat): (r: nat)
    requires modulo > 0
    ensures r < modulo
    ensures r % modulo == Apply(op, item) % modulo
  {
    SmallMod(Apply(op, item) % modulo, modulo);
    Apply(op, item) % modulo
  }

  function NewWorry(op: Operation, item: nat, mode: Mode): nat
    requires ValidMode(mode)
  {
    match mode
    case Relief => CalculateWorry(op, item)
    case NoRelief(m) => CalculateWorryNoRelief(op, item, m)
    case Unreduced => Apply(op, item)
  }

  /** One inspection: the new worry level and the monkey it is thrown to. */
  function Inspect(rule: Rule, item: nat, mode: Mode): (t: Throw)
    requires rule.test > 0 && ValidMode(mode)
    ensures t.worry == NewWorry(rule.operation, item, mode)
    ensures t.target == rule.onTrue || t.target == rule.onFalse
    ensures t.worry % rule.test == 0 ==> t.target == rule.onTrue
    ensures t.worry % rule.test != 0 ==> t.target == rule.onFalse
  {
    var w := NewWorry(rule.operation, item, mode);
    if w % rule.test == 0 then Throw(rule.onTrue, w) else Throw(rule.onFalse, w)
  }

  // ---------------------------------------------------------------------
  // Reduction modulo a multiple of every test keeps every decision.

  lemma AddMod(a: int, b: int, m: int)
    requires m > 0
    ensures (a + b) % m == (a % m + b % m) % m
  {
    var qa, ra := a / m, a % m;
    var qb, rb := b / m, b % m;
    assert a + b == (ra + rb) + (qa + qb) * m;
    ModShift(ra + rb, qa + qb, m);
  }

  lemma MulModLeft(a: int, b: int, m: int)
    requires m > 0
    ensures (a * b) % m == ((a % m) * b) % m
  {
    var q, r := a / m, a % m;
    assert a == r + q * m;
    assert a * b == (r + q * m) * b == r * b + (q * b) * m;
    ModShift(r * b, q * b, m);
  }

  lemma MulMod(a: int, b: int, m: int)
    requires m > 0
    ensures (a * b) % m == ((a % m) * (b % m)) % m
  {
    MulModLeft(a, b, m);
    MulModLeft(b, a % m, m);
    assert (a % m) * b == b * (a % m);
    assert (b % m) * (a % m) == (a % m) * (b % m);
  }

  /** Items that agree modulo m still agree modulo m after any operation. */
  lemma ApplyCongruent(op: Operation, a: nat, b: nat, m: nat)
    requires m > 0 && a % m == b % m
    ensures Apply(op, a) % m == Apply(op, b) % m
  {
    match op
    case Add(v) =>
      AddMod(a, v, m);
      AddMod(b, v, m);
    case Multiply(v) =>
      MulMod(a, v, m);
      MulMod(b, v, m);
    case Square =>
      MulMod(a, a, m);
      MulMod(b, b, m);
  }

  /** Reducing modulo a multiple of d does not change the remainder modulo d. */
  lemma ModOfMultiple(x: int, m: int, d: int)
    requires d > 0 && m > 0 && m % d == 0
    ensures (x % m) % d == x % d
  {
    var q, r := x / m, x % m;
    var k := m / d;
    assert m == k * d;
    assert x == q * m + r;
    assert q * m == q * (k * d) == (q * k) * d;
    ModShift(r, q * k, d);
  }

  /** Every monkey's test divides m. */
  predicate DividesAll(rules: seq<Rule>, m: nat)
  {
    forall k :: 0 <= k < |rules| ==> rules[k].test > 0 && m % rules[k].test == 0
  }

  /**
   * With part two's reduction, every inspection throws to the same monkey as it would
   * with unbounded worry levels, and the two worry levels stay congruent.
   */
  lemma InspectAgree(rule: Rule, a: nat, b: nat, m: nat)
    requires rule.test > 0 && m > 0 && m % rule.test == 0 && a % m == b % m
    ensures Inspect(rule, a, NoRelief(m)).target == Inspect(rule, b, Unreduced).target
    ensures Inspect(rule, a, NoRelief(m)).worry % m == Inspect(rule, b, Unreduced).worry % m
  {
    var w1 := Apply(rule.operation, a) % m;
    var w2 := Apply(rule.operation, b);
    ApplyCongruent(rule.operation, a, b, m);
    assert w1 == w2 % m;
    SmallMod(w1, m);
    ModOfMultiple(w2, m, rule.test);
  }

  /** Part two's worry is congruent to the unreduced one modulo every test number. */
  lemma NoReliefKeepsTests(op: Operation, item: nat, modulo: nat, d: nat)
    requires modulo > 0 && d > 0 && modulo % d == 0
    ensures CalculateWorryNoRelief(op, item, modulo) % d == Apply(op, item) % d
  {
    ModOfMultiple(Apply(op, item), modulo, d);
  }

  function Tests(rules: seq<Rule>): (r: seq<nat>)
    ensures |r| == |rules| && forall k :: 0 <= k < |rules| ==> r[k] == rules[k].test
  {
    seq(|rules|, k requires 0 <= k < |rules| => rules[k].test)
  }

  function Product(xs: seq<nat>): nat
  {
    if xs == [] then 1 else xs[0] * Product(xs[1..])
  }

  /** The product of positive numbers is a positive multiple of each of them. */
  lemma {:induction false} ProductDivides(xs: seq<nat>)
    requires forall k :: 0 <= k < |xs| ==> xs[k] > 0
    ensures Product(xs) > 0
    ensures forall k :: 0 <= k < |xs| ==> Product(xs) % xs[k] == 0
  {
    if xs != [] {
      ProductDivides(xs[1..]);
      var p := Product(xs[1..]);
      assert Product(xs) == xs[0] * p;
      MulAtLeast(xs[0], p);
      forall k | 0 <= k < |xs|
        ensures Product(xs) % xs[k] == 0
      {
        if k == 0 {
          ModShift(0, p, xs[0]);
        } else {
          assert xs[1..][k - 1] == xs[k];
          var c := p / xs[k];
          assert p == c * xs[k];
          assert xs[0] * p == (xs[0] * c) * xs[k];
          ModShift(0, xs[0] * c, xs[k]);
        }
      }
    }
  }

  // ---------------------------------------------------------------------
  // The game on values.

  predicate ValidRule(rule: Rule, k: nat, n: nat)
  {
    rule.test > 0 && rule.onTrue < n && rule.onFalse < n && rule.onTrue != k && rule.onFalse != k
  }

  /**
   * What the source relies on: a test of zero would divide by zero, a missing target
   * would fail its lookup, and a monkey throwing to itself would borrow itself twice.
   */
  predicate Valid(rules: seq<Rule>)
  {
    forall k :: 0 <= k < |rules| ==> ValidRule(rules[k], k, |rules|)
  }

  /** Monkey i inspects the item at the front of its queue and throws it. */
  function Step(rules: seq<Rule>, s: seq<MonkeyState>, i: nat, mode: Mode): (r: seq<MonkeyState>)
    requires Valid(rules) && |s| == |rules| && i < |s| && s[i].items != [] && ValidMode(mode)
    ensures |r| == |s|
    ensures r[i].items == s[i].items[1..] && r[i].inspections == s[i].inspections + 1
    ensures forall k :: 0 <= k < |s| && k != i ==> r[k].inspections == s[k].inspections
  {
    var t := Inspect(rules[i], s[i].items[0], mode);
    var popped := s[i := MonkeyState(s[i].items[1..], s[i].inspections + 1)];
    popped[t.target := MonkeyState(popped[t.target].items + [t.worry], popped[t.target].inspections)]
  }

  /** Step spelt out: the popped state with the item pushed onto the target's queue. */
  lemma StepIs(rules: seq<Rule>, s: seq<MonkeyState>, i: nat, mode: Mode,
               popped: seq<MonkeyState>, pushed: MonkeyState)
    requires Valid(rules) && |s| == |rules| && i < |s| && s[i].items != [] && ValidMode(mode)
    requires popped == s[i := MonkeyState(s[i].items[1..], s[i].inspections + 1)]
    requires var t := Inspect(rules[i], s[i].items[0], mode);
             pushed == MonkeyState(popped[t.target].items + [t.worry], popped[t.target].inspections)
    ensures Step(rules, s, i, mode) == popped[Inspect(rules[i], s[i].items[0], mode).target := pushed]
  {
  }

  /**
   * The first n inspections of monkey i's turn: they take the first n items off its
   * queue, count n inspections for it and none for anybody else.
   */
  function Steps(rules: seq<Rule>, s: seq<MonkeyState>, i: nat, mode: Mode, n: nat): (r: seq<MonkeyState>)
    requires Valid(rules) && |s| == |rules| && i < |s| && n <= |s[i].items| && ValidMode(mode)
    ensures |r| == |s|
    ensures r[i].items == s[i].items[n..] && r[i].inspections == s[i].inspections + n
    ensures forall k :: 0 <= k < |s| && k != i ==> r[k].inspections == s[k].inspections
    decreases n
  {
    if n == 0 then s
    else
      var before := Steps(rules, s, i, mode, n - 1);
      assert before[i].items[1..] == s[i].items[n..];
      Step(rules, before, i, mode)
  }

  /** Monkey i's turn: it inspects as many items as it held when the turn began. */
  function Turn(rules: seq<Rule>, s: seq<MonkeyState>, i: nat, mode: Mode): (r: seq<MonkeyState>)
    requires Valid(rules) && |s| == |rules| && i < |s| && ValidMode(mode)
    ensures |r| == |s|
  {
    Steps(rules, s, i, mode, |s[i].items|)
  }

  /** The turns of monkeys i, i+1, ... in order. */
  function RoundFrom(rules: seq<Rule>, s: seq<MonkeyState>, mode: Mode, i: nat): (r: seq<MonkeyState>)
    requires Valid(rules) && |s| == |rules| && i <= |s| && ValidMode(mode)
    ensures |r| == |s|
    decreases |s| - i
  {
    if i == |s| then s else RoundFrom(rules, Turn(rules, s, i, mode), mode, i + 1)
  }

  function Round(rules: seq<Rule>, s: seq<MonkeyState>, mode: Mode): (r: seq<MonkeyState>)
    requires Valid(rules) && |s| == |rules| && ValidMode(mode)
    ensures |r| == |s|
  {
    RoundFrom(rules, s, mode, 0)
  }

  function Rounds(rules: seq<Rule>, s: seq<MonkeyState>, mode: Mode, n: nat): (r: seq<MonkeyState>)
    requires Valid(rules) && |s| == |rules| && ValidMode(mode)
    ensures |r| == |s|
    decreases n
  {
    if n == 0 then s else Round(rules, Rounds(rules, s, mode, n - 1), mode)
  }

  /**
   * An inspection takes the front item of monkey i and appends it, with its new worry,
   * to the back of the true-branch monkey's queue exactly when the new worry is
   * divisible by the test, and to the false-branch monkey's otherwise; nobody else's
   * queue changes.
   */
  lemma StepThrows(rules: seq<Rule>, s: seq<MonkeyState>, i: nat, mode: Mode)
    requires Valid(rules) && |s| == |rules| && i < |s| && s[i].items != [] && ValidMode(mode)
    ensures var w := NewWorry(rules[i].operation, s[i].items[0], mode);
            var dest := if w % rules[i].test == 0 then rules[i].onTrue else rules[i].onFalse;
            var r := Step(rules, s, i, mode);
            && r[dest].items == s[dest].items + [w]
            && forall k :: 0 <= k < |s| && k != i && k != dest ==> r[k] == s[k]
  {
  }

  /**
   * A turn empties the monkey's queue, counts one inspection per item it held, and
   * leaves every other monkey's count alone.
   */
  lemma TurnDrains(rules: seq<Rule>, s: seq<MonkeyState>, i: nat, mode: Mode)
    requires Valid(rules) && |s| == |rules| && i < |s| && ValidMode(mode)
    ensures Turn(rules, s, i, mode)[i].items == []
    ensures Turn(rules, s, i, mode)[i].inspections == s[i].inspections + |s[i].items|
    ensures forall k :: 0 <= k < |s| && k != i ==> Turn(rules, s, i, mode)[k].inspections == s[k].inspections
  {
  }

  // ---------------------------------------------------------------------
  // No item is lost or created.

  /** The number of items held by all monkeys together. */
  function Total(s: seq<MonkeyState>): nat
  {
    if s == [] then 0 else |s[0].items| + Total(s[1..])
  }

  lemma {:induction false} TotalUpdate(s: seq<MonkeyState>, k: nat, x: MonkeyState)
    requires k < |s|
    ensures Total(s[k := x]) == Total(s) - |s[k].items| + |x.items|
  {
    if k == 0 {
      assert s[k := x][1..] == s[1..];
    } else {
      TotalUpdate(s[1..], k - 1, x);
      assert s[k := x][1..] == s[1..][k - 1 := x];
    }
  }

  lemma {:induction false} StepKeepsTotal(rules: seq<Rule>, s: seq<MonkeyState>, i: nat, mode: Mode)
    requires Valid(rules) && |s| == |rules| && i < |s| && s[i].items != [] && ValidMode(mode)
    ensures Total(Step(rules, s, i, mode)) == Total(s)
  {
    var t := Inspect(rules[i], s[i].items[0], mode);
    var popped := s[i := MonkeyState(s[i].items[1..], s[i].inspections + 1)];
    TotalUpdate(s, i, popped[i]);
    TotalUpdate(popped, t.target, MonkeyState(popped[t.target].items + [t.worry], popped[t.target].inspections));
  }

  lemma {:induction false} StepsKeepTotal(rules: seq<Rule>, s: seq<MonkeyState>, i: nat, mode: Mode, n: nat)
    requires Valid(rules) && |s| == |rules| && i < |s| && n <= |s[i].items| && ValidMode(mode)
    ensures Total(Steps(rules, s, i, mode, n)) == Total(s)
    decreases n
  {
    if n > 0 {
      StepsKeepTotal(rules, s, i, mode, n - 1);
      StepKeepsTotal(rules, Steps(rules, s, i, mode, n - 1), i, mode);
    }
  }

  lemma {:induction false} RoundFromKeepsTotal(rules: seq<Rule>, s: seq<MonkeyState>, mode: Mode, i: nat)
    requires Valid(rules) && |s| == |rules| && i <= |s| && ValidMode(mode)
    ensures Total(RoundFrom(rules, s, mode, i)) == Total(s)
    decreases |s| - i
  {
    if i < |s| {
      StepsKeepTotal(rules, s, i, mode, |s[i].items|);
      RoundFromKeepsTotal(rules, Turn(rules, s, i, mode), mode, i + 1);
    }
  }

  /** However many rounds are played, the monkeys hold as many items as at the start. */
  lemma {:induction false} RoundsKeepTotal(rules: seq<Rule>, s: seq<MonkeyState>, mode: Mode, n: nat)
    requires Valid(rules) && |s| == |rules| && ValidMode(mode)
    ensures Total(Rounds(rules, s, mode, n)) == Total(s)
    decreases n
  {
    if n > 0 {
      RoundsKeepTotal(rules, s, mode, n - 1);
      RoundFromKeepsTotal(rules, Rounds(rules, s, mode, n - 1), mode, 0);
    }
  }

  // ---------------------------------------------------------------------
  // Part two's reduction against unbounded worry levels.

  predicate ItemsCongruent(xs: seq<nat>, ys: seq<nat>, m: nat)
    requires m > 0
  {
    |xs| == |ys| && forall j :: 0 <= j < |xs| ==> xs[j] % m == ys[j] % m
  }

  /** Same counts, same queue lengths, and items that agree modulo m. */
  predicate Congruent(s: seq<MonkeyState>, t: seq<MonkeyState>, m: nat)
    requires m > 0
  {
    |s| == |t| &&
    forall k :: 0 <= k < |s| ==>
      s[k].inspections == t[k].inspections && ItemsCongruent(s[k].items, t[k].items, m)
  }

  lemma CongruentTail(xs: seq<nat>, ys: seq<nat>, m: nat)
    requires m > 0 && ItemsCongruent(xs, ys, m) && xs != []
    ensures ItemsCongruent(xs[1..], ys[1..], m)
  {
    assert forall j :: 0 <= j < |xs| - 1 ==> xs[1..][j] == xs[j + 1] && ys[1..][j] == ys[j + 1];
  }

  lemma CongruentPush(xs: seq<nat>, ys: seq<nat>, x: nat, y: nat, m: nat)
    requires m > 0 && ItemsCongruent(xs, ys, m) && x % m == y % m
    ensures ItemsCongruent(xs + [x], ys + [y], m)
  {
    assert forall j :: 0 <= j < |xs| ==> (xs + [x])[j] == xs[j] && (ys + [y])[j] == ys[j];
  }

  lemma StepAgree(rules: seq<Rule>, s: seq<MonkeyState>, u: seq<MonkeyState>, i: nat, m: nat)
    requires Valid(rules) && |s| == |rules| && i < |s| && s[i].items != []
    requires m > 0 && DividesAll(rules, m) && Congruent(s, u, m)
    ensures u[i].items != []
    ensures Congruent(Step(rules, s, i, NoRelief(m)), Step(rules, u, i, Unreduced), m)
  {
    var a, b := s[i].items[0], u[i].items[0];
    InspectAgree(rules[i], a, b, m);
    var t1 := Inspect(rules[i], a, NoRelief(m));
    var t2 := Inspect(rules[i], b, Unreduced);
    var r1 := Step(rules, s, i, NoRelief(m));
    var r2 := Step(rules, u, i, Unreduced);
    CongruentTail(s[i].items, u[i].items, m);
    CongruentPush(s[t1.target].items, u[t1.target].items, t1.worry, t2.worry, m);
    forall k | 0 <= k < |r1|
      ensures r1[k].inspections == r2[k].inspections && ItemsCongruent(r1[k].items, r2[k].items, m)
    {
      if k == t1.target {
        assert r1[k].items == s[k].items + [t1.worry];
        assert r2[k].items == u[k].items + [t2.worry];
      }
    }
  }

  lemma {:induction false} StepsAgree(rules: seq<Rule>, s: seq<MonkeyState>, u: seq<MonkeyState>, i: nat, m: nat, n: nat)
    requires Valid(rules) && |s| == |rules| && i < |s| && n <= |s[i].items|
    requires m > 0 && DividesAll(rules, m) && Congruent(s, u, m)
    ensures n <= |u[i].items|
    ensures Congruent(Steps(rules, s, i, NoRelief(m), n), Steps(rules, u, i, Unreduced, n), m)
    decreases n
  {
    if n > 0 {
      StepsAgree(rules, s, u, i, m, n - 1);
      StepAgree(rules, Steps(rules, s, i, NoRelief(m), n - 1), Steps(rules, u, i, Unreduced, n - 1), i, m);
    }
  }

  lemma {:induction false} RoundFromAgree(rules: seq<Rule>, s: seq<MonkeyState>, u: seq<MonkeyState>, m: nat, i: nat)
    requires Valid(rules) && |s| == |rules| && i <= |s|
    requires m > 0 && DividesAll(rules, m) && Congruent(s, u, m)
    ensures Congruent(RoundFrom(rules, s, NoRelief(m), i), RoundFrom(rules, u, Unreduced, i), m)
    decreases |s| - i
  {
    if i < |s| {
      StepsAgree(rules, s, u, i, m, |s[i].items|);
      RoundFromAgree(rules, Turn(rules, s, i, NoRelief(m)), Turn(rules, u, i, Unreduced), m, i + 1);
    }
  }

  /**
   * Playing with part two's reduction modulo a common multiple of the tests gives the
   * same inspection counts and queue lengths as playing with unbounded worry levels.
   */
  lemma {:induction false} RoundsAgree(rules: seq<Rule>, s: seq<MonkeyState>, m: nat, n: nat)
    requires Valid(rules) && |s| == |rules|
    requires m > 0 && DividesAll(rules, m)
    ensures Congruent(Rounds(rules, s, NoRelief(m), n), Rounds(rules, s, Unreduced, n), m)
    decreases n
  {
    if n == 0 {
      assert forall k :: 0 <= k < |s| ==> ItemsCongruent(s[k].items, s[k].items, m);
    } else {
      RoundsAgree(rules, s, m, n - 1);
      RoundFromAgree(rules, Rounds(rules, s, NoRelief(m), n - 1), Rounds(rules, s, Unreduced, n - 1), m, 0);
    }
  }

  // ---------------------------------------------------------------------
  // The answer: the product of the two largest inspection counts.

  function Counts(s: seq<MonkeyState>): (r: seq<nat>)
    ensures |r| == |s| && forall k :: 0 <= k < |s| ==> r[k] == s[k].inspections
  {
    seq(|s|, k requires 0 <= k < |s| => s[k].inspections)
  }

  /**
   * The positions of the two largest counts, larger first: two different monkeys, and
   * no other monkey counted more than the second of them.
   */
  function TopTwo(c: seq<nat>): (r: (nat, nat))
    requires |c| >= 2
    ensures r.0 < |c| && r.1 < |c| && r.0 != r.1 && c[r.1] <= c[r.0]
    ensures forall l :: 0 <= l < |c| && l != r.0 && l != r.1 ==> c[l] <= c[r.1]
  {
    if |c| == 2 then
      if c[0] >= c[1] then (0, 1) else (1, 0)
    else
      var last := |c| - 1;
      var (j, k) := TopTwo(c[..last]);
      assert c[j] == c[..last][j] && c[k] == c[..last][k];
      assert forall l :: 0 <= l < last ==> c[l] == c[..last][l];
      if c[last] >= c[j] then (last, j)
      else if c[last] >= c[k] then (j, last)
      else (j, k)
  }

  /** Fewer than two monkeys make the source's slice of the top two fail. */
  function MonkeyBusiness(s: seq<MonkeyState>): Option<nat>
  {
    if |s| < 2 then None
    else
      var c := Counts(s);
      var top := TopTwo(c);
      Some(c[top.0] * c[top.1])
  }

  /** Part two's answer is the one unbounded worry levels would give. */
  lemma BusinessAgree(rules: seq<Rule>, s: seq<MonkeyState>, m: nat, n: nat)
    requires Valid(rules) && |s| == |rules|
    requires m > 0 && DividesAll(rules, m)
    ensures MonkeyBusiness(Rounds(rules, s, NoRelief(m), n)) == MonkeyBusiness(Rounds(rules, s, Unreduced, n))
  {
    var a, b := Rounds(rules, s, NoRelief(m), n), Rounds(rules, s, Unreduced, n);
    RoundsAgree(rules, s, m, n);
    assert Counts(a) == Counts(b);
  }

  // ---------------------------------------------------------------------
  // Reading an operation ("new = old * 19").

  /**
   * The last two words decide: "old" after "*" squares, a number after "+" or "*" adds
   * or multiplies, and anything else is an error (including "old" after "+").
   */
  function ParseOperation(s: string): (r: Result<Operation, string>)
  {
    var words := Text.Split(s, ' ');
    if |words| < 2 then Err("invalid operation")
    else
      var last, sign := words[|words| - 1], words[|words| - 2];
      if last == "old" && sign == "*" then Ok(Square)
      else if sign == "+" || sign == "*" then
        match Text.ParseUnsigned(last, Text.U64)
        case None => Err("not a number")
        case Some(v) => if sign == "+" then Ok(Add(v)) else Ok(Multiply(v))
      else Err("invalid operation")
  }

  /** The words of an operation's text: "new = old", the sign and the operand. */
  function OperationWords(op: Operation): seq<string>
  {
    match op
    case Add(v) => ["new", "=", "old", "+", Text.Decimal(v)]
    case Multiply(v) => ["new", "=", "old", "*", Text.Decimal(v)]
    case Square => ["new", "=", "old", "*", "old"]
  }

  function OperationText(op: Operation): string
  {
    Text.Join(OperationWords(op), ' ')
  }

  lemma SplitOperationText(op: Operation)
    ensures Text.Split(OperationText(op), ' ') == OperationWords(op)
  {
    var words := OperationWords(op);
    forall i | 0 <= i < |words|
      ensures ' ' !in words[i]
    {
      if i == 4 && !op.Square? {
        assert Text.AllDigits(words[4]);
      }
    }
    Text.SplitJoin(words, ' ');
  }

  /** Every operation with a 64-bit operand is read back from its text. */
  lemma ParseOperationText(op: Operation)
    requires !op.Square? ==> op.value < Text.U64
    ensures ParseOperation(OperationText(op)) == Ok(op)
  {
    SplitOperationText(op);
    if !op.Square? {
      var arg := Text.Decimal(op.value);
      Text.DecimalRoundTrip(op.value, Text.U64);
      assert arg != "old" by {
        assert Text.AllDigits(arg);
        assert !Text.IsDigit('o');
      }
    }
  }

  // ---------------------------------------------------------------------
  // The game as the source plays it, on monkey objects.

  class Monkey {
    const operation: Operation
    const test: nat
    const onTrue: nat
    const onFalse: nat
    var items: seq<nat>
    var inspections: nat

    constructor (notes: MonkeyNotes)
      ensures Behaviour() == notes.rule && items == notes.items && inspections == 0
    {
      operation := notes.rule.operation;
      test := notes.rule.test;
      onTrue := notes.rule.onTrue;
      onFalse := notes.rule.onFalse;
      items := notes.items;
      inspections := 0;
    }

    function Behaviour(): Rule
    {
      Rule(operation, test, onTrue, onFalse)
    }

    function State(): MonkeyState
      reads this
    {
      MonkeyState(items, inspections)
    }

    /** Counts the inspection and says where the item goes, with part one's relief. */
    method InspectItem(item: nat) returns (t: Throw)
      requires test > 0
      modifies this
      ensures items == old(items) && inspections == old(inspections) + 1
      ensures t == Inspect(Behaviour(), item, Relief)
    {
      inspections := inspections + 1;
      var w := CalculateWorry(operation, item);
      if w % test == 0 {
        t := Throw(onTrue, w);
      } else {
        t := Throw(onFalse, w);
      }
    }

    /** The same with part two's reduction modulo `modulo`. */
    method InspectItemNoRelief(item: nat, modulo: nat) returns (t: Throw)
      requires test > 0 && modulo > 0
      modifies this
      ensures items == old(items) && inspections == old(inspections) + 1
      ensures t == Inspect(Behaviour(), item, NoRelief(modulo))
    {
      inspections := inspections + 1;
      var w := CalculateWorryNoRelief(operation, item, modulo);
      if w % test == 0 {
        t := Throw(onTrue, w);
      } else {
        t := Throw(onFalse, w);
      }
    }
  }

  function RulesOf(ms: seq<Monkey>): (r: seq<Rule>)
    ensures |r| == |ms| && forall k :: 0 <= k < |ms| ==> r[k] == ms[k].Behaviour()
  {
    seq(|ms|, k requires 0 <= k < |ms| => ms[k].Behaviour())
  }

  function Snapshot(ms: seq<Monkey>): (r: seq<MonkeyState>)
    reads set m | m in ms
    ensures |r| == |ms| && forall k :: 0 <= k < |ms| ==> r[k] == ms[k].State()
  {
    if ms == [] then [] else [ms[0].State()] + Snapshot(ms[1..])
  }

  /** The monkeys are distinct objects whose rules the source can follow. */
  predicate Troop(ms: seq<Monkey>)
  {
    Distinct(ms) && Valid(RulesOf(ms))
  }

  predicate SourceMode(mode: Mode)
  {
    mode.Relief? || (mode.NoRelief? && mode.modulo > 0)
  }

  predicate Distinct(ms: seq<Monkey>)
  {
    forall j, k :: 0 <= j < k < |ms| ==> ms[j] != ms[k]
  }

  /** Monkey i pops its front item and inspects it. */
  method PopAndInspect(ms: seq<Monkey>, i: nat, mode: Mode) returns (t: Throw)
    requires Distinct(ms) && i < |ms| && ms[i].items != [] && ms[i].test > 0 && SourceMode(mode)
    modifies ms[i]
    ensures t == Inspect(ms[i].Behaviour(), old(ms[i].items[0]), mode)
    ensures Snapshot(ms) == old(Snapshot(ms))[i := MonkeyState(old(ms[i].items[1..]), old(ms[i].inspections) + 1)]
  {
    var monkey := ms[i];
    var item := monkey.items[0];
    monkey.items := monkey.items[1..];
    if mode.Relief? {
      t := monkey.InspectItem(item);
    } else {
      t := monkey.InspectItemNoRelief(item, mode.modulo);
    }
    forall k | 0 <= k < |ms| && k != i
      ensures ms[k] != monkey
    {
    }
  }

  /** The thrown item joins the back of monkey k's queue. */
  method PushBack(ms: seq<Monkey>, k: nat, w: nat)
    requires Distinct(ms) && k < |ms|
    modifies ms[k]
    ensures Snapshot(ms) == old(Snapshot(ms))[k := MonkeyState(old(ms[k].items) + [w], old(ms[k].inspections))]
  {
    var next := ms[k];
    next.items := next.items + [w];
    forall j | 0 <= j < |ms| && j != k
      ensures ms[j] != next
    {
    }
  }

  /** One pass of the turn's loop: pop the front item, inspect it, push it to the target. */
  method InspectNext(ms: seq<Monkey>, i: nat, mode: Mode)
    requires Troop(ms) && i < |ms| && ms[i].items != [] && SourceMode(mode)
    modifies set m | m in ms
    ensures Snapshot(ms) == Step(RulesOf(ms), old(Snapshot(ms)), i, mode)
  {
    ghost var s := Snapshot(ms);
    ghost var rules := RulesOf(ms);
    assert rules[i] == ms[i].Behaviour();
    var t := PopAndInspect(ms, i, mode);
    ghost var mid := Snapshot(ms);
    assert mid == s[i := MonkeyState(s[i].items[1..], s[i].inspections + 1)];
    assert t == Inspect(rules[i], s[i].items[0], mode);
    ghost var pushed := MonkeyState(mid[t.target].items + [t.worry], mid[t.target].inspections);
    assert pushed == MonkeyState(ms[t.target].items + [t.worry], ms[t.target].inspections);
    PushBack(ms, t.target, t.worry);
    StepIs(rules, s, i, mode, mid, pushed);
  }

  method MonkeyTurn(ms: seq<Monkey>, i: nat, mode: Mode)
    requires Troop(ms) && i < |ms| && SourceMode(mode)
    modifies set m | m in ms
    ensures Snapshot(ms) == Turn(RulesOf(ms), old(Snapshot(ms)), i, mode)
  {
    ghost var s0 := Snapshot(ms);
    ghost var rules := RulesOf(ms);
    var n := |ms[i].items|;
    for step := 0 to n
      invariant Snapshot(ms) == Steps(rules, s0, i, mode, step)
    {
      InspectNext(ms, i, mode);
    }
  }

  method PlayRound(ms: seq<Monkey>, mode: Mode)
    requires Troop(ms) && SourceMode(mode)
    modifies set m | m in ms
    ensures Snapshot(ms) == Round(RulesOf(ms), old(Snapshot(ms)), mode)
  {
    ghost var s0 := Snapshot(ms);
    ghost var rules := RulesOf(ms);
    for i := 0 to |ms|
      invariant RoundFrom(rules, Snapshot(ms), mode, i) == Round(rules, s0, mode)
    {
      MonkeyTurn(ms, i, mode);
    }
  }

  method PlayRounds(ms: seq<Monkey>, mode: Mode, rounds: nat)
    requires Troop(ms) && SourceMode(mode)
    modifies set m | m in ms
    ensures Snapshot(ms) == Rounds(RulesOf(ms), old(Snapshot(ms)), mode, rounds)
  {
    ghost var s0 := Snapshot(ms);
    ghost var rules := RulesOf(ms);
    for r := 0 to rounds
      invariant Snapshot(ms) == Rounds(rules, s0, mode, r)
    {
      PlayRound(ms, mode);
    }
  }

  function NotesRules(notes: seq<MonkeyNotes>): (r: seq<Rule>)
    ensures |r| == |notes| && forall k :: 0 <= k < |notes| ==> r[k] == notes[k].rule
  {
    seq(|notes|, k requires 0 <= k < |notes| => notes[k].rule)
  }

  /** Every monkey starts with its listed items and no inspections. */
  function Initial(notes: seq<MonkeyNotes>): (r: seq<MonkeyState>)
    ensures |r| == |notes| && forall k :: 0 <= k < |notes| ==> r[k] == MonkeyState(notes[k].items, 0)
  {
    seq(|notes|, k requires 0 <= k < |notes| => MonkeyState(notes[k].items, 0))
  }

  method Build(notes: seq<MonkeyNotes>) returns (ms: seq<Monkey>)
    requires Valid(NotesRules(notes))
    ensures Troop(ms) && fresh(set m | m in ms)
    ensures RulesOf(ms) == NotesRules(notes) && Snapshot(ms) == Initial(notes)
  {
    ms := [];
    for k := 0 to |notes|
      invariant |ms| == k && fresh(set m | m in ms)
      invariant forall j, l :: 0 <= j < l < k ==> ms[j] != ms[l]
      invariant forall j :: 0 <= j < k ==>
                  ms[j].Behaviour() == notes[j].rule && ms[j].State() == MonkeyState(notes[j].items, 0)
    {
      var m := new Monkey(notes[k]);
      ms := ms + [m];
    }
    assert RulesOf(ms) == NotesRules(notes);
  }

  /** Twenty rounds with relief, then the product of the two largest counts. */
  method PartOne(notes: seq<MonkeyNotes>) returns (answer: Option<nat>)
    requires Valid(NotesRules(notes))
    ensures answer == MonkeyBusiness(Rounds(NotesRules(notes), Initial(notes), Relief, 20))
  {
    answer := Play(notes, Relief, 20);
  }

  /**
   * Ten thousand rounds with worry reduced modulo the product of the tests; the answer
   * is the one unbounded worry levels would give.
   */
  method PartTwo(notes: seq<MonkeyNotes>) returns (answer: Option<nat>)
    requires Valid(NotesRules(notes))
    ensures var modulo := Product(Tests(NotesRules(notes)));
            modulo > 0 && answer == MonkeyBusiness(Rounds(NotesRules(notes), Initial(notes), NoRelief(modulo), 10000))
    ensures answer == MonkeyBusiness(Rounds(NotesRules(notes), Initial(notes), Unreduced, 10000))
  {
    var rules := NotesRules(notes);
    var modulo := Product(Tests(rules));
    ProductDivides(Tests(rules));
    answer := Play(notes, NoRelief(modulo), 10000);
    assert DividesAll(rules, modulo);
    BusinessAgree(rules, Initial(notes), modulo, 10000);
  }

  /** Both parts: build the monkeys, play the rounds, and multiply the top two counts. */
  method Play(notes: seq<MonkeyNotes>, mode: Mode, rounds: nat) returns (answer: Option<nat>)
    requires Valid(NotesRules(notes)) && SourceMode(mode)
    ensures answer == MonkeyBusiness(Rounds(NotesRules(notes), Initial(notes), mode, rounds))
  {
    var ms := Build(notes);
    PlayRounds(ms, mode, rounds);
    answer := MonkeyBusiness(Snapshot(ms));
  }
}
