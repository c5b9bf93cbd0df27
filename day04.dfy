/** Day 4: pairs of elves' section assignments, each a range `start-end`; count the pairs where
  * one range contains the other, and the pairs whose ranges overlap. */
module Day04 {
  import opened Wrappers
  import opened Text

  /** `SectionRange`: the sections from `start` to `end`, both included (`usize` fields). */
  datatype SectionRange = SectionRange(start: nat, end: nat)

  /** `SectionRangePair`. */
  datatype SectionRangePair = SectionRangePair(first: SectionRange, second: SectionRange)

  /** The error strings of the parsers, told apart by what went wrong. */
  datatype ParseError =
    | BadNumber(piece: string)     // `parse::<usize>()` failed on this piece
    | InvalidRange(value: string)  // "Invalid section range: …"
    | InvalidPair(line: string)    // "Invalid section range pair: …"

  // ---------------------------------------------------------------------
  // The ranges.

  /** `contains`: `self` covers all of `other`. */
  predicate Contains(a: SectionRange, b: SectionRange)
  {
    a.start <= b.start && a.end >= b.end
  }

  /** `overlaps`: the two ranges share a section. */
  predicate Overlaps(a: SectionRange, b: SectionRange)
  {
    a.start <= b.end && a.end >= b.start
  }

  /** A range that holds at least one section. */
  predicate WellFormed(a: SectionRange)
  {
    a.start <= a.end
  }

  /** Section `k` lies in the range. */
  predicate Holds(a: SectionRange, k: int)
  {
    a.start <= k <= a.end
  }

  /** `contains` means every section of `other` is one of `self`'s, for an `other` that holds
    * some section. */
  lemma ContainsMeansSubset(a: SectionRange, b: SectionRange)
    requires WellFormed(b)
    ensures Contains(a, b) <==> forall k :: Holds(b, k) ==> Holds(a, k)
  {
    if forall k :: Holds(b, k) ==> Holds(a, k) {
      assert Holds(b, b.start) && Holds(b, b.end);
    }
  }

  /** `overlaps` holds exactly when the ranges share a section. */
  lemma OverlapsMeansShared(a: SectionRange, b: SectionRange)
    requires WellFormed(a) && WellFormed(b)
    ensures Overlaps(a, b) <==> exists k :: Holds(a, k) && Holds(b, k)
  {
    if Overlaps(a, b) {
      var k := if a.start <= b.start then b.start else a.start;
      assert Holds(a, k) && Holds(b, k);
    }
  }

  /** As the comment in `overlap_exists` says, `overlaps` is symmetric. */
  lemma OverlapsSymmetric(a: SectionRange, b: SectionRange)
    ensures Overlaps(a, b) <==> Overlaps(b, a)
  {
  }

  /** A range that holds some section overlaps every range that contains it, and every range it
    * contains. */
  lemma ContainsOverlaps(a: SectionRange, b: SectionRange)
    requires WellFormed(b) && Contains(a, b)
    ensures Overlaps(a, b) && Overlaps(b, a)
  {
  }

  // ---------------------------------------------------------------------
  // The pairs.

  /** `either_contains`. */
  predicate EitherContains(p: SectionRangePair)
  {
    Contains(p.first, p.second) || Contains(p.second, p.first)
  }

  /** `overlap_exists`: only the first range is asked. */
  predicate OverlapExists(p: SectionRangePair)
  {
    Overlaps(p.first, p.second)
  }

  /** The pair the other way round. */
  function Swapped(p: SectionRangePair): SectionRangePair
  {
    SectionRangePair(p.second, p.first)
  }

  /** Neither test depends on which range comes first, so asking only the first range in
    * `overlap_exists` loses nothing. */
  lemma PairTestsSymmetric(p: SectionRangePair)
    ensures EitherContains(Swapped(p)) <==> EitherContains(p)
    ensures OverlapExists(Swapped(p)) <==> OverlapExists(p)
  {
    OverlapsSymmetric(p.first, p.second);
  }

  /** For ranges that hold some section, a containing pair is an overlapping pair. */
  lemma EitherContainsOverlaps(p: SectionRangePair)
    requires WellFormed(p.first) && WellFormed(p.second) && EitherContains(p)
    ensures OverlapExists(p)
  {
    if Contains(p.first, p.second) {
      ContainsOverlaps(p.first, p.second);
    } else {
      ContainsOverlaps(p.second, p.first);
    }
  }

  // ---------------------------------------------------------------------
  // Parsing.

  /** `parse::<usize>()` on a 64-bit target. */
  function ParseUsize(s: string): Option<nat>
  {
    ParseUnsigned(s, U64)
  }

  /** `SectionRange::from_str`: the first two pieces around `-` as numbers; further pieces are
    * never looked at. */
  function ParseRange(value: string): (r: Result<SectionRange, ParseError>)
    ensures r.Ok? <==> (|Split(value, '-')| >= 2 && ParseUsize(Split(value, '-')[0]).Some? &&
      ParseUsize(Split(value, '-')[1]).Some?)
    ensures r.Ok? ==> r.value.start < U64 && r.value.end < U64
  {
    var parts := Split(value, '-');
    if |parts| < 2 then Err(InvalidRange(value))
    else
      var start := ParseUsize(parts[0]);
      if start.None? then Err(BadNumber(parts[0]))
      else
        var end := ParseUsize(parts[1]);
        if end.None? then Err(BadNumber(parts[1]))
        else Ok(SectionRange(start.value, end.value))
  }

  /** Text without a dash is no range. */
  lemma NoDash(value: string)
    requires '-' !in value
    ensures ParseRange(value) == Err(InvalidRange(value))
  {
    JoinSplit(value, '-');
  }

  /** A range written as `start-end`. */
  function RenderRange(a: SectionRange): string
  {
    Decimal(a.start) + ['-'] + Decimal(a.end)
  }

  /** Writing a range in the input's form and parsing it back gives the range. */
  lemma RangeRoundTrip(a: SectionRange)
    requires a.start < U64 && a.end < U64
    ensures ParseRange(RenderRange(a)) == Ok(a)
  {
    var s := Decimal(a.start);
    var e := Decimal(a.end);
    NoDigitDash(s);
    NoDigitDash(e);
    SplitJoin([s, e], '-');
    assert Join([s, e], '-') == RenderRange(a) by {
      assert [s, e][1..] == [e];
    }
    DecimalRoundTrip(a.start, U64);
    DecimalRoundTrip(a.end, U64);
  }

  /** Digits contain no separator. */
  lemma NoDigitDash(s: string)
    requires AllDigits(s)
    ensures '-' !in s && ',' !in s
  {
  }

  /** The pair parser of `parse_part_one`: the first two pieces around `,` as ranges, the first
    * range's error winning. */
  function ParsePair(line: string): (r: Result<SectionRangePair, ParseError>)
    ensures r.Ok? <==> (|Split(line, ',')| >= 2 && ParseRange(Split(line, ',')[0]).Ok? &&
      ParseRange(Split(line, ',')[1]).Ok?)
    ensures |Split(line, ',')| < 2 ==> r == Err(InvalidPair(line))
  {
    var parts := Split(line, ',');
    if |parts| < 2 then Err(InvalidPair(line))
    else
      var first := ParseRange(parts[0]);
      if first.Err? then Err(first.error)
      else
        var second := ParseRange(parts[1]);
        if second.Err? then Err(second.error)
        else Ok(SectionRangePair(first.value, second.value))
  }

  /** A line written as `a-b,c-d`. */
  function RenderPair(p: SectionRangePair): string
  {
    RenderRange(p.first) + [','] + RenderRange(p.second)
  }

  /** Writing a pair in the input's form and parsing it back gives the pair. */
  lemma PairRoundTrip(p: SectionRangePair)
    requires p.first.start < U64 && p.first.end < U64
    requires p.second.start < U64 && p.second.end < U64
    ensures ParsePair(RenderPair(p)) == Ok(p)
  {
    var f := RenderRange(p.first);
    var g := RenderRange(p.second);
    NoComma(p.first);
    NoComma(p.second);
    SplitJoin([f, g], ',');
    assert Join([f, g], ',') == RenderPair(p) by {
      assert [f, g][1..] == [g];
    }
    RangeRoundTrip(p.first);
    RangeRoundTrip(p.second);
  }

  /** A written range contains no comma. */
  lemma NoComma(a: SectionRange)
    ensures ',' !in RenderRange(a)
  {
    NoDigitDash(Decimal(a.start));
    NoDigitDash(Decimal(a.end));
  }

  /** `collect` of per-line `Result`s into one: every line parsed in order, or the error of
    * the first line that fails. */
  function Collect<T, E>(lines: seq<string>, parse: string -> Result<T, E>): (r: Result<seq<T>, E>)
    ensures r.Ok? ==> |r.value| == |lines|
  {
    if lines == [] then Ok([])
    else
      var init := Collect(lines[..|lines| - 1], parse);
      if init.Err? then init
      else
        var last := parse(lines[|lines| - 1]);
        if last.Err? then Err(last.error) else Ok(init.value + [last.value])
  }

  /** Collecting succeeds exactly when every line parses, and then gives each line's value in
    * order. */
  lemma {:induction false} CollectOk<T, E>(lines: seq<string>, parse: string -> Result<T, E>)
    ensures Collect(lines, parse).Ok? <==> forall i :: 0 <= i < |lines| ==> parse(lines[i]).Ok?
    ensures Collect(lines, parse).Ok? ==>
      forall i :: 0 <= i < |lines| ==> parse(lines[i]) == Ok(Collect(lines, parse).value[i])
  {
    if lines != [] {
      var init := lines[..|lines| - 1];
      CollectOk(init, parse);
      assert forall i :: 0 <= i < |init| ==> init[i] == lines[i];
    }
  }

  /** A failed collect reports the error of the first line that does not parse. */
  lemma {:induction false} CollectErr<T, E>(lines: seq<string>, parse: string -> Result<T, E>)
    requires Collect(lines, parse).Err?
    ensures exists i :: (0 <= i < |lines| && parse(lines[i]).Err? &&
      Collect(lines, parse).error == parse(lines[i]).error &&
      forall j :: 0 <= j < i ==> parse(lines[j]).Ok?)
  {
    var n := |lines| - 1;
    var init := lines[..n];
    assert forall i :: 0 <= i < n ==> init[i] == lines[i];
    if Collect(init, parse).Err? {
      CollectErr(init, parse);
      var i :| 0 <= i < n && parse(init[i]).Err? && Collect(init, parse).error == parse(init[i]).error &&
        forall j :: 0 <= j < i ==> parse(init[j]).Ok?;
      assert parse(lines[i]).Err?;
    } else {
      CollectOk(init, parse);
      assert parse(lines[n]).Err?;
    }
  }

  /** `parse_part_one`. */
  function ParseInput(lines: seq<string>): Result<seq<SectionRangePair>, ParseError>
  {
    Collect(lines, ParsePair)
  }

  // ---------------------------------------------------------------------
  // The counts.

  /** The number of pairs where one range contains the other. */
  function ContainCount(pairs: seq<SectionRangePair>): nat
  {
    if pairs == [] then 0
    else ContainCount(pairs[..|pairs| - 1]) + (if EitherContains(pairs[|pairs| - 1]) then 1 else 0)
  }

  /** The number of pairs whose ranges overlap. */
  function OverlapCount(pairs: seq<SectionRangePair>): nat
  {
    if pairs == [] then 0
    else OverlapCount(pairs[..|pairs| - 1]) + (if OverlapExists(pairs[|pairs| - 1]) then 1 else 0)
  }

  /** The positions whose pair has one range containing the other. */
  function ContainingAt(pairs: seq<SectionRangePair>): set<nat>
  {
    set i: nat | i < |pairs| && EitherContains(pairs[i])
  }

  /** The positions whose pair overlaps. */
  function OverlappingAt(pairs: seq<SectionRangePair>): set<nat>
  {
    set i: nat | i < |pairs| && OverlapExists(pairs[i])
  }

  /** Part one's count is the number of positions whose pair has a containing range. */
  lemma {:induction false} ContainCountIsSize(pairs: seq<SectionRangePair>)
    ensures ContainCount(pairs) == |ContainingAt(pairs)|
  {
    if pairs != [] {
      var n := |pairs| - 1;
      var init := pairs[..n];
      ContainCountIsSize(init);
      assert forall i :: 0 <= i < n ==> init[i] == pairs[i];
      if EitherContains(pairs[n]) {
        assert ContainingAt(pairs) == ContainingAt(init) + {n};
      } else {
        assert ContainingAt(pairs) == ContainingAt(init);
      }
    }
  }

  /** Part two's count is the number of positions whose pair overlaps. */
  lemma {:induction false} OverlapCountIsSize(pairs: seq<SectionRangePair>)
    ensures OverlapCount(pairs) == |OverlappingAt(pairs)|
  {
    if pairs != [] {
      var n := |pairs| - 1;
      var init := pairs[..n];
      OverlapCountIsSize(init);
      assert forall i :: 0 <= i < n ==> init[i] == pairs[i];
      if OverlapExists(pairs[n]) {
        assert OverlappingAt(pairs) == OverlappingAt(init) + {n};
      } else {
        assert OverlappingAt(pairs) == OverlappingAt(init);
      }
    }
  }

  /** With ranges that hold some section, part one never counts more than part two, and part
    * two never more than there are pairs. */
  lemma {:induction false} CountsOrdered(pairs: seq<SectionRangePair>)
    requires forall i :: 0 <= i < |pairs| ==> WellFormed(pairs[i].first) && WellFormed(pairs[i].second)
    ensures ContainCount(pairs) <= OverlapCount(pairs) <= |pairs|
  {
    if pairs != [] {
      var n := |pairs| - 1;
      CountsOrdered(pairs[..n]);
      if EitherContains(pairs[n]) {
        EitherContainsOverlaps(pairs[n]);
      }
    }
  }

  /** The counting loop over the parsed pairs. */
  method CountContaining(pairs: seq<SectionRangePair>) returns (overlaps: nat)
    ensures overlaps == ContainCount(pairs)
  {
    overlaps := 0;
    for i := 0 to |pairs|
      invariant overlaps == ContainCount(pairs[..i])
    {
      assert pairs[..i + 1][..i] == pairs[..i];
      if EitherContains(pairs[i]) {
        overlaps := overlaps + 1;
      }
    }
    assert pairs[..|pairs|] == pairs;
  }

  method CountOverlapping(pairs: seq<SectionRangePair>) returns (overlaps: nat)
    ensures overlaps == OverlapCount(pairs)
  {
    overlaps := 0;
    for i := 0 to |pairs|
      invariant overlaps == OverlapCount(pairs[..i])
    {
      assert pairs[..i + 1][..i] == pairs[..i];
      if OverlapExists(pairs[i]) {
        overlaps := overlaps + 1;
      }
    }
    assert pairs[..|pairs|] == pairs;
  }

  /** part_one: `None` when parsing fails (`.ok()?`), else the containing pairs. */
  method PartOne(lines: seq<string>) returns (r: Option<nat>)
    ensures r.None? <==> ParseInput(lines).Err?
    ensures r.Some? ==> r.value == ContainCount(ParseInput(lines).value)
  {
    var assignments := ParseInput(lines);
    if assignments.Err? {
      return None;
    }
    var overlaps := CountContaining(assignments.value);
    return Some(overlaps);
  }

  /** part_two: `None` when parsing fails, else the overlapping pairs. */
  method PartTwo(lines: seq<string>) returns (r: Option<nat>)
    ensures r.None? <==> ParseInput(lines).Err?
    ensures r.Some? ==> r.value == OverlapCount(ParseInput(lines).value)
  {
    var assignments := ParseInput(lines);
    if assignments.Err? {
      return None;
    }
    var overlaps := CountOverlapping(assignments.value);
    return Some(overlaps);
  }
}
