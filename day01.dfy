/** Day 1: the calories carried by each elf. The input lists numbers one per line, one group
  * per elf, groups separated by a blank line; part one is the largest group total and part
  * two the sum of the three largest. */
module Day01 {
  import opened Wrappers
  import opened Text
  import opened Seqs

  /** `c.parse::<u32>().unwrap()`: one calorie count, `None` where the source panics. */
  function ParseCalories(token: string): Option<nat>
  {
    ParseUnsigned(token, U32)
  }

  /** One elf's total: the whitespace-separated counts of its group, added up; `None` when a
    * count does not parse. */
  function GroupTotal(group: string): Option<int>
  {
    var counts := ParseAll(Words(group), ParseCalories);
    if counts.None? then None else Some(Sum(counts.value))
  }

  /** A word that is not a count below 2^32 makes the whole group fail, as the source's
    * `unwrap` panics. */
  lemma BadCount(group: string, i: nat)
    requires i < |Words(group)| && ParseCalories(Words(group)[i]).None?
    ensures GroupTotal(group).None?
  {
    var ws := Words(group);
    var parse: string -> Option<nat> := ParseCalories;
    assert parse(ws[i]).None?;
    ParseAllSpec(ws, parse);
  }

  /** A group of nothing but whitespace (an empty group) totals 0. */
  lemma BlankGroup(group: string)
    requires forall k :: 0 <= k < |group| ==> IsSpace(group[k])
    ensures GroupTotal(group) == Some(0)
  {
    assert LeadingSpaces(group) == |group|;
    assert Words(group) == [];
  }

  /** A group written as the counts, each followed by a newline. */
  function RenderGroup(counts: seq<nat>): string
  {
    if counts == [] then [] else Decimal(counts[0]) + "\n" + RenderGroup(counts[1..])
  }

  /** The decimal digits of each count. */
  function Decimals(counts: seq<nat>): (r: seq<string>)
    ensures |r| == |counts|
    ensures forall i :: 0 <= i < |counts| ==> r[i] == Decimal(counts[i])
  {
    if counts == [] then [] else [Decimal(counts[0])] + Decimals(counts[1..])
  }

  lemma {:induction false} WordsOfRender(counts: seq<nat>)
    ensures Words(RenderGroup(counts)) == Decimals(counts)
  {
    if counts != [] {
      var d := Decimal(counts[0]);
      var rest := RenderGroup(counts[1..]);
      assert RenderGroup(counts) == d + (['\n'] + rest);
      WordsAfterWord(d, ['\n'] + rest);
      WordsAfterSpace('\n', rest);
      WordsOfRender(counts[1..]);
    }
  }

  /** Counts below 2^32 written one per line total their sum. */
  lemma GroupRoundTrip(counts: seq<nat>)
    requires forall i :: 0 <= i < |counts| ==> counts[i] < U32
    ensures GroupTotal(RenderGroup(counts)) == Some(Sum(counts))
  {
    WordsOfRender(counts);
    var ws := Decimals(counts);
    forall i | 0 <= i < |ws|
      ensures ParseCalories(ws[i]) == Some(counts[i])
    {
      DecimalRoundTrip(counts[i], U32);
    }
    ParseAllSpec(ws, ParseCalories);
    assert ParseAll(ws, ParseCalories).value == counts;
  }

  /** The groups of the input: the pieces between occurrences of a blank line. */
  function Groups(input: string): seq<string>
  {
    SplitOn(input, "\n\n")
  }

  /** `parse`: one total per group, in order; `None` when some count does not parse. */
  function Parse(input: string): Option<seq<int>>
  {
    ParseAll(Groups(input), GroupTotal)
  }

  /** The input parses exactly when every group has a total, and then there is one total per
    * group, in order, and at least one. */
  lemma ParseSpec(input: string)
    ensures Parse(input).Some? <==> forall i :: 0 <= i < |Groups(input)| ==> GroupTotal(Groups(input)[i]).Some?
    ensures Parse(input).Some? ==>
      |Parse(input).value| == |Groups(input)| >= 1 &&
      forall i :: 0 <= i < |Groups(input)| ==> GroupTotal(Groups(input)[i]) == Some(Parse(input).value[i])
  {
    ParseAllSpec(Groups(input), GroupTotal);
  }

  /** part_one: the largest total; `None` only where parsing panics, since there is always a
    * group. */
  function PartOne(input: string): (r: Option<int>)
    ensures r.Some? <==> Parse(input).Some?
    ensures r.Some? ==> r.value in Parse(input).value
    ensures r.Some? ==> forall i :: 0 <= i < |Parse(input).value| ==> Parse(input).value[i] <= r.value
  {
    ParseSpec(input);
    var totals := Parse(input);
    if totals.None? || totals.value == [] then None else Some(Max(totals.value))
  }

  // ---------------------------------------------------------------------
  // `sort`, `reverse` and `truncate` of part two.

  predicate Ascending(s: seq<int>)
  {
    forall i, j :: 0 <= i < j < |s| ==> s[i] <= s[j]
  }

  /** `x` put into an ascending sequence before the first element not below it. */
  function Insert(s: seq<int>, x: int): (r: seq<int>)
    ensures |r| == |s| + 1
  {
    if s == [] then [x]
    else if x <= s[0] then [x] + s
    else [s[0]] + Insert(s[1..], x)
  }

  lemma {:induction false} InsertMultiset(s: seq<int>, x: int)
    ensures multiset(Insert(s, x)) == multiset(s) + multiset{x}
  {
    if s != [] && x > s[0] {
      InsertMultiset(s[1..], x);
      assert s == [s[0]] + s[1..];
    }
  }

  /** A lower bound of `x` and of every element is a lower bound after the insertion. */
  lemma {:induction false} InsertAbove(s: seq<int>, x: int, b: int)
    requires b <= x && forall k :: 0 <= k < |s| ==> b <= s[k]
    ensures forall k :: 0 <= k < |s| + 1 ==> b <= Insert(s, x)[k]
  {
    if s != [] && x > s[0] {
      InsertAbove(s[1..], x, b);
      var r := Insert(s, x);
      assert forall k :: 1 <= k < |s| + 1 ==> r[k] == Insert(s[1..], x)[k - 1];
    }
  }

  lemma {:induction false} InsertAscending(s: seq<int>, x: int)
    requires Ascending(s)
    ensures Ascending(Insert(s, x))
  {
    if s != [] && x > s[0] {
      var tail := s[1..];
      assert Ascending(tail) by {
        forall i, j | 0 <= i < j < |tail|
          ensures tail[i] <= tail[j]
        {
          assert tail[i] == s[i + 1] && tail[j] == s[j + 1];
        }
      }
      var rest := Insert(tail, x);
      InsertAscending(tail, x);
      InsertAbove(tail, x, s[0]);
      var r := [s[0]] + rest;
      forall i, j | 0 <= i < j < |r|
        ensures r[i] <= r[j]
      {
        if i > 0 {
          assert r[i] == rest[i - 1] && r[j] == rest[j - 1];
        } else {
          assert r[j] == rest[j - 1];
        }
      }
    }
  }

  /** `Vec::sort`: the totals in ascending order. */
  function Sort(s: seq<int>): (r: seq<int>)
    ensures |r| == |s|
  {
    if s == [] then [] else Insert(Sort(s[1..]), s[0])
  }

  /** Sorting orders the totals. */
  lemma {:induction false} SortAscending(s: seq<int>)
    ensures Ascending(Sort(s))
  {
    if s != [] {
      SortAscending(s[1..]);
      InsertAscending(Sort(s[1..]), s[0]);
    }
  }

  /** Sorting keeps each total as often as it occurs. */
  lemma {:induction false} SortMultiset(s: seq<int>)
    ensures multiset(Sort(s)) == multiset(s)
  {
    if s != [] {
      SortMultiset(s[1..]);
      InsertMultiset(Sort(s[1..]), s[0]);
      assert s == [s[0]] + s[1..];
    }
  }

  lemma {:induction false} ReverseMultiset(s: seq<int>)
    ensures multiset(Reverse(s)) == multiset(s)
  {
    if s != [] {
      ReverseMultiset(s[1..]);
      assert s == [s[0]] + s[1..];
    }
  }

  /** The `k` largest totals: sorted, reversed and truncated to `k`. */
  function Largest(s: seq<int>, k: nat): seq<int>
    requires k <= |s|
  {
    Reverse(Sort(s))[..k]
  }

  predicate Descending(s: seq<int>)
  {
    forall i, j :: 0 <= i < j < |s| ==> s[j] <= s[i]
  }

  lemma ReverseAscending(s: seq<int>)
    requires Ascending(s)
    ensures Descending(Reverse(s))
  {
    var d := Reverse(s);
    forall i, j | 0 <= i < j < |d|
      ensures d[j] <= d[i]
    {
      assert d[i] == s[|s| - 1 - i] && d[j] == s[|s| - 1 - j];
    }
  }

  /** In a descending sequence everything after position `k` is at most everything before. */
  lemma DescendingSplit(d: seq<int>, k: nat)
    requires Descending(d) && k <= |d|
    ensures forall x, y :: x in d[..k] && y in d[k..] ==> y <= x
  {
    forall x, y | x in d[..k] && y in d[k..]
      ensures y <= x
    {
      var i :| 0 <= i < k && d[..k][i] == x;
      var j :| 0 <= j < |d| - k && d[k..][j] == y;
      assert d[i] == x && d[k + j] == y;
    }
  }

  lemma MultisetSplit(d: seq<int>, k: nat)
    requires k <= |d|
    ensures multiset(d) == multiset(d[..k]) + multiset(d[k..])
  {
    assert d == d[..k] + d[k..];
  }

  /** The totals are those `Largest` picks followed by the rest of the reversed sort. */
  lemma LargestRest(s: seq<int>, k: nat)
    requires k <= |s|
    ensures multiset(s) == multiset(Largest(s, k)) + multiset(Reverse(Sort(s))[k..])
  {
    SortMultiset(s);
    ReverseMultiset(Sort(s));
    MultisetSplit(Reverse(Sort(s)), k);
  }

  /** `Largest` picks `k` of the totals, and every total it leaves out is no larger than
    * any it picks. */
  lemma LargestSpec(s: seq<int>, k: nat)
    requires k <= |s|
    ensures |Largest(s, k)| == k
    ensures multiset(Largest(s, k)) <= multiset(s)
    ensures forall x, y :: x in Largest(s, k) && y in multiset(s) - multiset(Largest(s, k)) ==> y <= x
  {
    var d := Reverse(Sort(s));
    LargestRest(s, k);
    SortAscending(s);
    ReverseAscending(Sort(s));
    DescendingSplit(d, k);
    forall x, y | x in Largest(s, k) && y in multiset(s) - multiset(Largest(s, k))
      ensures y <= x
    {
      assert y in d[k..];
    }
  }

  /** The first total part two keeps is part one's answer, the largest total. */
  lemma LargestFirst(s: seq<int>)
    requires s != []
    ensures Largest(s, 1)[0] == Max(s)
  {
    LargestSpec(s, 1);
    var x := Largest(s, 1)[0];
    var m := Max(s);
    assert x in Largest(s, 1);
    assert x in multiset(s);
    var i :| 0 <= i < |s| && s[i] == x;
    var rest := multiset(s) - multiset(Largest(s, 1));
    assert m == x || m in rest;
  }

  lemma {:induction false} SumInsert(s: seq<int>, x: int)
    ensures Sum(Insert(s, x)) == Sum(s) + x
  {
    if s != [] && x > s[0] {
      SumInsert(s[1..], x);
      assert ([s[0]] + Insert(s[1..], x))[1..] == Insert(s[1..], x);
    } else if s != [] {
      assert ([x] + s)[1..] == s;
    }
  }

  lemma {:induction false} SumSort(s: seq<int>)
    ensures Sum(Sort(s)) == Sum(s)
  {
    if s != [] {
      SumSort(s[1..]);
      SumInsert(Sort(s[1..]), s[0]);
    }
  }

  lemma {:induction false} SumReverse(s: seq<int>)
    ensures Sum(Reverse(s)) == Sum(s)
  {
    if s != [] {
      SumReverse(s[1..]);
      SumAppend(Reverse(s[1..]), [s[0]]);
      assert Sum([s[0]]) == s[0];
    }
  }

  /** With at most three elves part two adds up every total. */
  lemma LargestAll(s: seq<int>)
    ensures Sum(Largest(s, |s|)) == Sum(s)
  {
    assert Largest(s, |s|) == Reverse(Sort(s));
    SumReverse(Sort(s));
    SumSort(s);
  }

  /** How many totals part two keeps: three, or all of them when there are fewer. */
  function Kept(s: seq<int>): (k: nat)
    ensures k <= |s| && k <= 3
    ensures k == 3 || k == |s|
  {
    if |s| < 3 then |s| else 3
  }

  /** part_two: parse, sort, reverse, truncate to three, then add up. */
  method PartTwo(input: string) returns (r: Option<int>)
    ensures r.None? <==> Parse(input).None?
    ensures r.Some? ==> r.value == Sum(Largest(Parse(input).value, Kept(Parse(input).value)))
  {
    var parsed := Parse(input);
    if parsed.None? {
      return None;
    }
    var calories := parsed.value;
    ghost var totals := calories;
    calories := Sort(calories);
    calories := Reverse(calories);
    if |calories| > 3 {
      calories := calories[..3];
    }
    assert calories == Largest(totals, Kept(totals));
    r := Some(Sum(calories));
  }
}
