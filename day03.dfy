/** Day 3: rucksacks of item letters. Part one sums the priorities of the items in both
  * halves of each rucksack, part two those common to each group of three rucksacks. */
module Day03 {
  import opened Wrappers
  import opened Sets
  import opened Seqs

  // ---------------------------------------------------------------------
  // to_priority.

  predicate IsLower(c: char)
  {
    'a' <= c <= 'z'
  }

  predicate IsUpper(c: char)
  {
    'A' <= c <= 'Z'
  }

  /** `to_priority`: 'a'..'z' are 1..26, 'A'..'Z' are 27..52, any other character is 0. */
  function Priority(c: char): (r: nat)
    ensures r <= 52
    ensures r == 0 <==> !IsLower(c) && !IsUpper(c)
  {
    if IsLower(c) then c as int - 'a' as int + 1
    else if IsUpper(c) then c as int - 'A' as int + 27
    else 0
  }

  /** The item letter with priority `p`. */
  function ItemOf(p: nat): (c: char)
    requires 1 <= p <= 52
    ensures IsLower(c) || IsUpper(c)
  {
    if p <= 26 then ('a' as int + p - 1) as char else ('A' as int + p - 27) as char
  }

  /** Priorities and item letters are inverse to each other: lower case letters take the
    * priorities 1..26, upper case 27..52, and no two letters share one. */
  lemma PriorityItemOf(p: nat, c: char)
    requires 1 <= p <= 52
    ensures Priority(ItemOf(p)) == p
    ensures IsLower(c) || IsUpper(c) ==> ItemOf(Priority(c)) == c
    ensures IsLower(c) <==> 1 <= Priority(c) <= 26
    ensures IsUpper(c) <==> 27 <= Priority(c) <= 52
  {
  }

  /** Distinct letters have distinct priorities. */
  lemma PriorityInjective(c: char, d: char)
    requires IsLower(c) || IsUpper(c)
    requires IsLower(d) || IsUpper(d)
    requires Priority(c) == Priority(d)
    ensures c == d
  {
    PriorityItemOf(Priority(c), c);
    PriorityItemOf(Priority(d), d);
  }

  // ---------------------------------------------------------------------
  // split_vector.

  datatype SplitError = TooShort | OddLength

  /** `split_vector`: the two halves of a rucksack. A rucksack of fewer than two items panics
    * first; one of odd length panics next. */
  function SplitVector(v: seq<char>): (r: Result<(seq<char>, seq<char>), SplitError>)
    ensures r.Ok? <==> |v| >= 2 && |v| % 2 == 0
    ensures r.Ok? ==> |r.value.0| == |r.value.1| && r.value.0 + r.value.1 == v
    ensures r == Err(TooShort) <==> |v| < 2
  {
    var mid := |v| / 2;
    if mid == 0 then Err(TooShort)
    else if |v| % 2 != 0 then Err(OddLength)
    else Ok((v[..mid], v[mid..]))
  }

  // ---------------------------------------------------------------------
  // find_common_elements and find_common_elements_all.

  /** `find_common_elements`: every item of `left` that `right` contains. */
  method FindCommon(left: seq<char>, right: seq<char>) returns (common: set<char>)
    ensures forall c :: c in common <==> c in left && c in right
  {
    common := {};
    for i := 0 to |left|
      invariant forall c :: c in common <==> c in left[..i] && c in right
    {
      assert left[..i + 1] == left[..i] + [left[i]];
      if left[i] in right {
        common := common + {left[i]};
      }
    }
    assert left[..|left|] == left;
  }

  /** The vectors all contain `c`. */
  predicate InAll(vectors: seq<seq<char>>, c: char)
  {
    forall k :: 0 <= k < |vectors| ==> c in vectors[k]
  }

  /** `find_common_elements_all`: every item of the first vector that all vectors contain;
    * `None` for no vectors, where indexing the first one panics. */
  method FindCommonAll(vectors: seq<seq<char>>) returns (r: Option<set<char>>)
    ensures r.Some? <==> vectors != []
    ensures r.Some? ==> forall c :: c in r.value <==> c in vectors[0] && InAll(vectors, c)
  {
    if vectors == [] {
      return None;
    }
    var first := vectors[0];
    var common: set<char> := {};
    for i := 0 to |first|
      invariant forall c :: c in common <==> c in first[..i] && InAll(vectors, c)
    {
      assert first[..i + 1] == first[..i] + [first[i]];
      if InAll(vectors, first[i]) {
        common := common + {first[i]};
      }
    }
    assert first[..|first|] == first;
    return Some(common);
  }

  // ---------------------------------------------------------------------
  // parse_input_two.

  /** `parse_input_two`: the fold that opens a new group at every line whose index is a
    * multiple of three and appends each line to the last group. */
  function Groups<T>(lines: seq<T>): (r: seq<seq<T>>)
    ensures r == [] <==> lines == []
  {
    if lines == [] then []
    else
      var g := Groups(lines[..|lines| - 1]);
      var last := lines[|lines| - 1];
      if (|lines| - 1) % 3 == 0 then g + [[last]]
      else g[|g| - 1 := g[|g| - 1] + [last]]
  }

  /** One group per three lines, the last one possibly short. */
  lemma {:induction false} GroupsCount<T>(lines: seq<T>)
    ensures |Groups(lines)| == (|lines| + 2) / 3
  {
    if lines != [] {
      GroupsCount(lines[..|lines| - 1]);
    }
  }

  function Min(a: int, b: int): int
  {
    if a < b then a else b
  }

  /** Group k holds lines 3k, 3k+1 and 3k+2, as far as there are lines. */
  lemma {:induction false} GroupAt<T>(lines: seq<T>, k: nat)
    requires k < |Groups(lines)|
    ensures 3 * k < |lines| && Groups(lines)[k] == lines[3 * k .. Min(3 * k + 3, |lines|)]
  {
    var n := |lines|;
    var init := lines[..n - 1];
    GroupsCount(lines);
    GroupsCount(init);
    if k < |Groups(init)| {
      GroupAt(init, k);
    }
    var q := (n - 1) / 3;
    if (n - 1) % 3 == 0 {
      GroupAtOpened(lines, k, q);
    } else {
      GroupAtAppended(lines, k, q);
    }
  }

  /** The step of `GroupAt` where the last line, line 3q, opens group q. */
  lemma GroupAtOpened<T>(lines: seq<T>, k: nat, q: nat)
    requires |lines| == 3 * q + 1
    requires |Groups(lines[..3 * q])| == q && k <= q
    requires k < q ==> Groups(lines[..3 * q])[k] == lines[..3 * q][3 * k .. 3 * k + 3]
    ensures Groups(lines)[k] == lines[3 * k .. Min(3 * k + 3, |lines|)]
  {
    var g := Groups(lines[..3 * q]);
    var r := Groups(lines);
    assert r == g + [[lines[3 * q]]];
    if k < q {
      assert Min(3 * k + 3, |lines|) == 3 * k + 3;
      SlicePrefix(lines, 3 * q, 3 * k, 3 * k + 3);
      assert r[k] == g[k];
    } else {
      assert Min(3 * k + 3, |lines|) == |lines|;
      assert r[k] == [lines[3 * q]];
    }
  }

  /** The step of `GroupAt` where the last line joins group q. */
  lemma GroupAtAppended<T>(lines: seq<T>, k: nat, q: nat)
    requires 3 * q + 2 <= |lines| <= 3 * q + 3
    requires |Groups(lines[..|lines| - 1])| == q + 1 && k <= q
    requires Groups(lines[..|lines| - 1])[k] ==
      lines[..|lines| - 1][3 * k .. Min(3 * k + 3, |lines| - 1)]
    ensures Groups(lines)[k] == lines[3 * k .. Min(3 * k + 3, |lines|)]
  {
    var n := |lines|;
    var g := Groups(lines[..n - 1]);
    var r := Groups(lines);
    assert (n - 1) % 3 != 0;
    assert r == g[q := g[q] + [lines[n - 1]]];
    if k < q {
      assert Min(3 * k + 3, n - 1) == 3 * k + 3 == Min(3 * k + 3, n);
      SlicePrefix(lines, n - 1, 3 * k, 3 * k + 3);
      assert r[k] == g[k];
    } else {
      assert Min(3 * k + 3, n - 1) == n - 1 && Min(3 * k + 3, n) == n;
      assert r[k] == g[k] + [lines[n - 1]];
      SlicePrefix(lines, n - 1, 3 * k, n - 1);
      SliceExtend(lines, 3 * k, n);
    }
  }

  /** Every group but the last has three lines, and the groups together are the lines in
    * order: group k holds lines 3k, 3k+1 and 3k+2, as far as there are lines. */
  lemma GroupsChunks<T>(lines: seq<T>)
    ensures |Groups(lines)| == (|lines| + 2) / 3
    ensures forall k :: 0 <= k < |Groups(lines)| ==>
      3 * k < |lines| && Groups(lines)[k] == lines[3 * k .. Min(3 * k + 3, |lines|)]
  {
    forall k | 0 <= k < |Groups(lines)|
      ensures 3 * k < |lines| && Groups(lines)[k] == lines[3 * k .. Min(3 * k + 3, |lines|)]
    {
      GroupAt(lines, k);
    }
    GroupsCount(lines);
  }

  /** Every group has at least one rucksack, so `find_common_elements_all` never panics. */
  lemma GroupsNonEmpty<T>(lines: seq<T>, k: nat)
    requires k < |Groups(lines)|
    ensures Groups(lines)[k] != []
  {
    GroupsChunks(lines);
  }

  // ---------------------------------------------------------------------
  // The sums.

  /** The priorities of a set of items, as a map for the set sums. */
  function Priorities(s: set<char>): map<char, nat>
  {
    map c | c in s :: Priority(c)
  }

  /** The summed priorities of a set of items, in any order. */
  ghost function PrioritySum(s: set<char>): nat
  {
    SetSum(s, Priorities(s))
  }

  /** The loop over a `HashSet` that adds up the priorities of its items, in any order. */
  method SumPriorities(common: set<char>) returns (total: nat)
    ensures total == PrioritySum(common)
  {
    var m := Priorities(common);
    var remaining := common;
    total := 0;
    while remaining != {}
      invariant remaining <= common
      invariant total + SetSum(remaining, m) == SetSum(common, m)
      decreases |remaining|
    {
      var item :| item in remaining;
      SetSumRemove(remaining, m, item);
      total := total + Priority(item);
      remaining := remaining - {item};
    }
  }

  /** A single common item counts its own priority. */
  lemma PrioritySumSingle(c: char)
    ensures PrioritySum({c}) == Priority(c)
  {
    SetSumRemove({c}, Priorities({c}), c);
    assert {c} - {c} == {};
  }

  /** The priority of one rucksack in part one: its halves' common items, summed. */
  ghost function SackPriority(sack: string): Option<nat>
  {
    var halves := SplitVector(sack);
    if halves.Err? then None
    else Some(PrioritySum(set c | c in halves.value.0 && c in halves.value.1))
  }

  /** Part one's total: `None` when some rucksack does not split. */
  ghost function TotalOne(sacks: seq<string>): Option<nat>
  {
    if sacks == [] then Some(0)
    else
      var prev := TotalOne(sacks[..|sacks| - 1]);
      var last := SackPriority(sacks[|sacks| - 1]);
      if prev.None? || last.None? then None else Some(prev.value + last.value)
  }

  /** A rucksack that `split_vector` accepts: an even number of at least two items. */
  predicate Splits(sack: string)
  {
    |sack| >= 2 && |sack| % 2 == 0
  }

  /** The answer exists exactly when every rucksack has an even number of at least two items. */
  lemma {:induction false} TotalOneSome(sacks: seq<string>)
    ensures TotalOne(sacks).Some? <==> forall k :: 0 <= k < |sacks| ==> Splits(sacks[k])
  {
    if sacks != [] {
      var init := sacks[..|sacks| - 1];
      TotalOneSome(init);
      var last := sacks[|sacks| - 1];
      assert SackPriority(last).Some? <==> Splits(last);
      assert forall k :: 0 <= k < |init| ==> init[k] == sacks[k];
    }
  }

  /** One rucksack of part one: split it, find the common items, and add up their
    * priorities. */
  method SackSum(sack: string) returns (r: Option<nat>)
    ensures r == SackPriority(sack)
  {
    var halves := SplitVector(sack);
    if halves.Err? {
      return None;
    }
    var common := FindCommon(halves.value.0, halves.value.1);
    assert common == set c | c in halves.value.0 && c in halves.value.1;
    var sum := SumPriorities(common);
    return Some(sum);
  }

  /** part_one: the priorities of the common items of each rucksack's halves, summed. */
  method PartOne(lines: seq<string>) returns (r: Option<nat>)
    ensures r == TotalOne(lines)
  {
    var total := 0;
    for i := 0 to |lines|
      invariant TotalOne(lines[..i]) == Some(total)
    {
      assert lines[..i + 1][..i] == lines[..i];
      var sum := SackSum(lines[i]);
      if sum.None? {
        TotalOneNoneStays(lines, i + 1);
        return None;
      }
      total := total + sum.value;
    }
    assert lines[..|lines|] == lines;
    return Some(total);
  }

  /** Once a rucksack has failed to split, the whole total fails. */
  lemma {:induction false} TotalOneNoneStays(sacks: seq<string>, i: nat)
    requires i <= |sacks| && TotalOne(sacks[..i]).None?
    ensures TotalOne(sacks).None?
    decreases |sacks| - i
  {
    if i < |sacks| {
      assert sacks[..i + 1][..i] == sacks[..i];
      TotalOneNoneStays(sacks, i + 1);
    } else {
      assert sacks[..i] == sacks;
    }
  }

  /** The priority of one group in part two: the items all its rucksacks share, summed. */
  ghost function GroupPriority(group: seq<string>): nat
  {
    PrioritySum(set c | c in (if group == [] then [] else group[0]) && InAll(group, c))
  }

  /** Part two's total over the groups. */
  ghost function TotalTwo(groups: seq<seq<string>>): nat
  {
    if groups == [] then 0
    else TotalTwo(groups[..|groups| - 1]) + GroupPriority(groups[|groups| - 1])
  }

  /** One group of part two: the items all its rucksacks share, and their priorities summed. */
  method GroupSum(group: seq<string>) returns (r: nat)
    requires group != []
    ensures r == GroupPriority(group)
  {
    var common := FindCommonAll(group);
    assert common.value == set c | c in group[0] && InAll(group, c);
    r := SumPriorities(common.value);
  }

  /** part_two: the priorities of the items each group of three rucksacks shares, summed. */
  method PartTwo(lines: seq<string>) returns (r: nat)
    ensures r == TotalTwo(Groups(lines))
  {
    var groups := Groups(lines);
    r := 0;
    for i := 0 to |groups|
      invariant r == TotalTwo(groups[..i])
    {
      assert groups[..i + 1][..i] == groups[..i];
      GroupsNonEmpty(lines, i);
      var sum := GroupSum(groups[i]);
      r := r + sum;
    }
    assert groups[..|groups|] == groups;
  }
}
