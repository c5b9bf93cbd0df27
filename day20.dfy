/** Day 20: mixing an encrypted list of numbers. Each number moves as many places round the
  * circle as its value, in the order the numbers first had, and the answer adds the numbers
  * 1000, 2000 and 3000 places after the zero. */
module Day20 {
  import opened Wrappers
  import opened Text

  /** One entry of the list: its original position and its value (`(u32, i64)`). */
  datatype Entry = Entry(tag: nat, value: int)

  // ---------------------------------------------------------------------
  // The list operations.

  /** `iter().enumerate().find(...)`: the first position whose entry satisfies `p`. */
  function FindFirst(s: seq<Entry>, p: Entry -> bool): (r: Option<nat>)
    ensures r.Some? ==> r.value < |s| && p(s[r.value])
  {
    if s == [] then None
    else if p(s[0]) then Some(0)
    else
      var rest := FindFirst(s[1..], p);
      if rest.None? then None else Some(rest.value + 1)
  }

  /** The search succeeds exactly when some entry satisfies `p`, and then no earlier entry
    * does. */
  lemma {:induction false} FindFirstSpec(s: seq<Entry>, p: Entry -> bool)
    ensures FindFirst(s, p).Some? <==> exists k :: 0 <= k < |s| && p(s[k])
    ensures FindFirst(s, p).Some? ==> forall j :: 0 <= j < FindFirst(s, p).value ==> !p(s[j])
  {
    if s != [] && !p(s[0]) {
      FindFirstSpec(s[1..], p);
      assert forall k :: 1 <= k < |s| ==> s[k] == s[1..][k - 1];
    }
  }

  /** The test of `wrap_vec`'s search: the entry that started at position `index`. */
  function TagIs(index: nat): Entry -> bool
  {
    (e: Entry) => e.tag == index
  }

  predicate IsZero(e: Entry)
  {
    e.value == 0
  }

  /** `Vec::remove`. */
  function Remove(s: seq<Entry>, i: nat): (r: seq<Entry>)
    requires i < |s|
    ensures |r| == |s| - 1
  {
    seq(|s| - 1, k requires 0 <= k < |s| - 1 => if k < i then s[k] else s[k + 1])
  }

  /** Removing takes out exactly the one entry. */
  lemma RemoveMultiset(s: seq<Entry>, i: nat)
    requires i < |s|
    ensures multiset(Remove(s, i)) + multiset{s[i]} == multiset(s)
  {
    assert Remove(s, i) == s[..i] + s[i + 1..];
    assert s == s[..i] + [s[i]] + s[i + 1..];
  }

  /** `Vec::insert`. */
  function Insert(s: seq<Entry>, i: nat, x: Entry): (r: seq<Entry>)
    requires i <= |s|
    ensures |r| == |s| + 1
    ensures r[i] == x
  {
    seq(|s| + 1, k requires 0 <= k < |s| + 1 => if k < i then s[k] else if k == i then x else s[k - 1])
  }

  /** Inserting adds exactly the one entry. */
  lemma InsertMultiset(s: seq<Entry>, i: nat, x: Entry)
    requires i <= |s|
    ensures multiset(Insert(s, i, x)) == multiset(s) + multiset{x}
  {
    assert Insert(s, i, x) == s[..i] + [x] + s[i..];
    assert s == s[..i] + s[i..];
  }

  /** Removing an inserted entry gives back the list it went into. */
  lemma RemoveInsert(s: seq<Entry>, i: nat, x: Entry)
    requires i <= |s|
    ensures Remove(Insert(s, i, x), i) == s
  {
    var t := Remove(Insert(s, i, x), i);
    assert forall k :: 0 <= k < |s| ==> t[k] == s[k];
  }

  // ---------------------------------------------------------------------
  // wrap_vec.

  /** Where a moving entry goes back in: its old position plus its value, taken `rem_euclid`
    * the length of the list without it, with 0 read as the last place. */
  function NewIndex(cur: nat, value: int, len: nat): (r: nat)
    requires len >= 2
    ensures 1 <= r <= len - 1
    ensures r % (len - 1) == (cur + value) % (len - 1)
  {
    var k := (cur + value) % (len - 1);
    if k == 0 then len - 1 else k
  }

  /** `wrap_vec`: the entry that started at `index` taken out and put back at its new place.
    * A missing entry fails the `unwrap`, and a one-entry list divides by zero: both panic. */
  function WrapVec(vec: seq<Entry>, index: nat): (r: Option<seq<Entry>>)
    ensures r.Some? <==> |vec| >= 2 && FindFirst(vec, TagIs(index)).Some?
    ensures r.Some? ==> |r.value| == |vec|
  {
    var found := FindFirst(vec, TagIs(index));
    if found.None? || |vec| < 2 then None
    else
      var cur := found.value;
      var item := vec[cur];
      var rest := Remove(vec, cur);
      Some(Insert(rest, NewIndex(cur, item.value, |vec|), item))
  }

  /** `wrap_vec` rearranges the list: the same entries, each as often as before. */
  lemma WrapVecPermutes(vec: seq<Entry>, index: nat)
    requires WrapVec(vec, index).Some?
    ensures multiset(WrapVec(vec, index).value) == multiset(vec)
  {
    var cur := FindFirst(vec, TagIs(index)).value;
    RemoveMultiset(vec, cur);
    InsertMultiset(Remove(vec, cur), NewIndex(cur, vec[cur].value, |vec|), vec[cur]);
  }

  /** The moved entry is the first one that started at `index`. It lands at a place from 1 to
    * len - 1 that is congruent to its old place plus its value modulo len - 1, and the other
    * entries keep their order. */
  lemma WrapVecMoves(vec: seq<Entry>, index: nat)
    requires WrapVec(vec, index).Some?
    ensures var cur := FindFirst(vec, TagIs(index)).value;
      var j := NewIndex(cur, vec[cur].value, |vec|);
      vec[cur].tag == index &&
      WrapVec(vec, index).value[j] == vec[cur] &&
      Remove(WrapVec(vec, index).value, j) == Remove(vec, cur)
  {
    var cur := FindFirst(vec, TagIs(index)).value;
    var j := NewIndex(cur, vec[cur].value, |vec|);
    assert TagIs(index)(vec[cur]);
    RemoveInsert(Remove(vec, cur), j, vec[cur]);
  }

  // ---------------------------------------------------------------------
  // The mixing loops.

  /** The list after `wrap_vec` for the indexes 0..n-1, in order. */
  function MixSteps(vec: seq<Entry>, n: nat): Option<seq<Entry>>
  {
    if n == 0 then Some(vec)
    else
      var prev := MixSteps(vec, n - 1);
      if prev.None? then None else WrapVec(prev.value, n - 1)
  }

  /** Once a step has failed, all later steps fail. */
  lemma {:induction false} MixStepsNoneStays(vec: seq<Entry>, i: nat, n: nat)
    requires i <= n && MixSteps(vec, i).None?
    ensures MixSteps(vec, n).None?
    decreases n - i
  {
    if i < n {
      MixStepsNoneStays(vec, i + 1, n);
    }
  }

  /** One pass of the loop: `vec = wrap_vec(vec, index)`. */
  method MixStep(vec: seq<Entry>, index: nat, v: seq<Entry>) returns (next: Option<seq<Entry>>)
    requires MixSteps(vec, index) == Some(v)
    ensures next == MixSteps(vec, index + 1)
  {
    next := WrapVec(v, index);
  }

  /** One mix: `wrap_vec` once for each original position, in order. */
  method Mix(vec: seq<Entry>) returns (r: Option<seq<Entry>>)
    ensures r == MixSteps(vec, |vec|)
  {
    var v := vec;
    for index := 0 to |vec|
      invariant MixSteps(vec, index) == Some(v)
    {
      var next := MixStep(vec, index, v);
      if next.None? {
        MixStepsNoneStays(vec, index + 1, |vec|);
        return None;
      }
      v := next.value;
    }
    return Some(v);
  }

  /** The list after `rounds` mixes. */
  function MixRounds(vec: seq<Entry>, rounds: nat): Option<seq<Entry>>
  {
    if rounds == 0 then Some(vec)
    else
      var prev := MixRounds(vec, rounds - 1);
      if prev.None? then None else MixSteps(prev.value, |prev.value|)
  }

  /** Mixing `rounds` times. */
  method MixRepeated(vec: seq<Entry>, rounds: nat) returns (r: Option<seq<Entry>>)
    ensures r == MixRounds(vec, rounds)
  {
    var v := vec;
    for n := 0 to rounds
      invariant MixRounds(vec, n) == Some(v)
    {
      var next := Mix(v);
      if next.None? {
        MixRoundsNoneStays(vec, n + 1, rounds);
        return None;
      }
      v := next.value;
    }
    return Some(v);
  }

  lemma {:induction false} MixRoundsNoneStays(vec: seq<Entry>, i: nat, n: nat)
    requires i <= n && MixRounds(vec, i).None?
    ensures MixRounds(vec, n).None?
    decreases n - i
  {
    if i < n {
      MixRoundsNoneStays(vec, i + 1, n);
    }
  }

  /** Some entry started at position `t`. */
  ghost predicate HasTag(vec: seq<Entry>, t: nat)
  {
    exists k :: 0 <= k < |vec| && vec[k].tag == t
  }

  /** Every original position from 0 to |vec| - 1 is the tag of some entry. */
  ghost predicate AllTagged(vec: seq<Entry>)
  {
    forall t: nat :: t < |vec| ==> HasTag(vec, t)
  }

  /** A permutation keeps every tag. */
  lemma PermutationHasTag(vec: seq<Entry>, v: seq<Entry>, t: nat)
    requires HasTag(vec, t) && multiset(v) == multiset(vec)
    ensures HasTag(v, t)
  {
    var k :| 0 <= k < |vec| && vec[k].tag == t;
    assert vec[k] in multiset(v);
    var k' :| 0 <= k' < |v| && v[k'] == vec[k];
  }

  /** A permutation of a fully tagged list is fully tagged. */
  lemma PermutationTagged(vec: seq<Entry>, v: seq<Entry>)
    requires AllTagged(vec) && multiset(v) == multiset(vec)
    ensures |v| == |vec| && AllTagged(v)
  {
    assert |v| == |multiset(v)| == |multiset(vec)| == |vec|;
    forall t: nat | t < |v|
      ensures HasTag(v, t)
    {
      PermutationHasTag(vec, v, t);
    }
  }

  /** `wrap_vec` does not panic on a list of two or more entries that holds the entry it
    * looks for. */
  lemma WrapVecSome(v: seq<Entry>, index: nat)
    requires |v| >= 2 && HasTag(v, index)
    ensures WrapVec(v, index).Some?
  {
    var k :| 0 <= k < |v| && v[k].tag == index;
    assert TagIs(index)(v[k]);
    FindFirstSpec(v, TagIs(index));
  }

  /** One step of the mix on a rearrangement of `vec` that still holds the entry it looks for. */
  lemma WrapVecSound(vec: seq<Entry>, v: seq<Entry>, index: nat)
    requires |vec| >= 2 && HasTag(vec, index) && multiset(v) == multiset(vec)
    ensures WrapVec(v, index).Some? && multiset(WrapVec(v, index).value) == multiset(vec)
  {
    PermutationHasTag(vec, v, index);
    assert |v| == |multiset(v)| == |multiset(vec)| == |vec|;
    WrapVecSome(v, index);
    WrapVecPermutes(v, index);
  }

  /** On a list of at least two entries that carries every original position, the mix never
    * panics and yields a permutation of the list. */
  lemma {:induction false} MixStepsSound(vec: seq<Entry>, n: nat)
    requires |vec| >= 2 && n <= |vec| && AllTagged(vec)
    ensures MixSteps(vec, n).Some? && multiset(MixSteps(vec, n).value) == multiset(vec)
  {
    if n > 0 {
      MixStepsSound(vec, n - 1);
      var prev := MixSteps(vec, n - 1).value;
      assert HasTag(vec, n - 1);
      WrapVecSound(vec, prev, n - 1);
      assert MixSteps(vec, n) == WrapVec(prev, n - 1);
    }
  }

  /** The same for any number of mixes. */
  lemma {:induction false} MixRoundsSound(vec: seq<Entry>, rounds: nat)
    requires |vec| >= 2 && AllTagged(vec)
    ensures MixRounds(vec, rounds).Some? && multiset(MixRounds(vec, rounds).value) == multiset(vec)
  {
    if rounds > 0 {
      MixRoundsSound(vec, rounds - 1);
      var v := MixRounds(vec, rounds - 1).value;
      PermutationTagged(vec, v);
      MixStepsSound(v, |v|);
    }
  }

  // ---------------------------------------------------------------------
  // parse_input and the grove coordinates.

  /** `line.parse::<i64>()`. */
  function ParseValue(line: string): Option<int>
  {
    ParseSigned(line, I64Min, I64Max)
  }

  /** Each value tagged with its position. */
  function Tagged(values: seq<int>): (r: seq<Entry>)
    ensures |r| == |values|
    ensures forall k :: 0 <= k < |r| ==> r[k] == Entry(k, values[k])
  {
    seq(|values|, k requires 0 <= k < |values| => Entry(k, values[k]))
  }

  /** `parse_input`: `None` where a line is no `i64`, which panics. */
  function ParseInput(lines: seq<string>): Option<seq<Entry>>
  {
    var values := ParseAll(lines, ParseValue);
    if values.None? then None else Some(Tagged(values.value))
  }

  /** A parsed list carries every original position. */
  lemma TaggedAll(values: seq<int>)
    ensures AllTagged(Tagged(values))
  {
    var r := Tagged(values);
    forall t: nat | t < |r|
      ensures HasTag(r, t)
    {
      assert r[t].tag == t;
    }
  }

  /** The values 1000, 2000 and 3000 places after the first zero, counting round the list of
    * length `len`; a missing zero fails the `unwrap`. */
  function GroveSum(vec: seq<Entry>, len: nat): Option<int>
  {
    var zero := FindFirst(vec, IsZero);
    if zero.None? || len == 0 then None
    else
      var a := (1000 + zero.value) % len;
      var b := (2000 + zero.value) % len;
      var c := (3000 + zero.value) % len;
      if a < |vec| && b < |vec| && c < |vec| then Some(vec[a].value + vec[b].value + vec[c].value)
      else None
  }

  /** With the length of the list itself, the sum exists exactly when the list holds a zero;
    * the `get`s never fail. */
  lemma GroveSumSome(vec: seq<Entry>)
    ensures GroveSum(vec, |vec|).Some? <==> exists k :: 0 <= k < |vec| && vec[k].value == 0
  {
    if exists k :: 0 <= k < |vec| && vec[k].value == 0 {
      var k :| 0 <= k < |vec| && vec[k].value == 0;
      assert IsZero(vec[k]);
      FindFirstSpec(vec, IsZero);
    }
  }

  // ---------------------------------------------------------------------
  // The answers.

  /** The answer for parsed entries mixed `rounds` times. */
  function Answer(coordinates: Option<seq<Entry>>, rounds: nat): Option<int>
  {
    if coordinates.None? then None
    else
      var mixed := MixRounds(coordinates.value, rounds);
      if mixed.None? then None else GroveSum(mixed.value, |coordinates.value|)
  }

  /** Parsed entries with at least two values, one of them zero, always have an answer: no
    * `unwrap` panics. */
  lemma AnswerSome(values: seq<int>, rounds: nat)
    requires |values| >= 2 && 0 in values
    ensures Answer(Some(Tagged(values)), rounds).Some?
  {
    var vec := Tagged(values);
    TaggedAll(values);
    MixRoundsSound(vec, rounds);
    var mixed := MixRounds(vec, rounds).value;
    var k :| 0 <= k < |values| && values[k] == 0;
    assert vec[k] in multiset(mixed);
    var k' :| 0 <= k' < |mixed| && mixed[k'] == vec[k];
    assert |mixed| == |multiset(mixed)| == |multiset(vec)| == |vec|;
    GroveSumSome(mixed);
  }

  const DecryptionKey: int := 811589153

  /** The values multiplied by the decryption key. */
  function Scaled(coordinates: Option<seq<Entry>>): (r: Option<seq<Entry>>)
    ensures r.Some? <==> coordinates.Some?
    ensures r.Some? ==> |r.value| == |coordinates.value|
    ensures r.Some? ==> forall k :: 0 <= k < |r.value| ==>
      r.value[k] == Entry(coordinates.value[k].tag, coordinates.value[k].value * DecryptionKey)
  {
    if coordinates.None? then None
    else
      var c := coordinates.value;
      Some(seq(|c|, k requires 0 <= k < |c| => Entry(c[k].tag, c[k].value * DecryptionKey)))
  }

  /** part_one: one mix, then the grove coordinates. */
  method PartOne(lines: seq<string>) returns (r: Option<int>)
    ensures r == Answer(ParseInput(lines), 1)
  {
    var coordinates := ParseInput(lines);
    if coordinates.None? {
      return None;
    }
    var vec := Mix(coordinates.value);
    assert MixRounds(coordinates.value, 1) == vec;
    if vec.None? {
      return None;
    }
    r := GroveSum(vec.value, |coordinates.value|);
  }

  /** part_two: the values times the decryption key, ten mixes, then the grove coordinates. */
  method PartTwo(lines: seq<string>) returns (r: Option<int>)
    ensures r == Answer(Scaled(ParseInput(lines)), 10)
  {
    var coordinates := Scaled(ParseInput(lines));
    if coordinates.None? {
      return None;
    }
    var vec := MixRepeated(coordinates.value, 10);
    if vec.None? {
      return None;
    }
    r := GroveSum(vec.value, |coordinates.value|);
  }
}
