/** Day 6: the start-of-packet and start-of-message markers of a datastream, the first place
  * where the last 4 (or 14) characters received are all different. */
module Day06 {
  import opened Wrappers
  import opened Seqs

  /** `HashSet::from_iter(buffer.iter())`: the characters of the buffer. */
  function Elements(s: seq<char>): set<char>
  {
    set c | c in s
  }

  /** A set built from a sequence is no larger than it, and exactly as large when no element
    * occurs twice: so the source's `set.len() == buffer.len()` is a test for distinctness. */
  lemma {:induction false} ElementsCard(s: seq<char>)
    ensures |Elements(s)| <= |s|
    ensures |Elements(s)| == |s| <==> Distinct(s)
  {
    if s != [] {
      var n := |s| - 1;
      var init := s[..n];
      ElementsCard(init);
      assert Elements(s) == Elements(init) + {s[n]} by {
        assert forall c :: c in s <==> c in init || c == s[n];
      }
      if s[n] in init {
        var k :| 0 <= k < n && init[k] == s[n];
        assert s[k] == s[n];
        assert Elements(s) == Elements(init);
      } else {
        assert s[n] !in Elements(init);
        assert Distinct(s) <==> Distinct(init) by {
          assert forall i :: 0 <= i < n ==> init[i] == s[i] && s[i] != s[n];
        }
      }
    }
  }

  /** The `width` characters that end just before position `n`. */
  function Window(input: string, n: nat, width: nat): string
    requires width <= n <= |input|
  {
    input[n - width..n]
  }

  /** Position `n` ends a window of `width` distinct characters. */
  predicate IsMarker(input: string, n: nat, width: nat)
  {
    width <= n <= |input| && Distinct(Window(input, n, width))
  }

  /** The answer of the scan from position `i` on: `Some(n)` for the first `n > i` that ends a
    * window of `width` distinct characters. */
  function MarkerFrom(input: string, width: nat, i: nat): Option<nat>
    decreases |input| - i
  {
    if i >= |input| then None
    else if IsMarker(input, i + 1, width) then Some(i + 1)
    else MarkerFrom(input, width, i + 1)
  }

  /** The marker of the whole input. */
  function Marker(input: string, width: nat): Option<nat>
  {
    MarkerFrom(input, width, 0)
  }

  /** A scan from `i` that answers finds the first position after `i` that ends a distinct
    * window. */
  lemma {:induction false} MarkerFromFirst(input: string, width: nat, i: nat)
    requires MarkerFrom(input, width, i).Some?
    ensures i < MarkerFrom(input, width, i).value && IsMarker(input, MarkerFrom(input, width, i).value, width)
    ensures forall m :: i < m < MarkerFrom(input, width, i).value ==> !IsMarker(input, m, width)
    decreases |input| - i
  {
    if !IsMarker(input, i + 1, width) {
      assert MarkerFrom(input, width, i) == MarkerFrom(input, width, i + 1);
      MarkerFromFirst(input, width, i + 1);
    }
  }

  /** A scan from `i` that does not answer has passed no distinct window after `i`. */
  lemma {:induction false} MarkerFromNone(input: string, width: nat, i: nat)
    requires MarkerFrom(input, width, i).None?
    ensures forall m :: i < m ==> !IsMarker(input, m, width)
    decreases |input| - i
  {
    if i < |input| {
      assert MarkerFrom(input, width, i) == MarkerFrom(input, width, i + 1);
      MarkerFromNone(input, width, i + 1);
    }
  }

  /** The marker is the end of the first window of `width` distinct characters, so it is at
    * least `width`; there is no marker exactly when no such window exists. */
  lemma MarkerSpec(input: string, width: nat)
    requires width >= 1
    ensures Marker(input, width).Some? ==>
      width <= Marker(input, width).value <= |input| && IsMarker(input, Marker(input, width).value, width) &&
      forall m :: 0 < m < Marker(input, width).value ==> !IsMarker(input, m, width)
    ensures Marker(input, width).None? <==> forall m :: 0 < m ==> !IsMarker(input, m, width)
  {
    if Marker(input, width).Some? {
      MarkerFromFirst(input, width, 0);
    } else {
      MarkerFromNone(input, width, 0);
    }
  }

  /** A window of distinct characters ends in shorter windows of distinct characters, so the
    * marker for a narrower width comes no later: the start-of-packet marker is never after the
    * start-of-message marker. */
  lemma MarkerMonotone(input: string, narrow: nat, wide: nat)
    requires 1 <= narrow <= wide && Marker(input, wide).Some?
    ensures Marker(input, narrow).Some? && Marker(input, narrow).value <= Marker(input, wide).value
  {
    MarkerSpec(input, wide);
    MarkerSpec(input, narrow);
    var n := Marker(input, wide).value;
    var w := Window(input, n, wide);
    assert Window(input, n, narrow) == w[wide - narrow..];
    assert IsMarker(input, n, narrow) by {
      forall i, j | 0 <= i < j < narrow
        ensures Window(input, n, narrow)[i] != Window(input, n, narrow)[j]
      {
        assert w[wide - narrow + i] != w[wide - narrow + j];
      }
    }
  }

  /** The source's test on a full buffer: its set of characters is as large as the buffer
    * exactly when the window ending at `n` is a marker. */
  lemma BufferTest(input: string, n: nat, width: nat, buffer: seq<char>)
    requires width <= n <= |input| && buffer == input[n - width..n]
    ensures |Elements(buffer)| == width <==> IsMarker(input, n, width)
  {
    ElementsCard(buffer);
  }

  /** How many characters the buffer holds before position `index` is pushed: all of them
    * until it fills up, and then one less than `width`. */
  function Held(index: nat, width: nat): nat
    requires width >= 1
  {
    if index < width - 1 then index else width - 1
  }

  /** One turn of the loop: push the character at `index`; when the buffer is full, report
    * whether its characters are distinct, and otherwise drop the oldest. */
  method Push(input: string, width: nat, index: nat, buffer: seq<char>) returns (found: bool, next: seq<char>)
    requires width >= 1 && index < |input|
    requires |buffer| == Held(index, width) && buffer == input[index - |buffer|..index]
    ensures found <==> IsMarker(input, index + 1, width)
    ensures |next| == Held(index + 1, width) && next == input[index + 1 - |next|..index + 1]
  {
    next := buffer + [input[index]];
    assert next == input[index + 1 - |next|..index + 1];
    found := false;
    if |next| == width {
      BufferTest(input, index + 1, width, next);
      var seen := Elements(next);
      found := |seen| == width;
      next := next[1..];
    }
  }

  /** The loop of both parts: push each character, and answer at the first full buffer of
    * distinct characters. */
  method FindMarker(input: string, width: nat) returns (r: Option<nat>)
    requires width >= 1
    ensures r == Marker(input, width)
  {
    var buffer: seq<char> := [];
    for index := 0 to |input|
      invariant |buffer| == Held(index, width) && buffer == input[index - |buffer|..index]
      invariant MarkerFrom(input, width, index) == Marker(input, width)
    {
      var found;
      found, buffer := Push(input, width, index, buffer);
      if found {
        return Some(index + 1);
      }
    }
    return None;
  }

  /** part_one: the start-of-packet marker, after 4 distinct characters. */
  method PartOne(input: string) returns (r: Option<nat>)
    ensures r == Marker(input, 4)
  {
    r := FindMarker(input, 4);
  }

  /** part_two: the start-of-message marker, after 14 distinct characters. */
  method PartTwo(input: string) returns (r: Option<nat>)
    ensures r == Marker(input, 14)
  {
    r := FindMarker(input, 14);
  }
}
