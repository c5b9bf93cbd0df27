/** Day 13: packets that are numbers or lists of packets, their recursive ordering, the pairs
  * that are in the right order, and the positions of two divider packets after sorting. */
module Day13 {
  import opened Wrappers
  import opened Text
  import opened Seqs
  import opened Modular

  /** `Packet`: a list of packets or a `u32`. */
  datatype Packet = Collection(items: seq<Packet>) | Value(n: nat)

  datatype Ordering = Less | Equal | Greater

  function Flip(o: Ordering): Ordering
  {
    match o
    case Less => Greater
    case Equal => Equal
    case Greater => Less
  }

  /** `u32::cmp`. */
  function CmpNat(a: nat, b: nat): Ordering
  {
    if a < b then Less else if a == b then Equal else Greater
  }

  // ---------------------------------------------------------------------
  // The ordering (`impl Ord for Packet`).

  /** The number of packets in a packet, counting itself: the measure the ordering recurses on. */
  function Size(p: Packet): (r: nat)
    ensures r >= 1
    decreases p
  {
    match p
    case Value(_) => 1
    case Collection(items) => 1 + SizeAll(items)
  }

  function SizeAll(ps: seq<Packet>): nat
    decreases ps, 0
  {
    if ps == [] then 0 else Size(ps[0]) + SizeAll(ps[1..])
  }

  /** `Packet::cmp`: numbers numerically, lists lexicographically, and a number against a list as
    * the list holding just that number. */
  function Cmp(a: Packet, b: Packet): Ordering
    decreases Size(a) + Size(b), 0
  {
    match (a, b)
    case (Value(x), Value(y)) => CmpNat(x, y)
    case (Collection(xs), Collection(ys)) => CmpList(xs, ys)
    case (Value(x), Collection(ys)) =>
      assert SizeAll([Value(x)]) == 1;
      CmpList([Value(x)], ys)
    case (Collection(xs), Value(y)) =>
      assert SizeAll([Value(y)]) == 1;
      CmpList(xs, [Value(y)])
  }

  /** `Vec::cmp`: the first pair of positions that differ decides; otherwise the shorter list is
    * less. */
  function CmpList(xs: seq<Packet>, ys: seq<Packet>): Ordering
    decreases SizeAll(xs) + SizeAll(ys), 1
  {
    if xs == [] && ys == [] then Equal
    else if xs == [] then Less
    else if ys == [] then Greater
    else
      var c := Cmp(xs[0], ys[0]);
      if c != Equal then c else CmpList(xs[1..], ys[1..])
  }

  /** Comparing the other way round gives the opposite answer. */
  lemma {:induction false} CmpFlip(a: Packet, b: Packet)
    ensures Cmp(b, a) == Flip(Cmp(a, b))
    decreases Size(a) + Size(b), 0
  {
    match (a, b)
    case (Value(x), Value(y)) =>
    case (Collection(xs), Collection(ys)) =>
      CmpListFlip(xs, ys);
    case (Value(x), Collection(ys)) =>
      assert SizeAll([Value(x)]) == 1;
      CmpListFlip([Value(x)], ys);
    case (Collection(xs), Value(y)) =>
      assert SizeAll([Value(y)]) == 1;
      CmpListFlip(xs, [Value(y)]);
  }

  lemma {:induction false} CmpListFlip(xs: seq<Packet>, ys: seq<Packet>)
    ensures CmpList(ys, xs) == Flip(CmpList(xs, ys))
    decreases SizeAll(xs) + SizeAll(ys), 1
  {
    if xs != [] && ys != [] {
      CmpFlip(xs[0], ys[0]);
      CmpListFlip(xs[1..], ys[1..]);
    }
  }

  /** Every packet is equal to itself. */
  lemma {:induction false} CmpRefl(a: Packet)
    ensures Cmp(a, a) == Equal
    decreases Size(a) + Size(a), 0
  {
    match a
    case Value(_) =>
    case Collection(xs) => CmpListRefl(xs);
  }

  lemma {:induction false} CmpListRefl(xs: seq<Packet>)
    ensures CmpList(xs, xs) == Equal
    decreases SizeAll(xs) + SizeAll(xs), 1
  {
    if xs != [] {
      CmpRefl(xs[0]);
      CmpListRefl(xs[1..]);
    }
  }

  /** A proper prefix of a list is less than the list. */
  lemma {:induction false} PrefixLess(xs: seq<Packet>, ys: seq<Packet>)
    requires |xs| < |ys| && xs == ys[..|xs|]
    ensures CmpList(xs, ys) == Less
  {
    if xs != [] {
      CmpRefl(xs[0]);
      assert ys[0] == xs[0];
      PrefixLess(xs[1..], ys[1..]);
    }
  }

  /** Against any packet, on either side, a number compares as the list holding just it. */
  lemma LiftValue(x: nat, q: Packet)
    ensures Cmp(Value(x), q) == Cmp(Collection([Value(x)]), q)
    ensures Cmp(q, Value(x)) == Cmp(q, Collection([Value(x)]))
  {
    match q
    case Value(y) =>
      assert CmpList([Value(x)], [Value(y)]) == CmpNat(x, y) by {
        assert [Value(x)][1..] == [] && [Value(y)][1..] == [];
      }
      assert CmpList([Value(y)], [Value(x)]) == CmpNat(y, x) by {
        assert [Value(x)][1..] == [] && [Value(y)][1..] == [];
      }
    case Collection(ys) =>
  }

  /** The ordering calls a number and the list holding it equal, although they are different
    * packets, so `Ord` and the derived `Eq` disagree. */
  lemma EqualNotSame(x: nat)
    ensures Cmp(Value(x), Collection([Value(x)])) == Equal
    ensures Value(x) != Collection([Value(x)])
  {
    LiftValue(x, Collection([Value(x)]));
    CmpRefl(Collection([Value(x)]));
  }

  // ---------------------------------------------------------------------
  // From JSON (`impl TryFrom<Value> for Packet`).

  /** The decoded JSON values: arrays, integer numbers, other numbers, and everything else. */
  datatype Json = JArray(elements: seq<Json>) | JInt(i: int) | JFloat | JOther

  datatype PacketError = Invalid | Panic

  /** `try_from`: an array becomes a list of its converted elements, the first failure ending
    * the conversion; a number that `as_u64` accepts becomes its value cut to 32 bits; another
    * number panics in the `unwrap`; anything else is the error "Invalid packet". */
  function TryFrom(v: Json): Result<Packet, PacketError>
    decreases v
  {
    match v
    case JArray(arr) =>
      var ps := TryFromAll(arr);
      if ps.Err? then Err(ps.error) else Ok(Collection(ps.value))
    case JInt(i) => if 0 <= i < U64 then Ok(Value(i % U32)) else Err(Panic)
    case JFloat => Err(Panic)
    case JOther => Err(Invalid)
  }

  function TryFromAll(arr: seq<Json>): Result<seq<Packet>, PacketError>
    decreases arr, 0
  {
    if arr == [] then Ok([])
    else
      var first := TryFrom(arr[0]);
      if first.Err? then Err(first.error)
      else
        var rest := TryFromAll(arr[1..]);
        if rest.Err? then rest else Ok([first.value] + rest.value)
  }

  /** The values `try_from` accepts: arrays of them, and integers from 0 below 2^64. */
  predicate PacketLike(v: Json)
    decreases v
  {
    match v
    case JArray(arr) => forall k :: 0 <= k < |arr| ==> PacketLike(arr[k])
    case JInt(i) => 0 <= i < U64
    case JFloat => false
    case JOther => false
  }

  /** The conversion succeeds exactly on the values made of arrays and `u64` integers. */
  lemma {:induction false} TryFromOk(v: Json)
    ensures TryFrom(v).Ok? <==> PacketLike(v)
    decreases v
  {
    match v
    case JArray(arr) => TryFromAllOk(arr);
    case JInt(_) =>
    case JFloat =>
    case JOther =>
  }

  lemma {:induction false} TryFromAllOk(arr: seq<Json>)
    ensures TryFromAll(arr).Ok? <==> forall k :: 0 <= k < |arr| ==> PacketLike(arr[k])
    decreases arr, 0
  {
    if arr != [] {
      TryFromOk(arr[0]);
      TryFromAllOk(arr[1..]);
      assert forall k :: 1 <= k < |arr| ==> arr[k] == arr[1..][k - 1];
    }
  }

  /** Packets whose numbers fit in 32 bits. */
  predicate Fits(p: Packet)
    decreases p
  {
    match p
    case Value(n) => n < U32
    case Collection(items) => forall k :: 0 <= k < |items| ==> Fits(items[k])
  }

  /** A packet written as JSON. */
  function ToJson(p: Packet): Json
    decreases p
  {
    match p
    case Value(n) => JInt(n)
    case Collection(items) => JArray(ToJsonAll(items))
  }

  function ToJsonAll(ps: seq<Packet>): (r: seq<Json>)
    ensures |r| == |ps|
    decreases ps, 0
  {
    if ps == [] then [] else [ToJson(ps[0])] + ToJsonAll(ps[1..])
  }

  /** A packet with 32-bit numbers, written as JSON, converts back to itself. */
  lemma {:induction false} TryFromToJson(p: Packet)
    requires Fits(p)
    ensures TryFrom(ToJson(p)) == Ok(p)
    decreases p
  {
    match p
    case Value(n) =>
    case Collection(items) => TryFromToJsonAll(items);
  }

  lemma {:induction false} TryFromToJsonAll(ps: seq<Packet>)
    requires forall k :: 0 <= k < |ps| ==> Fits(ps[k])
    ensures TryFromAll(ToJsonAll(ps)) == Ok(ps)
    decreases ps, 0
  {
    if ps != [] {
      TryFromToJson(ps[0]);
      assert forall k :: 0 <= k < |ps[1..]| ==> ps[1..][k] == ps[k + 1];
      TryFromToJsonAll(ps[1..]);
      assert ToJsonAll(ps)[1..] == ToJsonAll(ps[1..]);
      assert [ps[0]] + ps[1..] == ps;
    }
  }

  // ---------------------------------------------------------------------
  // part_one.

  /** One block of the input: its first two lines, decoded as JSON by `decode`
    * (`serde_json::from_str`) and converted to packets; `None` where the source panics. */
  function DecodePair(block: string, decode: string -> Option<Json>): Option<(Packet, Packet)>
  {
    var lines := Lines(block);
    if |lines| < 2 then None
    else
      var j1 := decode(lines[0]);
      var j2 := decode(lines[1]);
      if j1.None? || j2.None? then None
      else
        var p1 := TryFrom(j1.value);
        var p2 := TryFrom(j2.value);
        if p1.Err? || p2.Err? then None else Some((p1.value, p2.value))
  }

  function PairDecoder(decode: string -> Option<Json>): string -> Option<(Packet, Packet)>
  {
    (block: string) => DecodePair(block, decode)
  }

  /** The 1-based positions of the pairs whose first packet is less than the second. */
  function OrderedIndices(pairs: seq<(Packet, Packet)>): (r: seq<nat>)
  {
    if pairs == [] then []
    else
      var init := pairs[..|pairs| - 1];
      var last := pairs[|pairs| - 1];
      OrderedIndices(init) + (if Cmp(last.0, last.1) == Less then [|pairs|] else [])
  }

  /** A position is listed exactly when its pair is in the right order. */
  lemma {:induction false} OrderedIndicesMembers(pairs: seq<(Packet, Packet)>)
    ensures forall x :: x in OrderedIndices(pairs) <==>
      1 <= x <= |pairs| && Cmp(pairs[x - 1].0, pairs[x - 1].1) == Less
  {
    if pairs != [] {
      var init := pairs[..|pairs| - 1];
      var last := pairs[|pairs| - 1];
      OrderedIndicesMembers(init);
      assert forall k :: 0 <= k < |init| ==> init[k] == pairs[k];
    }
  }

  predicate Increasing(s: seq<nat>)
  {
    forall i, j :: 0 <= i < j < |s| ==> s[i] < s[j]
  }

  /** The positions are listed in increasing order, so each pair counts once. */
  lemma {:induction false} OrderedIndicesIncrease(pairs: seq<(Packet, Packet)>)
    ensures Increasing(OrderedIndices(pairs))
  {
    if pairs != [] {
      var init := pairs[..|pairs| - 1];
      OrderedIndicesIncrease(init);
      OrderedIndicesMembers(init);
      var r0 := OrderedIndices(init);
      var last := pairs[|pairs| - 1];
      if Cmp(last.0, last.1) == Less {
        var r := r0 + [|pairs|];
        assert OrderedIndices(pairs) == r;
        forall i, j | 0 <= i < j < |r|
          ensures r[i] < r[j]
        {
          assert r[i] == r0[i];
          if j == |r0| {
            assert r0[i] in r0;
          } else {
            assert r[j] == r0[j];
          }
        }
      } else {
        assert OrderedIndices(pairs) == r0 + [];
        assert r0 + [] == r0;
      }
    }
  }

  /** One more pair adds its position exactly when it is in the right order. */
  lemma OrderedIndicesSnoc(pairs: seq<(Packet, Packet)>, p: (Packet, Packet))
    ensures OrderedIndices(pairs + [p]) ==
      OrderedIndices(pairs) + (if Cmp(p.0, p.1) == Less then [|pairs| + 1] else [])
  {
    var q := pairs + [p];
    assert q[..|q| - 1] == pairs;
    assert q[|q| - 1] == p;
  }

  /** part_one: the blocks between blank lines, and the sum of the positions of the pairs in
    * the right order; `None` when a block has fewer than two lines or a packet fails. */
  method PartOne(input: string, decode: string -> Option<Json>) returns (r: Option<int>)
    ensures var pairs := ParseAll(SplitOn(input, "\n\n"), PairDecoder(decode));
      r.Some? <==> pairs.Some?
    ensures var pairs := ParseAll(SplitOn(input, "\n\n"), PairDecoder(decode));
      r.Some? ==> r.value == Sum(OrderedIndices(pairs.value))
  {
    var blocks := SplitOn(input, "\n\n");
    var indexes: seq<nat> := [];
    ghost var pairs: seq<(Packet, Packet)> := [];
    for i := 0 to |blocks|
      invariant ParseAll(blocks[..i], PairDecoder(decode)) == Some(pairs) && |pairs| == i
      invariant indexes == OrderedIndices(pairs)
    {
      var pair := DecodePair(blocks[i], decode);
      ParseAllStep(blocks, PairDecoder(decode), i, pairs);
      assert PairDecoder(decode)(blocks[i]) == pair;
      if pair.None? {
        return None;
      }
      OrderedIndicesSnoc(pairs, pair.value);
      if Cmp(pair.value.0, pair.value.1) == Less {
        indexes := indexes + [i + 1];
      }
      pairs := pairs + [pair.value];
    }
    assert blocks[..|blocks|] == blocks;
    assert ParseAll(blocks, PairDecoder(decode)) == Some(pairs);
    r := Some(Sum(indexes));
  }

  // ---------------------------------------------------------------------
  // part_two.

  /** The lines of `split("\n")` that are not empty, in order. */
  function NonEmpty(lines: seq<string>): (r: seq<string>)
    ensures forall l :: l in r <==> l in lines && l != []
  {
    if lines == [] then []
    else
      var init := lines[..|lines| - 1];
      var last := lines[|lines| - 1];
      assert forall l :: l in lines <==> l in init || l == last;
      NonEmpty(init) + (if last != [] then [last] else [])
  }

  /** One line, decoded as JSON by `decode` and converted to a packet. */
  function DecodePacket(line: string, decode: string -> Option<Json>): Option<Packet>
  {
    var j := decode(line);
    if j.None? then None
    else
      var p := TryFrom(j.value);
      if p.Err? then None else Some(p.value)
  }

  function PacketDecoder(decode: string -> Option<Json>): string -> Option<Packet>
  {
    (line: string) => DecodePacket(line, decode)
  }

  /** The divider packets `[[2]]` and `[[6]]`. */
  function Divider(n: nat): Packet
  {
    Collection([Collection([Value(n)])])
  }

  /** A one-element array converts as its element does. */
  lemma TryFromSingle(v: Json)
    ensures TryFromAll([v]) == if TryFrom(v).Err? then Err(TryFrom(v).error) else Ok([TryFrom(v).value])
  {
    var a := [v];
    assert a[0] == v && a[1..] == [];
    assert TryFromAll(a[1..]) == Ok([]);
    if TryFrom(v).Ok? {
      assert [TryFrom(v).value] + [] == [TryFrom(v).value];
    }
  }

  /** The JSON of a divider converts to the divider. */
  lemma DividerFromJson(n: nat)
    requires n < U32
    ensures TryFrom(JArray([JArray([JInt(n)])])) == Ok(Divider(n))
  {
    SmallMod(n, U32);
    assert TryFrom(JInt(n)) == Ok(Value(n));
    TryFromSingle(JInt(n));
    assert TryFrom(JArray([JInt(n)])) == Ok(Collection([Value(n)]));
    TryFromSingle(JArray([JInt(n)]));
  }

  /** Consecutive packets are never out of order. */
  ghost predicate Sorted(s: seq<Packet>)
  {
    forall i, j :: 0 <= i < j < |s| && j == i + 1 ==> Cmp(s[i], s[j]) != Greater
  }

  /** Inserts `x` after every packet at the back that is not greater than it, which keeps equal
    * packets in their input order. */
  function Insert(s: seq<Packet>, x: Packet): (r: seq<Packet>)
    ensures |r| == |s| + 1
    ensures multiset(r) == multiset(s) + multiset{x}
    ensures r[|r| - 1] == x || (s != [] && r[|r| - 1] == s[|s| - 1])
  {
    if s == [] || Cmp(s[|s| - 1], x) != Greater then s + [x]
    else
      var init := s[..|s| - 1];
      assert s == init + [s[|s| - 1]];
      Insert(init, x) + [s[|s| - 1]]
  }

  lemma {:induction false} InsertSorted(s: seq<Packet>, x: Packet)
    requires Sorted(s)
    ensures Sorted(Insert(s, x))
  {
    if s != [] && Cmp(s[|s| - 1], x) == Greater {
      var init := s[..|s| - 1];
      var last := s[|s| - 1];
      assert Sorted(init);
      InsertSorted(init, x);
      var r := Insert(init, x);
      CmpFlip(last, x);
      assert Cmp(r[|r| - 1], last) != Greater;
      assert Insert(s, x) == r + [last];
    }
  }

  /** `sort`: a stable sort, as the standard library's is. */
  function Sort(s: seq<Packet>): (r: seq<Packet>)
    ensures multiset(r) == multiset(s)
    ensures Sorted(r)
  {
    if s == [] then []
    else
      var init := s[..|s| - 1];
      assert s == init + [s[|s| - 1]];
      InsertSorted(Sort(init), s[|s| - 1]);
      Insert(Sort(init), s[|s| - 1])
  }

  /** `iter().enumerate().find(...)`: the first position holding `x`. */
  function Find(s: seq<Packet>, x: Packet): (r: Option<nat>)
    ensures r.Some? <==> x in s
    ensures r.Some? ==> r.value < |s| && s[r.value] == x && forall j :: 0 <= j < r.value ==> s[j] != x
  {
    if s == [] then None
    else if s[0] == x then Some(0)
    else
      var rest := Find(s[1..], x);
      assert forall y :: y in s <==> y == s[0] || y in s[1..];
      if rest.None? then None else Some(rest.value + 1)
  }

  /** The list sorted (the dividers are in it), and the product of the dividers' 1-based
    * positions. */
  method DividerProduct(all: seq<Packet>, d1: Packet, d2: Packet) returns (r: nat)
    requires d1 in all && d2 in all
    ensures Find(Sort(all), d1).Some? && Find(Sort(all), d2).Some?
    ensures r == (Find(Sort(all), d1).value + 1) * (Find(Sort(all), d2).value + 1)
  {
    SortFinds(all, d1);
    SortFinds(all, d2);
    var sorted := Sort(all);
    var one := Find(sorted, d1);
    var two := Find(sorted, d2);
    MulAtLeast(one.value + 1, two.value + 1);
    r := (one.value + 1) * (two.value + 1);
  }

  /** `key` is the product of the 1-based positions of both dividers, once they are added to
    * the packets and the list is sorted; both are found there. */
  predicate IsDecoderKey(packets: seq<Packet>, d1: Packet, d2: Packet, key: nat)
  {
    var sorted := Sort(packets + [d1, d2]);
    Find(sorted, d1).Some? && Find(sorted, d2).Some? &&
    key == (Find(sorted, d1).value + 1) * (Find(sorted, d2).value + 1)
  }

  /** The dividers added, the list sorted, and the product of the dividers' positions. */
  method WithDividers(packets: seq<Packet>, d1: Packet, d2: Packet) returns (r: nat)
    ensures IsDecoderKey(packets, d1, d2, r)
  {
    var all := packets + [d1, d2];
    assert all[|all| - 2] == d1 && all[|all| - 1] == d2;
    r := DividerProduct(all, d1, d2);
  }

  /** Sorting keeps every packet, so a packet of the input is found in the sorted list. */
  lemma SortFinds(s: seq<Packet>, x: Packet)
    requires x in s
    ensures Find(Sort(s), x).Some?
  {
    assert x in multiset(s);
    assert x in multiset(Sort(s));
  }

  /** part_two: every non-empty line as a packet, the two dividers added, the list sorted, and
    * the product of the dividers' 1-based positions; the dividers are always found. */
  method PartTwo(input: string, decode: string -> Option<Json>) returns (r: Option<nat>)
    ensures var packets := ParseAll(NonEmpty(Split(input, '\n')), PacketDecoder(decode));
      r.Some? <==> packets.Some?
    ensures var packets := ParseAll(NonEmpty(Split(input, '\n')), PacketDecoder(decode));
      r.Some? ==> IsDecoderKey(packets.value, Divider(2), Divider(6), r.value)
  {
    var lines := NonEmpty(Split(input, '\n'));
    var packets := ParseLines(lines, PacketDecoder(decode));
    if packets.None? {
      return None;
    }
    var answer := WithDividers(packets.value, Divider(2), Divider(6));
    return Some(answer);
  }
}
