/**
 * Day 25: balanced base-5 ("SNAFU") numerals. Digits are '2', '1', '0', '-', '='
 * worth 2, 1, 0, -1, -2; each position is worth five times the one to its right.
 */
module Day25 {
  import opened Wrappers
  import opened Seqs

  datatype Error =
    | InvalidCharacter(c: char)   // snafu_to_int panics on a character that is not a digit
    | InvalidDigit(d: int)        // int_to_snafu panics on a remainder outside 0..4

  function DigitValue(c: char): Option<int>
  {
    match c
    case '2' => Some(2)
    case '1' => Some(1)
    case '0' => Some(0)
    case '-' => Some(-1)
    case '=' => Some(-2)
    case _ => None
  }

  predicate IsSnafu(s: string)
  {
    forall i :: 0 <= i < |s| ==> DigitValue(s[i]).Some?
  }

  function Pow5(n: nat): (r: int)
    ensures r >= 1
  {
    if n == 0 then 1 else 5 * Pow5(n - 1)
  }

  /**
   * The meaning of a numeral: the value of all digits but the last, times five, plus the
   * last digit. A bad character fails, and the one reported is the rightmost, because the
   * source scans from the right.
   */
  function Decode(s: string): (r: Result<int, Error>)
    ensures r.Ok? <==> IsSnafu(s)
  {
    if s == [] then Ok(0)
    else
      match DigitValue(s[|s| - 1])
      case None => Err(InvalidCharacter(s[|s| - 1]))
      case Some(d) =>
        match Decode(s[..|s| - 1])
        case Err(e) => Err(e)
        case Ok(high) => Ok(5 * high + d)
  }

  /** The value of a digit string read as a positional sum, scanning from the right. */
  lemma {:induction false} DecodeSplit(p: string, q: string)
    requires IsSnafu(p + q)
    ensures IsSnafu(p) && IsSnafu(q)
    ensures Decode(p + q).value == Decode(p).value * Pow5(|q|) + Decode(q).value
  {
    assert forall i | 0 <= i < |p| :: p[i] == (p + q)[i];
    assert forall i | 0 <= i < |q| :: q[i] == (p + q)[|p| + i];
    if q != [] {
      var q' := q[..|q| - 1];
      assert (p + q)[..|p + q| - 1] == p + q';
      assert IsSnafu(p + q') by {
        assert forall i | 0 <= i < |p + q'| :: (p + q')[i] == (p + q)[i];
      }
      DecodeSplit(p, q');
      assert q[..|q| - 1] == q';
      var d := DigitValue(q[|q| - 1]).value;
      var a, b, w := Decode(p).value, Decode(q').value, Pow5(|q'|);
      assert (p + q)[|p + q| - 1] == q[|q| - 1];
      assert Decode(p + q).value == 5 * (a * w + b) + d;
      assert Decode(q).value == 5 * b + d;
      assert Pow5(|q|) == 5 * w;
      Regroup(a, w, b, d);
    } else {
      assert p + q == p;
    }
  }

  lemma Regroup(a: int, w: int, b: int, d: int)
    ensures 5 * (a * w + b) + d == a * (5 * w) + (5 * b + d)
  {
  }

  /** The rightmost bad character is the one Decode reports. */
  lemma {:induction false} DecodeRightmostError(s: string, j: int)
    requires 0 <= j < |s|
    requires DigitValue(s[j]).None?
    requires forall k :: j < k < |s| ==> DigitValue(s[k]).Some?
    ensures Decode(s) == Err(InvalidCharacter(s[j]))
  {
    if j < |s| - 1 {
      var p := s[..|s| - 1];
      DecodeRightmostError(p, j);
    }
  }

  /** snafu_to_int: the loop over the reversed characters, each worth `digit * 5^i`. */
  method SnafuToInt(s: string) returns (r: Result<int, Error>)
    ensures r == Decode(s)
  {
    var result := 0;
    var base := 1;
    var i := 0;
    while i < |s|
      invariant 0 <= i <= |s|
      invariant base == Pow5(i)
      invariant IsSnafu(s[|s| - i..]) && Decode(s[|s| - i..]) == Ok(result)
    {
      var c := s[|s| - 1 - i];
      var d := DigitValue(c);
      if d.None? {
        DecodeRightmostError(s, |s| - 1 - i);
        return Err(InvalidCharacter(c));
      }
      ghost var tail := s[|s| - i..];
      ghost var tail' := s[|s| - 1 - i..];
      assert tail' == [c] + tail;
      assert IsSnafu(tail') by {
        assert forall k | 0 < k < |tail'| :: tail'[k] == tail[k - 1];
      }
      DecodeSplit([c], tail);
      assert Decode([c]).value == d.value by {
        assert [c][..0] == [];
      }
      result := result + d.value * base;
      base := base * 5;
      i := i + 1;
    }
    assert s[|s| - i..] == s;
    r := Ok(result);
  }

  /** Rust's `/` and `%` on i64 truncate toward zero. */
  function TruncDiv(a: int, b: int): int
    requires b > 0
  {
    if a >= 0 then a / b else -((-a) / b)
  }

  function TruncRem(a: int, b: int): int
    requires b > 0
  {
    a - b * TruncDiv(a, b)
  }

  function SnafuChar(d: int): Option<char>
  {
    match d
    case 0 => Some('=')
    case 1 => Some('-')
    case 2 => Some('0')
    case 3 => Some('1')
    case 4 => Some('2')
    case _ => None
  }

  function Abs(n: int): nat
  {
    if n < 0 then -n else n
  }

  lemma ShrinksTowardZero(n: int)
    requires n != 0
    ensures Abs(TruncDiv(n + 2, 5)) < Abs(n)
  {
  }

  function Suffix(r: Result<string, Error>, tail: string): Result<string, Error>
  {
    match r
    case Ok(s) => Ok(s + tail)
    case Err(e) => Err(e)
  }

  /**
   * int_to_snafu as a recursion: the least significant digit is `(n + 2) rem 5`, rendered
   * as '=', '-', '0', '1', '2', the rest of the numeral encodes `(n + 2) / 5`.
   */
  function Encode(n: int): Result<string, Error>
    decreases Abs(n)
  {
    if n == 0 then Ok([])
    else
      var d := TruncRem(n + 2, 5);
      match SnafuChar(d)
      case None => Err(InvalidDigit(d))
      case Some(c) =>
        ShrinksTowardZero(n);
        Suffix(Encode(TruncDiv(n + 2, 5)), [c])
  }

  /** int_to_snafu: push the low digit, move to `(num + 2) / 5`, reverse at the end. */
  method IntToSnafu(n: int) returns (r: Result<string, Error>)
    ensures r == Encode(n)
    ensures n == 0 ==> r == Ok([])
  {
    var num := n;
    var result: string := [];
    match Encode(n) {
      case Ok(s) => assert s + [] == s;
      case Err(_) =>
    }
    while num != 0
      invariant Encode(n) == Suffix(Encode(num), Reverse(result))
      decreases Abs(num)
    {
      var digit := TruncRem(num + 2, 5);
      var c := SnafuChar(digit);
      if c.None? {
        return Err(InvalidDigit(digit));
      }
      ghost var before := result;
      result := result + [c.value];
      assert Reverse(result) == [c.value] + Reverse(before);
      ShrinksTowardZero(num);
      var next := TruncDiv(num + 2, 5);
      assert Encode(num) == Suffix(Encode(next), [c.value]);
      match Encode(next) {
        case Ok(s) => assert s + [c.value] + Reverse(before) == s + Reverse(result);
        case Err(_) =>
      }
      num := next;
    }
    assert [] + Reverse(result) == Reverse(result);
    r := Ok(Reverse(result));
  }

  /** A digit the encoder writes is worth two less than the remainder it comes from. */
  lemma SnafuCharValue(d: int)
    requires SnafuChar(d).Some?
    ensures DigitValue(SnafuChar(d).value) == Some(d - 2)
  {
  }

  /** Whenever the encoder does not panic, decoding its output gives back the number. */
  lemma {:induction false} RoundTrip(n: int)
    requires Encode(n).Ok?
    decreases Abs(n)
    ensures IsSnafu(Encode(n).value)
    ensures Decode(Encode(n).value) == Ok(n)
  {
    if n != 0 {
      var d := TruncRem(n + 2, 5);
      var q := TruncDiv(n + 2, 5);
      var c := SnafuChar(d).value;
      ShrinksTowardZero(n);
      RoundTrip(q);
      var s := Encode(q).value;
      assert Encode(n).value == s + [c];
      assert DigitValue(c) == Some(d - 2) by {
        SnafuCharValue(d);
      }
      assert n == 5 * q + (d - 2);
      var t := s + [c];
      assert t[..|s|] == s && t[|t| - 1] == c;
      assert Decode(t) == Ok(5 * q + (d - 2));
      assert IsSnafu(t) by {
        assert forall i | 0 <= i < |s| :: t[i] == s[i];
      }
    }
  }

  /** The encoder never panics on a non-negative number. */
  lemma {:induction false} EncodeNonNegative(n: int)
    requires n >= 0
    decreases n
    ensures Encode(n).Ok?
  {
    if n != 0 {
      ShrinksTowardZero(n);
      EncodeNonNegative(TruncDiv(n + 2, 5));
    }
  }

  /** The sum of the decoded lines, or the first line's error. */
  function Total(lines: seq<string>): (r: Result<int, Error>)
    ensures r.Ok? <==> forall i :: 0 <= i < |lines| ==> IsSnafu(lines[i])
  {
    if lines == [] then Ok(0)
    else
      match Total(lines[..|lines| - 1])
      case Err(e) => Err(e)
      case Ok(t) =>
        match Decode(lines[|lines| - 1])
        case Err(e) => Err(e)
        case Ok(v) => Ok(t + v)
  }

  /** part_one: decode every line, sum, and re-encode the sum. */
  method PartOne(lines: seq<string>) returns (r: Result<string, Error>)
    ensures r.Ok? ==> IsSnafu(r.value) && Decode(r.value) == Total(lines)
    ensures Total(lines).Ok? ==> r == Encode(Total(lines).value)
    ensures Total(lines).Ok? && Total(lines).value >= 0 ==> r.Ok?
    ensures (exists i :: 0 <= i < |lines| && !IsSnafu(lines[i])) ==> r.Err?
  {
    var total := 0;
    var i := 0;
    while i < |lines|
      invariant 0 <= i <= |lines|
      invariant forall k :: 0 <= k < i ==> IsSnafu(lines[k])
      invariant Total(lines[..i]) == Ok(total)
    {
      var v := SnafuToInt(lines[i]);
      if v.Err? {
        return Err(v.error);
      }
      assert lines[..i + 1][..i] == lines[..i];
      total := total + v.value;
      i := i + 1;
    }
    assert lines[..i] == lines;
    r := IntToSnafu(total);
    if r.Ok? {
      RoundTrip(total);
    }
    if total >= 0 {
      EncodeNonNegative(total);
    }
  }

  /** The puzzle's sample numerals; their sum is 4890. */
  const Example: seq<string> :=
    ["1=-0-2", "12111", "2=0=", "21", "2=01", "111", "20012", "112", "1=-1=", "1-12", "12", "1=", "122"]

  /** The sample lines decode to 1747, 906, 198, 11, 201, 31 and 1257. */
  lemma ExampleDecodesA()
    ensures Decode("1=-0-2") == Ok(1747)
    ensures Decode("12111") == Ok(906)
    ensures Decode("2=0=") == Ok(198)
    ensures Decode("21") == Ok(11)
    ensures Decode("2=01") == Ok(201)
    ensures Decode("111") == Ok(31)
    ensures Decode("20012") == Ok(1257)
  {
    assert "1="[..1] == "1"; assert "1=-"[..2] == "1="; assert "1=-0"[..3] == "1=-"; assert "1=-0-"[..4] == "1=-0"; assert "1=-0-2"[..5] == "1=-0-";
    assert "12"[..1] == "1"; assert "121"[..2] == "12"; assert "1211"[..3] == "121"; assert "12111"[..4] == "1211";
    assert "2="[..1] == "2"; assert "2=0"[..2] == "2="; assert "2=0="[..3] == "2=0";
    assert "21"[..1] == "2";
    assert "2="[..1] == "2"; assert "2=0"[..2] == "2="; assert "2=01"[..3] == "2=0";
    assert "11"[..1] == "1"; assert "111"[..2] == "11";
    assert "20"[..1] == "2"; assert "200"[..2] == "20"; assert "2001"[..3] == "200"; assert "20012"[..4] == "2001";
  }

  /** The remaining sample lines decode to 32, 353, 107, 7, 3 and 37. */
  lemma ExampleDecodesB()
    ensures Decode("112") == Ok(32)
    ensures Decode("1=-1=") == Ok(353)
    ensures Decode("1-12") == Ok(107)
    ensures Decode("12") == Ok(7)
    ensures Decode("1=") == Ok(3)
    ensures Decode("122") == Ok(37)
  {
    assert "11"[..1] == "1"; assert "112"[..2] == "11";
    assert "1="[..1] == "1"; assert "1=-"[..2] == "1="; assert "1=-1"[..3] == "1=-"; assert "1=-1="[..4] == "1=-1";
    assert "1-"[..1] == "1"; assert "1-1"[..2] == "1-"; assert "1-12"[..3] == "1-1";
    assert "12"[..1] == "1";
    assert "1="[..1] == "1";
    assert "12"[..1] == "1"; assert "122"[..2] == "12";
  }

  /** Lines whose values are known total the sum of those values. */
  lemma {:induction false} TotalOfValues(lines: seq<string>, values: seq<int>)
    requires |values| == |lines|
    requires forall i :: 0 <= i < |lines| ==> Decode(lines[i]) == Ok(values[i])
    ensures Total(lines) == Ok(Sum(values))
  {
    if lines != [] {
      var n := |lines| - 1;
      TotalOfValues(lines[..n], values[..n]);
      assert values == values[..n] + [values[n]];
      SumAppend(values[..n], [values[n]]);
    }
  }

  /** The values of the sample lines, in order. */
  const ExampleValues: seq<int> := [1747, 906, 198, 11, 201, 31, 1257, 32, 353, 107, 7, 3, 37]

  lemma ExampleLines()
    ensures |ExampleValues| == |Example|
    ensures forall i :: 0 <= i < |Example| ==> Decode(Example[i]) == Ok(ExampleValues[i])
  {
    ExampleDecodesA();
    ExampleDecodesB();
  }

  lemma ExampleSum()
    ensures Sum(ExampleValues) == 4890
  {
  }

  lemma ExampleTotal()
    ensures Total(Example) == Ok(4890)
  {
    ExampleLines();
    ExampleSum();
    TotalOfValues(Example, ExampleValues);
  }

  /** The sample's answer: the re-encoded sum is "2=-1=0". */
  lemma ExampleEncode()
    ensures Encode(4890) == Ok("2=-1=0")
  {
    assert [] + "2" == "2" && "2" + "=" == "2=" && "2=" + "-" == "2=-";
    assert "2=-" + "1" == "2=-1" && "2=-1" + "=" == "2=-1=" && "2=-1=" + "0" == "2=-1=0";
    assert Encode(2) == Ok("2");
    assert Encode(8) == Ok("2=");
    assert Encode(39) == Ok("2=-");
    assert Encode(196) == Ok("2=-1");
    assert Encode(978) == Ok("2=-1=");
  }

  /** part_one on the sample answers "2=-1=0", as the source's test expects. */
  method ExampleAnswer() returns (r: Result<string, Error>)
    ensures r == Ok("2=-1=0")
  {
    r := PartOne(Example);
    ExampleTotal();
    ExampleEncode();
  }
}
