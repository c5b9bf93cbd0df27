/** Character-level text helpers shared by the puzzle parsers: splitting on a
  * separator, trimming, splitting on whitespace and decimal number parsing. */
module Text {
  import opened Wrappers

  /** The whitespace characters the parsers skip: space, tab, newline and carriage return only. */
  predicate IsSpace(c: char)
  {
    c == ' ' || c == '\t' || c == '\n' || c == '\r'
  }

  predicate IsDigit(c: char)
  {
    '0' <= c <= '9'
  }

  // ---------------------------------------------------------------------
  // Splitting on one separator character (`str::split(char)`).

  /** The pieces of `s` between occurrences of `sep`; never empty, like `str::split`. */
  function Split(s: string, sep: char): (r: seq<string>)
    ensures |r| >= 1
    ensures forall i :: 0 <= i < |r| ==> sep !in r[i]
  {
    if s == [] then [[]]
    else
      var rest := Split(s[1..], sep);
      if s[0] == sep then [[]] + rest
      else [[s[0]] + rest[0]] + rest[1..]
  }

  /** Puts the pieces back together with `sep` between consecutive pieces. */
  function Join(ps: seq<string>, sep: char): string
    requires |ps| >= 1
  {
    if |ps| == 1 then ps[0] else ps[0] + [sep] + Join(ps[1..], sep)
  }

  /** Splitting loses nothing: joining the pieces gives the input back. */
  lemma {:induction false} JoinSplit(s: string, sep: char)
    ensures Join(Split(s, sep), sep) == s
  {
    if s != [] {
      JoinSplit(s[1..], sep);
      var rest := Split(s[1..], sep);
      if s[0] == sep {
        assert Split(s, sep)[1..] == rest;
      } else {
        var r := Split(s, sep);
        if |rest| == 1 {
          assert r == [[s[0]] + rest[0]];
        } else {
          assert r[1..] == rest[1..];
          assert Join(rest, sep) == rest[0] + [sep] + Join(rest[1..], sep);
          assert s == [s[0]] + s[1..];
        }
      }
    }
  }

  /** And in the other direction: pieces free of `sep` are recovered by splitting their join. */
  lemma {:induction false} SplitJoin(ps: seq<string>, sep: char)
    requires |ps| >= 1
    requires forall i :: 0 <= i < |ps| ==> sep !in ps[i]
    ensures Split(Join(ps, sep), sep) == ps
  {
    if |ps| == 1 {
      SplitPiece(ps[0], [], sep);
      assert Split([], sep) == [[]];
      assert ps[0] + [] == ps[0];
    } else {
      SplitJoin(ps[1..], sep);
      var tail := [sep] + Join(ps[1..], sep);
      SplitPiece(ps[0], tail, sep);
      assert Join(ps, sep) == ps[0] + tail;
      assert Split(tail, sep) == [[]] + ps[1..] by {
        assert tail[0] == sep;
        assert tail[1..] == Join(ps[1..], sep);
      }
      assert ps[0] + [] == ps[0];
      assert [ps[0]] + ps[1..] == ps;
    }
  }

  /** A separator-free prefix joins the first piece of what follows it. */
  lemma {:induction false} SplitPiece(w: string, t: string, sep: char)
    requires sep !in w
    ensures Split(w + t, sep) == [w + Split(t, sep)[0]] + Split(t, sep)[1..]
  {
    var st := Split(t, sep);
    if w != [] {
      SplitPiece(w[1..], t, sep);
      var u := w + t;
      assert u[0] == w[0] && u[0] != sep;
      assert u[1..] == w[1..] + t;
      PieceCons(w[0], w[1..], st[0], st[1..], Split(u[1..], sep));
      assert [w[0]] + w[1..] == w;
    } else {
      assert w + t == t;
      assert w + st[0] == st[0];
      assert [st[0]] + st[1..] == st;
    }
  }

  /** A character put in front of a first piece `x + y` extends it to `[c] + x + y`. */
  lemma PieceCons(c: char, x: string, y: string, tail: seq<string>, rest: seq<string>)
    requires rest == [x + y] + tail
    ensures [[c] + rest[0]] + rest[1..] == [([c] + x) + y] + tail
  {
    assert rest[0] == x + y && rest[1..] == tail;
    assert [c] + (x + y) == ([c] + x) + y;
  }

  /** `str::lines`: the pieces between newlines; a final newline ends the last line rather than
    * starting an empty one. */
  function Lines(s: string): (r: seq<string>)
    ensures forall i :: 0 <= i < |r| ==> '\n' !in r[i]
    ensures s != [] ==> |r| >= 1
    ensures s != [] && s[|s| - 1] == '\n' ==> Join(r, '\n') + ['\n'] == s
    ensures s != [] && s[|s| - 1] != '\n' ==> Join(r, '\n') == s
  {
    if s == [] then []
    else if s[|s| - 1] == '\n' then
      JoinSplit(s[..|s| - 1], '\n');
      Split(s[..|s| - 1], '\n')
    else
      JoinSplit(s, '\n');
      Split(s, '\n')
  }

  // ---------------------------------------------------------------------
  // Splitting on a separator string (`str::split(&str)`).

  /** The pieces of `s` between the non-overlapping occurrences of `sep`, found left to right. */
  function SplitOn(s: string, sep: string): (r: seq<string>)
    requires sep != []
    ensures |r| >= 1
    decreases |s|
  {
    if |s| < |sep| then [s]
    else if s[..|sep|] == sep then [[]] + SplitOn(s[|sep|..], sep)
    else
      var rest := SplitOn(s[1..], sep);
      [[s[0]] + rest[0]] + rest[1..]
  }

  /** Puts the pieces back together with `sep` between consecutive pieces. */
  function JoinOn(ps: seq<string>, sep: string): string
    requires |ps| >= 1
  {
    if |ps| == 1 then ps[0] else ps[0] + sep + JoinOn(ps[1..], sep)
  }

  /** Splitting on a string loses nothing: joining the pieces gives the input back. */
  lemma {:induction false} JoinSplitOn(s: string, sep: string)
    requires sep != []
    ensures JoinOn(SplitOn(s, sep), sep) == s
    decreases |s|
  {
    if |s| >= |sep| {
      if s[..|sep|] == sep {
        var t := s[|sep|..];
        JoinSplitOn(t, sep);
        JoinOnEmptyFirst(SplitOn(t, sep), sep, t);
        assert s == sep + t;
      } else {
        var t := s[1..];
        JoinSplitOn(t, sep);
        JoinOnGrowFirst(SplitOn(t, sep), sep, t, s[0]);
        assert s == [s[0]] + t;
      }
    }
  }

  /** An empty first piece contributes only the separator that follows it. */
  lemma JoinOnEmptyFirst(rest: seq<string>, sep: string, t: string)
    requires |rest| >= 1 && JoinOn(rest, sep) == t
    ensures JoinOn([[]] + rest, sep) == sep + t
  {
    var e: string := [];
    var r := [e] + rest;
    assert r[0] == e && r[1..] == rest;
    assert JoinOn(r, sep) == e + sep + t;
    assert e + sep == sep;
  }

  /** A character put in front of the first piece comes first in the joined string. */
  lemma JoinOnGrowFirst(rest: seq<string>, sep: string, t: string, c: char)
    requires |rest| >= 1 && JoinOn(rest, sep) == t
    ensures JoinOn([[c] + rest[0]] + rest[1..], sep) == [c] + t
  {
    var r := [[c] + rest[0]] + rest[1..];
    if |rest| > 1 {
      assert r[1..] == rest[1..];
    }
  }

  // ---------------------------------------------------------------------
  // Trimming (`str::trim`).

  /** The number of whitespace characters at the start of `s`. */
  function LeadingSpaces(s: string): (k: nat)
    ensures k <= |s|
    ensures forall i :: 0 <= i < k ==> IsSpace(s[i])
    ensures k < |s| ==> !IsSpace(s[k])
  {
    if s != [] && IsSpace(s[0]) then 1 + LeadingSpaces(s[1..]) else 0
  }

  /** The number of whitespace characters at the end of `s`. */
  function TrailingSpaces(s: string): (k: nat)
    ensures k <= |s|
    ensures forall i :: |s| - k <= i < |s| ==> IsSpace(s[i])
    ensures k < |s| ==> !IsSpace(s[|s| - k - 1])
  {
    if s != [] && IsSpace(s[|s| - 1]) then 1 + TrailingSpaces(s[..|s| - 1]) else 0
  }

  /** `s` without leading and trailing whitespace. */
  function Trim(s: string): string
  {
    var t := s[LeadingSpaces(s)..];
    t[..|t| - TrailingSpaces(t)]
  }

  /** Trim removes only whitespace, and exactly the whitespace at both ends. */
  lemma TrimShape(s: string)
    ensures exists i, j :: (0 <= i <= j <= |s| && Trim(s) == s[i..j]
                            && (forall k :: 0 <= k < i ==> IsSpace(s[k]))
                            && (forall k :: j <= k < |s| ==> IsSpace(s[k])))
    ensures Trim(s) != [] ==> !IsSpace(Trim(s)[0]) && !IsSpace(Trim(s)[|Trim(s)| - 1])
  {
    var a := LeadingSpaces(s);
    var t := s[a..];
    var b := TrailingSpaces(t);
    assert Trim(s) == s[a..|s| - b];
    assert forall k :: |s| - b <= k < |s| ==> s[k] == t[k - a];
  }

  /** Text that neither starts nor ends with whitespace is its own trim. */
  lemma TrimUnspaced(s: string)
    requires s != [] && !IsSpace(s[0]) && !IsSpace(s[|s| - 1])
    ensures Trim(s) == s
  {
    assert LeadingSpaces(s) == 0;
    assert s[0..] == s;
    assert TrailingSpaces(s) == 0;
  }

  // ---------------------------------------------------------------------
  // Splitting on runs of whitespace (`str::split_whitespace`).

  /** The number of non-whitespace characters at the start of `s`. */
  function WordLength(s: string): (k: nat)
    ensures k <= |s|
    ensures forall i :: 0 <= i < k ==> !IsSpace(s[i])
    ensures k < |s| ==> IsSpace(s[k])
  {
    if s != [] && !IsSpace(s[0]) then 1 + WordLength(s[1..]) else 0
  }

  /** The maximal runs of non-whitespace characters of `s`, in order. */
  function Words(s: string): (r: seq<string>)
    ensures forall i :: 0 <= i < |r| ==> r[i] != [] && forall k :: 0 <= k < |r[i]| ==> !IsSpace(r[i][k])
    decreases |s|
  {
    var t := s[LeadingSpaces(s)..];
    if t == [] then []
    else
      var n := WordLength(t);
      [t[..n]] + Words(t[n..])
  }

  /** A word followed by nothing or by whitespace is the first word. */
  lemma WordsAfterWord(w: string, rest: string)
    requires w != [] && forall k :: 0 <= k < |w| ==> !IsSpace(w[k])
    requires rest == [] || IsSpace(rest[0])
    ensures Words(w + rest) == [w] + Words(rest)
  {
    var s := w + rest;
    assert s[0] == w[0];
    assert LeadingSpaces(s) == 0;
    assert s[0..] == s;
    var n := WordLength(s);
    assert s[..|w|] == w && s[|w|..] == rest;
  }

  /** Leading whitespace does not change the words. */
  lemma WordsAfterSpace(c: char, rest: string)
    requires IsSpace(c)
    ensures Words([c] + rest) == Words(rest)
  {
    var s := [c] + rest;
    assert s[1..] == rest;
    assert LeadingSpaces(s) == 1 + LeadingSpaces(rest);
    assert s[LeadingSpaces(s)..] == rest[LeadingSpaces(rest)..];
  }

  /** A single word splits into itself. */
  lemma WordsOfWord(w: string)
    requires w != [] && forall k :: 0 <= k < |w| ==> !IsSpace(w[k])
    ensures Words(w) == [w]
  {
    WordsAfterWord(w, []);
    assert w + [] == w;
  }

  /** Two words with one space between them split back into the two words. */
  lemma WordsOfTwo(a: string, b: string)
    requires a != [] && forall k :: 0 <= k < |a| ==> !IsSpace(a[k])
    requires b != [] && forall k :: 0 <= k < |b| ==> !IsSpace(b[k])
    ensures Words(a + " " + b) == [a, b]
  {
    var rest: string := [' '] + b;
    WordsAfterWord(a, rest);
    WordsAfterSpace(' ', b);
    WordsOfWord(b);
    SpacedTwo(a, b);
  }

  lemma SpacedTwo(a: string, b: string)
    ensures a + " " + b == a + ([' '] + b)
  {
  }

  /** Three words with one space between each split back into the three words. */
  lemma WordsOfThree(a: string, b: string, c: string)
    requires a != [] && forall k :: 0 <= k < |a| ==> !IsSpace(a[k])
    requires b != [] && forall k :: 0 <= k < |b| ==> !IsSpace(b[k])
    requires c != [] && forall k :: 0 <= k < |c| ==> !IsSpace(c[k])
    ensures Words(a + " " + b + " " + c) == [a, b, c]
  {
    var bc: string := b + " " + c;
    WordsOfTwo(b, c);
    var rest: string := [' '] + bc;
    WordsAfterSpace(' ', bc);
    WordsAfterWord(a, rest);
    SpacedThree(a, b, c);
    assert [a] + [b, c] == [a, b, c];
  }

  lemma SpacedThree(a: string, b: string, c: string)
    ensures a + " " + b + " " + c == a + ([' '] + (b + " " + c))
  {
  }

  /** The characters of `s` that are not whitespace, in order. */
  function Visible(s: string): string
  {
    if s == [] then [] else (if IsSpace(s[0]) then [] else [s[0]]) + Visible(s[1..])
  }

  function Concat(ws: seq<string>): string
  {
    if ws == [] then [] else ws[0] + Concat(ws[1..])
  }

  lemma {:induction false} VisibleAppend(a: string, b: string)
    ensures Visible(a + b) == Visible(a) + Visible(b)
  {
    if a != [] {
      VisibleAppend(a[1..], b);
      var h := if IsSpace(a[0]) then [] else [a[0]];
      var ab := a + b;
      assert ab != [] && ab[0] == a[0];
      assert ab[1..] == a[1..] + b;
      assert Visible(ab) == h + Visible(ab[1..]);
      assert Visible(ab) == h + (Visible(a[1..]) + Visible(b));
      assert Visible(a) == h + Visible(a[1..]);
    } else {
      assert a + b == b;
    }
  }

  lemma {:induction false} VisibleOfSpaces(s: string)
    requires forall i :: 0 <= i < |s| ==> IsSpace(s[i])
    ensures Visible(s) == []
  {
    if s != [] {
      VisibleOfSpaces(s[1..]);
    }
  }

  lemma {:induction false} VisibleOfWord(s: string)
    requires forall i :: 0 <= i < |s| ==> !IsSpace(s[i])
    ensures Visible(s) == s
  {
    if s != [] {
      VisibleOfWord(s[1..]);
      assert [s[0]] + s[1..] == s;
    }
  }

  /** Splitting on whitespace keeps every other character, in order. */
  lemma {:induction false} WordsKeepVisible(s: string)
    ensures Concat(Words(s)) == Visible(s)
    decreases |s|
  {
    var t := s[LeadingSpaces(s)..];
    VisibleSkipSpaces(s);
    if t != [] {
      var n := WordLength(t);
      VisibleSplitWord(t);
      WordsKeepVisible(t[n..]);
      ConcatCons(t[..n], Words(t[n..]));
    }
  }

  lemma VisibleSkipSpaces(s: string)
    ensures Visible(s) == Visible(s[LeadingSpaces(s)..])
  {
    var a := LeadingSpaces(s);
    assert s == s[..a] + s[a..];
    VisibleAppend(s[..a], s[a..]);
    VisibleOfSpaces(s[..a]);
  }

  lemma VisibleSplitWord(t: string)
    ensures Visible(t) == t[..WordLength(t)] + Visible(t[WordLength(t)..])
  {
    var n := WordLength(t);
    assert t == t[..n] + t[n..];
    VisibleAppend(t[..n], t[n..]);
    VisibleOfWord(t[..n]);
  }

  lemma ConcatCons(w: string, ws: seq<string>)
    ensures Concat([w] + ws) == w + Concat(ws)
  {
    assert ([w] + ws)[0] == w && ([w] + ws)[1..] == ws;
  }

  // ---------------------------------------------------------------------
  // Decimal numbers (`str::parse::<uN>()` and `str::parse::<iN>()`).

  predicate AllDigits(s: string)
  {
    forall i :: 0 <= i < |s| ==> IsDigit(s[i])
  }

  /** The value of a string of decimal digits, most significant first. */
  function DigitsValue(s: string): nat
    requires AllDigits(s)
  {
    if s == [] then 0 else 10 * DigitsValue(s[..|s| - 1]) + (s[|s| - 1] as int - '0' as int)
  }

  /** The unsigned parse: an optional `+`, then at least one digit, with a value below `limit`. */
  function ParseUnsigned(s: string, limit: nat): (r: Option<nat>)
    ensures r.Some? ==> r.value < limit
  {
    var ds := if s != [] && s[0] == '+' then s[1..] else s;
    if ds != [] && AllDigits(ds) && DigitsValue(ds) < limit then Some(DigitsValue(ds)) else None
  }

  /** The signed parse: an optional `+` or `-`, then at least one digit, within `lo..=hi`. */
  function ParseSigned(s: string, lo: int, hi: int): (r: Option<int>)
    ensures r.Some? ==> lo <= r.value <= hi
  {
    var negative := s != [] && s[0] == '-';
    var ds := if s != [] && (s[0] == '+' || s[0] == '-') then s[1..] else s;
    if ds == [] || !AllDigits(ds) then None
    else
      var v: int := if negative then 0 - DigitsValue(ds) else DigitsValue(ds);
      if lo <= v <= hi then Some(v) else None
  }

  const U32: nat := 0x1_0000_0000
  const U64: nat := 0x1_0000_0000_0000_0000

  /** The decimal digits of `n`, without leading zeros ("0" for zero). */
  function Decimal(n: nat): (r: string)
    ensures r != [] && AllDigits(r)
  {
    if n < 10 then [('0' as int + n) as char]
    else Decimal(n / 10) + [('0' as int + n % 10) as char]
  }

  lemma {:induction false} DecimalValue(n: nat)
    ensures DigitsValue(Decimal(n)) == n
  {
    if n >= 10 {
      DecimalValue(n / 10);
      var r := Decimal(n);
      assert r[..|r| - 1] == Decimal(n / 10);
    }
  }

  /** Printing a number in decimal and parsing it back gives the number. */
  lemma DecimalRoundTrip(n: nat, limit: nat)
    requires n < limit
    ensures ParseUnsigned(Decimal(n), limit) == Some(n)
  {
    DecimalValue(n);
  }

  const I32Min: int := -0x8000_0000
  const I32Max: int := 0x7FFF_FFFF
  const I64Min: int := -0x8000_0000_0000_0000
  const I64Max: int := 0x7FFF_FFFF_FFFF_FFFF

  /** A number in decimal, with a minus sign when negative. */
  function SignedDecimal(n: int): string
  {
    if n < 0 then ['-'] + Decimal(-n) else Decimal(n)
  }

  /** A number in `i32` range written in decimal parses back, and contains no space. */
  lemma SignedDecimalRoundTrip(n: int)
    requires I32Min <= n <= I32Max
    ensures ParseSigned(SignedDecimal(n), I32Min, I32Max) == Some(n)
    ensures ' ' !in SignedDecimal(n)
  {
    var m := if n < 0 then -n else n;
    DecimalValue(m);
    var d := SignedDecimal(n);
    assert forall k :: 0 <= k < |Decimal(m)| ==> IsDigit(Decimal(m)[k]);
    if n < 0 {
      assert d == ['-'] + Decimal(m);
      assert d[1..] == Decimal(m);
    } else {
      assert d == Decimal(m) && IsDigit(d[0]);
    }
  }

  // ---------------------------------------------------------------------
  // Parsing input line by line (`lines().map(parse)` collected, or a loop that pushes).

  /** Every line parsed, in order; None once a line fails. */
  function ParseAll<T>(lines: seq<string>, parse: string -> Option<T>): Option<seq<T>>
  {
    if lines == [] then Some([])
    else
      var prev := ParseAll(lines[..|lines| - 1], parse);
      var last := parse(lines[|lines| - 1]);
      if prev.None? || last.None? then None else Some(prev.value + [last.value])
  }

  /** The lines parse exactly when every line does, into one entry per line in order. */
  lemma {:induction false} ParseAllSpec<T>(lines: seq<string>, parse: string -> Option<T>)
    ensures ParseAll(lines, parse).Some? <==> forall i :: 0 <= i < |lines| ==> parse(lines[i]).Some?
    ensures ParseAll(lines, parse).Some? ==>
      |ParseAll(lines, parse).value| == |lines| &&
      forall i :: 0 <= i < |lines| ==> parse(lines[i]) == Some(ParseAll(lines, parse).value[i])
  {
    if lines != [] {
      var init := lines[..|lines| - 1];
      ParseAllSpec(init, parse);
      assert forall i :: 0 <= i < |init| ==> init[i] == lines[i];
    }
  }

  /** The loop that parses each line and pushes the result, stopping at the first failure. */
  method ParseLines<T>(lines: seq<string>, parse: string -> Option<T>) returns (r: Option<seq<T>>)
    ensures r == ParseAll(lines, parse)
  {
    var entries: seq<T> := [];
    for i := 0 to |lines|
      invariant ParseAll(lines[..i], parse) == Some(entries)
    {
      assert lines[..i + 1][..i] == lines[..i];
      var e := parse(lines[i]);
      if e.None? {
        ParseAllNoneStays(lines, parse, i + 1);
        return None;
      }
      entries := entries + [e.value];
    }
    assert lines[..|lines|] == lines;
    return Some(entries);
  }

  /** One more line of a loop that parses line by line: a failure fails the whole input, a
    * success extends the entries. */
  lemma ParseAllStep<T>(lines: seq<string>, parse: string -> Option<T>, i: nat, entries: seq<T>)
    requires i < |lines| && ParseAll(lines[..i], parse) == Some(entries)
    ensures parse(lines[i]).None? ==> ParseAll(lines, parse).None?
    ensures parse(lines[i]).Some? ==> ParseAll(lines[..i + 1], parse) == Some(entries + [parse(lines[i]).value])
  {
    assert lines[..i + 1][..i] == lines[..i];
    if parse(lines[i]).None? {
      ParseAllNoneStays(lines, parse, i + 1);
    }
  }

  /** Once a line has failed, the whole input fails. */
  lemma {:induction false} ParseAllNoneStays<T>(lines: seq<string>, parse: string -> Option<T>, i: nat)
    requires i <= |lines| && ParseAll(lines[..i], parse).None?
    ensures ParseAll(lines, parse).None?
    decreases |lines| - i
  {
    if i < |lines| {
      assert lines[..i + 1][..i] == lines[..i];
      ParseAllNoneStays(lines, parse, i + 1);
    } else {
      assert lines[..i] == lines;
    }
  }
}
