/** Day 7: a terminal session of `cd` and `ls` over a file system; the sizes of the
  * directories it reveals. */
module Day07 {
  import opened Wrappers
  import opened Text
  import opened Sets

  // ---------------------------------------------------------------------
  // The lines of the session (`Line::from_str`).

  datatype Line = Cd(dir: string) | Ls | Dir(name: string) | File(size: nat, name: string)

  /** `from_str` returns `Err` (Invalid), or panics indexing past the words or on a size that
    * does not fit a `u32` (Panic); part one and part two unwrap both. */
  datatype LineError = Invalid | Panic

  function ParseLine(s: string): (r: Result<Line, LineError>)
    ensures r.Ok? && r.value.File? ==> r.value.size < U32
  {
    ParseWords(Words(s))
  }

  /** The line's whitespace-separated words, `parts`, read as a line. */
  function ParseWords(ws: seq<string>): (r: Result<Line, LineError>)
    ensures r.Ok? && r.value.File? ==> r.value.size < U32
  {
    if |ws| == 0 then Err(Panic)
    else if ws[0] == "$" then
      if |ws| < 2 then Err(Panic)
      else if ws[1] == "cd" then (if |ws| < 3 then Err(Panic) else Ok(Cd(ws[2])))
      else if ws[1] == "ls" then Ok(Ls)
      else Err(Invalid)
    else if ws[0] == "dir" then (if |ws| < 2 then Err(Panic) else Ok(Dir(ws[1])))
    else if AllDigits(ws[0]) then
      if DigitsValue(ws[0]) >= U32 then Err(Panic)
      else if |ws| < 2 then Err(Panic)
      else Ok(File(DigitsValue(ws[0]), ws[1]))
    else Err(Invalid)
  }

  /** A single word: non-empty, without whitespace. */
  predicate IsWord(w: string)
  {
    w != [] && forall k :: 0 <= k < |w| ==> !IsSpace(w[k])
  }

  function RenderLine(l: Line): string
  {
    match l
    case Cd(dir) => "$" + " " + "cd" + " " + dir
    case Ls => "$" + " " + "ls"
    case Dir(name) => "dir" + " " + name
    case File(size, name) => Decimal(size) + " " + name
  }

  /** A line written as the terminal prints it parses back to itself. */
  lemma ParseRenderLine(l: Line)
    requires l.Cd? ==> IsWord(l.dir)
    requires l.Dir? ==> IsWord(l.name)
    requires l.File? ==> IsWord(l.name) && l.size < U32
    ensures ParseLine(RenderLine(l)) == Ok(l)
  {
    match l {
      case Cd(dir) => ParseCd(dir);
      case Ls => ParseLs();
      case Dir(name) => ParseDir(name);
      case File(size, name) => ParseFile(size, name);
    }
  }

  lemma ParseCd(dir: string)
    requires IsWord(dir)
    ensures ParseLine("$" + " " + "cd" + " " + dir) == Ok(Cd(dir))
  {
    WordsOfThree("$", "cd", dir);
  }

  lemma ParseLs()
    ensures ParseLine("$" + " " + "ls") == Ok(Ls)
  {
    WordsOfTwo("$", "ls");
  }

  lemma ParseDir(name: string)
    requires IsWord(name)
    ensures ParseLine("dir" + " " + name) == Ok(Dir(name))
  {
    WordsOfTwo("dir", name);
  }

  lemma ParseFile(size: nat, name: string)
    requires IsWord(name) && size < U32
    ensures ParseLine(Decimal(size) + " " + name) == Ok(File(size, name))
  {
    var d := Decimal(size);
    assert forall k :: 0 <= k < |d| ==> IsDigit(d[k]);
    WordsOfTwo(d, name);
    ParseSize(d, size, name);
  }

  lemma ParseSize(d: string, size: nat, name: string)
    requires d == Decimal(size) && size < U32
    ensures ParseWords([d, name]) == Ok(File(size, name))
  {
    DecimalValue(size);
    assert d[0] != '$' && d[0] != 'd';
  }

  // ---------------------------------------------------------------------
  // Paths (`PathBuf`), as their components below the root `/`.

  type Path = seq<string>

  /** The non-empty components of `dir` other than `.`, which `Path::components` drops. */
  function Components(dir: string): (r: Path)
    ensures forall i :: 0 <= i < |r| ==> r[i] != [] && r[i] != "." && '/' !in r[i]
  {
    Keep(Split(dir, '/'))
  }

  function Keep(ps: seq<string>): (r: seq<string>)
    requires forall i :: 0 <= i < |ps| ==> '/' !in ps[i]
    ensures forall i :: 0 <= i < |r| ==> r[i] != [] && r[i] != "." && '/' !in r[i]
  {
    if ps == [] then []
    else (if ps[0] == [] || ps[0] == "." then [] else [ps[0]]) + Keep(ps[1..])
  }

  /** `PathBuf::join`: an absolute `dir` replaces the path, a relative one extends it. */
  function JoinPath(cwd: Path, dir: string): Path
  {
    if dir != [] && dir[0] == '/' then Components(dir) else cwd + Components(dir)
  }

  /** `Path::parent`: the root has none (the source unwraps it). */
  function Parent(p: Path): (r: Option<Path>)
    ensures r.Some? <==> p != []
    ensures r.Some? ==> |r.value| == |p| - 1 && r.value <= p
  {
    if p == [] then None else Some(p[..|p| - 1])
  }

  /** `cd ..` goes to the parent, any other `cd` joins its argument. */
  function ChangeDir(cwd: Path, dir: string): Option<Path>
  {
    if dir == ".." then Parent(cwd) else Some(JoinPath(cwd, dir))
  }

  /** A plain directory name. */
  predicate IsName(name: string)
  {
    name != [] && name != "." && name != ".." && '/' !in name
  }

  /** `cd name` enters the child `name`, and `cd ..` comes back. */
  lemma CdRoundTrip(cwd: Path, name: string)
    requires IsName(name)
    ensures ChangeDir(cwd, name) == Some(cwd + [name])
    ensures ChangeDir(cwd + [name], "..") == Some(cwd)
  {
    SplitJoin([name], '/');
    assert Join([name], '/') == name;
    assert Keep([name]) == [name] + Keep([]);
    assert name[0] != '/' by {
      assert name[0] in name;
    }
    assert (cwd + [name])[..|cwd|] == cwd;
  }

  /** `cd /` returns to the root from anywhere. */
  lemma CdRoot(cwd: Path)
    ensures ChangeDir(cwd, "/") == Some([])
  {
    var e: string := [];
    assert Split("/", '/') == [e, e] by {
      assert "/"[1..] == [];
    }
    assert [e, e][1..] == [e] && [e][1..] == [];
  }

  // ---------------------------------------------------------------------
  // The session: the current directory and the direct size of each directory.

  datatype Session = Session(cwd: Path, sizes: map<Path, nat>)

  /** The session starts at the root, whose entry is created with size 0. */
  function Start(): Session
  {
    Session([], map[[] := 0])
  }

  /** One line: `cd` moves, a file adds its size to the current directory, `ls` and `dir`
    * do nothing. */
  function Step(st: Session, l: Line): Option<Session>
  {
    match l
    case Cd(dir) =>
      var c := ChangeDir(st.cwd, dir);
      if c.None? then None else Some(st.(cwd := c.value))
    case Ls => Some(st)
    case Dir(_) => Some(st)
    case File(size, _) => Some(st.(sizes := st.sizes[st.cwd := Get(st.sizes, st.cwd) + size]))
  }

  /** The lines parsed, None when one of them fails to parse. */
  function ParseLines(lines: seq<string>): (r: Option<seq<Line>>)
    ensures r.Some? <==> forall i :: 0 <= i < |lines| ==> ParseLine(lines[i]).Ok?
    ensures r.Some? ==> |r.value| == |lines|
    ensures r.Some? ==> forall i :: 0 <= i < |lines| ==> ParseLine(lines[i]) == Ok(r.value[i])
  {
    if lines == [] then Some([])
    else
      var prev := ParseLines(lines[..|lines| - 1]);
      var l := ParseLine(lines[|lines| - 1]);
      if prev.None? || l.Err? then None else Some(prev.value + [l.value])
  }

  /** The session after the lines, None at a `cd ..` that leaves the root. */
  function Run(ls: seq<Line>): Option<Session>
  {
    if ls == [] then Some(Start())
    else
      var prev := Run(ls[..|ls| - 1]);
      if prev.None? then None else Step(prev.value, ls[|ls| - 1])
  }

  /** The session after the input's lines; each line is parsed and unwrapped, so a line that
    * does not parse ends the session as much as a `cd ..` above the root. */
  function Walk(lines: seq<string>): Option<Session>
  {
    var ls := ParseLines(lines);
    if ls.None? then None else Run(ls.value)
  }

  /** The commands skip the first line of the input (the initial `cd /`). */
  function Skip(lines: seq<string>): seq<string>
  {
    if lines == [] then [] else lines[1..]
  }

  /** The directory the session is in after the lines, following only the `cd`s. */
  function Cwd(ls: seq<Line>): Option<Path>
  {
    if ls == [] then Some([])
    else
      var prev := Cwd(ls[..|ls| - 1]);
      var l := ls[|ls| - 1];
      if prev.None? then None
      else if l.Cd? then ChangeDir(prev.value, l.dir)
      else prev
  }

  /** The size of line `l` if it lists a file in `p` while `cwd` is `p`. */
  function FileIn(l: Line, cwd: Option<Path>, p: Path): nat
  {
    if l.File? && cwd == Some(p) then l.size else 0
  }

  /** The sizes of the files listed while `p` was the current directory. */
  function DirectSize(ls: seq<Line>, p: Path): nat
  {
    if ls == [] then 0
    else
      var init := ls[..|ls| - 1];
      DirectSize(init, p) + FileIn(ls[|ls| - 1], Cwd(init), p)
  }

  /** The directories some file is listed in. */
  function FileDirs(ls: seq<Line>): set<Path>
  {
    if ls == [] then {}
    else
      var init := ls[..|ls| - 1];
      var l := ls[|ls| - 1];
      FileDirs(init) + (if l.File? && Cwd(init).Some? then {Cwd(init).value} else {})
  }

  /** The sizes of all files listed. */
  function FileTotal(ls: seq<Line>): nat
  {
    if ls == [] then 0
    else
      var l := ls[|ls| - 1];
      FileTotal(ls[..|ls| - 1]) + (if l.File? then l.size else 0)
  }

  /** The session succeeds exactly when no `cd ..` leaves the root; it is then in the
    * directory the `cd`s lead to, it has an entry for the root and for every directory a file
    * was listed in and for no other, and each directory's entry, or 0 where it has none, is
    * the sum of the files listed while that directory was current. */
  lemma {:induction false} RunSpec(ls: seq<Line>)
    ensures Run(ls).Some? <==> Cwd(ls).Some?
    ensures Run(ls).Some? ==> Run(ls).value.cwd == Cwd(ls).value
    ensures Run(ls).Some? ==> Run(ls).value.sizes.Keys == {[]} + FileDirs(ls)
    ensures Run(ls).Some? ==> forall p :: Get(Run(ls).value.sizes, p) == DirectSize(ls, p)
  {
    if ls != [] {
      var init := ls[..|ls| - 1];
      RunSpec(init);
      var l := ls[|ls| - 1];
      if Run(init).Some? && l.File? {
        var st := Run(init).value;
        forall p
          ensures Get(Run(ls).value.sizes, p) == DirectSize(ls, p)
        {
          assert DirectSize(ls, p) == DirectSize(init, p) + FileIn(l, Cwd(init), p);
        }
      }
    }
  }

  /** The root's entry of size 0 is all the session starts with. */
  lemma StartTotal()
    ensures SetSum(Start().sizes.Keys, Start().sizes) == 0
  {
    var m := Start().sizes;
    var e: Path := [];
    assert m.Keys == {e};
    SetSumRemove(m.Keys, m, e);
    assert m.Keys - {e} == {};
  }

  /** One line adds its file's size, if it lists one, to the sum of the direct sizes. */
  lemma StepTotal(st: Session, l: Line)
    requires Step(st, l).Some?
    ensures var n := Step(st, l).value.sizes;
      SetSum(n.Keys, n) == SetSum(st.sizes.Keys, st.sizes) + (if l.File? then l.size else 0)
  {
    if l.File? {
      SumAfterFile(st.sizes, st.cwd, l.size);
    }
  }

  /** All the direct sizes together add up to the sizes of all files listed. */
  lemma {:induction false} RunTotal(ls: seq<Line>)
    requires Run(ls).Some?
    ensures SetSum(Run(ls).value.sizes.Keys, Run(ls).value.sizes) == FileTotal(ls)
  {
    if ls == [] {
      StartTotal();
    } else {
      var init := ls[..|ls| - 1];
      RunTotal(init);
      StepTotal(Run(init).value, ls[|ls| - 1]);
    }
  }

  /** Adding a file's size to one directory adds it to the sum over all directories. */
  lemma SumAfterFile(m: map<Path, nat>, cwd: Path, size: nat)
    ensures var n := m[cwd := Get(m, cwd) + size]; SetSum(n.Keys, n) == SetSum(m.Keys, m) + size
  {
    var n := m[cwd := Get(m, cwd) + size];
    if cwd in m {
      SetSumBump(m.Keys, m, cwd, size);
      assert n.Keys == m.Keys;
    } else {
      SetSumAgree(m.Keys, m, n);
      SetSumAdd(m.Keys, n, cwd);
      assert n.Keys == m.Keys + {cwd};
    }
  }

  /** part_one's and part_two's first loop. */
  method DirectSizes(lines: seq<string>) returns (r: Option<map<Path, nat>>)
    ensures r.Some? <==> Walk(Skip(lines)).Some?
    ensures r.Some? ==> r.value == Walk(Skip(lines)).value.sizes
  {
    var commands := Skip(lines);
    var sizes: map<Path, nat> := map[[] := 0];
    var current: Path := [];
    ghost var parsed: seq<Line> := [];
    for i := 0 to |commands|
      invariant ParseLines(commands[..i]) == Some(parsed)
      invariant Run(parsed) == Some(Session(current, sizes))
    {
      var line := ParseLine(commands[i]);
      if line.Err? {
        return None;
      }
      ParseLinesSnoc(commands, i, parsed, line.value);
      RunSnoc(parsed, line.value);
      var ok;
      ok, current, sizes := Apply(current, sizes, line.value);
      if !ok {
        WalkPrefixNone(commands, i + 1);
        return None;
      }
      parsed := parsed + [line.value];
    }
    assert commands[..|commands|] == commands;
    return Some(sizes);
  }

  /** The body of the first loop for one parsed line; `ok` is false at a `cd ..` in the root. */
  method Apply(current: Path, sizes: map<Path, nat>, line: Line)
    returns (ok: bool, current': Path, sizes': map<Path, nat>)
    ensures ok <==> Step(Session(current, sizes), line).Some?
    ensures ok ==> Step(Session(current, sizes), line) == Some(Session(current', sizes'))
  {
    ok, current', sizes' := true, current, sizes;
    match line {
      case Cd(dir) =>
        if dir == ".." {
          if current == [] {
            ok := false;
          } else {
            current' := current[..|current| - 1];
          }
        } else {
          current' := JoinPath(current, dir);
        }
      case Ls =>
      case Dir(_) =>
      case File(size, _) =>
        sizes' := sizes[current := Get(sizes, current) + size];
    }
  }

  lemma ParseLinesSnoc(lines: seq<string>, i: nat, parsed: seq<Line>, l: Line)
    requires i < |lines| && ParseLines(lines[..i]) == Some(parsed) && ParseLine(lines[i]) == Ok(l)
    ensures ParseLines(lines[..i + 1]) == Some(parsed + [l])
  {
    assert lines[..i + 1][..i] == lines[..i];
  }

  lemma RunSnoc(ls: seq<Line>, l: Line)
    ensures Run(ls + [l]) == if Run(ls).None? then None else Step(Run(ls).value, l)
  {
    assert (ls + [l])[..|ls|] == ls;
  }

  /** A prefix of the lines whose session stops stops the whole session. */
  lemma WalkPrefixNone(lines: seq<string>, j: nat)
    requires j <= |lines| && ParseLines(lines[..j]).Some? && Run(ParseLines(lines[..j]).value).None?
    ensures Walk(lines).None?
  {
    var all := ParseLines(lines);
    if all.Some? {
      var pre := ParseLines(lines[..j]).value;
      forall k | 0 <= k < j
        ensures all.value[k] == pre[k]
      {
        assert lines[..j][k] == lines[k];
      }
      assert all.value[..j] == pre;
      RunNoneStays(all.value, j);
    }
  }

  lemma {:induction false} RunNoneStays(ls: seq<Line>, i: nat)
    requires i <= |ls| && Run(ls[..i]).None?
    ensures Run(ls).None?
    decreases |ls| - i
  {
    if i < |ls| {
      assert ls[..i + 1][..i] == ls[..i];
      RunNoneStays(ls, i + 1);
    } else {
      assert ls[..i] == ls;
    }
  }

  // ---------------------------------------------------------------------
  // Recursive sizes: each direct size added to the directory and all its ancestors.

  /** The directories in `dirs` that lie in `q` or below it. */
  ghost function Under(dirs: set<Path>, q: Path): set<Path>
  {
    set p | p in dirs && q <= p
  }

  /** The directories in `dirs` and all their ancestors. */
  ghost function Ancestors(dirs: set<Path>): set<Path>
  {
    set p, k | p in dirs && 0 <= k <= |p| :: p[..k]
  }

  /** The recursive size of every ancestor: the sum of the direct sizes below it. */
  ghost function Tree(sizes: map<Path, nat>): map<Path, nat>
  {
    map q | q in Ancestors(sizes.Keys) :: SetSum(Under(sizes.Keys, q), sizes)
  }

  lemma AncestorsSpec(dirs: set<Path>, q: Path)
    ensures q in Ancestors(dirs) <==> Under(dirs, q) != {}
  {
    if Under(dirs, q) != {} {
      var p :| p in Under(dirs, q);
      assert q == p[..|q|];
    }
    if q in Ancestors(dirs) {
      var p, k :| p in dirs && 0 <= k <= |p| && q == p[..k];
      assert p in Under(dirs, q);
    }
  }

  lemma UnderAdd(done: set<Path>, p: Path, q: Path)
    ensures Under(done + {p}, q) == Under(done, q) + (if q <= p then {p} else {})
  {
  }

  /** The inner loop: the size `size` added to the entry of `path` and of each ancestor,
    * the path itself first. */
  method AddToAncestors(rec: map<Path, nat>, path: Path, size: nat) returns (r: map<Path, nat>)
    ensures forall q :: q in r <==> q in rec || q <= path
    ensures forall q :: q in r ==> r[q] == Get(rec, q) + (if q <= path then size else 0)
  {
    r := rec;
    for k := 0 to |path| + 1
      invariant forall q :: q in r <==> q in rec || (q <= path && |q| > |path| - k)
      invariant forall q :: q in r ==> r[q] == Get(rec, q) + (if q <= path && |q| > |path| - k then size else 0)
    {
      var ancestor := path[..|path| - k];
      r := r[ancestor := Get(r, ancestor) + size];
      forall q
        ensures (q <= path && |q| > |path| - (k + 1)) <==> (q <= path && |q| > |path| - k) || q == ancestor
      {
        PrefixByLength(q, path, |path| - k);
      }
    }
  }

  /** The prefix of a path of a given length is unique. */
  lemma PrefixByLength(q: Path, path: Path, n: nat)
    requires n <= |path|
    ensures (q <= path && |q| == n) <==> q == path[..n]
  {
  }

  /** `rec` holds the recursive sizes counting only the directories `done`. */
  ghost predicate Partial(rec: map<Path, nat>, done: set<Path>, sizes: map<Path, nat>)
  {
    (forall q :: q in rec <==> Under(done, q) != {}) &&
    (forall q :: q in rec ==> rec[q] == SetSum(Under(done, q), sizes))
  }

  /** part_one's and part_two's second loop, over the direct sizes in any order. */
  method RecursiveSizes(sizes: map<Path, nat>) returns (rec: map<Path, nat>)
    ensures rec == Tree(sizes)
  {
    rec := map[];
    var rest := sizes.Keys;
    ghost var done: set<Path> := {};
    while rest != {}
      invariant done <= sizes.Keys && rest == sizes.Keys - done
      invariant Partial(rec, done, sizes)
      decreases |rest|
    {
      var path :| path in rest;
      ghost var before := rec;
      rec := AddToAncestors(rec, path, sizes[path]);
      PartialStep(before, rec, done, path, sizes);
      done := done + {path};
      rest := rest - {path};
    }
    assert done == sizes.Keys;
    forall q
      ensures q in rec <==> q in Tree(sizes)
      ensures q in rec ==> rec[q] == Tree(sizes)[q]
    {
      AncestorsSpec(sizes.Keys, q);
    }
  }

  /** Adding one more directory's size to its ancestors extends the partial sums by it. */
  lemma PartialStep(before: map<Path, nat>, after: map<Path, nat>, done: set<Path>, path: Path, sizes: map<Path, nat>)
    requires path in sizes && path !in done && Partial(before, done, sizes)
    requires forall q :: q in after <==> q in before || q <= path
    requires forall q :: q in after ==> after[q] == Get(before, q) + (if q <= path then sizes[path] else 0)
    ensures Partial(after, done + {path}, sizes)
  {
    forall q
      ensures q in after <==> Under(done + {path}, q) != {}
      ensures q in after ==> after[q] == SetSum(Under(done + {path}, q), sizes)
    {
      UnderAdd(done, path, q);
      if q <= path {
        SetSumAdd(Under(done, q), sizes, path);
        assert Get(sizes, path) == sizes[path];
        if q !in before {
          assert Under(done, q) == {};
          assert SetSum(Under(done, q), sizes) == 0;
          assert after[q] == sizes[path];
        } else {
          assert after[q] == before[q] + sizes[path];
          assert before[q] == SetSum(Under(done, q), sizes);
        }
        assert Under(done + {path}, q) == Under(done, q) + {path};
      } else if q in after {
        assert after[q] == before[q];
        assert Under(done + {path}, q) == Under(done, q);
      }
    }
  }

  /** The recursive size of a directory is at least that of any directory inside it. */
  lemma TreeMonotone(sizes: map<Path, nat>, q: Path, p: Path)
    requires q in Tree(sizes) && p in Tree(sizes) && q <= p
    ensures Tree(sizes)[p] <= Tree(sizes)[q]
  {
    assert Under(sizes.Keys, p) <= Under(sizes.Keys, q);
    SetSumSubset(Under(sizes.Keys, p), Under(sizes.Keys, q), sizes);
  }

  /** The root's recursive size is the size of all files listed. */
  lemma RootTotal(ls: seq<Line>)
    requires Run(ls).Some?
    ensures [] in Tree(Run(ls).value.sizes)
    ensures Tree(Run(ls).value.sizes)[[]] == FileTotal(ls)
  {
    RunSpec(ls);
    var sizes := Run(ls).value.sizes;
    var e: Path := [];
    assert Under(sizes.Keys, e) == sizes.Keys;
    AncestorsSpec(sizes.Keys, e);
    RunTotal(ls);
  }

  // ---------------------------------------------------------------------
  // The answers.

  /** The directories whose recursive size is below 100000. */
  ghost function Small(rec: map<Path, nat>): set<Path>
  {
    set q | q in rec && rec[q] < 100000
  }

  /** part_one's last loop, over the recursive sizes in any order. */
  method SumSmall(rec: map<Path, nat>) returns (total: nat)
    ensures total == SetSum(Small(rec), rec)
  {
    total := 0;
    var rest := rec.Keys;
    ghost var done: set<Path> := {};
    while rest != {}
      invariant done <= rec.Keys && rest == rec.Keys - done
      invariant total == SetSum(Small(rec) * done, rec)
      decreases |rest|
    {
      var path :| path in rest;
      SmallStep(rec, done, path);
      if rec[path] < 100000 {
        total := total + rec[path];
      }
      done := done + {path};
      rest := rest - {path};
    }
    assert Small(rec) * done == Small(rec);
  }

  lemma SmallStep(rec: map<Path, nat>, done: set<Path>, path: Path)
    requires path in rec && path !in done
    ensures SetSum(Small(rec) * (done + {path}), rec)
      == SetSum(Small(rec) * done, rec) + (if rec[path] < 100000 then rec[path] else 0)
  {
    if rec[path] < 100000 {
      SetSumAdd(Small(rec) * done, rec, path);
      assert Small(rec) * (done + {path}) == Small(rec) * done + {path};
    } else {
      assert Small(rec) * (done + {path}) == Small(rec) * done;
    }
  }

  /** The space to free, `30000000 - (70000000 - root)` in `u32`: either subtraction
    * underflowing is a panic. */
  function NeedToFree(root: nat): (r: Option<nat>)
    ensures r.Some? <==> 40000000 <= root <= 70000000
    ensures r.Some? ==> r.value == root - 40000000
  {
    if root > 70000000 then None
    else if 70000000 - root > 30000000 then None
    else Some(30000000 - (70000000 - root))
  }

  /** The recursive sizes above `need`. */
  ghost function Above(rec: map<Path, nat>, need: nat): set<int>
  {
    set q | q in rec && rec[q] > need :: rec[q] as int
  }

  /** `r` is the least size above `need` among the directories in `done`, if there is one. */
  predicate LeastSoFar(rec: map<Path, nat>, need: nat, done: set<Path>, r: Option<nat>)
  {
    done <= rec.Keys &&
    (r.None? <==> forall q :: q in done ==> rec[q] <= need) &&
    (r.Some? ==> r.value > need && (exists q :: q in done && rec[q] == r.value) &&
                 forall q :: q in done && rec[q] > need ==> r.value <= rec[q])
  }

  /** Before any directory is considered there is no size so far. */
  lemma LeastSoFarStart(rec: map<Path, nat>, need: nat)
    ensures LeastSoFar(rec, need, {}, None)
  {
  }

  /** Considering one more directory keeps the least size so far. */
  lemma LeastSoFarStep(rec: map<Path, nat>, need: nat, done: set<Path>, path: Path, r: Option<nat>, next: Option<nat>)
    requires LeastSoFar(rec, need, done, r) && path in rec
    requires next == if rec[path] > need && (r.None? || rec[path] < r.value) then Some(rec[path]) else r
    ensures LeastSoFar(rec, need, done + {path}, next)
  {
    if next.Some? && next != r {
      assert path in done + {path} && rec[path] == next.value;
    }
  }

  /** Once every directory is considered, the least size so far is the least of `Above`. */
  lemma LeastSoFarAll(rec: map<Path, nat>, need: nat, r: Option<nat>)
    requires LeastSoFar(rec, need, rec.Keys, r)
    ensures r.None? <==> Above(rec, need) == {}
    ensures r.Some? ==> Above(rec, need) != {} && r.value == Least(Above(rec, need))
  {
    if r.Some? {
      var q :| q in rec && rec[q] == r.value;
      assert r.value as int in Above(rec, need);
      var m := Least(Above(rec, need));
      var p :| p in rec && rec[p] > need && m == rec[p] as int;
      assert r.value <= rec[p];
    }
  }

  /** The first size above `need` in the list sorted by size: the least of them. */
  method SmallestAbove(rec: map<Path, nat>, need: nat) returns (r: Option<nat>)
    ensures r.None? <==> Above(rec, need) == {}
    ensures r.Some? ==> Above(rec, need) != {} && r.value == Least(Above(rec, need))
  {
    r := None;
    var rest := rec.Keys;
    ghost var done: set<Path> := {};
    LeastSoFarStart(rec, need);
    while rest != {}
      invariant rest <= rec.Keys && done == rec.Keys - rest
      invariant LeastSoFar(rec, need, done, r)
      decreases |rest|
    {
      var path :| path in rest;
      ghost var prev := r;
      if rec[path] > need && (r.None? || rec[path] < r.value) {
        r := Some(rec[path]);
      }
      LeastSoFarStep(rec, need, done, path, prev, r);
      done := done + {path};
      rest := rest - {path};
    }
    LeastSoFarAll(rec, need, r);
  }

  /** part_one: the sum of the recursive sizes below 100000, `None` where the session fails. */
  method PartOne(lines: seq<string>) returns (r: Option<nat>)
    ensures r.Some? <==> Walk(Skip(lines)).Some?
    ensures r.Some? ==> var tree := Tree(Walk(Skip(lines)).value.sizes); r.value == SetSum(Small(tree), tree)
  {
    var sizes := DirectSizes(lines);
    if sizes.None? {
      return None;
    }
    var rec := RecursiveSizes(sizes.value);
    var total := SumSmall(rec);
    return Some(total);
  }

  /** What part_two answers for the recursive sizes: the least size above the space to free. */
  ghost function Deletion(tree: map<Path, nat>): Option<nat>
  {
    var need := NeedToFree(Get(tree, []));
    if need.None? || Above(tree, need.value) == {} then None
    else Some(Least(Above(tree, need.value)) as nat)
  }

  /** part_two: the size of the smallest directory whose deletion frees enough space. */
  method PartTwo(lines: seq<string>) returns (r: Option<nat>)
    ensures Walk(Skip(lines)).None? ==> r.None?
    ensures Walk(Skip(lines)).Some? ==> r == Deletion(Tree(Walk(Skip(lines)).value.sizes))
  {
    var sizes := DirectSizes(lines);
    if sizes.None? {
      return None;
    }
    var rec := RecursiveSizes(sizes.value);
    RootTotal(ParseLines(Skip(lines)).value);
    var need := NeedToFree(rec[[]]);
    if need.None? {
      return None;
    }
    r := SmallestAbove(rec, need.value);
  }

  /** The deleted directory is big enough: the root's size less it leaves at most 40000000. */
  lemma DeletionFrees(tree: map<Path, nat>)
    requires Deletion(tree).Some?
    ensures Get(tree, []) - Deletion(tree).value < 40000000
    ensures exists q :: q in tree && tree[q] == Deletion(tree).value
  {
    var need := NeedToFree(Get(tree, [])).value;
    var m := Least(Above(tree, need));
    var q :| q in tree && tree[q] > need && m == tree[q] as int;
  }
}
