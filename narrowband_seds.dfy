/** The narrowband SED slicer: from one interpolated SED table (a list of
    text lines) it makes 21 narrowband copies and one broadband copy, each of
    the input's length, with every flux outside the copied rows set to zero
    and the normalisation row (wavelength 5000.0) scaled down. */
module NarrowbandSeds {
  import opened Results
  import opened PyStrings
  import opened LineFiles

  /** The text that marks the normalisation row (`lookup`). */
  const Lookup: string := "5000.0"

  // ---------------------------------------------------------------- replace_line

  /** The indices Python accepts on a list of length `n`, negative ones
      counting from the end. */
  predicate ValidIndex(i: int, n: nat) {
    -(n as int) <= i < n
  }

  /** The position a valid Python index designates. */
  function Position(i: int, n: nat): (k: nat)
    requires ValidIndex(i, n)
    ensures k < n
  {
    if i < 0 then i + n else i
  }

  /** The line list `replace_line` writes back: line `lineNum` becomes
      `text.lstrip()`; an index out of range raises `IndexError`. */
  function Replaced(lines: seq<string>, lineNum: int, text: string): (r: Result<seq<string>>)
    ensures r.Ok? <==> ValidIndex(lineNum, |lines|)
    ensures r.Err? ==> r.error == IndexError
    ensures r.Ok? ==> |r.value| == |lines|
    ensures r.Ok? ==> r.value[Position(lineNum, |lines|)] == LStrip(text)
    ensures r.Ok? ==> forall k :: 0 <= k < |lines| && k != Position(lineNum, |lines|) ==> r.value[k] == lines[k]
  {
    if ValidIndex(lineNum, |lines|) then Ok(lines[Position(lineNum, |lines|) := LStrip(text)])
    else Err(IndexError)
  }

  /** Replacing a line twice with the same text is replacing it once. */
  lemma ReplacedIdempotent(lines: seq<string>, lineNum: int, text: string)
    requires Replaced(lines, lineNum, text).Ok?
    ensures Replaced(Replaced(lines, lineNum, text).value, lineNum, text) == Replaced(lines, lineNum, text)
  {
    var once := Replaced(lines, lineNum, text).value;
    var twice := Replaced(once, lineNum, text).value;
    assert forall k :: 0 <= k < |lines| ==> twice[k] == once[k];
    assert twice == once;
  }

  /** `replace_line(infile, line_num, text)`: read the file's lines, set one,
      strip its leading white space, write the list back. */
  method ReplaceLine(f: LineFile, lineNum: int, text: string) returns (r: Result<()>)
    modifies f
    ensures var e := Replaced(old(f.lines), lineNum, text);
      (r.Ok? <==> e.Ok?) && (e.Ok? ==> f.lines == e.value)
      && (e.Err? ==> r == Err(e.error) && f.lines == old(f.lines))
  {
    var lines := f.lines;
    if !ValidIndex(lineNum, |lines|) {
      return Err(IndexError);
    }
    var k := Position(lineNum, |lines|);
    lines := lines[k := text];
    lines := lines[k := LStrip(lines[k])];
    f.lines := lines;
    return Ok(());
  }

  // ------------------------------------------------------------- get_ncom_lines

  /** A comment line: its first character that is not white space is '#'. */
  predicate IsComment(line: string) {
    var t := LStrip(line);
    t != [] && t[0] == '#'
  }

  /** `IsComment` is the test `line.strip().startswith('#')`. */
  lemma IsCommentIsStripTest(line: string)
    ensures IsComment(line) <==> StartsWith(Strip(line), "#")
  {
    var t := LStrip(line);
    if t != [] {
      RStripSpec(t);
      assert !IsSpace(t[0]);
      assert |RStrip(t)| > 0;
      assert RStrip(t)[0] == t[0];
    }
  }

  /** The number of comment lines at the head of `data`. */
  function CommentCount(data: seq<string>): (n: nat)
    ensures n <= |data|
  {
    if data == [] || !IsComment(data[0]) then 0 else 1 + CommentCount(data[1..])
  }

  /** `CommentCount` is the length of the longest leading run of comment
      lines: all lines before it are comments, the line at it is not. */
  lemma {:induction false} CommentCountSpec(data: seq<string>)
    ensures forall k :: 0 <= k < CommentCount(data) ==> IsComment(data[k])
    ensures CommentCount(data) < |data| ==> !IsComment(data[CommentCount(data)])
  {
    if data != [] && IsComment(data[0]) {
      var tail := data[1..];
      CommentCountSpec(tail);
      assert CommentCount(data) == 1 + CommentCount(tail);
      forall k | 1 <= k < CommentCount(data)
        ensures IsComment(data[k])
      {
        assert data[k] == tail[k - 1];
      }
      if CommentCount(data) < |data| {
        assert data[CommentCount(data)] == tail[CommentCount(tail)];
      }
    }
  }

  /** Only one number has the property `CommentCountSpec` states. */
  lemma {:induction false} CommentCountUnique(data: seq<string>, n: nat)
    requires n <= |data|
    requires forall k :: 0 <= k < n ==> IsComment(data[k])
    requires n < |data| ==> !IsComment(data[n])
    ensures n == CommentCount(data)
  {
    if n > 0 {
      var tail := data[1..];
      forall k | 0 <= k < n - 1
        ensures IsComment(tail[k])
      {
        assert tail[k] == data[k + 1];
      }
      assert n - 1 < |tail| ==> tail[n - 1] == data[n];
      CommentCountUnique(tail, n - 1);
      assert IsComment(data[0]);
    }
  }

  /** `get_ncom_lines`: count lines while they are comments, stop at the first
      that is not. */
  method GetNcomLines(data: seq<string>) returns (ncom: nat)
    ensures ncom == CommentCount(data)
  {
    ncom := 0;
    for k := 0 to |data|
      invariant ncom == k
      invariant forall m :: 0 <= m < k ==> IsComment(data[m])
    {
      if IsComment(data[k]) {
        ncom := ncom + 1;
      } else {
        break;
      }
    }
    CommentCountUnique(data, ncom);
  }

  // ------------------------------------------------------------ get_breakpoints

  /** The band limits in tenths of a unit: 5310.0 and 6960.0. */
  const LambdaStart: nat := 53100
  const LambdaEnd: nat := 69600
  /** The number of steps from `LambdaStart` to `LambdaEnd`. */
  const Steps: nat := 21

  /** `(lambda_end - lambda_start) / 21.0` rounded to one decimal, in tenths. */
  function StepTenths(): (r: nat)
    ensures r == 786
  {
    (2 * (LambdaEnd - LambdaStart) + Steps) / (2 * Steps)
  }

  /** The length of `np.arange(start, stop, step)`: the number of values
      `start + k * step` below `stop`. */
  function ArangeLength(start: nat, stop: nat, step: nat): (n: nat)
    requires step > 0 && start <= stop
    ensures start + n * step >= stop
    ensures n > 0 ==> start + (n - 1) * step < stop
  {
    var d := stop - start;
    var q := (d + step - 1) / step;
    assert q * step <= d + step - 1 < q * step + step;
    assert q > 0 ==> (q - 1) * step == q * step - step;
    q
  }

  /** `get_breakpoints`: `np.arange(5310.0, 6960.0, 78.6)` with 6960.0
      appended, each value truncated to a whole number. */
  function Breakpoints(): (r: seq<nat>)
    ensures |r| == 22 && r[0] == 5310 && r[21] == 6960
    ensures forall k :: 0 <= k < 21 ==> r[k] == (LambdaStart + k * 786) / 10
    ensures forall a, b :: 0 <= a < b < |r| ==> r[a] < r[b]
  {
    var step := StepTenths();
    assert step == 786;
    assert ArangeLength(LambdaStart, LambdaEnd, step) == 21;
    seq(ArangeLength(LambdaStart, LambdaEnd, step), k => (LambdaStart + k * step) / 10)
      + [LambdaEnd / 10]
  }

  /** The breakpoints are the ones listed in `get_breakpoints`' documentation. */
  lemma BreakpointsAsDocumented()
    ensures Breakpoints() == [5310, 5388, 5467, 5545, 5624, 5703, 5781, 5860, 5938, 6017, 6096,
                              6174, 6253, 6331, 6410, 6489, 6567, 6646, 6724, 6803, 6882, 6960]
  {
  }

  // --------------------------------------------------------------- get_lin_nums

  /** The text searched for breakpoint `bp`: `str(bp) + '.0'`. */
  function Tag(bp: nat): string {
    NatToString(bp) + ".0"
  }

  /** The entries one line contributes: its number `n` once per breakpoint
      whose tag occurs in it, in breakpoint order. */
  function Hits(line: string, bps: seq<nat>, n: int): seq<int> {
    if bps == [] then []
    else Hits(line, bps[..|bps| - 1], n) + (if Contains(line, Tag(bps[|bps| - 1])) then [n] else [])
  }

  /** The list `get_lin_nums` builds from the lines `data` and breakpoints `bps`. */
  function LinNums(data: seq<string>, bps: seq<nat>): (r: seq<int>)
    ensures forall k :: 0 <= k < |r| ==> 1 <= r[k] <= |data|
  {
    if data == [] then []
    else
      HitsSpec(data[|data| - 1], bps, |data|);
      LinNums(data[..|data| - 1], bps) + Hits(data[|data| - 1], bps, |data|)
  }

  /** Every entry of `Hits` is the line number, and it is there exactly when
      some breakpoint's tag occurs in the line. */
  lemma {:induction false} HitsSpec(line: string, bps: seq<nat>, n: int)
    ensures forall k :: 0 <= k < |Hits(line, bps, n)| ==> Hits(line, bps, n)[k] == n
    ensures Hits(line, bps, n) != [] <==> exists j :: 0 <= j < |bps| && Contains(line, Tag(bps[j]))
  {
    if bps != [] {
      var init := bps[..|bps| - 1];
      HitsSpec(line, init, n);
      if exists j :: 0 <= j < |init| && Contains(line, Tag(init[j])) {
        var j :| 0 <= j < |init| && Contains(line, Tag(init[j]));
        assert bps[j] == init[j];
      }
      if exists j :: 0 <= j < |bps| && Contains(line, Tag(bps[j])) {
        var j :| 0 <= j < |bps| && Contains(line, Tag(bps[j]));
        if j < |init| {
          assert init[j] == bps[j];
        }
      }
    }
  }

  /** The positions in `bps` of the breakpoints whose tags occur in `line`. */
  function Matching(line: string, bps: seq<nat>): set<int> {
    set j | 0 <= j < |bps| && Contains(line, Tag(bps[j]))
  }

  /** One more breakpoint adds its position to `Matching` exactly when its
      tag occurs in `line`. */
  lemma MatchingStep(line: string, bps: seq<nat>)
    requires bps != []
    ensures |Matching(line, bps)| ==
      |Matching(line, bps[..|bps| - 1])| + (if Contains(line, Tag(bps[|bps| - 1])) then 1 else 0)
  {
    var init := bps[..|bps| - 1];
    var all, before := Matching(line, bps), Matching(line, init);
    var m := |bps| - 1;
    forall j | j in all && j != m
      ensures j in before
    {
      assert init[j] == bps[j];
    }
    forall j | j in before
      ensures j in all
    {
      assert init[j] == bps[j];
    }
    if Contains(line, Tag(bps[m])) {
      assert all == before + {m};
    } else {
      assert all == before;
    }
  }

  /** A line contributes its number once per breakpoint whose tag occurs in it. */
  lemma {:induction false} HitsCount(line: string, bps: seq<nat>, n: int)
    ensures |Hits(line, bps, n)| == |Matching(line, bps)|
  {
    if bps != [] {
      HitsCount(line, bps[..|bps| - 1], n);
      MatchingStep(line, bps);
    }
  }

  /** A sequence whose entries all equal `n` holds `n` as often as it is long. */
  lemma {:induction false} ConstantMultiplicity(h: seq<int>, n: int)
    requires forall k :: 0 <= k < |h| ==> h[k] == n
    ensures multiset(h)[n] == |h|
  {
    if h != [] {
      ConstantMultiplicity(h[1..], n);
      assert h == [h[0]] + h[1..];
    }
  }

  /** Each line number occurs in `get_lin_nums`'s list once per breakpoint
      whose tag occurs on that line. */
  lemma {:induction false} LinNumsCount(data: seq<string>, bps: seq<nat>)
    ensures forall n :: 1 <= n <= |data| ==>
      multiset(LinNums(data, bps))[n] == |Matching(data[n - 1], bps)|
  {
    if data != [] {
      var init := data[..|data| - 1];
      var last := data[|data| - 1];
      LinNumsCount(init, bps);
      HitsSpec(last, bps, |data|);
      HitsCount(last, bps, |data|);
      var p, h := LinNums(init, bps), Hits(last, bps, |data|);
      forall n | 1 <= n < |data|
        ensures multiset(p)[n] == |Matching(data[n - 1], bps)|
      {
        assert data[n - 1] == init[n - 1];
      }
      CountsAfterJoin(data, bps, p, h);
      assert LinNums(data, bps) == p + h;
    }
  }

  /** The counts of `LinNumsCount` for all lines, from those for all but the
      last line (`p`) and the entries of the last line (`h`). */
  lemma CountsAfterJoin(data: seq<string>, bps: seq<nat>, p: seq<int>, h: seq<int>)
    requires data != []
    requires forall n :: 1 <= n < |data| ==> multiset(p)[n] == |Matching(data[n - 1], bps)|
    requires forall k :: 0 <= k < |p| ==> p[k] < |data|
    requires forall k :: 0 <= k < |h| ==> h[k] == |data|
    requires |h| == |Matching(data[|data| - 1], bps)|
    ensures forall n :: 1 <= n <= |data| ==> multiset(p + h)[n] == |Matching(data[n - 1], bps)|
  {
    MultiplicityOfJoin(p, h, |data|);
  }

  /** Appending entries that all equal `m` to entries below `m`: numbers
      below `m` keep their multiplicity, and `m` occurs once per appended entry. */
  lemma MultiplicityOfJoin(p: seq<int>, h: seq<int>, m: int)
    requires forall k :: 0 <= k < |p| ==> p[k] < m
    requires forall k :: 0 <= k < |h| ==> h[k] == m
    ensures forall n :: n < m ==> multiset(p + h)[n] == multiset(p)[n]
    ensures multiset(p + h)[m] == |h|
  {
    assert multiset(p + h) == multiset(p) + multiset(h);
    ConstantMultiplicity(h, m);
    assert m !in p;
    forall n | n < m
      ensures multiset(h)[n] == 0
    {
      assert n !in h;
    }
  }

  /** `get_lin_nums` returns 1-based line numbers in ascending order, and a
      number is in the list exactly when a breakpoint's tag occurs on that line. */
  lemma {:induction false} LinNumsSpec(data: seq<string>, bps: seq<nat>)
    ensures forall a, b :: 0 <= a < b < |LinNums(data, bps)| ==> LinNums(data, bps)[a] <= LinNums(data, bps)[b]
    ensures forall n :: n in LinNums(data, bps) <==>
      1 <= n <= |data| && exists j :: 0 <= j < |bps| && Contains(data[n - 1], Tag(bps[j]))
  {
    if data != [] {
      var init := data[..|data| - 1];
      var last := data[|data| - 1];
      LinNumsSpec(init, bps);
      HitsSpec(last, bps, |data|);
      var p, h := LinNums(init, bps), Hits(last, bps, |data|);
      assert LinNums(data, bps) == p + h;
      var r := p + h;
      forall a, b | 0 <= a < b < |r|
        ensures r[a] <= r[b]
      {
        if b < |p| {
          assert r[a] == p[a] && r[b] == p[b];
          assert p[a] <= p[b];
        } else if a >= |p| {
          assert r[a] == h[a - |p|] && r[b] == h[b - |p|];
          assert r[a] <= r[b];
        } else {
          assert r[a] == p[a] <= |init|;
          assert r[b] == h[b - |p|] == |data|;
          assert r[a] <= r[b];
        }
      }
      forall n
        ensures n in r <==> 1 <= n <= |data| && exists j :: 0 <= j < |bps| && Contains(data[n - 1], Tag(bps[j]))
      {
        assert n in r <==> n in p || n in h;
        assert n in h ==> n == |data| by {
          if n in h {
            var k :| 0 <= k < |h| && h[k] == n;
          }
        }
        assert n in p ==> n < |data| by {
          if n in p {
            var k :| 0 <= k < |p| && p[k] == n;
          }
        }
        assert h != [] ==> |data| in h by {
          if h != [] {
            assert h[0] == |data|;
          }
        }
        if 1 <= n < |data| {
          assert data[n - 1] == init[n - 1];
        } else if n == |data| {
          assert data[n - 1] == last;
        }
      }
    }
  }

  /** `get_lin_nums`: for each line, numbered from 1, and each breakpoint,
      append the line number when the breakpoint's tag occurs in the line. */
  method GetLinNums(data: seq<string>) returns (linNums: seq<int>)
    ensures linNums == LinNums(data, Breakpoints())
  {
    var breakpoints := Breakpoints();
    linNums := [];
    var idx := 0;
    for li := 0 to |data|
      invariant idx == li
      invariant linNums == LinNums(data[..li], breakpoints)
    {
      var line := data[li];
      idx := idx + 1;
      for b := 0 to |breakpoints|
        invariant linNums == LinNums(data[..li], breakpoints) + Hits(line, breakpoints[..b], idx)
      {
        assert breakpoints[..b + 1][..b] == breakpoints[..b];
        if Contains(line, Tag(breakpoints[b])) {
          linNums := linNums + [idx];
        }
      }
      assert breakpoints[..|breakpoints|] == breakpoints;
      assert data[..li + 1][..li] == data[..li];
    }
    assert data[..|data|] == data;
  }

  // -------------------------------------------------------- get_normalizing_line

  /** The index of the last line of `data` that contains `lookup`. */
  function LastMatch(data: seq<string>, lookup: string): (r: Option<nat>)
    ensures r.Some? ==> r.value < |data| && Contains(data[r.value], lookup)
  {
    if data == [] then None
    else if Contains(data[|data| - 1], lookup) then Some(|data| - 1)
    else LastMatch(data[..|data| - 1], lookup)
  }

  /** `LastMatch` finds the last matching line, and finds none only when no
      line matches. */
  lemma {:induction false} LastMatchSpec(data: seq<string>, lookup: string)
    ensures LastMatch(data, lookup).None? <==> forall k :: 0 <= k < |data| ==> !Contains(data[k], lookup)
    ensures LastMatch(data, lookup).Some? ==>
      LastMatch(data, lookup).value < |data| && Contains(data[LastMatch(data, lookup).value], lookup)
      && forall k :: LastMatch(data, lookup).value < k < |data| ==> !Contains(data[k], lookup)
  {
    if data != [] && !Contains(data[|data| - 1], lookup) {
      var init := data[..|data| - 1];
      LastMatchSpec(init, lookup);
      assert forall k :: 0 <= k < |init| ==> init[k] == data[k];
    }
  }

  /** `get_normalizing_line`: the last line containing `lookup`, with its
      second field (the flux) replaced by `scale` of it wherever that text
      occurs in the line, and the line's 0-based index. `scale` stands for
      `str(float(flux) / 100.0)`; it gives `None` where `float` fails. A
      missing line, or a line with fewer than two fields, fails in `split`. */
  function NormalizingLine(data: seq<string>, lookup: string, scale: string -> Option<string>)
    : (r: Result<(string, nat)>)
    ensures (forall k :: 0 <= k < |data| ==> !Contains(data[k], lookup)) ==> r == Err(IndexError)
    ensures r.Ok? ==> r.value.1 < |data| && Contains(data[r.value.1], lookup)
    ensures r.Ok? ==> forall k :: r.value.1 < k < |data| ==> !Contains(data[k], lookup)
    ensures r.Ok? ==> |Tokens(data[r.value.1])| >= 2 && scale(Tokens(data[r.value.1])[1]).Some?
    ensures r.Ok? ==> r.value.0 == Replace(data[r.value.1], Tokens(data[r.value.1])[1],
                                           scale(Tokens(data[r.value.1])[1]).value)
    ensures var m := LastMatch(data, lookup);
      r.Ok? <==> m.Some? && |Tokens(data[m.value])| >= 2 && scale(Tokens(data[m.value])[1]).Some?
    ensures var m := LastMatch(data, lookup);
      m.Some? && |Tokens(data[m.value])| < 2 ==> r == Err(IndexError)
    ensures var m := LastMatch(data, lookup);
      m.Some? && |Tokens(data[m.value])| >= 2 && scale(Tokens(data[m.value])[1]).None? ==> r == Err(ValueError)
    ensures r.Ok? ==> LastMatch(data, lookup) == Some(r.value.1)
  {
    LastMatchSpec(data, lookup);
    match LastMatch(data, lookup)
    case None => Err(IndexError)
    case Some(n) =>
      var row := Tokens(data[n]);
      if |row| < 2 then Err(IndexError)
      else
        match scale(row[1])
        case None => Err(ValueError)
        case Some(fluxn) => Ok((Replace(data[n], row[1], fluxn), n))
  }

  /** `get_normalizing_line`: scan all lines keeping the last match, then
      split it and rewrite its flux. */
  method GetNormalizingLine(data: seq<string>, lookup: string, scale: string -> Option<string>)
    returns (r: Result<(string, nat)>)
    ensures r == NormalizingLine(data, lookup, scale)
  {
    var normalizeLine: string := "";
    var normalizeLineNum: nat := 0;
    var found: Option<nat> := None;
    for num := 0 to |data|
      invariant found == LastMatch(data[..num], lookup)
      invariant found.Some? ==> normalizeLineNum == found.value < |data| && normalizeLine == data[normalizeLineNum]
      invariant found.None? ==> normalizeLine == ""
    {
      assert data[..num + 1][..num] == data[..num];
      if Contains(data[num], lookup) {
        normalizeLine := data[num];
        normalizeLineNum := num;
        found := Some(num);
      }
    }
    assert data[..|data|] == data;
    var row := Tokens(normalizeLine);
    if |row| < 2 {
      return Err(IndexError);
    }
    var fluxn := scale(row[1]);
    if fluxn.None? {
      return Err(ValueError);
    }
    normalizeLine := Replace(normalizeLine, row[1], fluxn.value);
    return Ok((normalizeLine, normalizeLineNum));
  }

  // ------------------------------------------------------- zero-filled copies

  /** The first field of a line, `line.split()[0]`, when it has one. */
  function FirstField(line: string): Option<string> {
    var t := LStrip(line);
    if t == [] then None else Some(Word(t))
  }

  /** `FirstField` is the head of `Tokens`. */
  lemma FirstFieldIsFirstToken(line: string)
    ensures FirstField(line).None? <==> Tokens(line) == []
    ensures FirstField(line).Some? ==> FirstField(line).value == Tokens(line)[0]
  {
  }

  /** The row a data line becomes where its flux is zeroed:
      `str(row[0]) + '        ' + '0.0\n'` with `row = line.split()`; a
      line with no field fails at `row[0]`. */
  function ZeroLine(line: string): Result<string> {
    match FirstField(line)
    case None => Err(IndexError)
    case Some(wave) => Ok(wave + "        " + "0.0\n")
  }

  /** The rows the writers append for `data`: one zero row for each line that
      does not start with '#', in order. */
  function ZeroLines(data: seq<string>): Result<seq<string>> {
    if data == [] then Ok([])
    else if StartsWith(data[0], "#") then ZeroLines(data[1..])
    else
      var zero :- ZeroLine(data[0]);
      var rest :- ZeroLines(data[1..]);
      Ok([zero] + rest)
  }

  /** An output file before any line of it is replaced: the first `ncom`
      input lines verbatim, then the zero rows. */
  function ZeroFilled(data: seq<string>, ncom: nat): Result<seq<string>>
    requires ncom <= |data|
  {
    var zeros :- ZeroLines(data);
    Ok(data[..ncom] + zeros)
  }

  /** `acc` put in front of a successful list; an error unchanged. */
  function Prepend(acc: seq<string>, r: Result<seq<string>>): Result<seq<string>> {
    match r
    case Ok(v) => Ok(acc + v)
    case Err(e) => Err(e)
  }

  /** An input whose layout the writers rely on: its leading comment lines
      start with '#' in the first column, and every later line is a data row
      with at least one field and no '#' in the first column. */
  ghost predicate WellFormed(data: seq<string>) {
    (forall k :: 0 <= k < CommentCount(data) ==> StartsWith(data[k], "#"))
    && (forall k :: CommentCount(data) <= k < |data| ==> !StartsWith(data[k], "#") && FirstField(data[k]).Some?)
  }

  /** Row `k` of an output file outside every copied range: the comment line
      itself, or the data line's wavelength with a zero flux. */
  ghost function Blank(data: seq<string>, k: nat): string
    requires WellFormed(data) && k < |data|
  {
    if k < CommentCount(data) then data[k] else ZeroLine(data[k]).value
  }

  /** Lines starting with '#' contribute no zero row. */
  lemma {:induction false} ZeroLinesSkipComments(s: seq<string>, n: nat)
    requires n <= |s| && forall k :: 0 <= k < n ==> StartsWith(s[k], "#")
    ensures ZeroLines(s) == ZeroLines(s[n..])
    decreases n
  {
    if n == 0 {
      assert s[0..] == s;
    } else {
      var tail := s[1..];
      forall k | 0 <= k < n - 1
        ensures StartsWith(tail[k], "#")
      {
        assert tail[k] == s[k + 1];
      }
      ZeroLinesSkipComments(tail, n - 1);
      assert tail[n - 1..] == s[n..];
    }
  }

  /** Lines that are all data rows give one zero row each, in order. */
  lemma {:induction false} ZeroLinesOfData(s: seq<string>)
    requires forall k :: 0 <= k < |s| ==> !StartsWith(s[k], "#") && FirstField(s[k]).Some?
    ensures ZeroLines(s).Ok? && |ZeroLines(s).value| == |s|
    ensures forall k :: 0 <= k < |s| ==> ZeroLines(s).value[k] == ZeroLine(s[k]).value
  {
    if s != [] {
      var tail := s[1..];
      forall k | 0 <= k < |tail|
        ensures !StartsWith(tail[k], "#") && FirstField(tail[k]).Some?
      {
        assert tail[k] == s[k + 1];
      }
      ZeroLinesOfData(tail);
      var rest := ZeroLines(tail).value;
      assert ZeroLines(s).value == [ZeroLine(s[0]).value] + rest;
      forall k | 1 <= k < |s|
        ensures ZeroLines(s).value[k] == ZeroLine(s[k]).value
      {
        assert s[k] == tail[k - 1];
      }
    }
  }

  /** For a well-formed input, the zero-filled file has the input's length,
      keeps the leading comment lines and zeroes every data row. */
  lemma {:induction false} ZeroFilledContents(data: seq<string>)
    requires WellFormed(data)
    ensures ZeroFilled(data, CommentCount(data)).Ok?
    ensures |ZeroFilled(data, CommentCount(data)).value| == |data|
    ensures forall k :: 0 <= k < |data| ==> ZeroFilled(data, CommentCount(data)).value[k] == Blank(data, k)
  {
    var n := CommentCount(data);
    ZeroLinesSkipComments(data, n);
    DataRowsAfter(data, n);
    ZeroLinesOfData(data[n..]);
    var zs := ZeroLines(data[n..]).value;
    ZeroFilledRows(data, n, zs);
    assert ZeroFilled(data, n) == Ok(data[..n] + zs);
  }

  /** The lines from `n` on of an input whose lines from `n` on are data rows. */
  lemma DataRowsAfter(data: seq<string>, n: nat)
    requires n <= |data|
    requires forall k :: n <= k < |data| ==> !StartsWith(data[k], "#") && FirstField(data[k]).Some?
    ensures forall k :: 0 <= k < |data[n..]| ==> !StartsWith(data[n..][k], "#") && FirstField(data[n..][k]).Some?
  {
    forall k | 0 <= k < |data[n..]|
      ensures !StartsWith(data[n..][k], "#") && FirstField(data[n..][k]).Some?
    {
      assert data[n..][k] == data[n + k];
    }
  }

  /** The first `n` lines followed by the zero rows of the rest: row `k` is
      line `k` below `n` and the zero row of line `k` from `n` on. */
  lemma ZeroFilledRows(data: seq<string>, n: nat, zs: seq<string>)
    requires n <= |data| && |zs| == |data| - n
    requires forall k :: 0 <= k < |zs| ==> ZeroLine(data[n..][k]) == Ok(zs[k])
    ensures |data[..n] + zs| == |data|
    ensures forall k :: 0 <= k < n ==> (data[..n] + zs)[k] == data[k]
    ensures forall k :: n <= k < |data| ==> ZeroLine(data[k]) == Ok((data[..n] + zs)[k])
  {
    forall k | n <= k < |data|
      ensures ZeroLine(data[k]) == Ok((data[..n] + zs)[k])
    {
      assert (data[..n] + zs)[k] == zs[k - n];
      assert data[n..][k - n] == data[k];
    }
  }


  // ----------------------------------------------------------- copied ranges

  /** Lines `lo` to `hi - 1` of `lines` replaced in turn, through
      `replace_line`, by the same lines of `data`. */
  function Patch(lines: seq<string>, data: seq<string>, lo: int, hi: int): Result<seq<string>>
    requires 0 <= lo && (lo < hi ==> hi <= |data|)
    decreases hi - lo
  {
    if lo >= hi then Ok(lines)
    else
      var next :- Replaced(lines, lo, data[lo]);
      Patch(next, data, lo + 1, hi)
  }

  /** `Patch` succeeds exactly when its range is empty or lies inside
      `lines`; it then keeps the length, holds `data[k].lstrip()` at every
      row `k` of the range and leaves every other row alone. */
  lemma {:induction false} PatchSpec(lines: seq<string>, data: seq<string>, lo: int, hi: int)
    requires 0 <= lo && (lo < hi ==> hi <= |data|)
    ensures Patch(lines, data, lo, hi).Ok? <==> lo >= hi || hi <= |lines|
    ensures Patch(lines, data, lo, hi).Err? ==> Patch(lines, data, lo, hi).error == IndexError
    ensures Patch(lines, data, lo, hi).Ok? ==> |Patch(lines, data, lo, hi).value| == |lines|
    ensures Patch(lines, data, lo, hi).Ok? ==>
      forall k :: 0 <= k < |lines| ==>
        Patch(lines, data, lo, hi).value[k] == if lo <= k < hi then LStrip(data[k]) else lines[k]
    decreases hi - lo
  {
    if lo < hi {
      var r := Replaced(lines, lo, data[lo]);
      if r.Ok? {
        PatchSpec(r.value, data, lo + 1, hi);
      }
    }
  }

  // -------------------------------------------------------------------- bands

  /** Every entry of `lin` is the number of an input line. */
  predicate LinInRange(lin: seq<int>, n: nat) {
    forall k :: 0 <= k < |lin| ==> 1 <= lin[k] <= n
  }

  /** The first 22 entries of `lin` are strictly increasing. */
  predicate Increasing(lin: seq<int>)
    requires |lin| >= 22
  {
    forall a, b :: 0 <= a < b < 22 ==> lin[a] < lin[b]
  }

  /** Row `k` (0-based) is copied from the input in narrowband `i`: for
      `i < 20` the half-open range of line numbers `lin[i]` up to `lin[i+1]`,
      for `i == 20` the closed range `lin[20]` to `lin[21]`. */
  predicate InBand(lin: seq<int>, i: nat, k: int)
    requires |lin| >= 22 && i <= 20
  {
    if i < 20 then lin[i] - 1 <= k < lin[i + 1] - 1 else lin[20] - 1 <= k <= lin[21] - 1
  }

  /** Row `k` is copied from the input in the broadband: the closed range of
      line numbers `lin[0]` to `lin[21]`. */
  predicate InBroadband(lin: seq<int>, k: int)
    requires |lin| >= 22
  {
    lin[0] - 1 <= k <= lin[21] - 1
  }

  /** Narrowband file `i` as `write_narrowband_seds` leaves it before the
      normalisation row: zero-filled, rows `lin[i]-1 .. lin[i+1]-2` replaced
      and, for the last band, rows `lin[20]-1 .. lin[21]-1` replaced again. */
  function NarrowCopied(data: seq<string>, ncom: nat, lin: seq<int>, i: nat): Result<seq<string>>
    requires ncom <= |data| && LinInRange(lin, |data|) && i <= 20
  {
    if |lin| < i + 2 then Err(IndexError)
    else
      var zero :- ZeroFilled(data, ncom);
      CopyBand(zero, data, lin, i)
  }

  /** The copy loops of narrowband `i` applied to the zero-filled file `zero`. */
  function CopyBand(zero: seq<string>, data: seq<string>, lin: seq<int>, i: nat): Result<seq<string>>
    requires LinInRange(lin, |data|) && i <= 20 && |lin| >= i + 2
  {
    var copied :- Patch(zero, data, lin[i] - 1, lin[i + 1] - 1);
    if i == 20 then Patch(copied, data, lin[20] - 1, lin[21]) else Ok(copied)
  }

  /** Narrowband file `i` as `write_narrowband_seds` leaves it. */
  function Narrowband(data: seq<string>, ncom: nat, lin: seq<int>, i: nat, norm: string, normNum: nat)
    : Result<seq<string>>
    requires ncom <= |data| && LinInRange(lin, |data|) && i <= 20
  {
    var copied :- NarrowCopied(data, ncom, lin, i);
    Replaced(copied, normNum, norm)
  }

  /** The broadband file as `write_broadband_sed` leaves it before the
      normalisation row: zero-filled, rows `lin[0]-1 .. lin[21]-2` replaced,
      then row `j` where `j` is the loop's last value `lin[21]-1`; `j` is
      unbound when the loop never ran. */
  function BroadCopied(data: seq<string>, ncom: nat, lin: seq<int>): Result<seq<string>>
    requires ncom <= |data| && LinInRange(lin, |data|)
  {
    var zero :- ZeroFilled(data, ncom);
    if |lin| < 22 then Err(IndexError) else CopyBroad(zero, data, lin)
  }

  /** The copy loop of the broadband and its extra row applied to the
      zero-filled file `zero`. */
  function CopyBroad(zero: seq<string>, data: seq<string>, lin: seq<int>): Result<seq<string>>
    requires LinInRange(lin, |data|) && |lin| >= 22
  {
    var copied :- Patch(zero, data, lin[0] - 1, lin[21] - 1);
    if lin[0] >= lin[21] then Err(NameError)
    else Replaced(copied, lin[21] - 1, data[lin[21] - 1])
  }

  /** The broadband file as `write_broadband_sed` leaves it. */
  function Broadband(data: seq<string>, ncom: nat, lin: seq<int>, norm: string, normNum: nat)
    : Result<seq<string>>
    requires ncom <= |data| && LinInRange(lin, |data|)
  {
    var copied :- BroadCopied(data, ncom, lin);
    Replaced(copied, normNum, norm)
  }

  /** The expected row `k` of narrowband `i`: the normalisation row wins,
      then the copied range, then the zero-filled row. */
  ghost function NarrowRow(data: seq<string>, lin: seq<int>, i: nat, norm: string, normNum: nat, k: nat): string
    requires WellFormed(data) && |lin| >= 22 && i <= 20 && k < |data|
  {
    if k == normNum then LStrip(norm)
    else if InBand(lin, i, k) then LStrip(data[k])
    else Blank(data, k)
  }

  /** The expected row `k` of the broadband, in the same order of precedence. */
  ghost function BroadRow(data: seq<string>, lin: seq<int>, norm: string, normNum: nat, k: nat): string
    requires WellFormed(data) && |lin| >= 22 && k < |data|
  {
    if k == normNum then LStrip(norm)
    else if InBroadband(lin, k) then LStrip(data[k])
    else Blank(data, k)
  }

  /** Patching `lo .. hi2-1` over a file already patched on `lo .. hi-1`,
      with `hi <= hi2`, is patching `lo .. hi2-1` once: the second loop of
      the last band rewrites the first loop's rows with the same text. */
  lemma PatchOverPatch(lines: seq<string>, data: seq<string>, lo: int, hi: int, hi2: int)
    requires 0 <= lo && hi <= hi2 <= |data| && hi2 <= |lines|
    ensures Patch(lines, data, lo, hi).Ok?
    ensures Patch(Patch(lines, data, lo, hi).value, data, lo, hi2) == Patch(lines, data, lo, hi2)
  {
    PatchSpec(lines, data, lo, hi);
    var once := Patch(lines, data, lo, hi).value;
    PatchSpec(once, data, lo, hi2);
    PatchSpec(lines, data, lo, hi2);
    var a, b := Patch(once, data, lo, hi2), Patch(lines, data, lo, hi2);
    if lo < hi2 {
      assert a.Ok? && b.Ok?;
      assert |a.value| == |b.value|;
      forall k | 0 <= k < |lines|
        ensures a.value[k] == b.value[k]
      {
      }
      assert a.value == b.value;
    }
  }

  /** The copy loops of narrowband `i` patch band `i` once: the half-open
      range for `i < 20`, the closed one for `i == 20`, where the second loop
      rewrites the first loop's rows with the same text. */
  lemma CopyBandIsOnePatch(zero: seq<string>, data: seq<string>, lin: seq<int>, i: nat)
    requires LinInRange(lin, |data|) && |lin| >= 22 && i <= 20 && |zero| == |data|
    ensures CopyBand(zero, data, lin, i)
      == if i == 20 then Patch(zero, data, lin[20] - 1, lin[21]) else Patch(zero, data, lin[i] - 1, lin[i + 1] - 1)
  {
    if i == 20 {
      PatchOverPatch(zero, data, lin[20] - 1, lin[21] - 1, lin[21]);
    }
  }

  /** The copy loops of narrowband `i` keep the file's length, copy band `i`
      and leave every other row alone. */
  lemma CopyBandContents(zero: seq<string>, data: seq<string>, lin: seq<int>, i: nat)
    requires LinInRange(lin, |data|) && |lin| >= 22 && i <= 20 && |zero| == |data|
    ensures CopyBand(zero, data, lin, i).Ok?
    ensures |CopyBand(zero, data, lin, i).value| == |data|
    ensures forall k :: 0 <= k < |data| ==>
      CopyBand(zero, data, lin, i).value[k] == if InBand(lin, i, k) then LStrip(data[k]) else zero[k]
  {
    CopyBandIsOnePatch(zero, data, lin, i);
    if i == 20 {
      PatchSpec(zero, data, lin[20] - 1, lin[21]);
    } else {
      PatchSpec(zero, data, lin[i] - 1, lin[i + 1] - 1);
    }
  }

  /** Before its normalisation row, narrowband `i` of a well-formed input
      holds the copied rows of band `i` and zero-filled rows elsewhere. */
  lemma NarrowCopiedContents(data: seq<string>, lin: seq<int>, i: nat)
    requires WellFormed(data) && LinInRange(lin, |data|) && |lin| >= 22 && i <= 20
    ensures NarrowCopied(data, CommentCount(data), lin, i).Ok?
    ensures |NarrowCopied(data, CommentCount(data), lin, i).value| == |data|
    ensures forall k :: 0 <= k < |data| ==>
      NarrowCopied(data, CommentCount(data), lin, i).value[k]
        == if InBand(lin, i, k) then LStrip(data[k]) else Blank(data, k)
  {
    var ncom := CommentCount(data);
    ZeroFilledContents(data);
    var zero := ZeroFilled(data, ncom).value;
    assert NarrowCopied(data, ncom, lin, i) == CopyBand(zero, data, lin, i);
    CopyBandContents(zero, data, lin, i);
  }

  /** Every narrowband of a well-formed input has the input's length, and
      each row is the normalisation row, a copied row or a zero-filled row,
      in that order of precedence. */
  lemma NarrowbandContents(data: seq<string>, lin: seq<int>, i: nat, norm: string, normNum: nat)
    requires WellFormed(data) && LinInRange(lin, |data|) && |lin| >= 22 && i <= 20 && normNum < |data|
    ensures Narrowband(data, CommentCount(data), lin, i, norm, normNum).Ok?
    ensures |Narrowband(data, CommentCount(data), lin, i, norm, normNum).value| == |data|
    ensures forall k :: 0 <= k < |data| ==>
      Narrowband(data, CommentCount(data), lin, i, norm, normNum).value[k] == NarrowRow(data, lin, i, norm, normNum, k)
  {
    NarrowCopiedContents(data, lin, i);
  }

  /** Before its normalisation row, the broadband of a well-formed input
      exists exactly when `lin[0] < lin[21]` (otherwise `j` is unbound), and
      holds the closed range `lin[0]` to `lin[21]` copied, zero rows elsewhere. */
  lemma BroadCopiedContents(data: seq<string>, lin: seq<int>)
    requires WellFormed(data) && LinInRange(lin, |data|) && |lin| >= 22
    ensures BroadCopied(data, CommentCount(data), lin).Ok? <==> lin[0] < lin[21]
    ensures BroadCopied(data, CommentCount(data), lin).Err? ==>
      BroadCopied(data, CommentCount(data), lin).error == NameError
    ensures BroadCopied(data, CommentCount(data), lin).Ok? ==>
      |BroadCopied(data, CommentCount(data), lin).value| == |data|
      && forall k :: 0 <= k < |data| ==>
        BroadCopied(data, CommentCount(data), lin).value[k]
          == if InBroadband(lin, k) then LStrip(data[k]) else Blank(data, k)
  {
    var ncom := CommentCount(data);
    ZeroFilledContents(data);
    var zero := ZeroFilled(data, ncom).value;
    assert BroadCopied(data, ncom, lin) == CopyBroad(zero, data, lin);
    CopyBroadContents(zero, data, lin);
  }

  /** The broadband's copy steps fail with `NameError` exactly when the loop
      is empty; otherwise they copy the closed range and keep every other row. */
  lemma CopyBroadContents(zero: seq<string>, data: seq<string>, lin: seq<int>)
    requires LinInRange(lin, |data|) && |lin| >= 22 && |zero| == |data|
    ensures CopyBroad(zero, data, lin).Ok? <==> lin[0] < lin[21]
    ensures CopyBroad(zero, data, lin).Err? ==> CopyBroad(zero, data, lin).error == NameError
    ensures CopyBroad(zero, data, lin).Ok? ==>
      |CopyBroad(zero, data, lin).value| == |data|
      && forall k :: 0 <= k < |data| ==>
        CopyBroad(zero, data, lin).value[k] == if InBroadband(lin, k) then LStrip(data[k]) else zero[k]
  {
    PatchSpec(zero, data, lin[0] - 1, lin[21] - 1);
  }

  /** The broadband of a well-formed input exists exactly when `lin[0] <
      lin[21]`, and fails with `NameError` otherwise; its rows follow the
      same precedence over the closed range `lin[0]` to `lin[21]`. */
  lemma BroadbandContents(data: seq<string>, lin: seq<int>, norm: string, normNum: nat)
    requires WellFormed(data) && LinInRange(lin, |data|) && |lin| >= 22 && normNum < |data|
    ensures Broadband(data, CommentCount(data), lin, norm, normNum).Ok? <==> lin[0] < lin[21]
    ensures Broadband(data, CommentCount(data), lin, norm, normNum).Err? ==>
      Broadband(data, CommentCount(data), lin, norm, normNum).error == NameError
    ensures Broadband(data, CommentCount(data), lin, norm, normNum).Ok? ==>
      |Broadband(data, CommentCount(data), lin, norm, normNum).value| == |data|
    ensures Broadband(data, CommentCount(data), lin, norm, normNum).Ok? ==>
      forall k :: 0 <= k < |data| ==>
        Broadband(data, CommentCount(data), lin, norm, normNum).value[k] == BroadRow(data, lin, norm, normNum, k)
  {
    BroadCopiedContents(data, lin);
  }

  // ------------------------------------------------------------------ writers

  /** The zero-fill loop of both writers: each line that does not start with
      '#' is split and `row[0] + '        ' + '0.0\n'` appended; a line with
      no field stops the loop at `row[0]`. */
  method AppendZeroLines(f: LineFile, data: seq<string>) returns (r: Result<()>)
    modifies f
    ensures ZeroLines(data).Ok? ==> r.Ok? && f.lines == old(f.lines) + ZeroLines(data).value
    ensures ZeroLines(data).Err? ==> r == Err(ZeroLines(data).error)
  {
    ghost var acc: seq<string> := [];
    assert data[0..] == data;
    if ZeroLines(data).Ok? {
      assert [] + ZeroLines(data).value == ZeroLines(data).value;
    }
    for k := 0 to |data|
      invariant f.lines == old(f.lines) + acc
      invariant ZeroLines(data) == Prepend(acc, ZeroLines(data[k..]))
    {
      var line := data[k];
      assert data[k..][1..] == data[k + 1..];
      if !StartsWith(line, "#") {
        var row := Tokens(line);
        FirstFieldIsFirstToken(line);
        if |row| == 0 {
          return Err(IndexError);
        }
        var tmp := row[0] + "        " + "0.0\n";
        f.Append([tmp]);
        if ZeroLines(data[k + 1..]).Ok? {
          var rest := ZeroLines(data[k + 1..]).value;
          assert acc + ([tmp] + rest) == (acc + [tmp]) + rest;
        }
        acc := acc + [tmp];
      }
    }
    return Ok(());
  }

  /** A loop of `replace_line` calls over rows `lo` to `hi - 1`, each set to
      the same row of `data`; it stops at the first index out of range. */
  method PatchLines(f: LineFile, data: seq<string>, lo: int, hi: int) returns (r: Result<()>)
    requires 0 <= lo && (lo < hi ==> hi <= |data|)
    modifies f
    ensures Patch(old(f.lines), data, lo, hi).Ok? ==> r.Ok? && f.lines == Patch(old(f.lines), data, lo, hi).value
    ensures Patch(old(f.lines), data, lo, hi).Err? ==> r == Err(Patch(old(f.lines), data, lo, hi).error)
  {
    var j := lo;
    while j < hi
      invariant lo <= j && (lo < hi ==> j <= hi)
      invariant Patch(old(f.lines), data, lo, hi) == Patch(f.lines, data, j, hi)
      decreases hi - j
    {
      r := ReplaceLine(f, j, data[j]);
      if r.Err? {
        return;
      }
      j := j + 1;
    }
    return Ok(());
  }

  /** One pass of the loop of `write_narrowband_seds`: create narrowband file
      `i`, write the comment lines and the zero rows, copy band `i` (twice
      over for the last band) and write the normalisation row. */
  method WriteNarrowband(data: seq<string>, ncom: nat, lin: seq<int>, i: nat, norm: string, normNum: nat)
    returns (r: Result<LineFile>)
    requires ncom <= |data| && LinInRange(lin, |data|) && i <= 20
    ensures r.Ok? <==> Narrowband(data, ncom, lin, i, norm, normNum).Ok?
    ensures r.Ok? ==> fresh(r.value) && r.value.lines == Narrowband(data, ncom, lin, i, norm, normNum).value
    ensures r.Err? ==> r.error == Narrowband(data, ncom, lin, i, norm, normNum).error
  {
    var f := new LineFile([]);
    if |lin| < i + 2 {
      return Err(IndexError);
    }
    f.Append(data[..ncom]);
    assert f.lines == data[..ncom];
    var step := AppendZeroLines(f, data);
    if step.Err? {
      return Err(step.error);
    }
    ghost var zero := f.lines;
    assert ZeroFilled(data, ncom) == Ok(zero);
    assert NarrowCopied(data, ncom, lin, i) == CopyBand(zero, data, lin, i);
    step := PatchLines(f, data, lin[i] - 1, lin[i + 1] - 1);
    if step.Err? {
      assert NarrowCopied(data, ncom, lin, i) == Err(step.error);
      return Err(step.error);
    }
    ghost var first := f.lines;
    assert Patch(zero, data, lin[i] - 1, lin[i + 1] - 1) == Ok(first);
    if i == 20 {
      step := PatchLines(f, data, lin[20] - 1, lin[21]);
      if step.Err? {
        assert NarrowCopied(data, ncom, lin, i) == Err(step.error);
        return Err(step.error);
      }
      assert Patch(first, data, lin[20] - 1, lin[21]) == Ok(f.lines);
    }
    assert NarrowCopied(data, ncom, lin, i) == Ok(f.lines);
    assert Narrowband(data, ncom, lin, i, norm, normNum) == Replaced(f.lines, normNum, norm);
    step := ReplaceLine(f, normNum, norm);
    if step.Err? {
      return Err(step.error);
    }
    return Ok(f);
  }

  /** Narrowband file `i` of input `data`, `scale` rewriting the flux of the
      normalisation row. */
  function NarrowbandFile(data: seq<string>, scale: string -> Option<string>, i: nat): Result<seq<string>>
    requires i <= 20
  {
    var norm :- NormalizingLine(data, Lookup, scale);
    Narrowband(data, CommentCount(data), LinNums(data, Breakpoints()), i, norm.0, norm.1)
  }

  /** The loop of `write_narrowband_seds` once its inputs are known: write
      the 21 narrowband files in turn, stopping at the first failure. `files`
      holds the completed files. */
  method WriteNarrowbands(data: seq<string>, ncom: nat, lin: seq<int>, norm: string, normNum: nat)
    returns (files: seq<LineFile>, r: Result<()>)
    requires ncom <= |data| && LinInRange(lin, |data|)
    ensures r.Ok? ==> |files| == 21
    ensures r.Err? ==> |files| < 21 && Narrowband(data, ncom, lin, |files|, norm, normNum) == Err(r.error)
    ensures forall b :: 0 <= b < |files| ==> fresh(files[b])
    ensures forall a, b :: 0 <= a < b < |files| ==> files[a] != files[b]
    ensures forall b :: 0 <= b < |files| ==> Narrowband(data, ncom, lin, b, norm, normNum) == Ok(files[b].lines)
  {
    files := [];
    var nfiles := 21;
    for i := 0 to nfiles
      invariant |files| == i
      invariant forall b :: 0 <= b < i ==> fresh(files[b])
      invariant forall a, b :: 0 <= a < b < i ==> files[a] != files[b]
      invariant forall b :: 0 <= b < i ==> Narrowband(data, ncom, lin, b, norm, normNum) == Ok(files[b].lines)
    {
      var out := WriteNarrowband(data, ncom, lin, i, norm, normNum);
      if out.Err? {
        return files, Err(out.error);
      }
      files := files + [out.value];
    }
    return files, Ok(());
  }

  /** `write_narrowband_seds`: compute the line numbers, the comment count
      and the normalisation row, then write the 21 narrowband files in turn;
      the first failure stops the run. `files` holds the completed files. */
  method WriteNarrowbandSeds(data: seq<string>, scale: string -> Option<string>)
    returns (files: seq<LineFile>, r: Result<()>)
    ensures r.Ok? ==> |files| == 21
    ensures r.Err? ==> |files| < 21 && NarrowbandFile(data, scale, |files|) == Err(r.error)
    ensures forall b :: 0 <= b < |files| ==> fresh(files[b])
    ensures forall a, b :: 0 <= a < b < |files| ==> files[a] != files[b]
    ensures forall b :: 0 <= b < |files| ==> NarrowbandFile(data, scale, b) == Ok(files[b].lines)
  {
    var linNums := GetLinNums(data);
    var ncom := GetNcomLines(data);
    var normalize := GetNormalizingLine(data, Lookup, scale);
    if normalize.Err? {
      assert NarrowbandFile(data, scale, 0) == Err(normalize.error);
      return [], Err(normalize.error);
    }
    files, r := WriteNarrowbands(data, ncom, linNums, normalize.value.0, normalize.value.1);
    if r.Err? {
      NarrowbandFileUnfold(data, scale, |files|);
    }
    forall b | 0 <= b < |files|
      ensures NarrowbandFile(data, scale, b) == Ok(files[b].lines)
    {
      NarrowbandFileUnfold(data, scale, b);
    }
  }

  /** Narrowband file `i` once the normalisation row is known. */
  lemma NarrowbandFileUnfold(data: seq<string>, scale: string -> Option<string>, i: nat)
    requires i <= 20 && NormalizingLine(data, Lookup, scale).Ok?
    ensures NarrowbandFile(data, scale, i) == Narrowband(data, CommentCount(data), LinNums(data, Breakpoints()),
      i, NormalizingLine(data, Lookup, scale).value.0, NormalizingLine(data, Lookup, scale).value.1)
  {
  }

  /** The broadband file of input `data`. */
  function BroadbandFile(data: seq<string>, scale: string -> Option<string>): Result<seq<string>> {
    var norm :- NormalizingLine(data, Lookup, scale);
    Broadband(data, CommentCount(data), LinNums(data, Breakpoints()), norm.0, norm.1)
  }

  /** The body of `write_broadband_sed` once its inputs are known: create
      the file, write the comment lines and the zero rows, copy rows
      `lin[0]-1 .. lin[21]-2`, then row `j`, the copy loop's last index, and
      finally the normalisation row. */
  method WriteBroadband(data: seq<string>, ncom: nat, lin: seq<int>, norm: string, normNum: nat)
    returns (r: Result<LineFile>)
    requires ncom <= |data| && LinInRange(lin, |data|)
    ensures r.Ok? <==> Broadband(data, ncom, lin, norm, normNum).Ok?
    ensures r.Ok? ==> fresh(r.value) && r.value.lines == Broadband(data, ncom, lin, norm, normNum).value
    ensures r.Err? ==> r.error == Broadband(data, ncom, lin, norm, normNum).error
  {
    var f := new LineFile([]);
    f.Append(data[..ncom]);
    assert f.lines == data[..ncom];
    var step := AppendZeroLines(f, data);
    if step.Err? {
      assert BroadCopied(data, ncom, lin) == Err(step.error);
      return Err(step.error);
    }
    ghost var zero := f.lines;
    assert ZeroFilled(data, ncom) == Ok(zero);
    if |lin| < 22 {
      assert BroadCopied(data, ncom, lin) == Err(IndexError);
      return Err(IndexError);
    }
    assert BroadCopied(data, ncom, lin) == CopyBroad(zero, data, lin);
    step := PatchLines(f, data, lin[0] - 1, lin[21] - 1);
    if step.Err? {
      assert CopyBroad(zero, data, lin) == Err(step.error);
      return Err(step.error);
    }
    // the loop variable `j` exists only if the loop ran at least once
    if lin[0] >= lin[21] {
      assert CopyBroad(zero, data, lin) == Err(NameError);
      return Err(NameError);
    }
    assert CopyBroad(zero, data, lin) == Replaced(f.lines, lin[21] - 1, data[lin[21] - 1]);
    var j := lin[21] - 1;
    step := ReplaceLine(f, j, data[j]);
    if step.Err? {
      return Err(step.error);
    }
    step := ReplaceLine(f, normNum, norm);
    if step.Err? {
      return Err(step.error);
    }
    return Ok(f);
  }

  /** `write_broadband_sed`: compute the comment count, the line numbers and
      the normalisation row, then write the broadband file. */
  method WriteBroadbandSed(data: seq<string>, scale: string -> Option<string>) returns (r: Result<LineFile>)
    ensures r.Ok? <==> BroadbandFile(data, scale).Ok?
    ensures r.Ok? ==> fresh(r.value) && r.value.lines == BroadbandFile(data, scale).value
    ensures r.Err? ==> BroadbandFile(data, scale) == Err(r.error)
  {
    var ncom := GetNcomLines(data);
    var lin := GetLinNums(data);
    var normalize := GetNormalizingLine(data, Lookup, scale);
    if normalize.Err? {
      assert BroadbandFile(data, scale) == Err(normalize.error);
      return Err(normalize.error);
    }
    assert BroadbandFile(data, scale) == Broadband(data, ncom, lin, normalize.value.0, normalize.value.1);
    r := WriteBroadband(data, ncom, lin, normalize.value.0, normalize.value.1);
  }

  // ----------------------------------------------------------- band coverage

  /** A row of the broadband range lies in band `i` or in a later band. */
  lemma {:induction false} BandFrom(lin: seq<int>, i: nat, k: int)
    requires |lin| >= 22 && Increasing(lin) && i <= 20
    requires lin[i] - 1 <= k <= lin[21] - 1
    ensures exists b :: i <= b <= 20 && InBand(lin, b, k)
    decreases 20 - i
  {
    if i == 20 || k < lin[i + 1] - 1 {
      assert InBand(lin, i, k);
    } else {
      BandFrom(lin, i + 1, k);
    }
  }

  /** For strictly increasing line numbers the 21 bands split the broadband
      range: a row is in the broadband range exactly when it is in some band,
      and no row is in two bands. */
  lemma BandsPartition(lin: seq<int>)
    requires |lin| >= 22 && Increasing(lin)
    ensures forall k :: InBroadband(lin, k) <==> exists b :: 0 <= b <= 20 && InBand(lin, b, k)
    ensures forall a, b, k :: 0 <= a < b <= 20 && InBand(lin, a, k) ==> !InBand(lin, b, k)
  {
    forall k | InBroadband(lin, k)
      ensures exists b :: 0 <= b <= 20 && InBand(lin, b, k)
    {
      BandFrom(lin, 0, k);
    }
    forall k, b | 0 <= b <= 20 && InBand(lin, b, k)
      ensures InBroadband(lin, k)
    {
      assert lin[0] <= lin[b];
      assert b < 20 ==> lin[b + 1] <= lin[21];
    }
    forall a, b, k | 0 <= a < b <= 20 && InBand(lin, a, k)
      ensures !InBand(lin, b, k)
    {
      assert lin[a + 1] <= lin[b];
    }
  }

  /** With strictly increasing line numbers the broadband of a well-formed
      input is the union of the narrowbands: inside band `b` it agrees with
      narrowband `b`, outside the broadband range (and at the normalisation
      row) it agrees with every narrowband. */
  lemma BroadbandIsUnion(data: seq<string>, lin: seq<int>, norm: string, normNum: nat)
    requires WellFormed(data) && LinInRange(lin, |data|) && |lin| >= 22 && Increasing(lin) && normNum < |data|
    ensures Broadband(data, CommentCount(data), lin, norm, normNum).Ok?
    ensures |Broadband(data, CommentCount(data), lin, norm, normNum).value| == |data|
    ensures forall b :: 0 <= b <= 20 ==>
      Narrowband(data, CommentCount(data), lin, b, norm, normNum).Ok?
      && |Narrowband(data, CommentCount(data), lin, b, norm, normNum).value| == |data|
    ensures forall b, k :: 0 <= b <= 20 && 0 <= k < |data| && InBand(lin, b, k) ==>
      Broadband(data, CommentCount(data), lin, norm, normNum).value[k]
        == Narrowband(data, CommentCount(data), lin, b, norm, normNum).value[k]
    ensures forall b, k :: 0 <= b <= 20 && 0 <= k < |data| && (k == normNum || !InBroadband(lin, k)) ==>
      Broadband(data, CommentCount(data), lin, norm, normNum).value[k]
        == Narrowband(data, CommentCount(data), lin, b, norm, normNum).value[k]
  {
    var ncom := CommentCount(data);
    BroadbandContents(data, lin, norm, normNum);
    BandsPartition(lin);
    forall b | 0 <= b <= 20
      ensures Narrowband(data, ncom, lin, b, norm, normNum).Ok?
      ensures |Narrowband(data, ncom, lin, b, norm, normNum).value| == |data|
      ensures forall k :: 0 <= k < |data| ==>
        Narrowband(data, ncom, lin, b, norm, normNum).value[k] == NarrowRow(data, lin, b, norm, normNum, k)
    {
      NarrowbandContents(data, lin, b, norm, normNum);
    }
  }

  /** In every narrowband and in the broadband that exists, the row at the
      normalisation index is the normalisation line, whatever the zero fill
      or a copied band left there. */
  lemma NormalizationWins(data: seq<string>, scale: string -> Option<string>)
    requires NormalizingLine(data, Lookup, scale).Ok?
    ensures forall b :: 0 <= b <= 20 && NarrowbandFile(data, scale, b).Ok? ==>
      NormalizingLine(data, Lookup, scale).value.1 < |NarrowbandFile(data, scale, b).value|
      && NarrowbandFile(data, scale, b).value[NormalizingLine(data, Lookup, scale).value.1]
        == LStrip(NormalizingLine(data, Lookup, scale).value.0)
    ensures BroadbandFile(data, scale).Ok? ==>
      NormalizingLine(data, Lookup, scale).value.1 < |BroadbandFile(data, scale).value|
      && BroadbandFile(data, scale).value[NormalizingLine(data, Lookup, scale).value.1]
        == LStrip(NormalizingLine(data, Lookup, scale).value.0)
  {
    var norm := NormalizingLine(data, Lookup, scale).value;
    var ncom, lin := CommentCount(data), LinNums(data, Breakpoints());
    forall b | 0 <= b <= 20 && NarrowbandFile(data, scale, b).Ok?
      ensures norm.1 < |NarrowbandFile(data, scale, b).value|
      ensures NarrowbandFile(data, scale, b).value[norm.1] == LStrip(norm.0)
    {
      assert NarrowbandFile(data, scale, b) == Narrowband(data, ncom, lin, b, norm.0, norm.1);
      var copied := NarrowCopied(data, ncom, lin, b).value;
      assert NarrowbandFile(data, scale, b) == Replaced(copied, norm.1, norm.0);
    }
    if BroadbandFile(data, scale).Ok? {
      var copied := BroadCopied(data, ncom, lin).value;
      assert BroadbandFile(data, scale) == Replaced(copied, norm.1, norm.0);
    }
  }

  /** On an input with one line per Angstrom whose line number is the
      wavelength less 999 (the layout of the line numbers listed with
      `write_narrowband_seds`), band `i < 20` copies the wavelengths from
      breakpoint `i` up to one below breakpoint `i + 1`, and band 20 from
      breakpoint 20 through breakpoint 21: 5310 to 5387, 5388 to 5466, ...,
      6803 to 6881 and 6882 to 6960. */
  lemma BandSpansAsDocumented(lin: seq<int>, i: nat, wave: int)
    requires |lin| == 22 && forall j :: 0 <= j < 22 ==> lin[j] == Breakpoints()[j] - 999
    requires i <= 20
    ensures InBand(lin, i, wave - 1000) <==>
      if i < 20 then Breakpoints()[i] <= wave < Breakpoints()[i + 1]
      else Breakpoints()[20] <= wave <= Breakpoints()[21]
    ensures lin[0] == 4311 && lin[21] == 5961
  {
    var bp := Breakpoints();
    assert lin[i] == bp[i] - 999;
    if i < 20 {
      assert lin[i + 1] == bp[i + 1] - 999;
    } else {
      assert lin[21] == bp[21] - 999;
    }
    assert lin[0] == bp[0] - 999 && lin[21] == bp[21] - 999;
  }

  // ------------------------------------------------------- normalisation line

  /** When the flux token's first occurrence in the normalisation line is at
      position `p`, everything before `p` is kept; the rest of the line has
      every occurrence of the flux text rewritten. */
  lemma {:induction false} NormalizeKeepsPrefix(data: seq<string>, scale: string -> Option<string>, p: nat)
    requires NormalizingLine(data, Lookup, scale).Ok?
    requires var n := NormalizingLine(data, Lookup, scale).value.1;
      MatchesAt(data[n], Tokens(data[n])[1], p)
      && forall q :: 0 <= q < p ==> !MatchesAt(data[n], Tokens(data[n])[1], q)
    ensures var n := NormalizingLine(data, Lookup, scale).value.1;
      var flux := Tokens(data[n])[1];
      var line := NormalizingLine(data, Lookup, scale).value.0;
      line == data[n][..p] + scale(flux).value + Replace(data[n][p + |flux|..], flux, scale(flux).value)
  {
    var r := NormalizingLine(data, Lookup, scale);
    var line := data[r.value.1];
    var flux := Tokens(line)[1];
    FirstFluxRewrite(line, flux, scale(flux).value, p, r.value.0);
  }

  /** `out`, the row with `flux` rewritten to `fluxn`, keeps the row up to
      the first occurrence of `flux` at `p`. */
  lemma FirstFluxRewrite(line: string, flux: string, fluxn: string, p: nat, out: string)
    requires flux != [] && MatchesAt(line, flux, p) && forall q :: 0 <= q < p ==> !MatchesAt(line, flux, q)
    requires out == Replace(line, flux, fluxn)
    ensures out == line[..p] + fluxn + Replace(line[p + |flux|..], flux, fluxn)
  {
    ReplaceFromFirstMatch(line, flux, fluxn, p);
  }

  /** When the flux text does not occur inside the wavelength field, the
      normalised line keeps that wavelength as its first field. */
  lemma NormalizeKeepsWave(data: seq<string>, scale: string -> Option<string>)
    requires NormalizingLine(data, Lookup, scale).Ok?
    requires var n := NormalizingLine(data, Lookup, scale).value.1;
      !Contains(Tokens(data[n])[0], Tokens(data[n])[1])
    ensures var r := NormalizingLine(data, Lookup, scale);
      var row := Tokens(data[r.value.1]);
      Tokens(r.value.0) != [] && Tokens(r.value.0)[0] == row[0]
  {
    var r := NormalizingLine(data, Lookup, scale);
    var line := data[r.value.1];
    var flux := Tokens(line)[1];
    FluxRewriteKeepsWave(line, flux, scale(flux).value, r.value.0);
  }

  /** `out`, the row with its second field `flux` rewritten to `fluxn`, keeps
      the first field when `flux` does not occur inside it. */
  lemma FluxRewriteKeepsWave(line: string, flux: string, fluxn: string, out: string)
    requires |Tokens(line)| >= 2 && flux == Tokens(line)[1] && !Contains(Tokens(line)[0], flux)
    requires out == Replace(line, flux, fluxn)
    ensures Tokens(out) != [] && Tokens(out)[0] == Tokens(line)[0]
  {
    TokensSpaceFree(line);
    ReplaceKeepsFirstToken(line, flux, fluxn);
  }

  /** The fields of the last part of the sample row. */
  lemma SampleTail(s: string)
    requires s == "5000.0\n"
    ensures Tokens(s) == [Lookup]
  {
    LStripNoLeadingSpace(s);
    WordUpTo(s, 6);
    assert s[..6] == Lookup;
    assert s[6..] == "\n";
    assert LStrip("\n") == [];
  }

  /** The first field of the sample row. */
  lemma SampleHead(line: string)
    requires line == "5000.0 5000.0\n"
    ensures LStrip(line) == line
    ensures Word(line) == Lookup
  {
    LStripNoLeadingSpace(line);
    WordUpTo(line, 6);
    assert line[..6] == Lookup;
  }

  /** The fields of the sample row `5000.0 5000.0`. */
  lemma SampleTokens(line: string)
    requires line == "5000.0 5000.0\n"
    ensures Tokens(line) == [Lookup, Lookup]
  {
    SampleHead(line);
    assert Tokens(line) == [Lookup] + Tokens(line[6..]);
    SampleRest(line[6..]);
  }

  /** The fields of the sample row after its first field. */
  lemma SampleRest(rest: string)
    requires rest == " 5000.0\n"
    ensures Tokens(rest) == [Lookup]
  {
    assert rest[0] == ' ' && rest[1..] == "5000.0\n";
    LStripNoLeadingSpace(rest[1..]);
    assert LStrip(rest) == LStrip(rest[1..]);
    TokensOfStripped(rest);
    SampleTail(rest[1..]);
  }

  /** Both occurrences of `5000.0` in the sample row are rewritten. */
  lemma SampleReplace()
    ensures Replace("5000.0 5000.0\n", Lookup, "50.0") == "50.0 50.0\n"
  {
    var line := "5000.0 5000.0\n";
    assert Replace(line[13..], Lookup, "50.0") == "\n";
    assert Replace(line[7..], Lookup, "50.0") == "50.0\n";
    var gap := line[6..];
    assert gap[..6][0] != Lookup[0];
    ReplaceSkip(gap, Lookup, "50.0");
    assert gap[1..] == line[7..];
    assert Replace(gap, Lookup, "50.0") == " 50.0\n";
  }

  /** Because `str.replace` rewrites every occurrence of the flux text, the
      wavelength can change too: a row `5000.0 5000.0` whose flux scales to
      `50.0` becomes `50.0 50.0`. */
  lemma NormalizeCanAlterWave()
    ensures NormalizingLine(["5000.0 5000.0\n"], Lookup, (flux: string) => Some("50.0"))
      == Ok(("50.0 50.0\n", 0))
  {
    var line := "5000.0 5000.0\n";
    assert StartsWith(line, Lookup);
    assert LastMatch([line], Lookup) == Some(0);
    SampleTokens(line);
    SampleReplace();
  }
}
