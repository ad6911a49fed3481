/** Splitting a line into words and gaps, and the greedy wrapping of lines to a width. */
module WordWrap {
  import opened Text

  // ------------------------------------------------- words and gaps

  /** Length of the longest prefix of one kind. */
  function RunLength(x: string): (n: nat)
    requires x != ""
    ensures 1 <= n <= |x|
    ensures forall i :: 0 <= i < n ==> IsSpace(x[i]) == IsSpace(x[0])
    ensures n < |x| ==> IsSpace(x[n]) != IsSpace(x[0])
  {
    if |x| == 1 || IsSpace(x[1]) != IsSpace(x[0]) then 1 else 1 + RunLength(x[1..])
  }

  function Runs(x: string): seq<string> {
    if x == "" then [""]
    else
      var n := RunLength(x);
      if n == |x| then [x] else [x[..n]] + Runs(x[n..])
  }

  /** The characters of x from a to b are of one kind. */
  ghost predicate Uniform(x: string, a: nat, b: nat)
    requires a <= b <= |x|
  {
    forall j :: a <= j < b ==> IsSpace(x[j]) == IsSpace(x[a])
  }

  lemma RunEnds(y: string, n: nat)
    requires 0 < n < |y| && IsSpace(y[n]) != IsSpace(y[0])
    requires forall i :: 0 <= i < n ==> IsSpace(y[i]) == IsSpace(y[0])
    ensures RunLength(y) == n
  {
    hide IsSpace;
  }

  /** A stretch of one kind that the next character breaks is a piece of its own. */
  lemma RunsSplit(x: string, a: nat, b: nat)
    requires a < b < |x| && Uniform(x, a, b) && IsSpace(x[b]) != IsSpace(x[a])
    ensures Runs(x[a..]) == [x[a..b]] + Runs(x[b..])
  {
    var y := x[a..];
    hide IsSpace;
    assert forall k :: 0 <= k < |y| ==> y[k] == x[a + k];
    RunEnds(y, b - a);
    assert y[..b - a] == x[a..b] && y[b - a..] == x[b..];
  }

  lemma RunsLast(x: string, a: nat)
    requires a < |x| && Uniform(x, a, |x|)
    ensures Runs(x[a..]) == [x[a..]]
  {
    var y := x[a..];
    assert forall k :: 0 <= k < |y| ==> y[k] == x[a + k];
  }

  lemma NoRuns()
    ensures Runs("") == [""]
  {
  }

  method SplitOnSpace(x: string) returns (result: seq<string>)
    ensures result == Runs(x)
  {
    hide RunLength, Runs, IsSpace;
    result := [];
    assert result + Runs(x) == Runs(x);
    var pi := 0;
    var ps := false;
    var i := 0;
    assert x[0..] == x;
    while i < |x|
      invariant pi <= i <= |x| && (i > 0 ==> pi < i && ps == IsSpace(x[pi]))
      invariant Uniform(x, pi, i)
      invariant i == 0 ==> result == []
      invariant Runs(x) == result + Runs(x[pi..])
    {
      var s := IsSpace(x[i]);
      if s != ps && i > 0 {
        RunsSplit(x, pi, i);
        assert result + ([x[pi..i]] + Runs(x[i..])) == (result + [x[pi..i]]) + Runs(x[i..]);
        result := result + [x[pi..i]];
        pi := i;
      }
      ps := s;
      i := i + 1;
    }
    if x != "" {
      RunsLast(x, pi);
    } else {
      NoRuns();
    }
    result := result + [x[pi..]];
  }

  /** Pieces that are alternately of one kind and of the other, the first one blank or not. */
  ghost predicate Alternating(f: seq<string>, blank: bool) {
    f != [] ==> f[0] != "" && (if blank then Blank(f[0]) else Solid(f[0])) && Alternating(f[1..], !blank)
  }

  /** The pieces of a line are its maximal runs of white space and of other characters, in order. */
  lemma {:induction false} RunsAreMaximal(x: string)
    requires x != ""
    ensures Concat(Runs(x)) == x
    ensures Alternating(Runs(x), IsSpace(x[0]))
  {
    hide IsSpace, RunLength;
    var n := RunLength(x);
    var head, tail := x[..n], x[n..];
    assert x == head + tail;
    assert forall i :: 0 <= i < n ==> head[i] == x[i];
    if tail == "" {
      assert Runs(x) == [x] && [x][1..] == [];
      ConcatSingle(x);
    } else {
      assert tail[0] == x[n];
      RunsAreMaximal(tail);
      assert Runs(x) == [head] + Runs(tail);
      assert Runs(x)[1..] == Runs(tail);
      hide Runs;
    }
  }

  lemma ConcatSingle(x: string)
    ensures Concat([x]) == x
  {
    assert [x][1..] == [];
  }

  lemma AlternatingHead(f: seq<string>, blank: bool, i: nat)
    requires Alternating(f, blank) && f != [] && i < |f[0]|
    ensures IsSpace(f[0][i]) == blank
  {
  }

  /** There is only one way to cut a line like that. */
  lemma {:induction false} MaximalRunsUnique(x: string, f: seq<string>)
    requires f != [] && Concat(f) == x && x != "" && Alternating(f, IsSpace(x[0]))
    ensures f == Runs(x)
  {
    var n := |f[0]|;
    assert x == f[0] + Concat(f[1..]);
    assert x[..n] == f[0] && x[n..] == Concat(f[1..]);
    forall j | 0 <= j < n ensures IsSpace(x[j]) == IsSpace(x[0]) {
      AlternatingHead(f, IsSpace(x[0]), j);
      assert x[j] == f[0][j];
    }
    assert x[0..] == x;
    if |f| == 1 {
      assert x == f[0];
      RunsLast(x, 0);
    } else {
      assert Concat(f[1..]) == f[1] + Concat(f[1..][1..]);
      assert x[n] == f[1][0];
      AlternatingHead(f[1..], !IsSpace(x[0]), 0);
      RunsSplit(x, 0, n);
      MaximalRunsUnique(x[n..], f[1..]);
    }
  }

  // ------------------------------------------------- the wrapping loop

  type Measure = string -> real

  /** Words are the pieces at even places, gaps those at odd places; a missing last gap is empty. */
  function Fields(line: string): (f: seq<string>)
    ensures |f| == 2 * (|f| / 2) && |f| >= 2
  {
    var r := Runs(line);
    RunsNonEmpty(line);
    if |r| % 2 == 1 then r + [""] else r
  }

  lemma RunsNonEmpty(x: string)
    ensures Runs(x) != []
  {
  }

  function Words(f: seq<string>): nat {
    |f| / 2
  }

  /** The loop over the fields from word k on; `x` is the line under construction, `out` what is done. */
  function Fold(m: Measure, width: real, f: seq<string>, k: nat, x: string, out: seq<string>): seq<string>
    requires k <= Words(f)
    decreases Words(f) - k
  {
    if k == Words(f) then if x != "" then out + [x] else out
    else if m(x + f[2 * k]) > width then
      if x == "" then Fold(m, width, f, k + 1, "", out + [f[2 * k]])
      else Fold(m, width, f, k + 1, f[2 * k] + f[2 * k + 1], out + [x])
    else Fold(m, width, f, k + 1, x + f[2 * k] + f[2 * k + 1], out)
  }

  function TrimAll(r: seq<string>): (t: seq<string>)
    ensures |t| == |r| && forall i :: 0 <= i < |r| ==> t[i] == Trim(r[i])
  {
    if r == [] then [] else [Trim(r[0])] + TrimAll(r[1..])
  }

  /** The lines of a text, wrapped one after the other onto `out`. */
  function FoldLines(m: Measure, width: real, lines: seq<string>, out: seq<string>): seq<string> {
    if lines == [] then out
    else FoldLines(m, width, lines[1..], Fold(m, width, Fields(lines[0]), 0, "", out))
  }

  method WrapLine(m: Measure, width: real, line: string, result: seq<string>) returns (r: seq<string>)
    ensures r == Fold(m, width, Fields(line), 0, "", result)
  {
    r := result;
    var fields := SplitOnSpace(line);
    if |fields| % 2 == 1 {
      fields := fields + [""];
    }
    assert fields == Fields(line);
    r := WrapFields(m, width, fields, result);
  }

  method WrapFields(m: Measure, width: real, fields: seq<string>, result: seq<string>) returns (r: seq<string>)
    requires |fields| == 2 * Words(fields)
    ensures r == Fold(m, width, fields, 0, "", result)
  {
    r := result;
    var x := "";
    var i := 0;
    ghost var k := 0;
    while i < |fields|
      invariant i == 2 * k && k <= Words(fields)
      invariant Fold(m, width, fields, k, x, r) == Fold(m, width, fields, 0, "", result)
    {
      k := k + 1;
      var w := m(x + fields[i]);
      if w > width {
        if x == "" {
          r := r + [fields[i]];
          i := i + 2;
          continue;
        } else {
          r := r + [x];
          x := "";
          assert "" + fields[i] + fields[i + 1] == fields[i] + fields[i + 1];
        }
      }
      x := x + fields[i] + fields[i + 1];
      i := i + 2;
    }
    if x != "" {
      r := r + [x];
    }
  }

  method Wrap(m: Measure, s: string, width: real) returns (result: seq<string>)
    ensures result == TrimAll(FoldLines(m, width, Lines(s), []))
  {
    result := [];
    var lines := Lines(s);
    for k := 0 to |lines|
      invariant FoldLines(m, width, lines[k..], result) == FoldLines(m, width, lines, [])
    {
      assert lines[k..][1..] == lines[k + 1..];
      result := WrapLine(m, width, lines[k], result);
    }
    result := TrimEach(result);
  }

  method TrimEach(lines: seq<string>) returns (result: seq<string>)
    ensures result == TrimAll(lines)
  {
    result := lines;
    for i := 0 to |result|
      invariant |result| == |lines|
      invariant forall j :: 0 <= j < i ==> result[j] == Trim(lines[j])
      invariant forall j :: i <= j < |lines| ==> result[j] == lines[j]
    {
      result := result[i := Trim(result[i])];
    }
  }
}
