/** Which texts keep all their characters when they are wrapped. */
module WrapLoss {
  import opened Text
  import opened WordWrap
  import opened WrapLaws

  /** A text without its white space. */
  function Squeeze(s: string): string {
    if s == "" then "" else Squeeze(s[..|s| - 1]) + if IsSpace(s[|s| - 1]) then "" else [s[|s| - 1]]
  }

  lemma {:induction false} SqueezeJoin(s: string, t: string)
    ensures Squeeze(s + t) == Squeeze(s) + Squeeze(t)
  {
    if t == "" {
      assert s + t == s;
    } else {
      assert (s + t)[..|s + t| - 1] == s + t[..|t| - 1];
      SqueezeJoin(s, t[..|t| - 1]);
    }
  }

  lemma {:induction false} SqueezeBlank(s: string)
    ensures Squeeze(s) == "" <==> Blank(s)
  {
    if s != "" {
      SqueezeBlank(s[..|s| - 1]);
    }
  }

  lemma {:induction false} SqueezeTrimLeft(s: string)
    ensures Squeeze(TrimLeft(s)) == Squeeze(s)
  {
    if s != "" && IsSpace(s[0]) {
      SqueezeTrimLeft(s[1..]);
      SqueezeJoin([s[0]], s[1..]);
      assert s == [s[0]] + s[1..];
    }
  }

  lemma {:induction false} SqueezeTrimRight(s: string)
    ensures Squeeze(TrimRight(s)) == Squeeze(s)
  {
    if s != "" && IsSpace(s[|s| - 1]) {
      SqueezeTrimRight(s[..|s| - 1]);
    }
  }

  lemma {:induction false} SqueezeTrimAll(r: seq<string>)
    ensures Squeeze(Concat(TrimAll(r))) == Squeeze(Concat(r))
  {
    if r != [] {
      SqueezeTrimAll(r[1..]);
      assert TrimAll(r)[1..] == TrimAll(r[1..]);
      SqueezeJoin(r[0], Concat(r[1..]));
      SqueezeJoin(Trim(r[0]), Concat(TrimAll(r[1..])));
      SqueezeTrimLeft(r[0]);
      SqueezeTrimRight(TrimLeft(r[0]));
    }
  }

  /** The characters that fields k and on hold. */
  function Rest(f: seq<string>, k: nat): string
    requires k <= Words(f)
    decreases Words(f) - k
  {
    if k == Words(f) then "" else Squeeze(f[2 * k]) + Squeeze(f[2 * k + 1]) + Rest(f, k + 1)
  }

  function Inked(out: seq<string>): string {
    Squeeze(Concat(out))
  }

  lemma InkedSnoc(out: seq<string>, x: string)
    ensures Inked(out + [x]) == Inked(out) + Squeeze(x)
  {
    ConcatAppend(out, [x]);
    ConcatOne(x);
    SqueezeJoin(Concat(out), x);
  }

  lemma PairJoin(x: string, a: string, b: string)
    ensures Squeeze(x + a + b) == Squeeze(x) + Squeeze(a) + Squeeze(b)
    ensures Squeeze(a + b) == Squeeze(a) + Squeeze(b)
  {
    SqueezeJoin(x + a, b);
    SqueezeJoin(x, a);
    SqueezeJoin(a, b);
  }

  /** The second fields are gaps, or the line under construction is not empty and will not become so. */
  ghost predicate Harmless(f: seq<string>, k: nat, x: string) {
    || (forall j :: k <= j < Words(f) ==> Blank(f[2 * j + 1]))
    || (x != "" && forall j :: k <= j < Words(f) ==> f[2 * j] != "")
  }

  lemma RoundKeeps(m: Measure, width: real, a: string, b: string, x: string, out: seq<string>)
    ensures
      var (x', out') := Round(m, width, a, b, x, out);
      var before, after := Inked(out) + Squeeze(x) + (Squeeze(a) + Squeeze(b)), Inked(out') + Squeeze(x');
      && |after| <= |before|
      && (Blank(b) || x != "" ==> after == before)
  {
    PairJoin(x, a, b);
    InkedSnoc(out, a);
    InkedSnoc(out, x);
    SqueezeBlank(b);
    SqueezeBlank("");
    Associate(Inked(out), Squeeze(x), Squeeze(a), Squeeze(b));
    NothingBetween(Inked(out), Squeeze(a), Squeeze(b));
    assert Squeeze("") == "";
    hide Squeeze, Inked, Blank;
  }

  lemma NothingBetween(p: string, r: string, t: string)
    ensures p + "" + (r + t) == p + r + t && p + r + "" == p + r
  {
  }

  lemma Associate(p: string, q: string, r: string, t: string)
    ensures p + (q + r + t) == p + q + (r + t)
  {
  }

  lemma Tally(p: string, q: string, r: string)
    ensures p + q + r == p + (q + r)
  {
  }

  lemma {:induction false} FoldKeeps(m: Measure, width: real, f: seq<string>, k: nat, x: string, out: seq<string>)
    requires k <= Words(f) && Harmless(f, k, x)
    ensures Inked(Fold(m, width, f, k, x, out)) == Inked(out) + Squeeze(x) + Rest(f, k)
    decreases Words(f) - k
  {
    hide Squeeze, Inked;
    if k == Words(f) {
      SqueezeBlank("");
      InkedSnoc(out, x);
    } else {
      hide Fold;
      var a, b := f[2 * k], f[2 * k + 1];
      var (x', out') := Round(m, width, a, b, x, out);
      FoldIsRounds(m, width, f, k, x, out);
      RoundKeeps(m, width, a, b, x, out);
      Tally(Inked(out) + Squeeze(x), Squeeze(a) + Squeeze(b), Rest(f, k + 1));
      FoldKeeps(m, width, f, k + 1, x', out');
    }
  }

  lemma {:induction false} FoldAddsNothing(m: Measure, width: real, f: seq<string>, k: nat, x: string, out: seq<string>)
    requires k <= Words(f)
    ensures |Inked(Fold(m, width, f, k, x, out))| <= |Inked(out) + Squeeze(x) + Rest(f, k)|
    decreases Words(f) - k
  {
    hide Squeeze, Inked;
    if k == Words(f) {
      SqueezeBlank("");
      InkedSnoc(out, x);
    } else {
      hide Fold;
      var a, b := f[2 * k], f[2 * k + 1];
      var (x', out') := Round(m, width, a, b, x, out);
      FoldIsRounds(m, width, f, k, x, out);
      RoundKeeps(m, width, a, b, x, out);
      FoldAddsNothing(m, width, f, k + 1, x', out');
    }
  }

  lemma {:induction false} RestOf(f: seq<string>, k: nat)
    requires |f| == 2 * Words(f) && k <= Words(f)
    ensures Rest(f, k) == Squeeze(Concat(f[2 * k..]))
    decreases Words(f) - k
  {
    SqueezeBlank("");
    hide Squeeze;
    if k < Words(f) {
      var g := f[2 * k..];
      assert g[1..][1..] == f[2 * (k + 1)..];
      RestOf(f, k + 1);
      Tally(Squeeze(g[0]), Squeeze(g[1]), Rest(f, k + 1));
      SqueezeJoin(g[0], Concat(g[1..]));
      SqueezeJoin(g[1], Concat(g[1..][1..]));
    }
  }

  lemma RunsConcat(line: string)
    ensures Concat(Runs(line)) == line
  {
    if line == "" {
      ConcatOne("");
    } else {
      RunsAreMaximal(line);
    }
  }

  /** The fields of a line hold all its characters. */
  lemma RestOfLine(line: string)
    ensures Rest(Fields(line), 0) == Squeeze(line)
  {
    RunsConcat(line);
    hide Runs, Concat, Squeeze, Rest;
    ConcatAppend(Runs(line), [""]);
    ConcatOne("");
    RestOf(Fields(line), 0);
    assert Fields(line)[2 * 0..] == Fields(line) && line + "" == line;
  }

  /** The lines whose words wordWrap keeps: leading white space must not be too wide. */
  predicate Kept(m: Measure, width: real, line: string) {
    line == "" || !IsSpace(line[0]) || Blank(line) || m(line[..RunLength(line)]) <= width
  }

  lemma KeptWhenHarmless(m: Measure, width: real, line: string)
    requires Harmless(Fields(line), 0, "")
    ensures Inked(WrapOf(m, width, line)) == Squeeze(line)
  {
    var f := Fields(line);
    FoldKeeps(m, width, f, 0, "", []);
    RestOfLine(line);
    SqueezeTrimAll(Fold(m, width, f, 0, "", []));
  }

  lemma WordFirst(m: Measure, width: real, line: string)
    requires line == "" || !IsSpace(line[0]) || Blank(line)
    ensures Harmless(Fields(line), 0, "")
  {
    var f := Fields(line);
    if line != "" && IsSpace(line[0]) {
      assert forall i :: 0 <= i < |line| ==> IsSpace(line[i]);
      RunsAreMaximal(line);
      assert RunLength(line) == |line|;
      assert f == [line, ""];
    } else if line != "" {
      FieldsOfLine(line);
    }
  }

  /** A line that begins with white space and has words: first a gap, then a word, and so on. */
  lemma GapFirst(line: string)
    requires line != "" && IsSpace(line[0]) && !Blank(line)
    ensures
      var f := Fields(line);
      && f[0] == line[..RunLength(line)] && Blank(f[0]) && f[1] != "" && Solid(f[1])
      && forall j :: 0 <= j < Words(f) ==> f[2 * j] != ""
  {
    var r, f, n := Runs(line), Fields(line), RunLength(line);
    RunsAreMaximal(line);
    assert n < |line|;
    assert |r| >= 2 by {
      assert r == [line[..n]] + Runs(line[n..]);
      RunsNonEmpty(line[n..]);
    }
    forall j | 0 <= j < Words(f)
      ensures f[2 * j] != ""
    {
      AlternatingPair(r, true, j);
    }
    AlternatingPair(r, true, 0);
  }

  lemma IndentedFold(m: Measure, width: real, f: seq<string>)
    requires Words(f) > 0 && Blank(f[0]) && f[1] != "" && Solid(f[1])
    requires forall j :: 0 <= j < Words(f) ==> f[2 * j] != ""
    ensures
      var kept := Inked(Fold(m, width, f, 0, "", []));
      |kept| <= |Rest(f, 0)| && (kept == Rest(f, 0) <==> m(f[0]) <= width)
  {
    hide Fold, Squeeze, Inked;
    var a, b := f[0], f[1];
    assert "" + a == a && a + b == "" + a + b && [] + [a] == [a];
    FoldIsRounds(m, width, f, 0, "", []);
    NothingInked();
    SqueezeBlank(a);
    SqueezeBlank(b);
    assert !IsSpace(b[0]);
    assert Rest(f, 0) == Squeeze(a) + Squeeze(b) + Rest(f, 1);
    if m(a) <= width {
      FoldKeeps(m, width, f, 1, a + b, []);
      SqueezeJoin(a, b);
    } else {
      InkedSnoc([], a);
      FoldAddsNothing(m, width, f, 1, "", [a]);
    }
  }

  lemma NothingInked()
    ensures Inked([]) == "" && Squeeze("") == ""
  {
  }

  lemma IndentedLine(m: Measure, width: real, line: string)
    requires line != "" && IsSpace(line[0]) && !Blank(line)
    ensures |Inked(WrapOf(m, width, line))| <= |Squeeze(line)|
    ensures Inked(WrapOf(m, width, line)) == Squeeze(line) <==> m(line[..RunLength(line)]) <= width
  {
    var f := Fields(line);
    GapFirst(line);
    RestOfLine(line);
    SqueezeTrimAll(Fold(m, width, f, 0, "", []));
    IndentedFold(m, width, f);
  }

  /**
    Wrapping a line keeps its characters, white space aside, in order, if and only if the line does
    not begin with white space that is too wide for a line and followed by a word.
  */
  lemma LineKeptExactly(m: Measure, width: real, line: string)
    ensures |Inked(WrapOf(m, width, line))| <= |Squeeze(line)|
    ensures Inked(WrapOf(m, width, line)) == Squeeze(line) <==> Kept(m, width, line)
  {
    if line != "" && IsSpace(line[0]) && !Blank(line) {
      IndentedLine(m, width, line);
    } else {
      WordFirst(m, width, line);
      KeptWhenHarmless(m, width, line);
    }
  }

  lemma {:induction false} InkedJoin(a: seq<string>, b: seq<string>)
    ensures Inked(a + b) == Inked(a) + Inked(b)
  {
    ConcatAppend(a, b);
    SqueezeJoin(Concat(a), Concat(b));
  }

  lemma SameLength(p: string, q: string, r: string, t: string)
    requires |p| <= |r| && |q| <= |t|
    ensures |p + q| <= |r + t| && (p + q == r + t <==> p == r && q == t)
  {
    if p + q == r + t {
      assert p == (p + q)[..|p|] && q == (p + q)[|p|..];
      assert r == (r + t)[..|r|] && t == (r + t)[|r|..];
    }
  }

  /** So a text loses nothing exactly when none of its lines does. */
  lemma {:induction false} TextKeptExactly(m: Measure, width: real, lines: seq<string>)
    ensures |Inked(WrapEach(m, width, lines))| <= |Inked(lines)|
    ensures Inked(WrapEach(m, width, lines)) == Inked(lines) <==>
              forall i :: 0 <= i < |lines| ==> Kept(m, width, lines[i])
  {
    if lines != [] {
      hide Squeeze, Kept, WrapOf;
      var line, rest := lines[0], lines[1..];
      LineKeptExactly(m, width, line);
      TextKeptExactly(m, width, rest);
      InkedJoin(WrapOf(m, width, line), WrapEach(m, width, rest));
      SqueezeJoin(line, Concat(rest));
      SameLength(Inked(WrapOf(m, width, line)), Inked(WrapEach(m, width, rest)), Squeeze(line), Inked(rest));
      assert (forall i :: 0 <= i < |lines| ==> Kept(m, width, lines[i])) <==>
             Kept(m, width, line) && forall i :: 0 <= i < |rest| ==> Kept(m, width, rest[i]) by {
        assert forall i :: 0 <= i < |rest| ==> rest[i] == lines[i + 1];
        assert forall i :: 1 <= i < |lines| ==> lines[i] == rest[i - 1];
      }
    }
  }

  lemma FirstLine(head: string, rest: seq<string>)
    requires rest != []
    ensures Inked([head + rest[0]] + rest[1..]) == Squeeze(head) + Inked(rest)
  {
    assert rest == [rest[0]] + rest[1..];
    InkedJoin([rest[0]], rest[1..]);
    InkedJoin([head + rest[0]], rest[1..]);
    ConcatOne(rest[0]);
    ConcatOne(head + rest[0]);
    SqueezeJoin(head, rest[0]);
    Tally(Squeeze(head), Squeeze(rest[0]), Inked(rest[1..]));
    hide Inked, Squeeze, Concat;
  }

  lemma EmptyFirstLine(rest: seq<string>)
    ensures Inked([""] + rest) == Inked(rest)
  {
    InkedJoin([""], rest);
    ConcatOne("");
    SqueezeBlank("");
    assert "" + Inked(rest) == Inked(rest);
  }

  /** A line feed is white space, so a text has the characters of its lines. */
  lemma {:induction false} LinesInked(s: string)
    ensures Inked(Lines(s)) == Squeeze(s)
  {
    if s == "" {
      ConcatOne("");
    } else {
      hide Squeeze, Inked;
      var rest, head := Lines(s[1..]), [s[0]];
      LinesInked(s[1..]);
      SqueezeJoin(head, s[1..]);
      assert s == head + s[1..];
      if s[0] == '\n' {
        SqueezeBlank(head);
        EmptyFirstLine(rest);
        assert "" + Squeeze(s[1..]) == Squeeze(s[1..]);
      } else {
        FirstLine(head, rest);
      }
    }
  }

  /** What wordWrap makes of a text. */
  function WrapText(m: Measure, width: real, s: string): seq<string> {
    TrimAll(FoldLines(m, width, Lines(s), []))
  }

  /** Wrapping a text keeps its characters, white space aside, in order, exactly when it does so for each of its lines. */
  lemma WrapKeepsExactly(m: Measure, width: real, s: string)
    ensures Inked(WrapText(m, width, s)) == Squeeze(s) <==>
              forall i :: 0 <= i < |Lines(s)| ==> Kept(m, width, Lines(s)[i])
  {
    LinesIndependent(m, width, Lines(s), []);
    assert TrimAll([]) + WrapEach(m, width, Lines(s)) == WrapEach(m, width, Lines(s));
    TextKeptExactly(m, width, Lines(s));
    LinesInked(s);
  }
}
