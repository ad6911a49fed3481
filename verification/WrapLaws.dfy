/** The greedy wrapping is correct, and no other wrapping of a line uses fewer lines. */
module WrapLaws {
  import opened Text
  import opened WordWrap
  import opened Cuts

  /** No part of a string measures more than the whole. */
  ghost predicate Monotone(m: Measure) {
    forall s: string, i: nat, j: nat {:trigger m(s[i..j])} :: i <= j <= |s| ==> m(s[i..j]) <= m(s)
  }

  /** Words at even places, gaps at odd places, no word empty. */
  ghost predicate WordsAndGaps(f: seq<string>) {
    && |f| == 2 * Words(f)
    && (forall k :: 0 <= k < Words(f) ==> f[2 * k] != "" && Solid(f[2 * k]) && Blank(f[2 * k + 1]))
  }

  lemma {:induction false} AlternatingPair(f: seq<string>, blank: bool, k: nat)
    requires Alternating(f, blank) && 2 * k < |f|
    ensures f[2 * k] != "" && if blank then Blank(f[2 * k]) else Solid(f[2 * k])
    ensures 2 * k + 1 < |f| ==> f[2 * k + 1] != "" && if blank then Solid(f[2 * k + 1]) else Blank(f[2 * k + 1])
  {
    if k > 0 {
      assert f[1..] != [] && Alternating(f[1..], !blank);
      var g := f[1..][1..];
      assert Alternating(g, blank);
      assert g[2 * (k - 1)] == f[2 * k];
      assert 2 * k + 1 < |f| ==> g[2 * (k - 1) + 1] == f[2 * k + 1];
      AlternatingPair(g, blank, k - 1);
    } else {
      assert |f| > 1 ==> f[1] == f[1..][0];
    }
  }

  /** A line that does not begin with white space splits into words and gaps, word first. */
  lemma FieldsOfLine(line: string)
    requires line != "" && !IsSpace(line[0])
    ensures WordsAndGaps(Fields(line)) && Concat(Fields(line)) == line
  {
    var r, f := Runs(line), Fields(line);
    RunsAreMaximal(line);
    forall k | 0 <= k < Words(f) ensures f[2 * k] != "" && Solid(f[2 * k]) && Blank(f[2 * k + 1]) {
      AlternatingPair(r, false, k);
    }
    ConcatAppend(r, [""]);
    ConcatOne("");
  }

  lemma ConcatOne(s: string)
    ensures Concat([s]) == s
  {
    assert [s][1..] == [];
  }

  /** Words a up to b as they stand in the line, each with the gap that follows. */
  function Open(f: seq<string>, a: nat, b: nat): string
    requires b <= Words(f)
  {
    if a >= b then "" else Open(f, a, b - 1) + f[2 * (b - 1)] + f[2 * (b - 1) + 1]
  }

  /** The same without the last gap. */
  function Stretch(f: seq<string>, a: nat, b: nat): string
    requires a < b <= Words(f)
  {
    Open(f, a, b - 1) + f[2 * (b - 1)]
  }

  /** A stretch begins and ends with a word. */
  lemma {:induction false} StretchEnds(f: seq<string>, a: nat, b: nat)
    requires WordsAndGaps(f) && a < b <= Words(f)
    ensures Stretch(f, a, b) != "" && !IsSpace(Stretch(f, a, b)[0]) && !IsSpace(Stretch(f, a, b)[|Stretch(f, a, b)| - 1])
  {
    var w := f[2 * (b - 1)];
    assert w != "" && Solid(w);
    if a + 1 < b {
      StretchEnds(f, a, b - 1);
      assert Open(f, a, b - 1) == Stretch(f, a, b - 1) + f[2 * (b - 2) + 1];
    }
  }

  lemma TrimTail(t: string, g: string)
    requires t != "" && !IsSpace(t[0]) && !IsSpace(t[|t| - 1]) && Blank(g)
    ensures Trim(t + g) == t
  {
    TrimGaps("", t, g);
    assert "" + t + g == t + g;
  }

  /** So trimming takes off exactly the gap behind it. */
  lemma TrimOpen(f: seq<string>, a: nat, b: nat)
    requires WordsAndGaps(f) && a < b <= Words(f)
    ensures Trim(Open(f, a, b)) == Stretch(f, a, b) && Open(f, a, b) != ""
  {
    StretchEnds(f, a, b);
    TrimTail(Stretch(f, a, b), f[2 * (b - 1) + 1]);
  }

  lemma TrimStretch(f: seq<string>, a: nat, b: nat)
    requires WordsAndGaps(f) && a < b <= Words(f)
    ensures Trim(Stretch(f, a, b)) == Stretch(f, a, b)
  {
    StretchEnds(f, a, b);
    TrimTail(Stretch(f, a, b), "");
    assert Stretch(f, a, b) + "" == Stretch(f, a, b);
  }

  lemma {:induction false} OpenJoins(f: seq<string>, a: nat, b: nat, c: nat)
    requires a <= b <= c <= Words(f)
    ensures Open(f, a, c) == Open(f, a, b) + Open(f, b, c)
  {
    if b < c {
      OpenJoins(f, a, b, c - 1);
    }
  }

  lemma MiddlePart(p: string, t: string, q: string)
    ensures (p + t + q)[|p|..|p| + |t|] == t
  {
  }

  /** A stretch within a stretch is a part of its text. */
  lemma StretchPart(f: seq<string>, a: nat, b: nat, a': nat, b': nat) returns (p: string, q: string)
    requires a <= a' < b' <= b <= Words(f)
    ensures Stretch(f, a, b) == p + Stretch(f, a', b') + q
  {
    p := Open(f, a, a');
    OpenJoins(f, a, a', b' - 1);
    if b' < b {
      OpenJoins(f, a, b', b - 1);
      q := f[2 * (b' - 1) + 1] + Open(f, b', b - 1) + f[2 * (b - 1)];
      JoinParts(p, Open(f, a', b' - 1), f[2 * (b' - 1)], f[2 * (b' - 1) + 1], Open(f, b', b - 1), f[2 * (b - 1)]);
    } else {
      q := "";
    }
  }

  lemma JoinParts(p: string, o: string, w: string, g: string, r: string, v: string)
    ensures (p + o) + w + g + r + v == p + (o + w) + (g + r + v)
  {
  }

  /** The width of words a up to b. */
  function Width(m: Measure, f: seq<string>): Cost {
    (a: nat, b: nat) => if a < b <= Words(f) then m(Stretch(f, a, b)) else 0.0
  }

  lemma MonotonePart(m: Measure, p: string, t: string, q: string)
    requires Monotone(m)
    ensures m(t) <= m(p + t + q)
  {
    MiddlePart(p, t, q);
    var s := p + t + q;
    assert m(s[|p|..|p| + |t|]) <= m(s);
  }

  lemma WidthGrows(m: Measure, f: seq<string>)
    requires Monotone(m)
    ensures Growing(Width(m, f), Words(f))
  {
    forall a: nat, b: nat, a': nat, b': nat | a <= a' < b' <= b <= Words(f)
      ensures Width(m, f)(a', b') <= Width(m, f)(a, b)
    {
      var p, q := StretchPart(f, a, b, a', b');
      MonotonePart(m, p, Stretch(f, a', b'), q);
    }
  }

  /** The lines that a cutting of the words stands for. */
  function Texts(f: seq<string>, a: nat, ends: seq<nat>): seq<string>
    decreases |ends|
  {
    if ends == [] then []
    else if a < ends[0] <= Words(f) then [Stretch(f, a, ends[0])] + Texts(f, ends[0], ends[1..])
    else []
  }

  // ------------------------------------------------- the loop is greedy

  lemma TrimAllSnoc(out: seq<string>, x: string, rest: seq<string>)
    ensures TrimAll(out + [x]) + rest == TrimAll(out) + ([Trim(x)] + rest)
  {
    var l, r := TrimAll(out + [x]) + rest, TrimAll(out) + ([Trim(x)] + rest);
    assert |l| == |r|;
    assert forall i :: 0 <= i < |out| ==> (out + [x])[i] == out[i];
    assert forall i :: 0 <= i < |l| ==> l[i] == r[i];
  }

  /** One round of the loop: the line under construction and the finished lines after fields a and b. */
  function Round(m: Measure, width: real, a: string, b: string, x: string, out: seq<string>): (string, seq<string>) {
    if m(x + a) > width then if x == "" then ("", out + [a]) else (a + b, out + [x])
    else (x + a + b, out)
  }

  lemma FoldIsRounds(m: Measure, width: real, f: seq<string>, k: nat, x: string, out: seq<string>)
    requires k < Words(f)
    ensures
      var (x', out') := Round(m, width, f[2 * k], f[2 * k + 1], x, out);
      Fold(m, width, f, k, x, out) == Fold(m, width, f, k + 1, x', out')
  {
  }

  lemma OpenStep(f: seq<string>, a: nat, k: nat)
    requires a <= k < Words(f)
    ensures Open(f, a, k + 1) == Open(f, a, k) + f[2 * k] + f[2 * k + 1]
    ensures Stretch(f, a, k + 1) == Open(f, a, k) + f[2 * k]
    ensures a == k ==> Open(f, a, k) == "" && "" + f[2 * k] == f[2 * k]
  {
  }

  /** One round of the loop, with the line under construction written as words a up to k. */
  lemma FoldRound(m: Measure, width: real, f: seq<string>, a: nat, k: nat, out: seq<string>)
    requires WordsAndGaps(f) && a <= k < Words(f)
    ensures
      var wide := Width(m, f)(a, k + 1) > width;
      Fold(m, width, f, k, Open(f, a, k), out) ==
      if !wide then Fold(m, width, f, k + 1, Open(f, a, k + 1), out)
      else if a == k then Fold(m, width, f, k + 1, "", out + [Stretch(f, k, k + 1)])
      else Fold(m, width, f, k + 1, Open(f, k, k + 1), out + [Open(f, a, k)])
  {
    var x, w, g := Open(f, a, k), f[2 * k], f[2 * k + 1];
    if a < k {
      TrimOpen(f, a, k);
    }
    OpenStep(f, a, k);
    OpenStep(f, k, k);
    assert Width(m, f)(a, k + 1) == m(x + w);
    hide Open, Stretch, WordsAndGaps, Trim, Width;
    FoldIsRounds(m, width, f, k, x, out);
    hide Fold;
  }

  /** A line finished at k, then the rest. */
  lemma BreakAfter(f: seq<string>, a: nat, k: nat, rest: seq<nat>, out: seq<string>, x: string)
    requires a < k <= Words(f) && Trim(x) == Stretch(f, a, k)
    ensures TrimAll(out + [x]) + Texts(f, k, rest) == TrimAll(out) + Texts(f, a, [k] + rest)
  {
    TrimAllSnoc(out, x, Texts(f, k, rest));
    assert ([k] + rest)[1..] == rest;
  }

  /** What the loop will have made of the fields when it is at word k. */
  ghost predicate Wraps(m: Measure, width: real, f: seq<string>, a: nat, k: nat, out: seq<string>)
    requires a <= k <= Words(f)
  {
    TrimAll(Fold(m, width, f, k, Open(f, a, k), out))
    == TrimAll(out) + Texts(f, a, Remaining(Width(m, f), width, Words(f), a, k))
  }

  lemma FoldEnds(m: Measure, width: real, f: seq<string>, a: nat, out: seq<string>)
    requires WordsAndGaps(f) && a <= Words(f)
    ensures Wraps(m, width, f, a, Words(f), out)
  {
    var n := Words(f);
    if a < n {
      TrimOpen(f, a, n);
      BreakAfter(f, a, n, [], out, Open(f, a, n));
      assert Remaining(Width(m, f), width, n, a, n) == [n] + [];
      assert TrimAll(out + [Open(f, a, n)]) + [] == TrimAll(out + [Open(f, a, n)]);
    }
  }

  lemma {:induction false} FitsCase(m: Measure, width: real, f: seq<string>, a: nat, k: nat, out: seq<string>)
    requires Monotone(m) && WordsAndGaps(f) && a <= k < Words(f) && Width(m, f)(a, k + 1) <= width
    ensures Wraps(m, width, f, a, k, out)
    decreases Words(f) - k, 0
  {
    FoldIsGreedy(m, width, f, a, k + 1, out);
    FoldRound(m, width, f, a, k, out);
    OneMore(Width(m, f), width, Words(f), a, k);
  }

  lemma {:induction false} AloneCase(m: Measure, width: real, f: seq<string>, k: nat, out: seq<string>)
    requires Monotone(m) && WordsAndGaps(f) && k < Words(f) && Width(m, f)(k, k + 1) > width
    ensures Wraps(m, width, f, k, k, out)
    decreases Words(f) - k, 0
  {
    var w := Stretch(f, k, k + 1);
    FoldIsGreedy(m, width, f, k + 1, k + 1, out + [w]);
    FoldRound(m, width, f, k, k, out);
    WidthGrows(m, f);
    Alone(Width(m, f), width, Words(f), k);
    TrimStretch(f, k, k + 1);
    BreakAfter(f, k, k + 1, Greedy(Width(m, f), width, Words(f), k + 1), out, w);
  }

  lemma FullStep(m: Measure, width: real, f: seq<string>, a: nat, k: nat, out: seq<string>)
    requires WordsAndGaps(f) && a < k < Words(f) && Width(m, f)(a, k + 1) > width
    requires Wraps(m, width, f, k, k + 1, out + [Open(f, a, k)])
    ensures Wraps(m, width, f, a, k, out)
  {
    hide Remaining, Fold;
    FoldRound(m, width, f, a, k, out);
    Full(Width(m, f), width, Words(f), a, k);
    TrimOpen(f, a, k);
    BreakAfter(f, a, k, Remaining(Width(m, f), width, Words(f), k, k + 1), out, Open(f, a, k));
  }

  lemma {:induction false} FullCase(m: Measure, width: real, f: seq<string>, a: nat, k: nat, out: seq<string>)
    requires Monotone(m) && WordsAndGaps(f) && a < k < Words(f) && Width(m, f)(a, k + 1) > width
    ensures Wraps(m, width, f, a, k, out)
    decreases Words(f) - k, 0
  {
    hide Wraps, Monotone, WordsAndGaps;
    FoldIsGreedy(m, width, f, k, k + 1, out + [Open(f, a, k)]);
    FullStep(m, width, f, a, k, out);
  }

  /** From any point of the loop on, what it adds is the greedy wrapping of the words to come. */
  lemma {:induction false} FoldIsGreedy(m: Measure, width: real, f: seq<string>, a: nat, k: nat, out: seq<string>)
    requires Monotone(m) && WordsAndGaps(f) && a <= k <= Words(f)
    ensures Wraps(m, width, f, a, k, out)
    decreases Words(f) - k, 1
  {
    if k == Words(f) {
      FoldEnds(m, width, f, a, out);
    } else if Width(m, f)(a, k + 1) <= width {
      FitsCase(m, width, f, a, k, out);
    } else if a == k {
      AloneCase(m, width, f, k, out);
    } else {
      FullCase(m, width, f, a, k, out);
    }
  }

  /** What wordWrap makes of one line. */
  function WrapOf(m: Measure, width: real, line: string): seq<string> {
    TrimAll(Fold(m, width, Fields(line), 0, "", []))
  }

  /**
    A line that does not begin with white space is wrapped correctly and with as few lines as
    possible: its words appear in order, each once, every line is a single word or fits the width,
    and no other such wrapping has fewer lines.
  */
  lemma WrapIsOptimal(m: Measure, width: real, line: string) returns (ends: seq<nat>)
    requires Monotone(m) && line != "" && !IsSpace(line[0])
    ensures
      var f := Fields(line);
      && WordsAndGaps(f) && Concat(f) == line
      && Cutting(Width(m, f), width, Words(f), 0, ends)
      && WrapOf(m, width, line) == Texts(f, 0, ends)
      && |WrapOf(m, width, line)| == |ends|
      && forall other :: Cutting(Width(m, f), width, Words(f), 0, other) ==> |ends| <= |other|
  {
    var f := Fields(line);
    var cost := Width(m, f);
    FieldsOfLine(line);
    WidthGrows(m, f);
    ends := Greedy(cost, width, Words(f), 0);
    GreedyCuts(cost, width, Words(f), 0);
    FoldIsGreedy(m, width, f, 0, 0, []);
    TextsLength(m, width, f, 0, ends);
    forall other | Cutting(cost, width, Words(f), 0, other) ensures |ends| <= |other| {
      GreedyStaysAhead(cost, width, Words(f), 0, other, 0);
    }
  }

  lemma {:induction false} TextsLength(m: Measure, width: real, f: seq<string>, a: nat, ends: seq<nat>)
    requires Cutting(Width(m, f), width, Words(f), a, ends)
    ensures |Texts(f, a, ends)| == |ends|
    decreases |ends|
  {
    if ends != [] {
      TextsLength(m, width, f, ends[0], ends[1..]);
    }
  }

  // ------------------------------------------------- whole texts, empty lines

  lemma {:induction false} FoldAppends(m: Measure, width: real, f: seq<string>, k: nat, x: string, out: seq<string>)
    requires k <= Words(f)
    ensures Fold(m, width, f, k, x, out) == out + Fold(m, width, f, k, x, [])
    decreases Words(f) - k
  {
    if k < Words(f) {
      if m(x + f[2 * k]) > width {
        if x == "" {
          FoldAppends(m, width, f, k + 1, "", out + [f[2 * k]]);
          FoldAppends(m, width, f, k + 1, "", [] + [f[2 * k]]);
        } else {
          FoldAppends(m, width, f, k + 1, f[2 * k] + f[2 * k + 1], out + [x]);
          FoldAppends(m, width, f, k + 1, f[2 * k] + f[2 * k + 1], [] + [x]);
        }
      } else {
        FoldAppends(m, width, f, k + 1, x + f[2 * k] + f[2 * k + 1], out);
      }
    }
  }

  function WrapEach(m: Measure, width: real, lines: seq<string>): seq<string> {
    if lines == [] then [] else WrapOf(m, width, lines[0]) + WrapEach(m, width, lines[1..])
  }

  lemma {:induction false} TrimAllAppend(a: seq<string>, b: seq<string>)
    ensures TrimAll(a + b) == TrimAll(a) + TrimAll(b)
  {
    var l, r := TrimAll(a + b), TrimAll(a) + TrimAll(b);
    assert forall i :: 0 <= i < |l| ==> l[i] == r[i];
  }

  /** A text is wrapped line by line: no line of it changes how another is wrapped. */
  lemma {:induction false} LinesIndependent(m: Measure, width: real, lines: seq<string>, out: seq<string>)
    ensures TrimAll(FoldLines(m, width, lines, out)) == TrimAll(out) + WrapEach(m, width, lines)
  {
    if lines != [] {
      var f := Fields(lines[0]);
      var next := Fold(m, width, f, 0, "", out);
      LinesIndependent(m, width, lines[1..], next);
      FoldAppends(m, width, f, 0, "", out);
      TrimAllAppend(out, Fold(m, width, f, 0, "", []));
    }
  }

  /** An empty line disappears, unless even nothing is too wide. */
  lemma EmptyLine(m: Measure, width: real)
    ensures WrapOf(m, width, "") == if m("") > width then [""] else []
  {
    var f := Fields("");
    assert f == ["", ""];
    assert "" + f[0] == "" && "" + f[0] + f[1] == "";
  }
}
