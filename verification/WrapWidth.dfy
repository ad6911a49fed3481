/**
  How wide the lines become that wordWrap makes of a line beginning with white space. There the loop
  measures each gap and appends the word behind it without measuring.
*/
module WrapWidth {
  import Cuts
  import opened Text
  import opened WordWrap
  import opened WrapLaws
  import opened WrapLoss

  /** A line is as it should be: one word, or no wider than the width. */
  predicate Fits(m: Measure, width: real, t: string) {
    Solid(t) || m(t) <= width
  }

  ghost predicate AllFit(m: Measure, width: real, lines: seq<string>) {
    forall i :: 0 <= i < |lines| ==> Fits(m, width, lines[i])
  }

  /** Gaps at even places, words at odd places; only the last word may be missing. */
  ghost predicate GapsAndWords(f: seq<string>) {
    && |f| == 2 * Words(f)
    && forall k :: 0 <= k < Words(f) ==>
         && f[2 * k] != "" && Blank(f[2 * k]) && Solid(f[2 * k + 1])
         && (f[2 * k + 1] == "" ==> k == Words(f) - 1)
  }

  /**
    The measurement the loop leaves out: each word that joins a line under construction fits there,
    from field k on, with x under construction.
  */
  predicate JoinsFit(m: Measure, width: real, f: seq<string>, k: nat, x: string)
    requires k <= Words(f)
    decreases Words(f) - k
  {
    if k == Words(f) then true
    else
      var a, b := f[2 * k], f[2 * k + 1];
      if m(x + a) > width then JoinsFit(m, width, f, k + 1, if x == "" then "" else a + b)
      else (x != "" ==> m(Trim(x + a + b)) <= width) && JoinsFit(m, width, f, k + 1, x + a + b)
  }

  // ------------------------------------------------- trimming a line under construction

  /** Ends with a word. */
  predicate EndsInWord(x: string) {
    x != "" && !IsSpace(x[|x| - 1])
  }

  lemma {:induction false} TrimLeftJoin(x: string, z: string)
    requires TrimLeft(x) != ""
    ensures TrimLeft(x + z) == TrimLeft(x) + z
  {
    if IsSpace(x[0]) {
      assert (x + z)[1..] == x[1..] + z;
      TrimLeftJoin(x[1..], z);
    }
  }

  lemma {:induction false} TrimLeftKeepsEnd(x: string)
    requires EndsInWord(x)
    ensures EndsInWord(TrimLeft(x)) && Trim(x) == TrimLeft(x)
  {
    if IsSpace(x[0]) {
      TrimLeftKeepsEnd(x[1..]);
    }
  }

  lemma TrimJoined(x: string, a: string, b: string)
    requires EndsInWord(x) && Blank(a) && Solid(b) && b != ""
    ensures EndsInWord(x + a + b) && Trim(x + a + b) == Trim(x) + a + b
  {
    TrimLeftKeepsEnd(x);
    assert x + a + b == x + (a + b);
    TrimLeftJoin(x, a + b);
    TrimLeftKeepsEnd(x + a + b);
    assert Trim(x) + (a + b) == Trim(x) + a + b;
  }

  lemma TrimTrailing(x: string, a: string)
    requires EndsInWord(x) && Blank(a)
    ensures Trim(x + a) == Trim(x)
  {
    TrimLeftKeepsEnd(x);
    TrimLeftJoin(x, a);
    TrimRightBlank(TrimLeft(x), a);
  }

  lemma TrimPair(a: string, b: string)
    requires Blank(a) && Solid(b)
    ensures Trim(a + b) == b && (b != "" ==> EndsInWord(a + b))
  {
    if b != "" {
      TrimGaps(a, b, "");
      assert a + b + "" == a + b;
    } else {
      assert a + b == a;
      TrimLeftBlank(a);
    }
  }

  lemma {:induction false} TrimLeftPart(x: string)
    ensures |TrimLeft(x)| <= |x| && TrimLeft(x) == x[|x| - |TrimLeft(x)|..]
  {
    if x != "" && IsSpace(x[0]) {
      TrimLeftPart(x[1..]);
    }
  }

  /** What ends in a word measures no less than it does trimmed. */
  lemma TrimNarrows(m: Measure, x: string, a: string)
    requires Monotone(m) && EndsInWord(x)
    ensures m(Trim(x)) <= m(x + a)
  {
    TrimLeftKeepsEnd(x);
    TrimLeftPart(x);
    var n := |x| - |Trim(x)|;
    assert x + a == x[..n] + Trim(x) + a;
    MonotonePart(m, x[..n], Trim(x), a);
  }

  // ------------------------------------------------- the lines that come out

  /** The lines the loop makes from field k on. */
  function Coming(m: Measure, width: real, f: seq<string>, k: nat, x: string): seq<string>
    requires k <= Words(f)
  {
    TrimAll(Fold(m, width, f, k, x, []))
  }

  lemma ComingRound(m: Measure, width: real, f: seq<string>, k: nat, x: string)
    requires k < Words(f)
    ensures
      var a, b := f[2 * k], f[2 * k + 1];
      Coming(m, width, f, k, x) ==
        if m(x + a) <= width then Coming(m, width, f, k + 1, x + a + b)
        else if x == "" then [Trim(a)] + Coming(m, width, f, k + 1, "")
        else [Trim(x)] + Coming(m, width, f, k + 1, a + b)
  {
    var a, b := f[2 * k], f[2 * k + 1];
    if m(x + a) > width {
      var y, x' := if x == "" then a else x, if x == "" then "" else a + b;
      assert [] + [y] == [y];
      FoldAppends(m, width, f, k + 1, x', [y]);
      TrimAllAppend([y], Fold(m, width, f, k + 1, x', []));
      assert TrimAll([y]) == [Trim(y)];
    }
  }

  lemma ComingEnd(m: Measure, width: real, f: seq<string>, x: string)
    ensures Coming(m, width, f, Words(f), x) == if x != "" then [Trim(x)] else []
  {
  }

  lemma FitsFirst(m: Measure, width: real, t: string, rest: seq<string>)
    ensures AllFit(m, width, [t] + rest) <==> Fits(m, width, t) && AllFit(m, width, rest)
  {
    var lines := [t] + rest;
    assert forall i :: 0 <= i < |rest| ==> lines[i + 1] == rest[i];
    if AllFit(m, width, lines) {
      assert Fits(m, width, lines[0]);
    }
  }

  /** A line that is too wide and has two words stays so: what follows only lengthens it. */
  lemma {:induction false} StaysWide(m: Measure, width: real, f: seq<string>, k: nat, x: string)
    requires Monotone(m) && GapsAndWords(f) && k <= Words(f)
    requires EndsInWord(x) && !Fits(m, width, Trim(x))
    ensures !AllFit(m, width, Coming(m, width, f, k, x))
    decreases Words(f) - k
  {
    hide Coming, Fits, AllFit, Trim, Monotone;
    if k == Words(f) {
      ComingEnd(m, width, f, x);
      FitsFirst(m, width, Trim(x), []);
      assert [Trim(x)] + [] == [Trim(x)];
    } else {
      var a, b := f[2 * k], f[2 * k + 1];
      ComingRound(m, width, f, k, x);
      if m(x + a) > width {
        FitsFirst(m, width, Trim(x), Coming(m, width, f, k + 1, a + b));
      } else {
        TooWideToJoin(m, width, x, a);
      }
    }
  }

  lemma TooWideToJoin(m: Measure, width: real, x: string, a: string)
    requires Monotone(m) && EndsInWord(x) && !Fits(m, width, Trim(x))
    ensures m(x + a) > width
  {
    TrimNarrows(m, x, a);
  }

  /** The line under construction is empty, or ends in a word and is as it should be. */
  ghost predicate Sound(m: Measure, width: real, x: string) {
    x != "" ==> EndsInWord(x) && Fits(m, width, Trim(x))
  }

  lemma {:induction false} BreakCase(m: Measure, width: real, f: seq<string>, k: nat, x: string)
    requires Monotone(m) && GapsAndWords(f) && k < Words(f) && Sound(m, width, x) && m(x + f[2 * k]) > width
    ensures AllFit(m, width, Coming(m, width, f, k, x)) <==> JoinsFit(m, width, f, k, x)
    decreases Words(f) - k, 0
  {
    hide Coming, AllFit, Monotone, Trim;
    var a, b := f[2 * k], f[2 * k + 1];
    ComingRound(m, width, f, k, x);
    BlankFits(m, width, a);
    if x == "" {
      FitsFirst(m, width, Trim(a), Coming(m, width, f, k + 1, ""));
      FitsExactly(m, width, f, k + 1, "");
    } else {
      FitsFirst(m, width, Trim(x), Coming(m, width, f, k + 1, a + b));
      PairCase(m, width, f, k);
    }
  }

  lemma BlankFits(m: Measure, width: real, a: string)
    requires Blank(a)
    ensures Fits(m, width, Trim(a))
  {
    TrimLeftBlank(a);
  }

  /** A line that begins with gap and word k. */
  lemma {:induction false} PairCase(m: Measure, width: real, f: seq<string>, k: nat)
    requires Monotone(m) && GapsAndWords(f) && k < Words(f)
    ensures
      var x := f[2 * k] + f[2 * k + 1];
      AllFit(m, width, Coming(m, width, f, k + 1, x)) <==> JoinsFit(m, width, f, k + 1, x)
    decreases Words(f) - k - 1, 2
  {
    var a, b := f[2 * k], f[2 * k + 1];
    TrimPair(a, b);
    hide Coming, Monotone, Trim;
    if b == "" {
      ComingEnd(m, width, f, a + b);
    } else {
      FitsExactly(m, width, f, k + 1, a + b);
    }
  }

  lemma {:induction false} JoinCase(m: Measure, width: real, f: seq<string>, k: nat, x: string)
    requires Monotone(m) && GapsAndWords(f) && k < Words(f) && Sound(m, width, x) && x != ""
    requires m(x + f[2 * k]) <= width
    ensures AllFit(m, width, Coming(m, width, f, k, x)) <==> JoinsFit(m, width, f, k, x)
    decreases Words(f) - k, 0
  {
    var a, b := f[2 * k], f[2 * k + 1];
    ComingRound(m, width, f, k, x);
    TrimNarrows(m, x, a);
    hide Coming, Monotone;
    if b == "" {
      assert x + a + b == x + a;
      TrimTrailing(x, a);
      ComingEnd(m, width, f, x + a);
    } else {
      TrimJoined(x, a, b);
      hide Trim;
      if m(Trim(x + a + b)) <= width {
        FitsExactly(m, width, f, k + 1, x + a + b);
      } else {
        assert IsSpace((Trim(x) + a + b)[|Trim(x)|]);
        StaysWide(m, width, f, k + 1, x + a + b);
      }
    }
  }

  lemma {:induction false} FitsExactly(m: Measure, width: real, f: seq<string>, k: nat, x: string)
    requires Monotone(m) && GapsAndWords(f) && k <= Words(f) && Sound(m, width, x)
    ensures AllFit(m, width, Coming(m, width, f, k, x)) <==> JoinsFit(m, width, f, k, x)
    decreases Words(f) - k, 1
  {
    hide Coming, Monotone, Trim;
    if k == Words(f) {
      ComingEnd(m, width, f, x);
    } else if m(x + f[2 * k]) > width {
      BreakCase(m, width, f, k, x);
    } else if x == "" {
      ComingRound(m, width, f, k, x);
      assert "" + f[2 * k] + f[2 * k + 1] == f[2 * k] + f[2 * k + 1];
      PairCase(m, width, f, k);
    } else {
      JoinCase(m, width, f, k, x);
    }
  }

  lemma GapsFirst(line: string)
    requires line != "" && IsSpace(line[0])
    ensures GapsAndWords(Fields(line))
  {
    var r, f := Runs(line), Fields(line);
    RunsAreMaximal(line);
    forall k | 0 <= k < Words(f)
      ensures f[2 * k] != "" && Blank(f[2 * k]) && Solid(f[2 * k + 1])
      ensures f[2 * k + 1] == "" ==> k == Words(f) - 1
    {
      AlternatingPair(r, true, k);
    }
  }

  /**
    For a line that begins with white space: each output line is one word or no wider than the width,
    if and only if each word that the loop appends to a line under construction fits there.
  */
  lemma IndentedWidthExactly(m: Measure, width: real, line: string)
    requires Monotone(m) && line != "" && IsSpace(line[0])
    ensures AllFit(m, width, WrapOf(m, width, line)) <==> JoinsFit(m, width, Fields(line), 0, "")
  {
    GapsFirst(line);
    FitsExactly(m, width, Fields(line), 0, "");
  }

  /** A line that begins with a word needs no such condition. */
  lemma WordFirstFits(m: Measure, width: real, line: string)
    requires Monotone(m) && line != "" && !IsSpace(line[0])
    ensures AllFit(m, width, WrapOf(m, width, line))
  {
    var ends := WrapIsOptimal(m, width, line);
    TextsFit(m, width, Fields(line), 0, ends);
  }

  lemma {:induction false} TextsFit(m: Measure, width: real, f: seq<string>, a: nat, ends: seq<nat>)
    requires WordsAndGaps(f) && Cuts.Cutting(Width(m, f), width, Words(f), a, ends)
    ensures AllFit(m, width, Texts(f, a, ends))
    decreases |ends|
  {
    if ends != [] {
      TextsFit(m, width, f, ends[0], ends[1..]);
      FitsFirst(m, width, Stretch(f, a, ends[0]), Texts(f, ends[0], ends[1..]));
      if ends[0] == a + 1 {
        assert Stretch(f, a, a + 1) == f[2 * a];
      }
    }
  }

  // ------------------------------------------------- lines that fit, and one that does not

  lemma {:induction false} TrimRightPart(s: string)
    ensures TrimRight(s) <= s
  {
    if s != "" && IsSpace(s[|s| - 1]) {
      TrimRightPart(s[..|s| - 1]);
    }
  }

  lemma TrimIsPart(m: Measure, s: string)
    requires Monotone(m)
    ensures m(Trim(s)) <= m(s)
  {
    hide TrimLeft, TrimRight, Monotone;
    TrimLeftPart(s);
    TrimRightPart(TrimLeft(s));
    var left, t := TrimLeft(s), Trim(s);
    var n := |s| - |left|;
    assert s == s[..n] + left && left == t + left[|t|..];
    assert s == s[..n] + t + left[|t|..];
    MonotonePart(m, s[..n], t, left[|t|..]);
  }

  lemma FrontNarrower(m: Measure, x: string, rest: string)
    requires Monotone(m)
    ensures m(x) <= m(x + rest)
  {
    MonotonePart(m, "", x, rest);
    assert "" + x + rest == x + rest;
  }

  /** The fields from k on, as they stand in the line. */
  function Tail(f: seq<string>, k: nat): string
    requires k <= Words(f)
    decreases Words(f) - k
  {
    if k == Words(f) then "" else f[2 * k] + f[2 * k + 1] + Tail(f, k + 1)
  }

  lemma {:induction false} TailIsConcat(f: seq<string>, k: nat)
    requires |f| == 2 * Words(f) && k <= Words(f)
    ensures Tail(f, k) == Concat(f[2 * k..])
    decreases Words(f) - k
  {
    if k < Words(f) {
      var g := f[2 * k..];
      assert g[1..][1..] == f[2 * (k + 1)..];
      TailIsConcat(f, k + 1);
      assert g[0] + (g[1] + Tail(f, k + 1)) == g[0] + g[1] + Tail(f, k + 1);
    }
  }

  lemma TailIsLine(line: string)
    ensures Tail(Fields(line), 0) == line
  {
    RunsConcat(line);
    hide Runs, Concat, Tail;
    ConcatAppend(Runs(line), [""]);
    ConcatOne("");
    TailIsConcat(Fields(line), 0);
    assert Fields(line)[2 * 0..] == Fields(line) && line + "" == line;
  }

  lemma {:induction false} NeverBreaks(m: Measure, width: real, f: seq<string>, k: nat, x: string)
    requires Monotone(m) && k <= Words(f) && m(x + Tail(f, k)) <= width
    ensures JoinsFit(m, width, f, k, x)
    decreases Words(f) - k
  {
    hide Monotone, Trim;
    if k < Words(f) {
      var a, b, rest := f[2 * k], f[2 * k + 1], Tail(f, k + 1);
      assert x + (a + b + rest) == x + a + (b + rest) && x + (a + b + rest) == x + a + b + rest;
      FrontNarrower(m, x + a, b + rest);
      FrontNarrower(m, x + a + b, rest);
      TrimIsPart(m, x + a + b);
      NeverBreaks(m, width, f, k + 1, x + a + b);
    }
  }

  /** A line that is no wider than the width comes out in lines that are one word or fit, however it starts. */
  lemma NarrowLineFits(m: Measure, width: real, line: string)
    requires Monotone(m) && line != "" && m(line) <= width
    ensures AllFit(m, width, WrapOf(m, width, line))
  {
    if IsSpace(line[0]) {
      TailIsLine(line);
      assert "" + line == line;
      NeverBreaks(m, width, Fields(line), 0, "");
      IndentedWidthExactly(m, width, line);
    } else {
      WordFirstFits(m, width, line);
    }
  }

  lemma {:induction false} NarrowFold(m: Measure, width: real, f: seq<string>, k: nat, x: string, out: seq<string>)
    requires Monotone(m) && k <= Words(f) && m(x + Tail(f, k)) <= width
    ensures Fold(m, width, f, k, x, out) == if x + Tail(f, k) != "" then out + [x + Tail(f, k)] else out
    decreases Words(f) - k
  {
    hide Monotone;
    if k < Words(f) {
      var a, b, rest := f[2 * k], f[2 * k + 1], Tail(f, k + 1);
      assert x + (a + b + rest) == x + a + (b + rest) && x + (a + b + rest) == x + a + b + rest;
      FrontNarrower(m, x + a, b + rest);
      NarrowFold(m, width, f, k + 1, x + a + b, out);
    } else {
      assert x + Tail(f, k) == x;
    }
  }

  /** Such a line is not broken at all: it comes out trimmed and whole, whatever it starts with. */
  lemma NarrowLineWhole(m: Measure, width: real, line: string)
    requires Monotone(m) && line != "" && m(line) <= width
    ensures WrapOf(m, width, line) == [Trim(line)]
  {
    TailIsLine(line);
    assert "" + line == line;
    NarrowFold(m, width, Fields(line), 0, "", []);
    assert [line][1..] == [] && [] + [line] == [line];
  }

  lemma OnePiece(x: string, blank: bool, f: seq<string>)
    requires x != "" && (if blank then Blank(x) else Solid(x)) && Alternating(f, !blank)
    ensures Alternating([x] + f, blank) && Concat([x] + f) == x + Concat(f)
  {
    assert ([x] + f)[1..] == f;
  }

  lemma NoPieces()
    ensures Alternating([], true) && Concat([]) == ""
  {
  }

  lemma FourPieces(g: string, a: string, h: string, b: string)
    requires g != "" && Blank(g) && a != "" && Solid(a) && h != "" && Blank(h) && b != "" && Solid(b)
    ensures Alternating([g, a, h, b], true) && Concat([g, a, h, b]) == g + (a + (h + b))
  {
    hide Alternating, Concat, Blank, Solid, IsSpace;
    NoPieces();
    OnePiece(b, false, []);
    OnePiece(h, true, [b] + []);
    OnePiece(a, false, [h] + ([b] + []));
    OnePiece(g, true, [a] + ([h] + ([b] + [])));
    assert [g] + ([a] + ([h] + ([b] + []))) == [g, a, h, b];
    assert b + "" == b;
  }

  /** Gap, word, gap and word are the fields of the line they make. */
  lemma FourFields(g: string, a: string, h: string, b: string)
    requires g != "" && Blank(g) && a != "" && Solid(a) && h != "" && Blank(h) && b != "" && Solid(b)
    ensures Fields(g + (a + (h + b))) == [g, a, h, b]
  {
    hide Alternating, Concat, Runs, Solid;
    FourPieces(g, a, h, b);
    var f, line := [g, a, h, b], g + (a + (h + b));
    assert line[0] == g[0];
    MaximalRunsUnique(line, f);
  }

  lemma FourJoins(m: Measure, width: real, f: seq<string>)
    requires |f| == 4 && f[0] != "" && m(f[0]) <= width && m(f[0] + f[1] + f[2]) <= width
    requires m(Trim(f[0] + f[1] + f[2] + f[3])) > width
    ensures !JoinsFit(m, width, f, 0, "")
  {
    hide Trim;
    assert "" + f[0] == f[0] && "" + f[0] + f[1] == f[0] + f[1];
    assert !JoinsFit(m, width, f, 1, f[0] + f[1]);
  }

  /** Two indented words that do not fit together come out on one line if the gaps before them do fit. */
  lemma UnmeasuredWord(m: Measure, width: real, g: string, a: string, h: string, b: string)
    requires Monotone(m)
    requires g != "" && Blank(g) && a != "" && Solid(a) && h != "" && Blank(h) && b != "" && Solid(b)
    requires m(g) <= width && m(g + a + h) <= width < m(a + h + b)
    ensures !AllFit(m, width, WrapOf(m, width, g + a + h + b))
  {
    var line := g + a + h + b;
    assert line == g + (a + (h + b)) && line[0] == g[0];
    FourFields(g, a, h, b);
    TrimGaps(g, a + h + b, "");
    assert g + (a + h + b) + "" == line;
    hide Trim, Fields, Monotone;
    FourJoins(m, width, [g, a, h, b]);
    IndentedWidthExactly(m, width, line);
  }

  /** Counting characters, " a bbb" at width 3 is such a line. */
  lemma TooWideExample()
    ensures
      var length: Measure := (s: string) => |s| as real;
      Monotone(length) && !AllFit(length, 3.0, WrapOf(length, 3.0, " " + "a" + " " + "bbb"))
  {
    UnmeasuredWord((s: string) => |s| as real, 3.0, " ", "a", " ", "bbb");
  }
}
