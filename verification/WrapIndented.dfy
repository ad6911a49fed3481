/**
  What wordWrap makes of a line beginning with white space: its items are a gap with the word behind
  it, and a stretch of items is measured without its last word. Items whose gap does not fit the width
  come to nothing as long as no other has come; the rest is wrapped greedily, in as few lines as such
  stretches can be.
*/
module WrapIndented {
  import opened Cuts
  import opened Text
  import opened WordWrap
  import opened WrapLaws
  import opened WrapWidth

  /** The lines that a cutting of the items stands for. */
  function ItemLines(f: seq<string>, a: nat, ends: seq<nat>): seq<string>
    decreases |ends|
  {
    if ends == [] then []
    else if a < ends[0] <= Words(f) then [Trim(Open(f, a, ends[0]))] + ItemLines(f, ends[0], ends[1..])
    else []
  }

  lemma OpenSome(f: seq<string>, a: nat, k: nat)
    requires GapsAndWords(f) && a < k <= Words(f)
    ensures Open(f, a, k) != ""
  {
    assert f[2 * (k - 1)] != "";
  }

  /** A line finished at k, then the rest. */
  lemma LineAt(f: seq<string>, a: nat, k: nat, rest: seq<nat>, out: seq<string>)
    requires a < k <= Words(f)
    ensures TrimAll(out + [Open(f, a, k)]) + ItemLines(f, k, rest) == TrimAll(out) + ItemLines(f, a, [k] + rest)
  {
    hide Trim, Open;
    TrimAllSnoc(out, Open(f, a, k), ItemLines(f, k, rest));
    assert ([k] + rest)[1..] == rest;
  }

  ghost predicate WrapsItems(m: Measure, width: real, f: seq<string>, a: nat, k: nat, out: seq<string>)
    requires a <= k <= Words(f)
  {
    TrimAll(Fold(m, width, f, k, Open(f, a, k), out))
    == TrimAll(out) + ItemLines(f, a, Remaining(Width(m, f), width, Words(f), a, k))
  }

  lemma ItemsEnd(m: Measure, width: real, f: seq<string>, a: nat, out: seq<string>)
    requires GapsAndWords(f) && a <= Words(f)
    ensures WrapsItems(m, width, f, a, Words(f), out)
  {
    var n := Words(f);
    if a < n {
      OpenSome(f, a, n);
      hide Open, Trim;
      LineAt(f, a, n, [], out);
      assert Remaining(Width(m, f), width, n, a, n) == [n] + [];
      assert TrimAll(out + [Open(f, a, n)]) + [] == TrimAll(out + [Open(f, a, n)]);
    } else {
      assert TrimAll(out) + [] == TrimAll(out);
    }
  }

  lemma WidthOf(m: Measure, f: seq<string>, a: nat, k: nat)
    requires a <= k < Words(f)
    ensures Width(m, f)(a, k + 1) == m(Open(f, a, k) + f[2 * k])
  {
    OpenStep(f, a, k);
  }

  /** One round of the loop. */
  lemma ItemRound(m: Measure, width: real, f: seq<string>, a: nat, k: nat, out: seq<string>)
    requires GapsAndWords(f) && a <= k < Words(f) && (a == k ==> m(f[2 * k]) <= width)
    ensures
      Fold(m, width, f, k, Open(f, a, k), out) ==
      if Width(m, f)(a, k + 1) <= width then Fold(m, width, f, k + 1, Open(f, a, k + 1), out)
      else Fold(m, width, f, k + 1, Open(f, k, k + 1), out + [Open(f, a, k)])
    ensures a == k ==> Width(m, f)(a, k + 1) <= width
  {
    WidthOf(m, f, a, k);
    OpenStep(f, a, k);
    OpenStep(f, k, k);
    if a < k {
      OpenSome(f, a, k);
    }
    assert "" + f[2 * k] + f[2 * k + 1] == f[2 * k] + f[2 * k + 1];
    hide Open, Width, GapsAndWords;
    FoldIsRounds(m, width, f, k, Open(f, a, k), out);
    hide Fold;
  }

  lemma {:induction false} ItemJoins(m: Measure, width: real, f: seq<string>, a: nat, k: nat, out: seq<string>)
    requires GapsAndWords(f) && a <= k < Words(f) && Width(m, f)(a, k + 1) <= width
    requires a == k ==> m(f[2 * k]) <= width
    ensures WrapsItems(m, width, f, a, k, out)
    decreases Words(f) - k, 0
  {
    hide Open, Width, GapsAndWords, Fold, ItemLines, TrimAll, Remaining;
    ItemsAreGreedy(m, width, f, a, k + 1, out);
    OneMore(Width(m, f), width, Words(f), a, k);
    ItemRound(m, width, f, a, k, out);
  }

  lemma {:induction false} ItemBreaks(m: Measure, width: real, f: seq<string>, a: nat, k: nat, out: seq<string>)
    requires GapsAndWords(f) && a < k < Words(f) && Width(m, f)(a, k + 1) > width
    ensures WrapsItems(m, width, f, a, k, out)
    decreases Words(f) - k, 0
  {
    hide Open, Width, GapsAndWords, Fold, ItemLines, TrimAll, Remaining;
    ItemsAreGreedy(m, width, f, k, k + 1, out + [Open(f, a, k)]);
    Full(Width(m, f), width, Words(f), a, k);
    ItemRound(m, width, f, a, k, out);
    LineAt(f, a, k, Remaining(Width(m, f), width, Words(f), k, k + 1), out);
  }

  /** From any point of the loop at which a line is under construction, what it adds is greedy. */
  lemma {:induction false} ItemsAreGreedy(m: Measure, width: real, f: seq<string>, a: nat, k: nat, out: seq<string>)
    requires GapsAndWords(f) && a <= k <= Words(f)
    requires a == k < Words(f) ==> m(f[2 * k]) <= width
    ensures WrapsItems(m, width, f, a, k, out)
    decreases Words(f) - k, 1
  {
    hide WrapsItems, GapsAndWords;
    if k == Words(f) {
      ItemsEnd(m, width, f, a, out);
    } else {
      ItemRound(m, width, f, a, k, out);
      if Width(m, f)(a, k + 1) <= width {
        ItemJoins(m, width, f, a, k, out);
      } else {
        ItemBreaks(m, width, f, a, k, out);
      }
    }
  }

  /** The first item from k on whose gap fits the width. */
  function FirstFit(m: Measure, width: real, f: seq<string>, k: nat): (r: nat)
    requires k <= Words(f)
    ensures k <= r <= Words(f)
    ensures r < Words(f) ==> m(f[2 * r]) <= width
    ensures forall j :: k <= j < r ==> m(f[2 * j]) > width
    decreases Words(f) - k
  {
    if k == Words(f) || m(f[2 * k]) <= width then k else FirstFit(m, width, f, k + 1)
  }

  function Empties(n: nat): seq<string> {
    seq(n, _ => "")
  }

  lemma {:induction false} TooWideFirst(m: Measure, width: real, f: seq<string>, k: nat, out: seq<string>)
    requires GapsAndWords(f) && k <= Words(f)
    ensures
      var r := FirstFit(m, width, f, k);
      TrimAll(Fold(m, width, f, k, "", out))
      == TrimAll(out) + Empties(r - k) + ItemLines(f, r, Greedy(Width(m, f), width, Words(f), r))
    decreases Words(f) - k
  {
    hide Fold, Greedy, Width, ItemLines, TrimAll, GapsAndWords, FirstFit, Empties;
    var r := FirstFit(m, width, f, k);
    if k == r {
      FirstItem(m, width, f, k, out);
    } else {
      FitsLater(m, width, f, k);
      DropItem(m, width, f, k, out);
      TooWideFirst(m, width, f, k + 1, out + [f[2 * k]]);
      OneMoreEmpty(TrimAll(out), r - k - 1, ItemLines(f, r, Greedy(Width(m, f), width, Words(f), r)));
    }
  }

  lemma OneMoreEmpty(lines: seq<string>, n: nat, rest: seq<string>)
    ensures lines + [""] + Empties(n) + rest == lines + Empties(n + 1) + rest
  {
    assert lines + [""] + Empties(n) == lines + Empties(n + 1);
  }

  lemma FitsLater(m: Measure, width: real, f: seq<string>, k: nat)
    requires k <= Words(f) && FirstFit(m, width, f, k) != k
    ensures k < Words(f) && m(f[2 * k]) > width && FirstFit(m, width, f, k) == FirstFit(m, width, f, k + 1)
  {
  }

  lemma FirstItem(m: Measure, width: real, f: seq<string>, k: nat, out: seq<string>)
    requires GapsAndWords(f) && k <= Words(f) && (k < Words(f) ==> m(f[2 * k]) <= width)
    ensures TrimAll(Fold(m, width, f, k, "", out))
         == TrimAll(out) + Empties(0) + ItemLines(f, k, Greedy(Width(m, f), width, Words(f), k))
  {
    assert Open(f, k, k) == "";
    hide Open, Fold, Greedy, ItemLines, TrimAll;
    ItemsAreGreedy(m, width, f, k, k, out);
    assert TrimAll(out) + Empties(0) == TrimAll(out);
  }

  /** An item that comes first and whose gap is too wide leaves an empty line. */
  lemma DropItem(m: Measure, width: real, f: seq<string>, k: nat, out: seq<string>)
    requires GapsAndWords(f) && k < Words(f) && m(f[2 * k]) > width
    ensures Fold(m, width, f, k, "", out) == Fold(m, width, f, k + 1, "", out + [f[2 * k]])
    ensures TrimAll(out + [f[2 * k]]) == TrimAll(out) + [""]
  {
    var a := f[2 * k];
    assert "" + a == a;
    BlankTrims(a);
    hide Trim, GapsAndWords;
    FoldIsRounds(m, width, f, k, "", out);
    TrimAllSnoc(out, a, []);
    hide Fold;
    assert TrimAll(out + [a]) + [] == TrimAll(out + [a]) && [""] + [] == [""];
  }

  lemma BlankTrims(a: string)
    requires Blank(a)
    ensures Trim(a) == ""
  {
    TrimLeftBlank(a);
  }

  /**
    A line that begins with white space becomes an empty line for each leading item whose gap is too
    wide, and then the other items, in order, in stretches that fit but for their last word; and no other
    such stretches are fewer.
  */
  lemma IndentedIsOptimal(m: Measure, width: real, line: string) returns (dropped: nat, ends: seq<nat>)
    requires Monotone(m) && line != "" && IsSpace(line[0])
    ensures
      var f := Fields(line);
      && Concat(f) == line && dropped == FirstFit(m, width, f, 0)
      && Cutting(Width(m, f), width, Words(f), dropped, ends)
      && WrapOf(m, width, line) == Empties(dropped) + ItemLines(f, dropped, ends)
      && forall other :: Cutting(Width(m, f), width, Words(f), dropped, other) ==> |ends| <= |other|
  {
    var f := Fields(line);
    var cost, n := Width(m, f), Words(f);
    GapsFirst(line);
    TailIsLine(line);
    TailIsConcat(f, 0);
    assert f[0..] == f;
    dropped := FirstFit(m, width, f, 0);
    WidthGrows(m, f);
    ends := Greedy(cost, width, n, dropped);
    GreedyCuts(cost, width, n, dropped);
    TooWideFirst(m, width, f, 0, []);
    hide Fold, ItemLines, GapsAndWords, Width, Monotone;
    assert [] + Empties(dropped) == Empties(dropped);
    forall other | Cutting(cost, width, n, dropped, other) ensures |ends| <= |other| {
      GreedyStaysAhead(cost, width, n, dropped, other, dropped);
    }
  }
}
