/**
  Splitting a path into dashes. A point of the path is given by its distance along the path from
  the first vertex, so `pos` holds the distances of the vertices; lengths are real numbers.
*/
module DashPath {
  // ------------------------------------------------- where in the pattern a path starts

  function Prefix(dashes: seq<real>, i: nat): real
    requires i <= |dashes|
  {
    if i == 0 then 0.0 else Prefix(dashes, i - 1) + dashes[i - 1]
  }

  function Total(dashes: seq<real>): real {
    Prefix(dashes, |dashes|)
  }

  ghost predicate NonNegative(dashes: seq<real>) {
    forall i :: 0 <= i < |dashes| ==> dashes[i] >= 0.0
  }

  ghost predicate Positive(dashes: seq<real>, j: nat) {
    j < |dashes| && dashes[j] > 0.0
  }

  lemma {:induction false} PrefixGrows(dashes: seq<real>, i: nat, j: nat)
    requires NonNegative(dashes) && i <= j <= |dashes|
    ensures 0.0 <= Prefix(dashes, i) <= Prefix(dashes, j)
    ensures i < j && Positive(dashes, i) ==> Prefix(dashes, i) < Prefix(dashes, j)
  {
    if i < j {
      PrefixGrows(dashes, i, j - 1);
      if i == j - 1 {
        PrefixGrows(dashes, 0, i);
      }
    } else if i > 0 {
      PrefixGrows(dashes, i - 1, i - 1);
    }
  }

  function Truncate(x: real): int {
    if x >= 0.0 then x.Floor else -((-x).Floor)
  }

  /** Go's math.Mod: the remainder has the sign of x. */
  function Mod(x: real, y: real): real
    requires y > 0.0
  {
    x - y * (Truncate(x / y) as real)
  }

  lemma Scale(m: real, a: real, b: real)
    requires m > 0.0 && a < b
    ensures m * a < m * b
  {
    var c := b - a;
    assert m * c > 0.0;
    assert b == a + c;
    Distribute(m, a, c);
  }

  lemma Distribute(m: real, a: real, c: real)
    ensures m * (a + c) == m * a + m * c
  {
  }

  lemma Unscale(m: real, a: real, b: real)
    requires m > 0.0 && m * a <= m * b
    ensures a <= b
  {
    if b < a {
      Scale(m, b, a);
    }
  }

  lemma Quotient(x: real, y: real)
    requires y > 0.0
    ensures y * (x / y) == x
  {
  }

  lemma FloorBounds(q: real)
    ensures q.Floor as real <= q < q.Floor as real + 1.0
  {
  }

  lemma Below(x: real, y: real, q: real, n: real)
    requires y > 0.0 && y * q == x && n <= q
    ensures y * n <= x
  {
    if n < q {
      Scale(y, n, q);
    }
  }

  lemma Above(x: real, y: real, q: real, n: real)
    requires y > 0.0 && y * q == x && q < n + 1.0
    ensures x < y * n + y
  {
    var r := n + 1.0;
    Scale(y, q, r);
    Distribute(y, n, 1.0);
    assert y * r == y * n + y * 1.0;
  }

  lemma QuotientParts(x: real, y: real)
    requires y > 0.0
    ensures 0.0 <= x - y * ((x / y).Floor as real) < y
  {
    Quotient(x, y);
    FloorBounds(x / y);
    Below(x, y, x / y, (x / y).Floor as real);
    Above(x, y, x / y, (x / y).Floor as real);
  }

  /** The offset reduced into one period of the pattern. */
  function Reduced(offset: real, total: real): real
    requires total > 0.0
  {
    var r := Mod(offset, total);
    if r < 0.0 then r + total else r
  }

  lemma NegatedQuotient(x: real, y: real)
    requires y > 0.0
    ensures (-x) / y == -(x / y)
  {
    assert (-x) / y * y == -x;
    assert -(x / y) * y == -x;
  }

  /** Reducing an offset shifts it by a whole number of periods. */
  lemma ReducedInPeriod(offset: real, total: real) returns (periods: int)
    requires total > 0.0
    ensures 0.0 <= Reduced(offset, total) < total
    ensures offset == Reduced(offset, total) + total * (periods as real)
  {
    periods := Truncate(offset / total);
    if offset >= 0.0 {
      QuotientParts(offset, total);
      assert offset / total >= 0.0;
    } else {
      QuotientParts(-offset, total);
      NegatedQuotient(offset, total);
      assert offset / total < 0.0;
      var n := (-(offset / total)).Floor;
      assert Mod(offset, total) == offset + total * (n as real);
      if Mod(offset, total) < 0.0 {
        periods := periods - 1;
        assert total * (periods as real) == -total * (n as real) - total;
      }
    }
  }

  /** The dash a path starts in and how much of it is used up. */
  method StartPhase(dashes: seq<real>, offset: real) returns (dashIndex: nat, segmentLength: real, offset': real)
    requires dashes != [] && NonNegative(dashes)
    requires offset != 0.0 ==> Total(dashes) > 0.0
    ensures dashIndex < |dashes| && 0.0 <= segmentLength <= dashes[dashIndex]
    ensures if offset == 0.0 then dashIndex == 0 else segmentLength < dashes[dashIndex]
    ensures Prefix(dashes, dashIndex) + segmentLength == (if offset == 0.0 then 0.0 else Reduced(offset, Total(dashes)))
    ensures offset' == if offset == 0.0 then 0.0 else segmentLength - dashes[dashIndex]
  {
    dashIndex, segmentLength, offset' := 0, 0.0, offset;
    if offset != 0.0 {
      var totalLength := 0.0;
      for i := 0 to |dashes|
        invariant totalLength == Prefix(dashes, i)
      {
        totalLength := totalLength + dashes[i];
      }
      var periods := ReducedInPeriod(offset, totalLength);
      offset' := Mod(offset', totalLength);
      if offset' < 0.0 {
        offset' := offset' + totalLength;
      }
      var i := 0;
      while i < |dashes|
        invariant i <= |dashes| && offset' == Reduced(offset, totalLength) - Prefix(dashes, i) >= 0.0
        invariant dashIndex == 0 && segmentLength == 0.0
      {
        offset' := offset' - dashes[i];
        if offset' < 0.0 {
          dashIndex := i;
          segmentLength := dashes[i] + offset';
          return;
        }
        i := i + 1;
      }
    }
  }

  /**
    dashPath keeps the changed offset for the next path, so a later path starts in the same place of
    the pattern if and only if the first one started in the last dash of positive length.
  */
  lemma PhaseCarriesOver(dashes: seq<real>, i: nat, used: real)
    requires NonNegative(dashes) && i < |dashes| && 0.0 <= used < dashes[i]
    ensures Total(dashes) > 0.0
    ensures Reduced(used - dashes[i], Total(dashes)) == Prefix(dashes, i) + used <==> Prefix(dashes, i + 1) == Total(dashes)
  {
    PrefixGrows(dashes, 0, i);
    PrefixGrows(dashes, i + 1, |dashes|);
    PrefixGrows(dashes, i, i + 1);
    ReducedNegative(used - dashes[i], Total(dashes));
  }

  lemma ReducedNegative(x: real, total: real)
    requires -total <= x < 0.0
    ensures Reduced(x, total) == if x == -total then 0.0 else x + total
  {
    var periods := ReducedInPeriod(x, total);
    OnePeriod(x, Reduced(x, total), total, periods);
  }

  lemma OnePeriod(x: real, r: real, total: real, periods: int)
    requires -total <= x < 0.0 <= r < total && x == r + total * (periods as real)
    ensures r == if x == -total then 0.0 else x + total
  {
    var p := periods as real;
    if periods >= 0 {
      AtLeast(total, 0.0, p);
    } else if periods <= -2 {
      AtLeast(total, p, -2.0);
    } else {
      assert p == -1.0;
    }
  }

  lemma AtLeast(m: real, a: real, b: real)
    requires m > 0.0 && a <= b
    ensures m * a <= m * b
  {
    if a < b {
      Scale(m, a, b);
    }
  }

  // ------------------------------------------------- the pieces

  /** A finished step of the pattern: from `start` over vertices a up to b to `end`. */
  datatype Piece = Piece(dash: nat, start: real, a: nat, b: nat, end: real)

  function Points(pos: seq<real>, p: Piece): seq<real> {
    if p.a <= p.b <= |pos| then [p.start] + pos[p.a..p.b] + [p.end] else []
  }

  ghost predicate Ascending(pos: seq<real>) {
    forall i, j :: 0 <= i <= j < |pos| ==> pos[i] <= pos[j]
  }

  /** The dash after i, of n. */
  function Next(i: nat, n: nat): nat {
    if i + 1 == n then 0 else i + 1
  }

  lemma NextIsModulo(i: nat, n: nat)
    requires i < n
    ensures Next(i, n) == (i + 1) % n
  {
  }

  /** Where the pieces have got to: the place, the next vertex and the next dash. */
  function Reached(pos: seq<real>, n: nat, d0: nat, pieces: seq<Piece>): (real, nat, nat)
    requires pos != [] && n > 0
  {
    if pieces == [] then (pos[0], 1, d0)
    else
      var p := pieces[|pieces| - 1];
      (p.end, p.b, Next(p.dash, n))
  }

  /** The length of the next piece: a whole dash, but for the first what its start leaves of it. */
  function Due(dashes: seq<real>, d: nat, s0: real, pieces: seq<Piece>): real
    requires d < |dashes|
  {
    dashes[d] - if pieces == [] then s0 else 0.0
  }

  /**
    Pieces that follow each other without a gap along the path and round the pattern, each taking
    all vertices it passes, each exactly as long as its dash.
  */
  ghost predicate Chain(pos: seq<real>, dashes: seq<real>, d0: nat, s0: real, pieces: seq<Piece>)
    requires pos != [] && d0 < |dashes|
  {
    pieces == [] ||
    (var front, p := pieces[..|pieces| - 1], pieces[|pieces| - 1];
     var (x, v, d) := Reached(pos, |dashes|, d0, front);
     && Chain(pos, dashes, d0, s0, front)
     && p.start == x && p.a == v && p.dash == d < |dashes|
     && p.a <= p.b < |pos|
     && (p.a < p.b ==> p.start <= pos[p.a] && pos[p.b - 1] <= p.end)
     && p.start <= p.end < pos[p.b]
     && p.end - p.start == Due(dashes, d, s0, front))
  }

  /** The polylines of the pieces in even dashes. */
  function Drawn(pos: seq<real>, pieces: seq<Piece>): seq<seq<real>> {
    if pieces == [] then []
    else
      var p := pieces[|pieces| - 1];
      Drawn(pos, pieces[..|pieces| - 1]) + if p.dash % 2 == 0 then [Points(pos, p)] else []
  }

  /** What is left when the path ends: an unfinished step. */
  function Rest(pos: seq<real>, n: nat, d0: nat, pieces: seq<Piece>): seq<real>
    requires pos != [] && n > 0
  {
    var (x, v, _) := Reached(pos, n, d0, pieces);
    if v <= |pos| then [x] + pos[v..] else []
  }

  // ------------------------------------------------- the loop

  /** Steps round the pattern from dash i to dash j. */
  function Ahead(i: nat, j: nat, n: nat): int {
    if i <= j then j - i else j + n - i
  }

  /** Taking m away from x k times leaves less than nothing. */
  ghost predicate Within(x: real, m: real, k: nat)
    decreases k
  {
    if k == 0 then x < 0.0 else Within(x - m, m, k - 1)
  }

  lemma {:induction false} WithinLess(x: real, y: real, m: real, k: nat)
    requires y <= x && Within(x, m, k)
    ensures Within(y, m, k)
    decreases k
  {
    if k > 0 {
      WithinLess(x - m, y - m, m, k - 1);
    }
  }

  lemma {:induction false} WithinProduct(x: real, m: real, k: nat)
    requires x < m * (k as real)
    ensures Within(x, m, k)
    decreases k
  {
    if k > 0 {
      ProductLess(m, k);
      WithinProduct(x - m, m, k - 1);
    }
  }

  lemma ProductLess(m: real, k: nat)
    requires k > 0
    ensures m * ((k - 1) as real) == m * (k as real) - m
  {
    Distribute(m, k as real, -1.0);
  }

  /** Some number of subtractions is enough. */
  lemma Budget(x: real, m: real) returns (k: nat)
    requires m > 0.0
    ensures Within(x, m, k)
  {
    if x < 0.0 {
      k := 0;
    } else {
      QuotientParts(x, m);
      Quotient(x, m);
      Unscale(m, 0.0, x / m);
      k := (x / m).Floor + 1;
      var n := (x / m).Floor as real;
      Distribute(m, n, 1.0);
      assert (k as real) == n + 1.0;
      WithinProduct(x, m, k);
    }
  }

  /** Closing dash i spends from the budget if it is dash j, and otherwise gets nearer to it. */
  lemma Spend(x: real, length: real, i: nat, dashes: seq<real>, j: nat, budget: nat) returns (left: nat)
    requires i < |dashes| && j < |dashes| && length == dashes[i] >= 0.0 && x > length
    requires dashes[j] > 0.0 && Within(x, dashes[j], budget)
    ensures Within(x - length, dashes[j], left) && left <= budget
    ensures left < budget || Ahead(Next(i, |dashes|), j, |dashes|) < Ahead(i, j, |dashes|)
  {
    left := budget;
    if i == j {
      left := budget - 1;
    } else {
      WithinLess(x, x - length, dashes[j], budget);
    }
  }

  /** The point a fraction t of the way from a to b. */
  function Interpolate(a: real, b: real, t: real): real {
    a + t * (b - a)
  }

  /** The point at distance maxd on the way to the next vertex. */
  method CutPoint(previous: real, point: real, d: real, maxd: real) returns (p: real)
    requires d == point - previous > maxd >= 0.0
    ensures p == previous + maxd
  {
    var t := maxd / d;
    Quotient(maxd, d);
    p := Interpolate(previous, point, t);
  }

  /** Everything drawn: the pieces in even dashes and, if it lies in one, the unfinished step. */
  function Output(pos: seq<real>, n: nat, d0: nat, pieces: seq<Piece>): seq<seq<real>>
    requires pos != [] && n > 0
  {
    Drawn(pos, pieces) + if Reached(pos, n, d0, pieces).2 % 2 == 0 then [Rest(pos, n, d0, pieces)] else []
  }

  /** The pieces leave less than a further step, with the last vertex in it. */
  ghost predicate Ends(pos: seq<real>, dashes: seq<real>, d0: nat, s0: real, pieces: seq<Piece>)
    requires pos != [] && d0 < |dashes|
  {
    var (x, v, d) := Reached(pos, |dashes|, d0, pieces);
    1 <= v < |pos| && d < |dashes| && 0.0 <= pos[|pos| - 1] - x <= Due(dashes, d, s0, pieces)
  }

  /** The variables of the loop describe the step in progress. */
  ghost predicate Following(pos: seq<real>, dashes: seq<real>, d0: nat, s0: real, pieces: seq<Piece>,
                            pathIndex: nat, dashIndex: nat, previous: real, segmentLength: real, segment: seq<real>)
    requires pos != [] && d0 < |dashes| && 1 <= pathIndex <= |pos| && dashIndex < |dashes|
  {
    var (x, v, d) := Reached(pos, |dashes|, d0, pieces);
    && d == dashIndex && 1 <= v <= pathIndex && v < |pos|
    && segment == [x] + pos[v..pathIndex]
    && previous == (if v == pathIndex then x else pos[pathIndex - 1])
    && pos[v - 1] <= x <= previous
    && (v < pathIndex ==> x <= pos[v])
    && (pathIndex < |pos| ==> previous <= pos[pathIndex])
    && segmentLength == previous - x + (if pieces == [] then s0 else 0.0)
    && segmentLength <= dashes[dashIndex]
  }

  /** The piece that ends where the dash in progress is used up. */
  function Closed(pos: seq<real>, dashes: seq<real>, d0: nat, pieces: seq<Piece>,
                  pathIndex: nat, dashIndex: nat, previous: real, segmentLength: real): Piece
    requires pos != [] && dashIndex < |dashes|
  {
    var (x, v, _) := Reached(pos, |dashes|, d0, pieces);
    Piece(dashIndex, x, v, pathIndex, previous + (dashes[dashIndex] - segmentLength))
  }

  lemma CutChain(pos: seq<real>, dashes: seq<real>, d0: nat, s0: real, pieces: seq<Piece>,
                 pathIndex: nat, dashIndex: nat, previous: real, segmentLength: real, segment: seq<real>)
    requires pos != [] && d0 < |dashes| && NonNegative(dashes) && 1 <= pathIndex < |pos| && dashIndex < |dashes|
    requires Chain(pos, dashes, d0, s0, pieces)
    requires Following(pos, dashes, d0, s0, pieces, pathIndex, dashIndex, previous, segmentLength, segment)
    requires pos[pathIndex] - previous > dashes[dashIndex] - segmentLength
    ensures
      var piece := Closed(pos, dashes, d0, pieces, pathIndex, dashIndex, previous, segmentLength);
      Chain(pos, dashes, d0, s0, pieces + [piece])
  {
    var (x, v, d) := Reached(pos, |dashes|, d0, pieces);
    var piece := Closed(pos, dashes, d0, pieces, pathIndex, dashIndex, previous, segmentLength);
    assert (pieces + [piece])[..|pieces|] == pieces;
  }

  lemma CutDrawn(pos: seq<real>, dashes: seq<real>, d0: nat, s0: real, pieces: seq<Piece>,
                 pathIndex: nat, dashIndex: nat, previous: real, segmentLength: real, segment: seq<real>)
    requires pos != [] && d0 < |dashes| && NonNegative(dashes) && 1 <= pathIndex < |pos| && dashIndex < |dashes|
    requires Following(pos, dashes, d0, s0, pieces, pathIndex, dashIndex, previous, segmentLength, segment)
    requires pos[pathIndex] - previous > dashes[dashIndex] - segmentLength
    ensures
      var piece := Closed(pos, dashes, d0, pieces, pathIndex, dashIndex, previous, segmentLength);
      Drawn(pos, pieces + [piece]) == Drawn(pos, pieces) + if dashIndex % 2 == 0 then [segment + [piece.end]] else []
  {
    var piece := Closed(pos, dashes, d0, pieces, pathIndex, dashIndex, previous, segmentLength);
    assert (pieces + [piece])[..|pieces|] == pieces;
    assert Points(pos, piece) == segment + [piece.end];
  }

  lemma CutFollowing(pos: seq<real>, dashes: seq<real>, d0: nat, s0: real, pieces: seq<Piece>,
                     pathIndex: nat, dashIndex: nat, previous: real, segmentLength: real, segment: seq<real>)
    requires pos != [] && d0 < |dashes| && NonNegative(dashes) && 1 <= pathIndex < |pos| && dashIndex < |dashes|
    requires Following(pos, dashes, d0, s0, pieces, pathIndex, dashIndex, previous, segmentLength, segment)
    requires pos[pathIndex] - previous > dashes[dashIndex] - segmentLength
    ensures
      var piece := Closed(pos, dashes, d0, pieces, pathIndex, dashIndex, previous, segmentLength);
      Following(pos, dashes, d0, s0, pieces + [piece], pathIndex, Next(dashIndex, |dashes|), piece.end, 0.0, [piece.end])
  {
    var piece := Closed(pos, dashes, d0, pieces, pathIndex, dashIndex, previous, segmentLength);
    assert Reached(pos, |dashes|, d0, pieces + [piece]) == (piece.end, pathIndex, Next(dashIndex, |dashes|));
    assert [piece.end] + pos[pathIndex..pathIndex] == [piece.end];
  }

  /** A dash that ends before the next vertex makes a piece. */
  lemma CutStep(pos: seq<real>, dashes: seq<real>, d0: nat, s0: real, pieces: seq<Piece>,
                pathIndex: nat, dashIndex: nat, previous: real, segmentLength: real, segment: seq<real>)
    returns (piece: Piece)
    requires pos != [] && d0 < |dashes| && NonNegative(dashes) && 1 <= pathIndex < |pos| && dashIndex < |dashes|
    requires Chain(pos, dashes, d0, s0, pieces)
    requires Following(pos, dashes, d0, s0, pieces, pathIndex, dashIndex, previous, segmentLength, segment)
    requires pos[pathIndex] - previous > dashes[dashIndex] - segmentLength
    ensures
      var p := previous + (dashes[dashIndex] - segmentLength);
      && Chain(pos, dashes, d0, s0, pieces + [piece])
      && Drawn(pos, pieces + [piece]) == Drawn(pos, pieces) + (if dashIndex % 2 == 0 then [segment + [p]] else [])
      && Following(pos, dashes, d0, s0, pieces + [piece], pathIndex, Next(dashIndex, |dashes|), p, 0.0, [p])
  {
    hide Chain, Following, Drawn, Reached;
    piece := Closed(pos, dashes, d0, pieces, pathIndex, dashIndex, previous, segmentLength);
    CutChain(pos, dashes, d0, s0, pieces, pathIndex, dashIndex, previous, segmentLength, segment);
    CutDrawn(pos, dashes, d0, s0, pieces, pathIndex, dashIndex, previous, segmentLength, segment);
    CutFollowing(pos, dashes, d0, s0, pieces, pathIndex, dashIndex, previous, segmentLength, segment);
  }

  /** A vertex that comes first joins the step in progress. */
  lemma VertexStep(pos: seq<real>, dashes: seq<real>, d0: nat, s0: real, pieces: seq<Piece>,
                   pathIndex: nat, dashIndex: nat, previous: real, segmentLength: real, segment: seq<real>)
    requires Ascending(pos)
    requires pos != [] && d0 < |dashes| && 1 <= pathIndex < |pos| && dashIndex < |dashes|
    requires Following(pos, dashes, d0, s0, pieces, pathIndex, dashIndex, previous, segmentLength, segment)
    requires pos[pathIndex] - previous <= dashes[dashIndex] - segmentLength
    ensures
      var point := pos[pathIndex];
      Following(pos, dashes, d0, s0, pieces, pathIndex + 1, dashIndex, point,
                segmentLength + (point - previous), segment + [point])
  {
    var (x, v, d) := Reached(pos, |dashes|, d0, pieces);
    assert pos[v..pathIndex + 1] == pos[v..pathIndex] + [pos[pathIndex]];
  }

  lemma StartStep(pos: seq<real>, dashes: seq<real>, d0: nat, s0: real)
    requires |pos| >= 2 && Ascending(pos) && d0 < |dashes| && s0 <= dashes[d0]
    ensures Chain(pos, dashes, d0, s0, []) && Drawn(pos, []) == []
    ensures Following(pos, dashes, d0, s0, [], 1, d0, pos[0], s0, [pos[0]])
  {
    assert [pos[0]] + pos[1..1] == [pos[0]];
  }

  /** The step in progress holds its starting point and has not used up more than its dash. */
  lemma InStep(pos: seq<real>, dashes: seq<real>, d0: nat, s0: real, pieces: seq<Piece>,
               pathIndex: nat, dashIndex: nat, previous: real, segmentLength: real, segment: seq<real>)
    requires pos != [] && d0 < |dashes| && 1 <= pathIndex <= |pos| && dashIndex < |dashes|
    requires Following(pos, dashes, d0, s0, pieces, pathIndex, dashIndex, previous, segmentLength, segment)
    ensures segment != [] && segmentLength <= dashes[dashIndex]
  {
  }

  lemma LastStep(pos: seq<real>, dashes: seq<real>, d0: nat, s0: real, pieces: seq<Piece>,
                 dashIndex: nat, previous: real, segmentLength: real, segment: seq<real>)
    requires pos != [] && d0 < |dashes| && dashIndex < |dashes|
    requires Following(pos, dashes, d0, s0, pieces, |pos|, dashIndex, previous, segmentLength, segment)
    ensures Ends(pos, dashes, d0, s0, pieces)
    ensures segment == Rest(pos, |dashes|, d0, pieces) && |segment| > 1
    ensures Reached(pos, |dashes|, d0, pieces).2 == dashIndex
  {
  }

  /** The loop's variables, apart from what has been drawn. */
  datatype Place = Place(pathIndex: nat, dashIndex: nat, previous: real, segmentLength: real)

  /** One turn of the loop; a place past the last vertex stays. */
  function Turn(pos: seq<real>, dashes: seq<real>, at: Place): Place {
    if at.pathIndex >= |pos| || at.dashIndex >= |dashes| then at
    else
      var d, maxd := pos[at.pathIndex] - at.previous, dashes[at.dashIndex] - at.segmentLength;
      if d > maxd then Place(at.pathIndex, Next(at.dashIndex, |dashes|), at.previous + maxd, 0.0)
      else Place(at.pathIndex + 1, at.dashIndex, pos[at.pathIndex], at.segmentLength + d)
  }

  function Turns(pos: seq<real>, dashes: seq<real>, start: Place, k: nat): Place {
    if k == 0 then start else Turn(pos, dashes, Turns(pos, dashes, start, k - 1))
  }

  lemma NoTurns(pos: seq<real>, dashes: seq<real>, start: Place)
    ensures Turns(pos, dashes, start, 0) == start
  {
  }

  lemma TakeTurn(pos: seq<real>, dashes: seq<real>, start: Place, k: nat)
    ensures Turns(pos, dashes, start, k + 1) == Turn(pos, dashes, Turns(pos, dashes, start, k))
  {
  }

  /** The loop has a dash to use up, or a path of no length. */
  ghost predicate CanEnd(pos: seq<real>, dashes: seq<real>)
    requires pos != []
  {
    pos[|pos| - 1] == pos[0] || exists j: nat :: Positive(dashes, j)
  }

  /** Without either, no number of turns reaches the last vertex. */
  lemma {:induction false} NeverEnds(pos: seq<real>, dashes: seq<real>, d0: nat, k: nat)
    requires |pos| >= 2 && Ascending(pos) && NonNegative(dashes) && d0 < |dashes|
    requires !CanEnd(pos, dashes)
    ensures
      var at := Turns(pos, dashes, Place(1, d0, pos[0], 0.0), k);
      at.pathIndex < |pos| && at.dashIndex < |dashes| && at.previous == pos[0] && at.segmentLength == 0.0
  {
    if k > 0 {
      NeverEnds(pos, dashes, d0, k - 1);
      var at := Turns(pos, dashes, Place(1, d0, pos[0], 0.0), k - 1);
      assert !Positive(dashes, at.dashIndex);
    }
  }

  /**
    The loop of dashPath over one path. Each turn takes a vertex, or uses up a dash, and a dash of
    positive length comes up again and again and takes its length away.
  */
  method Dash(pos: seq<real>, dashes: seq<real>, d0: nat, s0: real)
    returns (result: seq<seq<real>>, ghost pieces: seq<Piece>, ghost turns: nat)
    requires |pos| >= 2 && Ascending(pos)
    requires NonNegative(dashes) && CanEnd(pos, dashes)
    requires d0 < |dashes| && 0.0 <= s0 <= dashes[d0]
    ensures Chain(pos, dashes, d0, s0, pieces) && Ends(pos, dashes, d0, s0, pieces)
    ensures result == Output(pos, |dashes|, d0, pieces)
    ensures Turns(pos, dashes, Place(1, d0, pos[0], s0), turns).pathIndex == |pos|
  {
    hide Chain, Drawn, Ends, Following, Reached, Rest, Turns, Within;
    result, pieces, turns := [], [], 0;
    ghost var j: nat :| pos[|pos| - 1] == pos[0] || Positive(dashes, j);
    var previous := pos[0];
    var pathIndex: nat := 1;
    var dashIndex: nat := d0;
    var segmentLength := s0;
    var segment := [previous];
    StartStep(pos, dashes, d0, s0);
    NoTurns(pos, dashes, Place(1, d0, pos[0], s0));
    ghost var budget: nat := 0;
    if Positive(dashes, j) {
      budget := Budget(pos[1] - previous + s0, dashes[j]);
    }
    while pathIndex < |pos|
      invariant 1 <= pathIndex <= |pos| && dashIndex < |dashes|
      invariant Chain(pos, dashes, d0, s0, pieces)
      invariant result == Drawn(pos, pieces)
      invariant Following(pos, dashes, d0, s0, pieces, pathIndex, dashIndex, previous, segmentLength, segment)
      invariant Turns(pos, dashes, Place(1, d0, pos[0], s0), turns) == Place(pathIndex, dashIndex, previous, segmentLength)
      invariant !Positive(dashes, j) ==> previous == pos[0] == pos[|pos| - 1]
      invariant pathIndex < |pos| && Positive(dashes, j) ==>
                  Within(pos[pathIndex] - previous + segmentLength, dashes[j], budget)
      decreases |pos| - pathIndex, budget, Ahead(dashIndex, j, |dashes|)
    {
      InStep(pos, dashes, d0, s0, pieces, pathIndex, dashIndex, previous, segmentLength, segment);
      TakeTurn(pos, dashes, Place(1, d0, pos[0], s0), turns);
      var dashLength := dashes[dashIndex];
      var point := pos[pathIndex];
      var d := point - previous;
      var maxd := dashLength - segmentLength;
      if d > maxd {
        var p := CutPoint(previous, point, d, maxd);
        ghost var piece := CutStep(pos, dashes, d0, s0, pieces, pathIndex, dashIndex, previous, segmentLength, segment);
        budget := Spend(d + segmentLength, dashLength, dashIndex, dashes, j, budget);
        segment := segment + [p];
        if dashIndex % 2 == 0 && |segment| > 1 {
          result := result + [segment];
        }
        segment := [p];
        segmentLength := 0.0;
        previous := p;
        NextIsModulo(dashIndex, |dashes|);
        dashIndex := (dashIndex + 1) % |dashes|;
        pieces := pieces + [piece];
      } else {
        VertexStep(pos, dashes, d0, s0, pieces, pathIndex, dashIndex, previous, segmentLength, segment);
        segment := segment + [point];
        previous := point;
        segmentLength := segmentLength + d;
        pathIndex := pathIndex + 1;
        if pathIndex < |pos| && Positive(dashes, j) {
          budget := Budget(pos[pathIndex] - previous + segmentLength, dashes[j]);
        }
      }
      turns := turns + 1;
    }
    InStep(pos, dashes, d0, s0, pieces, pathIndex, dashIndex, previous, segmentLength, segment);
    LastStep(pos, dashes, d0, s0, pieces, dashIndex, previous, segmentLength, segment);
    if dashIndex % 2 == 0 && |segment| > 1 {
      result := result + [segment];
    }
  }

  /** Where in the pattern, counted from its start, a path begins that meets an offset. */
  function StartAt(dashes: seq<real>, offset: real): real
    requires offset != 0.0 ==> Total(dashes) > 0.0
  {
    if offset == 0.0 then 0.0 else Reduced(offset, Total(dashes))
  }

  /** How one path was drawn: the dash it starts in, how much of that is used up, and its pieces. */
  datatype Trace = Trace(d0: nat, s0: real, pieces: seq<Piece>)

  /** A path drawn from one offset, and the offset it leaves behind. */
  ghost predicate Traced(pos: seq<real>, dashes: seq<real>, offset: real, offset': real, t: Trace)
    requires pos != [] && (offset != 0.0 ==> Total(dashes) > 0.0)
  {
    && t.d0 < |dashes| && 0.0 <= t.s0 <= dashes[t.d0]
    && (if offset == 0.0 then t.d0 == 0 else t.s0 < dashes[t.d0])
    && Prefix(dashes, t.d0) + t.s0 == StartAt(dashes, offset)
    && Chain(pos, dashes, t.d0, t.s0, t.pieces) && Ends(pos, dashes, t.d0, t.s0, t.pieces)
    && offset' == if offset == 0.0 then 0.0 else t.s0 - dashes[t.d0]
  }

  /**
    Paths drawn one after the other, each from the offset that the last path of two or more vertices
    before it left behind; shorter paths draw nothing and change nothing.
  */
  ghost predicate AllTraced(paths: seq<seq<real>>, dashes: seq<real>, offset: real, offset': real, traces: seq<Trace>)
    requires offset != 0.0 ==> Total(dashes) > 0.0
  {
    if paths == [] || traces == [] then paths == [] && traces == [] && offset' == offset
    else
      var n := |paths| - 1;
      |traces| == n + 1 &&
      exists before: real ::
        && (before != 0.0 ==> Total(dashes) > 0.0)
        && AllTraced(paths[..n], dashes, offset, before, traces[..n])
        && if |paths[n]| < 2 then offset' == before else Traced(paths[n], dashes, before, offset', traces[n])
  }

  /** All that is drawn of the paths. */
  function Outputs(paths: seq<seq<real>>, n: nat, traces: seq<Trace>): seq<seq<real>>
    requires n > 0
  {
    if paths == [] || traces == [] then []
    else
      var pos, t := paths[|paths| - 1], traces[|traces| - 1];
      Outputs(paths[..|paths| - 1], n, traces[..|traces| - 1]) +
      if |pos| < 2 then [] else Output(pos, n, t.d0, t.pieces)
  }

  lemma TraceSnoc(paths: seq<seq<real>>, pos: seq<real>, dashes: seq<real>, offset: real, before: real, offset': real,
                  traces: seq<Trace>, t: Trace)
    requires (offset != 0.0 || before != 0.0 ==> Total(dashes) > 0.0) && dashes != [] && |paths| == |traces|
    requires AllTraced(paths, dashes, offset, before, traces)
    requires if |pos| < 2 then offset' == before else Traced(pos, dashes, before, offset', t)
    ensures AllTraced(paths + [pos], dashes, offset, offset', traces + [t])
    ensures Outputs(paths + [pos], |dashes|, traces + [t])
         == Outputs(paths, |dashes|, traces) + if |pos| < 2 then [] else Output(pos, |dashes|, t.d0, t.pieces)
  {
    hide Traced, Output;
    assert (paths + [pos])[..|paths|] == paths && (traces + [t])[..|traces|] == traces;
  }

  /** The paths under a whole pattern: no pattern leaves them as they are, and a single dash counts twice. */
  method DashPaths(paths: seq<seq<real>>, pattern: seq<real>, offset: real)
    returns (result: seq<seq<real>>, ghost dashes: seq<real>, ghost offset': real, ghost traces: seq<Trace>)
    requires NonNegative(pattern) && forall pos :: pos in paths ==> Ascending(pos) && (|pos| >= 2 ==> CanEnd(pos, pattern))
    requires offset != 0.0 ==> Total(pattern) > 0.0
    ensures dashes == (if |pattern| == 1 then pattern + pattern else pattern) && (offset != 0.0 ==> Total(dashes) > 0.0)
    ensures pattern == [] ==> result == paths
    ensures pattern != [] ==> AllTraced(paths, dashes, offset, offset', traces) && result == Outputs(paths, |dashes|, traces)
    ensures |traces| == if pattern == [] then 0 else |paths|
  {
    hide Output, Traced, AllTraced, Outputs, Ascending, CanEnd, Chain, Ends, Reduced;
    dashes, offset', traces := pattern, offset, [];
    if pattern == [] {
      return paths, dashes, offset', traces;
    }
    var dashes' := pattern;
    if |pattern| == 1 {
      dashes' := pattern + [pattern[0]];
      assert dashes' == pattern + pattern;
      TwiceTotal(pattern);
    }
    dashes, result := dashes', [];
    var carried := offset;
    NoTraces(dashes', offset);
    for k := 0 to |paths|
      invariant |traces| == k && (offset != 0.0 || carried != 0.0 ==> Total(dashes') > 0.0)
      invariant AllTraced(paths[..k], dashes', offset, carried, traces) && result == Outputs(paths[..k], |dashes'|, traces)
    {
      var path := paths[k];
      assert path in paths;
      assert paths[..k + 1] == paths[..k] + [path];
      if |path| < 2 {
        TraceSnoc(paths[..k], path, dashes', offset, carried, carried, traces, Trace(0, 0.0, []));
        traces := traces + [Trace(0, 0.0, [])];
        continue;
      }
      if |pattern| == 1 {
        TwiceCanEnd(path, pattern);
      }
      var lines;
      ghost var t;
      ghost var before := carried;
      lines, carried, t := DashTraced(path, dashes', carried);
      TraceSnoc(paths[..k], path, dashes', offset, before, carried, traces, t);
      traces := traces + [t];
      result := result + lines;
    }
    assert paths[..|paths|] == paths;
    offset' := carried;
  }

  lemma NoTraces(dashes: seq<real>, offset: real)
    requires dashes != [] && (offset != 0.0 ==> Total(dashes) > 0.0)
    ensures AllTraced([], dashes, offset, offset, []) && Outputs([], |dashes|, []) == []
  {
  }

  /** One path of the list: its phase, then its loop. */
  method DashTraced(pos: seq<real>, dashes: seq<real>, offset: real)
    returns (result: seq<seq<real>>, offset': real, ghost t: Trace)
    requires |pos| >= 2 && Ascending(pos) && NonNegative(dashes) && dashes != [] && CanEnd(pos, dashes)
    requires offset != 0.0 ==> Total(dashes) > 0.0
    ensures Traced(pos, dashes, offset, offset', t) && (offset' != 0.0 ==> offset != 0.0)
    ensures result == Output(pos, |dashes|, t.d0, t.pieces)
  {
    hide Chain, Ends, Output, Reduced, Ascending, CanEnd;
    var dashIndex, segmentLength;
    dashIndex, segmentLength, offset' := StartPhase(dashes, offset);
    ghost var pieces, turns;
    result, pieces, turns := Dash(pos, dashes, dashIndex, segmentLength);
    t := Trace(dashIndex, segmentLength, pieces);
  }

  /** A list of one path. */
  method DashOnePath(pos: seq<real>, pattern: seq<real>, offset: real)
    returns (result: seq<seq<real>>, ghost dashes: seq<real>, ghost d0: nat, ghost s0: real, ghost pieces: seq<Piece>)
    requires Ascending(pos) && NonNegative(pattern)
    requires |pos| >= 2 ==> CanEnd(pos, pattern)
    requires offset != 0.0 ==> Total(pattern) > 0.0
    ensures dashes == if |pattern| == 1 then pattern + pattern else pattern
    ensures pattern == [] ==> result == [pos]
    ensures pattern != [] && |pos| < 2 ==> result == []
    ensures pattern != [] && |pos| >= 2 ==>
              && d0 < |dashes| && 0.0 <= s0 <= dashes[d0]
              && (offset == 0.0 ==> d0 == 0 && s0 == 0.0)
              && (offset != 0.0 ==> s0 < dashes[d0])
              && (offset != 0.0 ==> Total(dashes) > 0.0 && Prefix(dashes, d0) + s0 == Reduced(offset, Total(dashes)))
              && Chain(pos, dashes, d0, s0, pieces) && Ends(pos, dashes, d0, s0, pieces)
              && result == Output(pos, |dashes|, d0, pieces)
  {
    hide Output, Chain, Ends, Reduced, Ascending, CanEnd;
    ghost var offset', traces;
    result, dashes, offset', traces := DashPaths([pos], pattern, offset);
    d0, s0, pieces := 0, 0.0, [];
    if pattern != [] {
      var n := |pos|;
      OneTraced(pos, dashes, offset, offset', traces);
      if n >= 2 {
        d0, s0, pieces := traces[0].d0, traces[0].s0, traces[0].pieces;
      }
    }
  }

  lemma OneTraced(pos: seq<real>, dashes: seq<real>, offset: real, offset': real, traces: seq<Trace>)
    requires (offset != 0.0 ==> Total(dashes) > 0.0) && dashes != [] && |traces| == 1
    requires AllTraced([pos], dashes, offset, offset', traces)
    ensures |pos| >= 2 ==> Traced(pos, dashes, offset, offset', traces[0])
    ensures Outputs([pos], |dashes|, traces) ==
              if |pos| < 2 then [] else Output(pos, |dashes|, traces[0].d0, traces[0].pieces)
  {
    hide Traced, Output;
    var before: real :|
      && (before != 0.0 ==> Total(dashes) > 0.0)
      && AllTraced([pos][..0], dashes, offset, before, traces[..0])
      && if |pos| < 2 then offset' == before else Traced(pos, dashes, before, offset', traces[0]);
    assert [pos][..0] == [] && traces[..0] == [];
    assert before == offset;
  }

  lemma TwiceCanEnd(pos: seq<real>, pattern: seq<real>)
    requires pos != [] && |pattern| == 1 && CanEnd(pos, pattern)
    ensures CanEnd(pos, pattern + pattern)
  {
    if pos[|pos| - 1] != pos[0] {
      assert Positive(pattern + pattern, 0);
    }
  }

  lemma TwiceTotal(pattern: seq<real>)
    requires |pattern| == 1
    ensures Total(pattern + pattern) == pattern[0] + pattern[0] && Total(pattern) == pattern[0]
  {
    var twice := pattern + pattern;
    assert Prefix(twice, 2) == Prefix(twice, 1) + twice[1];
    assert Prefix(twice, 1) == Prefix(twice, 0) + twice[0];
    assert Prefix(pattern, 1) == Prefix(pattern, 0) + pattern[0];
  }

  // ------------------------------------------------- what is drawn

  /** The dash k steps after dash d. */
  function DashAt(d: nat, k: nat, n: nat): (i: nat)
    requires d < n
    ensures i < n
  {
    if k == 0 then d else Next(DashAt(d, k - 1, n), n)
  }

  /** The k dashes from dash d on, round the pattern. */
  function Around(dashes: seq<real>, d: nat, k: nat): real
    requires d < |dashes|
  {
    if k == 0 then 0.0 else Around(dashes, d, k - 1) + dashes[DashAt(d, k - 1, |dashes|)]
  }

  /** How far along the path k steps of the pattern reach. */
  function Spent(dashes: seq<real>, d: nat, s0: real, k: nat): real
    requires d < |dashes|
  {
    if k == 0 then 0.0 else Around(dashes, d, k) - s0
  }

  lemma SpentStep(dashes: seq<real>, d: nat, s0: real, k: nat)
    requires d < |dashes|
    ensures Spent(dashes, d, s0, k + 1) ==
              Spent(dashes, d, s0, k) + dashes[DashAt(d, k, |dashes|)] - (if k == 0 then s0 else 0.0)
  {
    assert Around(dashes, d, k + 1) == Around(dashes, d, k) + dashes[DashAt(d, k, |dashes|)];
  }

  lemma {:induction false} ReachedAt(pos: seq<real>, dashes: seq<real>, d0: nat, s0: real, pieces: seq<Piece>)
    requires pos != [] && d0 < |dashes| && Chain(pos, dashes, d0, s0, pieces)
    ensures
      var (x, _, d) := Reached(pos, |dashes|, d0, pieces);
      x == pos[0] + Spent(dashes, d0, s0, |pieces|) && d == DashAt(d0, |pieces|, |dashes|)
  {
    if pieces != [] {
      ReachedAt(pos, dashes, d0, s0, pieces[..|pieces| - 1]);
      SpentStep(dashes, d0, s0, |pieces| - 1);
    }
  }

  lemma LastPiece(pos: seq<real>, dashes: seq<real>, d0: nat, s0: real, pieces: seq<Piece>)
    requires pos != [] && d0 < |dashes| && Chain(pos, dashes, d0, s0, pieces) && pieces != []
    ensures
      var last := |pieces| - 1;
      && Chain(pos, dashes, d0, s0, pieces[..last])
      && pieces[last].dash == DashAt(d0, last, |dashes|)
      && pieces[last].start == pos[0] + Spent(dashes, d0, s0, last)
      && pieces[last].end == pos[0] + Spent(dashes, d0, s0, last + 1)
      && pieces[last].a <= pieces[last].b < |pos|
  {
    ReachedAt(pos, dashes, d0, s0, pieces[..|pieces| - 1]);
    ReachedAt(pos, dashes, d0, s0, pieces);
  }

  /** Step k of the pattern is dash d0 + k, and lies where the dashes before it and it add up to. */
  lemma {:induction false} PieceAt(pos: seq<real>, dashes: seq<real>, d0: nat, s0: real, pieces: seq<Piece>)
    requires pos != [] && d0 < |dashes| && Chain(pos, dashes, d0, s0, pieces)
    ensures forall k :: 0 <= k < |pieces| ==>
              && pieces[k].dash == DashAt(d0, k, |dashes|)
              && pieces[k].start == pos[0] + Spent(dashes, d0, s0, k)
              && pieces[k].end == pos[0] + Spent(dashes, d0, s0, k + 1)
  {
    hide Spent, DashAt, Chain, Reached;
    if pieces != [] {
      LastPiece(pos, dashes, d0, s0, pieces);
      PieceAt(pos, dashes, d0, s0, pieces[..|pieces| - 1]);
    }
  }

  /** The length drawn of a polyline along the path. */
  function Length(line: seq<real>): real {
    if line == [] then 0.0 else line[|line| - 1] - line[0]
  }

  function Inked(lines: seq<seq<real>>): real {
    if lines == [] then 0.0 else Inked(lines[..|lines| - 1]) + Length(lines[|lines| - 1])
  }

  /** What the steps in even dashes, and in odd ones, add up to, by the pattern alone. */
  function Pattern(dashes: seq<real>, d0: nat, s0: real, k: nat, parity: nat): real
    requires d0 < |dashes|
  {
    if k == 0 then 0.0
    else
      Pattern(dashes, d0, s0, k - 1, parity) +
      if DashAt(d0, k - 1, |dashes|) % 2 == parity
      then Spent(dashes, d0, s0, k) - Spent(dashes, d0, s0, k - 1) else 0.0
  }

  lemma {:induction false} InkedIsPattern(pos: seq<real>, dashes: seq<real>, d0: nat, s0: real, pieces: seq<Piece>)
    requires pos != [] && d0 < |dashes| && Chain(pos, dashes, d0, s0, pieces)
    ensures Inked(Drawn(pos, pieces)) == Pattern(dashes, d0, s0, |pieces|, 0)
  {
    if pieces != [] {
      var last := |pieces| - 1;
      hide Chain, DashAt, Spent, Drawn, Inked;
      InkedIsPattern(pos, dashes, d0, s0, pieces[..last]);
      LastPiece(pos, dashes, d0, s0, pieces);
      DrawnLength(pos, pieces);
    }
  }

  lemma InkedAppend(lines: seq<seq<real>>, line: seq<real>)
    ensures Inked(lines + [line]) == Inked(lines) + Length(line)
  {
    assert (lines + [line])[..|lines|] == lines;
  }

  lemma PointsLength(pos: seq<real>, p: Piece)
    requires p.a <= p.b <= |pos|
    ensures Length(Points(pos, p)) == p.end - p.start
  {
  }

  lemma DrawnLength(pos: seq<real>, pieces: seq<Piece>)
    requires pieces != [] && pieces[|pieces| - 1].a <= pieces[|pieces| - 1].b <= |pos|
    ensures
      var p := pieces[|pieces| - 1];
      Inked(Drawn(pos, pieces)) ==
        Inked(Drawn(pos, pieces[..|pieces| - 1])) + if p.dash % 2 == 0 then p.end - p.start else 0.0
  {
    hide Inked, Length, Points;
    var front, p := pieces[..|pieces| - 1], pieces[|pieces| - 1];
    PointsLength(pos, p);
    InkedAppend(Drawn(pos, front), Points(pos, p));
    assert Drawn(pos, front) + [] == Drawn(pos, front);
  }

  lemma {:induction false} EvenAndOdd(dashes: seq<real>, d0: nat, s0: real, k: nat)
    requires d0 < |dashes|
    ensures Pattern(dashes, d0, s0, k, 0) + Pattern(dashes, d0, s0, k, 1) == Spent(dashes, d0, s0, k)
  {
    if k > 0 {
      EvenAndOdd(dashes, d0, s0, k - 1);
    }
  }

  /**
    The drawn lengths and the lengths left blank add up to the path: the blanks are what the pattern
    puts in odd dashes, and the unfinished step when it falls in one.
  */
  lemma InkAndBlank(pos: seq<real>, dashes: seq<real>, d0: nat, s0: real, pieces: seq<Piece>)
    requires pos != [] && d0 < |dashes|
    requires Chain(pos, dashes, d0, s0, pieces) && Ends(pos, dashes, d0, s0, pieces)
    ensures
      var (x, _, d) := Reached(pos, |dashes|, d0, pieces);
      var end := pos[|pos| - 1];
      Inked(Output(pos, |dashes|, d0, pieces))
      + Pattern(dashes, d0, s0, |pieces|, 1) + (if d % 2 == 1 then end - x else 0.0)
      == end - pos[0]
  {
    hide Chain, DashAt, Spent, Drawn, Inked, Pattern;
    InkedIsPattern(pos, dashes, d0, s0, pieces);
    EvenAndOdd(dashes, d0, s0, |pieces|);
    ReachedAt(pos, dashes, d0, s0, pieces);
    InkedAppend(Drawn(pos, pieces), Rest(pos, |dashes|, d0, pieces));
    assert Drawn(pos, pieces) + [] == Drawn(pos, pieces);
  }

  /** The pattern and the path decide how many steps are finished: as many as fit before the end. */
  lemma StepsFinished(pos: seq<real>, dashes: seq<real>, d0: nat, s0: real, pieces: seq<Piece>)
    requires pos != [] && d0 < |dashes| && Ascending(pos)
    requires Chain(pos, dashes, d0, s0, pieces) && Ends(pos, dashes, d0, s0, pieces)
    ensures
      var length := pos[|pos| - 1] - pos[0];
      && (pieces != [] ==> Spent(dashes, d0, s0, |pieces|) < length)
      && length <= Spent(dashes, d0, s0, |pieces| + 1)
  {
    SpentStep(dashes, d0, s0, |pieces|);
    ReachedAt(pos, dashes, d0, s0, pieces);
  }

  lemma {:induction false} SpentGrows(dashes: seq<real>, d: nat, s0: real, i: nat, j: nat)
    requires d < |dashes| && NonNegative(dashes) && 1 <= i <= j
    ensures Spent(dashes, d, s0, i) <= Spent(dashes, d, s0, j)
  {
    if i < j {
      SpentGrows(dashes, d, s0, i, j - 1);
      SpentStep(dashes, d, s0, j - 1);
    }
  }

  lemma NoMoreSteps(pos: seq<real>, dashes: seq<real>, d0: nat, s0: real, pieces: seq<Piece>, other: seq<Piece>)
    requires pos != [] && d0 < |dashes| && Ascending(pos) && NonNegative(dashes)
    requires Chain(pos, dashes, d0, s0, pieces) && Ends(pos, dashes, d0, s0, pieces)
    requires Chain(pos, dashes, d0, s0, other) && Ends(pos, dashes, d0, s0, other)
    ensures |other| <= |pieces|
  {
    hide Chain, Ends;
    StepsFinished(pos, dashes, d0, s0, pieces);
    StepsFinished(pos, dashes, d0, s0, other);
    if |pieces| < |other| {
      SpentGrows(dashes, d0, s0, |pieces| + 1, |other|);
    }
  }

  /** A piece takes exactly the vertices up to where it ends. */
  lemma SameVertices(pos: seq<real>, p: Piece, q: Piece)
    requires Ascending(pos) && p.a == q.a && p.end == q.end
    requires p.a <= p.b < |pos| && (p.a < p.b ==> pos[p.b - 1] <= p.end) && p.end < pos[p.b]
    requires q.a <= q.b < |pos| && (q.a < q.b ==> pos[q.b - 1] <= q.end) && q.end < pos[q.b]
    ensures p.b == q.b
  {
  }

  lemma {:induction false} SamePieces(pos: seq<real>, dashes: seq<real>, d0: nat, s0: real,
                                      pieces: seq<Piece>, other: seq<Piece>)
    requires pos != [] && d0 < |dashes| && Ascending(pos) && |pieces| == |other|
    requires Chain(pos, dashes, d0, s0, pieces) && Chain(pos, dashes, d0, s0, other)
    ensures pieces == other
  {
    if pieces != [] {
      var last := |pieces| - 1;
      SamePieces(pos, dashes, d0, s0, pieces[..last], other[..last]);
      hide Spent, Drawn, Points, Ascending;
      SameVertices(pos, pieces[last], other[last]);
      assert pieces == pieces[..last] + [pieces[last]] && other == other[..last] + [other[last]];
    }
  }

  /** Path, pattern and phase admit only one chain to the end, so they decide what is drawn. */
  lemma ChainUnique(pos: seq<real>, dashes: seq<real>, d0: nat, s0: real, pieces: seq<Piece>, other: seq<Piece>)
    requires pos != [] && d0 < |dashes| && Ascending(pos) && NonNegative(dashes)
    requires Chain(pos, dashes, d0, s0, pieces) && Ends(pos, dashes, d0, s0, pieces)
    requires Chain(pos, dashes, d0, s0, other) && Ends(pos, dashes, d0, s0, other)
    ensures pieces == other
  {
    NoMoreSteps(pos, dashes, d0, s0, pieces, other);
    NoMoreSteps(pos, dashes, d0, s0, other, pieces);
    SamePieces(pos, dashes, d0, s0, pieces, other);
  }

  // ------------------------------------------------- the drawing is decided

  lemma SamePlace(dashes: seq<real>, i: nat, x: real, j: nat, y: real)
    requires NonNegative(dashes) && i < |dashes| && j < |dashes|
    requires 0.0 <= x < dashes[i] && 0.0 <= y && Prefix(dashes, i) + x == Prefix(dashes, j) + y
    ensures j <= i
  {
    if i < j {
      PrefixGrows(dashes, i + 1, j);
    }
  }

  lemma TraceUnique(pos: seq<real>, dashes: seq<real>, offset: real, a: real, s: Trace, b: real, t: Trace)
    requires pos != [] && Ascending(pos) && NonNegative(dashes) && (offset != 0.0 ==> Total(dashes) > 0.0)
    requires Traced(pos, dashes, offset, a, s) && Traced(pos, dashes, offset, b, t)
    ensures a == b && s == t
  {
    hide Chain, Ends, Ascending, Reduced;
    if offset != 0.0 {
      SamePlace(dashes, s.d0, s.s0, t.d0, t.s0);
      SamePlace(dashes, t.d0, t.s0, s.d0, s.s0);
    }
    ChainUnique(pos, dashes, s.d0, s.s0, s.pieces, t.pieces);
  }

  /** Paths, pattern and offset decide all that is drawn, and the offset left in the end. */
  lemma {:induction false} DrawingUnique(paths: seq<seq<real>>, dashes: seq<real>, offset: real,
                                         a: real, ss: seq<Trace>, b: real, ts: seq<Trace>)
    requires dashes != [] && NonNegative(dashes) && (offset != 0.0 ==> Total(dashes) > 0.0)
    requires forall pos :: pos in paths ==> Ascending(pos)
    requires AllTraced(paths, dashes, offset, a, ss) && AllTraced(paths, dashes, offset, b, ts)
    ensures a == b && Outputs(paths, |dashes|, ss) == Outputs(paths, |dashes|, ts)
  {
    if paths != [] {
      hide Traced, Output, Ascending, NonNegative, Total;
      var n := |paths| - 1;
      var pos := paths[n];
      assert pos in paths;
      var a0: real :|
        && (a0 != 0.0 ==> Total(dashes) > 0.0)
        && AllTraced(paths[..n], dashes, offset, a0, ss[..n])
        && if |pos| < 2 then a == a0 else Traced(pos, dashes, a0, a, ss[n]);
      var b0: real :|
        && (b0 != 0.0 ==> Total(dashes) > 0.0)
        && AllTraced(paths[..n], dashes, offset, b0, ts[..n])
        && if |pos| < 2 then b == b0 else Traced(pos, dashes, b0, b, ts[n]);
      DrawingUnique(paths[..n], dashes, offset, a0, ss[..n], b0, ts[..n]);
      if |pos| >= 2 {
        TraceUnique(pos, dashes, a0, a, ss[n], b, ts[n]);
      }
    }
  }
}
