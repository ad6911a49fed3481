/** Which vertices of the path each drawn line passes. */
module DashLines {
  import opened DashPath

  /** The vertices past `from`, or all of them, up to `to`. */
  function Passed(vertices: seq<real>, all: bool, from: real, to: real): seq<real> {
    if vertices == [] then []
    else
      var x := vertices[|vertices| - 1];
      Passed(vertices[..|vertices| - 1], all, from, to) + if (all || from < x) && x <= to then [x] else []
  }

  lemma {:induction false} PassedStretch(vertices: seq<real>, all: bool, from: real, to: real, a: nat, b: nat)
    requires a <= b <= |vertices|
    requires if all then a == 0 else forall i :: 0 <= i < |vertices| ==> (from < vertices[i] <==> i >= a)
    requires forall i :: 0 <= i < |vertices| ==> (vertices[i] <= to <==> i < b)
    ensures Passed(vertices, all, from, to) == vertices[a..b]
  {
    if vertices != [] {
      var n := |vertices| - 1;
      var front := vertices[..n];
      if b <= n {
        PassedStretch(front, all, from, to, a, b);
        assert front[a..b] == vertices[a..b];
      } else if a <= n {
        PassedStretch(front, all, from, to, a, n);
        assert vertices[a..b] == front[a..n] + [vertices[n]];
      } else {
        PassedStretch(front, all, from, to, n, n);
      }
    }
  }

  /** What a chain says of its piece k. */
  lemma {:induction false} ChainAt(pos: seq<real>, dashes: seq<real>, d0: nat, s0: real, pieces: seq<Piece>, k: nat)
    requires pos != [] && d0 < |dashes| && Chain(pos, dashes, d0, s0, pieces) && k < |pieces|
    ensures
      var p := pieces[k];
      && 1 <= p.a <= p.b < |pos| && p.end < pos[p.b] && (p.a < p.b ==> pos[p.b - 1] <= p.end) && p.start <= p.end
      && (if k == 0 then p.a == 1 && p.start == pos[0] else p.a == pieces[k - 1].b && p.start == pieces[k - 1].end)
  {
    var last := |pieces| - 1;
    if k < last {
      ChainAt(pos, dashes, d0, s0, pieces[..last], k);
    } else if last > 0 {
      ChainAt(pos, dashes, d0, s0, pieces[..last], last - 1);
    }
    hide Points, Drawn, Spent;
  }

  /** All that lies before a vertex a that `from` has not reached is not past `from`, all from it on is. */
  lemma {:induction false} BehindPiece(pos: seq<real>, dashes: seq<real>, d0: nat, s0: real, pieces: seq<Piece>, k: nat)
    requires pos != [] && d0 < |dashes| && Chain(pos, dashes, d0, s0, pieces) && k < |pieces| && Ascending(pos)
    ensures var p := pieces[k]; forall i :: 1 <= i < |pos| ==> (pos[i] <= p.end <==> i < p.b)
  {
    ChainAt(pos, dashes, d0, s0, pieces, k);
    var p := pieces[k];
    if k > 0 {
      BehindPiece(pos, dashes, d0, s0, pieces, k - 1);
    }
    hide Chain;
  }

  /**
    The line of each piece begins and ends where the piece does, and in between it passes exactly the
    vertices that lie past its start up to its end; the first piece passes those at its start as well.
  */
  lemma LinesPassVertices(pos: seq<real>, dashes: seq<real>, d0: nat, s0: real, pieces: seq<Piece>, k: nat)
    requires pos != [] && d0 < |dashes| && Chain(pos, dashes, d0, s0, pieces) && k < |pieces| && Ascending(pos)
    ensures
      var p := pieces[k];
      Points(pos, p) == [p.start] + Passed(pos[1..], k == 0, p.start, p.end) + [p.end]
  {
    ChainAt(pos, dashes, d0, s0, pieces, k);
    BehindPiece(pos, dashes, d0, s0, pieces, k);
    if k > 0 {
      BehindPiece(pos, dashes, d0, s0, pieces, k - 1);
    }
    hide Chain, Ascending;
    LineOf(pos, pieces[k], k == 0);
  }

  lemma LineOf(pos: seq<real>, p: Piece, first: bool)
    requires 1 <= p.a <= p.b < |pos|
    requires forall i :: 1 <= i < |pos| ==> (pos[i] <= p.end <==> i < p.b)
    requires if first then p.a == 1 else forall i :: 1 <= i < |pos| ==> (pos[i] <= p.start <==> i < p.a)
    ensures Points(pos, p) == [p.start] + Passed(pos[1..], first, p.start, p.end) + [p.end]
  {
    hide Passed;
    PassedStretch(pos[1..], first, p.start, p.end, p.a - 1, p.b - 1);
    assert pos[1..][p.a - 1..p.b - 1] == pos[p.a..p.b];
  }

  /** The unfinished step passes all vertices that are left. */
  lemma RestPassesVertices(pos: seq<real>, dashes: seq<real>, d0: nat, s0: real, pieces: seq<Piece>)
    requires pos != [] && d0 < |dashes| && Ascending(pos)
    requires Chain(pos, dashes, d0, s0, pieces) && Ends(pos, dashes, d0, s0, pieces)
    ensures
      var x := if pieces == [] then pos[0] else pieces[|pieces| - 1].end;
      Rest(pos, |dashes|, d0, pieces) == [x] + Passed(pos[1..], pieces == [], x, pos[|pos| - 1])
  {
    var k := |pieces| - 1;
    if k >= 0 {
      BehindPiece(pos, dashes, d0, s0, pieces, k);
    }
    hide Chain;
    var (x, v, _) := Reached(pos, |dashes|, d0, pieces);
    PassedStretch(pos[1..], pieces == [], x, pos[|pos| - 1], v - 1, |pos| - 1);
    assert pos[1..][v - 1..|pos| - 1] == pos[v..];
  }
}
