/** White space, trimming and splitting, as the text and header code uses them. */
module Text {
  /** Go's unicode.IsSpace. */
  predicate IsSpace(c: char) {
    var n := c as int;
    || 9 <= n <= 13 || n == 32 || n == 0x85 || n == 0xA0
    || n == 0x1680 || 0x2000 <= n <= 0x200A || n == 0x2028 || n == 0x2029
    || n == 0x202F || n == 0x205F || n == 0x3000
  }

  predicate Blank(s: string) {
    forall i :: 0 <= i < |s| ==> IsSpace(s[i])
  }

  predicate Solid(s: string) {
    forall i :: 0 <= i < |s| ==> !IsSpace(s[i])
  }

  function TrimLeft(s: string): string {
    if s != "" && IsSpace(s[0]) then TrimLeft(s[1..]) else s
  }

  function TrimRight(s: string): string {
    if s != "" && IsSpace(s[|s| - 1]) then TrimRight(s[..|s| - 1]) else s
  }

  /** strings.TrimSpace. */
  function Trim(s: string): string {
    TrimRight(TrimLeft(s))
  }

  lemma {:induction false} TrimRightBlank(t: string, g: string)
    requires Blank(g) && (t != "" ==> !IsSpace(t[|t| - 1]))
    ensures TrimRight(t + g) == t
  {
    if g == "" {
      assert t + g == t;
    } else {
      assert (t + g)[..|t + g| - 1] == t + g[..|g| - 1];
      TrimRightBlank(t, g[..|g| - 1]);
    }
  }

  lemma {:induction false} TrimLeftBlank(s: string)
    requires Blank(s)
    ensures TrimLeft(s) == ""
  {
    if s != "" {
      TrimLeftBlank(s[1..]);
    }
  }

  lemma {:induction false} TrimLeftGap(g: string, t: string)
    requires Blank(g) && (t != "" ==> !IsSpace(t[0]))
    ensures TrimLeft(g + t) == t
  {
    if g == "" {
      assert g + t == t;
    } else {
      assert (g + t)[1..] == g[1..] + t;
      TrimLeftGap(g[1..], t);
    }
  }

  /** Trimming what begins and ends with other characters takes off exactly the surrounding blanks. */
  lemma TrimGaps(g: string, t: string, h: string)
    requires Blank(g) && Blank(h) && t != "" && !IsSpace(t[0]) && !IsSpace(t[|t| - 1])
    ensures Trim(g + t + h) == t
  {
    assert g + t + h == g + (t + h);
    TrimLeftGap(g, t + h);
    TrimRightBlank(t, h);
  }

  /** strings.Split at a line feed. */
  function Lines(s: string): (r: seq<string>)
    ensures r != []
  {
    if s == "" then [""]
    else
      var rest := Lines(s[1..]);
      if s[0] == '\n' then [""] + rest else [[s[0]] + rest[0]] + rest[1..]
  }

  /** The lines with a line feed between each two. */
  function Joined(lines: seq<string>): string
    requires lines != []
  {
    if |lines| == 1 then lines[0] else lines[0] + "\n" + Joined(lines[1..])
  }

  ghost predicate Unbroken(lines: seq<string>) {
    forall k :: 0 <= k < |lines| ==> '\n' !in lines[k]
  }

  lemma {:induction false} LinesJoin(s: string)
    ensures Joined(Lines(s)) == s && Unbroken(Lines(s))
  {
    if s != "" {
      var rest := Lines(s[1..]);
      LinesJoin(s[1..]);
      if s[0] == '\n' {
        assert ([""] + rest)[1..] == rest;
        assert s == "" + "\n" + s[1..];
      } else {
        assert ([[s[0]] + rest[0]] + rest[1..])[1..] == rest[1..];
        assert s == [s[0]] + s[1..];
        if |rest| > 1 {
          assert [s[0]] + (rest[0] + "\n" + Joined(rest[1..])) == ([s[0]] + rest[0]) + "\n" + Joined(rest[1..]);
        }
      }
    }
  }

  lemma {:induction false} LinesOfJoined(lines: seq<string>)
    requires lines != [] && Unbroken(lines)
    ensures Lines(Joined(lines)) == lines
    decreases |lines|, if lines == [] then 0 else |lines[0]|
  {
    var x := lines[0];
    if x != "" {
      var less := [x[1..]] + lines[1..];
      assert less[1..] == lines[1..];
      assert Unbroken(less);
      LinesOfJoined(less);
      hide Unbroken;
      assert Joined(lines)[0] == x[0] && Joined(lines)[1..] == Joined(less);
      assert [x[0]] + less[0] == x;
      assert lines == [[x[0]] + less[0]] + less[1..];
    } else if |lines| > 1 {
      LinesOfJoined(lines[1..]);
      assert Joined(lines)[0] == '\n' && Joined(lines)[1..] == Joined(lines[1..]);
      assert lines == [""] + lines[1..];
    } else {
      assert lines == [""];
    }
  }

  /** Splitting at the line feeds is the only way to cut a text into lines that, joined by line feeds, give it back. */
  lemma LinesExactly(s: string, lines: seq<string>)
    requires lines != []
    ensures lines == Lines(s) <==> Joined(lines) == s && Unbroken(lines)
  {
    LinesJoin(s);
    if Unbroken(lines) {
      LinesOfJoined(lines);
    }
  }

  function Concat(f: seq<string>): string {
    if f == [] then "" else f[0] + Concat(f[1..])
  }

  lemma {:induction false} ConcatAppend(f: seq<string>, g: seq<string>)
    ensures Concat(f + g) == Concat(f) + Concat(g)
  {
    if f == [] {
      assert f + g == g;
    } else {
      assert (f + g)[1..] == f[1..] + g;
      ConcatAppend(f[1..], g);
    }
  }
}
