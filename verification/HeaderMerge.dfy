/**
  Merging header lists, later ones over earlier ones. Two names are the same when `fold` maps them
  to the same key, as strings.EqualFold decides by case folding.
*/
module HeaderMerge {
  import opened Text

  datatype Header = Header(name: string, value: string)

  // ------------------------------------------------- what merging means

  function Key(fold: string -> string, h: Header): string {
    fold(h.name)
  }

  /** The keys in order of first occurrence. */
  function Firsts(fold: string -> string, hs: seq<Header>): seq<string> {
    if hs == [] then []
    else
      var keys, key := Firsts(fold, hs[..|hs| - 1]), Key(fold, hs[|hs| - 1]);
      if key in keys then keys else keys + [key]
  }

  /** The last header under a key, with its own spelling of the name. */
  function LastOf(fold: string -> string, hs: seq<Header>, key: string): (h: Header)
    requires key in Firsts(fold, hs)
    ensures h in hs && Key(fold, h) == key
  {
    var last := hs[|hs| - 1];
    if Key(fold, last) == key then last else LastOf(fold, hs[..|hs| - 1], key)
  }

  ghost predicate Distinct(keys: seq<string>) {
    forall i, j :: 0 <= i < j < |keys| ==> keys[i] != keys[j]
  }

  lemma {:induction false} FirstsAreKeys(fold: string -> string, hs: seq<Header>)
    ensures Distinct(Firsts(fold, hs))
    ensures forall key :: key in Firsts(fold, hs) <==> exists h :: h in hs && Key(fold, h) == key
  {
    if hs != [] {
      FirstsAreKeys(fold, hs[..|hs| - 1]);
      assert hs == hs[..|hs| - 1] + [hs[|hs| - 1]];
    }
  }

  /** A key stands before another exactly because it occurs before that one ever does. */
  lemma {:induction false} FirstsInOrder(fold: string -> string, hs: seq<Header>, i: nat, j: nat, b: nat) returns (a: nat)
    requires i < j < |Firsts(fold, hs)| && b < |hs| && fold(hs[b].name) == Firsts(fold, hs)[j]
    ensures a < b && fold(hs[a].name) == Firsts(fold, hs)[i]
  {
    var last := |hs| - 1;
    var front, keys := hs[..last], Firsts(fold, hs[..last]);
    FirstsAreKeys(fold, front);
    FirstsAreKeys(fold, hs);
    if b < last {
      assert front[b] in front && Key(fold, front[b]) in keys;
      var n :| 0 <= n < |keys| && keys[n] == Key(fold, front[b]);
      assert Firsts(fold, hs)[n] == Firsts(fold, hs)[j];
      a := FirstsInOrder(fold, front, i, j, b);
    } else {
      assert i < |keys| && keys[i] in keys;
      var h :| h in front && Key(fold, h) == keys[i];
      a :| 0 <= a < last && front[a] == h;
    }
  }

  // ------------------------------------------------- one header after another

  /** The first place of a key, or the length. */
  function Find(fold: string -> string, merged: seq<Header>, key: string): (i: nat)
    ensures i <= |merged|
    ensures i < |merged| ==> Key(fold, merged[i]) == key
    ensures forall j :: 0 <= j < i ==> Key(fold, merged[j]) != key
  {
    if merged == [] || Key(fold, merged[0]) == key then 0 else 1 + Find(fold, merged[1..], key)
  }

  function Put(fold: string -> string, merged: seq<Header>, h: Header): seq<Header> {
    var i := Find(fold, merged, Key(fold, h));
    if i < |merged| then merged[i := h] else merged + [h]
  }

  function Merged(fold: string -> string, hs: seq<Header>): seq<Header> {
    if hs == [] then [] else Put(fold, Merged(fold, hs[..|hs| - 1]), hs[|hs| - 1])
  }

  function Keys(fold: string -> string, hs: seq<Header>): (keys: seq<string>)
    ensures |keys| == |hs| && forall i {:trigger keys[i]} :: 0 <= i < |hs| ==> keys[i] == Key(fold, hs[i])
  {
    if hs == [] then [] else Keys(fold, hs[..|hs| - 1]) + [Key(fold, hs[|hs| - 1])]
  }

  lemma FindPlace(fold: string -> string, merged: seq<Header>, key: string, i: nat)
    requires i <= |merged| && (i < |merged| ==> Key(fold, merged[i]) == key)
    requires forall j :: 0 <= j < i ==> Key(fold, merged[j]) != key
    ensures Find(fold, merged, key) == i
  {
  }

  lemma KeyIn(fold: string -> string, m: seq<Header>, key: string)
    ensures Find(fold, m, key) < |m| <==> key in Keys(fold, m)
  {
    hide Find, Keys;
    if key in Keys(fold, m) {
      var j :| 0 <= j < |m| && Keys(fold, m)[j] == key;
    }
    if Find(fold, m, key) < |m| {
      assert Keys(fold, m)[Find(fold, m, key)] == key;
    }
  }

  lemma KeysPut(fold: string -> string, m: seq<Header>, h: Header)
    ensures Keys(fold, Put(fold, m, h)) ==
              if Key(fold, h) in Keys(fold, m) then Keys(fold, m) else Keys(fold, m) + [Key(fold, h)]
  {
    KeyIn(fold, m, Key(fold, h));
    hide Find;
    var i := Find(fold, m, Key(fold, h));
    if i < |m| {
      assert forall j :: 0 <= j < |m| ==> Keys(fold, m[i := h])[j] == Keys(fold, m)[j];
    } else {
      assert (m + [h])[..|m|] == m;
    }
  }

  lemma FirstsSnoc(fold: string -> string, hs: seq<Header>, h: Header)
    ensures
      var keys := Firsts(fold, hs);
      Firsts(fold, hs + [h]) == if Key(fold, h) in keys then keys else keys + [Key(fold, h)]
  {
    assert (hs + [h])[..|hs|] == hs;
  }

  lemma LastOfSnoc(fold: string -> string, hs: seq<Header>, h: Header, key: string)
    requires key in Firsts(fold, hs) || key == Key(fold, h)
    ensures key in Firsts(fold, hs + [h])
    ensures LastOf(fold, hs + [h], key) == if key == Key(fold, h) then h else LastOf(fold, hs, key)
  {
    FirstsSnoc(fold, hs, h);
    assert (hs + [h])[..|hs|] == hs;
  }

  /** Every header of m is the last one of hs under its key. */
  ghost predicate AllLast(fold: string -> string, m: seq<Header>, hs: seq<Header>) {
    forall i :: 0 <= i < |m| ==>
      Key(fold, m[i]) in Firsts(fold, hs) && m[i] == LastOf(fold, hs, Key(fold, m[i]))
  }

  lemma AllLastPut(fold: string -> string, m: seq<Header>, hs: seq<Header>, h: Header)
    requires AllLast(fold, m, hs) && Keys(fold, m) == Firsts(fold, hs) && Distinct(Keys(fold, m))
    ensures AllLast(fold, Put(fold, m, h), hs + [h])
  {
    hide Find, Firsts, LastOf, Keys;
    var m', at := Put(fold, m, h), Find(fold, m, Key(fold, h));
    forall i | 0 <= i < |m'|
      ensures Key(fold, m'[i]) in Firsts(fold, hs + [h])
      ensures m'[i] == LastOf(fold, hs + [h], Key(fold, m'[i]))
    {
      if i != at {
        assert m'[i] == m[i];
        assert Keys(fold, m)[i] == Key(fold, m[i]);
        if at < |m| {
          assert Keys(fold, m)[at] == Key(fold, h);
        }
        assert Key(fold, m[i]) != Key(fold, h);
      }
      LastOfSnoc(fold, hs, h, Key(fold, m'[i]));
    }
  }

  /** The merged list has the keys in order of first occurrence, each with its last header. */
  lemma {:induction false} MergedExactly(fold: string -> string, hs: seq<Header>)
    ensures Keys(fold, Merged(fold, hs)) == Firsts(fold, hs)
    ensures AllLast(fold, Merged(fold, hs), hs)
  {
    hide AllLast, Put, Find;
    if hs != [] {
      var front, last := hs[..|hs| - 1], hs[|hs| - 1];
      assert hs == front + [last];
      MergedExactly(fold, front);
      FirstsAreKeys(fold, front);
      FirstsSnoc(fold, front, last);
      KeysPut(fold, Merged(fold, front), last);
      AllLastPut(fold, Merged(fold, front), front, last);
    } else {
      NoneLast(fold);
    }
  }

  lemma NoneLast(fold: string -> string)
    ensures AllLast(fold, [], [])
  {
  }

  lemma MergedDistinct(fold: string -> string, hs: seq<Header>)
    ensures Distinct(Keys(fold, Merged(fold, hs)))
  {
    MergedExactly(fold, hs);
    FirstsAreKeys(fold, hs);
  }

  // ------------------------------------------------- merging in stages

  lemma MergedSnoc(fold: string -> string, hs: seq<Header>, h: Header)
    ensures Merged(fold, hs + [h]) == Put(fold, Merged(fold, hs), h)
  {
    assert (hs + [h])[..|hs|] == hs;
  }

  lemma PutAt(fold: string -> string, m: seq<Header>, h: Header, i: nat)
    requires i <= |m| && (i < |m| ==> Key(fold, m[i]) == Key(fold, h))
    requires forall j :: 0 <= j < i ==> Key(fold, m[j]) != Key(fold, h)
    ensures Put(fold, m, h) == if i < |m| then m[i := h] else m + [h]
  {
    FindPlace(fold, m, Key(fold, h), i);
  }

  lemma KeysSnoc(fold: string -> string, m: seq<Header>, h: Header)
    ensures Keys(fold, m + [h]) == Keys(fold, m) + [Key(fold, h)]
  {
    assert (m + [h])[..|m|] == m;
  }

  lemma DistinctSnoc(keys: seq<string>, key: string)
    requires Distinct(keys + [key])
    ensures Distinct(keys) && key !in keys
  {
    var more := keys + [key];
    assert more[|keys|] == key;
    assert forall i :: 0 <= i < |keys| ==> more[i] == keys[i];
  }

  lemma NotIn(fold: string -> string, m: seq<Header>, key: string)
    requires key !in Keys(fold, m)
    ensures forall i :: 0 <= i < |m| ==> Key(fold, m[i]) != key
  {
    hide Key, Keys;
    forall i | 0 <= i < |m|
      ensures Key(fold, m[i]) != key
    {
      assert Keys(fold, m)[i] in Keys(fold, m);
    }
  }

  lemma {:induction false} MergedAgain(fold: string -> string, m: seq<Header>)
    requires Distinct(Keys(fold, m))
    ensures Merged(fold, m) == m
  {
    if m != [] {
      hide Distinct, Find, Key, Keys, Put;
      var front, last := m[..|m| - 1], m[|m| - 1];
      assert m == front + [last];
      KeysSnoc(fold, front, last);
      DistinctSnoc(Keys(fold, front), Key(fold, last));
      NotIn(fold, front, Key(fold, last));
      MergedAgain(fold, front);
      PutAt(fold, front, last, |front|);
    }
  }

  lemma Idempotent(fold: string -> string, hs: seq<Header>)
    ensures Merged(fold, Merged(fold, hs)) == Merged(fold, hs)
  {
    MergedDistinct(fold, hs);
    MergedAgain(fold, Merged(fold, hs));
  }

  lemma Regroup(a: seq<Header>, b: seq<Header>, h: Header)
    ensures a + (b + [h]) == a + b + [h]
  {
  }

  /** Merging the first part beforehand changes nothing. */
  lemma {:induction false} MergeFirstPart(fold: string -> string, a: seq<Header>, b: seq<Header>)
    ensures Merged(fold, Merged(fold, a) + b) == Merged(fold, a + b)
  {
    if b == [] {
      assert a + b == a && Merged(fold, a) + b == Merged(fold, a);
      Idempotent(fold, a);
    } else {
      hide Key, Merged, Put;
      var front, last := b[..|b| - 1], b[|b| - 1];
      MergeFirstPart(fold, a, front);
      assert b == front + [last];
      Regroup(a, front, last);
      Regroup(Merged(fold, a), front, last);
      MergedSnoc(fold, a + front, last);
      MergedSnoc(fold, Merged(fold, a) + front, last);
    }
  }

  lemma PutTwice(fold: string -> string, m: seq<Header>, x: Header, h: Header)
    requires Key(fold, x) == Key(fold, h)
    ensures Put(fold, Put(fold, m, x), h) == Put(fold, m, h)
  {
    var i := Find(fold, m, Key(fold, x));
    FindPlace(fold, Put(fold, m, x), Key(fold, h), i);
  }

  lemma PutSwap(fold: string -> string, m: seq<Header>, h: Header, y: Header)
    requires Key(fold, y) != Key(fold, h) && Find(fold, m, Key(fold, h)) < |m|
    ensures Put(fold, Put(fold, m, h), y) == Put(fold, Put(fold, m, y), h)
  {
    hide Find, Key, Put;
    var i, j := Find(fold, m, Key(fold, h)), Find(fold, m, Key(fold, y));
    PutAt(fold, m, h, i);
    PutAt(fold, m, y, j);
    PutAt(fold, m[i := h], y, j);
    PutAt(fold, Put(fold, m, y), h, i);
    if j < |m| {
      assert m[i := h][j := y] == m[j := y][i := h];
    } else {
      assert m[i := h] + [y] == (m + [y])[i := h];
    }
  }

  lemma {:induction false} MergedHas(fold: string -> string, hs: seq<Header>, i: nat)
    requires i < |hs|
    ensures Find(fold, Merged(fold, hs), Key(fold, hs[i])) < |Merged(fold, hs)|
  {
    MergedExactly(fold, hs);
    FirstsAreKeys(fold, hs);
    var key := Key(fold, hs[i]);
    assert key in Firsts(fold, hs);
    var j :| 0 <= j < |Firsts(fold, hs)| && Firsts(fold, hs)[j] == key;
    assert Key(fold, Merged(fold, hs)[j]) == Keys(fold, Merged(fold, hs))[j] == key;
  }

  /** Replacing a header in the second part is the same as adding it at the end. */
  lemma {:induction false} ReplaceLater(fold: string -> string, a: seq<Header>, m: seq<Header>, i: nat, h: Header)
    requires Distinct(Keys(fold, m)) && i < |m| && Key(fold, m[i]) == Key(fold, h)
    ensures Merged(fold, a + m[i := h]) == Put(fold, Merged(fold, a + m), h)
  {
    hide Find, Put, Merged, Keys;
    var front, y := m[..|m| - 1], m[|m| - 1];
    MergedSnoc(fold, a + front, y);
    assert a + m == a + front + [y];
    if i == |front| {
      assert a + m[i := h] == a + front + [h];
      MergedSnoc(fold, a + front, h);
      PutTwice(fold, Merged(fold, a + front), y, h);
    } else {
      assert a + m[i := h] == a + front[i := h] + [y];
      MergedSnoc(fold, a + front[i := h], y);
      assert forall j :: 0 <= j < |front| ==> Keys(fold, front)[j] == Keys(fold, m)[j];
      assert front[i] == m[i];
      ReplaceLater(fold, a, front, i, h);
      assert Keys(fold, m)[i] != Keys(fold, m)[|front|];
      assert (a + front)[|a| + i] == m[i];
      MergedHas(fold, a + front, |a| + i);
      PutSwap(fold, Merged(fold, a + front), h, y);
    }
  }

  /** Merging the second part beforehand changes nothing either. */
  lemma {:induction false} MergeSecondPart(fold: string -> string, a: seq<Header>, b: seq<Header>)
    ensures Merged(fold, a + Merged(fold, b)) == Merged(fold, a + b)
  {
    if b == [] {
      assert Merged(fold, b) == b;
    } else {
      hide Find, Key, Merged;
      var front, last := b[..|b| - 1], b[|b| - 1];
      assert b == front + [last];
      MergedSnoc(fold, front, last);
      var m := Merged(fold, front);
      var i := Find(fold, m, Key(fold, last));
      MergeSecondPart(fold, a, front);
      Regroup(a, front, last);
      MergedSnoc(fold, a + front, last);
      if i < |m| {
        MergedDistinct(fold, front);
        ReplaceLater(fold, a, m, i, last);
      } else {
        Regroup(a, m, last);
        MergedSnoc(fold, a + m, last);
      }
    }
  }

  // ------------------------------------------------- trimming names

  /** The headers that count: names trimmed, blank ones dropped. */
  function Clean(hs: seq<Header>): seq<Header> {
    if hs == [] then []
    else
      var name := Trim(hs[|hs| - 1].name);
      Clean(hs[..|hs| - 1]) + if name == "" then [] else [hs[|hs| - 1].(name := name)]
  }

  function Flat(groups: seq<seq<Header>>): seq<Header> {
    if groups == [] then [] else Flat(groups[..|groups| - 1]) + groups[|groups| - 1]
  }

  function MergeHeaderLists(fold: string -> string, groups: seq<seq<Header>>): seq<Header> {
    Merged(fold, Clean(Flat(groups)))
  }

  lemma {:induction false} CleanAppend(a: seq<Header>, b: seq<Header>)
    ensures Clean(a + b) == Clean(a) + Clean(b)
  {
    if b == [] {
      assert a + b == a;
    } else {
      var front, last := b[..|b| - 1], b[|b| - 1];
      assert (a + b)[..|a + b| - 1] == a + front && (a + b)[|a + b| - 1] == last;
      CleanAppend(a, front);
    }
  }

  lemma {:induction false} FlatAppend(a: seq<seq<Header>>, b: seq<seq<Header>>)
    ensures Flat(a + b) == Flat(a) + Flat(b)
  {
    if b == [] {
      assert a + b == a;
    } else {
      var front, last := b[..|b| - 1], b[|b| - 1];
      assert (a + b)[..|a + b| - 1] == a + front && (a + b)[|a + b| - 1] == last;
      FlatAppend(a, front);
    }
  }

  ghost predicate Trimmed(hs: seq<Header>) {
    forall h :: h in hs ==> h.name != "" && Trim(h.name) == h.name
  }

  lemma {:induction false} TrimLeftStarts(s: string)
    ensures TrimLeft(s) != "" ==> !IsSpace(TrimLeft(s)[0])
  {
    if s != "" && IsSpace(s[0]) {
      TrimLeftStarts(s[1..]);
    }
  }

  lemma {:induction false} TrimRightEnds(s: string)
    ensures TrimRight(s) <= s
    ensures TrimRight(s) != "" ==> !IsSpace(TrimRight(s)[|TrimRight(s)| - 1])
  {
    if s != "" && IsSpace(s[|s| - 1]) {
      TrimRightEnds(s[..|s| - 1]);
    }
  }

  lemma TrimTwice(s: string)
    ensures Trim(Trim(s)) == Trim(s)
  {
    TrimLeftStarts(s);
    TrimRightEnds(TrimLeft(s));
  }

  lemma {:induction false} CleanIsTrimmed(hs: seq<Header>)
    ensures Trimmed(Clean(hs))
  {
    if hs != [] {
      CleanIsTrimmed(hs[..|hs| - 1]);
      TrimTwice(hs[|hs| - 1].name);
    }
  }

  lemma CleanSnoc(hs: seq<Header>, h: Header)
    ensures
      var name := Trim(h.name);
      Clean(hs + [h]) == Clean(hs) + if name == "" then [] else [h.(name := name)]
  {
    hide Trim;
    assert (hs + [h])[..|hs|] == hs;
  }

  lemma {:induction false} CleanTrimmed(hs: seq<Header>)
    requires Trimmed(hs)
    ensures Clean(hs) == hs
  {
    hide Trim;
    if hs != [] {
      var front, last := hs[..|hs| - 1], hs[|hs| - 1];
      assert hs == front + [last];
      assert last in hs && forall h :: h in front ==> h in hs;
      hide Clean;
      CleanTrimmed(front);
      CleanSnoc(front, last);
      assert last.(name := last.name) == last;
    }
  }

  lemma {:induction false} MergedFrom(fold: string -> string, hs: seq<Header>)
    ensures forall h :: h in Merged(fold, hs) ==> h in hs
  {
    if hs != [] {
      var front, last := hs[..|hs| - 1], hs[|hs| - 1];
      MergedFrom(fold, front);
      assert hs == front + [last];
      forall h | h in Merged(fold, hs)
        ensures h in hs
      {
        assert h in Merged(fold, front) || h == last;
      }
    }
  }

  lemma CleanMerged(fold: string -> string, hs: seq<Header>)
    ensures Clean(Merged(fold, Clean(hs))) == Merged(fold, Clean(hs))
  {
    CleanIsTrimmed(hs);
    MergedFrom(fold, Clean(hs));
    CleanTrimmed(Merged(fold, Clean(hs)));
  }

  /** Any way of merging in stages gives what merging all lists at once gives. */
  lemma StagesAgree(fold: string -> string, a: seq<seq<Header>>, b: seq<seq<Header>>)
    ensures MergeHeaderLists(fold, [MergeHeaderLists(fold, a), MergeHeaderLists(fold, b)])
            == MergeHeaderLists(fold, a + b)
  {
    var ca, cb := Clean(Flat(a)), Clean(Flat(b));
    var ma, mb := MergeHeaderLists(fold, a), MergeHeaderLists(fold, b);
    FlatAppend(a, b);
    CleanAppend(Flat(a), Flat(b));
    assert [ma, mb][..1] == [ma] && [ma][..0] == [];
    assert Flat([ma]) == ma;
    assert Flat([ma, mb]) == ma + mb;
    CleanAppend(ma, mb);
    CleanMerged(fold, Flat(a));
    CleanMerged(fold, Flat(b));
    MergeFirstPart(fold, ca, mb);
    MergeSecondPart(fold, ca, cb);
  }

  // ------------------------------------------------- names and headers in the result

  lemma {:induction false} LastOfIsLast(fold: string -> string, hs: seq<Header>, key: string) returns (k: nat)
    requires key in Firsts(fold, hs)
    ensures k < |hs| && hs[k] == LastOf(fold, hs, key) && fold(hs[k].name) == key
    ensures forall j :: k < j < |hs| ==> fold(hs[j].name) != key
  {
    var last := |hs| - 1;
    if Key(fold, hs[last]) == key {
      k := last;
    } else {
      k := LastOfIsLast(fold, hs[..last], key);
    }
  }

  ghost predicate NoFoldTwice(fold: string -> string, m: seq<Header>) {
    forall i, j :: 0 <= i < j < |m| ==> fold(m[i].name) != fold(m[j].name)
  }

  /** No later header of the list has a name with the same fold. */
  ghost predicate IsLast(fold: string -> string, hs: seq<Header>, k: nat) {
    k < |hs| && forall j :: k < j < |hs| ==> fold(hs[j].name) != fold(hs[k].name)
  }

  lemma SameLast(fold: string -> string, hs: seq<Header>, k: nat, n: nat)
    requires IsLast(fold, hs, k) && IsLast(fold, hs, n) && fold(hs[k].name) == fold(hs[n].name)
    ensures k == n
  {
  }

  /** Merging keeps exactly the headers after which no name with the same fold comes, and no fold twice. */
  lemma LastsAreKept(fold: string -> string, hs: seq<Header>)
    ensures NoFoldTwice(fold, Merged(fold, hs))
    ensures forall k :: 0 <= k < |hs| && IsLast(fold, hs, k) ==> hs[k] in Merged(fold, hs)
    ensures forall x :: x in Merged(fold, hs) ==> exists k :: 0 <= k < |hs| && IsLast(fold, hs, k) && hs[k] == x
  {
    hide Merged, Firsts, LastOf, Keys;
    var m := Merged(fold, hs);
    MergedExactly(fold, hs);
    FirstsAreKeys(fold, hs);
    assert forall i :: 0 <= i < |m| ==> Keys(fold, m)[i] == fold(m[i].name);
    forall k | 0 <= k < |hs| && IsLast(fold, hs, k)
      ensures hs[k] in m
    {
      var key := fold(hs[k].name);
      assert hs[k] in hs && Key(fold, hs[k]) == key;
      var n := LastOfIsLast(fold, hs, key);
      SameLast(fold, hs, k, n);
      var i :| 0 <= i < |m| && Keys(fold, m)[i] == key;
      assert m[i] == LastOf(fold, hs, Key(fold, m[i]));
    }
    forall x | x in m
      ensures exists k :: 0 <= k < |hs| && IsLast(fold, hs, k) && hs[k] == x
    {
      var i :| 0 <= i < |m| && m[i] == x;
      var k := LastOfIsLast(fold, hs, Key(fold, x));
      assert IsLast(fold, hs, k);
    }
  }

  lemma {:induction false} CleanMember(hs: seq<Header>, h: Header)
    requires h in hs && Trim(h.name) != ""
    ensures h.(name := Trim(h.name)) in Clean(hs)
  {
    hide Trim;
    var front, last := hs[..|hs| - 1], hs[|hs| - 1];
    assert hs == front + [last];
    if h != last {
      CleanMember(front, h);
    }
  }

  lemma {:induction false} FlatMember(groups: seq<seq<Header>>, group: seq<Header>, h: Header)
    requires group in groups && h in group
    ensures h in Flat(groups)
  {
    var front, last := groups[..|groups| - 1], groups[|groups| - 1];
    assert groups == front + [last];
    if group != last {
      FlatMember(front, group, h);
    }
  }

  lemma MergedTrimmed(fold: string -> string, groups: seq<seq<Header>>)
    ensures Trimmed(MergeHeaderLists(fold, groups))
  {
    hide Trim, Merged, Clean, Flat;
    CleanIsTrimmed(Flat(groups));
    MergedFrom(fold, Clean(Flat(groups)));
  }

  lemma NamePresent(fold: string -> string, groups: seq<seq<Header>>, group: seq<Header>, h: Header)
    requires group in groups && h in group && Trim(h.name) != ""
    ensures exists x :: x in MergeHeaderLists(fold, groups) && fold(x.name) == fold(Trim(h.name))
  {
    hide Trim, Clean, Flat, Merged, LastOf, Firsts;
    var hs, clean := Clean(Flat(groups)), h.(name := Trim(h.name));
    LastsAreKept(fold, hs);
    FirstsAreKeys(fold, hs);
    FlatMember(groups, group, h);
    CleanMember(Flat(groups), h);
    assert clean in hs && Key(fold, clean) in Firsts(fold, hs);
    var k := LastOfIsLast(fold, hs, Key(fold, clean));
    assert IsLast(fold, hs, k) && hs[k] in Merged(fold, hs);
  }

  /** Each name that is not blank is in the result, up to its fold, once, and trimmed. */
  lemma NamesOnce(fold: string -> string, groups: seq<seq<Header>>)
    ensures NoFoldTwice(fold, MergeHeaderLists(fold, groups))
    ensures Trimmed(MergeHeaderLists(fold, groups))
    ensures forall group, h :: group in groups && h in group && Trim(h.name) != "" ==>
              exists x :: x in MergeHeaderLists(fold, groups) && fold(x.name) == fold(Trim(h.name))
  {
    LastsAreKept(fold, Clean(Flat(groups)));
    MergedTrimmed(fold, groups);
    forall group, h | group in groups && h in group && Trim(h.name) != ""
      ensures exists x :: x in MergeHeaderLists(fold, groups) && fold(x.name) == fold(Trim(h.name))
    {
      NamePresent(fold, groups, group, h);
    }
    hide Trim, Clean, Flat, Merged, Trimmed, NoFoldTwice;
  }

  // ------------------------------------------------- the loops

  method Merge(fold: string -> string, groups: seq<seq<Header>>) returns (merged: seq<Header>)
    ensures Keys(fold, merged) == Firsts(fold, Clean(Flat(groups)))
    ensures AllLast(fold, merged, Clean(Flat(groups)))
    ensures merged == MergeHeaderLists(fold, groups)
  {
    hide AllLast, Clean, Find, Firsts, Flat, Keys, Merged;
    NoHeaders(fold);
    merged := [];
    for g := 0 to |groups|
      invariant merged == MergeHeaderLists(fold, groups[..g])
    {
      var group := groups[g];
      ghost var flat := Flat(groups[..g]);
      FlatSnoc(groups[..g], group);
      assert groups[..g] + [group] == groups[..g + 1];
      assert flat + group[..0] == flat;
      for n := 0 to |group|
        invariant merged == Merged(fold, Clean(flat + group[..n]))
      {
        var header := group[n];
        ghost var before := flat + group[..n];
        assert flat + group[..n + 1] == before + [header];
        MergeOne(fold, before, header);
        var name := Trim(header.name);
        if name == "" {
          continue;
        }
        header := header.(name := name);
        var replaced := false;
        var i := 0;
        while i < |merged|
          invariant i <= |merged| && !replaced && merged == Merged(fold, Clean(before))
          invariant forall j :: 0 <= j < i ==> Key(fold, merged[j]) != fold(name)
        {
          if fold(merged[i].name) == fold(name) {
            FindPlace(fold, merged, fold(name), i);
            merged := merged[i := header];
            replaced := true;
            break;
          }
          i := i + 1;
        }
        if !replaced {
          FindPlace(fold, merged, fold(name), |merged|);
          merged := merged + [header];
        }
      }
      assert group[..|group|] == group;
    }
    assert groups[..|groups|] == groups;
    MergedExactly(fold, Clean(Flat(groups)));
  }

  lemma NoHeaders(fold: string -> string)
    ensures MergeHeaderLists(fold, []) == []
  {
  }

  lemma FlatSnoc(groups: seq<seq<Header>>, group: seq<Header>)
    ensures Flat(groups + [group]) == Flat(groups) + group
  {
    assert (groups + [group])[..|groups|] == groups;
  }

  lemma MergeOne(fold: string -> string, before: seq<Header>, h: Header)
    ensures
      var name := Trim(h.name);
      var merged := Merged(fold, Clean(before));
      Merged(fold, Clean(before + [h])) == if name == "" then merged else Put(fold, merged, h.(name := name))
  {
    assert (before + [h])[..|before|] == before;
    if Trim(h.name) != "" {
      MergedSnoc(fold, Clean(before), h.(name := Trim(h.name)));
    } else {
      assert Clean(before) + [] == Clean(before);
    }
  }
}
