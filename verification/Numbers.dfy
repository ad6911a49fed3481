/** Writing and reading decimal numbers, and choosing a unit for a byte count. */
module Numbers {
  const INT64 := 0x1_0000_0000_0000_0000
  const MAX := 0x7FFF_FFFF_FFFF_FFFF

  /** The value of an int64 after arithmetic that may overflow. */
  function Wrap(x: int): int {
    (x + MAX + 1) % INT64 - MAX - 1
  }

  function Digit(d: int): char
    requires 0 <= d < 10
  {
    '0' + d as char
  }

  /** Decimal digits without leading zeros. */
  function Digits(n: nat): string {
    if n == 0 then "" else Digits(n / 10) + [Digit(n % 10)]
  }

  function Decimal(n: int): string {
    if n == 0 then "0" else if n < 0 then "-" + Digits(-n) else Digits(n)
  }

  lemma DigitsZero()
    ensures Digits(0) == ""
  {
  }

  lemma DigitsStep(m: nat, s: string)
    requires m > 0
    ensures Digits(m / 10) + ([Digit(m % 10)] + s) == Digits(m) + s
  {
    hide Digit;
    var front, last := Digits(m / 10), [Digit(m % 10)];
    assert front + (last + s) == front + last + s;
  }

  /** Numbers above the least int64, whose negation overflows. */
  method FormatInt(n: int) returns (s: string)
    requires -MAX <= n <= MAX
    ensures s == Decimal(n)
    decreases n < 0
  {
    if n == 0 {
      return "0";
    }
    if n < 0 {
      var rest := FormatInt(-n);
      return "-" + rest;
    }
    DigitsZero();
    hide Digit, Digits;
    s := "";
    var m := n;
    assert Digits(n) + s == Digits(n);
    while m > 0
      invariant 0 <= m && Digits(n) == Digits(m) + s
    {
      DigitsStep(m, s);
      s := [Digit(m % 10)] + s;
      m := m / 10;
    }
    assert Digits(m) + s == s;
  }

  predicate IsDigit(c: char) {
    '0' <= c <= '9'
  }

  lemma {:induction false} DigitsForm(n: nat)
    requires n > 0
    ensures Digits(n) != "" && Digits(n)[0] != '0'
    ensures forall i :: 0 <= i < |Digits(n)| ==> IsDigit(Digits(n)[i])
  {
    if n < 10 {
      assert Digits(n) == [Digit(n)];
    } else {
      DigitsForm(n / 10);
    }
  }

  /** The text of a number is digits, with a sign in front exactly if it is negative and no zero before another digit. */
  lemma DecimalForm(n: int)
    ensures
      var s := Decimal(n);
      var digits := if n < 0 then s[1..] else s;
      && s != "" && (s[0] == '-' <==> n < 0)
      && digits != "" && (digits[0] == '0' <==> n == 0) && (n == 0 ==> |digits| == 1)
      && forall i :: 0 <= i < |digits| ==> IsDigit(digits[i])
  {
    if n != 0 {
      DigitsForm(if n < 0 then -n else n);
    }
  }

  /** The digits of s as a number, in int64 arithmetic; other characters are passed over. */
  function Parsed(s: string): int {
    if s == "" then 0
    else
      var c, front := s[|s| - 1], Parsed(s[..|s| - 1]);
      if IsDigit(c) then Wrap(front * 10 + (c as int - '0' as int)) else front
  }

  method ParseInt(s: string) returns (result: int)
    ensures result == Parsed(s)
  {
    result := 0;
    for i := 0 to |s|
      invariant result == Parsed(s[..i])
    {
      var c := s[i];
      assert s[..i + 1][..i] == s[..i];
      if '0' <= c && c <= '9' {
        result := Wrap(result * 10 + (c as int - '0' as int));
      }
    }
    assert s[..|s|] == s;
  }

  lemma ParsedSnoc(s: string, d: int)
    requires 0 <= d < 10 && 0 <= Parsed(s) * 10 + d <= MAX
    ensures Parsed(s + [Digit(d)]) == Parsed(s) * 10 + d
  {
    var t := s + [Digit(d)];
    assert t[..|s|] == s && t[|t| - 1] == Digit(d);
    assert Parsed(t) == Wrap(Parsed(s) * 10 + d) by {
      hide Wrap;
    }
  }

  lemma {:induction false} DigitsParse(n: nat, prefix: string)
    requires n <= MAX && Parsed(prefix) == 0
    ensures Parsed(prefix + Digits(n)) == n
  {
    if n == 0 {
      assert prefix + "" == prefix;
    } else {
      hide Parsed, Digit;
      var q, d := n / 10, n % 10;
      assert n == q * 10 + d;
      var s, c := prefix + Digits(q), Digit(d);
      DigitsParse(q, prefix);
      assert prefix + Digits(n) == s + [c];
      hide Digits;
      ParsedSnoc(s, d);
    }
  }

  /** Reading back gives the number without its sign: so the number itself exactly when it has none. */
  lemma ParseFormat(n: int)
    requires -MAX <= n <= MAX
    ensures Parsed(Decimal(n)) == if n < 0 then -n else n
    ensures Parsed(Decimal(n)) == n <==> n >= 0
  {
    if n > 0 {
      DigitsParse(n, "");
      assert "" + Digits(n) == Digits(n);
    } else if n < 0 {
      assert Parsed("-") == 0;
      DigitsParse(-n, "-");
    } else {
      assert "0"[..0] == "";
    }
  }

  // ------------------------------------------------- what is read

  /** The digits of a text. */
  function Figures(s: string): string {
    if s == "" then ""
    else Figures(s[..|s| - 1]) + if IsDigit(s[|s| - 1]) then [s[|s| - 1]] else ""
  }

  /** The number that digits stand for, however large. */
  function Value(t: string): int {
    if t == "" then 0 else Value(t[..|t| - 1]) * 10 + (t[|t| - 1] as int - '0' as int)
  }

  /** Wrapping is taking away a multiple of 2 to the 64. */
  lemma WrapTakes(x: int) returns (k: int)
    ensures Wrap(x) == x - k * INT64 && -MAX - 1 <= Wrap(x) <= MAX
  {
    k := (x + MAX + 1) / INT64;
  }

  lemma WrapOnly(x: int, y: int, k: int)
    requires y == x - k * INT64 && -MAX - 1 <= y <= MAX
    ensures y == Wrap(x)
  {
    var j := WrapTakes(x);
    assert Wrap(x) - y == (k - j) * INT64;
  }

  lemma WrapStep(x: int, d: int)
    ensures Wrap(Wrap(x) * 10 + d) == Wrap(x * 10 + d)
  {
    hide Wrap;
    var j := WrapTakes(x);
    var k := WrapTakes(Wrap(x) * 10 + d);
    WrapOnly(x * 10 + d, Wrap(Wrap(x) * 10 + d), k + 10 * j);
  }

  lemma ValueSnoc(t: string, c: char)
    ensures Value(t + [c]) == Value(t) * 10 + (c as int - '0' as int)
  {
    assert (t + [c])[..|t|] == t;
  }

  /** What is read from any text is the number its digits stand for, wrapped once to an int64. */
  lemma {:induction false} ParsedExactly(s: string)
    ensures Parsed(s) == Wrap(Value(Figures(s)))
  {
    if s != "" {
      var front, c := s[..|s| - 1], s[|s| - 1];
      ParsedExactly(front);
      hide Wrap;
      if IsDigit(c) {
        ValueSnoc(Figures(front), c);
        WrapStep(Value(Figures(front)), c as int - '0' as int);
      } else {
        assert Figures(front) + "" == Figures(front);
      }
    }
  }

  // ------------------------------------------------- units

  function Pow1024(k: nat): nat {
    if k == 0 then 1 else 1024 * Pow1024(k - 1)
  }

  const UNITS := "KMGTPE"

  lemma {:induction false} Pow1024Grows(i: nat, j: nat)
    requires i <= j
    ensures 1 <= Pow1024(i) <= Pow1024(j)
  {
    if i < j {
      Pow1024Grows(i, j - 1);
    } else if i > 0 {
      Pow1024Grows(i - 1, i - 1);
    }
  }

  /** The loop of ByteCountIEC, FormatSpeed and FormatBytes, for counts of at least one unit. */
  method ChooseUnit(b: int) returns (div: int, exp: int, unit: char)
    requires 1024 <= b <= MAX
    ensures 0 <= exp < |UNITS| && unit == UNITS[exp]
    ensures div == Pow1024(exp + 1) && div <= b < 1024 * div
    ensures div <= MAX
  {
    div, exp := 1024, 0;
    var n := b / 1024;
    assert Pow1024(1) == 1024 * Pow1024(0);
    while n >= 1024
      invariant 0 <= exp && n >= 1 && div == Pow1024(exp + 1)
      invariant n * div <= b < (n + 1) * div
    {
      Scaled(n, div, b);
      div := div * 1024;
      exp := exp + 1;
      n := n / 1024;
    }
    Bracket(n, div, b);
    if exp >= 6 {
      Pow1024Grows(7, exp + 1);
      Pow1024At7();
    }
    unit := UNITS[exp];
  }

  lemma Pow1024At7()
    ensures Pow1024(7) > MAX
  {
    assert Pow1024(3) == 1024 * 1024 * 1024;
    assert Pow1024(5) == 1024 * 1024 * Pow1024(3);
    assert Pow1024(7) == 1024 * 1024 * Pow1024(5);
  }

  lemma Scaled(n: nat, div: nat, b: int)
    requires n * div <= b < (n + 1) * div
    ensures n / 1024 * (div * 1024) <= b < (n / 1024 + 1) * (div * 1024)
  {
    ScaledBy(n / 1024, n % 1024, div, b);
  }

  lemma ScaledBy(q: nat, r: nat, div: nat, b: int)
    requires r < 1024 && (q * 1024 + r) * div <= b < (q * 1024 + r + 1) * div
    ensures q * (div * 1024) <= b < (q + 1) * (div * 1024)
  {
    Split(q * 1024, r, div);
    Split(q * 1024, r + 1, div);
    Split(r + 1, 1024 - (r + 1), div);
    assert q * (div * 1024) == q * 1024 * div;
    assert (q + 1) * (div * 1024) == q * (div * 1024) + div * 1024;
    assert r * div >= 0 && (1024 - (r + 1)) * div >= 0;
  }

  lemma Split(x: int, y: int, div: int)
    ensures (x + y) * div == x * div + y * div
  {
  }

  lemma Bracket(n: nat, div: nat, b: int)
    requires 1 <= n < 1024 && n * div <= b < (n + 1) * div
    ensures div <= b < 1024 * div
  {
    var more, less := n - 1, 1024 - (n + 1);
    Split(more, 1, div);
    Split(n + 1, less, div);
    assert more * div >= 0 && less * div >= 0;
  }

  lemma NoLargerUnit(b: int, i: nat, j: nat)
    requires b < 1024 * Pow1024(i) && Pow1024(j) <= b
    ensures j <= i
  {
    if i < j {
      Pow1024Grows(i + 1, j);
    }
  }

  /** The unit is the only one that puts the count between 1 and 1024. */
  lemma UnitIsUnique(b: int, i: nat, j: nat)
    requires Pow1024(i) <= b < 1024 * Pow1024(i) && Pow1024(j) <= b < 1024 * Pow1024(j)
    ensures i == j
  {
    NoLargerUnit(b, i, j);
    NoLargerUnit(b, j, i);
  }
}
