/** Unsigned decimal text: what BigInt(text), bigint.toString(), LTRIM(text, '0') and String.trim() compute. */
module Decimal {

  predicate IsDigit(c: char) { '0' <= c <= '9' }

  predicate Digits(s: string) { forall i :: 0 <= i < |s| ==> IsDigit(s[i]) }

  function Digit(c: char): (d: nat)
    requires IsDigit(c)
    ensures d < 10
  {
    (c - '0') as nat
  }

  function DigitChar(d: nat): (c: char)
    requires d < 10
    ensures IsDigit(c) && Digit(c) == d && (c == '0' <==> d == 0)
  {
    '0' + d as char
  }

  /** The number a digit string denotes, in any number of leading zeros. */
  function Val(s: string): nat
    requires Digits(s)
  {
    if s == "" then 0 else 10 * Val(s[..|s| - 1]) + Digit(s[|s| - 1])
  }

  /** Canonical text of a number. */
  function ToDec(n: nat): (s: string)
    ensures Digits(s) && s != "" && (n > 0 ==> s[0] != '0')
    decreases n
  {
    if n < 10 then [DigitChar(n)] else ToDec(n / 10) + [DigitChar(n % 10)]
  }

  /** Text of any integer. */
  function IntText(n: int): string { if n < 0 then "-" + ToDec(-n) else ToDec(n) }

  function Pow10(n: nat): (p: nat)
    ensures p >= 1
  {
    if n == 0 then 1 else 10 * Pow10(n - 1)
  }

  /** Text without its leading zeros. */
  function Strip(s: string): (r: string)
    ensures Digits(s) ==> Digits(r)
    ensures r == "" || r[0] != '0'
  {
    if s != "" && s[0] == '0' then Strip(s[1..]) else s
  }

  /** Leading zeros removed, with "0" for zero. */
  function Normal(s: string): string {
    if Strip(s) == "" then "0" else Strip(s)
  }

  predicate Canonical(s: string) { Digits(s) && s != "" && (s == "0" || s[0] != '0') }

  // ---------------------------------------------------------------- round trips

  lemma ValSnoc(s: string, c: char)
    requires Digits(s) && IsDigit(c)
    ensures Digits(s + [c]) && Val(s + [c]) == 10 * Val(s) + Digit(c)
  {
    assert (s + [c])[..|s|] == s;
  }

  /** Printing and reading back a number returns it. */
  lemma {:induction false} ValToDec(n: nat)
    ensures Val(ToDec(n)) == n
    decreases n
  {
    if n < 10 {
      assert ToDec(n) == "" + [DigitChar(n)];
      ValSnoc("", DigitChar(n));
    } else {
      ValToDec(n / 10);
      ValSnoc(ToDec(n / 10), DigitChar(n % 10));
    }
  }

  lemma ToDecInjective(m: nat, n: nat)
    requires ToDec(m) == ToDec(n)
    ensures m == n
  {
    ValToDec(m);
    ValToDec(n);
  }

  lemma {:induction false} DigitChars(c: char)
    requires IsDigit(c)
    ensures DigitChar(Digit(c)) == c
  {
  }

  lemma {:induction false} ValPositive(s: string)
    requires Digits(s) && s != "" && s[0] != '0'
    ensures Val(s) > 0
  {
    if |s| > 1 { ValPositive(s[..|s| - 1]); }
  }

  /** Reading and printing back canonical text returns it. */
  lemma {:induction false} ToDecVal(s: string)
    requires Canonical(s)
    ensures ToDec(Val(s)) == s
  {
    var n := |s| - 1;
    var head, last := s[..n], s[n];
    assert s == head + [last];
    DigitChars(last);
    if n == 0 {
      assert head == "";
    } else {
      ValPositive(head);
      ToDecVal(head);
      hide Val, ToDec;
      ValSnoc(head, last);
      ToDecSnoc(Val(head), Digit(last));
    }
  }

  lemma ToDecSnoc(n: nat, d: nat)
    requires n > 0 && d < 10
    ensures ToDec(10 * n + d) == ToDec(n) + [DigitChar(d)]
  {
    assert (10 * n + d) / 10 == n && (10 * n + d) % 10 == d;
  }

  lemma Tenfold(d: nat, p: nat)
    ensures d * (10 * p) == 10 * (d * p)
  {
  }

  lemma {:induction false} ValCons(c: char, s: string)
    requires IsDigit(c) && Digits(s)
    ensures Digits([c] + s) && Val([c] + s) == Digit(c) * Pow10(|s|) + Val(s)
  {
    var t := [c] + s;
    if s == "" {
      assert t == "" + [c];
      ValSnoc("", c);
    } else {
      var n := |s| - 1;
      ValCons(c, s[..n]);
      assert t == ([c] + s[..n]) + [s[n]];
      ValSnoc([c] + s[..n], s[n]);
      Tenfold(Digit(c), Pow10(n));
    }
  }

  lemma {:induction false} StripVal(s: string)
    requires Digits(s)
    ensures Val(Strip(s)) == Val(s)
  {
    if s != "" && s[0] == '0' {
      StripVal(s[1..]);
      assert s == ['0'] + s[1..];
      ValCons('0', s[1..]);
    }
  }

  /** Stripping leading zeros is the same as reading the number and printing it. */
  lemma NormalIsToDec(s: string)
    requires Digits(s)
    ensures Canonical(Normal(s)) && Val(Normal(s)) == Val(s) && Normal(s) == ToDec(Val(s))
  {
    StripVal(s);
    if Strip(s) == "" {
      assert "0" == "" + ['0'];
      ValSnoc("", '0');
    }
    ToDecVal(Normal(s));
  }

  // ---------------------------------------------------------------- text order and numeric order

  /** Binary collation: the first differing character decides, a proper prefix comes first. */
  predicate TextLess(a: string, b: string) {
    if b == "" then false
    else if a == "" then true
    else if a[0] != b[0] then a[0] < b[0]
    else TextLess(a[1..], b[1..])
  }

  /** Order by length, then by text. */
  predicate LengthTextLess(a: string, b: string) {
    |a| < |b| || (|a| == |b| && TextLess(a, b))
  }

  lemma {:induction false} ValBelow(s: string)
    requires Digits(s)
    ensures Val(s) < Pow10(|s|)
  {
    if s != "" { ValBelow(s[..|s| - 1]); }
  }

  lemma AtLeastOnce(k: nat, p: nat)
    requires k >= 1
    ensures k * p >= p
  {
    assert (k - 1) * p >= 0;
    assert k * p == (k - 1) * p + p;
  }

  lemma DigitGap(c: nat, d: nat, p: nat, x: nat, y: nat)
    requires c < d && x < p
    ensures c * p + x < d * p + y
  {
    AtLeastOnce(d - c, p);
    SplitProduct(c, d - c, p);
  }

  lemma SplitProduct(a: nat, b: nat, p: nat)
    ensures (a + b) * p == a * p + b * p
  {
  }

  lemma {:induction false} SameLengthOrder(a: string, b: string)
    requires Digits(a) && Digits(b) && |a| == |b|
    ensures TextLess(a, b) <==> Val(a) < Val(b)
  {
    if a != "" {
      var x, y := a[1..], b[1..];
      assert a == [a[0]] + x && b == [b[0]] + y;
      ValCons(a[0], x);
      ValCons(b[0], y);
      ValBelow(x);
      ValBelow(y);
      SameLengthOrder(x, y);
      if a[0] < b[0] {
        DigitGap(Digit(a[0]), Digit(b[0]), Pow10(|x|), Val(x), Val(y));
      } else if b[0] < a[0] {
        DigitGap(Digit(b[0]), Digit(a[0]), Pow10(|x|), Val(y), Val(x));
      }
    }
  }

  lemma {:induction false} Pow10Monotone(m: nat, n: nat)
    requires m <= n
    ensures Pow10(m) <= Pow10(n)
  {
    if m < n { Pow10Monotone(m, n - 1); }
  }

  lemma LongerIsGreater(a: string, b: string)
    requires Digits(a) && a != "" && Canonical(b) && |a| < |b|
    ensures Val(a) < Val(b)
  {
    ValBelow(a);
    Pow10Monotone(|a|, |b| - 1);
    assert b == [b[0]] + b[1..];
    ValCons(b[0], b[1..]);
    AtLeastOnce(Digit(b[0]), Pow10(|b| - 1));
  }

  /** For canonical text of any length, ordering by (length, text) is ordering by value. */
  lemma CanonicalOrder(a: string, b: string)
    requires Canonical(a) && Canonical(b)
    ensures LengthTextLess(a, b) <==> Val(a) < Val(b)
    ensures a == b <==> Val(a) == Val(b)
  {
    if |a| == |b| {
      SameLengthOrder(a, b);
    } else if |a| < |b| {
      LongerIsGreater(a, b);
    } else {
      LongerIsGreater(b, a);
    }
    ToDecVal(a);
    ToDecVal(b);
  }

  /** Binary collation is a strict total order. */
  lemma {:induction false} TextLessTotal(a: string, b: string)
    ensures a == b || TextLess(a, b) || TextLess(b, a)
    ensures !(TextLess(a, b) && TextLess(b, a)) && !TextLess(a, a)
  {
    if a != "" && b != "" {
      TextLessTotal(a[1..], b[1..]);
      assert a == [a[0]] + a[1..] && b == [b[0]] + b[1..];
    }
    if a != "" { TextLessTotal(a[1..], a[1..]); }
  }

  lemma {:induction false} TextLessTransitive(a: string, b: string, c: string)
    requires TextLess(a, b) && TextLess(b, c)
    ensures TextLess(a, c)
  {
    if a != "" && a[0] == b[0] == c[0] { TextLessTransitive(a[1..], b[1..], c[1..]); }
  }

  // ---------------------------------------------------------------- powers of ten

  lemma {:induction false} PowSplit(a: nat, b: nat)
    ensures Pow10(a + b) == Pow10(a) * Pow10(b)
  {
    if a > 0 {
      PowSplit(a - 1, b);
      Assoc(10, Pow10(a - 1), Pow10(b));
    }
  }

  lemma Assoc(a: int, b: int, c: int)
    ensures a * (b * c) == (a * b) * c
  {
  }

  lemma {:induction false} ShortText(f: nat, k: nat)
    requires f < Pow10(k) && k > 0
    ensures |ToDec(f)| <= k
  {
    if f >= 10 { ShortText(f / 10, k - 1); }
  }

  const TEN_TO_39: nat := 1_000_000_000_000_000_000_000_000_000_000_000_000_000

  lemma TenTo78()
    ensures Pow10(78) == TEN_TO_39 * TEN_TO_39 == 10 * Pow10(77)
  {
    assert Pow10(3) == 1_000;
    assert Pow10(6) == 1_000_000 by { PowSplit(3, 3); }
    assert Pow10(12) == 1_000_000_000_000 by { PowSplit(6, 6); }
    assert Pow10(13) == 10_000_000_000_000;
    assert Pow10(26) == 100_000_000_000_000_000_000_000_000 by { PowSplit(13, 13); }
    assert Pow10(39) == TEN_TO_39 by { PowSplit(26, 13); }
    PowSplit(39, 39);
  }

  lemma LongText(n: nat, k: nat)
    requires n >= Pow10(k)
    ensures |ToDec(n)| > k
  {
    hide ToDec, Val;
    ValToDec(n);
    ValBelow(ToDec(n));
    if |ToDec(n)| <= k { Pow10Monotone(|ToDec(n)|, k); }
  }

  // ---------------------------------------------------------------- trimming

  /** ECMAScript white space and line terminators. */
  predicate IsSpace(c: char) {
    || '\t' <= c <= '\r'
    || c == ' ' || c == '\U{00A0}' || c == '\U{1680}' || '\U{2000}' <= c <= '\U{200A}'
    || c == '\U{2028}' || c == '\U{2029}' || c == '\U{202F}' || c == '\U{205F}' || c == '\U{3000}' || c == '\U{FEFF}'
  }

  predicate Blank(s: string) { forall i :: 0 <= i < |s| ==> IsSpace(s[i]) }

  function TrimStart(s: string): string {
    if s != "" && IsSpace(s[0]) then TrimStart(s[1..]) else s
  }

  function TrimEnd(s: string): string {
    if s != "" && IsSpace(s[|s| - 1]) then TrimEnd(s[..|s| - 1]) else s
  }

  function Trim(s: string): string { TrimEnd(TrimStart(s)) }

  /** Digits are not white space, so trimming leaves a digit string alone. */
  lemma TrimDigits(s: string)
    requires Digits(s)
    ensures Trim(s) == s
  {
  }

  lemma {:induction false} TrimStartPadded(a: string, s: string)
    requires Blank(a) && s != "" && !IsSpace(s[0])
    ensures TrimStart(a + s) == s
  {
    if a == "" {
      assert a + s == s;
    } else {
      assert (a + s)[1..] == a[1..] + s && IsSpace((a + s)[0]);
      TrimStartPadded(a[1..], s);
    }
  }

  lemma {:induction false} TrimEndPadded(s: string, b: string)
    requires Blank(b) && s != "" && !IsSpace(s[|s| - 1])
    ensures TrimEnd(s + b) == s
  {
    if b == "" {
      assert s + b == s;
    } else {
      var n := |b| - 1;
      assert (s + b)[..|s + b| - 1] == s + b[..n] && (s + b)[|s + b| - 1] == b[n];
      TrimEndPadded(s, b[..n]);
    }
  }

  /** Trimming takes white space off both ends and nothing else. */
  lemma TrimPadded(a: string, s: string, b: string)
    requires Blank(a) && Blank(b) && s != "" && !IsSpace(s[0]) && !IsSpace(s[|s| - 1])
    ensures Trim(a + s + b) == s
  {
    hide TrimStart, TrimEnd, IsSpace;
    assert a + s + b == a + (s + b) && (s + b)[0] == s[0];
    TrimStartPadded(a, s + b);
    TrimEndPadded(s, b);
  }

  lemma {:induction false} TrimStartParts(s: string) returns (a: string)
    ensures Blank(a) && s == a + TrimStart(s)
  {
    if s != "" && IsSpace(s[0]) {
      var rest := TrimStartParts(s[1..]);
      a := [s[0]] + rest;
    } else {
      a := "";
    }
  }

  lemma {:induction false} TrimEndParts(s: string) returns (b: string)
    ensures Blank(b) && s == TrimEnd(s) + b
  {
    if s != "" && IsSpace(s[|s| - 1]) {
      var n := |s| - 1;
      var rest := TrimEndParts(s[..n]);
      b := rest + [s[n]];
      assert s == s[..n] + [s[n]];
    } else {
      b := "";
    }
  }

  lemma TrimParts(s: string) returns (a: string, b: string)
    ensures Blank(a) && Blank(b) && s == a + Trim(s) + b
  {
    hide TrimStart, TrimEnd, IsSpace;
    a := TrimStartParts(s);
    b := TrimEndParts(TrimStart(s));
  }
}
