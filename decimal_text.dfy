/** Decimal text of non-negative integers: what Python's `str()` produces for
    them, the value a digit string stands for, and a reader that picks every
    maximal run of digits out of a text (splitting on everything else). */
module DecimalText {

  predicate IsDigit(c: char) { '0' <= c <= '9' }

  predicate AllDigits(s: string) { forall i :: 0 <= i < |s| ==> IsDigit(s[i]) }

  predicate NoDigits(s: string) { forall i :: 0 <= i < |s| ==> !IsDigit(s[i]) }

  /** The shape of `str(n)` for n >= 0: digits only, at least one, and no
      leading zero unless the whole text is "0". */
  predicate Canonical(s: string) { |s| > 0 && AllDigits(s) && (|s| == 1 || s[0] != '0') }

  function DigitChar(d: nat): (c: char)
    requires d < 10
    ensures IsDigit(c) && c as int - '0' as int == d
  {
    ('0' as int + d) as char
  }

  function DigitValue(c: char): (d: nat)
    requires IsDigit(c)
    ensures d < 10 && DigitChar(d) == c
  {
    c as int - '0' as int
  }

  /** `str(n)` for a non-negative integer n, most significant digit first. */
  function Decimal(n: nat): (s: string)
    ensures Canonical(s)
    ensures n > 0 ==> s[0] != '0'
  {
    if n < 10 then [DigitChar(n)] else Decimal(n / 10) + [DigitChar(n % 10)]
  }

  /** The number a digit string denotes (Python's `int(s)` on such a string). */
  function ParseDecimal(s: string): nat
    requires AllDigits(s)
  {
    if s == [] then 0 else ParseDecimal(s[..|s| - 1]) * 10 + DigitValue(s[|s| - 1])
  }

  /** Reading back the decimal text of n gives n. */
  lemma {:induction false} DecimalRoundTrip(n: nat)
    ensures ParseDecimal(Decimal(n)) == n
  {
    var s := Decimal(n);
    if n >= 10 {
      assert s[..|s| - 1] == Decimal(n / 10);
      DecimalRoundTrip(n / 10);
    }
  }

  lemma {:induction false} ParsePositive(s: string)
    requires |s| > 0 && AllDigits(s) && s[0] != '0'
    ensures ParseDecimal(s) >= 1
  {
    if |s| > 1 {
      ParsePositive(s[..|s| - 1]);
    }
  }

  /** Conversely, every canonical digit string is the decimal text of the
      number it denotes, so `Decimal` and `ParseDecimal` are inverse bijections
      between naturals and canonical strings. */
  lemma {:induction false} ParseRoundTrip(s: string)
    requires Canonical(s)
    ensures Decimal(ParseDecimal(s)) == s
  {
    if |s| > 1 {
      var init := s[..|s| - 1];
      ParsePositive(init);
      ParseRoundTrip(init);
      var m, d := ParseDecimal(init), DigitValue(s[|s| - 1]);
      assert (m * 10 + d) / 10 == m && (m * 10 + d) % 10 == d;
      assert s == init + [s[|s| - 1]];
    }
  }

  /** Length of the run of digits that starts s. */
  function DigitRun(s: string): (k: nat)
    ensures k <= |s|
    ensures AllDigits(s[..k])
    ensures k < |s| ==> !IsDigit(s[k])
  {
    if s == [] || !IsDigit(s[0]) then 0 else 1 + DigitRun(s[1..])
  }

  /** The numbers written in s, in order of appearance: every maximal run of
      digits read as one number, everything else treated as a separator. */
  function Numbers(s: string): seq<nat>
    decreases |s|
  {
    if s == [] then []
    else if !IsDigit(s[0]) then Numbers(s[1..])
    else
      var k := DigitRun(s);
      [ParseDecimal(s[..k])] + Numbers(s[k..])
  }

  lemma {:induction false} DigitRunAppend(p: string, q: string)
    requires q == [] || !IsDigit(q[0]) || DigitRun(p) < |p|
    ensures DigitRun(p + q) == DigitRun(p)
  {
    if p != [] && IsDigit(p[0]) {
      assert (p + q)[1..] == p[1..] + q;
      DigitRunAppend(p[1..], q);
    }
  }

  lemma {:induction false} NumbersOfNoDigits(s: string)
    requires NoDigits(s)
    ensures Numbers(s) == []
  {
    if s != [] {
      NumbersOfNoDigits(s[1..]);
    }
  }

  /** Text with no digits contributes no numbers, and a number standing alone
      is read back as itself. */
  lemma NumbersOfDecimal(n: nat)
    ensures Numbers(Decimal(n)) == [n]
  {
    var s := Decimal(n);
    assert DigitRun(s) == |s|;
    assert s[..|s|] == s;
    DecimalRoundTrip(n);
  }

  /** Reading numbers distributes over concatenation, provided the cut does
      not fall inside a run of digits. */
  lemma {:induction false} NumbersAppend(p: string, q: string)
    requires p == [] || q == [] || !IsDigit(p[|p| - 1]) || !IsDigit(q[0])
    ensures Numbers(p + q) == Numbers(p) + Numbers(q)
    decreases |p|
  {
    if p == [] {
      assert p + q == q;
    } else if !IsDigit(p[0]) {
      NumbersAppend(p[1..], q);
      NumbersAppendSkip(p, q);
    } else if DigitRun(p) < |p| {
      NumbersAppend(p[DigitRun(p)..], q);
      NumbersAppendRun(p, q);
    } else {
      NumbersAppendNumber(p, q);
    }
  }

  /** The step of `NumbersAppend` past a leading separator. */
  lemma NumbersAppendSkip(p: string, q: string)
    requires p != [] && !IsDigit(p[0])
    requires Numbers(p[1..] + q) == Numbers(p[1..]) + Numbers(q)
    ensures Numbers(p + q) == Numbers(p) + Numbers(q)
  {
    assert (p + q)[1..] == p[1..] + q;
  }

  /** The step of `NumbersAppend` past a leading run of digits that ends
      inside p. */
  lemma NumbersAppendRun(p: string, q: string)
    requires p != [] && IsDigit(p[0]) && DigitRun(p) < |p|
    requires Numbers(p[DigitRun(p)..] + q) == Numbers(p[DigitRun(p)..]) + Numbers(q)
    ensures Numbers(p + q) == Numbers(p) + Numbers(q)
  {
    var k := DigitRun(p);
    var n := ParseDecimal(p[..k]);
    assert Numbers(p + q) == [n] + Numbers(p[k..] + q) by {
      DigitRunAppend(p, q);
      assert (p + q)[..k] == p[..k];
      assert (p + q)[k..] == p[k..] + q;
    }
    assert Numbers(p) == [n] + Numbers(p[k..]);
  }

  /** `NumbersAppend` when p is a single number and q starts with a
      separator. */
  lemma NumbersAppendNumber(p: string, q: string)
    requires p != [] && IsDigit(p[0]) && DigitRun(p) == |p|
    requires q == [] || !IsDigit(p[|p| - 1]) || !IsDigit(q[0])
    ensures Numbers(p + q) == Numbers(p) + Numbers(q)
  {
    var k := DigitRun(p);
    var n := ParseDecimal(p[..k]);
    assert Numbers(p + q) == [n] + Numbers(q) by {
      assert p[..k] == p;
      assert q == [] || !IsDigit(q[0]);
      DigitRunAppend(p, q);
      assert (p + q)[..k] == p[..k];
      assert (p + q)[k..] == q;
    }
    assert Numbers(p) == [n] by {
      assert p[k..] == [];
    }
  }

  /** s with every digit deleted: the layout around the numbers. */
  function NonDigits(s: string): (t: string)
    ensures NoDigits(t) && |t| <= |s|
  {
    if s == [] then []
    else if IsDigit(s[|s| - 1]) then NonDigits(s[..|s| - 1])
    else NonDigits(s[..|s| - 1]) + [s[|s| - 1]]
  }

  /** Deleting digits distributes over concatenation. */
  lemma {:induction false} NonDigitsAppend(p: string, q: string)
    ensures NonDigits(p + q) == NonDigits(p) + NonDigits(q)
    decreases |q|
  {
    if q == [] {
      assert p + q == p;
    } else {
      var init := q[..|q| - 1];
      assert (p + q)[..|p + q| - 1] == p + init;
      NonDigitsAppend(p, init);
    }
  }

  /** Digit strings vanish, and text without digits is left as it is. */
  lemma {:induction false} NonDigitsOfDigits(s: string)
    ensures AllDigits(s) ==> NonDigits(s) == []
    ensures NoDigits(s) ==> NonDigits(s) == s
  {
    if s != [] {
      NonDigitsOfDigits(s[..|s| - 1]);
      assert s == s[..|s| - 1] + [s[|s| - 1]];
    }
  }
}
