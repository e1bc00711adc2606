/** What the text of numeric2string means: a leading '-' exactly for the
    negative sign word, a '.' exactly when the scale is positive, dscale
    fraction digits that are the zero-padded base-10000 digits after the
    point, and an integer part that reads back as the base-10000 number. */
module NumericProperties {
  import opened Numeric
  import opened Bytes

  // ---------------------------------------------------------------------
  // Reference definitions.

  /** The four decimal digits of a base-10000 digit, with leading zeros. */
  function Digits4(v: int): (s: string)
    requires 0 <= v <= 9999
    ensures |s| == 4
  {
    [DigitChar(v / 1000), DigitChar(v / 100 % 10), DigitChar(v / 10 % 10), DigitChar(v % 10)]
  }

  function CharValue(c: char): int
  {
    c as int - '0' as int
  }

  /** The number a string of decimal digits denotes. */
  function DecValue(s: string): int
  {
    if s == [] then 0 else DecValue(s[..|s| - 1]) * 10 + CharValue(s[|s| - 1])
  }

  function Pow10(k: nat): nat
  {
    if k == 0 then 1 else 10 * Pow10(k - 1)
  }

  /** Base-10000 digit t of the integer part, 0 past the end of the digits. */
  function GroupValue(n: Numeric, t: nat): int
  {
    if t < |n.digits| then n.digits[t] else 0
  }

  /** The integer part of the value: groups 0 .. count-1 read as a
      base-10000 number. */
  function Horner(n: Numeric, count: nat): int
  {
    if count == 0 then 0 else Horner(n, count - 1) * 10000 + GroupValue(n, count - 1)
  }

  function IntegerValue(n: Numeric): int
  {
    if n.weight < 0 then 0 else Horner(n, n.weight + 1)
  }

  predicate NoDot(s: string)
  {
    '.' !in s
  }

  // ---------------------------------------------------------------------
  // Digit strings.

  lemma SingleDigit(q: int)
    requires 0 <= q <= 9
    ensures IntToString(q) == [DigitChar(q)]
  {
  }

  lemma IntToStringNoDot(v: int)
    ensures NoDot(IntToString(v))
    decreases if v < 0 then 1 else 0
  {
    if v < 0 {
      IntToStringNoDot(-v);
    }
  }

  lemma NoDotAppend(a: string, b: string)
    requires NoDot(a) && NoDot(b)
    ensures NoDot(a + b)
  {
  }

  lemma DecValueSnoc(a: string, c: char)
    ensures DecValue(a + [c]) == DecValue(a) * 10 + CharValue(c)
  {
    assert (a + [c])[..|a|] == a;
  }

  lemma ShiftByOneDigit(x: int, p: int, y: int, d: int)
    ensures (x * p + y) * 10 + d == x * (10 * p) + (y * 10 + d)
  {
  }

  lemma {:induction false} DecValueAppend(a: string, b: string)
    ensures DecValue(a + b) == DecValue(a) * Pow10(|b|) + DecValue(b)
    decreases |b|
  {
    if b == [] {
      assert a + b == a;
    } else {
      var b0, c := b[..|b| - 1], b[|b| - 1];
      assert b == b0 + [c];
      assert a + b == (a + b0) + [c];
      DecValueSnoc(a + b0, c);
      DecValueSnoc(b0, c);
      DecValueAppend(a, b0);
      ShiftByOneDigit(DecValue(a), Pow10(|b0|), DecValue(b0), CharValue(c));
    }
  }

  lemma {:induction false} NatToStringValue(m: nat)
    ensures DecValue(NatToString(m)) == m
    decreases m
  {
    if m < 10 {
      DecValueSnoc([], DigitChar(m));
      assert [] + [DigitChar(m)] == [DigitChar(m)];
    } else {
      NatToStringValue(m / 10);
      DecValueSnoc(NatToString(m / 10), DigitChar(m % 10));
    }
  }

  /** The positional facts of a number below 10000 that the digit lemmas
      use, kept apart from any string reasoning. */
  lemma DigitArithmetic(v: int)
    requires 0 <= v <= 9999
    ensures 0 <= v / 1000 <= 9
    ensures v / 10 / 10 == v / 100 && v / 100 / 10 == v / 1000
    ensures v % 1000 / 100 == v / 100 % 10
    ensures v % 1000 % 100 / 10 == v / 10 % 10
    ensures v % 1000 % 100 % 10 == v % 10
    ensures v == v / 1000 * 1000 + v / 100 % 10 * 100 + v / 10 % 10 * 10 + v % 10
  {
  }

  lemma Digits4Value(v: int)
    requires 0 <= v <= 9999
    ensures DecValue(Digits4(v)) == v
  {
    DigitArithmetic(v);
    var c0, c1, c2, c3 := DigitChar(v / 1000), DigitChar(v / 100 % 10), DigitChar(v / 10 % 10), DigitChar(v % 10);
    DecValueSnoc([], c0);
    assert [] + [c0] == [c0];
    DecValueSnoc([c0], c1);
    assert [c0] + [c1] == [c0, c1];
    DecValueSnoc([c0, c1], c2);
    assert [c0, c1] + [c2] == [c0, c1, c2];
    DecValueSnoc([c0, c1, c2], c3);
    assert [c0, c1, c2] + [c3] == Digits4(v);
  }

  /** A padded group is the four-digit form of its digit. */
  lemma PadDigits(v: int)
    requires 0 <= v <= 9999
    ensures Pad(v) + IntToString(v) == Digits4(v)
  {
    DigitArithmetic(v);
    if v < 10 {
      assert IntToString(v) == [DigitChar(v)];
    } else if v < 100 {
      assert NatToString(v / 10) == [DigitChar(v / 10)];
      assert IntToString(v) == [DigitChar(v / 10), DigitChar(v % 10)];
    } else if v < 1000 {
      assert NatToString(v / 10 / 10) == [DigitChar(v / 100)];
      assert NatToString(v / 10) == [DigitChar(v / 100), DigitChar(v / 10 % 10)];
      assert IntToString(v) == [DigitChar(v / 100), DigitChar(v / 10 % 10), DigitChar(v % 10)];
    } else {
      assert NatToString(v / 10 / 10 / 10) == [DigitChar(v / 1000)];
      assert NatToString(v / 10 / 10) == [DigitChar(v / 1000), DigitChar(v / 100 % 10)];
      assert NatToString(v / 10) == [DigitChar(v / 1000), DigitChar(v / 100 % 10), DigitChar(v / 10 % 10)];
      assert IntToString(v) == Digits4(v);
    }
  }

  /** The fraction of one group is a prefix of its four-digit form. */
  lemma GroupStrDigits(v: int, r: nat)
    requires 0 <= v <= 9999 && r <= 4
    ensures GroupStr(v, r) == Digits4(v)[..r]
  {
    DigitArithmetic(v);
    var a := v % 1000;
    var b := a % 100;
    assert TDiv(v, 1000) == v / 1000 && TRem(v, 1000) == a;
    assert TDiv(a, 100) == v / 100 % 10 && TRem(a, 100) == b;
    assert TDiv(b, 10) == v / 10 % 10 && TRem(b, 10) == v % 10;
    var d := Digits4(v);
    var p1 := if r >= 1 then [d[0]] else "";
    var p2 := if r >= 2 then [d[1]] else "";
    var p3 := if r >= 3 then [d[2]] else "";
    var p4 := if r >= 4 then [d[3]] else "";
    assert GroupStr(v, r) == p1 + p2 + p3 + p4;
  }

  // ---------------------------------------------------------------------
  // The decimal point.

  lemma IntGroupNoDot(n: Numeric, t: nat)
    ensures NoDot(IntGroup(n, t))
  {
    if t < |n.digits| {
      IntToStringNoDot(n.digits[t]);
      var pad := if t == 0 then "" else Pad(n.digits[t]);
      NoDotAppend(pad, IntToString(n.digits[t]));
    }
  }

  lemma AllIntGroupsNoDot(n: Numeric)
    ensures forall t: nat :: NoDot(IntGroup(n, t))
  {
    forall t: nat
      ensures NoDot(IntGroup(n, t))
    {
      IntGroupNoDot(n, t);
    }
  }

  lemma {:induction false} IntGroupsNoDot(n: Numeric, count: nat)
    requires forall t: nat :: NoDot(IntGroup(n, t))
    ensures NoDot(IntGroups(n, count))
    decreases count
  {
    if count > 0 {
      IntGroupsNoDot(n, count - 1);
    }
  }

  lemma GroupStrNoDot(v: int, r: nat)
    requires r <= 4
    ensures NoDot(GroupStr(v, r))
  {
    var a := TRem(v, 1000);
    var b := TRem(a, 100);
    IntToStringNoDot(TDiv(v, 1000));
    IntToStringNoDot(TDiv(a, 100));
    IntToStringNoDot(TDiv(b, 10));
    IntToStringNoDot(TRem(b, 10));
    var p1 := if r >= 1 then IntToString(TDiv(v, 1000)) else "";
    var p2 := if r >= 2 then IntToString(TDiv(a, 100)) else "";
    var p3 := if r >= 3 then IntToString(TDiv(b, 10)) else "";
    var p4 := if r >= 4 then IntToString(TRem(b, 10)) else "";
    NoDotAppend(p1, p2);
    NoDotAppend(p1 + p2, p3);
    NoDotAppend(p1 + p2 + p3, p4);
  }

  lemma AllGroupStrNoDot()
    ensures forall v: int, r: nat :: r <= 4 ==> NoDot(GroupStr(v, r))
  {
    forall v: int, r: nat | r <= 4
      ensures NoDot(GroupStr(v, r))
    {
      GroupStrNoDot(v, r);
    }
  }

  lemma {:induction false} FracPartNoDot(n: Numeric, u: nat, rem: int)
    requires forall v: int, r: nat :: r <= 4 ==> NoDot(GroupStr(v, r))
    ensures NoDot(FracPart(n, u, rem))
    decreases rem
  {
    if rem > 0 {
      FracPartNoDot(n, u + 1, rem - Min(4, rem));
    }
  }

  /** The text has a '.' exactly when the scale is positive, and then only
      one, right after the sign and the integer part. */
  lemma DotIffScale(n: Numeric)
    ensures ('.' in NumericText(n)) <==> n.dscale > 0
    ensures n.dscale > 0 ==>
              var k := |(if n.sign == NUMERIC_NEG then "-" else "") + IntegerPart(n)|;
              NumericText(n)[k] == '.'
              && forall j :: 0 <= j < |NumericText(n)| && j != k ==> NumericText(n)[j] != '.'
  {
    var sign := if n.sign == NUMERIC_NEG then "-" else "";
    if n.weight >= 0 {
      AllIntGroupsNoDot(n);
      IntGroupsNoDot(n, n.weight + 1);
    }
    NoDotAppend(sign, IntegerPart(n));
    var whole := sign + IntegerPart(n);
    if n.dscale > 0 {
      var frac := FracPart(n, 0, n.dscale);
      AllGroupStrNoDot();
      FracPartNoDot(n, 0, n.dscale);
      assert NumericText(n) == whole + ("." + frac);
      OnlyDot(whole, frac);
    } else {
      assert NumericText(n) == whole;
    }
  }

  /** Two dot-free strings joined by a '.' have that one '.' only. */
  lemma OnlyDot(a: string, b: string)
    requires NoDot(a) && NoDot(b)
    ensures (a + ("." + b))[|a|] == '.'
    ensures forall j :: 0 <= j < |a + ("." + b)| && j != |a| ==> (a + ("." + b))[j] != '.'
  {
    var t := a + ("." + b);
    forall j | 0 <= j < |t| && j != |a|
      ensures t[j] != '.'
    {
      if j < |a| {
        assert t[j] == a[j];
      } else {
        assert t[j] == b[j - |a| - 1];
      }
    }
  }

  // ---------------------------------------------------------------------
  // The sign.

  lemma {:induction false} IntGroupsFirst(n: Numeric, count: nat)
    requires count >= 1
    ensures |IntGroup(n, 0)| >= 1 ==> |IntGroups(n, count)| >= 1 && IntGroups(n, count)[0] == IntGroup(n, 0)[0]
    decreases count
  {
    if count > 1 {
      IntGroupsFirst(n, count - 1);
    } else {
      assert IntGroups(n, 1) == IntGroups(n, 0) + IntGroup(n, 0);
    }
  }

  /** With well-formed digits the integer part starts with a decimal digit. */
  lemma IntegerPartStartsWithDigit(n: Numeric)
    requires ValidDigits(n)
    ensures |IntegerPart(n)| >= 1 && '0' <= IntegerPart(n)[0] <= '9'
  {
    if n.weight < 0 {
      assert IntegerPart(n) == "0";
    } else {
      var first := IntGroup(n, 0);
      if |n.digits| > 0 {
        assert 0 <= n.digits[0];
        assert first == IntToString(n.digits[0]) == NatToString(n.digits[0]);
        assert IsDigits(first);
      } else {
        assert first == "0";
      }
      assert |first| >= 1 && '0' <= first[0] <= '9';
      IntGroupsFirst(n, n.weight + 1);
      assert IntegerPart(n) == IntGroups(n, n.weight + 1);
      assert IntegerPart(n)[0] == first[0];
    }
  }

  /** The text starts with '-' exactly for the negative sign word. */
  lemma SignIffNegative(n: Numeric)
    requires ValidDigits(n)
    ensures (|NumericText(n)| > 0 && NumericText(n)[0] == '-') <==> n.sign == NUMERIC_NEG
  {
    IntegerPartStartsWithDigit(n);
    var tail := IntegerPart(n) + (if n.dscale > 0 then "." + FracPart(n, 0, n.dscale) else "");
    assert NumericText(n) == (if n.sign == NUMERIC_NEG then "-" else "") + tail;
    assert tail[0] == IntegerPart(n)[0];
  }

  // ---------------------------------------------------------------------
  // The fraction digits.

  lemma FracValueRange(n: Numeric, u: nat)
    requires ValidDigits(n)
    ensures 0 <= FracValue(n, u) <= 9999
  {
  }

  lemma {:induction false} FracPartLength(n: Numeric, u: nat, rem: int)
    requires ValidDigits(n)
    ensures |FracPart(n, u, rem)| == Max(rem, 0)
    decreases rem
  {
    if rem > 0 {
      var r := Min(4, rem);
      FracValueRange(n, u);
      GroupStrDigits(FracValue(n, u), r);
      FracPartLength(n, u + 1, rem - r);
    }
  }

  /** One round of the fraction: the four-digit form of the group's digit,
      cut to the digits still due, then the rest. */
  lemma FracSplit(n: Numeric, u: nat, rem: int)
    requires ValidDigits(n) && rem > 0
    ensures 0 <= FracValue(n, u) <= 9999
    ensures FracPart(n, u, rem) == Digits4(FracValue(n, u))[..Min(4, rem)] + FracPart(n, u + 1, rem - Min(4, rem))
  {
    FracValueRange(n, u);
    GroupStrDigits(FracValue(n, u), Min(4, rem));
  }

  /** The fraction from group u on as four-digit forms of the base-10000
      digits, cut to the rem decimal digits still due. */
  function FracDigits(n: Numeric, u: nat, rem: int): (s: string)
    requires ValidDigits(n)
    ensures |s| == Max(rem, 0)
    decreases rem
  {
    if rem <= 0 then ""
    else
      var v := FracValue(n, u);
      assert 0 <= v <= 9999;
      Digits4(v)[..Min(4, rem)] + FracDigits(n, u + 1, rem - Min(4, rem))
  }

  lemma {:induction false} FracPartIsDigits(n: Numeric, u: nat, rem: int)
    requires ValidDigits(n)
    ensures FracPart(n, u, rem) == FracDigits(n, u, rem)
    decreases rem
  {
    if rem > 0 {
      FracSplit(n, u, rem);
      FracPartIsDigits(n, u + 1, rem - Min(4, rem));
    }
  }

  /** From group u on, character 4q + p is digit p of the four-digit form
      of base-10000 digit u + q. */
  lemma {:induction false} FracDigitsChar(n: Numeric, u: nat, rem: int, q: nat, p: nat)
    requires ValidDigits(n) && p < 4 && 4 * q + p < rem
    ensures FracDigits(n, u, rem)[4 * q + p] == Digits4(FracValue(n, u + q))[p]
    decreases q
  {
    var head, tail := Digits4(FracValue(n, u))[..Min(4, rem)], FracDigits(n, u + 1, rem - Min(4, rem));
    assert FracDigits(n, u, rem) == head + tail;
    if q > 0 {
      FracDigitsChar(n, u + 1, rem - 4, q - 1, p);
      assert (head + tail)[4 * q + p] == tail[4 * (q - 1) + p];
    }
  }

  /** The fraction has exactly dscale digits: digit 4q + p is digit p of
      the zero-padded base-10000 digit q places after the point. */
  lemma FracPartDigits(n: Numeric)
    requires ValidDigits(n)
    ensures |FracPart(n, 0, n.dscale)| == Max(n.dscale, 0)
    ensures forall q: nat, p: nat :: p < 4 && 4 * q + p < n.dscale ==>
              FracPart(n, 0, n.dscale)[4 * q + p] == Digits4(FracValue(n, q))[p]
  {
    FracPartIsDigits(n, 0, n.dscale);
    FracDigitsAll(n);
  }

  lemma FracDigitsAll(n: Numeric)
    requires ValidDigits(n)
    ensures forall q: nat, p: nat :: p < 4 && 4 * q + p < n.dscale ==>
              FracDigits(n, 0, n.dscale)[4 * q + p] == Digits4(FracValue(n, q))[p]
  {
    forall q: nat, p: nat | p < 4 && 4 * q + p < n.dscale
      ensures FracDigits(n, 0, n.dscale)[4 * q + p] == Digits4(FracValue(n, q))[p]
    {
      FracDigitsChar(n, 0, n.dscale, q, p);
    }
  }

  // ---------------------------------------------------------------------
  // The integer part.

  lemma IntGroupValue(n: Numeric, t: nat)
    requires ValidDigits(n) && |n.digits| > 0 && t >= 1
    ensures |IntGroup(n, t)| == 4 && DecValue(IntGroup(n, t)) == GroupValue(n, t)
  {
    if t < |n.digits| {
      PadDigits(n.digits[t]);
      Digits4Value(n.digits[t]);
    } else {
      Digits4Value(0);
      assert Digits4(0) == "0000";
    }
  }

  /** Without digits every group is "0" and the value is zero. */
  lemma {:induction false} IntGroupsWithoutDigits(n: Numeric, count: nat)
    requires |n.digits| == 0
    ensures DecValue(IntGroups(n, count)) == 0 && Horner(n, count) == 0
    decreases count
  {
    if count > 0 {
      IntGroupsWithoutDigits(n, count - 1);
      assert IntGroup(n, count - 1) == ['0'];
      DecValueSnoc(IntGroups(n, count - 1), '0');
    }
  }

  lemma {:induction false} IntGroupsValue(n: Numeric, count: nat)
    requires ValidDigits(n) && |n.digits| > 0
    ensures DecValue(IntGroups(n, count)) == Horner(n, count)
    decreases count
  {
    if count == 1 {
      assert IntGroups(n, 1) == "" + IntGroup(n, 0);
      assert IntGroup(n, 0) == NatToString(n.digits[0]);
      NatToStringValue(n.digits[0]);
    } else if count > 1 {
      var t := count - 1;
      IntGroupsValue(n, t);
      IntGroupValue(n, t);
      DecValueAppend(IntGroups(n, t), IntGroup(n, t));
      assert Pow10(4) == 10000;
    }
  }

  /** With well-formed digits the integer part reads back as the value of
      the base-10000 digits of weight `weight` down to 0. */
  lemma IntegerPartValue(n: Numeric)
    requires ValidDigits(n)
    ensures DecValue(IntegerPart(n)) == IntegerValue(n)
  {
    if n.weight < 0 {
      DecValueSnoc([], '0');
      assert [] + ['0'] == "0";
    } else if |n.digits| == 0 {
      IntGroupsWithoutDigits(n, n.weight + 1);
    } else {
      IntGroupsValue(n, n.weight + 1);
    }
  }
}
