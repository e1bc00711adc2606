/** numeric2string: the text of a NUMERIC value given in its binary layout
    (a count of base-10000 digits, the weight of the first digit, a sign
    word and the number of decimal digits after the point, then the
    digits). The model starts from the decoded header words and digits;
    the big-endian reads of the buffer are not part of it. */
module Numeric {
  import opened Bytes

  type Int16 = x: int | -0x8000 <= x < 0x8000

  /** The sign word of a negative value. */
  const NUMERIC_NEG: Int16 := 0x4000

  /** The decoded value: ndigits is |digits|. */
  datatype Numeric = Numeric(weight: Int16, sign: Int16, dscale: Int16, digits: seq<Int16>)

  /** Every digit is a base-10000 digit, as a well-formed value has. */
  predicate ValidDigits(n: Numeric)
  {
    forall k :: 0 <= k < |n.digits| ==> 0 <= n.digits[k] <= 9999
  }

  // ---------------------------------------------------------------------
  // Decimal text of integers, as `ss << v` writes them.

  function DigitChar(d: int): (c: char)
    requires 0 <= d < 10
    ensures '0' <= c <= '9'
  {
    ('0' as int + d) as char
  }

  predicate IsDigits(s: string)
  {
    forall k :: 0 <= k < |s| ==> '0' <= s[k] <= '9'
  }

  /** The decimal digits of n, most significant first, without leading
      zeros. */
  function NatToString(n: nat): (s: string)
    ensures |s| >= 1 && IsDigits(s)
    ensures n < 10 <==> |s| == 1
    decreases n
  {
    if n < 10 then [DigitChar(n)] else NatToString(n / 10) + [DigitChar(n % 10)]
  }

  /** `ss << v` for a signed integer: a '-' before the digits of |v|. */
  function IntToString(v: int): string
    decreases if v < 0 then 1 else 0
  {
    if v < 0 then "-" + IntToString(-v) else NatToString(v)
  }

  /** C++ integer division and remainder, which truncate toward zero. */
  function TDiv(a: int, b: int): int
    requires b > 0
  {
    if a >= 0 then a / b else -((-a) / b)
  }

  function TRem(a: int, b: int): int
    requires b > 0
  {
    if a >= 0 then a % b else -((-a) % b)
  }

  // ---------------------------------------------------------------------
  // The text numeric2string produces.

  /** The zeros written before a digit group other than the first, so that
      it has four characters; out-of-range values get none. */
  function Pad(v: int): string
  {
    if 0 <= v <= 9 then "000"
    else if 10 <= v <= 99 then "00"
    else if 100 <= v <= 999 then "0"
    else ""
  }

  /** Group t of the integer part (t = 0 is the group of weight `weight`):
      the digit, padded unless it is the first; past the last digit "0000",
      or "0" when there are no digits at all. */
  function IntGroup(n: Numeric, t: nat): string
  {
    if t < |n.digits| then (if t == 0 then "" else Pad(n.digits[t])) + IntToString(n.digits[t])
    else if |n.digits| == 0 then "0"
    else "0000"
  }

  /** Groups 0 .. count-1 of the integer part. */
  function IntGroups(n: Numeric, count: nat): string
  {
    if count == 0 then "" else IntGroups(n, count - 1) + IntGroup(n, count - 1)
  }

  /** The integer part: one group per weight from `weight` down to 0, or a
      single "0" when the weight is negative. */
  function IntegerPart(n: Numeric): string
  {
    if n.weight < 0 then "0" else IntGroups(n, n.weight + 1)
  }

  /** The base-10000 digit u places after the point: digits[weight+1+u],
      or 0 outside the digits. */
  function FracValue(n: Numeric, u: nat): int
  {
    var k := n.weight + 1 + u;
    if 0 <= k < |n.digits| then n.digits[k] else 0
  }

  /** The first r of the four decimal digits written for a fraction group
      v, each computed with truncating division. */
  function GroupStr(v: int, r: nat): string
    requires r <= 4
  {
    var a := TRem(v, 1000);
    var b := TRem(a, 100);
    (if r >= 1 then IntToString(TDiv(v, 1000)) else "")
    + (if r >= 2 then IntToString(TDiv(a, 100)) else "")
    + (if r >= 3 then IntToString(TDiv(b, 10)) else "")
    + (if r >= 4 then IntToString(TRem(b, 10)) else "")
  }

  /** The fraction from group u on, when rem decimal digits are still due:
      up to four per group. */
  function FracPart(n: Numeric, u: nat, rem: int): string
    decreases rem
  {
    if rem <= 0 then ""
    else
      var r := Min(4, rem);
      GroupStr(FracValue(n, u), r) + FracPart(n, u + 1, rem - r)
  }

  /** The whole text: the sign, the integer part, and for a positive scale
      a '.' and dscale decimal digits. */
  function NumericText(n: Numeric): string
  {
    (if n.sign == NUMERIC_NEG then "-" else "")
    + IntegerPart(n)
    + (if n.dscale > 0 then "." + FracPart(n, 0, n.dscale) else "")
  }

  // ---------------------------------------------------------------------
  // The conversion as the C++ writes it.

  lemma Associative(a: string, b: string, c: string)
    ensures (a + b) + c == a + (b + c)
  {
  }

  method Numeric2String(n: Numeric) returns (s: string)
    ensures s == NumericText(n)
  {
    s := "";
    if n.sign == NUMERIC_NEG {
      s := "-";
    }
    ghost var sign := s;
    var i, d;
    s, i, d := WriteIntegerPart(n, s);
    ghost var whole := s;
    if n.dscale > 0 {
      s := s + ".";
      s := WriteFraction(n, s, i, d);
      Associative(whole, ".", FracPart(n, 0, n.dscale));
    }
  }

  /** The first loop of numeric2string: i runs from max(weight, 0) down to
      0 and d counts the digits written. */
  method WriteIntegerPart(n: Numeric, s0: string) returns (s: string, i: int, d: int)
    ensures s == s0 + IntegerPart(n)
    ensures i == -1 && d == Min(Max(n.weight + 1, 0), |n.digits|)
  {
    s := s0;
    i := Max(n.weight, 0);
    d := 0;
    while i >= 0
      invariant -1 <= i <= Max(n.weight, 0)
      invariant n.weight >= 0 ==> d == Min(n.weight - i, |n.digits|)
      invariant n.weight >= 0 ==> s == s0 + IntGroups(n, n.weight - i)
      invariant n.weight < 0 ==> d == 0 && (if i == 0 then s == s0 else s == s0 + "0")
      decreases i
    {
      ghost var t := n.weight - i;
      ghost var before := s;
      s, d := WriteIntGroup(n, s, i, d);
      if n.weight >= 0 {
        assert IntGroups(n, t + 1) == IntGroups(n, t) + IntGroup(n, t);
        Associative(s0, IntGroups(n, t), IntGroup(n, t));
      }
      i := i - 1;
    }
  }

  /** One round of that loop: the digit d, padded unless it is the first,
      while the weight i is covered by the digits; otherwise zeros. */
  method WriteIntGroup(n: Numeric, s0: string, i: int, d0: int) returns (s: string, d: int)
    requires 0 <= i <= Max(n.weight, 0)
    requires n.weight >= 0 ==> d0 == Min(n.weight - i, |n.digits|)
    requires n.weight < 0 ==> d0 == 0
    ensures n.weight >= 0 ==> s == s0 + IntGroup(n, n.weight - i) && d == Min(n.weight - i + 1, |n.digits|)
    ensures n.weight < 0 ==> s == s0 + "0" && d == 0
  {
    s, d := s0, d0;
    ghost var t := n.weight - i;
    if i <= n.weight && d < |n.digits| {
      assert n.weight >= 0 && d == t;
      // every group after the first is padded to four characters
      if d != 0 {
        var dig := n.digits[d];
        if 0 <= dig <= 9 {
          s := s + "000";
        } else if 10 <= dig <= 99 {
          s := s + "00";
        } else if 100 <= dig <= 999 {
          s := s + "0";
        }
      }
      ghost var pad, digit := (if t == 0 then "" else Pad(n.digits[t])), IntToString(n.digits[t]);
      assert s == s0 + pad;
      s := s + IntToString(n.digits[d]);
      d := d + 1;
      assert IntGroup(n, t) == pad + digit;
      Associative(s0, pad, digit);
    } else {
      if d == 0 {
        s := s + "0";
      } else {
        s := s + "0000";
      }
    }
  }

  /** The second loop of numeric2string: one base-10000 digit per round,
      while decimal digits of the scale are still due. */
  method WriteFraction(n: Numeric, s0: string, i0: int, d0: int) returns (s: string)
    requires i0 == -1 && d0 == Min(Max(n.weight + 1, 0), |n.digits|)
    ensures s == s0 + FracPart(n, 0, n.dscale)
  {
    s := s0;
    var i, d := i0, d0;
    var scale: int := n.dscale;
    ghost var u: nat := 0;
    while scale > 0
      invariant i == -1 - u
      invariant d == Min(Max(n.weight + 1 + u, 0), |n.digits|)
      invariant s + FracPart(n, u, scale) == s0 + FracPart(n, 0, n.dscale)
      decreases scale
    {
      ghost var before, rest, scale0 := s, FracPart(n, u, scale), scale;
      FracCursor(n, u, i, d);
      var value: int;
      if i <= n.weight && d < |n.digits| {
        value := n.digits[d];
        d := d + 1;
      } else {
        value := 0;
      }
      assert value == FracValue(n, u);
      s, scale := WriteGroup(s, value, scale);
      assert rest == GroupStr(value, Min(4, scale0)) + FracPart(n, u + 1, scale);
      Associative(before, GroupStr(value, Min(4, scale0)), FracPart(n, u + 1, scale));
      i := i - 1;
      u := u + 1;
    }
  }

  /** Where the cursors i and d stand in round u of the fraction loop, the
      test of the loop body picks exactly FracValue(n, u). */
  lemma FracCursor(n: Numeric, u: nat, i: int, d: int)
    requires i == -1 - u && d == Min(Max(n.weight + 1 + u, 0), |n.digits|)
    ensures (i <= n.weight && d < |n.digits|) <==> 0 <= n.weight + 1 + u < |n.digits|
    ensures i <= n.weight && d < |n.digits| ==> d == n.weight + 1 + u
  {
  }

  /** The body of that loop: up to four decimal digits of value, one per
      remaining digit of the scale. */
  method WriteGroup(s0: string, v: int, scale0: int) returns (s: string, scale: int)
    requires scale0 > 0
    ensures s == s0 + GroupStr(v, Min(4, scale0))
    ensures scale == scale0 - Min(4, scale0)
  {
    s, scale := s0, scale0;
    var value := v;
    if scale > 0 {
      s := s + IntToString(TDiv(value, 1000));
      value := TRem(value, 1000);
      scale := scale - 1;
    }
    if scale > 0 {
      s := s + IntToString(TDiv(value, 100));
      value := TRem(value, 100);
      scale := scale - 1;
    }
    if scale > 0 {
      s := s + IntToString(TDiv(value, 10));
      value := TRem(value, 10);
      scale := scale - 1;
    }
    if scale > 0 {
      s := s + IntToString(value);
      scale := scale - 1;
    }
  }
}
