/** A decimal as its integer's digits and a scale, compared as text by amount
    (bindings/rust/runtime/src/decimal.rs). */
module Decimals {
  import opened Options
  import opened Text

  datatype Decimal = Decimal(unscaled: string, scale: int)

  // ----- text -----

  function TrimStart(s: string, c: char): string {
    if s != [] && s[0] == c then TrimStart(s[1..], c) else s
  }

  function TrimEnd(s: string, c: char): string {
    if s != [] && s[|s| - 1] == c then TrimEnd(s[..|s| - 1], c) else s
  }

  function New(unscaled: string, scale: int): Option<Decimal> {
    var negative := unscaled != [] && unscaled[0] == '-';
    var digits := if negative then unscaled[1..] else unscaled;
    if digits == [] || !AllDigits(digits) then None
    else
      var trimmed := TrimStart(digits, '0');
      Some(Decimal(if trimmed == [] then "0" else if negative then "-" + trimmed else trimmed, scale))
  }

  /** The digits as they are written, without the sign. */
  function Written(d: Decimal): string {
    TrimStart(d.unscaled, '-')
  }

  datatype Amount = Amount(negative: bool, magnitude: int, digits: string)

  function AmountOf(d: Decimal): Amount {
    var digits := TrimEnd(Written(d), '0');
    if digits == [] then Amount(false, 0, "")
    else Amount(d.unscaled != [] && d.unscaled[0] == '-', |Written(d)| - d.scale, digits)
  }

  predicate Equal(a: Decimal, b: Decimal) {
    AmountOf(a) == AmountOf(b)
  }

  // ----- the order as it is worked out -----

  function Sign(n: int): int {
    if n < 0 then -1 else if n == 0 then 0 else 1
  }

  /** Text against text, a text before any it is the beginning of. */
  function Lexical(a: string, b: string): int {
    if a == [] && b == [] then 0
    else if a == [] then -1
    else if b == [] then 1
    else if a[0] != b[0] then (if a[0] < b[0] then -1 else 1)
    else Lexical(a[1..], b[1..])
  }

  function Signum(a: Amount): int {
    if a.digits == [] then 0 else if a.negative then -1 else 1
  }

  function Compare(a: Decimal, b: Decimal): int {
    var x, y := AmountOf(a), AmountOf(b);
    if Signum(x) != Signum(y) || Signum(x) == 0 then Sign(Signum(x) - Signum(y))
    else
      var size := if x.magnitude != y.magnitude then Sign(x.magnitude - y.magnitude) else Lexical(x.digits, y.digits);
      if x.negative then -size else size
  }

  // ----- what it is an order of -----

  /** A decimal as `new` and `of` make one: an integer's text, with no leading zero. */
  predicate Normal(d: Decimal) {
    var digits := if d.unscaled != [] && d.unscaled[0] == '-' then d.unscaled[1..] else d.unscaled;
    && digits != [] && AllDigits(digits)
    && (d.unscaled == "0" || digits[0] != '0')
  }

  function Unscaled(d: Decimal): int
    requires Normal(d)
  {
    var digits := if d.unscaled[0] == '-' then d.unscaled[1..] else d.unscaled;
    Signed(d.unscaled[0] == '-', NumberIn(digits))
  }

  function Signed(negative: bool, n: int): int {
    if negative then -n else n
  }

  /** `n` times ten to `places`. */
  function Shift(n: int, places: nat): int {
    if places == 0 then n else 10 * Shift(n, places - 1)
  }

  function Larger(a: int, b: int): int {
    if a < b then b else a
  }

  /** The amount at a scale no smaller than its own: the integer over ten to `scale`. */
  function At(d: Decimal, scale: int): int
    requires Normal(d) && d.scale <= scale
  {
    Shift(Unscaled(d), scale - d.scale)
  }

  /** The one amount less the other, over ten to the larger scale. */
  function Difference(a: Decimal, b: Decimal): int
    requires Normal(a) && Normal(b)
  {
    At(a, Larger(a.scale, b.scale)) - At(b, Larger(a.scale, b.scale))
  }

  /** `x` times ten to `places`, of either sign. */
  ghost function RealShift(x: real, places: int): real
    decreases if places < 0 then -places else places
  {
    if places == 0 then x
    else if places > 0 then 10.0 * RealShift(x, places - 1)
    else RealShift(x, places + 1) / 10.0
  }

  /** The rational number a decimal denotes, as a real. */
  ghost function Real(d: Decimal): real
    requires Normal(d)
  {
    RealShift(Unscaled(d) as real, -d.scale)
  }

  // ----- numbers and digits -----

  lemma {:induction false} ShiftAdds(m: int, n: int, k: nat)
    ensures Shift(m + n, k) == Shift(m, k) + Shift(n, k)
  {
    if k > 0 { ShiftAdds(m, n, k - 1); }
  }

  lemma {:induction false} ShiftTwice(n: int, j: nat, k: nat)
    ensures Shift(Shift(n, j), k) == Shift(n, j + k)
  {
    if k > 0 { ShiftTwice(n, j, k - 1); }
  }

  lemma {:induction false} ShiftOrdered(m: int, n: int, k: nat)
    requires m <= n
    ensures Shift(m, k) <= Shift(n, k) && Shift(0, k) == 0 && (m < n ==> Shift(m, k) + Shift(1, k) <= Shift(n, k)) && Shift(1, k) > 0
  {
    if k > 0 { ShiftOrdered(m, n, k - 1); }
  }

  lemma {:induction false} ShiftSigned(negative: bool, n: int, k: nat)
    ensures Shift(Signed(negative, n), k) == Signed(negative, Shift(n, k))
  {
    if k > 0 { ShiftSigned(negative, n, k - 1); }
  }

  function DigitOf(c: char): int {
    c as int - '0' as int
  }

  lemma {:induction false} NumberFirst(s: string)
    requires s != [] && AllDigits(s)
    ensures NumberIn(s) == Shift(DigitOf(s[0]), |s| - 1) + NumberIn(s[1..])
    decreases |s|
  {
    var last := |s| - 1;
    if last > 0 {
      NumberFirst(s[..last]);
      assert s[..last][1..] == s[1..][..last - 1] && s[1..][last - 1] == s[last] && s[..last][0] == s[0];
    } else {
      assert s[..0] == [] && s[1..] == [];
    }
  }

  lemma {:induction false} NumberBelow(s: string)
    requires AllDigits(s)
    ensures NumberIn(s) < Shift(1, |s|)
  {
    if s != [] { NumberBelow(s[..|s| - 1]); }
  }

  /** Digits with noughts after them up to `width`. */
  function Padded(s: string, width: int): int
    requires AllDigits(s) && |s| <= width
  {
    Shift(NumberIn(s), width - |s|)
  }

  lemma PaddedFirst(s: string, width: int)
    requires s != [] && AllDigits(s) && |s| <= width
    ensures Padded(s, width) == Shift(DigitOf(s[0]), width - 1) + Padded(s[1..], width - 1)
  {
    NumberFirst(s);
    ShiftAdds(Shift(DigitOf(s[0]), |s| - 1), NumberIn(s[1..]), width - |s|);
    ShiftTwice(DigitOf(s[0]), |s| - 1, width - |s|);
  }

  lemma PaddedBelow(s: string, width: int)
    requires AllDigits(s) && |s| <= width
    ensures 0 <= Padded(s, width) < Shift(1, width)
  {
    NumberBelow(s);
    ShiftOrdered(NumberIn(s), Shift(1, |s|), width - |s|);
    ShiftOrdered(0, NumberIn(s), width - |s|);
    ShiftTwice(1, |s|, width - |s|);
  }

  /** Digits beginning with no nought fill their width. */
  lemma PaddedAbove(s: string, width: int)
    requires s != [] && AllDigits(s) && s[0] != '0' && |s| <= width
    ensures 0 < Shift(1, width - 1) <= Padded(s, width)
  {
    PaddedFirst(s, width);
    PaddedBelow(s[1..], width - 1);
    ShiftOrdered(1, DigitOf(s[0]), width - 1);
  }

  lemma {:induction false} ShiftGrows(a: nat, b: nat)
    requires a <= b
    ensures 0 < Shift(1, a) <= Shift(1, b)
  {
    if a < b { ShiftGrows(a, b - 1); } else { ShiftOrdered(0, 1, a); }
  }

  predicate EndsInNoZero(s: string) {
    s == [] || s[|s| - 1] != '0'
  }

  lemma PaddedAboveNought(s: string, width: int)
    requires s != [] && AllDigits(s) && EndsInNoZero(s) && |s| <= width
    ensures Padded(s, width) > 0 && Padded([], width) == 0
  {
    ShiftOrdered(0, NumberIn(s), width - |s|);
    ShiftOrdered(0, 0, width);
    ShiftOrdered(0, 0, width - |s|);
  }

  /** Digits standing at one place are in the order of their text, where none ends in a nought. */
  lemma {:induction false} LexicalIsNumeric(a: string, b: string, width: int)
    requires AllDigits(a) && AllDigits(b) && EndsInNoZero(a) && EndsInNoZero(b) && |a| <= width && |b| <= width
    ensures Lexical(a, b) == Sign(Padded(a, width) - Padded(b, width))
    decreases |a|
  {
    if a == [] && b == [] {
    } else if a == [] {
      PaddedAboveNought(b, width);
    } else if b == [] {
      PaddedAboveNought(a, width);
    } else {
      PaddedFirst(a, width);
      PaddedFirst(b, width);
      PaddedBelow(a[1..], width - 1);
      PaddedBelow(b[1..], width - 1);
      if a[0] == b[0] {
        LexicalIsNumeric(a[1..], b[1..], width - 1);
      } else {
        ShiftOrdered(DigitOf(if a[0] < b[0] then a[0] else b[0]), DigitOf(if a[0] < b[0] then b[0] else a[0]), width - 1);
      }
    }
  }

  // ----- a decimal as its amount -----

  lemma {:induction false} TrimmedEnd(s: string)
    requires AllDigits(s)
    ensures var t := TrimEnd(s, '0');
      && |t| <= |s| && t == s[..|t|] && AllDigits(t) && EndsInNoZero(t) && NumberIn(s) == Shift(NumberIn(t), |s| - |t|)
  {
    if s != [] && s[|s| - 1] == '0' {
      TrimmedEnd(s[..|s| - 1]);
      var t := TrimEnd(s, '0');
      assert NumberIn(s) == 10 * NumberIn(s[..|s| - 1]);
    }
  }

  lemma {:induction false} TrimmedStart(s: string)
    requires AllDigits(s)
    ensures var t := TrimStart(s, '0'); AllDigits(t) && (t == [] || t[0] != '0') && NumberIn(s) == NumberIn(t)
  {
    if s != [] && s[0] == '0' {
      TrimmedStart(s[1..]);
      NumberFirst(s);
      ShiftOrdered(0, 0, |s| - 1);
    }
  }

  /** `new` takes exactly an integer's text, and keeps the integer and the scale. */
  lemma NewNormalises(unscaled: string, scale: int)
    ensures var r := New(unscaled, scale);
      var negative := unscaled != [] && unscaled[0] == '-';
      var digits := if negative then unscaled[1..] else unscaled;
      && (r.Some? <==> digits != [] && AllDigits(digits))
      && (r.Some? ==>
            && Normal(r.value) && r.value.scale == scale
            && Unscaled(r.value) == Signed(negative, NumberIn(digits)))
  {
    var negative := unscaled != [] && unscaled[0] == '-';
    var digits := if negative then unscaled[1..] else unscaled;
    if digits != [] && AllDigits(digits) {
      TrimmedStart(digits);
      var t := TrimStart(digits, '0');
      assert ("-" + t)[1..] == t;
      assert NumberIn("0") == 0 by { assert "0"[..0] == ""; }
    }
  }

  /** How a normal decimal's amount is laid out: its digits, standing with the first of them at
      `magnitude`. */
  lemma AmountLaid(d: Decimal, scale: int)
    requires Normal(d) && d.scale <= scale
    ensures var x := AmountOf(d);
      && AllDigits(x.digits) && EndsInNoZero(x.digits)
      && (x.digits == [] ==> At(d, scale) == 0)
      && (x.digits != [] ==>
            && x.digits[0] != '0' && |x.digits| <= x.magnitude + scale
            && At(d, scale) == Signed(x.negative, Padded(x.digits, x.magnitude + scale)))
  {
    var negative := d.unscaled[0] == '-';
    var digits := if negative then d.unscaled[1..] else d.unscaled;
    WrittenIs(d, digits);
    TrimmedEnd(digits);
    var x, t := AmountOf(d), TrimEnd(digits, '0');
    ShiftSigned(negative, NumberIn(digits), scale - d.scale);
    ShiftTwice(NumberIn(t), |digits| - |t|, scale - d.scale);
    if t == [] {
      ShiftOrdered(0, 0, |digits| + (scale - d.scale));
    } else {
      assert digits[0] == t[0];
      ZeroIsTrimmed(d, digits);
    }
  }

  lemma ZeroIsTrimmed(d: Decimal, digits: string)
    requires Normal(d) && digits == if d.unscaled[0] == '-' then d.unscaled[1..] else d.unscaled
    requires TrimEnd(digits, '0') != []
    ensures digits[0] != '0'
  {
    assert "0"[..0] == "" && TrimEnd("0", '0') == TrimEnd("", '0');
  }

  lemma WrittenIs(d: Decimal, digits: string)
    requires Normal(d) && digits == if d.unscaled[0] == '-' then d.unscaled[1..] else d.unscaled
    ensures Written(d) == digits
  {
    assert digits[0] != '-';
    if d.unscaled[0] == '-' { assert TrimStart(d.unscaled, '-') == TrimStart(d.unscaled[1..], '-'); }
  }

  /** The order is the order of amounts: for integers of any length and any two scales, what is worked
      out on text is how the one amount compares with the other. */
  lemma CompareIsNumeric(a: Decimal, b: Decimal)
    requires Normal(a) && Normal(b)
    ensures Compare(a, b) == Sign(Difference(a, b))
  {
    var scale := Larger(a.scale, b.scale);
    var x, y := AmountOf(a), AmountOf(b);
    AmountLaid(a, scale);
    AmountLaid(b, scale);
    if x.digits != [] { PaddedAbove(x.digits, x.magnitude + scale); }
    if y.digits != [] { PaddedAbove(y.digits, y.magnitude + scale); }
    if Signum(x) == Signum(y) && Signum(x) != 0 {
      SizeIsNumeric(x, y, scale);
    }
  }

  lemma SizeIsNumeric(x: Amount, y: Amount, scale: int)
    requires x.digits != [] && AllDigits(x.digits) && EndsInNoZero(x.digits) && x.digits[0] != '0' && |x.digits| <= x.magnitude + scale
    requires y.digits != [] && AllDigits(y.digits) && EndsInNoZero(y.digits) && y.digits[0] != '0' && |y.digits| <= y.magnitude + scale
    ensures (if x.magnitude != y.magnitude then Sign(x.magnitude - y.magnitude) else Lexical(x.digits, y.digits))
         == Sign(Padded(x.digits, x.magnitude + scale) - Padded(y.digits, y.magnitude + scale))
  {
    if x.magnitude == y.magnitude {
      LexicalIsNumeric(x.digits, y.digits, x.magnitude + scale);
    } else {
      PaddedAbove(x.digits, x.magnitude + scale);
      PaddedBelow(x.digits, x.magnitude + scale);
      PaddedAbove(y.digits, y.magnitude + scale);
      PaddedBelow(y.digits, y.magnitude + scale);
      if x.magnitude < y.magnitude {
        ShiftGrows(x.magnitude + scale, y.magnitude + scale - 1);
      } else {
        ShiftGrows(y.magnitude + scale, x.magnitude + scale - 1);
      }
    }
  }

  lemma {:induction false} LexicalEqual(a: string, b: string)
    requires Lexical(a, b) == 0
    ensures a == b
    decreases |a|
  {
    if a != [] && b != [] {
      LexicalEqual(a[1..], b[1..]);
      assert a == [a[0]] + a[1..] && b == [b[0]] + b[1..];
    }
  }

  /** Equal exactly where the amounts are, and so what is hashed, which is what is compared, is one for
      each amount. */
  lemma EqualIsSameAmount(a: Decimal, b: Decimal)
    requires Normal(a) && Normal(b)
    ensures Equal(a, b) <==> Difference(a, b) == 0
    ensures Compare(a, b) == 0 <==> Equal(a, b)
  {
    CompareIsNumeric(a, b);
    var x, y := AmountOf(a), AmountOf(b);
    if Equal(a, b) {
      LexicalItself(x.digits);
    } else if Compare(a, b) == 0 {
      if x.digits != [] { LexicalEqual(x.digits, y.digits); }
    }
  }

  lemma {:induction false} LexicalItself(a: string)
    ensures Lexical(a, a) == 0
    decreases |a|
  {
    if a != [] { LexicalItself(a[1..]); }
  }

  // ----- as real numbers -----

  lemma RealShiftNext(x: real, k: int)
    ensures RealShift(x, k + 1) == 10.0 * RealShift(x, k)
  {
  }

  lemma {:induction false} RealShiftBack(x: real, k: int, scale: int)
    requires k <= scale
    ensures RealShift(RealShift(x, -k), scale) == RealShift(x, scale - k)
    decreases scale - k
  {
    if k == scale {
      RealShiftUndone(x, k);
    } else {
      RealShiftBack(x, k, scale - 1);
      RealShiftNext(RealShift(x, -k), scale - 1);
      RealShiftNext(x, scale - 1 - k);
    }
  }

  lemma {:induction false} RealShiftUndone(x: real, k: int)
    ensures RealShift(RealShift(x, -k), k) == x
    decreases if k < 0 then -k else k
  {
    if k > 0 {
      RealShiftTenth(RealShift(x, -(k - 1)), k - 1);
      RealShiftUndone(x, k - 1);
      assert RealShift(x, -k) == RealShift(x, -(k - 1)) / 10.0;
    } else if k < 0 {
      RealShiftTenth(RealShift(x, -k), k + 1);
      RealShiftUndone(x, k + 1);
      assert RealShift(x, -k) / 10.0 == RealShift(x, -(k + 1));
    }
  }

  lemma {:induction false} RealShiftTenth(x: real, k: int)
    ensures RealShift(x / 10.0, k) == RealShift(x, k) / 10.0
    decreases if k < 0 then -k else k
  {
    if k > 0 { RealShiftTenth(x, k - 1); } else if k < 0 { RealShiftTenth(x, k + 1); }
  }

  lemma {:induction false} RealShiftOrdered(x: real, y: real, k: int)
    ensures RealShift(x, k) < RealShift(y, k) <==> x < y
    decreases if k < 0 then -k else k
  {
    if k > 0 { RealShiftOrdered(x, y, k - 1); } else if k < 0 { RealShiftOrdered(x, y, k + 1); }
  }

  lemma {:induction false} ShiftIsReal(n: int, k: nat)
    ensures Shift(n, k) as real == RealShift(n as real, k)
  {
    if k > 0 { ShiftIsReal(n, k - 1); }
  }

  lemma AtIsReal(d: Decimal, scale: int)
    requires Normal(d) && d.scale <= scale
    ensures At(d, scale) as real == RealShift(Real(d), scale)
  {
    ShiftIsReal(Unscaled(d), scale - d.scale);
    RealShiftBack(Unscaled(d) as real, d.scale, scale);
  }

  /** Said of the amounts as real numbers. */
  lemma CompareIsReal(a: Decimal, b: Decimal)
    requires Normal(a) && Normal(b)
    ensures Compare(a, b) < 0 <==> Real(a) < Real(b)
    ensures Compare(a, b) == 0 <==> Real(a) == Real(b)
    ensures Compare(a, b) > 0 <==> Real(a) > Real(b)
  {
    var scale := Larger(a.scale, b.scale);
    CompareIsNumeric(a, b);
    AtIsReal(a, scale);
    AtIsReal(b, scale);
    RealShiftOrdered(Real(a), Real(b), scale);
    RealShiftOrdered(Real(b), Real(a), scale);
  }
}
