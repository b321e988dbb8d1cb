// The unit scalers formatUnit and formatUnitSize of src/utils.h.
module Units {

  function Power(k: nat): (p: real)
    ensures 1.0 <= p
  {
    if k == 0 then 1.0 else 1024.0 * Power(k - 1)
  }

  // v counted in units of 1024^u, as a number of bytes.
  function Bytes(v: real, u: nat): real {
    v * Power(u)
  }

  const EB: nat := 6
  const UNIT_SUFFIX: seq<string> := ["B", "K", "M", "G", "T", "P", "E"]
  const UNIT_SUFFIX_EXT: seq<string> := ["B", "KB", "MB", "GB", "TB", "PB", "EB"]
  const BYTE_ORDERS: seq<string> := ["B", "K", "M", "G", "T"]

  // ----- decimal numbers

  // A number written out, with the digits before and after the decimal point.
  datatype Decimal = Decimal(negative: bool, whole: seq<nat>, fraction: seq<nat>)

  predicate AreDigits(ds: seq<nat>) {
    forall i :: 0 <= i < |ds| ==> ds[i] <= 9
  }

  predicate Canonical(whole: seq<nat>) {
    whole != [] && AreDigits(whole) && (|whole| > 1 ==> whole[0] != 0)
  }

  // prec digits after the point, at least one before it, and no superfluous zero in front.
  predicate IsDecimal(d: Decimal, prec: nat) {
    Canonical(d.whole) && AreDigits(d.fraction) && |d.fraction| == prec
  }

  // What place i after the point weighs.
  function Place(i: nat): (p: real)
    ensures 0.0 < p
  {
    if i == 0 then 1.0 else Place(i - 1) / 10.0
  }

  function WholeValue(ds: seq<nat>): nat {
    if ds == [] then 0 else 10 * WholeValue(ds[..|ds| - 1]) + ds[|ds| - 1]
  }

  function FractionValue(ds: seq<nat>): real {
    if ds == [] then 0.0 else FractionValue(ds[..|ds| - 1]) + Weighed(ds[|ds| - 1] as real, |ds|)
  }

  function Weighed(x: real, i: nat): real {
    x * Place(i)
  }

  function ReadBack(d: Decimal): real {
    var size := WholeValue(d.whole) as real + FractionValue(d.fraction);
    if d.negative then -size else size
  }

  function LastDigit(d: Decimal): nat
    requires d.whole != []
  {
    if d.fraction == [] then d.whole[|d.whole| - 1] else d.fraction[|d.fraction| - 1]
  }

  // w is at most `half` away from v; exactly that far only if s is even.
  predicate Near(w: real, v: real, half: real, s: int) {
    v - half <= w <= v + half && (w == v - half || w == v + half ==> s % 2 == 0)
  }

  // d is v to prec decimal places: it is within half a unit in the last place, and of two numbers that
  // are equally near it is the one with an even last digit.
  ghost predicate Shows(d: Decimal, v: real, prec: nat) {
    && IsDecimal(d, prec) && (d.negative <==> v < 0.0)
    && Near(ReadBack(d), v, Place(prec) / 2.0, LastDigit(d))
  }

  // ----- formatting to a number of decimal places

  function TenTo(prec: nat): (p: int)
    ensures 1 <= p
  {
    if prec == 0 then 1 else 10 * TenTo(prec - 1)
  }

  // The nearest integer, the even one of two equally near.
  function Rounded(x: real): (d: int)
    ensures x - 0.5 <= d as real <= x + 0.5
  {
    var rest := x - x.Floor as real;
    if rest < 0.5 || (rest == 0.5 && x.Floor % 2 == 0) then x.Floor else x.Floor + 1
  }

  // What is shown of v with prec decimals, as a number of units in the last place.
  function Digits(v: real, prec: nat): (n: int)
    ensures if v < 0.0 then n <= 0 else 0 <= n
  {
    Multiplied(v, 0.0, TenTo(prec) as real);
    Multiplied(0.0, v, TenTo(prec) as real);
    Rounded(LastPlaces(v, prec))
  }

  // v counted in units in the last of prec decimal places.
  function LastPlaces(v: real, prec: nat): real {
    v * TenTo(prec) as real
  }

  function WholeDigits(n: nat): seq<nat> {
    if n < 10 then [n] else WholeDigits(n / 10) + [n % 10]
  }

  function FractionDigits(n: nat, prec: nat): seq<nat> {
    if prec == 0 then [] else FractionDigits(n / 10, prec - 1) + [n % 10]
  }

  // n without its last prec digits.
  function Leading(n: nat, prec: nat): nat {
    if prec == 0 then n else Leading(n / 10, prec - 1)
  }

  function Formatted(v: real, prec: nat): Decimal {
    var n := if v < 0.0 then -Digits(v, prec) else Digits(v, prec);
    Decimal(v < 0.0, WholeDigits(Leading(n, prec)), FractionDigits(n, prec))
  }

  lemma {:induction false} WholeDigitsRead(n: nat)
    ensures Canonical(WholeDigits(n)) && WholeValue(WholeDigits(n)) == n
    ensures WholeDigits(n)[|WholeDigits(n)| - 1] == n % 10
    ensures 0 < n ==> WholeDigits(n)[0] != 0
  {
    if n < 10 {
      assert [n][..0] == [];
    } else {
      WholeDigitsRead(n / 10);
      assert WholeDigits(n)[..|WholeDigits(n)| - 1] == WholeDigits(n / 10);
    }
  }

  lemma {:induction false} FractionDigitsRead(n: nat, prec: nat)
    ensures AreDigits(FractionDigits(n, prec)) && |FractionDigits(n, prec)| == prec
    ensures WholeValue(WholeDigits(Leading(n, prec)) + FractionDigits(n, prec)) == n
  {
    var whole, fraction := WholeDigits(Leading(n, prec)), FractionDigits(n, prec);
    if prec == 0 {
      WholeDigitsRead(n);
      assert whole + fraction == whole;
    } else {
      FractionDigitsRead(n / 10, prec - 1);
      assert (whole + fraction)[..|whole + fraction| - 1] == whole + FractionDigits(n / 10, prec - 1);
    }
  }

  lemma SplitWeight(m: real, c: real, i: nat)
    requires 0 < i
    ensures Weighed(10.0 * m + c, i) == Weighed(m, i - 1) + Weighed(c, i)
  {
    var p := Place(i);
    Distribute(10.0 * m, c, p);
    assert 10.0 * m * p == m * (10.0 * p);
  }

  lemma Distribute(a: real, b: real, p: real)
    ensures (a + b) * p == a * p + b * p
  {
  }

  lemma {:induction false} PlaceOfTen(prec: nat)
    ensures Place(prec) * TenTo(prec) as real == 1.0
  {
    if prec > 0 {
      PlaceOfTen(prec - 1);
      var p, t := Place(prec), TenTo(prec - 1) as real;
      assert p * (10.0 * t) == 10.0 * p * t;
    }
  }

  // How far s units in the last place are from v.
  lemma ErrorInPlaces(s: real, v: real, prec: nat)
    ensures Weighed(s, prec) - v == Weighed(s - LastPlaces(v, prec), prec)
  {
    var t, p := TenTo(prec) as real, Place(prec);
    PlaceOfTen(prec);
    Distribute(s - v * t, v * t, p);
    assert v * t * p == v * (p * t);
  }

  lemma HalfPlace(e: real, prec: nat)
    ensures e <= 0.5 <==> Weighed(e, prec) <= Place(prec) / 2.0
    ensures -0.5 <= e <==> -(Place(prec) / 2.0) <= Weighed(e, prec)
    ensures e == 0.5 <==> Weighed(e, prec) == Place(prec) / 2.0
    ensures e == -0.5 <==> Weighed(e, prec) == -(Place(prec) / 2.0)
  {
    var p := Place(prec);
    Compared(e, 0.5, p);
    Compared(-0.5, e, p);
    Compared(0.5, e, p);
    Compared(e, -0.5, p);
  }

  lemma Compared(a: real, b: real, p: real)
    requires 0.0 < p
    ensures a < b <==> a * p < b * p
  {
    assert a * p < b * p <==> 0.0 < (b - a) * p by {
      Distribute(b, -a, p);
      assert -a * p == -(a * p);
    }
  }

  // s units in the last place are near v exactly if s is v rounded to an integer number of them.
  lemma NearestInPlaces(s: int, v: real, prec: nat)
    ensures s == Digits(v, prec) <==> Near(Weighed(s as real, prec), v, Place(prec) / 2.0, s)
  {
    var x := LastPlaces(v, prec);
    ErrorInPlaces(s as real, v, prec);
    HalfPlace(s as real - x, prec);
    RoundedIsNearest(x, s);
  }

  lemma RoundedIsNearest(x: real, s: int)
    ensures s == Rounded(x) <==> Near(s as real, x, 0.5, s)
  {
  }

  // The digits with the point left out, as one number.
  function Mantissa(d: Decimal): int {
    var n: int := WholeValue(d.whole + d.fraction);
    if d.negative then -n else n
  }

  lemma {:induction false} PointLeftOut(whole: seq<nat>, fraction: seq<nat>)
    ensures Weighed(WholeValue(whole + fraction) as real, |fraction|)
            == WholeValue(whole) as real + FractionValue(fraction)
  {
    if fraction == [] {
      assert whole + fraction == whole;
    } else {
      var k := |fraction| - 1;
      PointLeftOut(whole, fraction[..k]);
      assert (whole + fraction)[..|whole + fraction| - 1] == whole + fraction[..k];
      SplitWeight(WholeValue(whole + fraction[..k]) as real, fraction[k] as real, |fraction|);
    }
  }

  lemma MantissaReads(d: Decimal, prec: nat)
    requires IsDecimal(d, prec)
    ensures ReadBack(d) == Weighed(Mantissa(d) as real, prec)
  {
    PointLeftOut(d.whole, d.fraction);
    Negated(WholeValue(d.whole + d.fraction) as real, prec);
  }

  lemma LastDigitParity(ds: seq<nat>)
    requires ds != []
    ensures WholeValue(ds) % 2 == ds[|ds| - 1] % 2
  {
    SameParity(WholeValue(ds[..|ds| - 1]), ds[|ds| - 1]);
  }

  lemma SameParity(m: int, c: int)
    ensures (10 * m + c) % 2 == c % 2
  {
    assert 10 * m == 2 * (5 * m);
  }

  lemma NegatedParity(n: int)
    ensures -n % 2 == 0 <==> n % 2 == 0
  {
  }

  lemma LastDigitDecides(d: Decimal)
    requires d.whole != []
    ensures Mantissa(d) % 2 == 0 <==> LastDigit(d) % 2 == 0
  {
    var all := d.whole + d.fraction;
    assert all[|all| - 1] == LastDigit(d);
    LastDigitParity(all);
    NegatedParity(WholeValue(all));
  }

  lemma Negated(x: real, i: nat)
    ensures Weighed(-x, i) == -Weighed(x, i)
  {
  }

  // A decimal shows v exactly if its digits make v rounded to units in its last place.
  lemma ShownMantissa(d: Decimal, v: real, prec: nat)
    requires IsDecimal(d, prec)
    ensures Shows(d, v, prec) <==> (d.negative <==> v < 0.0) && Mantissa(d) == Digits(v, prec)
  {
    MantissaReads(d, prec);
    LastDigitDecides(d);
    NearestInPlaces(Mantissa(d), v, prec);
  }

  lemma {:induction false} NonzeroFront(ds: seq<nat>)
    requires ds != [] && ds[0] != 0
    ensures 0 < WholeValue(ds)
  {
    if |ds| > 1 {
      NonzeroFront(ds[..|ds| - 1]);
    }
  }

  lemma {:induction false} SameWhole(a: seq<nat>, b: seq<nat>)
    requires Canonical(a) && Canonical(b) && WholeValue(a) == WholeValue(b)
    ensures a == b
  {
    var m, n := |a| - 1, |b| - 1;
    assert a == a[..m] + [a[m]] && b == b[..n] + [b[n]];
    assert WholeValue(a[..m]) == WholeValue(b[..n]) && a[m] == b[n];
    if m == 0 {
      if n > 0 {
        NonzeroFront(b[..n]);
      }
    } else {
      NonzeroFront(a[..m]);
      if n > 0 {
        SameWhole(a[..m], b[..n]);
      }
    }
  }

  lemma {:induction false} SameDigits(a: seq<nat>, b: seq<nat>, x: seq<nat>, y: seq<nat>)
    requires Canonical(a) && Canonical(b) && AreDigits(x) && AreDigits(y) && |x| == |y|
    requires WholeValue(a + x) == WholeValue(b + y)
    ensures a == b && x == y
  {
    if x == [] {
      assert a + x == a && b + y == b;
      SameWhole(a, b);
    } else {
      var k := |x| - 1;
      assert (a + x)[..|a + x| - 1] == a + x[..k] && (b + y)[..|b + y| - 1] == b + y[..k];
      SameDigits(a, b, x[..k], y[..k]);
      assert x == x[..k] + [x[k]] && y == y[..k] + [y[k]];
    }
  }

  // Formatting shows the value, and nothing else shows it: to any number of places every value has
  // exactly one text.
  lemma ShownExactlyOnce(d: Decimal, v: real, prec: nat)
    ensures Shows(d, v, prec) <==> d == Formatted(v, prec)
  {
    var f := Formatted(v, prec);
    FormattedReads(v, prec);
    ShownMantissa(f, v, prec);
    if Shows(d, v, prec) {
      ShownMantissa(d, v, prec);
      SameDigits(d.whole, f.whole, d.fraction, f.fraction);
    }
  }

  lemma FormattedReads(v: real, prec: nat)
    ensures IsDecimal(Formatted(v, prec), prec) && Mantissa(Formatted(v, prec)) == Digits(v, prec)
  {
    var n := if v < 0.0 then -Digits(v, prec) else Digits(v, prec);
    WholeDigitsRead(Leading(n, prec));
    FractionDigitsRead(n, prec);
  }

  datatype Size = NotConvertible | Number(value: real)

  // The pieces of the text shown. `Overrun` stands for reading past the end of the suffix table.
  datatype Text = Blank | Text(number: Decimal, suffix: string) | Overrun(number: Decimal)

  // ----- choosing the unit

  // v is size * 1024^base counted in units of 1024^u, and u is the first unit from `base` on in which
  // it is at most 1024, or else one more than the last.
  ghost predicate UnitChoice(size: real, base: nat, v: real, u: nat) {
    && base <= u <= EB + 1
    && Bytes(v, u) == Bytes(size, base)
    && (u <= EB ==> v <= 1024.0)
    && (base < u ==> 1.0 < v)
  }

  lemma ScaleDown(v: real, u: nat)
    ensures Bytes(v / 1024.0, u + 1) == Bytes(v, u)
  {
  }

  method ChooseUnit(size: real, base: nat) returns (v: real, u: nat)
    requires base <= EB
    ensures UnitChoice(size, base, v, u)
  {
    v, u := size, base;
    while v > 1024.0 && u <= EB
      invariant base <= u <= EB + 1
      invariant Bytes(v, u) == Bytes(size, base)
      invariant base < u ==> 1.0 < v
      decreases EB + 1 - u
    {
      ScaleDown(v, u);
      v := v / 1024.0;
      u := u + 1;
    }
  }

  // The loop stands in a method of its own; the rest selects the text.
  method FormatUnit(size: Size, base: nat, prec: nat, isSpeed: bool) returns (text: Text)
    requires base <= EB
    ensures size.NotConvertible? <==> text == Blank
    ensures size.Number? ==> (text.Overrun? <==> Bytes(size.value, base) > Power(7))
    ensures text.Text? ==>
              exists v, u: nat ::
                && u <= EB && UnitChoice(size.value, base, v, u) && Shows(text.number, v, prec)
                && text.suffix == if isSpeed then UNIT_SUFFIX_EXT[u] + "/s" else UNIT_SUFFIX[u]
  {
    if size.NotConvertible? {
      return Blank;
    }
    var v, u := ChooseUnit(size.value, base);
    OverrunExactly(size.value, base, v, u);
    var number := Formatted(v, prec);
    ShownExactlyOnce(number, v, prec);
    if u >= |UNIT_SUFFIX| {
      text := Overrun(number);
    } else if isSpeed {
      text := Text(number, UNIT_SUFFIX_EXT[u] + "/s");
    } else {
      text := Text(number, UNIT_SUFFIX[u]);
    }
  }

  lemma {:induction false} PowerIsMonotone(j: nat, k: nat)
    requires j <= k
    ensures Power(j) <= Power(k)
    ensures j < k ==> Power(j) < Power(k)
  {
    if j < k {
      PowerIsMonotone(j, k - 1);
    }
  }

  lemma BytesAreMonotone(a: real, b: real, u: nat)
    ensures a <= b ==> Bytes(a, u) <= Bytes(b, u)
    ensures a < b ==> Bytes(a, u) < Bytes(b, u)
    ensures Bytes(1.0, u) == Power(u) && Bytes(1024.0, u) == Power(u + 1)
  {
    Multiplied(a, b, Power(u));
  }

  lemma Multiplied(a: real, b: real, p: real)
    requires 1.0 <= p
    ensures a <= b ==> a * p <= b * p
    ensures a < b ==> a * p < b * p
  {
  }

  // The bytes lie above 1024^u and up to 1024^(u+1).
  lemma UnitInterval(size: real, base: nat, v: real, u: nat)
    requires UnitChoice(size, base, v, u)
    ensures base < u ==> Power(u) < Bytes(size, base)
    ensures u <= EB ==> Bytes(size, base) <= Power(u + 1)
  {
    BytesAreMonotone(1.0, v, u);
    BytesAreMonotone(v, 1024.0, u);
  }

  // The chosen unit is past the table exactly when the size exceeds 1024^7 bytes.
  lemma OverrunExactly(size: real, base: nat, v: real, u: nat)
    requires base <= EB && UnitChoice(size, base, v, u)
    ensures u > EB <==> Bytes(size, base) > Power(7)
  {
    UnitInterval(size, base, v, u);
    if u <= EB {
      PowerIsMonotone(u + 1, 7);
    }
  }

  // value is size counted in units of 1024^order, and order is the first unit in which it is below
  // 1024, or else the last of the table.
  ghost predicate OrderChoice(size: real, orders: nat, value: real, order: nat) {
    && order < orders
    && Bytes(value, order) == size
    && (order + 1 < orders ==> value < 1024.0)
    && (0 < order ==> 1.0 <= value)
  }

  // An empty table has no entry to show.
  method FormatUnitSize(v: real, orders: seq<string>, showUnit: bool, prec: nat) returns (number: Decimal, unit: string)
    requires 0 < |orders|
    ensures exists value, order: nat ::
              && OrderChoice(v, |orders|, value, order) && Shows(number, value, prec)
              && unit == if showUnit then orders[order] else ""
  {
    var order, value := 0, v;
    while value >= 1024.0 && order + 1 < |orders|
      invariant order < |orders|
      invariant Bytes(value, order) == v
      invariant 0 < order ==> 1.0 <= value
    {
      ScaleDown(value, order);
      order := order + 1;
      value := value / 1024.0;
    }
    number := Formatted(value, prec);
    ShownExactlyOnce(number, value, prec);
    unit := if showUnit then orders[order] else "";
    assert OrderChoice(v, |orders|, value, order);
  }

  method FormatByteCount(v: real, showUnit: bool, prec: nat) returns (number: Decimal, unit: string)
    ensures exists value, order: nat ::
              && OrderChoice(v, 5, value, order) && Shows(number, value, prec)
              && unit == if showUnit then BYTE_ORDERS[order] else ""
  {
    number, unit := FormatUnitSize(v, BYTE_ORDERS, showUnit, prec);
  }

  lemma TopInPlaces(prec: nat) returns (top: int)
    ensures top % 2 == 0 && Weighed(top as real, prec) == 1024.0
  {
    PlaceOfTen(prec);
    top := EvenTop(TenTo(prec));
    TimesTop(top as real, TenTo(prec) as real, Place(prec));
  }

  lemma EvenTop(t: int) returns (top: int)
    ensures top % 2 == 0 && top as real == 1024.0 * t as real
  {
    top := 1024 * t;
    Doubled(512 * t);
  }

  lemma Doubled(n: int)
    ensures 2 * n % 2 == 0
  {
  }

  lemma TimesTop(top: real, t: real, p: real)
    requires p * t == 1.0 && top == 1024.0 * t
    ensures top * p == 1024.0
  {
    assert top * p == 1024.0 * (p * t);
  }

  lemma WeighedSign(e: real, prec: nat)
    ensures 0.0 <= e <==> 0.0 <= Weighed(e, prec)
  {
    Compared(e, 0.0, Place(prec));
  }

  lemma DigitsAtTop(v: real, prec: nat, top: int)
    requires top % 2 == 0 && LastPlaces(v, prec) <= top as real
    ensures Digits(v, prec) <= top && (Digits(v, prec) == top <==> top as real - LastPlaces(v, prec) <= 0.5)
  {
  }

  lemma WeighedOrder(s: int, top: int, prec: nat)
    ensures s <= top <==> Weighed(s as real, prec) <= Weighed(top as real, prec)
    ensures s == top <==> Weighed(s as real, prec) == Weighed(top as real, prec)
  {
    Compared(s as real, top as real, Place(prec));
    Compared(top as real, s as real, Place(prec));
  }

  // Rounding never shows more than 1024 units before the last one. It shows 1024 of them, where one of
  // the next unit is meant, exactly when the value is within half a unit in the last place of 1024.
  lemma ShownBelowNextUnit(size: real, orders: nat, value: real, order: nat, d: Decimal, prec: nat)
    requires OrderChoice(size, orders, value, order) && order + 1 < orders && Shows(d, value, prec)
    ensures ReadBack(d) <= 1024.0
    ensures ReadBack(d) == 1024.0 <==> 1024.0 - Place(prec) / 2.0 <= value
  {
    ShownMantissa(d, value, prec);
    MantissaReads(d, prec);
    ShownTop(value, prec);
  }

  lemma ShownTop(value: real, prec: nat)
    requires value <= 1024.0
    ensures var w := Weighed(Digits(value, prec) as real, prec);
            w <= 1024.0 && (w == 1024.0 <==> 1024.0 - Place(prec) / 2.0 <= value)
  {
    var top := TopInPlaces(prec);
    ErrorInPlaces(top as real, value, prec);
    WeighedSign(top as real - LastPlaces(value, prec), prec);
    HalfPlace(top as real - LastPlaces(value, prec), prec);
    DigitsAtTop(value, prec, top);
    WeighedOrder(Digits(value, prec), top, prec);
  }

  lemma OrderInterval(size: real, orders: nat, value: real, order: nat)
    requires OrderChoice(size, orders, value, order)
    ensures 0 < order ==> Power(order) <= size
    ensures order + 1 < orders ==> size < Power(order + 1)
  {
    BytesAreMonotone(1.0, value, order);
    BytesAreMonotone(value, 1024.0, order);
  }

  // For a number of bytes the two scalers choose the same unit exactly when it is at most 1024^5 and
  // not one of the powers 1024 .. 1024^4.
  lemma ScalersAgree(size: real, v: real, u: nat, value: real, order: nat)
    requires UnitChoice(size, 0, v, u) && OrderChoice(size, 5, value, order)
    ensures u == order <==> size <= Power(5) && forall k :: 1 <= k <= 4 ==> size != Power(k)
  {
    UnitInterval(size, 0, v, u);
    OrderInterval(size, 5, value, order);
    if u == order {
      forall k | 1 <= k <= 4
        ensures size != Power(k)
      {
        if k <= u {
          PowerIsMonotone(k, u);
        } else if u < 4 {
          PowerIsMonotone(u + 1, k);
        }
      }
      PowerIsMonotone(u + 1, 5);
    } else if u < order {
      PowerIsMonotone(u + 1, order);
      assert size == Power(order);
    } else if order < 4 {
      PowerIsMonotone(order + 1, u);
    } else {
      PowerIsMonotone(5, u);
    }
  }

  // 1024 bytes are 1024 of one scaler's first unit and one of the other's second.
  lemma ScalersDisagreeAt1024(v: real, u: nat, value: real, order: nat)
    requires UnitChoice(1024.0, 0, v, u) && OrderChoice(1024.0, 5, value, order)
    ensures u == 0 && v == 1024.0 && order == 1 && value == 1.0
  {
    UnitInterval(1024.0, 0, v, u);
    OrderInterval(1024.0, 5, value, order);
    PowersGrow(u);
    PowersGrow(order);
  }

  lemma PowersGrow(k: nat)
    ensures Power(0) == 1.0 && Power(1) == 1024.0
    ensures 0 < k ==> 1024.0 <= Power(k)
    ensures 1 < k ==> 1024.0 * 1024.0 <= Power(k)
  {
    assert Power(1) == 1024.0 * Power(0);
    assert Power(2) == 1024.0 * Power(1);
    if 0 < k {
      PowerIsMonotone(1, k);
    }
    if 1 < k {
      PowerIsMonotone(2, k);
    }
  }

  lemma OneAndAHalf()
    ensures Shows(Decimal(false, [1], [5]), 1.5, 1)
  {
    var d := Decimal(false, [1], [5]);
    assert [1][..0] == [] && [5][..0] == [];
    assert WholeValue(d.whole) == 1;
    assert Weighed(5.0, 1) == 0.5 by {
      assert Place(1) == Place(0) / 10.0;
    }
    assert FractionValue(d.fraction) == FractionValue([]) + Weighed(5.0, 1);
  }

  // 1536 bytes are shown as 1.5 K.
  lemma FifteenHundredBytes(v: real, u: nat, d: Decimal)
    requires UnitChoice(1536.0, 0, v, u) && Shows(d, v, 1)
    ensures u == 1 && d == Decimal(false, [1], [5])
  {
    FifteenHundredUnits(v, u);
    OneAndAHalf();
    ShownExactlyOnce(Decimal(false, [1], [5]), 1.5, 1);
    ShownExactlyOnce(d, 1.5, 1);
  }

  lemma FifteenHundredUnits(v: real, u: nat)
    requires UnitChoice(1536.0, 0, v, u)
    ensures u == 1 && v == 1.5
  {
    UnitInterval(1536.0, 0, v, u);
    PowersGrow(u);
  }
}
