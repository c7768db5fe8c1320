/** What the comparisons of a WHERE clause mean for the values compared. */
module Comparisons {
  import opened Results
  import opened Values
  import opened Ast
  import opened Relations

  /** AND holds when both sides hold, and OR fails when both sides fail. */
  lemma {:induction false} ConnectivesEvaluate(schema: seq<Column>, row: Row, l: Predicate, r: Predicate)
    ensures Matches(schema, row, And(l, r)) == Ok(true) <==>
        Matches(schema, row, l) == Ok(true) && Matches(schema, row, r) == Ok(true)
    ensures Matches(schema, row, Or(l, r)) == Ok(false) <==>
        Matches(schema, row, l) == Ok(false) && Matches(schema, row, r) == Ok(false)
  {
    var x, y := Matches(schema, row, l), Matches(schema, row, r);
    assert Matches(schema, row, And(l, r)) == if x.Err? then Err else if x.value then y else Ok(false);
    assert Matches(schema, row, Or(l, r)) == if x.Err? then Err else if x.value then Ok(true) else y;
  }

  /** A comparison is one with the first column of its name. */
  lemma ComparisonEvaluates(schema: seq<Column>, row: Row, c: Predicate, i: nat)
    requires |row| == |schema| && c.Comparison? && i < |schema| && schema[i].name == c.column
    requires forall j :: 0 <= j < i ==> schema[j].name != c.column
    ensures Matches(schema, row, c) == Ok(Compare(row[i], c.op, c.value))
  {
    hide Compare;
    assert ColumnIndex(schema, c.column) == Some(i);
  }

  /** Integers compare as numbers. */
  lemma IntsCompare(a: Int64, b: Int64)
    ensures Compare(Int(a), LessThan, Int(b)) <==> a < b
    ensures Compare(Int(a), GreaterThan, Int(b)) <==> a > b
    ensures Compare(Int(a), EqualTo, Int(b)) <==> a == b
  {
  }

  /** NULL is below every other value and equal to itself. */
  lemma NullsCompare(v: Value)
    ensures Compare(Null, LessThan, v) <==> v != Null
    ensures Compare(v, GreaterThan, Null) <==> v != Null
    ensures !Compare(v, LessThan, Null) && !Compare(Null, GreaterThan, v)
    ensures Compare(Null, EqualTo, v) <==> v == Null
    ensures Compare(v, EqualTo, Null) <==> v == Null
  {
  }

  /** Values of different types compare by type: integers below doubles below strings. */
  lemma TypesCompare(i: Int64, bits: Word64, s: string)
    ensures forall l, r :: (l, r) in {(Int(i), Dbl(bits)), (Dbl(bits), Str(s)), (Int(i), Str(s))} ==>
      && Compare(l, LessThan, r) && !Compare(r, LessThan, l)
      && Compare(r, GreaterThan, l) && !Compare(l, GreaterThan, r)
      && !Compare(l, EqualTo, r) && !Compare(r, EqualTo, l)
  {
  }

  // ----- Strings -----

  /** `a` is a proper prefix of `b`, or has the smaller character where they first differ. */
  ghost predicate Before(a: string, b: string) {
    exists i :: 0 <= i <= |a| && i < |b| && a[..i] == b[..i] && (i == |a| || a[i] < b[i])
  }

  lemma {:induction false} StrLessIsBefore(a: string, b: string)
    ensures StrLess(a, b) <==> Before(a, b)
  {
    if b != [] && a == [] {
      assert a[..0] == b[..0];
    } else if b != [] && a[0] != b[0] {
      assert a[..0] == b[..0];
      forall i | 0 < i <= |a| && i < |b| ensures a[..i] != b[..i] {
        assert a[..i][0] == a[0] && b[..i][0] == b[0];
      }
    } else if b != [] {
      StrLessIsBefore(a[1..], b[1..]);
      if Before(a[1..], b[1..]) {
        var i :| 0 <= i <= |a[1..]| && i < |b[1..]| && a[1..][..i] == b[1..][..i] &&
            (i == |a[1..]| || a[1..][i] < b[1..][i]);
        assert a[..i + 1] == [a[0]] + a[1..][..i] && b[..i + 1] == [b[0]] + b[1..][..i];
      }
      if Before(a, b) {
        var i :| 0 <= i <= |a| && i < |b| && a[..i] == b[..i] && (i == |a| || a[i] < b[i]);
        assert a[1..][..i - 1] == a[..i][1..] && b[1..][..i - 1] == b[..i][1..];
      }
    }
  }

  lemma StringsCompare(a: string, b: string)
    ensures Compare(Str(a), LessThan, Str(b)) <==> Before(a, b)
    ensures Compare(Str(a), GreaterThan, Str(b)) <==> Before(b, a)
    ensures Compare(Str(a), EqualTo, Str(b)) <==> a == b
  {
    hide StrLess;
    StrLessIsBefore(a, b);
    StrLessIsBefore(b, a);
  }

  // ----- Doubles -----

  function Pow2(n: nat): (p: nat)
    ensures p > 0
  {
    if n == 0 then 1 else 2 * Pow2(n - 1)
  }

  const TWO_52: int := 0x10_0000_0000_0000

  /** The magnitude of exponent and fraction bits, in units of the least double above zero. */
  function Magnitude(exponent: nat, fraction: nat): nat {
    if exponent == 0 then fraction else (TWO_52 + fraction) * Pow2(exponent - 1)
  }

  /** The number a double stands for, in the same units; infinities are the numbers beyond all others. */
  function Number(bits: Word64): int {
    var body := bits % TWO_63;
    var magnitude: int := Magnitude(body / TWO_52, body % TWO_52);
    if bits < TWO_63 then magnitude else -magnitude
  }

  lemma {:induction false} Pow2Grows(a: nat, b: nat)
    requires a <= b
    ensures Pow2(a) <= Pow2(b)
    decreases b
  {
    if a < b {
      Pow2Grows(a, b - 1);
    }
  }

  /** A greater exponent is a greater magnitude, whatever the fractions. */
  lemma ExponentDecides(e: nat, f: nat, d: nat, g: nat)
    requires e < d && f < TWO_52 && g < TWO_52
    ensures Magnitude(e, f) < Magnitude(d, g)
  {
    var p := Pow2(d - 1);
    assert (TWO_52 + g) * p >= TWO_52 * p;
    if e == 0 {
      assert TWO_52 * p >= TWO_52;
    } else {
      var q := Pow2(e - 1);
      Pow2Grows(e, d - 1);
      assert p >= 2 * q;
      assert (TWO_52 + f) * q < (2 * TWO_52) * q == TWO_52 * (2 * q) <= TWO_52 * p;
    }
  }

  lemma FractionDecides(e: nat, f: nat, g: nat)
    requires f < g
    ensures Magnitude(e, f) < Magnitude(e, g)
  {
    if e > 0 {
      var p := Pow2(e - 1);
      assert (TWO_52 + f) * p < (TWO_52 + g) * p;
    }
  }

  lemma MagnitudeGrows(a: nat, b: nat)
    requires a < b
    ensures Magnitude(a / TWO_52, a % TWO_52) < Magnitude(b / TWO_52, b % TWO_52)
  {
    hide Magnitude;
    var e, f, d, g := a / TWO_52, a % TWO_52, b / TWO_52, b % TWO_52;
    assert a == TWO_52 * e + f && b == TWO_52 * d + g;
    if e < d {
      ExponentDecides(e, f, d, g);
    } else {
      assert e == d;
      FractionDecides(e, f, g);
    }
  }

  lemma NumberOfZero(bits: Word64)
    ensures Number(bits) == 0 <==> IsZero(bits)
    ensures Number(bits) > 0 <==> !IsZero(bits) && bits < TWO_63
    ensures Number(bits) < 0 <==> !IsZero(bits) && bits >= TWO_63
  {
    hide Magnitude;
    var body := bits % TWO_63;
    assert Magnitude(0, 0) == 0 by { ZeroMagnitude(); }
    if body > 0 {
      MagnitudeGrows(0, body);
    }
  }

  lemma ZeroMagnitude()
    ensures Magnitude(0, 0) == 0
  {
  }

  /** Two doubles of the same sign are ordered as their bits, backwards when negative. */
  lemma NumbersOrder(a: Word64, b: Word64)
    ensures a < b < TWO_63 ==> Number(a) < Number(b)
    ensures TWO_63 <= a < b ==> Number(b) < Number(a)
  {
    hide Magnitude;
    if a < b < TWO_63 {
      MagnitudeGrows(a, b);
    } else if TWO_63 <= a < b {
      assert a % TWO_63 == a - TWO_63 && b % TWO_63 == b - TWO_63;
      MagnitudeGrows(a - TWO_63, b - TWO_63);
    }
  }

  /** Doubles other than NaN compare as the numbers they stand for, save that the model keeps the two zeros apart. */
  lemma DoublesCompare(a: Word64, b: Word64)
    requires !IsNaN(a) && !IsNaN(b) && !(IsZero(a) && IsZero(b))
    ensures Compare(Dbl(a), LessThan, Dbl(b)) <==> Number(a) < Number(b)
    ensures Compare(Dbl(a), GreaterThan, Dbl(b)) <==> Number(a) > Number(b)
    ensures Compare(Dbl(a), EqualTo, Dbl(b)) <==> Number(a) == Number(b)
  {
    hide Number;
    NumberOfZero(a);
    NumberOfZero(b);
    NumbersOrder(a, b);
    NumbersOrder(b, a);
    assert IsZero(a) <==> a == 0 || a == TWO_63;
    assert IsZero(b) <==> b == 0 || b == TWO_63;
  }

  /** The language's own `<` is that of the numbers, NaN apart. */
  lemma DoubleLessIsNumberLess(a: Word64, b: Word64)
    ensures DoubleLess(a, b) <==> !IsNaN(a) && !IsNaN(b) && Number(a) < Number(b)
  {
    hide Number;
    NumberOfZero(a);
    NumberOfZero(b);
    NumbersOrder(a, b);
    NumbersOrder(b, a);
    assert IsZero(a) <==> a == 0 || a == TWO_63;
    assert IsZero(b) <==> b == 0 || b == TWO_63;
  }

  /** NaN: all exponent bits set and a fraction left; the least of them is one above infinity. */
  lemma NaNExactly(bits: Word64)
    ensures IsNaN(bits) <==> (bits % TWO_63) / TWO_52 == 2047 && bits % TWO_52 != 0
  {
    var body := bits % TWO_63;
    assert bits % TWO_52 == body % TWO_52 by {
      assert TWO_63 == 2048 * TWO_52;
      var k := bits / TWO_63;
      assert bits == body + (k * 2048) * TWO_52;
      SameRemainder(body, k * 2048);
    }
    assert body == TWO_52 * (body / TWO_52) + body % TWO_52;
  }

  lemma SameRemainder(x: nat, k: nat)
    ensures (x + k * TWO_52) % TWO_52 == x % TWO_52
    decreases k
  {
    if k > 0 {
      SameRemainder(x, k - 1);
      assert x + k * TWO_52 == (x + (k - 1) * TWO_52) + TWO_52;
      assert (x + k * TWO_52) % TWO_52 == (x + (k - 1) * TWO_52) % TWO_52;
    }
  }
}
