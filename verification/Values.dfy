/** src/common/value.cpp: the value variant, its types and its order. */
module Values {
  import Ordering

  const TWO_63: int := 0x8000_0000_0000_0000
  const TWO_64: int := 0x1_0000_0000_0000_0000

  type Int64 = x: int | -TWO_63 <= x < TWO_63
  type Word64 = x: int | 0 <= x < TWO_64

  /** The codes an `enum class ColumnType : std::uint8_t` can hold beyond the three it names. */
  type OtherCode = n: nat | 3 <= n < 256 witness 3

  datatype ColumnType = IntType | DoubleType | StringType | OtherType(code: OtherCode)

  /** `std::variant<monostate, int64_t, double, string>`; a double is held as its 64-bit pattern. */
  datatype Value = Null | Int(i: Int64) | Dbl(bits: Word64) | Str(s: string)

  type Row = seq<Value>

  datatype Column = Column(name: string, ctype: ColumnType, nullable: bool)

  function TypeOf(v: Value): ColumnType
    requires !v.Null?
  {
    match v
    case Int(_) => IntType
    case Dbl(_) => DoubleType
    case Str(_) => StringType
  }

  function TypeCode(t: ColumnType): nat {
    match t
    case IntType => 0
    case DoubleType => 1
    case StringType => 2
    case OtherType(code) => code
  }

  function VariantIndex(v: Value): nat {
    match v
    case Null => 0
    case Int(_) => 1
    case Dbl(_) => 2
    case Str(_) => 3
  }

  /** `std::string` order: lexicographic on characters. */
  predicate StrLess(a: string, b: string) {
    if b == [] then false
    else if a == [] then true
    else a[0] < b[0] || (a[0] == b[0] && StrLess(a[1..], b[1..]))
  }

  /** Position of a double's bit pattern in the IEEE 754 total order: negatives run backwards below positives. */
  function DoubleKey(bits: Word64): int {
    if bits < TWO_63 then bits else TWO_63 - 1 - bits
  }

  /** The branches of `operator<`: nulls by variant index, then by type, then by payload. */
  predicate ValueLess(l: Value, r: Value) {
    if l.Null? || r.Null? then VariantIndex(l) < VariantIndex(r)
    else if TypeOf(l) != TypeOf(r) then TypeCode(TypeOf(l)) < TypeCode(TypeOf(r))
    else match l
      case Int(i) => i < r.i
      case Dbl(d) => DoubleKey(d) < DoubleKey(r.bits)
      case Str(s) => StrLess(s, r.s)
  }

  lemma {:induction false} StrLessTransitive(a: string, b: string, c: string)
    requires StrLess(a, b) && StrLess(b, c)
    ensures StrLess(a, c)
  {
    if a != [] && a[0] == b[0] && b[0] == c[0] {
      StrLessTransitive(a[1..], b[1..], c[1..]);
    }
  }

  lemma {:induction false} StrLessTotal(a: string, b: string)
    ensures !StrLess(a, a)
    ensures a == b || StrLess(a, b) || StrLess(b, a)
  {
    if a != [] && b != [] {
      StrLessTotal(a[1..], b[1..]);
      assert a == [a[0]] + a[1..] && b == [b[0]] + b[1..];
    } else if a != [] {
      StrLessTotal(a[1..], []);
    }
  }

  lemma ValueLessTransitive(a: Value, b: Value, c: Value)
    requires ValueLess(a, b) && ValueLess(b, c)
    ensures ValueLess(a, c)
  {
    if a.Str? && b.Str? && c.Str? {
      StrLessTransitive(a.s, b.s, c.s);
    }
  }

  lemma ValueLessTotal(a: Value, b: Value)
    ensures !ValueLess(a, a)
    ensures a == b || ValueLess(a, b) || ValueLess(b, a)
  {
    if a.Str? {
      StrLessTotal(a.s, if b.Str? then b.s else a.s);
    }
  }

  lemma StrOrder()
    ensures Ordering.StrictTotal(StrLess)
  {
    forall a, b ensures !StrLess(a, a) && (a == b || StrLess(a, b) || StrLess(b, a)) { StrLessTotal(a, b); }
    forall a, b, c | StrLess(a, b) && StrLess(b, c) ensures StrLess(a, c) { StrLessTransitive(a, b, c); }
  }

  /** `operator<` is a strict total order whose incomparability is `==`: what `std::map<Value, ...>` relies on. */
  lemma ValueOrder()
    ensures Ordering.StrictTotal(ValueLess)
  {
    forall a, b ensures !ValueLess(a, a) && (a == b || ValueLess(a, b) || ValueLess(b, a)) { ValueLessTotal(a, b); }
    forall a, b, c | ValueLess(a, b) && ValueLess(b, c) ensures ValueLess(a, c) { ValueLessTransitive(a, b, c); }
  }

  // ----- Where doubles compare otherwise in C++ -----

  /** The exponent is all ones and the fraction is not zero. */
  predicate IsNaN(bits: Word64) {
    bits % TWO_63 > 0x7FF0_0000_0000_0000
  }

  predicate IsZero(bits: Word64) {
    bits % TWO_63 == 0
  }

  /** `<` on doubles: NaN is not comparable and the two zeros are equal; otherwise sign and magnitude decide. */
  predicate DoubleLess(a: Word64, b: Word64) {
    !IsNaN(a) && !IsNaN(b) &&
    (if a < TWO_63 then a else TWO_63 - a) < (if b < TWO_63 then b else TWO_63 - b)
  }

  /** `operator<` with the comparison of doubles as the language has it. */
  predicate SourceLess(l: Value, r: Value) {
    if l.Dbl? && r.Dbl? then DoubleLess(l.bits, r.bits) else ValueLess(l, r)
  }

  /** The two orders disagree on a NaN and on the two zeros, and nowhere else. */
  lemma SourceLessExactly(l: Value, r: Value)
    ensures (SourceLess(l, r) <==> ValueLess(l, r)) <==>
        !(l.Dbl? && r.Dbl? && ValueLess(l, r) &&
          (IsNaN(l.bits) || IsNaN(r.bits) || (IsZero(l.bits) && IsZero(r.bits))))
  {
    if l.Dbl? && r.Dbl? {
      assert l.bits % TWO_63 == if l.bits < TWO_63 then l.bits else l.bits - TWO_63;
      assert r.bits % TWO_63 == if r.bits < TWO_63 then r.bits else r.bits - TWO_63;
    }
  }

  /** With a NaN among its keys a `std::map` has no order to rely on: 1.0 is below 2.0, and NaN is level with both. */
  lemma NaNBreaksOrder()
    ensures var one, two, nan := Dbl(0x3FF0_0000_0000_0000), Dbl(0x4000_0000_0000_0000), Dbl(0x7FF8_0000_0000_0000);
      && SourceLess(one, two)
      && !SourceLess(one, nan) && !SourceLess(nan, one) && !SourceLess(two, nan) && !SourceLess(nan, two)
  {
  }

  /** Key order of a `std::map<Value, ...>`. */
  function SortedValues(s: set<Value>): (r: seq<Value>)
    ensures Ordering.Increasing(ValueLess, r)
    ensures forall x :: x in r <==> x in s
    ensures |r| == |s|
  {
    ValueOrder();
    Ordering.Sorted(ValueLess, s)
  }

  /** Key order of a `std::map<std::string, ...>`. */
  function SortedNames(s: set<string>): (r: seq<string>)
    ensures Ordering.Increasing(StrLess, r)
    ensures forall x :: x in r <==> x in s
    ensures |r| == |s|
  {
    StrOrder();
    Ordering.Sorted(StrLess, s)
  }

  lemma SortedNamesDistinct(s: set<string>)
    ensures var names := SortedNames(s); forall i, j :: 0 <= i < j < |names| ==> names[i] != names[j]
  {
    StrOrder();
    var names := SortedNames(s);
    forall i, j | 0 <= i < j < |names| ensures names[i] != names[j] {
      assert StrLess(names[i], names[j]);
    }
  }
}
