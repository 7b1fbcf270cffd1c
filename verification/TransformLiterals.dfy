/** Boxing a literal into a scalar, and widening it to a column's type when nothing is lost. */
module TransformLiterals {
  import opened RowModel
  import opened Digits
  import opened TransformCatalog

  /** One value of a column or a scalar; kernels may produce values of any kind. */
  datatype Cell =
    | Null | BoolCell(b: bool) | IntCell(n: int) | DecimalCell(unscaled: int)
    | FloatCell(spelling: string) | TextCell(s: string) | OtherCell(id: int)

  function LiteralType(v: Literal): ValueType {
    match v
    case StringLit(_) => ValueType(String, 0, 0)
    case IntLit(_) => ValueType(Int64, 0, 0)
    case FloatLit(_) => ValueType(Float64, 0, 0)
    case BoolLit(_) => ValueType(Bool, 0, 0)
  }

  function FormatInt(n: int): string { if n < 0 then "-" + Format(-n) else Format(n) }

  /** strings.Cut at the first point. */
  function Cut(s: string): (parts: (string, string)) {
    if s == "" then ("", "")
    else if s[0] == '.' then ("", s[1..])
    else (s[..1] + Cut(s[1..]).0, Cut(s[1..]).1)
  }

  function Sign(s: string): int { if |s| > 0 && s[0] == '-' then -1 else 1 }

  function Signed(s: string, n: int): int { if Sign(s) < 0 then -n else n }

  function Unsigned(s: string): string { if |s| > 0 && s[0] in "+-" then s[1..] else s }

  /** big.Int SetString in base 10: an optional sign and at least one digit. */
  function SetString(s: string): (n: Option<int>) {
    var digits := Unsigned(s);
    if digits == "" || !AllDigits(digits) then None else Some(Signed(s, Value(digits)))
  }

  function Spelling(v: Literal): (s: string)
    requires v.IntLit? || v.FloatLit?
  {
    if v.IntLit? then FormatInt(v.n) else v.spelling
  }

  /** The decimal128 a literal becomes at type t, through its decimal spelling and never through float arithmetic. */
  function DecimalLiteral(v: Literal, t: ValueType): (unscaled: Option<int>) {
    if !StorageOf(t).ADecimal128? || v.StringLit? || v.BoolLit? then None else
      var parts := Cut(Spelling(v));
      DecimalOf(parts.0, parts.1, t)
  }

  /** The padded digits read as an integer, unless the fraction is too long or the precision too small. */
  function DecimalOf(whole: string, frac: string, t: ValueType): Option<int>
    requires t.precision >= 0
  {
    if |frac| > t.scale then None else
      Fitting(SetString(whole + (frac + Zeros(t.scale - |frac|))), t.precision)
  }

  function Fitting(n: Option<int>, precision: nat): (r: Option<int>)
    ensures forall u :: r == Some(u) <==> n == Some(u) && Abs(u) < Pow10(precision)
  {
    if n.None? || Abs(n.value) >= Pow10(precision) then None else n
  }

  function Abs(n: int): nat { if n < 0 then -n else n }

  /** coercible: whether v can stand in for a value of type t. */
  predicate Coercible(v: Literal, t: ValueType) {
    if t.logical == Decimal then DecimalLiteral(v, t).Some? else
      match v
      case IntLit(n) =>
        (match t.logical
         case Int16 => -0x8000 <= n < 0x8000
         case Int32 => -0x8000_0000 <= n < 0x8000_0000
         case Int64 => true
         case Float32 => true
         case Float64 => true
         case _ => false)
      case FloatLit(_) => t.logical == Float32 || t.logical == Float64
      case _ => false
  }

  /** Go's int16(n) and int32(n) keep the low bits. */
  function ToInt16(n: int): (m: int) { (n + 0x8000) % 0x1_0000 - 0x8000 }
  function ToInt32(n: int): (m: int) { (n + 0x8000_0000) % 0x1_0000_0000 - 0x8000_0000 }

  /** newLiteralNode: the scalar a literal becomes at type t. */
  function Boxed(v: Literal, t: ValueType): Cell {
    if t.logical == Decimal then
      (var n := DecimalLiteral(v, t); DecimalCell(if n.Some? then n.value else 0))
    else
      match v
      case StringLit(s) => TextCell(s)
      case BoolLit(b) => BoolCell(b)
      case IntLit(n) =>
        (match t.logical
         case Int16 => IntCell(ToInt16(n))
         case Int32 => IntCell(ToInt32(n))
         case Float32 => FloatCell(FormatInt(n))
         case Float64 => FloatCell(FormatInt(n))
         case _ => IntCell(n))
      case FloatLit(s) => FloatCell(s)
  }

  /** The storage type newLiteralNode boxes into. */
  function BoxedType(v: Literal, t: ValueType): ArrowType {
    if t.logical == Decimal then StorageOf(t) else
      match v
      case StringLit(_) => AUtf8
      case BoolLit(_) => ABool
      case IntLit(_) =>
        (match t.logical
         case Int16 => AInt16
         case Int32 => AInt32
         case Float32 => AFloat32
         case Float64 => AFloat64
         case _ => AInt64)
      case FloatLit(_) => if t.logical == Float32 then AFloat32 else AFloat64
  }

  /** A literal boxed at its own type, or at a type it widens to, is stored at exactly that type. */
  lemma BoxedAtType(v: Literal, t: ValueType)
    requires t == LiteralType(v) || Coercible(v, t)
    ensures BoxedType(v, t) == StorageOf(t)
  {}

  /** Integer widening is exact: an integer literal a column admits reads back as itself. */
  lemma IntegerWideningExact(n: int64, t: ValueType)
    requires Coercible(IntLit(n), t) && t.logical in {Int16, Int32, Int64}
    ensures Boxed(IntLit(n), t) == IntCell(n)
  {}

  // ---- decimal literals are exact or refused ----

  /** The parts of what strconv prints for a finite number: a signed whole, and a fraction without a final zero. */
  ghost predicate Shortest(whole: string, frac: string) {
    SetString(whole).Some? && AllDigits(frac) && (frac != "" ==> frac[|frac| - 1] != '0')
  }

  ghost predicate ShortestSpelling(v: Literal) {
    v.IntLit? || (v.FloatLit? && Shortest(Cut(v.spelling).0, Cut(v.spelling).1))
  }

  ghost function Significand(whole: string, frac: string): (digits: string)
    requires SetString(whole).Some? && AllDigits(frac)
    ensures AllDigits(digits)
  {
    Unsigned(whole) + frac
  }

  /** The number spelled is numerator / 10^|frac|. */
  ghost function Numerator(whole: string, frac: string): (n: int)
    requires SetString(whole).Some? && AllDigits(frac)
  {
    Signed(whole, Value(Significand(whole, frac)))
  }

  /** n times ten to the k. */
  function ScaleUp(n: int, k: nat): int { if k == 0 then n else 10 * ScaleUp(n, k - 1) }

  lemma {:induction false} ScaleUpIs(n: int, k: nat)
    ensures ScaleUp(n, k) == n * Pow10(k)
  {
    if k > 0 {
      ScaleUpIs(n, k - 1);
      assert 10 * (n * Pow10(k - 1)) == n * (10 * Pow10(k - 1));
    }
  }

  lemma {:induction false} ScaleUpAdd(n: int, a: nat, b: nat)
    ensures ScaleUp(n, a + b) == ScaleUp(ScaleUp(n, a), b)
  {
    if b > 0 { ScaleUpAdd(n, a, b - 1); }
  }

  lemma {:induction false} ScaleUpInjective(n: int, m: int, k: nat)
    ensures ScaleUp(n, k) == ScaleUp(m, k) <==> n == m
  {
    if k > 0 { ScaleUpInjective(n, m, k - 1); }
  }

  lemma {:induction false} ScaleUpNegative(n: int, k: nat)
    ensures ScaleUp(-n, k) == -ScaleUp(n, k)
  {
    if k > 0 { ScaleUpNegative(n, k - 1); }
  }

  /** u is the number's value at the given scale. */
  ghost predicate ScaledTo(whole: string, frac: string, scale: nat, u: int)
    requires SetString(whole).Some? && AllDigits(frac)
  {
    ScaleUp(u, |frac|) == ScaleUp(Numerator(whole, frac), scale)
  }

  lemma ParseParts(whole: string, tail: string)
    requires SetString(whole).Some? && AllDigits(tail)
    ensures SetString(whole + tail) == Some(Numerator(whole, tail))
  {
    assert Unsigned(whole + tail) == Unsigned(whole) + tail && Sign(whole + tail) == Sign(whole);
  }

  lemma {:induction false} PaddedValue(digits: string, rest: nat)
    requires AllDigits(digits)
    ensures AllDigits(digits + Zeros(rest)) && Value(digits + Zeros(rest)) == ScaleUp(Value(digits), rest)
  {
    ValueAppend(digits, Zeros(rest));
    ValueZeros(rest);
    ScaleUpIs(Value(digits), rest);
  }

  lemma PaddedNumerator(whole: string, frac: string, rest: nat)
    requires SetString(whole).Some? && AllDigits(frac)
    ensures AllDigits(frac + Zeros(rest))
    ensures Numerator(whole, frac + Zeros(rest)) == ScaleUp(Numerator(whole, frac), rest)
  {
    var digits := Significand(whole, frac);
    assert Significand(whole, frac + Zeros(rest)) == digits + Zeros(rest);
    PaddedValue(digits, rest);
    ScaleUpNegative(Value(digits), rest);
  }

  /** A fraction longer than the scale leaves no integer at that scale. */
  lemma NoShorterScale(whole: string, frac: string, scale: nat, u: int)
    requires Shortest(whole, frac) && |frac| > scale
    ensures !ScaledTo(whole, frac, scale, u)
  {
    var digits := Significand(whole, frac);
    var over := |frac| - scale;
    assert Value(digits) % 10 == DigitValue(digits[|digits| - 1]) != 0;
    ScaleUpAdd(u, over, scale);
    ScaleUpInjective(ScaleUp(u, over), Numerator(whole, frac), scale);
    assert ScaleUp(u, over) == 10 * ScaleUp(u, over - 1);
  }

  /** Padding the fraction up to the scale spells the value at the scale, and nothing else is it. */
  lemma FittingScale(whole: string, frac: string, scale: nat, u: int)
    requires Shortest(whole, frac) && |frac| <= scale
    ensures ScaledTo(whole, frac, scale, u) <==> SetString(whole + (frac + Zeros(scale - |frac|))) == Some(u)
  {
    var rest := scale - |frac|;
    PaddedNumerator(whole, frac, rest);
    ParseParts(whole, frac + Zeros(rest));
    ScaleUpAdd(Numerator(whole, frac), rest, |frac|);
    ScaleUpInjective(u, ScaleUp(Numerator(whole, frac), rest), |frac|);
  }

  lemma {:induction false} CutInteger(s: string)
    requires '.' !in s
    ensures Cut(s) == (s, "")
  {
    if s != "" {
      assert s[0] != '.';
      CutInteger(s[1..]);
      assert s[..1] + s[1..] == s;
    }
  }

  lemma IntegerShortest(n: int)
    ensures Cut(FormatInt(n)) == (FormatInt(n), "") && Shortest(FormatInt(n), "") && Numerator(FormatInt(n), "") == n
  {
    var s := FormatInt(n);
    var digits := Format(Abs(n));
    ValueFormat(Abs(n));
    assert Unsigned(s) == digits;
    CutInteger(s);
    assert digits + "" == digits;
  }

  /** The literal's value, times ten to the scale, is the integer u. */
  ghost predicate ValueAtScale(v: Literal, scale: nat, u: int)
    requires ShortestSpelling(v)
  {
    if v.IntLit? then u == ScaleUp(v.n, scale)
    else ScaledTo(Cut(v.spelling).0, Cut(v.spelling).1, scale, u)
  }

  /** The literal's value is u tens, hundreds and so on. */
  ghost predicate ValueInPlaces(v: Literal, places: nat, u: int)
    requires ShortestSpelling(v)
  {
    if v.IntLit? then ScaleUp(u, places) == v.n
    else ScaleUp(u, |Cut(v.spelling).1| + places) == Numerator(Cut(v.spelling).0, Cut(v.spelling).1)
  }

  lemma DecimalParts(whole: string, frac: string, t: ValueType, u: int)
    requires Shortest(whole, frac) && t.scale >= 0 && t.precision >= 0
    ensures DecimalOf(whole, frac, t) == Some(u) <==> ScaledTo(whole, frac, t.scale, u) && Abs(u) < Pow10(t.precision)
  {
    if |frac| > t.scale {
      NoShorterScale(whole, frac, t.scale, u);
    } else {
      FittingScale(whole, frac, t.scale, u);
    }
  }

  /**
    A numeric literal is accepted at a decimal column exactly when its value is an integer at the
    column's scale that fits the column's precision, and it becomes that integer.
   */
  lemma DecimalLiteralExact(v: Literal, t: ValueType, u: int)
    requires ShortestSpelling(v) && StorageOf(t).ADecimal128? && t.scale >= 0
    ensures DecimalLiteral(v, t) == Some(u) <==> ValueAtScale(v, t.scale, u) && Abs(u) < Pow10(t.precision)
  {
    match v
    case IntLit(n) => DecimalInteger(n, t, u);
    case FloatLit(spelling) => DecimalFloat(spelling, t, u);
  }

  lemma DecimalFloat(spelling: string, t: ValueType, u: int)
    requires ShortestSpelling(FloatLit(spelling)) && StorageOf(t).ADecimal128? && t.scale >= 0
    ensures DecimalLiteral(FloatLit(spelling), t) == Some(u) <==>
              ValueAtScale(FloatLit(spelling), t.scale, u) && Abs(u) < Pow10(t.precision)
  {
    DecimalParts(Cut(spelling).0, Cut(spelling).1, t, u);
  }

  lemma DecimalInteger(n: int64, t: ValueType, u: int)
    requires StorageOf(t).ADecimal128? && t.scale >= 0
    ensures DecimalLiteral(IntLit(n), t) == Some(u) <==> u == ScaleUp(n, t.scale) && Abs(u) < Pow10(t.precision)
  {
    IntegerShortest(n);
    DecimalParts(FormatInt(n), "", t, u);
    assert DecimalLiteral(IntLit(n), t) == DecimalOf(FormatInt(n), "", t);
  }

  lemma {:induction false} ScaleUpZero(k: nat)
    ensures ScaleUp(0, k) == 0
  {
    if k > 0 { ScaleUpZero(k - 1); }
  }

  /** A column of the type can hold the literal's value, as the integer u at its scale. */
  ghost predicate HeldAs(v: Literal, t: ValueType, u: int)
    requires ShortestSpelling(v) && t.precision >= 0
  {
    (if t.scale >= 0 then ValueAtScale(v, t.scale, u) else ValueInPlaces(v, -t.scale, u)) && Abs(u) < Pow10(t.precision)
  }

  /** A column with a negative scale admits no literal at all, not even one it can hold: 100 is 1 at Decimal(5, -2). */
  lemma NegativeScaleRefused(v: Literal, t: ValueType)
    requires t.scale < 0
    ensures DecimalLiteral(v, t).None?
    ensures var hundreds := ValueType(Decimal, 5, -2);
            && StorageOf(hundreds) == ADecimal128(5, -2) && HeldAs(IntLit(100), hundreds, 1)
            && DecimalLiteral(IntLit(100), hundreds).None?
  {
    assert ScaleUp(1, 1) == 10 && ScaleUp(1, 2) == 100;
    assert Pow10(5) > 1;
  }

  /** Literals are accepted at a decimal type exactly when the type can hold them, and become what it holds. */
  ghost predicate AcceptsExactly(t: ValueType)
    requires t.precision >= 0
  {
    forall v, u :: ShortestSpelling(v) ==> (DecimalLiteral(v, t) == Some(u) <==> HeldAs(v, t, u))
  }

  /** That is so of exactly the decimal types whose scale is not negative. */
  lemma AcceptanceExact(t: ValueType)
    requires StorageOf(t).ADecimal128?
    ensures AcceptsExactly(t) <==> t.scale >= 0
  {
    if t.scale >= 0 {
      forall v, u | ShortestSpelling(v) ensures DecimalLiteral(v, t) == Some(u) <==> HeldAs(v, t, u) {
        DecimalLiteralExact(v, t, u);
      }
    } else {
      ScaleUpZero(-t.scale);
      NegativeScaleRefused(IntLit(0), t);
      assert HeldAs(IntLit(0), t, 0) && DecimalLiteral(IntLit(0), t) != Some(0);
    }
  }
}
