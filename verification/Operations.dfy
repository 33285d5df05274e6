/** What the scalar operations compute (crates/rspark-core/src/expr.rs:370-462, crates/rspark-core/src/value.rs:35-85),
    stated through the integers, the order of values and the decimal system rather than through the operators. */
module Operations {
  import opened Results
  import opened Values
  import opened Records
  import opened Expressions
  import Like
  import opened Extremes
  import opened Sums
  import opened Comparisons

  // ----- comparison operators -----

  /** `=` and `<>` are complementary structural equality, the orderings follow the order of values, and are errors
      where it is undefined. */
  lemma ComparisonsMean(h: Host, a: Value, b: Value)
    requires !a.Null? && !b.Null?
    ensures ApplyBinary(h, EqOp, a, b) == Ok(Boolean(a == b && !IsNaN(a)))
    ensures ApplyBinary(h, NotEqOp, a, b) == Ok(Boolean(a != b || IsNaN(a)))
    ensures forall op | op in {LtOp, LtEqOp, GtOp, GtEqOp} :: ApplyBinary(h, op, a, b).Ok? <==> Ordered(h, a, b)
    ensures Ordered(h, a, b) ==>
      && ApplyBinary(h, LtOp, a, b) == Ok(Boolean(Smaller(h, a, b)))
      && ApplyBinary(h, GtOp, a, b) == Ok(Boolean(Smaller(h, b, a)))
      && ApplyBinary(h, LtEqOp, a, b) == Ok(Boolean(!Smaller(h, b, a)))
      && ApplyBinary(h, GtEqOp, a, b) == Ok(Boolean(!Smaller(h, a, b)))
  {
    hide TryCmp, Smaller, Ordered;
    TryCmpExactly(h, a, b);
  }

  // ----- 64-bit integers -----

  predicate InI64(n: int) {
    -0x8000_0000_0000_0000 <= n < 0x8000_0000_0000_0000
  }

  /** Wrapping stays in range, keeps what is in range, and changes a value by a multiple of 2^64. */
  lemma WrapI64Is(n: int)
    ensures InI64(WrapI64(n))
    ensures InI64(n) ==> WrapI64(n) == n
    ensures (n - WrapI64(n)) % 0x1_0000_0000_0000_0000 == 0
  {
    var m := n % 0x1_0000_0000_0000_0000;
    var q := n / 0x1_0000_0000_0000_0000;
    assert n == q * 0x1_0000_0000_0000_0000 + m;
    MultipleOf(if WrapI64(n) == m then q else q + 1);
  }

  lemma MultipleOf(q: int)
    ensures (q * 0x1_0000_0000_0000_0000) % 0x1_0000_0000_0000_0000 == 0
  {
  }

  /** `%` rounds the quotient toward zero: the remainder is smaller than the divisor and has the dividend's sign. */
  lemma TruncatedRemIs(a: int, b: int)
    requires b != 0
    ensures var r := TruncatedRem(a, b);
            && -Magnitude(b) < r < Magnitude(b)
            && (a >= 0 ==> r >= 0) && (a <= 0 ==> r <= 0)
            && exists q :: IsQuotient(a, b, q, r)
  {
    var r := TruncatedRem(a, b);
    var m, d := Magnitude(a), Magnitude(b);
    var q := m / d;
    assert m == q * d + m % d;
    var signed := if (a < 0) == (b < 0) then q else -q;
    SignedProduct(q, b, d);
    assert IsQuotient(a, b, signed, r);
  }

  lemma SignedProduct(q: int, b: int, d: int)
    requires d == Magnitude(b)
    ensures b >= 0 ==> q * d == q * b
    ensures b < 0 ==> q * d == -q * b
  {
  }

  function Magnitude(n: int): int {
    if n < 0 then -n else n
  }

  predicate IsQuotient(a: int, b: int, q: int, r: int) {
    a == q * b + r
  }

  // ----- arithmetic -----

  predicate IsArith(op: BinaryOp) {
    op in {AddOp, SubOp, MulOp}
  }

  function IntResult(op: BinaryOp, x: int, y: int): int
    requires IsArith(op)
  {
    match op
    case AddOp => x + y
    case SubOp => x - y
    case _ => x * y
  }

  /** On integers whose result is in range the operators are those of the integers; beyond it they wrap. */
  lemma IntegerArithmetic(h: Host, op: BinaryOp, a: Value, b: Value)
    requires IsArith(op) && IsInteger(a) && IsInteger(b)
    ensures exists n ::
      && ApplyBinary(h, op, a, b) == Ok(Int64(n)) && InI64(n)
      && (n - IntResult(op, IntegerOf(a), IntegerOf(b))) % 0x1_0000_0000_0000_0000 == 0
      && (InI64(IntResult(op, IntegerOf(a), IntegerOf(b))) ==> n == IntResult(op, IntegerOf(a), IntegerOf(b)))
  {
    hide WrapI64;
    var exact := IntResult(op, IntegerOf(a), IntegerOf(b));
    WrapI64Is(exact);
    NegatedMultiple(exact - WrapI64(exact));
    assert ApplyBinary(h, op, a, b) == Ok(Int64(WrapI64(exact)));
  }

  lemma NegatedMultiple(d: int)
    requires d % 0x1_0000_0000_0000_0000 == 0
    ensures (-d) % 0x1_0000_0000_0000_0000 == 0
  {
  }

  /** `/` divides as Float64, and is null on a zero divisor. */
  lemma IntegerQuotient(h: Host, a: Value, b: Value)
    requires Exact(h) && IsInteger(a) && IsInteger(b)
    ensures IntegerOf(b) == 0 ==> ApplyBinary(h, DivOp, a, b) == Ok(Null)
    ensures IntegerOf(b) != 0 ==>
      ApplyBinary(h, DivOp, a, b) == Ok(Float64(Num(IntegerOf(a) as real / IntegerOf(b) as real)))
  {
    hide Exact, CastToF64, ApplyBinary;
    IntegerAsF64(h, a);
    IntegerAsF64(h, b);
    DivisionIs(h, a, b, Num(IntegerOf(a) as real), Num(IntegerOf(b) as real));
    if IntegerOf(b) != 0 {
      ExactQuotient(h, IntegerOf(a) as real, IntegerOf(b) as real);
    }
  }

  /** `/` on numbers: null on a zero divisor, else the host's quotient. */
  lemma DivisionIs(h: Host, a: Value, b: Value, x: Float, y: Float)
    requires CastToF64(h, a) == Some(x) && CastToF64(h, b) == Some(y)
    ensures ApplyBinary(h, DivOp, a, b) == Ok(if y == Num(0.0) then Null else Float64(h.div(x, y)))
  {
    hide CastToF64;
  }

  lemma ExactQuotient(h: Host, x: real, y: real)
    requires Exact(h) && y != 0.0
    ensures h.div(Num(x), Num(y)) == Num(x / y)
  {
  }

  lemma IntegerAsF64(h: Host, v: Value)
    requires Exact(h) && IsInteger(v)
    ensures CastToF64(h, v) == Some(Num(IntegerOf(v) as real))
  {
  }

  /** `%` keeps integers, and is null on a zero divisor. */
  lemma IntegerRemainder(h: Host, a: Value, b: Value) returns (r: int)
    requires IsInteger(a) && IsInteger(b)
    ensures IntegerOf(b) == 0 ==> ApplyBinary(h, ModOp, a, b) == Ok(Null)
    ensures IntegerOf(b) != 0 ==>
      && ApplyBinary(h, ModOp, a, b) == Ok(Int64(r))
      && (exists q :: IsQuotient(IntegerOf(a), IntegerOf(b), q, r))
      && -Magnitude(IntegerOf(b)) < r < Magnitude(IntegerOf(b))
      && (IntegerOf(a) >= 0 ==> r >= 0) && (IntegerOf(a) <= 0 ==> r <= 0)
  {
    hide TruncatedRem;
    r := 0;
    if IntegerOf(b) != 0 {
      TruncatedRemIs(IntegerOf(a), IntegerOf(b));
      r := TruncatedRem(IntegerOf(a), IntegerOf(b));
    }
  }

  /** The operand is a string that reads as a float but not as an integer. */
  predicate IsFractionText(h: Host, v: Value) {
    v.String? && h.parseI64(v.s).None? && h.parseF64(v.s).Some?
  }

  /** Float arithmetic is reached only by such strings: on every other pair of numbers, Float64 included, `+`, `-`
      and `*` truncate both operands to integers. */
  lemma FloatArithmeticExactly(h: Host, op: BinaryOp, a: Value, b: Value)
    requires IsArith(op) && !a.Null? && !b.Null? && CastToF64(h, a).Some? && CastToF64(h, b).Some?
    ensures ApplyBinary(h, op, a, b).Ok?
    ensures ApplyBinary(h, op, a, b).value.Float64? <==> IsFractionText(h, a) || IsFractionText(h, b)
    ensures ApplyBinary(h, op, a, b).value.Float64? || ApplyBinary(h, op, a, b).value.Int64?
  {
    hide WrapI64;
  }

  /** So 1.5 + 1.5 is 2 on a host that truncates 1.5 to 1. */
  lemma FloatSumTruncates(h: Host)
    requires h.f64ToI64(Num(1.5)) == 1
    ensures ApplyBinary(h, AddOp, Float64(Num(1.5)), Float64(Num(1.5))) == Ok(Int64(2))
  {
    WrapI64Is(2);
  }

  /** With a string that is no integer, the operators are the host's on the operands as Float64. */
  lemma FractionArithmetic(h: Host, a: Value, b: Value, x: Float, y: Float)
    requires IsFractionText(h, a) || IsFractionText(h, b)
    requires CastToF64(h, a) == Some(x) && CastToF64(h, b) == Some(y)
    ensures ApplyBinary(h, AddOp, a, b) == Ok(Float64(h.add(x, y)))
    ensures ApplyBinary(h, SubOp, a, b) == Ok(Float64(h.sub(x, y)))
    ensures ApplyBinary(h, MulOp, a, b) == Ok(Float64(h.mul(x, y)))
  {
  }

  // ----- LIKE -----

  /** The LIKE operator asks whether its left operand matches the pattern on its right: for patterns with clean escapes
      that is LIKE, apart from newlines that the pattern does not spell out. Other patterns are the engine's. */
  lemma LikeOperatorIs(h: Host, target: string, pattern: string)
    ensures Like.CleanEscapes(pattern) ==>
      ApplyBinary(h, LikeOp, String(target), String(pattern))
      == Ok(Boolean(Like.LikeHolds(pattern, target) && Like.Newlines(target) == Like.LiteralNewlines(pattern)))
    ensures !Like.CleanEscapes(pattern) ==>
      match h.regex("^" + Like.LikeToRegex(pattern) + "$", target)
      case Some(b) => ApplyBinary(h, LikeOp, String(target), String(pattern)) == Ok(Boolean(b))
      case None => ApplyBinary(h, LikeOp, String(target), String(pattern)).Err?
  {
    hide Like.CleanEscapes, Like.LikeHolds, Like.RegexMatches, Like.LikeToRegex;
    if Like.CleanEscapes(pattern) {
      Like.LikeIsExactly(h.regex, pattern, target);
    } else {
      Like.EngineDecidesUnclean(h.regex, pattern, target);
    }
  }

  /** Non-null operands that are no strings are errors. */
  lemma LikeNeedsStrings(h: Host, l: Value, r: Value)
    requires !l.Null? && !r.Null? && !(l.String? && r.String?)
    ensures NullStrict(h, LikeOp, l, r).Err?
  {
  }

  // ----- AND, OR, NOT, IS NULL, IF -----

  lemma LogicMeans(h: Host, x: bool, y: bool)
    ensures ApplyBinary(h, AndOp, Boolean(x), Boolean(y)) == Ok(Boolean(x && y))
    ensures ApplyBinary(h, OrOp, Boolean(x), Boolean(y)) == Ok(Boolean(x || y))
  {
  }

  /** On non-null operands AND and OR have a value exactly on truth values. */
  lemma LogicNeedsTruth(h: Host, op: BinaryOp, a: Value, b: Value)
    requires !a.Null? && !b.Null? && op in {AndOp, OrOp}
    ensures NullStrict(h, op, a, b).Ok? <==> a.Boolean? && b.Boolean?
  {
  }

  /** Arithmetic has a value exactly on what casts to numbers. */
  lemma ArithmeticNeedsNumbers(h: Host, op: BinaryOp, a: Value, b: Value)
    requires !a.Null? && !b.Null?
    ensures op in {AddOp, SubOp, MulOp} ==>
      (NullStrict(h, op, a, b).Ok?
       <==> (CastToI64(h, a).Some? && CastToI64(h, b).Some?) || (CastToF64(h, a).Some? && CastToF64(h, b).Some?))
    ensures op == DivOp ==> (NullStrict(h, op, a, b).Ok? <==> CastToF64(h, a).Some? && CastToF64(h, b).Some?)
    ensures op == ModOp ==> (NullStrict(h, op, a, b).Ok? <==> CastToI64(h, a).Some? && CastToI64(h, b).Some?)
  {
    hide CastToI64, CastToF64, WrapI64, TruncatedRem, Logical, ApplyLike, TryCmp, ValueEq;
  }

  /** NULL tests, negation, conditionals and aliases against the value of their operand. */
  lemma UnaryMeans(h: Host, e: Expr, row: Record, schema: Schema, v: Value)
    requires Eval(h, e, row, schema) == Ok(v)
    ensures Eval(h, IsNull(e), row, schema) == Ok(Boolean(v == Null))
    ensures Eval(h, IsNotNull(e), row, schema) == Ok(Boolean(v != Null))
    ensures forall b :: v == Boolean(b) ==> Eval(h, Not(e), row, schema) == Ok(Boolean(!b))
    ensures v == Null ==> Eval(h, Not(e), row, schema) == Ok(Null)
    ensures forall a :: Eval(h, Aliased(e, a), row, schema) == Ok(v)
    ensures forall t, f ::
      Eval(h, If(e, t, f), row, schema) == Eval(h, if v == Boolean(true) then t else f, row, schema)
  {
  }

  /** `*`, an aggregate and an unknown column have no value in a row. */
  lemma NoValueInRow(h: Host, e: Expr, row: Record, schema: Schema)
    requires e.Star? || e.Aggregate? || (e.Column? && !HasColumn(schema, e.name))
    ensures Eval(h, e, row, schema).Err? && (e.Column? ==> Eval(h, e, row, schema) == Err(ColumnNotFound(e.name)))
  {
  }

  /** A column reads the cell under the first field of its name. */
  lemma ColumnMeans(h: Host, c: string, row: Record, schema: Schema, i: nat)
    requires i < |schema| && schema[i].name == c && forall j :: 0 <= j < i ==> schema[j].name != c
    ensures Eval(h, Column(c), row, schema) == Ok(if i < |row| then row[i] else Null)
  {
  }

  // ----- rendering -----

  function DigitValue(c: char): nat {
    if '0' <= c <= '9' then (c as int - '0' as int) else 0
  }

  /** The number that a digit string denotes. */
  function Decimal(s: string): nat {
    if s == [] then 0 else 10 * Decimal(s[..|s| - 1]) + DigitValue(s[|s| - 1])
  }

  /** Integers render as their decimal digits, without a leading zero, after a sign if negative. */
  lemma {:induction false} NatToStringIs(n: nat)
    ensures Decimal(NatToString(n)) == n
    ensures n > 0 ==> NatToString(n)[0] != '0'
    ensures forall c :: c in NatToString(n) ==> '0' <= c <= '9'
  {
    NatToStringNonEmpty(n);
    var s := NatToString(n);
    if n >= 10 {
      NatToStringIs(n / 10);
      NatToStringNonEmpty(n / 10);
      assert s[..|s| - 1] == NatToString(n / 10);
    } else {
      assert s[..0] == [];
    }
  }

  lemma IntToStringIs(n: int)
    ensures n >= 0 ==> Decimal(IntToString(n)) == n
    ensures n < 0 ==> IntToString(n)[0] == '-' && Decimal(IntToString(n)[1..]) == -n
  {
    NatToStringIs(if n < 0 then -n else n);
    if n < 0 {
      assert IntToString(n)[1..] == NatToString(-n);
    }
  }

  /** What each type renders as. */
  lemma CastToStringIs(h: Host)
    ensures CastToString(h, Null) == "null"
    ensures CastToString(h, Boolean(true)) == "true" && CastToString(h, Boolean(false)) == "false"
    ensures forall s :: CastToString(h, String(s)) == s
    ensures forall f :: CastToString(h, Float32(f)) == h.printF32(f) && CastToString(h, Float64(f)) == h.printF64(f)
    ensures forall n :: CastToString(h, Int32(n)) == IntToString(n) == CastToString(h, Int64(n))
  {
  }

  // ----- casts -----

  /** The casts agree with each other on every value but a string: the boolean says whether the number is not zero. */
  lemma CastsAgree(h: Host, v: Value)
    requires Exact(h) && !v.String? && !v.Null?
    ensures CastToF64(h, v).Some? && CastToI64(h, v).Some? && CastToBool(v).Some?
    ensures IsInteger(v) ==> CastToI64(h, v) == Some(IntegerOf(v)) && CastToF64(h, v) == Some(Num(IntegerOf(v) as real))
    ensures v.Float64? ==> CastToF64(h, v) == Some(v.d) && CastToI64(h, v) == Some(h.f64ToI64(v.d))
    ensures v.Float32? ==>
      CastToF64(h, v) == Some(h.f32ToF64(v.f)) && CastToI64(h, v) == Some(h.f64ToI64(h.f32ToF64(v.f)))
    ensures v == Boolean(true) ==> CastToI64(h, v) == Some(1) && CastToF64(h, v) == Some(Num(1.0))
    ensures v == Boolean(false) ==> CastToI64(h, v) == Some(0) && CastToF64(h, v) == Some(Num(0.0))
    ensures !v.Float32? ==> (CastToBool(v) == Some(false) <==> CastToF64(h, v) == Some(Num(0.0)))
    ensures v.Float32? ==> (CastToBool(v) == Some(false) <==> v.f == Num(0.0))
  {
  }

  /** Text casts to what the host parses it as. */
  lemma TextCasts(h: Host, s: string)
    ensures CastToI64(h, String(s)) == h.parseI64(s) && CastToF64(h, String(s)) == h.parseF64(s)
    ensures CastToString(h, String(s)) == s
  {
  }

  ghost predicate IsYes(s: string) {
    s == "true" || s == "yes" || s == "t" || s == "y" || s == "1"
  }

  ghost predicate IsNo(s: string) {
    s == "false" || s == "no" || s == "f" || s == "n" || s == "0"
  }

  /** Ten texts cast to a truth value, whatever their case, and no others do. */
  lemma BooleanTexts(s: string)
    ensures CastToBool(String(s)) == Some(true) <==> IsYes(LowerAscii(s))
    ensures CastToBool(String(s)) == Some(false) <==> IsNo(LowerAscii(s))
    ensures CastToBool(String(LowerAscii(s))) == CastToBool(String(s))
    ensures CastToBool(String("YES")) == Some(true) && CastToBool(String("No")) == Some(false)
    ensures CastToBool(Null) == None
  {
    assert LowerAscii(LowerAscii(s)) == LowerAscii(s);
    assert LowerAscii("YES") == "yes" && LowerAscii("No") == "no";
  }
}
