/** Nullable values (crates/rspark-core/src/value.rs): equality, comparison, rendering, casts. */
module Values {
  import opened Results

  /** An IEEE float up to rounding and the sign of zero. */
  datatype Float = NaN | NegInf | Num(value: real) | PosInf

  /** What the host platform decides: rounding arithmetic, float/integer conversion, number parsing,
      float printing, the regular-expression engine on texts outside the subset modelled in `Like`
      (`None` for a text it refuses), and the library sort, given the direction of each key and the
      indexed keys. Theorems hold for every host unless they name a hypothesis about it. */
  datatype Host = Host(
    printF32: Float -> string,
    printF64: Float -> string,
    parseF64: string -> Option<Float>,
    parseI64: string -> Option<int>,
    i64ToF64: int -> Float,
    f64ToI64: Float -> int,
    f32ToF64: Float -> Float,
    f64ToF32: Float -> Float,
    add: (Float, Float) -> Float,
    sub: (Float, Float) -> Float,
    mul: (Float, Float) -> Float,
    div: (Float, Float) -> Float,
    regex: (string, string) -> Option<bool>,
    sortBy: (seq<bool>, seq<(nat, seq<Value>)>) -> seq<(nat, seq<Value>)>)

  datatype Value =
    | Null
    | Boolean(b: bool)
    | Int32(i: int)
    | Int64(l: int)
    | Float32(f: Float)
    | Float64(d: Float)
    | String(s: string)

  datatype Ordering = Less | Equal | Greater

  function Reverse(o: Ordering): Ordering {
    match o
    case Less => Greater
    case Equal => Equal
    case Greater => Less
  }

  function DataTypeName(v: Value): string {
    match v
    case Null => "null"
    case Boolean(_) => "boolean"
    case Int32(_) => "int"
    case Int64(_) => "bigint"
    case Float32(_) => "float"
    case Float64(_) => "double"
    case String(_) => "string"
  }

  // ----- equality: derived PartialEq, structural except that NaN equals nothing -----

  predicate FloatEq(a: Float, b: Float) {
    !a.NaN? && a == b
  }

  predicate ValueEq(a: Value, b: Value) {
    match (a, b)
    case (Float32(x), Float32(y)) => FloatEq(x, y)
    case (Float64(x), Float64(y)) => FloatEq(x, y)
    case _ => a == b
  }

  lemma ValueEqPartialEquivalence()
    ensures forall a, b :: ValueEq(a, b) ==> ValueEq(b, a)
    ensures forall a, b, c :: ValueEq(a, b) && ValueEq(b, c) ==> ValueEq(a, c)
    ensures forall a, b :: ValueEq(a, b) ==> a == b
  {
  }

  // ----- comparison -----

  function CompareInts(a: int, b: int): Ordering {
    if a < b then Less else if a == b then Equal else Greater
  }

  function CompareBools(a: bool, b: bool): Ordering {
    if a == b then Equal else if b then Less else Greater
  }

  /** Code point order, which is the byte order of the UTF-8 encodings. */
  function CompareStrings(a: string, b: string): Ordering
    decreases |a|
  {
    if a == [] then (if b == [] then Equal else Less)
    else if b == [] then Greater
    else if a[0] < b[0] then Less
    else if a[0] > b[0] then Greater
    else CompareStrings(a[1..], b[1..])
  }

  /** `partial_cmp`: undefined as soon as a NaN is involved. */
  function CompareFloats(a: Float, b: Float): Option<Ordering> {
    if a.NaN? || b.NaN? then None
    else if a == b then Some(Equal)
    else if a.NegInf? || b.PosInf? || (a.Num? && b.Num? && a.value < b.value) then Some(Less)
    else Some(Greater)
  }

  function FloatOrdering(a: Float, b: Float): Result<Ordering> {
    match CompareFloats(a, b)
    case Some(o) => Ok(o)
    case None => Err(TypeError("cannot compare NaN floats", []))
  }

  function TryCmp(h: Host, a: Value, b: Value): Result<Ordering> {
    match (a, b)
    case (Null, Null) => Ok(Equal)
    case (Null, _) => Ok(Less)
    case (_, Null) => Ok(Greater)
    case (Boolean(x), Boolean(y)) => Ok(CompareBools(x, y))
    case (Int32(x), Int32(y)) => Ok(CompareInts(x, y))
    case (Int64(x), Int64(y)) => Ok(CompareInts(x, y))
    case (Float32(x), Float32(y)) => FloatOrdering(x, y)
    case (Float64(x), Float64(y)) => FloatOrdering(x, y)
    case (String(x), String(y)) => Ok(CompareStrings(x, y))
    case (Int32(x), Int64(y)) => Ok(CompareInts(x, y))
    case (Int64(x), Int32(y)) => Ok(CompareInts(x, y))
    case (Int32(x), Float64(y)) => FloatOrdering(h.i64ToF64(x), y)
    case (Float64(x), Int32(y)) => FloatOrdering(x, h.i64ToF64(y))
    case (Int64(x), Float64(y)) => FloatOrdering(h.i64ToF64(x), y)
    case (Float64(x), Int64(y)) => FloatOrdering(x, h.i64ToF64(y))
    case (Float32(x), Float64(y)) => FloatOrdering(h.f32ToF64(x), y)
    case (Float64(x), Float32(y)) => FloatOrdering(x, h.f32ToF64(y))
    case _ => Err(TypeError("cannot compare", [DataTypeName(a), DataTypeName(b)]))
  }

  // ----- rendering -----

  function Digit(n: nat): char
    requires n < 10
  {
    '0' + n as char
  }

  function NatToString(n: nat): string {
    if n < 10 then [Digit(n)] else NatToString(n / 10) + [Digit(n % 10)]
  }

  function IntToString(n: int): string {
    if n < 0 then "-" + NatToString(-n) else NatToString(n)
  }

  function BoolToString(b: bool): string {
    if b then "true" else "false"
  }

  function CastToString(h: Host, v: Value): string {
    match v
    case Null => "null"
    case Boolean(b) => BoolToString(b)
    case Int32(i) => IntToString(i)
    case Int64(l) => IntToString(l)
    case Float32(f) => h.printF32(f)
    case Float64(d) => h.printF64(d)
    case String(s) => s
  }

  lemma {:induction false} NatToStringInjective(a: nat, b: nat)
    requires NatToString(a) == NatToString(b)
    ensures a == b
  {
    var s, t := NatToString(a), NatToString(b);
    assert s[|s| - 1] == Digit(a % 10) && t[|t| - 1] == Digit(b % 10);
    NatToStringNonEmpty(a / 10);
    NatToStringNonEmpty(b / 10);
    if a >= 10 && b >= 10 {
      assert NatToString(a / 10) == s[..|s| - 1] == t[..|t| - 1] == NatToString(b / 10);
      NatToStringInjective(a / 10, b / 10);
    }
  }

  lemma {:induction false} NatToStringNonEmpty(n: nat)
    ensures NatToString(n) != [] && NatToString(n)[0] != '-'
    ensures forall c :: c in NatToString(n) ==> '0' <= c <= '9'
  {
    if n >= 10 {
      NatToStringNonEmpty(n / 10);
    }
  }

  /** Decimal printing is injective, so integer columns render without collisions. */
  lemma IntToStringInjective(a: int, b: int)
    requires IntToString(a) == IntToString(b)
    ensures a == b
  {
    var s := IntToString(a);
    if a < 0 && b < 0 {
      assert s[1..] == NatToString(-a) == NatToString(-b);
      NatToStringInjective(-a, -b);
    } else if a >= 0 && b >= 0 {
      NatToStringInjective(a, b);
    } else {
      NatToStringNonEmpty(if a >= 0 then a else b);
      assert false;
    }
  }

  // ----- casts -----

  function LowerChar(c: char): char {
    if 'A' <= c <= 'Z' then 'a' + (c as int - 'A' as int) as char else c
  }

  function LowerAscii(s: string): (r: string)
    ensures |r| == |s|
  {
    seq(|s|, i requires 0 <= i < |s| => LowerChar(s[i]))
  }

  function CastToF64(h: Host, v: Value): Option<Float> {
    match v
    case Null => None
    case Boolean(b) => Some(if b then Num(1.0) else Num(0.0))
    case Int32(i) => Some(h.i64ToF64(i))
    case Int64(l) => Some(h.i64ToF64(l))
    case Float32(f) => Some(h.f32ToF64(f))
    case Float64(d) => Some(d)
    case String(s) => h.parseF64(s)
  }

  function CastToI64(h: Host, v: Value): Option<int> {
    match v
    case Null => None
    case Boolean(b) => Some(if b then 1 else 0)
    case Int32(i) => Some(i)
    case Int64(l) => Some(l)
    case Float32(f) => Some(h.f64ToI64(h.f32ToF64(f)))
    case Float64(d) => Some(h.f64ToI64(d))
    case String(s) => h.parseI64(s)
  }

  function CastToBool(v: Value): Option<bool> {
    match v
    case Null => None
    case Boolean(b) => Some(b)
    case Int32(i) => Some(i != 0)
    case Int64(l) => Some(l != 0)
    case Float32(f) => Some(f != Num(0.0))
    case Float64(d) => Some(d != Num(0.0))
    case String(s) =>
      var t := LowerAscii(s);
      if t in ["true", "t", "1", "yes", "y"] then Some(true)
      else if t in ["false", "f", "0", "no", "n"] then Some(false)
      else None
  }

  /** Two's-complement wrap-around of release-mode `i64` arithmetic. */
  function WrapI64(n: int): int {
    var m := n % 0x1_0000_0000_0000_0000;
    if m >= 0x8000_0000_0000_0000 then m - 0x1_0000_0000_0000_0000 else m
  }

  /** Rust's `%`: truncated, the sign follows the dividend. */
  function TruncatedRem(a: int, b: int): int
    requires b != 0
  {
    var m := (if a < 0 then -a else a) % (if b < 0 then -b else b);
    if a < 0 then -m else m
  }
}
