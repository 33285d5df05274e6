/** The row/column boundary (crates/rspark-exec/src/arrow_batch.rs). Arrow arrays are sequences of
    optional values of one type. */
module ArrowBatches {
  import opened Results
  import opened Values
  import opened Records

  datatype Column =
    | BoolColumn(bools: seq<Option<bool>>)
    | Int32Column(ints: seq<Option<int>>)
    | Int64Column(longs: seq<Option<int>>)
    | Float32Column(floats: seq<Option<Float>>)
    | Float64Column(doubles: seq<Option<Float>>)
    | Utf8Column(strings: seq<Option<string>>)
    | NullColumn(length: nat)

  datatype ArrowField = ArrowField(name: string, nullable: bool)

  /** An Arrow record batch: a field and an array per column. */
  datatype ArrowBatch = ArrowBatch(fields: seq<ArrowField>, columns: seq<Column>)

  function Length(c: Column): nat {
    match c
    case BoolColumn(xs) => |xs|
    case Int32Column(xs) => |xs|
    case Int64Column(xs) => |xs|
    case Float32Column(xs) => |xs|
    case Float64Column(xs) => |xs|
    case Utf8Column(xs) => |xs|
    case NullColumn(n) => n
  }

  // ----- builders -----

  function MakeBuilder(t: DataType): Column {
    match t
    case BooleanType => BoolColumn([])
    case Int32Type => Int32Column([])
    case Int64Type => Int64Column([])
    case Float32Type => Float32Column([])
    case Float64Type => Float64Column([])
    case StringType => Utf8Column([])
    case DateType => Utf8Column([])
    case TimestampType => Utf8Column([])
    case NullType => NullColumn(0)
  }

  function OrElse<T>(o: Option<T>, default: T): T {
    if o.Some? then o.value else default
  }

  /** `i64` to `i32`, 0 when out of range. */
  function NarrowToI32(n: int): int {
    if -0x8000_0000 <= n < 0x8000_0000 then n else 0
  }

  /** The value as an array slot: null, the value itself, or what the coercion makes of it. */
  function BoolSlot(v: Value): Option<bool> {
    match v case Boolean(b) => Some(b) case Null => None case _ => Some(OrElse(CastToBool(v), false))
  }

  function Int32Slot(h: Host, v: Value): Option<int> {
    match v case Int32(i) => Some(i) case Null => None case _ => Some(NarrowToI32(OrElse(CastToI64(h, v), 0)))
  }

  function Int64Slot(h: Host, v: Value): Option<int> {
    match v case Int64(i) => Some(i) case Null => None case _ => Some(OrElse(CastToI64(h, v), 0))
  }

  function Float32Slot(h: Host, v: Value): Option<Float> {
    match v
    case Float32(f) => Some(f)
    case Null => None
    case _ => Some(h.f64ToF32(OrElse(CastToF64(h, v), Num(0.0))))
  }

  function Float64Slot(h: Host, v: Value): Option<Float> {
    match v case Float64(f) => Some(f) case Null => None case _ => Some(OrElse(CastToF64(h, v), Num(0.0)))
  }

  function Utf8Slot(h: Host, v: Value): Option<string> {
    match v case String(s) => Some(s) case Null => None case _ => Some(CastToString(h, v))
  }

  /** Appends a value, coerced to the column's type; a null column tracks nothing. */
  function AppendValue(h: Host, c: Column, v: Value): Column {
    match c
    case BoolColumn(xs) => BoolColumn(xs + [BoolSlot(v)])
    case Int32Column(xs) => Int32Column(xs + [Int32Slot(h, v)])
    case Int64Column(xs) => Int64Column(xs + [Int64Slot(h, v)])
    case Float32Column(xs) => Float32Column(xs + [Float32Slot(h, v)])
    case Float64Column(xs) => Float64Column(xs + [Float64Slot(h, v)])
    case Utf8Column(xs) => Utf8Column(xs + [Utf8Slot(h, v)])
    case NullColumn(n) => c
  }

  // ----- reading back -----

  function ValueAt(c: Column, row: nat): Value
    requires row < Length(c)
  {
    match c
    case BoolColumn(xs) => if xs[row].Some? then Boolean(xs[row].value) else Null
    case Int32Column(xs) => if xs[row].Some? then Int32(xs[row].value) else Null
    case Int64Column(xs) => if xs[row].Some? then Int64(xs[row].value) else Null
    case Float32Column(xs) => if xs[row].Some? then Float32(xs[row].value) else Null
    case Float64Column(xs) => if xs[row].Some? then Float64(xs[row].value) else Null
    case Utf8Column(xs) => if xs[row].Some? then String(xs[row].value) else Null
    case NullColumn(_) => Null
  }

  /** Types without a native column come back as strings. */
  function CoreType(c: Column): DataType {
    match c
    case BoolColumn(_) => BooleanType
    case Int32Column(_) => Int32Type
    case Int64Column(_) => Int64Type
    case Float32Column(_) => Float32Type
    case Float64Column(_) => Float64Type
    case Utf8Column(_) => StringType
    case NullColumn(_) => StringType
  }

  // ----- the conversions -----

  /** The column of one field after the given values were appended. */
  function Filled(h: Host, t: DataType, vs: seq<Value>): Column {
    if vs == [] then MakeBuilder(t) else AppendValue(h, Filled(h, t, vs[..|vs| - 1]), vs[|vs| - 1])
  }

  /** Field `c` of every row. */
  function ColumnOf(records: seq<Record>, c: nat): (vs: seq<Value>)
    requires forall k :: 0 <= k < |records| ==> c < |records[k]|
    ensures |vs| == |records| && forall k :: 0 <= k < |records| ==> vs[k] == records[k][c]
  {
    seq(|records|, k requires 0 <= k < |records| => records[k][c])
  }

  predicate HasNull(c: Column) {
    exists r :: 0 <= r < Length(c) && ValueAt(c, r).Null?
  }

  /** `ArrowRecordBatch::try_new`: at least one column, equal lengths, no null in a not-null field. */
  predicate Accepted(fields: seq<ArrowField>, columns: seq<Column>)
    requires |fields| == |columns|
  {
    && columns != []
    && (forall c :: 0 <= c < |columns| ==> Length(columns[c]) == Length(columns[0]))
    && (forall c :: 0 <= c < |columns| ==> !fields[c].nullable ==> !HasNull(columns[c]))
  }

  function ArrowFields(schema: Schema): (fields: seq<ArrowField>)
    ensures |fields| == |schema|
    ensures forall c :: 0 <= c < |schema| ==> fields[c] == ArrowField(schema[c].name, schema[c].nullable)
  {
    seq(|schema|, c requires 0 <= c < |schema| => ArrowField(schema[c].name, schema[c].nullable))
  }

  function ArrowColumns(h: Host, b: Batch): (columns: seq<Column>)
    requires ValidBatch(b)
    ensures |columns| == |b.schema|
    ensures forall c :: 0 <= c < |b.schema| ==> columns[c] == Filled(h, b.schema[c].dataType, ColumnOf(b.records, c))
  {
    seq(|b.schema|, c requires 0 <= c < |b.schema| => Filled(h, b.schema[c].dataType, ColumnOf(b.records, c)))
  }

  function FromCore(h: Host, b: Batch): Result<ArrowBatch>
    requires ValidBatch(b)
  {
    var fields, columns := ArrowFields(b.schema), ArrowColumns(h, b);
    if Accepted(fields, columns) then Ok(ArrowBatch(fields, columns))
    else Err(ExecutionError("arrow RecordBatch build failed"))
  }

  /** `arrow_from_core`: a builder per field, one append per cell, row by row. */
  method ArrowFromCore(h: Host, b: Batch) returns (r: Result<ArrowBatch>)
    requires ValidBatch(b)
    ensures r == FromCore(h, b)
  {
    hide AppendValue, MakeBuilder, Accepted;
    var builders: seq<Column> := [];
    for c := 0 to |b.schema|
      invariant |builders| == c
      invariant forall k :: 0 <= k < c ==> builders[k] == MakeBuilder(b.schema[k].dataType)
    {
      builders := builders + [MakeBuilder(b.schema[c].dataType)];
    }
    for i := 0 to |b.records|
      invariant |builders| == |b.schema|
      invariant forall c :: 0 <= c < |b.schema| ==>
                  builders[c] == Filled(h, b.schema[c].dataType, ColumnOf(b.records[..i], c))
    {
      var record := b.records[i];
      assert Fits(record, b.schema);
      ghost var before := builders;
      for c := 0 to |record|
        invariant |builders| == |b.schema|
        invariant forall k :: 0 <= k < c ==> builders[k] == AppendValue(h, before[k], record[k])
        invariant forall k :: c <= k < |b.schema| ==> builders[k] == before[k]
      {
        builders := builders[c := AppendValue(h, builders[c], record[c])];
      }
      forall c | 0 <= c < |b.schema|
        ensures builders[c] == Filled(h, b.schema[c].dataType, ColumnOf(b.records[..i + 1], c))
      {
        var vs := ColumnOf(b.records[..i + 1], c);
        assert vs[..i] == ColumnOf(b.records[..i], c);
      }
    }
    assert b.records[..|b.records|] == b.records;
    assert builders == ArrowColumns(h, b);
    var fields := ArrowFields(b.schema);
    if Accepted(fields, builders) {
      return Ok(ArrowBatch(fields, builders));
    }
    return Err(ExecutionError("arrow RecordBatch build failed"));
  }

  predicate WellFormed(a: ArrowBatch) {
    |a.fields| == |a.columns| && Accepted(a.fields, a.columns)
  }

  function CoreSchema(a: ArrowBatch): (schema: Schema)
    requires |a.fields| == |a.columns|
    ensures |schema| == |a.fields|
    ensures forall c :: 0 <= c < |schema| ==>
        schema[c] == Field(a.fields[c].name, CoreType(a.columns[c]), a.fields[c].nullable)
  {
    seq(|a.fields|, c requires 0 <= c < |a.fields| =>
      Field(a.fields[c].name, CoreType(a.columns[c]), a.fields[c].nullable))
  }

  function RowAt(columns: seq<Column>, row: nat): (values: Record)
    requires forall c :: 0 <= c < |columns| ==> row < Length(columns[c])
    ensures |values| == |columns| && forall c :: 0 <= c < |columns| ==> values[c] == ValueAt(columns[c], row)
  {
    seq(|columns|, c requires 0 <= c < |columns| => ValueAt(columns[c], row))
  }

  function NumRows(columns: seq<Column>): nat
    requires columns != []
  {
    Length(columns[0])
  }

  function RowsOf(columns: seq<Column>): (rows: seq<Record>)
    requires columns != [] && forall c :: 0 <= c < |columns| ==> Length(columns[c]) == Length(columns[0])
    ensures |rows| == NumRows(columns) && forall k :: 0 <= k < |rows| ==> rows[k] == RowAt(columns, k)
  {
    seq(NumRows(columns), k requires 0 <= k < NumRows(columns) => RowAt(columns, k))
  }

  function ToCore(a: ArrowBatch): Result<Batch>
    requires WellFormed(a)
  {
    FromRecords(CoreSchema(a), RowsOf(a.columns))
  }

  /** `arrow_to_core`: rebuilds the rows cell by cell. */
  method ArrowToCore(a: ArrowBatch) returns (r: Result<Batch>)
    requires WellFormed(a)
    ensures r == ToCore(a)
  {
    var records: seq<Record> := [];
    for row := 0 to NumRows(a.columns)
      invariant |records| == row && forall k :: 0 <= k < row ==> records[k] == RowAt(a.columns, k)
    {
      var values: Record := [];
      for c := 0 to |a.columns|
        invariant |values| == c && forall k :: 0 <= k < c ==> values[k] == ValueAt(a.columns[k], row)
      {
        values := values + [ValueAt(a.columns[c], row)];
      }
      assert values == RowAt(a.columns, row);
      records := records + [values];
    }
    assert records == RowsOf(a.columns);
    r := FromRecords(CoreSchema(a), records);
  }

  // ----- one cell through the boundary -----

  /** What a value becomes in a column of the given type. */
  function Coerced(h: Host, t: DataType, v: Value): Value {
    if v.Null? then Null
    else match t
      case BooleanType => if v.Boolean? then v else Boolean(OrElse(CastToBool(v), false))
      case Int32Type => if v.Int32? then v else Int32(NarrowToI32(OrElse(CastToI64(h, v), 0)))
      case Int64Type => if v.Int64? then v else Int64(OrElse(CastToI64(h, v), 0))
      case Float32Type => if v.Float32? then v else Float32(h.f64ToF32(OrElse(CastToF64(h, v), Num(0.0))))
      case Float64Type => if v.Float64? then v else Float64(OrElse(CastToF64(h, v), Num(0.0)))
      case NullType => Null
      case _ => String(CastToString(h, v))
  }

  /** The value is null or of the column's own variant. */
  predicate Matches(t: DataType, v: Value) {
    v.Null? || match t
               case BooleanType => v.Boolean?
               case Int32Type => v.Int32?
               case Int64Type => v.Int64?
               case Float32Type => v.Float32?
               case Float64Type => v.Float64?
               case NullType => false
               case _ => v.String?
  }

  /** The type a column has after the round trip. */
  function RoundTripType(t: DataType): DataType {
    CoreType(MakeBuilder(t))
  }

  lemma CoercedFixes(h: Host, t: DataType, v: Value)
    requires !t.NullType?
    ensures Coerced(h, t, v) == v <==> Matches(t, v)
    ensures Matches(RoundTripType(t), Coerced(h, t, v))
    ensures v.Null? <==> Coerced(h, t, v).Null?
  {
  }

  /** Integers keep their number where it fits and become 0 where it does not; truth values become 0 and 1; text
      that does not parse becomes 0 or false; text columns hold decimals. */
  lemma CoercionsAre(h: Host, n: int, b: bool, s: string)
    ensures Coerced(h, Int32Type, Int64(n)) == Int32(if -2147483648 <= n <= 2147483647 then n else 0)
    ensures Coerced(h, Int64Type, Int32(n)) == Int64(n)
    ensures Coerced(h, Int64Type, Boolean(b)) == Int64(if b then 1 else 0)
    ensures Coerced(h, BooleanType, Int64(n)) == Boolean(n != 0)
    ensures Coerced(h, Float64Type, Int64(n)) == Float64(h.i64ToF64(n))
    ensures Coerced(h, Float32Type, Int64(n)) == Float32(h.f64ToF32(h.i64ToF64(n)))
    ensures h.parseI64(s) == None ==> Coerced(h, Int64Type, String(s)) == Int64(0)
    ensures h.parseF64(s) == None ==> Coerced(h, Float64Type, String(s)) == Float64(Num(0.0))
    ensures Coerced(h, BooleanType, String("maybe")) == Boolean(false)
    ensures forall t :: t in {StringType, DateType, TimestampType} ==>
      && Coerced(h, t, Int64(n)) == String(IntToString(n))
      && Coerced(h, t, Boolean(b)) == String(if b then "true" else "false")
  {
    assert LowerAscii("maybe") == "maybe";
  }

  /** Floats change width through the host, and become integers or text through it. */
  lemma FloatCoercionsAre(h: Host, x: Float)
    ensures Coerced(h, Float32Type, Float64(x)) == Float32(h.f64ToF32(x))
    ensures Coerced(h, Float64Type, Float32(x)) == Float64(h.f32ToF64(x))
    ensures Coerced(h, Int64Type, Float64(x)) == Int64(h.f64ToI64(x))
    ensures Coerced(h, BooleanType, Float64(x)) == Boolean(x != Num(0.0))
    ensures Coerced(h, StringType, Float64(x)) == String(h.printF64(x))
  {
  }

  /** Dates, timestamps and untyped nulls come back as strings, every other type as itself. */
  lemma RoundTripTypes(t: DataType)
    ensures RoundTripType(t) == if t in {DateType, TimestampType, NullType} then StringType else t
  {
  }

  predicate OfType(c: Column, t: DataType) {
    match c
    case BoolColumn(_) => t.BooleanType?
    case Int32Column(_) => t.Int32Type?
    case Int64Column(_) => t.Int64Type?
    case Float32Column(_) => t.Float32Type?
    case Float64Column(_) => t.Float64Type?
    case Utf8Column(_) => t.StringType? || t.DateType? || t.TimestampType?
    case NullColumn(_) => t.NullType?
  }

  lemma AppendHolds(h: Host, c: Column, t: DataType, v: Value)
    requires OfType(c, t) && !t.NullType?
    ensures var c' := AppendValue(h, c, v);
      && OfType(c', t) && Length(c') == Length(c) + 1
      && ValueAt(c', Length(c)) == Coerced(h, t, v)
      && forall k :: 0 <= k < Length(c) ==> ValueAt(c', k) == ValueAt(c, k)
  {
    hide CastToBool, CastToI64, CastToF64;
  }

  /** A filled column holds, in order, the coerced values. */
  lemma {:induction false} FilledHolds(h: Host, t: DataType, vs: seq<Value>)
    requires !t.NullType?
    ensures OfType(Filled(h, t, vs), t) && Length(Filled(h, t, vs)) == |vs|
    ensures forall k :: 0 <= k < |vs| ==> ValueAt(Filled(h, t, vs), k) == Coerced(h, t, vs[k])
  {
    hide AppendValue, ValueAt, Coerced;
    if vs != [] {
      var n := |vs| - 1;
      FilledHolds(h, t, vs[..n]);
      AppendHolds(h, Filled(h, t, vs[..n]), t, vs[n]);
    }
  }

  // ----- the round trip -----

  ghost predicate NoNullType(schema: Schema) {
    forall c :: 0 <= c < |schema| ==> !schema[c].dataType.NullType?
  }

  function RoundTripSchema(schema: Schema): (s: Schema)
    ensures |s| == |schema|
    ensures forall c :: 0 <= c < |schema| ==> s[c] == schema[c].(dataType := RoundTripType(schema[c].dataType))
  {
    seq(|schema|, c requires 0 <= c < |schema| => schema[c].(dataType := RoundTripType(schema[c].dataType)))
  }

  function CoercedRow(h: Host, schema: Schema, row: Record): (r: Record)
    requires |row| == |schema|
    ensures |r| == |row| && forall c :: 0 <= c < |row| ==> r[c] == Coerced(h, schema[c].dataType, row[c])
  {
    seq(|row|, c requires 0 <= c < |row| => Coerced(h, schema[c].dataType, row[c]))
  }

  /** The meaning of the round trip: the same rows, cell by cell coerced to the column types. */
  function CoercedBatch(h: Host, b: Batch): (r: Batch)
    requires ValidBatch(b)
    ensures |r.records| == |b.records|
    ensures forall k :: 0 <= k < |b.records| ==>
              |b.records[k]| == |b.schema| && r.records[k] == CoercedRow(h, b.schema, b.records[k])
  {
    assert forall k :: 0 <= k < |b.records| ==> Fits(b.records[k], b.schema);
    Batch(RoundTripSchema(b.schema),
          seq(|b.records|, k requires 0 <= k < |b.records| => CoercedRow(h, b.schema, b.records[k])))
  }

  ghost function RoundTrip(h: Host, b: Batch): Result<Batch>
    requires ValidBatch(b)
  {
    var a :- FromCore(h, b);
    ToCore(a)
  }

  lemma CellHolds(h: Host, b: Batch, c: nat, k: nat)
    requires ValidBatch(b) && NoNullType(b.schema) && c < |b.schema| && k < |b.records|
    ensures |b.records[k]| == |b.schema| && Length(ArrowColumns(h, b)[c]) == |b.records|
    ensures ValueAt(ArrowColumns(h, b)[c], k) == Coerced(h, b.schema[c].dataType, b.records[k][c])
  {
    hide ValueAt, Coerced, Filled;
    assert Fits(b.records[k], b.schema);
    FilledHolds(h, b.schema[c].dataType, ColumnOf(b.records, c));
  }

  lemma ColumnShape(h: Host, b: Batch, c: nat)
    requires ValidBatch(b) && NoNullType(b.schema) && c < |b.schema|
    ensures Length(ArrowColumns(h, b)[c]) == |b.records|
    ensures CoreType(ArrowColumns(h, b)[c]) == RoundTripType(b.schema[c].dataType)
  {
    hide ValueAt, Coerced, Filled;
    FilledHolds(h, b.schema[c].dataType, ColumnOf(b.records, c));
  }

  /** A valid batch with a column, none of type Null, is accepted by the columnar side. */
  lemma ArrowAccepts(h: Host, b: Batch)
    requires ValidBatch(b) && NoNullType(b.schema) && b.schema != []
    ensures Accepted(ArrowFields(b.schema), ArrowColumns(h, b))
  {
    hide ValueAt, Coerced, Filled;
    var columns := ArrowColumns(h, b);
    forall c | 0 <= c < |columns|
      ensures Length(columns[c]) == |b.records|
      ensures !b.schema[c].nullable ==> !HasNull(columns[c])
    {
      ColumnShape(h, b, c);
      if HasNull(columns[c]) {
        var k :| 0 <= k < Length(columns[c]) && ValueAt(columns[c], k).Null?;
        CellHolds(h, b, c, k);
        CoercedFixes(h, b.schema[c].dataType, b.records[k][c]);
        assert Fits(b.records[k], b.schema);
      }
    }
  }

  lemma RoundTripRows(h: Host, b: Batch)
    requires ValidBatch(b) && NoNullType(b.schema) && b.schema != []
    requires Accepted(ArrowFields(b.schema), ArrowColumns(h, b))
    ensures RowsOf(ArrowColumns(h, b)) == CoercedBatch(h, b).records
    ensures CoreSchema(ArrowBatch(ArrowFields(b.schema), ArrowColumns(h, b))) == RoundTripSchema(b.schema)
  {
    hide ValueAt, Coerced, Filled, HasNull;
    var columns := ArrowColumns(h, b);
    ColumnShape(h, b, 0);
    forall k | 0 <= k < |b.records|
      ensures RowsOf(columns)[k] == CoercedBatch(h, b).records[k]
    {
      forall c | 0 <= c < |columns|
        ensures RowAt(columns, k)[c] == CoercedRow(h, b.schema, b.records[k])[c]
      {
        CellHolds(h, b, c, k);
      }
    }
    forall c | 0 <= c < |columns|
      ensures CoreType(columns[c]) == RoundTripType(b.schema[c].dataType)
    {
      ColumnShape(h, b, c);
    }
  }

  lemma CoercedBatchFits(h: Host, b: Batch)
    requires ValidBatch(b) && NoNullType(b.schema)
    ensures ValidBatch(CoercedBatch(h, b)) && NoNullType(CoercedBatch(h, b).schema)
  {
    hide Coerced;
    forall k | 0 <= k < |b.records|
      ensures Fits(CoercedBatch(h, b).records[k], RoundTripSchema(b.schema))
    {
      assert Fits(b.records[k], b.schema);
      forall c | 0 <= c < |b.schema|
        ensures CoercedRow(h, b.schema, b.records[k])[c].Null? ==> b.schema[c].nullable
      {
        CoercedFixes(h, b.schema[c].dataType, b.records[k][c]);
      }
    }
  }

  lemma CoercedSchema(h: Host, b: Batch)
    requires ValidBatch(b)
    ensures CoercedBatch(h, b).schema == RoundTripSchema(b.schema)
  {
  }

  lemma RoundTripWithoutNullType(h: Host, b: Batch)
    requires ValidBatch(b) && NoNullType(b.schema) && b.schema != []
    ensures RoundTrip(h, b) == Ok(CoercedBatch(h, b))
  {
    hide Accepted, RowsOf, CoercedBatch, ArrowColumns, ArrowFields, AllFit, CoreSchema, RoundTripSchema, NoNullType;
    ArrowAccepts(h, b);
    RoundTripRows(h, b);
    CoercedBatchFits(h, b);
    CoercedSchema(h, b);
    var a := ArrowBatch(ArrowFields(b.schema), ArrowColumns(h, b));
    assert FromCore(h, b) == Ok(a);
    assert ToCore(a) == FromRecords(CoercedBatch(h, b).schema, CoercedBatch(h, b).records);
  }

  // ----- columns of type Null -----

  ghost predicate AllNullType(schema: Schema) {
    forall c :: 0 <= c < |schema| ==> schema[c].dataType.NullType?
  }

  /** A builder of type Null tracks nothing, every other one counts its values. */
  lemma {:induction false} FilledLength(h: Host, t: DataType, vs: seq<Value>)
    ensures t.NullType? ==> Filled(h, t, vs) == NullColumn(0)
    ensures !t.NullType? ==> Length(Filled(h, t, vs)) == |vs|
    ensures CoreType(Filled(h, t, vs)) == RoundTripType(t)
  {
    if t.NullType? {
      if vs != [] {
        FilledLength(h, t, vs[..|vs| - 1]);
      }
    } else {
      FilledHolds(h, t, vs);
    }
  }

  lemma ColumnLength(h: Host, b: Batch, c: nat)
    requires ValidBatch(b) && c < |b.schema|
    ensures Length(ArrowColumns(h, b)[c]) == if b.schema[c].dataType.NullType? then 0 else |b.records|
    ensures CoreType(ArrowColumns(h, b)[c]) == RoundTripType(b.schema[c].dataType)
  {
    hide Filled;
    FilledLength(h, b.schema[c].dataType, ColumnOf(b.records, c));
  }

  /** The columnar side accepts a batch exactly when it has a column and, if it has rows, its columns
      are all of type Null or none is. */
  ghost predicate Crosses(b: Batch) {
    b.schema != [] && (b.records == [] || NoNullType(b.schema) || AllNullType(b.schema))
  }

  lemma EmptyColumnsAccepted(fields: seq<ArrowField>, columns: seq<Column>)
    requires |fields| == |columns| && columns != [] && forall c :: 0 <= c < |columns| ==> Length(columns[c]) == 0
    ensures Accepted(fields, columns) && RowsOf(columns) == []
  {
    hide ValueAt;
    assert Accepted(fields, columns);
  }

  lemma ColumnsAreEmpty(h: Host, b: Batch)
    requires ValidBatch(b) && (b.records == [] || AllNullType(b.schema))
    ensures forall c :: 0 <= c < |b.schema| ==> Length(ArrowColumns(h, b)[c]) == 0
  {
    hide ArrowColumns, Length;
    forall c | 0 <= c < |b.schema|
      ensures Length(ArrowColumns(h, b)[c]) == 0
    {
      ColumnLength(h, b, c);
    }
  }

  lemma AcceptedIffCrosses(h: Host, b: Batch)
    requires ValidBatch(b)
    ensures Accepted(ArrowFields(b.schema), ArrowColumns(h, b)) <==> Crosses(b)
  {
    hide ArrowColumns, ArrowFields, HasNull, Length;
    var columns := ArrowColumns(h, b);
    assert |columns| == |b.schema| == |ArrowFields(b.schema)|;
    if Crosses(b) {
      if b.records == [] || AllNullType(b.schema) {
        ColumnsAreEmpty(h, b);
        EmptyColumnsAccepted(ArrowFields(b.schema), columns);
      } else {
        ArrowAccepts(h, b);
      }
    } else if b.schema != [] {
      var c :| 0 <= c < |b.schema| && b.schema[c].dataType.NullType?;
      var d :| 0 <= d < |b.schema| && !b.schema[d].dataType.NullType?;
      ColumnLength(h, b, c);
      ColumnLength(h, b, d);
      assert Length(columns[c]) != Length(columns[d]);
      assert !(Length(columns[c]) == Length(columns[0]) && Length(columns[d]) == Length(columns[0]));
    }
  }

  lemma EmptySchemaIs(h: Host, b: Batch)
    requires ValidBatch(b)
    ensures CoreSchema(ArrowBatch(ArrowFields(b.schema), ArrowColumns(h, b))) == RoundTripSchema(b.schema)
  {
    hide ArrowColumns, ArrowFields, RoundTripType, CoreType;
    var columns := ArrowColumns(h, b);
    forall c | 0 <= c < |b.schema|
      ensures CoreType(columns[c]) == RoundTripType(b.schema[c].dataType)
    {
      ColumnLength(h, b, c);
    }
    assert CoreSchema(ArrowBatch(ArrowFields(b.schema), columns)) == RoundTripSchema(b.schema);
  }

  /** What the round trip returns for every valid batch. */
  ghost function RoundTripOutcome(h: Host, b: Batch): Result<Batch>
    requires ValidBatch(b)
  {
    if !Crosses(b) then Err(ExecutionError("arrow RecordBatch build failed"))
    else if NoNullType(b.schema) then Ok(CoercedBatch(h, b))
    else Ok(Batch(RoundTripSchema(b.schema), []))
  }

  lemma RoundTripOfNoRows(h: Host, b: Batch)
    requires ValidBatch(b) && b.schema != [] && (b.records == [] || AllNullType(b.schema))
    ensures RoundTrip(h, b) == Ok(Batch(RoundTripSchema(b.schema), []))
  {
    hide ArrowColumns, ArrowFields, Accepted, CoreSchema, RoundTripSchema, Length, RowsOf;
    var a := ArrowBatch(ArrowFields(b.schema), ArrowColumns(h, b));
    ColumnsAreEmpty(h, b);
    assert |ArrowColumns(h, b)| == |b.schema| == |ArrowFields(b.schema)|;
    EmptyColumnsAccepted(a.fields, a.columns);
    EmptySchemaIs(h, b);
    assert FromCore(h, b) == Ok(a);
    assert ToCore(a) == FromRecords(RoundTripSchema(b.schema), []);
  }

  /** For every valid batch: refused if it does not cross; otherwise the same rows, each cell coerced
      to its column's type, or no rows at all if some column has type Null. */
  lemma RoundTripMeaning(h: Host, b: Batch)
    requires ValidBatch(b)
    ensures RoundTrip(h, b) == RoundTripOutcome(h, b)
  {
    hide ArrowColumns, ArrowFields, Accepted, CoercedBatch, RoundTripSchema, ToCore;
    AcceptedIffCrosses(h, b);
    if Crosses(b) {
      hide RoundTrip;
      if NoNullType(b.schema) {
        RoundTripWithoutNullType(h, b);
      } else {
        RoundTripOfNoRows(h, b);
      }
    }
  }

  /** `arrow_from_core` fails exactly when there is no column, or a column of type Null meets another
      type in a batch with rows. */
  lemma FromCoreFailsExactly(h: Host, b: Batch)
    requires ValidBatch(b)
    ensures FromCore(h, b).Err? <==>
      b.schema == [] || (b.records != [] && !NoNullType(b.schema) && !AllNullType(b.schema))
  {
    hide ArrowColumns, ArrowFields, Accepted;
    AcceptedIffCrosses(h, b);
  }

  /** Every batch whose columns are all of type Null comes back with string columns and no rows. */
  lemma NullColumnsLoseRows(h: Host, b: Batch)
    requires ValidBatch(b) && b.schema != [] && AllNullType(b.schema)
    ensures RoundTrip(h, b) == Ok(Batch(RoundTripSchema(b.schema), []))
    ensures forall c :: 0 <= c < |b.schema| ==> RoundTripSchema(b.schema)[c] == b.schema[c].(dataType := StringType)
  {
    RoundTripOfNoRows(h, b);
  }

  // ----- identity and idempotence -----

  ghost predicate AllMatch(b: Batch) {
    forall k, c :: 0 <= k < |b.records| && 0 <= c < |b.records[k]| && c < |b.schema| ==>
      Matches(b.schema[c].dataType, b.records[k][c])
  }

  ghost predicate NoTemporal(schema: Schema) {
    forall c :: 0 <= c < |schema| ==> !schema[c].dataType.DateType? && !schema[c].dataType.TimestampType?
  }

  lemma CoercedIsSame(h: Host, b: Batch)
    requires ValidBatch(b) && NoNullType(b.schema)
    ensures CoercedBatch(h, b) == b <==> NoTemporal(b.schema) && AllMatch(b)
  {
    hide Coerced, Matches;
    var r := CoercedBatch(h, b);
    assert forall k :: 0 <= k < |b.records| ==> Fits(b.records[k], b.schema);
    forall k, c | 0 <= k < |b.records| && 0 <= c < |b.schema|
      ensures r.records[k][c] == b.records[k][c] <==> Matches(b.schema[c].dataType, b.records[k][c])
    {
      CoercedFixes(h, b.schema[c].dataType, b.records[k][c]);
    }
    SchemaKept(b.schema);
    if r == b {
      forall k, c | 0 <= k < |b.records| && 0 <= c < |b.records[k]| && c < |b.schema|
        ensures Matches(b.schema[c].dataType, b.records[k][c])
      {
        assert r.records[k][c] == b.records[k][c];
      }
    } else if AllMatch(b) {
      forall k | 0 <= k < |b.records|
        ensures r.records[k] == b.records[k]
      {
      }
      assert r.records == b.records;
    }
  }

  /** For every valid batch: the round trip is the identity exactly when there is a column, none is of
      type Null, Date or Timestamp, and every value is null or of its declared type. */
  lemma RoundTripIsIdentity(h: Host, b: Batch)
    requires ValidBatch(b)
    ensures RoundTrip(h, b) == Ok(b) <==>
      b.schema != [] && NoNullType(b.schema) && NoTemporal(b.schema) && AllMatch(b)
  {
    hide RoundTrip, CoercedBatch, AllMatch, NoTemporal, RoundTripSchema;
    RoundTripMeaning(h, b);
    if NoNullType(b.schema) {
      CoercedIsSame(h, b);
    } else {
      NullTypeIsLost(b.schema);
    }
  }

  lemma NullTypeIsLost(schema: Schema)
    requires !NoNullType(schema)
    ensures RoundTripSchema(schema) != schema
  {
    var c :| 0 <= c < |schema| && schema[c].dataType.NullType?;
    assert RoundTripSchema(schema)[c].dataType != schema[c].dataType;
  }

  lemma SchemaKept(schema: Schema)
    ensures RoundTripSchema(schema) == schema <==>
      forall c :: 0 <= c < |schema| ==> schema[c].dataType == RoundTripType(schema[c].dataType)
    ensures forall c :: 0 <= c < |schema| && !schema[c].dataType.NullType? ==>
      (schema[c].dataType == RoundTripType(schema[c].dataType) <==>
       !schema[c].dataType.DateType? && !schema[c].dataType.TimestampType?)
  {
    if RoundTripSchema(schema) == schema {
      assert forall c :: 0 <= c < |schema| ==> RoundTripSchema(schema)[c] == schema[c];
    }
  }

  lemma RoundTrippedSchema(schema: Schema)
    ensures NoNullType(RoundTripSchema(schema)) && NoTemporal(RoundTripSchema(schema))
  {
  }

  lemma CoercedMatches(h: Host, b: Batch)
    requires ValidBatch(b) && NoNullType(b.schema)
    ensures AllMatch(CoercedBatch(h, b))
  {
    hide Coerced, Matches;
    var r := CoercedBatch(h, b);
    forall k, c | 0 <= k < |r.records| && 0 <= c < |r.records[k]| && c < |r.schema|
      ensures Matches(r.schema[c].dataType, r.records[k][c])
    {
      CoercedFixes(h, b.schema[c].dataType, b.records[k][c]);
    }
  }

  /** Whatever comes back once comes back unchanged a second time. */
  lemma RoundTripIdempotent(h: Host, b: Batch)
    requires ValidBatch(b) && RoundTrip(h, b).Ok?
    ensures ValidBatch(RoundTrip(h, b).value)
    ensures RoundTrip(h, RoundTrip(h, b).value) == RoundTrip(h, b)
  {
    hide RoundTrip, CoercedBatch, AllMatch, NoTemporal, NoNullType;
    RoundTripMeaning(h, b);
    var r := RoundTrip(h, b).value;
    RoundTrippedSchema(b.schema);
    CoercedSchema(h, b);
    if NoNullType(b.schema) {
      CoercedBatchFits(h, b);
      CoercedMatches(h, b);
    } else {
      EmptyMatches(r);
    }
    RoundTripIsIdentity(h, r);
  }

  lemma EmptyMatches(b: Batch)
    requires b.records == []
    ensures AllMatch(b) && ValidBatch(b)
  {
  }
}
