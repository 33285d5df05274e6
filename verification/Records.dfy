/** Schemas, rows and batches (crates/rspark-core/src/schema.rs, record.rs). */
module Records {
  import opened Results
  import opened Values

  datatype DataType =
    | BooleanType | Int32Type | Int64Type | Float32Type | Float64Type
    | StringType | DateType | TimestampType | NullType

  datatype Field = Field(name: string, dataType: DataType, nullable: bool)

  type Schema = seq<Field>
  type Record = seq<Value>

  datatype Batch = Batch(schema: Schema, records: seq<Record>)

  function NewField(name: string, dataType: DataType): Field {
    Field(name, dataType, true)
  }

  /** Position of the first field called `name`. */
  function IndexOf(schema: Schema, name: string): (r: Option<nat>)
    ensures r.Some? ==> r.value < |schema| && schema[r.value].name == name
    ensures r.Some? ==> forall j :: 0 <= j < r.value ==> schema[j].name != name
    ensures r.None? ==> forall j :: 0 <= j < |schema| ==> schema[j].name != name
    decreases |schema|
  {
    if schema == [] then None
    else if schema[0].name == name then Some(0)
    else
      match IndexOf(schema[1..], name)
      case Some(i) =>
        assert forall j :: 1 <= j < |schema| ==> schema[j] == schema[1..][j - 1];
        Some(i + 1)
      case None =>
        assert forall j :: 1 <= j < |schema| ==> schema[j] == schema[1..][j - 1];
        None
  }

  /** `record.get(idx).cloned().unwrap_or(Value::Null)` */
  function GetOrNull(record: Record, idx: nat): Value {
    if idx < |record| then record[idx] else Null
  }

  predicate HasColumn(schema: Schema, name: string) {
    exists i :: 0 <= i < |schema| && schema[i].name == name
  }

  predicate DistinctNames(schema: Schema) {
    forall i, j :: 0 <= i < j < |schema| ==> schema[i].name != schema[j].name
  }

  /** Under distinct names every field is found at its own position. */
  lemma IndexOfOwnPosition(schema: Schema, i: nat)
    requires DistinctNames(schema) && i < |schema|
    ensures IndexOf(schema, schema[i].name) == Some(i)
  {
    var r := IndexOf(schema, schema[i].name);
    assert r.Some? && !(r.value < i);
  }

  // ----- validation -----

  /** First not-null field, from `from` on, whose value is null. */
  function FirstForbiddenNull(record: Record, schema: Schema, from: nat): (r: Option<nat>)
    requires |record| == |schema| && from <= |schema|
    ensures r.Some? ==> from <= r.value < |schema| && record[r.value].Null? && !schema[r.value].nullable
    ensures r.None? <==> forall i :: from <= i < |schema| ==> record[i].Null? ==> schema[i].nullable
    decreases |schema| - from
  {
    if from == |schema| then None
    else if record[from].Null? && !schema[from].nullable then Some(from)
    else FirstForbiddenNull(record, schema, from + 1)
  }

  /** `Record::validate`; `None` means the record fits. */
  function Validate(record: Record, schema: Schema): (r: Option<Error>)
    ensures r.None? <==> Fits(record, schema)
    ensures r.Some? ==> r.value.IsShapeFault()
  {
    if |record| != |schema| then Some(FieldCountMismatch(|record|, |schema|))
    else
      match FirstForbiddenNull(record, schema, 0)
      case Some(i) => Some(NullInNotNull(schema[i].name, i))
      case None => None
  }

  /** The meaning of a successful validation. */
  predicate Fits(record: Record, schema: Schema) {
    && |record| == |schema|
    && forall i :: 0 <= i < |schema| ==> record[i].Null? ==> schema[i].nullable
  }

  predicate AllFit(records: seq<Record>, schema: Schema) {
    forall k :: 0 <= k < |records| ==> Fits(records[k], schema)
  }

  predicate ValidBatch(b: Batch) {
    AllFit(b.records, b.schema)
  }

  function FirstFault(records: seq<Record>, schema: Schema): (r: Option<Error>)
    ensures r.None? <==> AllFit(records, schema)
    ensures r.Some? ==> r.value.IsShapeFault()
  {
    if records == [] then None
    else
      match Validate(records[0], schema)
      case Some(e) => Some(e)
      case None =>
        assert forall k :: 1 <= k < |records| ==> records[k] == records[1..][k - 1];
        FirstFault(records[1..], schema)
  }

  /** `RecordBatch::from_records` */
  function FromRecords(schema: Schema, records: seq<Record>): (r: Result<Batch>)
    ensures r.Ok? <==> AllFit(records, schema)
    ensures r.Ok? ==> r.value == Batch(schema, records) && ValidBatch(r.value)
    ensures r.Err? ==> r.error.IsShapeFault()
  {
    match FirstFault(records, schema)
    case Some(e) => Err(e)
    case None => Ok(Batch(schema, records))
  }

  /** `RecordBatch::extend`, as a value. */
  function Extended(b: Batch, other: Batch): (r: Result<Batch>)
    ensures r.Ok? <==> b.schema == other.schema
    ensures r.Ok? && ValidBatch(b) && ValidBatch(other) ==> ValidBatch(r.value)
    ensures r.Err? ==> r.error.IsShapeFault()
  {
    if b.schema != other.schema then Err(MismatchedExtend)
    else Ok(Batch(b.schema, b.records + other.records))
  }

  /** A mutable place holding one batch: what Rust passes as `&mut RecordBatch`. */
  class BatchSlot {
    var batch: Batch

    constructor (batch: Batch)
      ensures this.batch == batch
    {
      this.batch := batch;
    }

    method Push(record: Record) returns (fault: Option<Error>)
      modifies this
      ensures fault.None? <==> Fits(record, old(batch).schema)
      ensures fault.Some? ==> batch == old(batch) && fault.value.IsShapeFault()
      ensures fault.None? ==> batch == Batch(old(batch).schema, old(batch).records + [record])
      ensures old(ValidBatch(batch)) ==> ValidBatch(batch)
    {
      fault := Validate(record, batch.schema);
      if fault.None? {
        batch := batch.(records := batch.records + [record]);
      }
    }

    method Extend(other: Batch) returns (fault: Option<Error>)
      modifies this
      ensures fault.None? <==> old(batch).schema == other.schema
      ensures fault.Some? ==> batch == old(batch) && Extended(old(batch), other) == Err(fault.value)
      ensures fault.None? ==> Extended(old(batch), other) == Ok(batch)
      ensures old(ValidBatch(batch)) && ValidBatch(other) ==> ValidBatch(batch)
    {
      if batch.schema != other.schema {
        return Some(MismatchedExtend);
      }
      batch := batch.(records := batch.records + other.records);
      fault := None;
    }
  }
}
