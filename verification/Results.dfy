/** Failure-carrying results shared by every component, and the error kinds the engine raises. */
module Results {

  datatype Option<+T> = None | Some(value: T)

  /** The error kinds of `rspark_core::error::Error`. `Error::Schema` is split by cause,
      because the shape checks (the first three) have to be told apart from a failed name lookup. */
  datatype Error =
    | FieldCountMismatch(found: nat, expected: nat)
    | NullInNotNull(field: string, index: nat)
    | MismatchedExtend
    | ColumnNotFound(name: string)
    | TypeError(context: string, operands: seq<string>)
    | ExecutionError(context: string)
    | SqlError(context: string)
    | NotFound(what: string)
  {
    /** Raised only by `validate` and `extend`: the rows do not fit the declared schema. */
    predicate IsShapeFault() {
      FieldCountMismatch? || NullInNotNull? || MismatchedExtend?
    }
  }

  datatype Result<+T> = Ok(value: T) | Err(error: Error)
  {
    predicate IsFailure() { Err? }

    function PropagateFailure<U>(): Result<U>
      requires Err?
    {
      Err(error)
    }

    function Extract(): T
      requires Ok?
    {
      value
    }
  }

  /** `out` followed by the rows of `rest`, unless computing `rest` failed. */
  function Prepend<T>(out: seq<T>, rest: Result<seq<T>>): Result<seq<T>> {
    match rest
    case Ok(xs) => Ok(out + xs)
    case Err(e) => Err(e)
  }

  lemma PrependUnits<T>(out: seq<T>, rest: Result<seq<T>>)
    ensures Prepend([], rest) == rest
    ensures Prepend(out, Ok([])) == Ok(out)
  {
    assert out + [] == out;
    if rest.Ok? {
      assert [] + rest.value == rest.value;
    }
  }

  lemma PrependPrepend<T>(a: seq<T>, b: seq<T>, rest: Result<seq<T>>)
    ensures Prepend(a, Prepend(b, rest)) == Prepend(a + b, rest)
  {
    if rest.Ok? {
      assert a + (b + rest.value) == (a + b) + rest.value;
    }
  }
}
