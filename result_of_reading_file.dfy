/** IO/ResultOfReadingFile.cs: an immutable success-or-error value. */
module ReadingResults {
  import opened Wrappers
  import opened DotNet

  /** `ResultOfReadingFile<T>`. A property the private constructor leaves unset keeps its
      default (`None` here). All properties are get-only, so a value never changes. */
  datatype ResultOfReadingFile<T> = ResultOfReadingFile(Success: bool, Result: Option<T>, Error: Option<Exception>) {

    /** Made by one of the two factories: a success carries a result and no error, a failure
        an error and no result. */
    predicate Valid() {
      (Success && Result.Some? && Error.None?) || (!Success && Result.None? && Error.Some?)
    }

    /** `Deconstruct(out success, out result, out error)`. */
    function Deconstruct(): (parts: (bool, Option<T>, Option<Exception>))
      ensures parts.0 == Success && parts.1 == Result && parts.2 == Error
    {
      (Success, Result, Error)
    }

    /** The implicit conversion to `bool`. */
    function ToBool(): (b: bool)
      ensures b <==> Success
    {
      Success
    }

    /** `Ok(value)`. */
    static function Ok(value: T): (r: ResultOfReadingFile<T>)
      ensures r.Valid() && r.Success && r.Result == Some(value) && r.Error == None
    {
      ResultOfReadingFile(true, Some(value), None)
    }

    /** `Fail(ex)`. */
    static function Fail(ex: Exception): (r: ResultOfReadingFile<T>)
      ensures r.Valid() && !r.Success && r.Result == None && r.Error == Some(ex)
    {
      ResultOfReadingFile(false, None, Some(ex))
    }
  }

  /** Every valid value is what one of the factories makes from its own parts, and
      deconstructing then rebuilding gives the value back. */
  lemma FactoriesRoundTrip<T>(r: ResultOfReadingFile<T>)
    requires r.Valid()
    ensures r.Success ==> r == ResultOfReadingFile<T>.Ok(r.Result.value)
    ensures !r.Success ==> r == ResultOfReadingFile<T>.Fail(r.Error.value)
    ensures r.ToBool() == r.Deconstruct().0
  {
  }
}
