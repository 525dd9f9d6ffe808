/** Failure-carrying result types shared by every module of the model. */
module Common {

  datatype Option<T> = None | Some(value: T)

  /** A computation that either produced a value or stopped with an error
      (the model's reading of Go's `(value, error)` pairs and of panics). */
  datatype Result<T, E> = Ok(value: T) | Err(error: E)

  /** Which behaviour a whole-call model follows: the program as it is
      written, or with the defects listed in the README's findings corrected. */
  datatype Reading = AsWritten | Corrected

  /** No element occurs twice. */
  predicate NoDuplicates<T(==)>(s: seq<T>)
  {
    forall i, j :: 0 <= i < j < |s| ==> s[i] != s[j]
  }
}
