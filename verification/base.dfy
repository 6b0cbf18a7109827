/** Optional values and results with an error, the two failure shapes the
    launcher's Rust code uses (`Option<T>` and `anyhow::Result<T>`). */
module Base {

  datatype Option<+T> = None | Some(value: T)

  datatype Result<+T, +E> = Ok(value: T) | Err(error: E)

  /** Every element of `s` occurs once. */
  predicate NoDuplicates<T(==)>(s: seq<T>) {
    forall i, j :: 0 <= i < j < |s| ==> s[i] != s[j]
  }
}
