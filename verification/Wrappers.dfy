/** What the models share: time, an optional value, a value-or-error result, and a fact about finite sets. */
module Wrappers {
  type Time = int  // nanoseconds of the one shared clock

  datatype Option<+T> = None | Some(value: T)

  datatype Result<+T, +E> = Ok(value: T) | Err(error: E)

  lemma SubsetSize<T>(a: set<T>, b: set<T>)
    requires a <= b
    ensures |a| <= |b|
  {
    assert b == a + (b - a);
  }
}
