/** Value types shared by every part of the model. */
module Basics {

  /** A value that may be missing: a nil slice, an absent key, an unset reference. */
  datatype Option<+T> = None | Some(value: T)

  /** The outcome of a computation that the program may abort with a panic or an error. */
  datatype Result<+T> = Ok(value: T) | Panic

  const TWO_64: int := 0x1_0000_0000_0000_0000

  type Uint64 = x: int | 0 <= x < 0x1_0000_0000_0000_0000

  /** Taking one more element brings a walk over a set closer to its end. */
  lemma OneLess<T>(all: set<T>, done: set<T>, x: T)
    requires x in all && x !in done
    ensures |all - (done + {x})| < |all - done|
  {
    assert all - (done + {x}) == (all - done) - {x};
  }
}
