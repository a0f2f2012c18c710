/** Vocabulary shared by every component: Elm's `Maybe`, Elm's `Order`, and computations that may crash. */
module Basics {

  /** Elm's `Maybe`, and JavaScript values that may be undefined. */
  datatype Option<+T> = None | Some(value: T)

  /** What a JavaScript call gives back: a value, or a thrown error / `Debug.crash`. */
  datatype Outcome<+T> = Done(value: T) | Crash {
    predicate IsFailure() {
      Crash?
    }

    function PropagateFailure<U>(): Outcome<U>
      requires Crash?
    {
      Crash
    }

    function Extract(): T
      requires Done?
    {
      value
    }
  }

  /** The result of Elm's `compare`. */
  datatype Order = LT | EQ | GT

  /** Elm's `compare` on any one comparable type is such a function, NaN aside. */
  ghost predicate TotalOrder<K(!new)>(cmp: (K, K) -> Order) {
    && (forall x, y :: cmp(x, y) == EQ <==> x == y)
    && (forall x, y :: cmp(x, y) == LT <==> cmp(y, x) == GT)
    && (forall x, y, z :: cmp(x, y) == LT && cmp(y, z) == LT ==> cmp(x, z) == LT)
  }
}
