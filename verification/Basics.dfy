/** Values shared by every component of the model. */
module Basics {

  /** Public ids, ordered as numbers: a `Uuid` compares byte by byte, most significant first. */
  type Uuid = nat

  datatype Option<T> = None | Some(value: T) {

    /** The first of the two that is present, as Rust's `Option::or`. */
    function Or(other: Option<T>): Option<T> {
      if Some? then this else other
    }
  }

  lemma Regrouped<T>(a: seq<T>, b: seq<T>, c: seq<T>)
    ensures (a + b) + c == a + (b + c)
  {
  }
}
