/** What several modules share. */
module Basics {
  /** A value that may be absent. */
  datatype Option<+A> = None | Some(value: A)

  function Lower(c: char): char {
    if 'A' <= c <= 'Z' then (c as int + 32) as char else c
  }

  /** Concatenation is associative; the solver needs to be told. */
  lemma Reassociate<A>(x: seq<A>, y: seq<A>, z: seq<A>)
    ensures x + (y + z) == x + y + z
  {
  }
}
