/** Sequences of numbers: bytes, and the ends of a list and what follows in it. */
module Sequences {
  import opened Options

  predicate Bytes(bs: seq<nat>) {
    forall i :: 0 <= i < |bs| ==> bs[i] < 256
  }

  function First(q: seq<nat>): Option<nat> {
    if q == [] then None else Some(q[0])
  }

  function Last(q: seq<nat>): Option<nat> {
    if q == [] then None else Some(q[|q| - 1])
  }

  function After(q: seq<nat>, i: nat): Option<nat> {
    if i + 1 < |q| then Some(q[i + 1]) else None
  }
}
