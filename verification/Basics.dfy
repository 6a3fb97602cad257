/** What the models share. */
module Basics {

  datatype Option<+T> = None | Some(value: T)

  /** How one attempt at an operation ended: it returned, the process died, or it threw a refusal. */
  datatype Outcome = Done | Crashed | Refused(code: string)

  type Bytes = seq<char>

  /** ASCII letters in lower case. */
  function Lower(c: char): char {
    if 'A' <= c <= 'Z' then c - 'A' + 'a' else c
  }

  function Min(a: nat, b: nat): nat {
    if a < b then a else b
  }

  function Map<T, U>(items: seq<T>, f: T -> U): (mapped: seq<U>)
    ensures |mapped| == |items| && forall i | 0 <= i < |items| :: mapped[i] == f(items[i])
  {
    seq(|items|, i requires 0 <= i < |items| => f(items[i]))
  }
}
