/** Results that may be absent, and facts about sequences that every module uses. */
module Wrappers {

  datatype Option<+T> = None | Some(value: T) {
    predicate IsFailure() { None? }

    function PropagateFailure<U>(): Option<U>
      requires None?
    {
      None
    }

    function Extract(): T
      requires Some?
    {
      value
    }
  }

  /** A string of `n` zero bits. */
  function Zeros(n: nat): (z: seq<bool>)
    ensures |z| == n
  {
    seq(n, _ => false)
  }

  lemma ConcatAssoc<T>(a: seq<T>, b: seq<T>, c: seq<T>)
    ensures a + (b + c) == a + b + c
  {
  }

  /** The first element of `c` moved behind `a`. */
  lemma MoveFirst<T>(a: seq<T>, c: seq<T>)
    ensures c != [] ==> a + [c[0]] + c[1..] == a + c
    ensures a + [] == a
  {
  }
}
