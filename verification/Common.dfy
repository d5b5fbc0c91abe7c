/** Definitions that several modules share. */
module Common {
  datatype Option<+T> = None | Some(value: T) {
    function GetOr(default: T): T {
      match this
      case None => default
      case Some(v) => v
    }
  }

  function Min(a: nat, b: nat): nat {
    if a < b then a else b
  }

  function Max(a: nat, b: nat): nat {
    if a < b then b else a
  }

  /** The index of the first element that meets p, or the length. */
  function FirstIndex<T>(xs: seq<T>, p: T -> bool): (i: nat)
    ensures i <= |xs| && (i < |xs| ==> p(xs[i]))
    ensures forall k | 0 <= k < i :: !p(xs[k])
  {
    if xs == [] || p(xs[0]) then 0 else 1 + FirstIndex(xs[1..], p)
  }

  lemma Assoc<T>(a: seq<T>, b: seq<T>, c: seq<T>)
    ensures a + b + c == a + (b + c)
  {
  }
}
