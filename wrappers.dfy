/** The absent-or-present value used throughout the model (Python's `None` or a value). */
module Wrappers {
  datatype Option<T> = None | Some(value: T) {
    /** `x or default` / `d.get(k, default)` for an optional value. */
    function GetOr(default: T): T {
      if Some? then value else default
    }

    /** The value as a list of zero or one elements. */
    function ToSeq(): seq<T> {
      if Some? then [value] else []
    }
  }

  /** One step of a fold that appends: the accumulator plus the new part is the next prefix's value. */
  lemma AppendStep<T>(acc: seq<T>, part: seq<T>, prev: seq<T>, one: seq<T>, next: seq<T>)
    requires acc == prev && part == one && next == prev + one
    ensures acc + part == next
  {
  }

  /** Concatenation is associative (Dafny needs the regrouping spelled out inside long terms). */
  lemma ConcatAssoc<T>(x: seq<T>, y: seq<T>, z: seq<T>)
    ensures x + (y + z) == (x + y) + z
  {
  }

  /** Python's `xs[:n]` for any integer `n`: a negative `n` drops that many elements from the end. */
  function PyPrefix<T>(xs: seq<T>, n: int): (r: seq<T>)
    ensures 0 <= n <= |xs| ==> r == xs[..n]
    ensures n > |xs| ==> r == xs
    ensures n < 0 ==> r == xs[..if |xs| + n < 0 then 0 else |xs| + n]
    ensures |r| <= |xs| && r == xs[..|r|]
  {
    if n >= 0 then (if n <= |xs| then xs[..n] else xs)
    else xs[..if |xs| + n < 0 then 0 else |xs| + n]
  }
}
