/** Shared vocabulary of the team generator: member names, an optional value,
    and the `slice(0, k)` prefix operation the history buffer is built on. */
module Common {

  /** A member's display name, exactly as typed; uniqueness is never enforced. */
  type Name = string

  datatype Option<+T> = None | Some(value: T)

  function Min(a: int, b: int): (m: int)
    ensures m <= a && m <= b
    ensures m == a || m == b
  {
    if a <= b then a else b
  }

  /** JavaScript's `s.slice(0, k)`: the first `k` elements, or all of `s` when it is shorter. */
  function Take<T>(s: seq<T>, k: nat): (r: seq<T>)
    ensures |r| == Min(|s|, k)
    ensures r <= s
  {
    if |s| <= k then s else s[..k]
  }

  /** The elements of `s` in the opposite order. */
  function Reverse<T>(s: seq<T>): (r: seq<T>)
    ensures |r| == |s|
    ensures forall i :: 0 <= i < |s| ==> r[i] == s[|s| - 1 - i]
  {
    if |s| == 0 then [] else Reverse(s[1..]) + [s[0]]
  }

  /** Truncating a tail before prepending changes nothing once the result is truncated again. */
  lemma TakeAbsorb<T>(a: seq<T>, b: seq<T>, k: nat)
    ensures Take(a + Take(b, k), k) == Take(a + b, k)
  {
  }

  /** Every line-break-free name: the only kind an `<input type="text">` can hold. */
  predicate NoLineBreak(s: string)
  {
    '\n' !in s
  }

  predicate AllNoLineBreak(names: seq<Name>)
  {
    forall i :: 0 <= i < |names| ==> NoLineBreak(names[i])
  }
}
