/** Shared vocabulary of the bucket model: the error kinds the source raises,
    Result/Option wrappers, and the few sequence operations (numpy's max, min,
    trapz, reversal) the geometry is written in. */
module Common {

  /** The exceptions the modelled code raises, by kind. */
  datatype Error =
    | InputError          // excpt.InputError: bad argument or level out of range
    | BunchSizeError      // excpt.BunchSizeError: target larger than the bucket
    | IndexError          // Python IndexError: indexing an empty selection
    | ValueError          // numpy ValueError: max/min/interp of an empty array
    | ZeroDivisionError   // Python division by zero

  datatype Option<+T> = None | Some(value: T)

  datatype Result<+T> = Ok(value: T) | Err(error: Error)

  function Last<T>(s: seq<T>): T
    requires |s| > 0
  {
    s[|s| - 1]
  }

  /** np.max of a non-empty sequence. */
  function Max(s: seq<real>): (m: real)
    requires |s| > 0
    ensures m in s
    ensures forall k :: 0 <= k < |s| ==> s[k] <= m
  {
    if |s| == 1 then s[0]
    else
      var rest := Max(s[1..]);
      assert forall k :: 1 <= k < |s| ==> s[k] == s[1..][k - 1];
      if s[0] >= rest then s[0] else rest
  }

  /** np.min of a non-empty sequence. */
  function Min(s: seq<real>): (m: real)
    requires |s| > 0
    ensures m in s
    ensures forall k :: 0 <= k < |s| ==> m <= s[k]
  {
    if |s| == 1 then s[0]
    else
      var rest := Min(s[1..]);
      assert forall k :: 1 <= k < |s| ==> s[k] == s[1..][k - 1];
      if s[0] <= rest then s[0] else rest
  }

  /** `s[::-1]`. */
  function Reverse<T>(s: seq<T>): (r: seq<T>)
    ensures |r| == |s|
    ensures forall k :: 0 <= k < |s| ==> r[k] == s[|s| - 1 - k]
  {
    if s == [] then [] else Reverse(s[1..]) + [s[0]]
  }

  /** Element-wise negation, `-a`. */
  function Negate(s: seq<real>): (r: seq<real>)
    ensures |r| == |s|
    ensures forall k :: 0 <= k < |s| ==> r[k] == -s[k]
  {
    if s == [] then [] else [-s[0]] + Negate(s[1..])
  }

  /** np.trapz(y, x): the trapezoidal rule over the common prefix of y and x
      (numpy demands equal lengths; every caller here passes them). */
  function Trapz(y: seq<real>, x: seq<real>): real
    decreases |y|
  {
    if |y| < 2 || |x| < 2 then 0.0
    else (x[1] - x[0]) * (y[0] + y[1]) / 2.0 + Trapz(y[1..], x[1..])
  }

  /** Strictly ascending indices, as numpy's `where` and the index-list
      comprehensions of the source produce them. */
  predicate Increasing(s: seq<nat>)
  {
    forall a, b :: 0 <= a < b < |s| ==> s[a] < s[b]
  }

  /** Nothing below the head of an ascending list is in it. */
  lemma NoneBeforeHead(s: seq<nat>, x: nat)
    requires Increasing(s) && s != [] && x < s[0]
    ensures x !in s
  {
    forall i | 0 <= i < |s| ensures s[i] != x {
      assert i == 0 || s[0] < s[i];
    }
  }

  function Abs(x: real): (r: real)
    ensures r >= 0.0 && (r == x || r == -x)
  {
    if x < 0.0 then -x else x
  }
}
