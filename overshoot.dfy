/** The overshoot clamp of the three outline methods,
    `interpWell[interpWell > interpWell[0]] = interpWell[0]`: every
    interpolated sample above the contour's first sample is pulled down to it. */
module Overshoot {

  /** The clamped samples, as a value. */
  function Clamped(s: seq<real>): seq<real>
    requires |s| > 0
  {
    seq(|s|, k requires 0 <= k < |s| => if s[k] > s[0] then s[0] else s[k])
  }

  /** After clamping nothing exceeds the first sample, the first sample and
      every sample already at or below it are kept, and the rest become the
      first sample. */
  lemma ClampedBounds(s: seq<real>)
    requires |s| > 0
    ensures |Clamped(s)| == |s| && Clamped(s)[0] == s[0]
    ensures forall k :: 0 <= k < |s| ==> Clamped(s)[k] <= Clamped(s)[0]
    ensures forall k :: 0 <= k < |s| && s[k] <= s[0] ==> Clamped(s)[k] == s[k]
    ensures forall k :: 0 <= k < |s| && s[k] > s[0] ==> Clamped(s)[k] == s[0]
  {
  }

  /** Clamping twice changes nothing more. */
  lemma ClampIdempotent(s: seq<real>)
    requires |s| > 0
    ensures Clamped(Clamped(s)) == Clamped(s)
  {
  }

  /** The clamp in place on the array of interpolated samples. */
  method ClampOvershoot(a: array<real>)
    requires a.Length > 0
    modifies a
    ensures a[..] == Clamped(old(a[..]))
    ensures forall k :: 0 <= k < a.Length ==> a[k] <= a[0]
    ensures forall k :: 0 <= k < a.Length && old(a[k]) <= old(a[0]) ==> a[k] == old(a[k])
  {
    var top := a[0];
    var i := 0;
    while i < a.Length
      invariant 0 <= i <= a.Length && a[0] == top == old(a[0])
      invariant forall k :: 0 <= k < i ==> a[k] == (if old(a[k]) > top then top else old(a[k]))
      invariant forall k :: i <= k < a.Length ==> a[k] == old(a[k])
    {
      if a[i] > top {
        a[i] := top;
      }
      i := i + 1;
    }
  }
}
