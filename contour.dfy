/** Closed contours in (time, energy) space and the scalar geometry read off
    them: the separatrix of `calc_separatrix`, the inner separatrices of
    `inner_buckets`, the outlines of the three `outline_from_*` methods, the
    bucket's `basic_parameters` and the bunch parameters of `_set_bunch`.
    The upper energy bound (the square root of the Hamiltonian transform of
    the well) is an input here: it is computed outside this model. */
module Contour {
  import opened Common

  /** Row 0 and row 1 of the source's `np.array([time, energy])`. */
  datatype Outline = Outline(time: seq<real>, energy: seq<real>)

  /** The forward sweep at +bound followed by the backward sweep at -bound. */
  function ClosedContour(t: seq<real>, ub: seq<real>): (c: Outline)
    ensures |c.time| == 2 * |t| && |c.energy| == 2 * |ub|
  {
    Outline(t + Reverse(t), ub + Negate(Reverse(ub)))
  }

  /** The contour's shape: twice as long, its first half is the input
      unchanged, times are mirrored and energies mirrored with a sign flip. */
  lemma ClosedContourShape(t: seq<real>, ub: seq<real>)
    requires |t| == |ub|
    ensures |ClosedContour(t, ub).time| == 2 * |t| == |ClosedContour(t, ub).energy|
    ensures ClosedContour(t, ub).time[..|t|] == t && ClosedContour(t, ub).energy[..|t|] == ub
    ensures Mirrored(ClosedContour(t, ub).time) && AntiMirrored(ClosedContour(t, ub).energy)
  {
    MirroredTime(t);
    AntiMirroredEnergy(ub);
    assert ClosedContour(t, ub).time[..|t|] == t;
    assert ClosedContour(t, ub).energy[..|t|] == ub;
  }

  predicate Mirrored(s: seq<real>)
  {
    forall k :: 0 <= k < |s| ==> s[k] == s[|s| - 1 - k]
  }

  predicate AntiMirrored(s: seq<real>)
  {
    forall k :: 0 <= k < |s| ==> s[|s| - 1 - k] == -s[k]
  }

  lemma MirroredTime(t: seq<real>)
    ensures Mirrored(t + Reverse(t))
  {
    var c, n := t + Reverse(t), |t|;
    forall k | 0 <= k < 2 * n ensures c[k] == c[2 * n - 1 - k] {
      if k < n {
        assert c[2 * n - 1 - k] == Reverse(t)[n - 1 - k];
      } else {
        assert c[k] == Reverse(t)[k - n];
      }
    }
  }

  lemma AntiMirroredEnergy(ub: seq<real>)
    ensures AntiMirrored(ub + Negate(Reverse(ub)))
  {
    var c, n := ub + Negate(Reverse(ub)), |ub|;
    forall k | 0 <= k < 2 * n ensures c[2 * n - 1 - k] == -c[k] {
      if k < n {
        assert c[2 * n - 1 - k] == Negate(Reverse(ub))[n - 1 - k];
      } else {
        assert c[k] == Negate(Reverse(ub))[k - n];
      }
    }
  }

  /** The upper half of a contour: its first half. */
  function UpperHalf(c: Outline): (h: (seq<real>, seq<real>))
    ensures |h.0| == |c.time| / 2 && |h.1| == |c.energy| / 2
  {
    (c.time[..|c.time| / 2], c.energy[..|c.energy| / 2])
  }

  /** A closed contour gives back the samples it was built from. */
  lemma UpperHalfRoundTrip(t: seq<real>, ub: seq<real>)
    ensures UpperHalf(ClosedContour(t, ub)) == (t, ub)
  {
    var c := ClosedContour(t, ub);
    assert c.time[..|c.time| / 2] == t;
    assert c.energy[..|c.energy| / 2] == ub;
  }

  // ----- basic_parameters (bucket.py:179-184) -----

  /** `half_height = np.max(separatrix[1])`. */
  function HalfHeight(sep: Outline): real
    requires |sep.energy| > 0
  {
    Max(sep.energy)
  }

  /** `length = time[-1] - time[0]`. */
  function BucketLength(time: seq<real>): real
    requires |time| > 0
  {
    Last(time) - time[0]
  }

  /** `area = 2*np.trapz(upper_energy_bound, time)`. */
  function BucketArea(ub: seq<real>, time: seq<real>): real
  {
    2.0 * Trapz(ub, time)
  }

  function Sum(s: seq<real>): real
  {
    if s == [] then 0.0 else s[0] + Sum(s[1..])
  }

  /** `center = np.mean(time)`. */
  function Center(time: seq<real>): real
    requires |time| > 0
  {
    Sum(time) / (|time| as real)
  }

  predicate Ascending(s: seq<real>)
  {
    forall i, j :: 0 <= i <= j < |s| ==> s[i] <= s[j]
  }

  /** With a non-negative upper bound (it is a square root), the half height
      is the largest upper bound and bounds every separatrix energy in
      absolute value. */
  lemma HalfHeightIsMaxBound(t: seq<real>, ub: seq<real>)
    requires |t| == |ub| > 0
    requires forall k :: 0 <= k < |ub| ==> ub[k] >= 0.0
    ensures HalfHeight(ClosedContour(t, ub)) == Max(ub) >= 0.0
    ensures forall k :: 0 <= k < 2 * |ub| ==>
              Abs(ClosedContour(t, ub).energy[k]) <= HalfHeight(ClosedContour(t, ub))
  {
    var e := ClosedContour(t, ub).energy;
    var n := |ub|;
    var m := Max(ub);
    var r := Reverse(ub);
    var nr := Negate(r);
    assert e == ub + nr;
    assert ub[0] <= m;
    forall k | 0 <= k < 2 * n ensures e[k] <= m && -e[k] <= m {
      if k < n {
        assert e[k] == ub[k];
      } else {
        var j := k - n;
        assert e[k] == nr[j] == -r[j];
        assert r[j] == ub[n - 1 - j];
      }
    }
    assert e[..n] == ub;
    assert Max(ub) in e;
    MaxIsUnique(e, m);
  }

  /** The upper bounds of a sequence determine its maximum. */
  lemma MaxIsUnique(s: seq<real>, m: real)
    requires m in s && forall k :: 0 <= k < |s| ==> s[k] <= m
    ensures Max(s) == m
  {
  }

  /** For ascending times the bucket length is non-negative and spans every sample. */
  lemma LengthSpansSamples(time: seq<real>)
    requires |time| > 0 && Ascending(time)
    ensures BucketLength(time) >= 0.0
    ensures forall k :: 0 <= k < |time| ==> time[0] <= time[k] <= time[0] + BucketLength(time)
  {
  }

  // ----- bunch parameters from an outline (bucket.py:522-524) -----

  /** `np.max(outline[0]) - np.min(outline[0])`. */
  function BunchLength(o: Outline): real
    requires |o.time| > 0
  {
    Max(o.time) - Min(o.time)
  }

  /** `np.max(outline[1])`. */
  function BunchHeight(o: Outline): real
    requires |o.energy| > 0
  {
    Max(o.energy)
  }

  /** `np.trapz(outline[1], outline[0])`. */
  function BunchEmittance(o: Outline): real
  {
    Trapz(o.energy, o.time)
  }

  /** The degenerate outline `[[0, 0], [0, 0]]` of a zero target. */
  const ZeroOutline: Outline := Outline([0.0, 0.0], [0.0, 0.0])

  /** A zero target yields zero bunch length, height and emittance. */
  lemma ZeroOutlineIsDegenerate()
    ensures BunchLength(ZeroOutline) == 0.0
    ensures BunchHeight(ZeroOutline) == 0.0
    ensures BunchEmittance(ZeroOutline) == 0.0
  {
    assert ZeroOutline.time[1..] == [0.0];
    MaxIsUnique(ZeroOutline.time, 0.0);
    MaxIsUnique(ZeroOutline.energy, 0.0);
  }

  /** The trapezoidal rule over a sequence extended by one sample. */
  lemma {:induction false} TrapzSnoc(y: seq<real>, x: seq<real>, p: real, q: real)
    requires |y| == |x| >= 1
    ensures Trapz(y + [p], x + [q]) == Trapz(y, x) + (q - Last(x)) * (Last(y) + p) / 2.0
    decreases |y|
  {
    if |y| == 1 {
      assert (y + [p])[1..] == [p];
      assert (x + [q])[1..] == [q];
    } else {
      assert (y + [p])[1..] == y[1..] + [p];
      assert (x + [q])[1..] == x[1..] + [q];
      TrapzSnoc(y[1..], x[1..], p, q);
    }
  }

  /** The trapezoidal rule over two sequences joined end to end. */
  lemma {:induction false} TrapzJoin(y: seq<real>, x: seq<real>, b: seq<real>, z: seq<real>)
    requires |y| == |x| >= 1 && |b| == |z| >= 1
    ensures Trapz(y + b, x + z) == Trapz(y, x) + (z[0] - Last(x)) * (Last(y) + b[0]) / 2.0 + Trapz(b, z)
    decreases |y|
  {
    if |y| == 1 {
      assert (y + b)[1..] == b;
      assert (x + z)[1..] == z;
    } else {
      assert (y + b)[1..] == y[1..] + b;
      assert (x + z)[1..] == x[1..] + z;
      TrapzJoin(y[1..], x[1..], b, z);
    }
  }

  /** The first panel of the trapezoidal rule, then the rest. */
  lemma TrapzCons(y: seq<real>, x: seq<real>)
    requires |y| >= 2 && |x| >= 2
    ensures Trapz(y, x) == (x[1] - x[0]) * (y[0] + y[1]) / 2.0 + Trapz(y[1..], x[1..])
  {
  }

  /** A trapezoid swept backwards at the negated heights has the same area. */
  lemma SweptPanel(t0: real, t1: real, u0: real, u1: real)
    ensures (t0 - t1) * (-u1 + -u0) / 2.0 == (t1 - t0) * (u0 + u1) / 2.0
  {
    assert (t0 - t1) * (-u1 + -u0) == (t1 - t0) * (u0 + u1);
  }

  /** The backward sweep at -bound encloses the same signed area as the forward one. */
  lemma {:induction false} TrapzBackSweep(ub: seq<real>, t: seq<real>)
    requires |ub| == |t|
    ensures Trapz(Negate(Reverse(ub)), Reverse(t)) == Trapz(ub, t)
    decreases |t|
  {
    if |t| >= 2 {
      var ru, rt := Negate(Reverse(ub[1..])), Reverse(t[1..]);
      assert Reverse(t) == rt + [t[0]];
      assert Negate(Reverse(ub)) == ru + [-ub[0]];
      TrapzBackSweep(ub[1..], t[1..]);
      TrapzSnoc(ru, rt, -ub[0], t[0]);
      assert Last(rt) == t[1] && Last(ru) == -ub[1];
      SweptPanel(t[0], t[1], ub[0], ub[1]);
      TrapzCons(ub, t);
    } else if |t| == 1 {
      assert Reverse(t) == t;
    }
  }

  /** The emittance measured on a closed contour is the bucket-area formula
      applied to its upper half: tracing the separatrix gives back `area`. */
  lemma ClosedContourEmittance(t: seq<real>, ub: seq<real>)
    requires |t| == |ub|
    ensures BunchEmittance(ClosedContour(t, ub)) == BucketArea(ub, t)
  {
    if |t| > 0 {
      var rt, ru := Reverse(t), Negate(Reverse(ub));
      TrapzJoin(ub, t, ru, rt);
      TrapzBackSweep(ub, t);
      assert rt[0] == Last(t);
    }
  }

  /** The bunch length of a closed contour with ascending times is the
      distance between its first and last time sample. */
  lemma ClosedContourLength(t: seq<real>, ub: seq<real>)
    requires |t| > 0 && Ascending(t)
    ensures BunchLength(ClosedContour(t, ub)) == BucketLength(t)
  {
    var c := ClosedContour(t, ub).time;
    var n := |t|;
    forall k | 0 <= k < 2 * n ensures t[0] <= c[k] <= Last(t) {
      if k >= n { assert c[k] == Reverse(t)[k - n] == t[n - 1 - (k - n)]; }
    }
    assert c[0] == t[0] && c[n - 1] == Last(t);
    MaxIsUnique(c, Last(t));
    MinIsUnique(c, t[0]);
  }

  /** The lower bounds of a sequence determine its minimum. */
  lemma MinIsUnique(s: seq<real>, m: real)
    requires m in s && forall k :: 0 <= k < |s| ==> m <= s[k]
    ensures Min(s) == m
  {
  }
}
