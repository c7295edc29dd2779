/** Level crossings of a sampled potential well, `Bucket._interp_time_from_potential`:
    range checks on the requested potential, the first and last samples at
    or below it, the clamped interpolation windows around them, and the
    (external) linear interpolation that turns a window into a time. */
module Crossing {
  import opened Common

  /** Python's normalisation of a slice bound: a negative bound counts from
      the end, then the bound is clipped to [0, n]. */
  function SliceBound(i: int, n: nat): (r: nat)
    ensures r <= n
    ensures 0 <= i <= n ==> r == i
    ensures -(n as int) <= i < 0 ==> r as int == i + n
  {
    if i < 0 then (if i + n < 0 then 0 else i + n) else if i > n then n else i
  }

  /** `s[lo:hi]` with Python's slice semantics. */
  function PySlice<T>(s: seq<T>, lo: int, hi: int): (r: seq<T>)
    ensures 0 <= lo <= hi <= |s| ==> r == s[lo..hi]
  {
    var l, h := SliceBound(lo, |s|), SliceBound(hi, |s|);
    if l >= h then [] else s[l..h]
  }

  /** The ascending indices below n of samples at or below p:
      `np.where(well <= p)[0]` for n = |well|. */
  function Where(well: seq<real>, p: real, n: nat): (pts: seq<nat>)
    requires n <= |well|
    ensures Increasing(pts)
    ensures forall k :: 0 <= k < |pts| ==> pts[k] < n
    ensures forall x :: x in pts <==> 0 <= x < n && well[x] <= p
  {
    if n == 0 then []
    else
      var init := Where(well, p, n - 1);
      if well[n - 1] <= p then init + [n - 1] else init
  }

  /** The crossing indices: the first and last sample at or below the
      potential, and the window centres `leftPt`, `rightPt` after clamping. */
  datatype Window = Window(first: nat, last: nat, leftPt: int, rightPt: int)

  /** Range checks and clamped crossing indices (bucket.py:352-365). */
  function CrossingPoints(well: seq<real>, potential: real): (r: Result<Window>)
    ensures |well| == 0 ==> r == Err(ValueError)
    ensures |well| > 0 && (potential > Max(well) || potential < 0.0) ==> r == Err(InputError)
    ensures |well| > 0 && 0.0 <= potential <= Max(well) ==>
              (r == Err(IndexError) <==> forall k :: 0 <= k < |well| ==> well[k] > potential)
    ensures r.Ok? ==>
              && r.value.first <= r.value.last < |well|
              && well[r.value.first] <= potential && well[r.value.last] <= potential
              && (forall k :: 0 <= k < r.value.first ==> well[k] > potential)
              && (forall k :: r.value.last < k < |well| ==> well[k] > potential)
    ensures r.Ok? ==>
              && r.value.leftPt == (if r.value.first < 2 then 2 else r.value.first)
              && r.value.rightPt == (if r.value.last > |well| - 3 then |well| - 3 else r.value.last)
              && r.value.leftPt - 2 >= 0 && r.value.rightPt + 3 <= |well|
  {
    if |well| == 0 then Err(ValueError)
    else if potential > Max(well) then Err(InputError)
    else if potential < 0.0 then Err(InputError)
    else
      var pts := Where(well, potential, |well|);
      if pts == [] then
        assert forall k :: 0 <= k < |well| ==> well[k] > potential by {
          forall k | 0 <= k < |well| ensures well[k] > potential {
            assert well[k] <= potential ==> k in pts;
          }
        }
        Err(IndexError)
      else
        var leftPt: int := pts[0];
        var rightPt: int := Last(pts);
        assert forall k :: 0 <= k < leftPt ==> well[k] > potential by {
          forall k | 0 <= k < leftPt ensures well[k] > potential {
            assert well[k] <= potential ==> k in pts;
          }
        }
        assert forall k :: rightPt < k < |well| ==> well[k] > potential by {
          forall k | rightPt < k < |well| ensures well[k] > potential {
            assert well[k] <= potential ==> k in pts;
          }
        }
        assert pts[0] in pts && Last(pts) in pts;
        var l := if leftPt < 2 then leftPt - (leftPt - 2) else leftPt;
        var r := if rightPt > |well| - 3 then rightPt + (|well| - rightPt - 3) else rightPt;
        Ok(Window(pts[0], Last(pts), l, r))
  }

  /** `np.interp(x, xp, fp)`: the interpolation itself is outside this model. */
  type Interp = (real, seq<real>, seq<real>) -> real

  /** np.interp raises ValueError on an empty table or tables of unequal length. */
  function NpInterp(interp: Interp, x: real, xp: seq<real>, fp: seq<real>): (r: Result<real>)
    ensures r.Err? <==> |xp| == 0 || |xp| != |fp|
  {
    if |xp| == 0 || |xp| != |fp| then Err(ValueError) else Ok(interp(x, xp, fp))
  }

  /** `s[leftPt-2:leftPt+2][::-1]` */
  function LeftWindow(s: seq<real>, w: Window): seq<real>
  {
    Reverse(PySlice(s, w.leftPt - 2, w.leftPt + 2))
  }

  /** `s[rightPt-2:rightPt+3]` */
  function RightWindow(s: seq<real>, w: Window): seq<real>
  {
    PySlice(s, w.rightPt - 2, w.rightPt + 3)
  }

  /** `np.linspace(a, b, n)`. */
  function Linspace(a: real, b: real, n: nat): (r: seq<real>)
    ensures |r| == n
    ensures n >= 1 ==> r[0] == a
    ensures n >= 2 ==> r[n - 1] == b
  {
    if n == 0 then []
    else if n == 1 then [a]
    else seq(n, k requires 0 <= k < n =>
               if k == n - 1 then b else a + (k as real) * (b - a) / ((n - 1) as real))
  }

  /** The two crossing times, or nPts times evenly spaced between them. */
  datatype Crossed = Ends(lTime: real, rTime: real) | Sampled(times: seq<real>)

  /** `_interp_time_from_potential(potential, nPts)` over the bucket's time and well. */
  function InterpTimeFromPotential(time: seq<real>, well: seq<real>, potential: real,
                                   nPts: nat, interp: Interp): (r: Result<Crossed>)
    ensures CrossingPoints(well, potential).Err? ==> r == Err(CrossingPoints(well, potential).error)
    ensures r.Ok? ==> CrossingPoints(well, potential).Ok?
    ensures r.Ok? ==> (r.value.Ends? <==> nPts == 0)
    ensures r.Ok? && nPts > 0 ==> |r.value.times| == nPts
    ensures r.Err? && CrossingPoints(well, potential).Ok? ==> r == Err(ValueError)
  {
    match CrossingPoints(well, potential)
    case Err(e) => Err(e)
    case Ok(w) =>
      match NpInterp(interp, potential, LeftWindow(well, w), LeftWindow(time, w))
      case Err(e) => Err(e)
      case Ok(lTime) =>
        match NpInterp(interp, potential, RightWindow(well, w), RightWindow(time, w))
        case Err(e) => Err(e)
        case Ok(rTime) =>
          if nPts == 0 then Ok(Ends(lTime, rTime)) else Ok(Sampled(Linspace(lTime, rTime, nPts)))
  }

  /** On a well of at least five samples whose last crossing is not among its
      first two samples, both windows lie inside the arrays without wrapping:
      the left one holds three or four samples, the right one exactly five. */
  lemma WindowsInsideArrays(well: seq<real>, potential: real, w: Window)
    requires |well| >= 5 && CrossingPoints(well, potential) == Ok(w) && w.last >= 2
    ensures 2 <= w.leftPt <= |well| - 1 && 2 <= w.rightPt <= |well| - 3
    ensures RightWindow(well, w) == well[w.rightPt - 2 .. w.rightPt + 3]
    ensures |RightWindow(well, w)| == 5
    ensures LeftWindow(well, w) == Reverse(well[w.leftPt - 2 .. Smaller(w.leftPt + 2, |well|)])
    ensures 3 <= |LeftWindow(well, w)| <= 4
  {
    var n := |well|;
    assert w.first <= w.last < n;
    assert w.leftPt == (if w.first < 2 then 2 else w.first);
    assert w.rightPt == (if w.last > n - 3 then n - 3 else w.last);
    ClampedWindows(well, w);
  }

  /** The interpolation succeeds, with the two crossing times or nPts times
      between them, when time and well have the same length of at least
      five samples, the level lies in [0, max(well)], and some sample past
      the first two is at or below it. */
  lemma InterpSucceeds(time: seq<real>, well: seq<real>, potential: real, nPts: nat, interp: Interp)
    requires |well| >= 5 && |time| == |well|
    requires 0.0 <= potential <= Max(well)
    requires exists k :: 2 <= k < |well| && well[k] <= potential
    ensures CrossingPoints(well, potential).Ok? && CrossingPoints(well, potential).value.last >= 2
    ensures InterpTimeFromPotential(time, well, potential, nPts, interp).Ok?
  {
    LastCrossingPastTwo(well, potential);
    WindowsInterpolate(time, well, potential, nPts, interp);
  }

  /** A level in range with a sample past the first two at or below it has
      its last crossing there or later. */
  lemma LastCrossingPastTwo(well: seq<real>, potential: real)
    requires |well| >= 5 && 0.0 <= potential <= Max(well)
    requires exists k :: 2 <= k < |well| && well[k] <= potential
    ensures CrossingPoints(well, potential).Ok? && CrossingPoints(well, potential).value.last >= 2
  {
    var k :| 2 <= k < |well| && well[k] <= potential;
    var r := CrossingPoints(well, potential);
    assert r != Err(IndexError);
    assert r.value.last >= k;
  }

  /** Windows inside equally long arrays give np.interp equal, non-empty
      tables on both sides. */
  lemma WindowsInterpolate(time: seq<real>, well: seq<real>, potential: real, nPts: nat, interp: Interp)
    requires |well| >= 5 && |time| == |well|
    requires CrossingPoints(well, potential).Ok? && CrossingPoints(well, potential).value.last >= 2
    ensures InterpTimeFromPotential(time, well, potential, nPts, interp).Ok?
  {
    var w := CrossingPoints(well, potential).value;
    WindowsInsideArrays(well, potential, w);
    ClampedWindows(time, w);
  }

  /** The windows of clamped crossing indices, knowing only the clamp. */
  lemma ClampedWindows(well: seq<real>, w: Window)
    requires |well| >= 5 && 2 <= w.last < |well| && w.first <= w.last
    requires w.leftPt == (if w.first < 2 then 2 else w.first)
    requires w.rightPt == (if w.last > |well| - 3 then |well| - 3 else w.last)
    ensures 2 <= w.leftPt <= |well| - 1 && 2 <= w.rightPt <= |well| - 3
    ensures RightWindow(well, w) == well[w.rightPt - 2 .. w.rightPt + 3]
    ensures |RightWindow(well, w)| == 5
    ensures LeftWindow(well, w) == Reverse(well[w.leftPt - 2 .. Smaller(w.leftPt + 2, |well|)])
    ensures 3 <= |LeftWindow(well, w)| <= 4
  {
    var n := |well|;
    var hi := Smaller(w.leftPt + 2, n);
    assert SliceBound(w.leftPt - 2, n) == w.leftPt - 2;
    assert SliceBound(w.leftPt + 2, n) == hi;
    assert PySlice(well, w.leftPt - 2, w.leftPt + 2) == well[w.leftPt - 2 .. hi];
  }

  function Smaller(a: int, b: int): int
  {
    if a <= b then a else b
  }

  /** When the only samples at or below the level are the first two (the
      well's minimum sits at its left edge), `rightPt - 2` is -1: Python
      reads that slice bound from the end of the array, the right window
      comes out empty and np.interp raises ValueError, although the level
      lies within the well's range. */
  lemma RightWindowWraps(time: seq<real>, well: seq<real>, potential: real, interp: Interp)
    requires |well| >= 5 && |time| == |well| && potential >= 0.0
    requires well[0] <= potential && well[1] <= potential
    requires forall k :: 2 <= k < |well| ==> well[k] > potential
    ensures CrossingPoints(well, potential) == Ok(Window(0, 1, 2, 1))
    ensures RightWindow(well, Window(0, 1, 2, 1)) == []
    ensures InterpTimeFromPotential(time, well, potential, 0, interp) == Err(ValueError)
  {
    var n := |well|;
    assert well[2] <= Max(well);
    var r := CrossingPoints(well, potential);
    assert r.Ok? by {
      assert r != Err(IndexError);
    }
    var w := r.value;
    assert w.first == 0;
    assert w.last == 1;
    var v := Window(0, 1, 2, 1);
    assert SliceBound(-1, n) == n - 1 && SliceBound(4, n) == 4;
    assert RightWindow(well, v) == [];
    assert PySlice(well, 0, 4) == well[0..4] && PySlice(time, 0, 4) == time[0..4];
  }
}
