/** The bookkeeping of `Beam_Parameters` (interfaces/beam/beam_parameters.py):
    constructor validation and defaults, the time bounds of a potential
    well, the nearest-minimum rule that tracks each synchronous particle
    from sample to sample, the dictionary of buckets keyed by
    (sample, particle), and the over-fill policy for requested emittances.
    The potential wells themselves, the ring and RF lookups and the cubic
    minimum finder are not part of this model: their outputs are inputs. */
module BeamParams {
  import opened Common
  import opened Crossing
  import opened BucketModel

  // ----- construction -----

  /** The `init_coord` argument: absent, a single number, or an iterable. */
  datatype InitCoord = DefaultCoord | Scalar(x: real) | Coords(xs: seq<real>)

  /** The validated settings `__init__` stores. */
  datatype Config = Config(useSamples: seq<nat>, initCoord: seq<real>,
                           harmonicDivide: int, potentialResolution: nat)

  /** Python's `int()` of a float: truncation toward zero. */
  function Trunc(x: real): (r: int)
    ensures x >= 0.0 ==> 0 <= r && r as real <= x < r as real + 1.0
    ensures x < 0.0 ==> r <= 0 && r as real - 1.0 < x <= r as real
  {
    if x >= 0.0 then x.Floor else -((-x).Floor)
  }

  /** `list(range(n))`. */
  function Range(n: nat): (r: seq<nat>)
    ensures |r| == n && forall k :: 0 <= k < n ==> r[k] == k
  {
    seq(n, k requires 0 <= k < n => k)
  }

  predicate Integral(x: real)
  {
    x == x.Floor as real
  }

  /** The argument handling of `__init__` (beam_parameters.py:24-52) for a
      ring with nTurns used turns and first revolution period tRev0. */
  function Configure(nTurns: nat, tRev0: real, useSamples: Option<seq<nat>>,
                     init: InitCoord, hd: real, potRes: real): (r: Result<Config>)
  {
    var samples := if useSamples.Some? then useSamples.value else Range(nTurns);
    if init.DefaultCoord? && hd == 0.0 then Err(ZeroDivisionError)
    else
      var coords := match init
                    case DefaultCoord => [0.5 * tRev0 / hd]
                    case Scalar(x) => [x]
                    case Coords(xs) => xs;
      if !Integral(hd) then Err(InputError)
      else if Trunc(potRes) < 0 then Err(ValueError)
      else Ok(Config(samples, coords, hd.Floor, Trunc(potRes) as nat))
  }

  /** What `__init__` accepts and what it stores: a non-integral harmonic
      divisor is refused, the potential resolution is never checked for
      integrality (its check re-tests the divisor) but truncated, and only
      a negative truncated resolution fails, in `np.zeros`. */
  lemma ConfigureOutcome(nTurns: nat, tRev0: real, useSamples: Option<seq<nat>>,
                         init: InitCoord, hd: real, potRes: real)
    ensures var r := Configure(nTurns, tRev0, useSamples, init, hd, potRes);
            && (r == Err(ZeroDivisionError) <==> init.DefaultCoord? && hd == 0.0)
            && (r == Err(InputError) <==> !(init.DefaultCoord? && hd == 0.0) && !Integral(hd))
            && (r == Err(ValueError) <==>
                  !(init.DefaultCoord? && hd == 0.0) && Integral(hd) && potRes <= -1.0)
            && (r.Ok? <==> !(init.DefaultCoord? && hd == 0.0) && Integral(hd) && potRes > -1.0)
    ensures var r := Configure(nTurns, tRev0, useSamples, init, hd, potRes);
            r.Ok? ==>
              && r.value.harmonicDivide as real == hd
              && Abs(potRes - r.value.potentialResolution as real) < 1.0
              && (r.value.potentialResolution == 0 || r.value.potentialResolution as real <= potRes)
              && (useSamples.None? ==> r.value.useSamples == Range(nTurns))
              && (useSamples.Some? ==> r.value.useSamples == useSamples.value)
              && (init.DefaultCoord? ==> r.value.initCoord == [0.5 * tRev0 / hd])
              && (init.Scalar? ==> r.value.initCoord == [init.x])
              && (init.Coords? ==> r.value.initCoord == init.xs)
  {
  }

  /** A fractional resolution is accepted and rounded down. */
  lemma FractionalResolutionTruncated(nTurns: nat, tRev0: real, init: InitCoord, hd: real, potRes: real)
    requires Integral(hd) && hd != 0.0 && potRes >= 0.0
    ensures Configure(nTurns, tRev0, None, init, hd, potRes).Ok?
    ensures Configure(nTurns, tRev0, None, init, hd, potRes).value.potentialResolution == potRes.Floor
  {
  }

  /** `_time_bounds(t_rev)` (beam_parameters.py:237-243): the time window of
      one well, from a tenth of a well before zero to a tenth after. */
  function TimeBounds(tRev: real, hd: int): (r: Result<(real, real)>)
    ensures r.Err? <==> hd == 0
  {
    if hd == 0 then Err(ZeroDivisionError)
    else
      var right := tRev / hd as real;
      Ok((-0.1 * right, right * 1.1))
  }

  /** For a positive period and divisor the window straddles zero and is
      1.2 wells wide, with the left margin a tenth of a well. */
  lemma TimeBoundsSpan(tRev: real, hd: int)
    requires tRev > 0.0 && hd > 0
    ensures TimeBounds(tRev, hd).Ok?
    ensures TimeBounds(tRev, hd).value.0 < 0.0 < TimeBounds(tRev, hd).value.1
    ensures TimeBounds(tRev, hd).value.1 - TimeBounds(tRev, hd).value.0 == 1.2 * tRev / hd as real
    ensures TimeBounds(tRev, hd).value.0 == -0.1 * tRev / hd as real
  {
    var w := tRev / hd as real;
    assert w > 0.0;
    assert w * 1.1 - (-0.1 * w) == 1.2 * w;
    assert 1.2 * w == 1.2 * tRev / hd as real;
  }

  // ----- the nearest-minimum rule -----

  /** `np.abs(prev - locs)`. */
  function Offsets(prev: real, locs: seq<real>): (r: seq<real>)
    ensures |r| == |locs| && forall k :: 0 <= k < |locs| ==> r[k] == Abs(prev - locs[k])
  {
    seq(|locs|, k requires 0 <= k < |locs| => Abs(prev - locs[k]))
  }

  /** The first index where o takes its minimum is the first index of
      `np.where(o == np.min(o))`, and every earlier sample is larger. */
  lemma FirstMinimum(o: seq<real>)
    requires |o| > 0
    ensures Where(o, Min(o), |o|) != []
    ensures var k := Where(o, Min(o), |o|)[0];
            k < |o| && o[k] == Min(o) && forall j :: 0 <= j < k ==> o[j] > Min(o)
  {
    var m := Min(o);
    var pts := Where(o, m, |o|);
    var k :| 0 <= k < |o| && o[k] == m;
    assert k in pts;
    assert pts[0] in pts;
    forall j | 0 <= j < pts[0] ensures o[j] > m {
      NoneBeforeHead(pts, j);
    }
  }

  /** The first of the first n locations closest to prev, found by a scan
      that keeps the earlier index on a tie. */
  function FirstClosest(prev: real, locs: seq<real>, n: nat): (k: nat)
    requires 0 < n <= |locs|
    ensures k < n
  {
    if n == 1 then 0
    else
      var k := FirstClosest(prev, locs, n - 1);
      if Abs(prev - locs[n - 1]) < Abs(prev - locs[k]) then n - 1 else k
  }

  /** No location among the first n is closer than the scan's pick, and
      none before it is as close. */
  lemma {:induction false} FirstClosestIsClosest(prev: real, locs: seq<real>, n: nat)
    requires 0 < n <= |locs|
    ensures forall j :: 0 <= j < n ==>
              Abs(prev - locs[FirstClosest(prev, locs, n)]) <= Abs(prev - locs[j])
    ensures forall j :: 0 <= j < FirstClosest(prev, locs, n) ==>
              Abs(prev - locs[FirstClosest(prev, locs, n)]) < Abs(prev - locs[j])
  {
    if n > 1 {
      FirstClosestIsClosest(prev, locs, n - 1);
    }
  }

  /** The index `np.where(offsets == np.min(offsets))[0][0]` picks: the
      first index of a closest location; np.min of no locations raises
      ValueError. */
  function NearestIndex(prev: real, locs: seq<real>): (r: Result<nat>)
    ensures r.Err? <==> |locs| == 0
    ensures r.Err? ==> r.error == ValueError
    ensures r.Ok? ==> r.value < |locs|
  {
    if |locs| == 0 then Err(ValueError) else Ok(FirstClosest(prev, locs, |locs|))
  }

  /** The index is that of a closest location, and of the first one. */
  lemma NearestIndexIsClosest(prev: real, locs: seq<real>)
    requires |locs| > 0
    ensures forall j :: 0 <= j < |locs| ==>
              Abs(prev - locs[NearestIndex(prev, locs).value]) <= Abs(prev - locs[j])
    ensures forall j :: 0 <= j < NearestIndex(prev, locs).value ==>
              Abs(prev - locs[NearestIndex(prev, locs).value]) < Abs(prev - locs[j])
  {
    FirstClosestIsClosest(prev, locs, |locs|);
  }

  /** The scan picks the very index of the source's formula, the first
      index of the offsets equal to their minimum. */
  lemma NearestIndexIsWhere(prev: real, locs: seq<real>)
    requires |locs| > 0
    ensures Where(Offsets(prev, locs), Min(Offsets(prev, locs)), |locs|) != []
    ensures NearestIndex(prev, locs)
            == Ok(Where(Offsets(prev, locs), Min(Offsets(prev, locs)), |locs|)[0])
  {
    var o := Offsets(prev, locs);
    FirstMinimum(o);
    NearestIndexIsClosest(prev, locs);
    var k0 := Where(o, Min(o), |o|)[0];
    var k := NearestIndex(prev, locs).value;
    assert o[k] <= Min(o) by {
      var m :| 0 <= m < |o| && o[m] == Min(o);
      assert o[k] <= o[m];
    }
  }

  /** The location a particle at prev moves to. */
  function Nearest(prev: real, locs: seq<real>): (r: Result<real>)
    ensures r.Err? <==> |locs| == 0
    ensures r.Err? ==> r.error == ValueError
    ensures r.Ok? ==> r.value in locs
  {
    match NearestIndex(prev, locs)
    case Err(e) => Err(e)
    case Ok(k) => Ok(locs[k])
  }

  /** No minimum is strictly closer to prev than the one it moves to. */
  lemma NearestIsClosest(prev: real, locs: seq<real>)
    requires |locs| > 0
    ensures forall x :: x in locs ==> Abs(prev - Nearest(prev, locs).value) <= Abs(prev - x)
  {
    NearestIndexIsClosest(prev, locs);
  }

  /** A particle already on a minimum stays there. */
  lemma NearestKeepsMinimum(prev: real, locs: seq<real>)
    requires prev in locs
    ensures Nearest(prev, locs) == Ok(prev)
  {
    var r := Nearest(prev, locs);
    NearestIsClosest(prev, locs);
    assert Abs(prev - r.value) <= Abs(prev - prev);
  }

  /** `np.where(time_window_array[0] <= coord)[0][-1]`: the last sample of
      the first window at or before coord; IndexError when there is none. */
  function StartPoint(window0: seq<real>, coord: real): (r: Result<nat>)
    ensures r.Ok? ==> r.value < |window0|
  {
    var pts := Where(window0, coord, |window0|);
    if pts == [] then Err(IndexError) else Ok(Last(pts))
  }

  /** The start point is the last sample at or before the coordinate, and
      there is none exactly when every sample lies after it. */
  lemma StartPointMeaning(window0: seq<real>, coord: real)
    ensures StartPoint(window0, coord).Err? <==> forall k :: 0 <= k < |window0| ==> window0[k] > coord
    ensures StartPoint(window0, coord).Err? ==> StartPoint(window0, coord).error == IndexError
    ensures StartPoint(window0, coord).Ok? ==> window0[StartPoint(window0, coord).value] <= coord
    ensures StartPoint(window0, coord).Ok? ==>
              forall k :: StartPoint(window0, coord).value < k < |window0| ==> window0[k] > coord
  {
    var pts := Where(window0, coord, |window0|);
    if pts == [] {
      forall k | 0 <= k < |window0| ensures window0[k] > coord {
        assert window0[k] <= coord ==> k in pts;
      }
    } else {
      var last := Last(pts);
      assert last in pts;
      forall k | last < k < |window0| ensures window0[k] > coord {
        assert forall i :: 0 <= i < |pts| ==> pts[i] <= last;
        assert k !in pts;
      }
    }
  }

  /** Where a particle starting at coord is placed at the first sample:
      the start point, then the minimum of the first well nearest to it. */
  function InitialPosition(window0: seq<real>, minima0: seq<real>, coord: real): (r: Result<real>)
    ensures StartPoint(window0, coord).Err? ==> r == Err(StartPoint(window0, coord).error)
    ensures StartPoint(window0, coord).Ok? && |minima0| == 0 ==> r == Err(ValueError)
    ensures r.Ok? ==> r.value in minima0
  {
    match StartPoint(window0, coord)
    case Err(e) => Err(e)
    case Ok(sp) => Nearest(window0[sp], minima0)
  }

  /** Where each particle is placed, or why it cannot be. */
  function Placements(window0: seq<real>, minima0: seq<real>, coords: seq<real>): (r: seq<Result<real>>)
    ensures |r| == |coords|
    ensures forall p :: 0 <= p < |coords| ==> r[p] == InitialPosition(window0, minima0, coords[p])
  {
    seq(|coords|, p requires 0 <= p < |coords| => InitialPosition(window0, minima0, coords[p]))
  }

  /** The first error among rs from index p on. */
  function FirstError<T>(rs: seq<Result<T>>, p: nat): (r: Option<Error>)
    ensures r.None? <==> forall q :: p <= q < |rs| ==> rs[q].Ok?
    ensures r.Some? ==> exists q :: p <= q < |rs| && rs[q] == Err(r.value)
    decreases |rs| - p
  {
    if p >= |rs| then None
    else if rs[p].Err? then Some(rs[p].error)
    else FirstError(rs, p + 1)
  }

  /** The first error is that of the first failing entry. */
  lemma {:induction false} FirstErrorAt<T>(rs: seq<Result<T>>, from: nat, p: nat)
    requires from <= p < |rs| && rs[p].Err?
    requires forall q :: from <= q < p ==> rs[q].Ok?
    ensures FirstError(rs, from) == Some(rs[p].error)
    decreases p - from
  {
    if from < p {
      FirstErrorAt(rs, from + 1, p);
    }
  }

  /** The error `track_synchronous` raises, if any (beam_parameters.py:109-163):
      none without particles; IndexError without samples; else the first
      placement error; else ValueError when some later sample has no minimum. */
  function TrackOutcome(windows: seq<seq<real>>, minima: seq<seq<real>>,
                        coords: seq<real>, start: nat): Option<Error>
    requires |windows| == |minima|
  {
    if |coords| == 0 then None
    else if |windows| == 0 then Some(IndexError)
    else if FirstError(Placements(windows[0], minima[0], coords), 0).Some? then
      FirstError(Placements(windows[0], minima[0], coords), 0)
    else if exists t :: start < t < |minima| && minima[t] == [] then Some(ValueError)
    else None
  }

  /** The cells of the tracks array `track_synchronous` writes: the first
      sample of every particle, and every sample after the start sample. */
  predicate Written(p: int, t: int, nParticles: nat, start: nat, nSamples: nat)
  {
    0 <= p < nParticles && (t == 0 || start < t < nSamples)
  }

  // ----- the bucket dictionary -----

  /** A `buckets` key: (sample, particle). */
  type Key = (nat, nat)

  /** A Python dict as its keys in insertion order and its mapping. */
  ghost predicate Shape(keys: seq<Key>, m: map<Key, Bucket>)
  {
    Distinct(keys) && forall k :: k in m <==> k in keys
  }

  /** `d[k] = v`: a new key goes to the end of the order, a present key
      keeps its place, and only k's bucket changes. */
  function Insert(keys: seq<Key>, m: map<Key, Bucket>, k: Key, v: Bucket): (r: (seq<Key>, map<Key, Bucket>))
    ensures r.1 == m[k := v]
    ensures |keys| <= |r.0| <= |keys| + 1 && r.0[..|keys|] == keys
  {
    if k in m then (keys, m[k := v]) else (keys + [k], m[k := v])
  }

  /** Insertion keeps the dict's shape. */
  lemma InsertShape(keys: seq<Key>, m: map<Key, Bucket>, k: Key, v: Bucket)
    requires Shape(keys, m)
    ensures Shape(Insert(keys, m, k, v).0, Insert(keys, m, k, v).1)
  {
  }

  /** The dict after inserting the entries es in order. */
  function InsertAll(keys: seq<Key>, m: map<Key, Bucket>, es: seq<(Key, Bucket)>): (seq<Key>, map<Key, Bucket>)
  {
    if es == [] then (keys, m)
    else
      var prev := InsertAll(keys, m, es[..|es| - 1]);
      Insert(prev.0, prev.1, Last(es).0, Last(es).1)
  }

  /** Inserting one more entry is one more `d[k] = v`. */
  lemma InsertAllSnoc(keys: seq<Key>, m: map<Key, Bucket>, es: seq<(Key, Bucket)>, e: (Key, Bucket))
    ensures InsertAll(keys, m, es + [e])
            == Insert(InsertAll(keys, m, es).0, InsertAll(keys, m, es).1, e.0, e.1)
  {
    assert (es + [e])[..|es|] == es;
  }

  /** Inserting a + b is inserting a, then b. */
  lemma {:induction false} InsertAllAppend(keys: seq<Key>, m: map<Key, Bucket>, a: seq<(Key, Bucket)>, b: seq<(Key, Bucket)>)
    ensures InsertAll(keys, m, a + b) == InsertAll(InsertAll(keys, m, a).0, InsertAll(keys, m, a).1, b)
    decreases |b|
  {
    if b == [] {
      assert a + b == a;
    } else {
      var b' := b[..|b| - 1];
      assert (a + b)[..|a + b| - 1] == a + b';
      InsertAllAppend(keys, m, a, b');
    }
  }

  /** Every listed key stays mapped through a sequence of insertions. */
  lemma {:induction false} InsertAllCovers(keys: seq<Key>, m: map<Key, Bucket>, es: seq<(Key, Bucket)>)
    requires forall k :: k in keys ==> k in m
    ensures forall k :: k in InsertAll(keys, m, es).0 ==> k in InsertAll(keys, m, es).1
  {
    if es != [] {
      InsertAllCovers(keys, m, es[..|es| - 1]);
    }
  }

  lemma {:induction false} InsertAllShape(keys: seq<Key>, m: map<Key, Bucket>, es: seq<(Key, Bucket)>)
    requires Shape(keys, m)
    ensures Shape(InsertAll(keys, m, es).0, InsertAll(keys, m, es).1)
  {
    if es != [] {
      InsertAllShape(keys, m, es[..|es| - 1]);
      var prev := InsertAll(keys, m, es[..|es| - 1]);
      InsertShape(prev.0, prev.1, Last(es).0, Last(es).1);
    }
  }

  /** The entries `calc_buckets` inserts for one sample s: its first n buckets. */
  function Row(sb: seq<seq<Bucket>>, s: nat, n: nat): (r: seq<(Key, Bucket)>)
    requires s < |sb| && n <= |sb[s]|
    ensures |r| == n && forall p :: 0 <= p < n ==> r[p] == ((s, p), sb[s][p])
  {
    if n == 0 then [] else Row(sb, s, n - 1) + [((s, n - 1), sb[s][n - 1])]
  }

  predicate RowsHold(sb: seq<seq<Bucket>>, nP: nat)
  {
    forall s :: 0 <= s < |sb| ==> nP <= |sb[s]|
  }

  /** The buckets of one particle over the first n samples, in sample order. */
  function Column(sb: seq<seq<Bucket>>, n: nat, particle: nat): (r: seq<Bucket>)
    requires n <= |sb| && forall s :: 0 <= s < n ==> particle < |sb[s]|
    ensures |r| == n && forall s :: 0 <= s < n ==> r[s] == sb[s][particle]
  {
    if n == 0 then [] else Column(sb, n - 1, particle) + [sb[n - 1][particle]]
  }

  /** All entries `calc_buckets` inserts for the first n samples, sample by
      sample and particle by particle. */
  function Entries(sb: seq<seq<Bucket>>, nP: nat, n: nat): seq<(Key, Bucket)>
    requires n <= |sb| && RowsHold(sb, nP)
  {
    if n == 0 then [] else Entries(sb, nP, n - 1) + Row(sb, n - 1, nP)
  }

  predicate DistinctKeys(es: seq<(Key, Bucket)>)
  {
    forall i, j :: 0 <= i < j < |es| ==> es[i].0 != es[j].0
  }

  function KeysOf(es: seq<(Key, Bucket)>): (r: seq<Key>)
    ensures |r| == |es| && forall i :: 0 <= i < |es| ==> r[i] == es[i].0
  {
    seq(|es|, i requires 0 <= i < |es| => es[i].0)
  }

  /** The grid of entries has one entry per (sample, particle) below
      (n, nP), each holding that sample's bucket for that particle. */
  lemma EntriesGrid(sb: seq<seq<Bucket>>, nP: nat, n: nat)
    requires n <= |sb| && RowsHold(sb, nP)
    ensures DistinctKeys(Entries(sb, nP, n))
    ensures forall i :: 0 <= i < |Entries(sb, nP, n)| ==>
              var e := Entries(sb, nP, n)[i];
              e.0.0 < n && e.0.1 < nP && e.1 == sb[e.0.0][e.0.1]
  {
    EntriesInGrid(sb, nP, n);
    EntriesDistinct(sb, nP, n);
  }

  lemma {:induction false} EntriesInGrid(sb: seq<seq<Bucket>>, nP: nat, n: nat)
    requires n <= |sb| && RowsHold(sb, nP)
    ensures forall i :: 0 <= i < |Entries(sb, nP, n)| ==>
              var e := Entries(sb, nP, n)[i];
              e.0.0 < n && e.0.1 < nP && e.1 == sb[e.0.0][e.0.1]
  {
    if n > 0 {
      EntriesInGrid(sb, nP, n - 1);
      var prev, row := Entries(sb, nP, n - 1), Row(sb, n - 1, nP);
      var es := Entries(sb, nP, n);
      assert es == prev + row;
      forall i | 0 <= i < |es|
        ensures es[i].0.0 < n && es[i].0.1 < nP && es[i].1 == sb[es[i].0.0][es[i].0.1]
      {
        if i < |prev| {
          assert es[i] == prev[i];
        } else {
          assert es[i] == row[i - |prev|];
        }
      }
    }
  }

  lemma {:induction false} EntriesDistinct(sb: seq<seq<Bucket>>, nP: nat, n: nat)
    requires n <= |sb| && RowsHold(sb, nP)
    ensures DistinctKeys(Entries(sb, nP, n))
  {
    if n > 0 {
      EntriesDistinct(sb, nP, n - 1);
      EntriesInGrid(sb, nP, n - 1);
      var prev, row := Entries(sb, nP, n - 1), Row(sb, n - 1, nP);
      var es := Entries(sb, nP, n);
      assert es == prev + row;
      forall i, j | 0 <= i < j < |es| ensures es[i].0 != es[j].0 {
        if j >= |prev| && i < |prev| {
          assert es[i] == prev[i] && es[j] == row[j - |prev|];
          assert prev[i].0.0 < n - 1;
        } else if i >= |prev| {
          assert es[i] == row[i - |prev|] && es[j] == row[j - |prev|];
        } else {
          assert es[i] == prev[i] && es[j] == prev[j];
        }
      }
    }
  }

  lemma {:induction false} EntryAt(sb: seq<seq<Bucket>>, nP: nat, n: nat, s: nat, p: nat)
    requires n <= |sb| && RowsHold(sb, nP) && s < n && p < nP
    ensures exists i :: 0 <= i < |Entries(sb, nP, n)| && Entries(sb, nP, n)[i].0 == (s, p)
  {
    var prev, row := Entries(sb, nP, n - 1), Row(sb, n - 1, nP);
    var es := Entries(sb, nP, n);
    assert es == prev + row;
    if s < n - 1 {
      EntryAt(sb, nP, n - 1, s, p);
      var i :| 0 <= i < |prev| && prev[i].0 == (s, p);
      assert es[i] == prev[i];
    } else {
      assert es[|prev| + p] == row[p];
    }
  }

  /** Inserting entries with distinct keys leaves each entry's bucket at its key. */
  lemma {:induction false} InsertAllStores(keys: seq<Key>, m: map<Key, Bucket>, es: seq<(Key, Bucket)>)
    requires DistinctKeys(es)
    ensures forall i :: 0 <= i < |es| ==>
              es[i].0 in InsertAll(keys, m, es).1 && InsertAll(keys, m, es).1[es[i].0] == es[i].1
  {
    if es != [] {
      var init := es[..|es| - 1];
      assert DistinctKeys(init);
      InsertAllStores(keys, m, init);
      forall i | 0 <= i < |es| - 1 ensures es[i].0 != Last(es).0 && es[i] == init[i] {
      }
    }
  }

  /** Into an empty dict, entries with distinct keys land in their own order. */
  lemma {:induction false} InsertAllOrder(es: seq<(Key, Bucket)>)
    requires DistinctKeys(es)
    ensures InsertAll([], map[], es).0 == KeysOf(es)
  {
    if es != [] {
      var init := es[..|es| - 1];
      assert DistinctKeys(init);
      InsertAllOrder(init);
      var prev := InsertAll([], map[], init);
      InsertAllShape([], map[], init);
      assert Last(es).0 !in prev.1 by {
        forall i | 0 <= i < |init| ensures prev.0[i] != Last(es).0 {
          assert init[i] == es[i];
        }
      }
      assert KeysOf(es) == KeysOf(init) + [Last(es).0];
    }
  }

  /** `buckets_by_particle(particle)` (beam_parameters.py:436-437): the
      buckets whose key names the particle, in key order. */
  function BucketsByParticle(keys: seq<Key>, m: map<Key, Bucket>, particle: nat): (r: seq<Bucket>)
    requires forall k :: k in keys ==> k in m
    ensures |r| <= |keys|
    ensures forall b :: b in r ==> exists k :: k in keys && k.1 == particle && m[k] == b
  {
    if keys == [] then []
    else
      var init := keys[..|keys| - 1];
      assert forall k :: k in init ==> k in keys;
      BucketsByParticle(init, m, particle)
        + (if Last(keys).1 == particle then [m[Last(keys)]] else [])
  }

  /** The filter distributes over concatenated key lists. */
  lemma {:induction false} ByParticleAppend(a: seq<Key>, b: seq<Key>, m: map<Key, Bucket>, particle: nat)
    requires forall k :: k in a + b ==> k in m
    ensures forall k :: k in a ==> k in m
    ensures forall k :: k in b ==> k in m
    ensures BucketsByParticle(a + b, m, particle)
            == BucketsByParticle(a, m, particle) + BucketsByParticle(b, m, particle)
  {
    assert forall k :: k in a ==> k in a + b;
    assert forall k :: k in b ==> k in a + b;
    if b == [] {
      assert a + b == a;
    } else {
      var init := b[..|b| - 1];
      assert (a + b)[..|a + b| - 1] == a + init;
      assert Last(a + b) == Last(b);
      assert forall k :: k in a + init ==> k in a + b;
      ByParticleAppend(a, init, m, particle);
    }
  }

  /** Of one sample's keys only the particle's own is kept. */
  lemma {:induction false} ByParticleRow(sb: seq<seq<Bucket>>, s: nat, n: nat, m: map<Key, Bucket>, particle: nat)
    requires s < |sb| && n <= |sb[s]|
    requires forall k :: k in KeysOf(Row(sb, s, n)) ==> k in m
    ensures BucketsByParticle(KeysOf(Row(sb, s, n)), m, particle)
            == if particle < n then [m[(s, particle)]] else []
  {
    if n > 0 {
      var ks := KeysOf(Row(sb, s, n));
      assert ks[..|ks| - 1] == KeysOf(Row(sb, s, n - 1));
      assert forall k :: k in KeysOf(Row(sb, s, n - 1)) ==> k in ks;
      ByParticleRow(sb, s, n - 1, m, particle);
    }
  }

  /** The keys of the grid, filtered by particle, are that particle's
      buckets sample by sample. */
  lemma {:induction false} ByParticleGrid(sb: seq<seq<Bucket>>, nP: nat, n: nat,
                                          m: map<Key, Bucket>, particle: nat)
    requires n <= |sb| && RowsHold(sb, nP) && particle < nP
    requires forall k :: k in KeysOf(Entries(sb, nP, n)) ==> k in m
    requires forall s, p :: 0 <= s < n && 0 <= p < nP ==> (s, p) in m && m[(s, p)] == sb[s][p]
    ensures BucketsByParticle(KeysOf(Entries(sb, nP, n)), m, particle)
            == Column(sb, n, particle)
  {
    if n > 0 {
      var prev, row := Entries(sb, nP, n - 1), Row(sb, n - 1, nP);
      var pk, rk := KeysOf(prev), KeysOf(row);
      assert KeysOf(Entries(sb, nP, n)) == pk + rk by {
        assert Entries(sb, nP, n) == prev + row;
        assert KeysOf(prev + row) == pk + rk;
      }
      assert forall k :: k in pk ==> k in pk + rk;
      assert forall k :: k in rk ==> k in pk + rk;
      ByParticleAppend(pk, rk, m, particle);
      ByParticleGrid(sb, nP, n - 1, m, particle);
      ByParticleRow(sb, n - 1, nP, m, particle);
      assert BucketsByParticle(rk, m, particle) == [sb[n - 1][particle]];
    }
  }

  // ----- the state of Beam_Parameters -----

  /** The fields `Beam_Parameters` keeps between its steps: the validated
      settings, the synchronous particle tracks (one row per particle, one
      column per sample) and the buckets keyed by (sample, particle), with
      their keys in insertion order as a Python dict keeps them. */
  class BeamParameters {
    const useSamples: seq<nat>
    const nSamples: nat
    const initCoord: seq<real>
    const harmonicDivide: int
    const potentialResolution: nat
    var nParticles: nat
    var tracks: array2<real>
    var keys: seq<(nat, nat)>
    var buckets: map<(nat, nat), Bucket>

    /** The settings of a validated configuration, before any tracking. */
    constructor (c: Config)
      ensures useSamples == c.useSamples && nSamples == |c.useSamples| && initCoord == c.initCoord
      ensures harmonicDivide == c.harmonicDivide && potentialResolution == c.potentialResolution
      ensures nParticles == 0 && tracks.Length0 == 0 && tracks.Length1 == 0
      ensures keys == [] && buckets == map[]
    {
      useSamples, nSamples, initCoord := c.useSamples, |c.useSamples|, c.initCoord;
      harmonicDivide, potentialResolution := c.harmonicDivide, c.potentialResolution;
      nParticles := 0;
      tracks := new real[0, 0];
      keys, buckets := [], map[];
    }

    /** `track_synchronous(start_sample)` (beam_parameters.py:109-163) over
        the time windows of the samples and the minimum locations the cubic
        finder reports for each: a fresh zero array when starting from the
        first sample, every particle placed at the minimum nearest its start
        point, then moved sample by sample to the minimum nearest where it
        was; only those cells are written. */
    method TrackSynchronous(startSample: nat, windows: seq<seq<real>>, minima: seq<seq<real>>)
      returns (err: Option<Error>)
      requires |windows| == nSamples && |minima| == nSamples
      requires startSample > 0 ==> tracks.Length0 >= |initCoord| && tracks.Length1 >= nSamples
      modifies this`tracks, this`nParticles, tracks
      ensures err == TrackOutcome(windows, minima, initCoord, startSample)
      ensures nParticles == |initCoord|
      ensures tracks.Length0 >= |initCoord| && tracks.Length1 >= nSamples
      ensures startSample == 0 ==> fresh(tracks) && tracks.Length0 == |initCoord| && tracks.Length1 == nSamples
      ensures startSample > 0 ==> tracks == old(tracks)
      ensures forall p, t :: 0 <= p < tracks.Length0 && 0 <= t < tracks.Length1 && !Written(p, t, |initCoord|, startSample, nSamples) ==>
                tracks[p, t] == (if startSample == 0 then 0.0 else old(tracks[p, t]))
      ensures err.None? && |initCoord| > 0 ==> nSamples > 0
      ensures err.None? && nSamples > 0 ==>
                forall p :: 0 <= p < |initCoord| ==>
                  InitialPosition(windows[0], minima[0], initCoord[p]) == Ok(tracks[p, 0])
      ensures err.None? ==>
                forall p, t :: 0 <= p < |initCoord| && startSample < t < nSamples ==>
                  Nearest(tracks[p, t - 1], minima[t]) == Ok(tracks[p, t])
    {
      if startSample == 0 {
        tracks := new real[|initCoord|, nSamples]((p, t) => 0.0);
      }
      nParticles := |initCoord|;
      if nParticles == 0 {
        return None;
      }
      if nSamples == 0 {
        return Some(IndexError);
      }
      err := PlaceParticles(Placements(windows[0], minima[0], initCoord));
      if err.Some? {
        return;
      }
      err := FollowMinima(startSample, minima);
    }

    /** The first loop of `track_synchronous`: each particle's first sample
        is its placement, until the first placement that fails. */
    method PlaceParticles(placements: seq<Result<real>>) returns (err: Option<Error>)
      requires |placements| == |initCoord|
      requires tracks.Length0 >= |initCoord| && tracks.Length1 > 0
      modifies tracks
      ensures err == FirstError(placements, 0)
      ensures forall p, t | 0 <= p < tracks.Length0 && 0 <= t < tracks.Length1 && !(p < |initCoord| && t == 0) ::
                tracks[p, t] == old(tracks[p, t])
      ensures err.None? ==> forall p :: 0 <= p < |initCoord| ==> placements[p] == Ok(tracks[p, 0])
    {
      var p := 0;
      while p < |initCoord|
        invariant 0 <= p <= |initCoord|
        invariant forall q :: 0 <= q < p ==> placements[q] == Ok(tracks[q, 0])
        invariant forall q, t | 0 <= q < tracks.Length0 && 0 <= t < tracks.Length1 && !(q < p && t == 0) ::
                    tracks[q, t] == old(tracks[q, t])
      {
        var at := placements[p];
        if at.Err? {
          FirstErrorAt(placements, 0, p);
          return Some(at.error);
        }
        tracks[p, 0] := at.value;
        p := p + 1;
      }
      err := None;
    }

    /** The second loop of `track_synchronous`, over all particles. */
    method FollowMinima(start: nat, minima: seq<seq<real>>) returns (err: Option<Error>)
      requires |minima| == nSamples && 0 < |initCoord|
      requires tracks.Length0 >= |initCoord| && tracks.Length1 >= nSamples
      modifies tracks
      ensures err.Some? <==> exists t :: start < t < nSamples && minima[t] == []
      ensures err.Some? ==> err == Some(ValueError)
      ensures forall p, t :: 0 <= p < tracks.Length0 && 0 <= t < tracks.Length1 && !(p < |initCoord| && start < t < nSamples) ==> tracks[p, t] == old(tracks[p, t])
      ensures err.None? ==>
                forall p, t :: 0 <= p < |initCoord| && start < t < nSamples ==>
                  Nearest(tracks[p, t - 1], minima[t]) == Ok(tracks[p, t])
    {
      var p := 0;
      while p < |initCoord|
        invariant 0 <= p <= |initCoord|
        invariant p > 0 ==> forall t :: start < t < nSamples ==> minima[t] != []
        invariant forall q, t :: 0 <= q < p && start < t < nSamples ==>
                    Nearest(tracks[q, t - 1], minima[t]) == Ok(tracks[q, t])
        invariant forall q, t :: 0 <= q < tracks.Length0 && 0 <= t < tracks.Length1 && !(q < p && start < t < nSamples) ==> tracks[q, t] == old(tracks[q, t])
      {
        err := FollowRow(tracks, p, start, minima);
        if err.Some? {
          return;
        }
        p := p + 1;
      }
      err := None;
    }

    /** `calc_buckets` (beam_parameters.py:167-177) over the buckets
        `create_sample_buckets` builds for each sample: every sample's
        bucket for every particle is stored under (sample, particle), in
        dict order; on an empty dict the keys come out sample-major and
        `buckets_by_particle` returns each particle's buckets in sample order. */
    method CalcBuckets(sampleBuckets: seq<seq<Bucket>>)
      requires |sampleBuckets| == nSamples && RowsHold(sampleBuckets, nParticles)
      modifies this`keys, this`buckets
      ensures (keys, buckets) == InsertAll(old(keys), old(buckets), Entries(sampleBuckets, nParticles, nSamples))
      ensures forall s, p :: 0 <= s < nSamples && 0 <= p < nParticles ==>
                (s, p) in buckets && buckets[(s, p)] == sampleBuckets[s][p]
      ensures old(keys) == [] && old(buckets) == map[] ==>
                && keys == KeysOf(Entries(sampleBuckets, nParticles, nSamples))
                && (forall k :: k in keys ==> k in buckets)
                && forall p :: 0 <= p < nParticles ==>
                     BucketsByParticle(keys, buckets, p) == Column(sampleBuckets, nSamples, p)
    {
      ghost var keys0, buckets0 := keys, buckets;
      var s := 0;
      while s < nSamples
        invariant 0 <= s <= nSamples
        invariant (keys, buckets) == InsertAll(keys0, buckets0, Entries(sampleBuckets, nParticles, s))
      {
        StoreSample(sampleBuckets, s);
        InsertAllAppend(keys0, buckets0, Entries(sampleBuckets, nParticles, s), Row(sampleBuckets, s, nParticles));
        s := s + 1;
      }
      StoredGrid(keys0, buckets0, sampleBuckets, nParticles, nSamples, keys, buckets);
    }

    /** The inner loop of `calc_buckets`: sample s's bucket for each particle. */
    method StoreSample(sampleBuckets: seq<seq<Bucket>>, s: nat)
      requires s < |sampleBuckets| && nParticles <= |sampleBuckets[s]|
      modifies this`keys, this`buckets
      ensures (keys, buckets) == InsertAll(old(keys), old(buckets), Row(sampleBuckets, s, nParticles))
    {
      var p := 0;
      while p < nParticles
        invariant 0 <= p <= nParticles
        invariant (keys, buckets) == InsertAll(old(keys), old(buckets), Row(sampleBuckets, s, p))
      {
        InsertAllSnoc(old(keys), old(buckets), Row(sampleBuckets, s, p), ((s, p), sampleBuckets[s][p]));
        var next := Insert(keys, buckets, (s, p), sampleBuckets[s][p]);
        keys, buckets := next.0, next.1;
        p := p + 1;
      }
    }
  }

  /** One particle followed from the sample after the start to the last,
      in the particle's own row of the track array. */
  method FollowRow(tracks: array2<real>, p: nat, start: nat, minima: seq<seq<real>>) returns (err: Option<Error>)
    requires p < tracks.Length0 && tracks.Length1 >= |minima|
    modifies tracks
    ensures err.Some? ==> err == Some(ValueError) && exists t :: start < t < |minima| && minima[t] == []
    ensures err.None? ==>
              forall t :: start < t < |minima| ==>
                minima[t] != [] && Nearest(tracks[p, t - 1], minima[t]) == Ok(tracks[p, t])
    ensures forall q, t :: 0 <= q < tracks.Length0 && 0 <= t < tracks.Length1 && !(q == p && start < t < |minima|) ==>
              tracks[q, t] == old(tracks[q, t])
  {
    var t := start + 1;
    while t < |minima|
      invariant start < t && (t <= |minima| || t == start + 1)
      invariant forall u :: start < u < t && u < |minima| ==>
                  minima[u] != [] && Nearest(tracks[p, u - 1], minima[u]) == Ok(tracks[p, u])
      invariant forall q, u :: 0 <= q < tracks.Length0 && 0 <= u < tracks.Length1 && !(q == p && start < u < t) ==>
                  tracks[q, u] == old(tracks[q, u])
    {
      var n := Nearest(tracks[p, t - 1], minima[t]);
      if n.Err? {
        assert minima[t] == [];
        return Some(n.error);
      }
      tracks[p, t] := n.value;
      t := t + 1;
    }
    err := None;
  }

  /** After inserting the grid, every (sample, particle) key holds its
      bucket, whatever the dict held before. */
  lemma GridStored(keys: seq<Key>, m: map<Key, Bucket>, sb: seq<seq<Bucket>>, nP: nat, n: nat,
                   keys': seq<Key>, m': map<Key, Bucket>)
    requires n <= |sb| && RowsHold(sb, nP)
    requires (keys', m') == InsertAll(keys, m, Entries(sb, nP, n))
    ensures forall s, p :: 0 <= s < n && 0 <= p < nP ==> (s, p) in m' && m'[(s, p)] == sb[s][p]
  {
    var es := Entries(sb, nP, n);
    EntriesGrid(sb, nP, n);
    InsertAllStores(keys, m, es);
    forall s, p | 0 <= s < n && 0 <= p < nP ensures (s, p) in m' && m'[(s, p)] == sb[s][p] {
      EntryAt(sb, nP, n, s, p);
      var i :| 0 <= i < |es| && es[i].0 == (s, p);
    }
  }

  /** After inserting the grid every (sample, particle) key holds its
      bucket; into an empty dict, the keys are the grid's in order, and
      each particle's buckets are listed in sample order. */
  lemma StoredGrid(keys: seq<Key>, m: map<Key, Bucket>, sb: seq<seq<Bucket>>, nP: nat, n: nat,
                   keys': seq<Key>, m': map<Key, Bucket>)
    requires n <= |sb| && RowsHold(sb, nP)
    requires (keys', m') == InsertAll(keys, m, Entries(sb, nP, n))
    ensures forall s, p :: 0 <= s < n && 0 <= p < nP ==> (s, p) in m' && m'[(s, p)] == sb[s][p]
    ensures keys == [] && m == map[] ==>
              && keys' == KeysOf(Entries(sb, nP, n))
              && (forall k :: k in keys' ==> k in m')
              && forall p :: 0 <= p < nP ==> BucketsByParticle(keys', m', p) == Column(sb, n, p)
  {
    GridStored(keys, m, sb, nP, n, keys', m');
    if keys == [] && m == map[] {
      var es := Entries(sb, nP, n);
      EntriesGrid(sb, nP, n);
      InsertAllCovers([], map[], es);
      InsertAllOrder(es);
      forall p | 0 <= p < nP
        ensures BucketsByParticle(keys', m', p) == Column(sb, n, p)
      {
        ByParticleGrid(sb, nP, n, m', p);
      }
    }
  }

  // ----- the over-fill policy -----

  /** The bunch a requested emittance gives a bucket in `bucket_parameters`
      (beam_parameters.py:377-389): the emittance setter's result, except
      that with over_fill a request over the bucket's area is replaced by the
      area itself, whose search is the run areaSearch. An emittance target
      runs no length search. */
  function Filled(b: Bucket, target: real, overFill: bool, search: Search, areaSearch: Search,
                  num: Numerics): Result<(real, real, real)>
    requires b.beta != 0.0 && b.energy != 0.0
    reads b`time, b`well, b`length, b`area, b`halfHeight
  {
    var first := b.BunchFor(None, Some(target), None, NoSearch, search, num);
    if first == Err(BunchSizeError) && overFill
    then b.BunchFor(None, Some(b.area), None, NoSearch, areaSearch, num)
    else first
  }

  /** The only way the emittance setter raises BunchSizeError is a non-zero
      request over the bucket's area. */
  lemma SizeErrorOnlyOverArea(b: Bucket, v: real, ls: Search, search: Search, num: Numerics)
    requires b.beta != 0.0 && b.energy != 0.0
    ensures b.BunchFor(None, Some(v), None, ls, search, num) == Err(BunchSizeError)
            <==> v != 0.0 && v > b.area
  {
    var t := SelectTarget(None, Some(v), None);
    assert t == Ok(EmittanceTarget(v));
    if v != 0.0 && v <= b.area {
      var o := EmittanceOutline(b.time, b.well, b.area, v, search, DefaultPoints, num);
      assert o != Err(BunchSizeError);
    }
  }

  /** With over_fill no BunchSizeError escapes, and a request over the area
      gives the bucket filled to its area; without it the setter's outcome,
      error included, is passed on unchanged. */
  lemma OverFillPolicy(b: Bucket, target: real, overFill: bool, search: Search, areaSearch: Search, num: Numerics)
    requires b.beta != 0.0 && b.energy != 0.0
    ensures overFill ==> Filled(b, target, overFill, search, areaSearch, num) != Err(BunchSizeError)
    ensures !overFill ==>
              Filled(b, target, overFill, search, areaSearch, num) == b.BunchFor(None, Some(target), None, NoSearch, search, num)
    ensures target == 0.0 || target <= b.area ==>
              Filled(b, target, overFill, search, areaSearch, num) == b.BunchFor(None, Some(target), None, NoSearch, search, num)
    ensures overFill && target != 0.0 && target > b.area ==>
              Filled(b, target, overFill, search, areaSearch, num) == b.BunchFor(None, Some(b.area), None, NoSearch, areaSearch, num)
  {
    SizeErrorOnlyOverArea(b, target, NoSearch, search, num);
    SizeErrorOnlyOverArea(b, b.area, NoSearch, areaSearch, num);
  }

  /** One bucket of the `bucket_parameters` loop: set the requested
      emittance, and on BunchSizeError with over_fill set the bucket's area
      instead; any other error, or BunchSizeError without over_fill, is
      raised. */
  method FillEmittance(b: Bucket, target: real, overFill: bool, search: Search, areaSearch: Search,
                       num: Numerics) returns (err: Option<Error>)
    requires b.beta != 0.0 && b.energy != 0.0
    modifies b`bunchLength, b`bunchHeight, b`bunchEmittance
    ensures old(Filled(b, target, overFill, search, areaSearch, num)).Err? ==>
              && err == Some(old(Filled(b, target, overFill, search, areaSearch, num)).error)
              && b.bunchLength == old(b.bunchLength) && b.bunchHeight == old(b.bunchHeight)
              && b.bunchEmittance == old(b.bunchEmittance)
    ensures old(Filled(b, target, overFill, search, areaSearch, num)).Ok? ==>
              && err == None
              && (b.bunchLength, b.bunchHeight, b.bunchEmittance)
                 == old(Filled(b, target, overFill, search, areaSearch, num)).value
  {
    err := b.SetBunch(None, Some(target), None, NoSearch, search, num);
    if err == Some(BunchSizeError) && overFill {
      err := b.SetBunch(None, Some(b.area), None, NoSearch, areaSearch, num);
    }
  }

  /** Every bucket can take a bunch target (see BucketModel.Bucket.SetBunch). */
  ghost predicate Settable(bs: seq<Bucket>)
    reads set i | 0 <= i < |bs| :: bs[i]
  {
    forall i :: 0 <= i < |bs| ==> bs[i].beta != 0.0 && bs[i].energy != 0.0
  }

  /** wanted[j] is what filling bucket j would give. */
  ghost predicate Wanted(bs: seq<Bucket>, targets: seq<real>, overFill: bool, searches: seq<Search>,
                         areaSearches: seq<Search>, num: Numerics, wanted: seq<Result<(real, real, real)>>)
    reads set i | 0 <= i < |bs| :: bs[i]
  {
    && |targets| == |bs| && |searches| == |bs| && |areaSearches| == |bs| && |wanted| == |bs| && Settable(bs)
    && forall j {:trigger Filled(bs[j], targets[j], overFill, searches[j], areaSearches[j], num)} ::
         0 <= j < |bs| ==> wanted[j] == Filled(bs[j], targets[j], overFill, searches[j], areaSearches[j], num)
  }

  /** The bucket holds the bunch that a successful fill computed. */
  ghost predicate Holds(b: Bucket, w: Result<(real, real, real)>)
    reads b
  {
    w.Ok? && b.bunchLength == w.value.0 && b.bunchHeight == w.value.1 && b.bunchEmittance == w.value.2
  }

  /** The bucket still holds the bunch it held before. */
  twostate predicate Kept(b: Bucket)
    reads b
  {
    b.bunchLength == old(b.bunchLength) && b.bunchHeight == old(b.bunchHeight)
    && b.bunchEmittance == old(b.bunchEmittance)
  }

  /** FillEmittance on bucket i of a particle: the outcome is the one
      wanted for it, and what the other buckets would give is unchanged. */
  method FillAt(bs: seq<Bucket>, i: nat, targets: seq<real>, overFill: bool, searches: seq<Search>,
                areaSearches: seq<Search>, num: Numerics, ghost wanted: seq<Result<(real, real, real)>>)
    returns (err: Option<Error>)
    requires i < |bs| && Wanted(bs, targets, overFill, searches, areaSearches, num, wanted)
    modifies {bs[i]}`bunchLength, {bs[i]}`bunchHeight, {bs[i]}`bunchEmittance
    ensures Wanted(bs, targets, overFill, searches, areaSearches, num, wanted)
    ensures wanted[i].Err? ==> err == Some(wanted[i].error)
    ensures wanted[i].Err? ==> Kept(bs[i])
    ensures wanted[i].Ok? ==> err == None && Holds(bs[i], wanted[i])
  {
    err := FillEmittance(bs[i], targets[i], overFill, searches[i], areaSearches[i], num);
  }

  /** The inner loop of `bucket_parameters(True, over_fill)` for one
      particle (beam_parameters.py:373-389): the buckets of
      `buckets_by_particle` in order, each given its requested emittance
      under the over-fill policy, stopping at the first error. */
  method FillParticle(bs: seq<Bucket>, targets: seq<real>, overFill: bool, searches: seq<Search>,
                      areaSearches: seq<Search>, num: Numerics, ghost wanted: seq<Result<(real, real, real)>>)
    returns (err: Option<Error>)
    requires Distinct(bs) && Wanted(bs, targets, overFill, searches, areaSearches, num, wanted)
    modifies (set i | 0 <= i < |bs| :: bs[i])`bunchLength, (set i | 0 <= i < |bs| :: bs[i])`bunchHeight,
             (set i | 0 <= i < |bs| :: bs[i])`bunchEmittance
    ensures err.None? <==> forall j :: 0 <= j < |bs| ==> wanted[j].Ok?
    ensures err.None? ==> forall j :: 0 <= j < |bs| ==> Holds(bs[j], wanted[j])
    ensures err.Some? ==>
              exists i :: 0 <= i < |bs| && wanted[i] == Err(err.value)
                          && (forall j :: 0 <= j < i ==> wanted[j].Ok? && Holds(bs[j], wanted[j]))
                          && (forall j :: i <= j < |bs| ==> Kept(bs[j]))
  {
    var i := 0;
    while i < |bs|
      invariant 0 <= i <= |bs| && Wanted(bs, targets, overFill, searches, areaSearches, num, wanted)
      invariant forall j :: 0 <= j < i ==> wanted[j].Ok? && Holds(bs[j], wanted[j])
      invariant forall j :: i <= j < |bs| ==> Kept(bs[j])
    {
      err := FillAt(bs, i, targets, overFill, searches, areaSearches, num, wanted);
      if err.Some? {
        return;
      }
      i := i + 1;
    }
    err := None;
  }

}
