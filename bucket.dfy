/** The `Bucket` object: a primary bucket built from the outermost of its
    sorted potential wells, its separatrix and basic parameters, the
    sub-bucket objects of its inner wells wired by one pass over the
    containment graph, and the bunch outline chosen by one of three targets. */
module BucketModel {
  import opened Common
  import opened Containment
  import opened Contour
  import opened Crossing
  import opened Overshoot

  /** The numerics the bucket delegates and this model does not compute:
      `energyOf(t, w)` is `np.sqrt(pot.potential_to_hamiltonian(t, w, beta,
      energy, eta))` for this bucket's beta, energy and eta, `smooth` is the
      cubic interpolant `_well_smooth_func` of the loaded well, and `interp`
      is `np.interp`. */
  datatype Numerics = Numerics(energyOf: (seq<real>, seq<real>) -> seq<real>,
                               smooth: real -> real,
                               interp: Interp)

  /** The number of samples of every outline `_set_bunch` asks for. */
  const DefaultPoints: nat := 1000

  /** The interpolant evaluated at each time. */
  function SmoothAt(f: real -> real, ts: seq<real>): (w: seq<real>)
    ensures |w| == |ts|
    ensures forall k :: 0 <= k < |ts| ==> w[k] == f(ts[k])
  {
    seq(|ts|, k requires 0 <= k < |ts| => f(ts[k]))
  }

  /** `np.array([t + t[::-1], e + (-e)[::-1]])`: numpy refuses rows of
      different lengths. */
  function ContourOf(ts: seq<real>, e: seq<real>): (r: Result<Outline>)
    ensures r.Err? <==> |e| != |ts|
    ensures r.Err? ==> r.error == ValueError
    ensures r.Ok? ==> r.value == ClosedContour(ts, e)
  {
    if |e| != |ts| then Err(ValueError) else Ok(ClosedContour(ts, e))
  }

  /** The well under an outline: the interpolant at the outline's times,
      clamped so that no sample exceeds the first. */
  function LevelWell(ts: seq<real>, num: Numerics): seq<real>
    requires |ts| > 0
  {
    Clamped(SmoothAt(num.smooth, ts))
  }

  /** The outline through the given times (the body shared by the three
      `outline_from_*` methods once the crossing times are known). */
  function LevelOutline(ts: seq<real>, num: Numerics): Result<Outline>
    requires |ts| > 0
  {
    ContourOf(ts, num.energyOf(ts, LevelWell(ts, num)))
  }

  /** The outline at a potential level: its crossing times, then the outline
      through them. */
  function OutlineAtLevel(time: seq<real>, well: seq<real>, level: real, nPts: nat,
                          num: Numerics): Result<Outline>
    requires nPts > 0
  {
    match InterpTimeFromPotential(time, well, level, nPts, num.interp)
    case Err(e) => Err(e)
    case Ok(c) => LevelOutline(c.times, num)
  }

  /** `outline_from_emittance` after its search: a level outside the well
      falls back to the bucket's own time and well, unclamped. */
  function EmittanceOutlineAt(time: seq<real>, well: seq<real>, level: real, nPts: nat,
                              num: Numerics): Result<Outline>
    requires nPts > 0
  {
    match InterpTimeFromPotential(time, well, level, nPts, num.interp)
    case Err(e) =>
      if e == InputError then ContourOf(time, num.energyOf(time, well)) else Err(e)
    case Ok(c) => LevelOutline(c.times, num)
  }

  /** The outline at a level through the bucket's samples has the closed
      contour's shape: twice the samples, mirrored times, anti-mirrored
      energies, and an upper half that is the crossing times over a well
      clamped to its first sample. */
  lemma LevelOutlineShape(ts: seq<real>, num: Numerics)
    requires |ts| > 0 && LevelOutline(ts, num).Ok?
    ensures |LevelOutline(ts, num).value.time| == 2 * |ts|
    ensures |LevelOutline(ts, num).value.energy| == 2 * |ts|
    ensures UpperHalf(LevelOutline(ts, num).value) == (ts, num.energyOf(ts, LevelWell(ts, num)))
    ensures Mirrored(LevelOutline(ts, num).value.time)
    ensures AntiMirrored(LevelOutline(ts, num).value.energy)
    ensures |LevelWell(ts, num)| == |ts|
    ensures forall k :: 0 <= k < |ts| ==> LevelWell(ts, num)[k] <= LevelWell(ts, num)[0]
  {
    var e := num.energyOf(ts, LevelWell(ts, num));
    ClosedContourShape(ts, e);
    UpperHalfRoundTrip(ts, e);
    ClampedBounds(SmoothAt(num.smooth, ts));
  }

  /** len_func, the objective of the length search (bucket.py:385-392): a
      level outside the well scores the bucket length, one inside scores
      how far its crossing times are from the target length apart. */
  function LengthMismatch(time: seq<real>, well: seq<real>, target: real, level: real,
                          interp: Interp): (r: Result<real>)
    ensures CrossingPoints(well, level) == Err(InputError) ==>
              r == if |time| == 0 then Err(IndexError) else Ok(Last(time) - time[0])
    ensures CrossingPoints(well, level).Err? && CrossingPoints(well, level) != Err(InputError) ==>
              r == Err(CrossingPoints(well, level).error)
    ensures CrossingPoints(well, level).Ok? && r.Ok? ==> r.value >= 0.0
    ensures r.Err? ==> r.error == ValueError || r.error == IndexError
  {
    match InterpTimeFromPotential(time, well, level, 0, interp)
    case Err(e) =>
      if e != InputError then Err(e)
      else if |time| == 0 then Err(IndexError)
      else Ok(Last(time) - time[0])
    case Ok(c) => Ok(Abs(target - (c.rTime - c.lTime)))
  }

  /** emit_func, the objective of the emittance search (bucket.py:447-466):
      a level outside the well scores the bucket area, one inside scores
      how far the area of its outline is from the target. */
  function EmittanceMismatch(time: seq<real>, well: seq<real>, area: real, target: real,
                             level: real, nPts: nat, num: Numerics): (r: Result<real>)
    requires nPts > 0
    ensures CrossingPoints(well, level) == Err(InputError) ==> r == Ok(area)
    ensures CrossingPoints(well, level).Ok? && r.Ok? ==> r.value >= 0.0
    ensures r.Err? ==> r.error == ValueError || r.error == IndexError
  {
    match InterpTimeFromPotential(time, well, level, nPts, num.interp)
    case Err(e) => if e == InputError then Ok(area) else Err(e)
    case Ok(c) =>
      var e := num.energyOf(c.times, LevelWell(c.times, num));
      if |e| != |c.times| then Err(ValueError)
      else Ok(Abs(target - BucketArea(e, c.times)))
  }

  /** An outline found by the emittance search whose level lies inside the
      window encloses the bucket-area formula of its upper half, which is
      what emit_func measured. */
  lemma EmittanceOfLevelOutline(ts: seq<real>, num: Numerics)
    requires |ts| > 0 && LevelOutline(ts, num).Ok?
    ensures BunchEmittance(LevelOutline(ts, num).value)
            == BucketArea(num.energyOf(ts, LevelWell(ts, num)), ts)
  {
    ClosedContourEmittance(ts, num.energyOf(ts, LevelWell(ts, num)));
  }

  // ----- the searches of the length and emittance targets -----

  /** A run of `opt.minimize(f, guess, method='Nelder-Mead')`, which this
      model does not perform: the levels the run evaluated the objective at
      after its initial guess, in order, and the level it reported. */
  datatype Search = Search(probes: seq<real>, level: real)

  /** Stands for the search of a target that is not given. */
  const NoSearch: Search := Search([], 0.0)

  /** The objective evaluated at each probe in turn: the first error an
      evaluation raises escapes the minimiser, otherwise the minimiser
      reports its level. */
  function Minimized(f: real -> Result<real>, probes: seq<real>, level: real): (r: Result<real>)
    ensures r.Ok? ==> r.value == level
    decreases |probes|
  {
    if |probes| == 0 then Ok(level)
    else if f(probes[0]).Err? then Err(f(probes[0]).error)
    else Minimized(f, probes[1..], level)
  }

  /** The minimiser fails exactly when some probe fails, and then with the
      error of the first failing probe. */
  lemma {:induction false} MinimizedFirstError(f: real -> Result<real>, probes: seq<real>, level: real)
    ensures Minimized(f, probes, level).Ok? <==> forall k :: 0 <= k < |probes| ==> f(probes[k]).Ok?
    ensures Minimized(f, probes, level).Err? ==>
              exists k :: 0 <= k < |probes| && f(probes[k]) == Err(Minimized(f, probes, level).error)
                          && forall j :: 0 <= j < k ==> f(probes[j]).Ok?
    decreases |probes|
  {
    if |probes| > 0 && f(probes[0]).Ok? {
      var rest := probes[1..];
      MinimizedFirstError(f, rest, level);
      assert forall k :: 0 < k < |probes| ==> probes[k] == rest[k - 1];
      if Minimized(f, rest, level).Err? {
        var k :| 0 <= k < |rest| && f(rest[k]) == Err(Minimized(f, rest, level).error)
                 && forall j :: 0 <= j < k ==> f(rest[j]).Ok?;
        assert f(probes[k + 1]) == Err(Minimized(f, probes, level).error);
      }
    }
  }

  /** `np.max(well)/2`, where both searches start. */
  function InitialGuess(well: seq<real>): real
    requires |well| > 0
  {
    Max(well) / 2.0
  }

  /** `opt.minimize(f, np.max(well)/2, method='Nelder-Mead')`: numpy's max
      refuses an empty well; otherwise the objective is evaluated at the
      initial guess first, then at the run's later probes. */
  function SearchFrom(well: seq<real>, f: real -> Result<real>, s: Search): Result<real>
  {
    if |well| == 0 then Err(ValueError) else Minimized(f, [InitialGuess(well)] + s.probes, s.level)
  }

  /** The search succeeds exactly when the objective succeeds at the initial
      guess and at every later probe, and reports the run's level; an
      error at the guess escapes as it is. */
  lemma SearchFromOutcome(well: seq<real>, f: real -> Result<real>, s: Search)
    ensures SearchFrom(well, f, s).Ok? <==>
              |well| > 0 && f(InitialGuess(well)).Ok? && forall k :: 0 <= k < |s.probes| ==> f(s.probes[k]).Ok?
    ensures SearchFrom(well, f, s).Ok? ==> SearchFrom(well, f, s).value == s.level
    ensures |well| > 0 && f(InitialGuess(well)).Err? ==> SearchFrom(well, f, s) == f(InitialGuess(well))
  {
    if |well| > 0 {
      var ps := [InitialGuess(well)] + s.probes;
      MinimizedFirstError(f, ps, s.level);
      assert ps[0] == InitialGuess(well);
      assert forall k :: 0 <= k < |s.probes| ==> s.probes[k] == ps[k + 1];
    }
  }

  /** The length search of `outline_from_length` (bucket.py:394-395): the
      objective is len_func, so the only errors that escape are the
      IndexError and ValueError len_func lets through. */
  function LengthSearch(time: seq<real>, well: seq<real>, target: real, s: Search,
                        interp: Interp): (r: Result<real>)
    ensures r.Ok? ==> r.value == s.level
    ensures r.Err? ==> r.error == ValueError || r.error == IndexError
  {
    var f := x => LengthMismatch(time, well, target, x, interp);
    if |well| == 0 then Err(ValueError)
    else
      MinimizedFirstError(f, [InitialGuess(well)] + s.probes, s.level);
      SearchFrom(well, f, s)
  }

  /** The emittance search of `outline_from_emittance` (bucket.py:468-469):
      the objective is emit_func at nPts samples, so the only errors that
      escape are the IndexError and ValueError emit_func lets through. */
  function EmittanceSearch(time: seq<real>, well: seq<real>, area: real, target: real, s: Search,
                           nPts: nat, num: Numerics): (r: Result<real>)
    requires nPts > 0
    ensures r.Ok? ==> r.value == s.level
    ensures r.Err? ==> r.error == ValueError || r.error == IndexError
  {
    var f := x => EmittanceMismatch(time, well, area, target, x, nPts, num);
    if |well| == 0 then Err(ValueError)
    else
      MinimizedFirstError(f, [InitialGuess(well)] + s.probes, s.level);
      SearchFrom(well, f, s)
  }

  /** `outline_from_length` after its capacity check: the search, then the
      outline at the level it reports. */
  function LengthOutline(time: seq<real>, well: seq<real>, target: real, s: Search, nPts: nat,
                         num: Numerics): Result<Outline>
    requires nPts > 0
  {
    match LengthSearch(time, well, target, s, num.interp)
    case Err(e) => Err(e)
    case Ok(level) => OutlineAtLevel(time, well, level, nPts, num)
  }

  /** `outline_from_emittance` after its capacity check: the search, then
      the outline at the level it reports, or the fallback outside the well. */
  function EmittanceOutline(time: seq<real>, well: seq<real>, area: real, target: real, s: Search,
                            nPts: nat, num: Numerics): Result<Outline>
    requires nPts > 0
  {
    match EmittanceSearch(time, well, area, target, s, nPts, num)
    case Err(e) => Err(e)
    case Ok(level) => EmittanceOutlineAt(time, well, level, nPts, num)
  }

  // ----- bunch targets (bucket.py:497-524) -----

  /** The one target `_set_bunch` was given. */
  datatype Target = LengthTarget(value: real) | EmittanceTarget(value: real) | HeightTarget(value: real)

  function Given(o: Option<real>): nat
  {
    if o.Some? then 1 else 0
  }

  /** `assrt.single_not_none`: exactly one target may be given. */
  function SelectTarget(l: Option<real>, e: Option<real>, h: Option<real>): (r: Result<Target>)
    ensures r.Err? <==> Given(l) + Given(e) + Given(h) != 1
    ensures r.Err? ==> r.error == InputError
    ensures r.Ok? ==> match r.value
                      case LengthTarget(v) => l == Some(v)
                      case EmittanceTarget(v) => e == Some(v)
                      case HeightTarget(v) => h == Some(v)
  {
    if Given(l) + Given(e) + Given(h) != 1 then Err(InputError)
    else if l.Some? then Ok(LengthTarget(l.value))
    else if e.Some? then Ok(EmittanceTarget(e.value))
    else Ok(HeightTarget(h.value))
  }

  /** The bucket quantity each kind of target is held against. */
  function Capacity(t: Target, length: real, area: real, halfHeight: real): real
  {
    match t
    case LengthTarget(_) => length
    case EmittanceTarget(_) => area
    case HeightTarget(_) => halfHeight
  }

  /** `potential = target_height**2*eta/(2*beta**2*energy)`. */
  function HeightLevel(h: real, beta: real, energy: real, eta: real): real
    requires beta != 0.0 && energy != 0.0
  {
    h * h * eta / (2.0 * beta * beta * energy)
  }

  /** The outline's bunch length, height and emittance; numpy's max and min
      refuse an empty row. */
  function BunchParameters(o: Outline): (r: Result<(real, real, real)>)
    ensures r.Err? <==> |o.time| == 0 || |o.energy| == 0
    ensures r.Ok? ==> r.value == (BunchLength(o), BunchHeight(o), BunchEmittance(o))
  {
    if |o.time| == 0 || |o.energy| == 0 then Err(ValueError)
    else Ok((BunchLength(o), BunchHeight(o), BunchEmittance(o)))
  }

  function Pick<T>(s: seq<T>, idx: seq<nat>): (r: seq<T>)
    requires IndicesBelow(idx, |s|)
    ensures |r| == |idx| && forall k :: 0 <= k < |idx| ==> r[k] == s[idx[k]]
  {
    seq(|idx|, k requires 0 <= k < |idx| => s[idx[k]])
  }

  /** `Bucket.__init__` checks the raw time and well before they are sorted
      into wells. */
  function CheckLengths(time: seq<real>, well: seq<real>): (r: Option<Error>)
    ensures r.Some? <==> |time| != |well|
    ensures r.Some? ==> r.value == InputError
  {
    if |time| != |well| then Some(InputError) else None
  }

  predicate Distinct<T(==)>(s: seq<T>)
  {
    forall a, b :: 0 <= a < b < |s| ==> s[a] != s[b]
  }

  /** `Bucket(time, well, beta, energy, eta)` (bucket.py:34-68): raw
      samples of unequal length are refused; otherwise the primary bucket of
      the sorted wells is built and its substructure identified. */
  method NewBucket(time: seq<real>, well: seq<real>,
                   outerTime: seq<real>, outerWell: seq<real>,
                   inTimes: seq<seq<real>>, inWells: seq<seq<real>>,
                   beta: real, energy: real, eta: real, num: Numerics)
    returns (r: Result<Bucket>)
    requires |outerTime| > 0 && |outerWell| == |outerTime|
    requires |num.energyOf(outerTime, outerWell)| == |outerTime|
    requires NonEmptyWells(inTimes) && |inWells| == |inTimes|
    ensures r.Err? <==> |time| != |well|
    ensures r.Err? ==> r.error == InputError
    ensures r.Ok? ==> fresh(r.value) && !r.value.isSub
    ensures r.Ok? ==> r.value.timeLoaded == outerTime && r.value.wellLoaded == outerWell
    ensures r.Ok? ==> r.value.time == outerTime && r.value.well == outerWell
    ensures r.Ok? ==> r.value.beta == beta && r.value.energy == energy && r.value.eta == eta
    ensures r.Ok? ==> r.value.SeparatrixOf(num) && r.value.BasicParametersHold()
    ensures r.Ok? ==> r.value.innerTimes == inTimes && r.value.innerWells == inWells
    ensures r.Ok? ==> r.value.Wired()
  {
    var e := CheckLengths(time, well);
    if e.Some? {
      return Err(e.value);
    }
    var b := new Bucket.Primary(outerTime, outerWell, inTimes, inWells, beta, energy, eta, num);
    var inner := b.IdentifySubstructure();
    return Ok(b);
  }

  class Bucket {
    const beta: real
    const energy: real
    const eta: real
    const isSub: bool
    const timeLoaded: seq<real>
    const wellLoaded: seq<real>
    var time: seq<real>
    var well: seq<real>
    var upperEnergyBound: seq<real>
    var separatrix: Outline
    var halfHeight: real
    var area: real
    var length: real
    var center: real
    var innerTimes: seq<seq<real>>
    var innerWells: seq<seq<real>>
    var innerSeparatrices: seq<Outline>
    var subBuckets: seq<Bucket>
    var hasSubs: bool
    var bunchLength: real
    var bunchHeight: real
    var bunchEmittance: real
    /** The sub-bucket objects made for the inner wells, in well order. */
    ghost var innerBuckets: seq<Bucket>

    /** `Bucket(time, well, beta, energy, eta, isSub=True)`: a sub-bucket
        only keeps its samples (bucket.py:36-45). */
    constructor Sub(time: seq<real>, well: seq<real>, beta: real, energy: real, eta: real)
      ensures isSub && this.beta == beta && this.energy == energy && this.eta == eta
      ensures timeLoaded == time && wellLoaded == well && this.time == time && this.well == well
      ensures subBuckets == [] && !hasSubs
    {
      this.beta, this.energy, this.eta := beta, energy, eta;
      isSub := true;
      timeLoaded, wellLoaded := time, well;
      this.time, this.well := time, well;
      subBuckets, hasSubs := [], false;
      innerBuckets := [];
    }

    /** b is a sub-bucket of this bucket holding time t and well w. */
    ghost predicate SubOfThis(b: Bucket, t: seq<real>, w: seq<real>)
      reads b
    {
      && b.isSub && b.beta == beta && b.energy == energy && b.eta == eta
      && b.time == t && b.timeLoaded == t && b.well == w && b.wellLoaded == w
    }

    /** b's own sub-buckets are kids, or nothing when wiring is off. */
    ghost predicate WiredTo(b: Bucket, kids: seq<Bucket>, on: bool)
      reads b
    {
      b.subBuckets == (if on then kids else []) && b.hasSubs == (on && kids != [])
    }

    /** The wiring `_identify_substructure` leaves behind: one sub-bucket per
        inner well; when some well is a root, the primary's sub-buckets are
        the roots and each sub-bucket's are its immediate children, in
        ascending order; when none is, nothing is wired. */
    ghost predicate Wired()
      reads this, innerBuckets
    {
      SubBucketsMade() && RootsWired() && ChildrenWired()
    }

    /** One distinct sub-bucket per inner well, holding that well. */
    ghost predicate SubBucketsMade()
      reads this, innerBuckets
    {
      && NonEmptyWells(innerTimes)
      && |innerBuckets| == |innerTimes| <= |innerWells|
      && (forall i :: 0 <= i < |innerBuckets| ==> SubOfThis(innerBuckets[i], innerTimes[i], innerWells[i]))
      && Distinct(innerBuckets)
    }

    /** The primary's sub-buckets are the roots, if there are any. */
    ghost predicate RootsWired()
      reads this
      requires NonEmptyWells(innerTimes) && |innerBuckets| == |innerTimes|
    {
      && subBuckets == Pick(innerBuckets, RootList(innerTimes, |innerTimes|))
      && hasSubs == (subBuckets != [])
    }

    /** Each sub-bucket's sub-buckets are its well's immediate children,
        if the primary has any roots. */
    ghost predicate ChildrenWired()
      reads this, innerBuckets
      requires NonEmptyWells(innerTimes) && |innerBuckets| == |innerTimes|
    {
      forall i :: 0 <= i < |innerBuckets| ==>
        WiredTo(innerBuckets[i], Pick(innerBuckets, ChildList(innerTimes, i, |innerTimes|)), hasSubs)
    }

    /** The separatrix is the closed contour of the well's upper energy bound. */
    ghost predicate SeparatrixOf(num: Numerics)
      reads this`time, this`well, this`upperEnergyBound, this`separatrix
    {
      upperEnergyBound == num.energyOf(time, well) && separatrix == ClosedContour(time, upperEnergyBound)
    }

    /** half_height, area, length and center are those of the separatrix. */
    ghost predicate BasicParametersHold()
      reads this`time, this`separatrix, this`upperEnergyBound
      reads this`halfHeight, this`area, this`length, this`center
    {
      && |time| > 0 && |separatrix.energy| > 0
      && halfHeight == HalfHeight(separatrix) && area == BucketArea(upperEnergyBound, time)
      && length == BucketLength(time) && center == Center(time)
    }

    /** The primary bucket of the sorted wells up to its substructure:
        `pot.sort_potential_wells` is not part of this model, and its output,
        split into the outermost well and the inner ones, is the input here. */
    constructor Primary(outerTime: seq<real>, outerWell: seq<real>,
                        inTimes: seq<seq<real>>, inWells: seq<seq<real>>,
                        beta: real, energy: real, eta: real, num: Numerics)
      requires |outerTime| > 0 && |outerWell| == |outerTime|
      requires |num.energyOf(outerTime, outerWell)| == |outerTime|
      ensures !isSub && this.beta == beta && this.energy == energy && this.eta == eta
      ensures timeLoaded == time == outerTime && wellLoaded == well == outerWell
      ensures SeparatrixOf(num) && BasicParametersHold()
      ensures innerTimes == inTimes && innerWells == inWells
    {
      this.beta, this.energy, this.eta := beta, energy, eta;
      isSub := false;
      timeLoaded, wellLoaded := outerTime, outerWell;
      time, well := outerTime, outerWell;
      new;
      CalcSeparatrix(num);
      BasicParameters();
      innerTimes, innerWells := inTimes, inWells;
    }

    /** `calc_separatrix` (bucket.py:164-176). */
    method CalcSeparatrix(num: Numerics)
      modifies this`upperEnergyBound, this`separatrix
      ensures SeparatrixOf(num)
    {
      upperEnergyBound := num.energyOf(time, well);
      separatrix := ClosedContour(time, upperEnergyBound);
    }

    /** `basic_parameters` (bucket.py:179-184). */
    method BasicParameters()
      requires |time| > 0 && |separatrix.energy| > 0
      modifies this`halfHeight, this`area, this`length, this`center
      ensures BasicParametersHold()
    {
      halfHeight := Max(separatrix.energy);
      area := 2.0 * Trapz(upperEnergyBound, time);
      length := Last(time) - time[0];
      center := Sum(time) / (|time| as real);
    }

    /** `inner_buckets`: the closed contour of every inner well, over the
        pairs `zip` forms (bucket.py:135-149). */
    method InnerBuckets(num: Numerics)
      modifies this`innerSeparatrices
      ensures |innerSeparatrices| == Smaller(|innerTimes|, |innerWells|)
      ensures forall i :: 0 <= i < |innerSeparatrices| ==>
                innerSeparatrices[i]
                == ClosedContour(innerTimes[i], num.energyOf(innerTimes[i], innerWells[i]))
    {
      innerSeparatrices := [];
      var i := 0;
      while i < |innerTimes| && i < |innerWells|
        invariant 0 <= i <= Smaller(|innerTimes|, |innerWells|) && |innerSeparatrices| == i
        invariant forall k :: 0 <= k < i ==>
                    innerSeparatrices[k]
                    == ClosedContour(innerTimes[k], num.energyOf(innerTimes[k], innerWells[k]))
      {
        var ub := num.energyOf(innerTimes[i], innerWells[i]);
        innerSeparatrices := innerSeparatrices + [ClosedContour(innerTimes[i], ub)];
        i := i + 1;
      }
    }

    /** `_identify_substructure` (bucket.py:71-111): one sub-bucket per inner
        well, then the graph pass, then the wiring of the roots onto this
        bucket and of every well's immediate children onto its sub-bucket. */
    method IdentifySubstructure() returns (inner: seq<Bucket>)
      requires NonEmptyWells(innerTimes) && |innerTimes| <= |innerWells|
      modifies this`subBuckets, this`hasSubs, this`innerBuckets
      ensures |inner| == |innerTimes| && innerBuckets == inner
      ensures forall i :: 0 <= i < |inner| ==> fresh(inner[i])
      ensures SubBucketsMade() && RootsWired() && ChildrenWired()
    {
      var useCont, nextLayer := SubstructureGraph(innerTimes);
      inner := MakeSubBuckets();
      innerBuckets := inner;
      if |nextLayer| == 0 {
        hasSubs := false;
        subBuckets := [];
        assert SubBucketsMade();
        assert RootsWired();
        assert ChildrenWired();
        return;
      }
      WireRoots(inner, useCont, nextLayer);
    }

    /** The wiring once there are roots: they become this bucket's
        sub-buckets, and every well's immediate children its sub-bucket's. */
    method WireRoots(inner: seq<Bucket>, useCont: seq<seq<nat>>, nextLayer: seq<nat>)
      requires inner == innerBuckets && nextLayer != [] && SubBucketsMade()
      requires forall k :: 0 <= k < |innerBuckets| ==> WiredTo(innerBuckets[k], [], false)
      requires |useCont| == |innerTimes| && ListsBelow(useCont, |innerTimes|)
      requires forall b :: 0 <= b < |innerTimes| ==> useCont[b] == ChildList(innerTimes, b, |innerTimes|)
      requires nextLayer == RootList(innerTimes, |innerTimes|)
      requires forall k :: 0 <= k < |innerBuckets| ==> innerBuckets[k] != this
      modifies this`subBuckets, this`hasSubs, set k | 0 <= k < |innerBuckets| :: innerBuckets[k]
      ensures SubBucketsMade() && RootsWired() && ChildrenWired()
    {
      hasSubs := true;
      subBuckets := Pick(inner, nextLayer);
      WireChildren(inner, useCont, innerTimes, innerWells);
    }

    /** The `bucketDict` of sub-buckets, one per inner well. */
    method MakeSubBuckets() returns (inner: seq<Bucket>)
      requires |innerTimes| <= |innerWells|
      ensures |inner| == |innerTimes| && Distinct(inner)
      ensures forall k :: 0 <= k < |inner| ==> fresh(inner[k])
      ensures forall k :: 0 <= k < |inner| ==>
                SubOfThis(inner[k], innerTimes[k], innerWells[k]) && WiredTo(inner[k], [], false)
    {
      inner := [];
      var i := 0;
      while i < |innerTimes|
        invariant 0 <= i <= |innerTimes| && |inner| == i && Distinct(inner)
        invariant forall k :: 0 <= k < i ==> fresh(inner[k])
        invariant forall k :: 0 <= k < i ==>
                    SubOfThis(inner[k], innerTimes[k], innerWells[k]) && WiredTo(inner[k], [], false)
      {
        var b := new Bucket.Sub(innerTimes[i], innerWells[i], beta, energy, eta);
        inner := inner + [b];
        i := i + 1;
      }
    }

    /** The loop over `useCont` giving each sub-bucket its immediate children. */
    method WireChildren(inner: seq<Bucket>, useCont: seq<seq<nat>>, ts: seq<seq<real>>, ws: seq<seq<real>>)
      requires |useCont| == |inner| <= |ts| <= |ws| && Distinct(inner)
      requires ListsBelow(useCont, |inner|)
      requires forall k :: 0 <= k < |inner| ==> SubOfThis(inner[k], ts[k], ws[k])
      modifies set k | 0 <= k < |inner| :: inner[k]
      ensures forall k :: 0 <= k < |inner| ==> WiredTo(inner[k], Pick(inner, useCont[k]), true)
      ensures forall k :: 0 <= k < |inner| ==> SubOfThis(inner[k], ts[k], ws[k])
    {
      var i := 0;
      while i < |inner|
        invariant 0 <= i <= |inner|
        invariant forall k :: 0 <= k < i ==> WiredTo(inner[k], Pick(inner, useCont[k]), true)
        invariant forall k :: 0 <= k < |inner| ==> SubOfThis(inner[k], ts[k], ws[k])
      {
        inner[i].subBuckets := Pick(inner, useCont[i]);
        inner[i].hasSubs := |useCont[i]| > 0;
        i := i + 1;
      }
    }

    // ----- bunch outlines (bucket.py:378-524) -----

    /** `smooth_well(nPoints)` (bucket.py:152-161): with a sample count,
        the bucket's time becomes that many evenly spaced times over the
        loaded span and its well the interpolant there; the interpolant
        itself is outside this model. */
    method SmoothWell(nPoints: Option<nat>, num: Numerics)
      requires nPoints.Some? ==> |timeLoaded| > 0
      modifies this`time, this`well
      ensures nPoints.None? ==> time == old(time) && well == old(well)
      ensures nPoints.Some? ==>
                && time == Linspace(timeLoaded[0], Last(timeLoaded), nPoints.value)
                && well == SmoothAt(num.smooth, time)
    {
      if nPoints.Some? {
        time := Linspace(timeLoaded[0], Last(timeLoaded), nPoints.value);
        well := SmoothAt(num.smooth, time);
      }
    }

    /** The clamped interpolated well and the contour through it, as the
        outline methods compute them: the clamp works in place on an array. */
    method LevelOutlineOf(ts: seq<real>, num: Numerics) returns (r: Result<Outline>)
      requires |ts| > 0
      ensures r == LevelOutline(ts, num)
      ensures r.Ok? ==> |r.value.time| == 2 * |ts| && r.value.time[..|ts|] == ts
    {
      var a := new real[|ts|](k requires 0 <= k < |ts| => num.smooth(ts[k]));
      assert a[..] == SmoothAt(num.smooth, ts);
      ClampOvershoot(a);
      var e := num.energyOf(ts, a[..]);
      if |e| != |ts| {
        return Err(ValueError);
      }
      r := Ok(ClosedContour(ts, e));
      assert r.value.time[..|ts|] == ts;
    }

    /** `outline_from_length` (bucket.py:378-409) over the run `s` of its
        search: a target over the bucket length is refused before the
        search, an error of the search escapes, otherwise the outline at the
        level the search reports. */
    method OutlineFromLength(targetLength: real, s: Search, nPts: nat, num: Numerics)
      returns (r: Result<Outline>)
      requires nPts > 0
      ensures targetLength > length ==> r == Err(BunchSizeError)
      ensures targetLength <= length ==> r == LengthOutline(time, well, targetLength, s, nPts, num)
    {
      if targetLength > length {
        return Err(BunchSizeError);
      }
      var level := LengthSearch(time, well, targetLength, s, num.interp);
      if level.Err? {
        return Err(level.error);
      }
      var c := InterpTimeFromPotential(time, well, level.value, nPts, num.interp);
      if c.Err? {
        return Err(c.error);
      }
      r := LevelOutlineOf(c.value.times, num);
    }

    /** `outline_from_dE`: the level is the potential of the target height. */
    method OutlineFromHeight(targetHeight: real, num: Numerics) returns (r: Result<Outline>)
      requires beta != 0.0 && energy != 0.0
      ensures targetHeight > halfHeight ==> r == Err(BunchSizeError)
      ensures targetHeight <= halfHeight ==>
                r == OutlineAtLevel(time, well, HeightLevel(targetHeight, beta, energy, eta), DefaultPoints, num)
    {
      if targetHeight > halfHeight {
        return Err(BunchSizeError);
      }
      var potential := targetHeight * targetHeight * eta / (2.0 * beta * beta * energy);
      var c := InterpTimeFromPotential(time, well, potential, DefaultPoints, num.interp);
      if c.Err? {
        return Err(c.error);
      }
      r := LevelOutlineOf(c.value.times, num);
    }

    /** `outline_from_emittance` (bucket.py:440-490) over the run `s` of its
        search: a target over the bucket area is refused before the search,
        an error of the search escapes, otherwise the outline at the level
        the search reports, or the fallback when that level is outside the
        well. */
    method OutlineFromEmittance(targetEmittance: real, s: Search, nPts: nat, num: Numerics)
      returns (r: Result<Outline>)
      requires nPts > 0
      ensures targetEmittance > area ==> r == Err(BunchSizeError)
      ensures targetEmittance <= area ==> r == EmittanceOutline(time, well, area, targetEmittance, s, nPts, num)
    {
      if targetEmittance > area {
        return Err(BunchSizeError);
      }
      var level := EmittanceSearch(time, well, area, targetEmittance, s, nPts, num);
      if level.Err? {
        return Err(level.error);
      }
      var c := InterpTimeFromPotential(time, well, level.value, nPts, num.interp);
      if c.Err? {
        if c.error != InputError {
          return Err(c.error);
        }
        r := ContourOf(time, num.energyOf(time, well));
      } else {
        r := LevelOutlineOf(c.value.times, num);
      }
    }

    /** The outline `_set_bunch` settles on, given the runs of the length and
        emittance searches: the single target decides, zero is the
        degenerate outline, and a target over its capacity is refused. */
    function BunchOutline(l: Option<real>, e: Option<real>, h: Option<real>,
                          lengthSearch: Search, emittanceSearch: Search, num: Numerics): Result<Outline>
      requires beta != 0.0 && energy != 0.0
      reads this`time, this`well, this`length, this`area, this`halfHeight
    {
      match SelectTarget(l, e, h)
      case Err(x) => Err(x)
      case Ok(t) =>
        if t.value == 0.0 then Ok(ZeroOutline)
        else if t.value > Capacity(t, length, area, halfHeight) then Err(BunchSizeError)
        else
          match t
          case LengthTarget(v) => LengthOutline(time, well, v, lengthSearch, DefaultPoints, num)
          case EmittanceTarget(v) => EmittanceOutline(time, well, area, v, emittanceSearch, DefaultPoints, num)
          case HeightTarget(v) =>
            OutlineAtLevel(time, well, HeightLevel(v, beta, energy, eta), DefaultPoints, num)
    }

    /** The dispatch of `_set_bunch` on its one target. */
    method ChooseOutline(l: Option<real>, e: Option<real>, h: Option<real>,
                         lengthSearch: Search, emittanceSearch: Search, num: Numerics)
      returns (outline: Result<Outline>)
      requires beta != 0.0 && energy != 0.0
      ensures outline == BunchOutline(l, e, h, lengthSearch, emittanceSearch, num)
    {
      var t := SelectTarget(l, e, h);
      if t.Err? {
        return Err(t.error);
      }
      if t.value.value == 0.0 {
        return Ok(ZeroOutline);
      }
      match t.value
      case LengthTarget(v) => outline := OutlineFromLength(v, lengthSearch, DefaultPoints, num);
      case EmittanceTarget(v) => outline := OutlineFromEmittance(v, emittanceSearch, DefaultPoints, num);
      case HeightTarget(v) => outline := OutlineFromHeight(v, num);
    }

    /** The bunch length, height and emittance `_set_bunch` stores. */
    function BunchFor(l: Option<real>, e: Option<real>, h: Option<real>,
                      lengthSearch: Search, emittanceSearch: Search, num: Numerics): Result<(real, real, real)>
      requires beta != 0.0 && energy != 0.0
      reads this`time, this`well, this`length, this`area, this`halfHeight
    {
      match BunchOutline(l, e, h, lengthSearch, emittanceSearch, num)
      case Err(x) => Err(x)
      case Ok(o) => BunchParameters(o)
    }

    /** `_set_bunch` (bucket.py:497-524), and through it the three property
        setters (bucket.py:540-550): on success the bunch parameters are those
        of the chosen outline, on an error nothing is stored. */
    method SetBunch(l: Option<real>, e: Option<real>, h: Option<real>,
                    lengthSearch: Search, emittanceSearch: Search, num: Numerics)
      returns (err: Option<Error>)
      requires beta != 0.0 && energy != 0.0
      modifies this`bunchLength, this`bunchHeight, this`bunchEmittance
      ensures old(BunchFor(l, e, h, lengthSearch, emittanceSearch, num)).Err? ==>
                && err == Some(old(BunchFor(l, e, h, lengthSearch, emittanceSearch, num)).error)
                && bunchLength == old(bunchLength) && bunchHeight == old(bunchHeight)
                && bunchEmittance == old(bunchEmittance)
      ensures old(BunchFor(l, e, h, lengthSearch, emittanceSearch, num)).Ok? ==>
                && err == None
                && (bunchLength, bunchHeight, bunchEmittance)
                   == old(BunchFor(l, e, h, lengthSearch, emittanceSearch, num)).value
    {
      var outline := ChooseOutline(l, e, h, lengthSearch, emittanceSearch, num);
      err := StoreBunch(outline);
    }

    /** The last three lines of `_set_bunch`: the parameters of the outline. */
    method StoreBunch(outline: Result<Outline>) returns (err: Option<Error>)
      modifies this`bunchLength, this`bunchHeight, this`bunchEmittance
      ensures outline.Err? ==> err == Some(outline.error)
      ensures outline.Ok? && BunchParameters(outline.value).Err? ==>
                err == Some(BunchParameters(outline.value).error)
      ensures err.Some? ==>
                && bunchLength == old(bunchLength) && bunchHeight == old(bunchHeight)
                && bunchEmittance == old(bunchEmittance)
      ensures outline.Ok? && BunchParameters(outline.value).Ok? ==>
                err == None && (bunchLength, bunchHeight, bunchEmittance) == BunchParameters(outline.value).value
    {
      if outline.Err? {
        return Some(outline.error);
      }
      var ps := BunchParameters(outline.value);
      if ps.Err? {
        return Some(ps.error);
      }
      bunchLength, bunchHeight, bunchEmittance := ps.value.0, ps.value.1, ps.value.2;
      err := None;
    }
  }

  // ----- properties of the bunch targets -----

  /** Anything but exactly one target is refused with InputError. */
  lemma NotExactlyOneIsRefused(b: Bucket, l: Option<real>, e: Option<real>, h: Option<real>,
                               ls: Search, es: Search, num: Numerics)
    requires b.beta != 0.0 && b.energy != 0.0
    requires Given(l) + Given(e) + Given(h) != 1
    ensures b.BunchFor(l, e, h, ls, es, num) == Err(InputError)
  {
  }

  /** A zero target takes the degenerate outline, whatever the bucket and
      the searches: no search runs and the bunch length, height and
      emittance are all zero. */
  lemma ZeroTargetIsDegenerate(b: Bucket, l: Option<real>, e: Option<real>, h: Option<real>,
                               ls: Search, es: Search, num: Numerics)
    requires b.beta != 0.0 && b.energy != 0.0
    requires SelectTarget(l, e, h).Ok? && SelectTarget(l, e, h).value.value == 0.0
    ensures b.BunchOutline(l, e, h, ls, es, num) == Ok(ZeroOutline)
    ensures b.BunchFor(l, e, h, ls, es, num) == Ok((0.0, 0.0, 0.0))
  {
    ZeroOutlineIsDegenerate();
  }

  /** A non-zero target above the bucket's length, area or half height is
      refused with BunchSizeError before any search runs. */
  lemma OverCapacityIsRefused(b: Bucket, l: Option<real>, e: Option<real>, h: Option<real>,
                              ls: Search, es: Search, num: Numerics)
    requires b.beta != 0.0 && b.energy != 0.0
    requires SelectTarget(l, e, h).Ok?
    requires SelectTarget(l, e, h).value.value != 0.0
    requires SelectTarget(l, e, h).value.value
             > Capacity(SelectTarget(l, e, h).value, b.length, b.area, b.halfHeight)
    ensures forall l2, e2 :: b.BunchFor(l, e, h, l2, e2, num) == Err(BunchSizeError)
  {
  }

  /** When the emittance search reports a level outside the well, the
      outline is the separatrix itself: the bunch fills the bucket, with
      the bucket's half height and its area as emittance. */
  lemma FallbackFillsBucket(b: Bucket, target: real, ls: Search, es: Search, num: Numerics)
    requires b.beta != 0.0 && b.energy != 0.0
    requires b.SeparatrixOf(num) && b.BasicParametersHold() && |b.upperEnergyBound| == |b.time|
    requires EmittanceSearch(b.time, b.well, b.area, target, es, DefaultPoints, num).Ok?
    requires CrossingPoints(b.well, es.level) == Err(InputError)
    requires target != 0.0 && target <= b.area
    ensures b.BunchOutline(None, Some(target), None, ls, es, num) == Ok(b.separatrix)
    ensures b.BunchFor(None, Some(target), None, ls, es, num)
            == Ok((BunchLength(b.separatrix), b.halfHeight, b.area))
  {
    assert EmittanceOutlineAt(b.time, b.well, es.level, DefaultPoints, num) == Ok(b.separatrix);
    ClosedContourEmittance(b.time, b.upperEnergyBound);
  }

  /** Within capacity, a length target's outline is the outline at the
      level its search reports, and has the closed contour's shape; a
      search that fails passes its error on. */
  lemma LengthTargetOutline(b: Bucket, v: real, ls: Search, es: Search, num: Numerics)
    requires b.beta != 0.0 && b.energy != 0.0
    requires v != 0.0 && v <= b.length
    ensures LengthSearch(b.time, b.well, v, ls, num.interp).Err? ==>
              b.BunchOutline(Some(v), None, None, ls, es, num) == Err(LengthSearch(b.time, b.well, v, ls, num.interp).error)
    ensures LengthSearch(b.time, b.well, v, ls, num.interp).Ok? ==>
              b.BunchOutline(Some(v), None, None, ls, es, num) == OutlineAtLevel(b.time, b.well, ls.level, DefaultPoints, num)
    ensures OutlineAtLevel(b.time, b.well, ls.level, DefaultPoints, num).Ok? ==>
              && |OutlineAtLevel(b.time, b.well, ls.level, DefaultPoints, num).value.time| == 2 * DefaultPoints
              && Mirrored(OutlineAtLevel(b.time, b.well, ls.level, DefaultPoints, num).value.time)
              && AntiMirrored(OutlineAtLevel(b.time, b.well, ls.level, DefaultPoints, num).value.energy)
  {
    assert SelectTarget(Some(v), None, None) == Ok(LengthTarget(v));
    assert Capacity(LengthTarget(v), b.length, b.area, b.halfHeight) == b.length;
    OutlineAtLevelShape(b.time, b.well, ls.level, DefaultPoints, num);
  }

  /** Both searches start at half the well's maximum. When every sample of
      a well with a positive maximum lies above that guess, the first
      evaluation finds no crossing and its IndexError escapes: a length or
      emittance target within capacity is refused, whatever the rest of
      the run. */
  lemma GuessWithoutCrossingFails(b: Bucket, v: real, num: Numerics)
    requires b.beta != 0.0 && b.energy != 0.0
    requires |b.well| > 0 && Max(b.well) > 0.0
    requires forall k :: 0 <= k < |b.well| ==> b.well[k] > InitialGuess(b.well)
    requires v != 0.0
    ensures v <= b.length ==> forall ls, es :: b.BunchOutline(Some(v), None, None, ls, es, num) == Err(IndexError)
    ensures v <= b.area ==> forall ls, es :: b.BunchOutline(None, Some(v), None, ls, es, num) == Err(IndexError)
  {
    var g := InitialGuess(b.well);
    assert CrossingPoints(b.well, g) == Err(IndexError);
    assert SelectTarget(Some(v), None, None) == Ok(LengthTarget(v));
    assert SelectTarget(None, Some(v), None) == Ok(EmittanceTarget(v));
    var t, w, a := b.time, b.well, b.area;
    forall s: Search
      ensures LengthSearch(t, w, v, s, num.interp) == Err(IndexError)
      ensures EmittanceSearch(t, w, a, v, s, DefaultPoints, num) == Err(IndexError)
    {
      SearchFromOutcome(w, x => LengthMismatch(t, w, v, x, num.interp), s);
      SearchFromOutcome(w, x => EmittanceMismatch(t, w, a, v, x, DefaultPoints, num), s);
    }
  }

  /** An outline found at a level has the closed contour's shape over nPts
      crossing times. */
  lemma OutlineAtLevelShape(time: seq<real>, well: seq<real>, level: real, nPts: nat, num: Numerics)
    requires nPts > 0
    ensures OutlineAtLevel(time, well, level, nPts, num).Ok? ==>
              && |OutlineAtLevel(time, well, level, nPts, num).value.time| == 2 * nPts
              && Mirrored(OutlineAtLevel(time, well, level, nPts, num).value.time)
              && AntiMirrored(OutlineAtLevel(time, well, level, nPts, num).value.energy)
  {
    var c := InterpTimeFromPotential(time, well, level, nPts, num.interp);
    if c.Ok? {
      assert |c.value.times| == nPts;
      if LevelOutline(c.value.times, num).Ok? {
        LevelOutlineShape(c.value.times, num);
      }
    }
  }

  // ----- what the wiring means -----

  /** After `_identify_substructure` the primary has sub-buckets exactly
      when some inner well is a root, and they are the roots' buckets; a
      sub-bucket lists another as its own exactly when that well is its
      immediate child, and only when the primary has roots. */
  lemma WiredMeaning(b: Bucket)
    requires b.Wired()
    ensures b.hasSubs <==> exists i :: 0 <= i < |b.innerTimes| && Root(b.innerTimes, i)
    ensures forall i :: 0 <= i < |b.innerTimes| ==>
              (b.innerBuckets[i] in b.subBuckets <==> Root(b.innerTimes, i))
    ensures forall i, c :: 0 <= i < |b.innerTimes| && 0 <= c < |b.innerTimes| ==>
              ((b.innerBuckets[c] in b.innerBuckets[i].subBuckets)
               <==> b.hasSubs && ImmediateChild(b.innerTimes, c, i))
  {
    var ts, n := b.innerTimes, |b.innerTimes|;
    forall i | 0 <= i < n
      ensures b.innerBuckets[i] in b.subBuckets <==> Root(ts, i)
    {
      WiredRoot(b, i);
    }
    if b.hasSubs {
      WiredFirstRoot(b);
    }
    forall i, c | 0 <= i < n && 0 <= c < n
      ensures (b.innerBuckets[c] in b.innerBuckets[i].subBuckets)
              <==> b.hasSubs && ImmediateChild(ts, c, i)
    {
      WiredChild(b, i, c);
    }
  }

  /** Inner bucket i is one of the primary's sub-buckets exactly when its
      well is a root. */
  lemma WiredRoot(b: Bucket, i: nat)
    requires b.Wired() && i < |b.innerTimes|
    ensures b.innerBuckets[i] in b.subBuckets <==> Root(b.innerTimes, i)
  {
    var ts, n := b.innerTimes, |b.innerTimes|;
    RootListMembers(ts, n);
    var roots := RootList(ts, n);
    if Root(ts, i) {
      assert i in roots;
      var k :| 0 <= k < |roots| && roots[k] == i;
      assert b.subBuckets[k] == b.innerBuckets[i];
    }
    if b.innerBuckets[i] in b.subBuckets {
      var k :| 0 <= k < |b.subBuckets| && b.subBuckets[k] == b.innerBuckets[i];
      assert b.innerBuckets[roots[k]] == b.innerBuckets[i];
      assert roots[k] == i;
      assert roots[k] in roots;
    }
  }

  /** A primary with sub-buckets has a root among its inner wells. */
  lemma WiredFirstRoot(b: Bucket)
    requires b.Wired() && b.hasSubs
    ensures exists i :: 0 <= i < |b.innerTimes| && Root(b.innerTimes, i)
  {
    var ts, n := b.innerTimes, |b.innerTimes|;
    RootListMembers(ts, n);
    var roots := RootList(ts, n);
    var r := roots[0];
    assert r in roots;
    assert Root(ts, r);
  }

  /** Inner bucket c is among inner bucket i's sub-buckets exactly when the
      primary has roots and well c is an immediate child of well i. */
  lemma WiredChild(b: Bucket, i: nat, c: nat)
    requires b.Wired() && i < |b.innerTimes| && c < |b.innerTimes|
    ensures (b.innerBuckets[c] in b.innerBuckets[i].subBuckets)
            <==> b.hasSubs && ImmediateChild(b.innerTimes, c, i)
  {
    var ts, n := b.innerTimes, |b.innerTimes|;
    ChildListMembers(ts, i, n);
    var kids := ChildList(ts, i, n);
    assert b.WiredTo(b.innerBuckets[i], Pick(b.innerBuckets, kids), b.hasSubs);
    if b.hasSubs && ImmediateChild(ts, c, i) {
      assert c in kids;
      var k :| 0 <= k < |kids| && kids[k] == c;
      assert b.innerBuckets[i].subBuckets[k] == b.innerBuckets[c];
    }
    if b.innerBuckets[c] in b.innerBuckets[i].subBuckets {
      assert b.hasSubs;
      var k :| 0 <= k < |kids| && b.innerBuckets[i].subBuckets[k] == b.innerBuckets[c];
      assert b.innerBuckets[kids[k]] == b.innerBuckets[c];
      assert kids[k] == c;
      assert kids[k] in kids;
    }
  }

  /** When no two inner wells share both end points and there is at least
      one, the primary bucket has sub-buckets. */
  lemma DistinctSpansGiveSubBuckets(b: Bucket)
    requires b.Wired() && |b.innerTimes| > 0 && DistinctSpans(b.innerTimes)
    ensures b.hasSubs
  {
    WiredMeaning(b);
    DistinctSpansHaveRoot(b.innerTimes);
  }
}
