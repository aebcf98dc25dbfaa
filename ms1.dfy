/** MS1 isotope-pattern picking: the monoisotopic peak M0 closest to the
    precursor m/z, then the peaks of the isotope steps M+1, M+2, ... */
module Ms1 {
  import opened PyStr
  import opened Spectra

  /** The neutron mass used for isotope spacing (`mass_i`). */
  const MassNeutron: real := 1.0033548

  function Abs(x: real): real { if x < 0.0 then -x else x }

  /** The distance of a peak from a target m/z. */
  function Dist(m: real, target: real): real { Abs(m - target) }

  /** The M0 window: `mz * tol * 1e-6` in ppm mode, else the absolute tolerance. */
  function MzWindow(mz: real, tol: real, ppm: bool): real {
    if ppm then mz * tol / 1000000.0 else tol
  }

  /** The running state of `_find_m0`: found flag, index, shrinking window. */
  datatype M0State = M0State(found: bool, idx: nat, window: real)

  /** The state after the first `n` peaks. */
  function M0Scan(mz: real, arr: seq<real>, tol: real, n: nat): (s: M0State)
    requires n <= |arr|
  {
    if n == 0 then M0State(false, 0, tol)
    else
      var s := M0Scan(mz, arr, tol, n - 1);
      if Dist(arr[n - 1], mz) <= s.window then M0State(true, n - 1, Dist(arr[n - 1], mz)) else s
  }

  /** What the scan computes: a peak is found iff some peak lies within the
      window; the chosen one is at minimal distance and, because the comparison
      is `<=`, the last of the peaks at that distance; index 0 when none. */
  lemma {:induction false} M0ScanCharacterization(mz: real, arr: seq<real>, tol: real, n: nat)
    requires n <= |arr|
    ensures M0Scan(mz, arr, tol, n).found <==> exists k :: 0 <= k < n && Dist(arr[k], mz) <= tol
    ensures M0Scan(mz, arr, tol, n).found ==>
      var i := M0Scan(mz, arr, tol, n).idx;
      i < n && Dist(arr[i], mz) <= tol && M0Scan(mz, arr, tol, n).window == Dist(arr[i], mz)
      && (forall k :: 0 <= k < n ==> Dist(arr[i], mz) <= Dist(arr[k], mz))
      && (forall k :: i < k < n ==> Dist(arr[i], mz) < Dist(arr[k], mz))
    ensures !M0Scan(mz, arr, tol, n).found ==>
      M0Scan(mz, arr, tol, n).idx == 0 && M0Scan(mz, arr, tol, n).window == tol
      && forall k :: 0 <= k < n ==> Dist(arr[k], mz) > tol
  {
    if n > 0 {
      M0ScanCharacterization(mz, arr, tol, n - 1);
    }
  }

  /** `_find_m0` (and `_func_a` of the older module, which is the same loop). */
  method FindM0(mz: real, arr: seq<real>, tol: real) returns (found: bool, idx: nat)
    ensures found == M0Scan(mz, arr, tol, |arr|).found && idx == M0Scan(mz, arr, tol, |arr|).idx
    ensures found <==> exists k :: 0 <= k < |arr| && Dist(arr[k], mz) <= tol
    ensures found ==> idx < |arr| && Dist(arr[idx], mz) <= tol
    ensures found ==> forall k :: 0 <= k < |arr| ==> Dist(arr[idx], mz) <= Dist(arr[k], mz)
    ensures found ==> forall k :: idx < k < |arr| ==> Dist(arr[idx], mz) < Dist(arr[k], mz)
    ensures !found ==> idx == 0
  {
    found, idx := false, 0;
    var window := tol;
    for k := 0 to |arr|
      invariant M0Scan(mz, arr, tol, k) == M0State(found, idx, window)
    {
      if Dist(arr[k], mz) <= window {
        found, idx, window := true, k, Dist(arr[k], mz);
      }
    }
    M0ScanCharacterization(mz, arr, tol, |arr|);
  }

  /** The indices among the first `n` peaks within `tol` of `center`, ascending. */
  function Hits(arr: seq<real>, center: real, tol: real, n: nat): (h: seq<nat>)
    requires n <= |arr|
    ensures forall i :: 0 <= i < |h| ==> h[i] < n
    ensures forall i, j :: 0 <= i < j < |h| ==> h[i] < h[j]
    ensures forall j :: 0 <= j < n ==> (j in h <==> Dist(arr[j], center) <= tol)
  {
    if n == 0 then []
    else Hits(arr, center, tol, n - 1) + (if Dist(arr[n - 1], center) <= tol then [n - 1] else [])
  }

  /** The isotope spacing `neutron / abs(charge)`. */
  function Spacing(neutron: real, charge: int): real
    requires charge != 0
  {
    neutron / (if charge < 0 then -charge else charge) as real
  }

  /** The centre of isotope step `k`. */
  function Center(mz: real, delta: real, k: nat): real { mz + k as real * delta }

  lemma CenterNext(mz: real, delta: real, k: nat)
    ensures Center(mz, delta, k + 1) == Center(mz, delta, k) + delta
  {
  }

  /** The peaks of isotope step `k`. */
  function StepHits(arr: seq<real>, mz: real, delta: real, tol: real, k: nat): seq<nat> {
    Hits(arr, Center(mz, delta, k), tol, |arr|)
  }

  /** Isotope steps `k` .. `last`; the scan stops at the first step without a peak. */
  function IsoSteps(arr: seq<real>, mz: real, delta: real, tol: real, k: nat, last: int): (r: seq<nat>)
    ensures forall i :: 0 <= i < |r| ==> r[i] < |arr|
    decreases last - k
  {
    if k > last then []
    else
      var h := StepHits(arr, mz, delta, tol, k);
      if h == [] then [] else h + IsoSteps(arr, mz, delta, tol, k + 1, last)
  }

  /** Every index the scan records lies within `tol` of one of the step centres. */
  lemma {:induction false} IsoStepsSound(arr: seq<real>, mz: real, delta: real, tol: real, k: nat, last: int, j: nat)
    requires j in IsoSteps(arr, mz, delta, tol, k, last)
    ensures exists s: nat :: k <= s <= last && Dist(arr[j], Center(mz, delta, s)) <= tol
    decreases last - k
  {
    var h := StepHits(arr, mz, delta, tol, k);
    if j in h {
      assert Dist(arr[j], Center(mz, delta, k)) <= tol;
    } else {
      IsoStepsSound(arr, mz, delta, tol, k + 1, last, j);
    }
  }

  /** A step's peaks are all recorded when every step up to it has a peak. */
  lemma {:induction false} IsoStepsComplete(arr: seq<real>, mz: real, delta: real, tol: real, k: nat, last: int, s: nat, j: nat)
    requires k <= s <= last && j < |arr|
    requires forall t: nat :: k <= t <= s ==> StepHits(arr, mz, delta, tol, t) != []
    requires Dist(arr[j], Center(mz, delta, s)) <= tol
    ensures j in IsoSteps(arr, mz, delta, tol, k, last)
    decreases s - k
  {
    assert StepHits(arr, mz, delta, tol, k) != [];
    if s > k {
      IsoStepsComplete(arr, mz, delta, tol, k + 1, last, s, j);
    }
  }

  /** No step after an empty step contributes. */
  lemma IsoStepsStop(arr: seq<real>, mz: real, delta: real, tol: real, k: nat, last: int)
    requires k <= last
    requires StepHits(arr, mz, delta, tol, k) == []
    ensures IsoSteps(arr, mz, delta, tol, k, last) == []
  {
  }

  /** The inner loop of `_find_iso_peaks`: every peak within `tol` of `center`. */
  method StepPeaks(arr: seq<real>, center: real, tol: real) returns (step: seq<nat>)
    ensures step == Hits(arr, center, tol, |arr|)
  {
    step := [];
    for j := 0 to |arr|
      invariant step == Hits(arr, center, tol, j)
    {
      if Dist(arr[j], center) <= tol {
        step := step + [j];
      }
    }
  }

  /** `_find_iso_peaks` (and `_func_b` of the older module with its own
      `neutron` constant): ZeroDivisionError for charge 0 once a step is taken. */
  method FindIsoPeaks(mz: real, arr: seq<real>, charge: int, tol: real, maxCnt: int, neutron: real)
    returns (r: Result<seq<nat>>)
    ensures maxCnt >= 2 && charge == 0 <==> r.Err?
    ensures r.Err? ==> r.exc == ZeroDivisionError
    ensures r.Ok? && maxCnt >= 2 ==> r.value == IsoSteps(arr, mz, Spacing(neutron, charge), tol, 1, maxCnt - 1)
    ensures r.Ok? && maxCnt < 2 ==> r.value == []
  {
    if maxCnt < 2 {
      return Ok([]);
    }
    if charge == 0 {
      return Err(ZeroDivisionError);
    }
    var delta := Spacing(neutron, charge);
    var found: seq<nat> := [];
    var center := mz;
    var k := 0;
    var stopped := false;
    while k < maxCnt - 1 && !stopped
      invariant 0 <= k <= maxCnt - 1
      invariant center == Center(mz, delta, k)
      invariant stopped ==> found == IsoSteps(arr, mz, delta, tol, 1, maxCnt - 1)
      invariant !stopped ==> found + IsoSteps(arr, mz, delta, tol, k + 1, maxCnt - 1)
                             == IsoSteps(arr, mz, delta, tol, 1, maxCnt - 1)
      decreases maxCnt - 1 - k, if stopped then 0 else 1
    {
      CenterNext(mz, delta, k);
      center := center + delta;
      var step := StepPeaks(arr, center, tol);
      assert step == StepHits(arr, mz, delta, tol, k + 1);
      if step == [] {
        assert IsoSteps(arr, mz, delta, tol, k + 1, maxCnt - 1) == [];
        assert found + [] == found;
        stopped := true;
      } else {
        assert IsoSteps(arr, mz, delta, tol, k + 1, maxCnt - 1)
            == step + IsoSteps(arr, mz, delta, tol, k + 2, maxCnt - 1);
        assert found + step + IsoSteps(arr, mz, delta, tol, k + 2, maxCnt - 1)
            == found + (step + IsoSteps(arr, mz, delta, tol, k + 2, maxCnt - 1));
        found := found + step;
      }
      k := k + 1;
    }
    r := Ok(found);
  }

  /** The peaks `ProcessedMS1` keeps, as a value: none for an empty raw
      spectrum or when no M0 is found; otherwise M0 followed by the isotope
      steps, or ZeroDivisionError for charge 0 once a step is taken. */
  function Ms1Peaks(mz: real, raw: Spectrum, charge: int, tol: real, ppm: bool,
                    isoTol: real, maxCnt: int, neutron: real): Result<Peaks>
    requires |raw.mz| == |raw.ints|
  {
    if !NonEmpty(raw) then Ok(NoPeaks)
    else
      var s := M0Scan(mz, raw.mz, MzWindow(mz, tol, ppm), |raw.mz|);
      if !s.found then Ok(NoPeaks)
      else if maxCnt >= 2 && charge == 0 then Err(ZeroDivisionError)
      else
        M0ScanCharacterization(mz, raw.mz, MzWindow(mz, tol, ppm), |raw.mz|);
        var iso := if maxCnt >= 2 then IsoSteps(raw.mz, mz, Spacing(neutron, charge), isoTol, 1, maxCnt - 1) else [];
        Ok(At(raw, [s.idx] + iso))
  }

  /** `ProcessedMS1`: no peaks for an empty raw spectrum or when no M0 is found;
      otherwise M0 followed by the isotope peaks, each taken from the raw spectrum
      at its index. */
  method ProcessMs1(mz: real, raw: Spectrum, charge: int, tol: real, ppm: bool,
                    isoTol: real, maxCnt: int, neutron: real)
    returns (r: Result<Peaks>)
    requires |raw.mz| == |raw.ints|
    ensures r == Ms1Peaks(mz, raw, charge, tol, ppm, isoTol, maxCnt, neutron)
    ensures r.Ok? ==> DrawnFrom(r.value, raw)
    ensures !NonEmpty(raw) ==> r == Ok(NoPeaks)
    ensures NonEmpty(raw) && !(exists k :: 0 <= k < |raw.mz| && Dist(raw.mz[k], mz) <= MzWindow(mz, tol, ppm))
            ==> r == Ok(NoPeaks)
    ensures r.Ok? && HasPeaks(r.value) ==>
      var m := r.value.idx[0];
      Dist(raw.mz[m], mz) <= MzWindow(mz, tol, ppm)
      && (forall k :: 0 <= k < |raw.mz| ==> Dist(raw.mz[m], mz) <= Dist(raw.mz[k], mz))
      && (forall k :: m < k < |raw.mz| ==> Dist(raw.mz[m], mz) < Dist(raw.mz[k], mz))
      && (maxCnt >= 2 && charge != 0 ==>
            r.value.idx[1..] == IsoSteps(raw.mz, mz, Spacing(neutron, charge), isoTol, 1, maxCnt - 1))
      && (maxCnt < 2 ==> r.value.idx == [m])
    ensures r.Err? <==> NonEmpty(raw) && (exists k :: 0 <= k < |raw.mz| && Dist(raw.mz[k], mz) <= MzWindow(mz, tol, ppm))
                        && maxCnt >= 2 && charge == 0
  {
    if !NonEmpty(raw) {
      return Ok(NoPeaks);
    }
    var found, idx := FindM0(mz, raw.mz, MzWindow(mz, tol, ppm));
    if !found {
      return Ok(NoPeaks);
    }
    var iso := FindIsoPeaks(mz, raw.mz, charge, isoTol, maxCnt, neutron);
    if iso.Err? {
      return Err(iso.exc);
    }
    var all := [idx] + iso.value;
    assert all[1..] == iso.value;
    r := Ok(At(raw, all));
  }
}
