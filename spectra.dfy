/** Mass spectra: two equally long arrays of m/z values and intensities, stored
    sorted by m/z. M/z and intensity are modelled as reals. */
module Spectra {
  import opened PyStr
  import opened Sorting

  datatype Peak = Peak(mz: real, intensity: real)

  datatype Spectrum = Spectrum(mz: seq<real>, ints: seq<real>)

  function MzKey(p: Peak): real { p.mz }

  /** The peaks of two equally long arrays, position by position. */
  function Zip(mz: seq<real>, ints: seq<real>): (ps: seq<Peak>)
    requires |mz| == |ints|
    ensures |ps| == |mz|
    ensures forall i :: 0 <= i < |ps| ==> ps[i] == Peak(mz[i], ints[i])
  {
    seq(|mz|, i requires 0 <= i < |mz| => Peak(mz[i], ints[i]))
  }

  /** `Spectrum(mz_array, int_array)`: ValueError when the lengths differ;
      otherwise both arrays under one permutation (`np.argsort` of the m/z
      values), so the stored m/z values ascend and the (m/z, intensity) pairs are
      exactly the given ones. */
  function MakeSpectrum(mz: seq<real>, ints: seq<real>): (r: Result<Spectrum>)
    ensures r.Err? <==> |mz| != |ints|
    ensures r.Err? ==> r.exc == ValueError
    ensures r.Ok? ==> |r.value.mz| == |r.value.ints| == |mz|
    ensures r.Ok? ==> forall i, j :: 0 <= i < j < |r.value.mz| ==> r.value.mz[i] <= r.value.mz[j]
    ensures r.Ok? ==> multiset(Zip(r.value.mz, r.value.ints)) == multiset(Zip(mz, ints))
  {
    if |mz| != |ints| then Err(ValueError)
    else
      var ps := SortBy(Zip(mz, ints), MzKey);
      var sp := Spectrum(seq(|ps|, i requires 0 <= i < |ps| => ps[i].mz),
                         seq(|ps|, i requires 0 <= i < |ps| => ps[i].intensity));
      assert Zip(sp.mz, sp.ints) == ps;
      assert forall i, j :: 0 <= i < j < |ps| ==> MzKey(ps[i]) <= MzKey(ps[j]);
      Ok(sp)
  }

  /** `Spectrum.__bool__`: a spectrum is truthy iff it has a peak. */
  predicate NonEmpty(s: Spectrum) { |s.mz| != 0 }

  /** `Spectrum.__len__`. */
  function Len(s: Spectrum): nat { |s.mz| }

  /** A constructed spectrum is truthy exactly when the input arrays are not empty. */
  lemma MakeSpectrumNonEmpty(mz: seq<real>, ints: seq<real>)
    requires |mz| == |ints|
    ensures MakeSpectrum(mz, ints).Ok?
    ensures NonEmpty(MakeSpectrum(mz, ints).value) <==> mz != []
    ensures Len(MakeSpectrum(mz, ints).value) == |mz|
  {
  }

  /** Peaks picked from a raw spectrum: their raw indices (`idx_array`) and
      their m/z values and intensities. */
  datatype Peaks = Peaks(idx: seq<nat>, mz: seq<real>, ints: seq<real>)

  const NoPeaks := Peaks([], [], [])

  /** `__bool__` of the processed MS1 and MS2 objects. */
  predicate HasPeaks(p: Peaks) { |p.mz| != 0 }

  /** Every picked peak is the raw peak at its recorded index. */
  predicate DrawnFrom(p: Peaks, raw: Spectrum) {
    |p.idx| == |p.mz| == |p.ints|
    && (forall k :: 0 <= k < |p.idx| ==> p.idx[k] < |raw.mz| && p.idx[k] < |raw.ints|)
    && (forall k :: 0 <= k < |p.idx| ==> p.mz[k] == raw.mz[p.idx[k]] && p.ints[k] == raw.ints[p.idx[k]])
  }

  /** The peaks of `raw` at the indices `idx`. */
  function At(raw: Spectrum, idx: seq<nat>): (p: Peaks)
    requires |raw.mz| == |raw.ints|
    requires forall k :: 0 <= k < |idx| ==> idx[k] < |raw.mz|
    ensures p.idx == idx && DrawnFrom(p, raw)
  {
    Peaks(idx, seq(|idx|, k requires 0 <= k < |idx| => raw.mz[idx[k]]),
               seq(|idx|, k requires 0 <= k < |idx| => raw.ints[idx[k]]))
  }
}
