/** MS2 preprocessing: removal of the precursor region, relative-intensity
    denoising, a per-50-Da top-N cap and a global fragment cap. Every stage is a
    boolean-mask selection over the peaks still present, so the surviving peaks
    keep their raw indices. */
module Ms2 {
  import opened PyStr
  import opened Sorting
  import opened Spectra
  import Ms1

  predicate Increasing(s: seq<nat>) {
    forall i, j :: 0 <= i < j < |s| ==> s[i] < s[j]
  }

  /** `np.where(mask)[0]`: the positions holding true, ascending. */
  function Where(mask: seq<bool>): (w: seq<nat>)
    ensures forall i :: 0 <= i < |w| ==> w[i] < |mask|
    ensures Increasing(w)
    ensures forall k :: 0 <= k < |mask| ==> (k in w <==> mask[k])
    decreases |mask|
  {
    if mask == [] then []
    else Where(mask[..|mask| - 1]) + (if mask[|mask| - 1] then [|mask| - 1] else [])
  }

  predicate Aligned(p: Peaks) { |p.idx| == |p.mz| == |p.ints| }

  /** `arr[mask]` applied to the index, m/z and intensity arrays alike. */
  function Select(p: Peaks, mask: seq<bool>): (r: Peaks)
    requires Aligned(p) && |mask| == |p.idx|
    ensures Aligned(r)
  {
    var w := Where(mask);
    Peaks(seq(|w|, i requires 0 <= i < |w| => p.idx[w[i]]),
          seq(|w|, i requires 0 <= i < |w| => p.mz[w[i]]),
          seq(|w|, i requires 0 <= i < |w| => p.ints[w[i]]))
  }

  /** A selection keeps exactly the masked peaks of a raw-indexed peak list, in
      order, each still the raw peak at its index. */
  lemma SelectFacts(p: Peaks, mask: seq<bool>, raw: Spectrum)
    requires DrawnFrom(p, raw) && Increasing(p.idx) && |mask| == |p.idx|
    ensures DrawnFrom(Select(p, mask), raw) && Increasing(Select(p, mask).idx)
    ensures forall k :: 0 <= k < |mask| ==> (p.idx[k] in Select(p, mask).idx <==> mask[k])
    ensures forall j :: j in Select(p, mask).idx ==> j in p.idx
  {
    SelectMembers(p, mask);
    SelectSubset(p, mask);
  }

  lemma SelectMembers(p: Peaks, mask: seq<bool>)
    requires Aligned(p) && Increasing(p.idx) && |mask| == |p.idx|
    ensures forall k :: 0 <= k < |mask| ==> (p.idx[k] in Select(p, mask).idx <==> mask[k])
  {
    var w := Where(mask);
    var r := Select(p, mask);
    forall k | 0 <= k < |mask| ensures p.idx[k] in r.idx <==> mask[k] {
      if mask[k] {
        var i :| 0 <= i < |w| && w[i] == k;
        assert r.idx[i] == p.idx[k];
      }
      if p.idx[k] in r.idx {
        var i :| 0 <= i < |r.idx| && r.idx[i] == p.idx[k];
        assert p.idx[w[i]] == p.idx[k];
        assert w[i] == k;
      }
    }
  }

  lemma SelectSubset(p: Peaks, mask: seq<bool>)
    requires Aligned(p) && |mask| == |p.idx|
    ensures forall j :: j in Select(p, mask).idx ==> j in p.idx
  {
    var w := Where(mask);
    var r := Select(p, mask);
    forall j | j in r.idx ensures j in p.idx {
      var i :| 0 <= i < |r.idx| && r.idx[i] == j;
      assert p.idx[w[i]] == j;
    }
  }

  /** The mask `s >= t`. */
  function AtLeastMask(s: seq<real>, t: real): (m: seq<bool>)
    ensures |m| == |s| && forall k :: 0 <= k < |s| ==> m[k] == (s[k] >= t)
  {
    seq(|s|, k requires 0 <= k < |s| => s[k] >= t)
  }

  /** The mask `s < t`. */
  function BelowMask(s: seq<real>, t: real): (m: seq<bool>)
    ensures |m| == |s| && forall k :: 0 <= k < |s| ==> m[k] == (s[k] < t)
  {
    seq(|s|, k requires 0 <= k < |s| => s[k] < t)
  }

  /** The peaks below the de-precursor bound `mz - 1.5 - tol`. */
  function DeprecursorBound(pre: real, tol: real, ppm: bool): real {
    pre - 1.5 - Ms1.MzWindow(pre, tol, ppm)
  }

  /** `_deprecursor`: the raw peaks whose m/z is below `bound`, with their indices. */
  function DeprecursorPeaks(raw: Spectrum, bound: real): (r: Peaks)
    requires |raw.mz| == |raw.ints|
  {
    At(raw, Where(BelowMask(raw.mz, bound)))
  }

  lemma DeprecursorFacts(raw: Spectrum, bound: real)
    requires |raw.mz| == |raw.ints|
    ensures DrawnFrom(DeprecursorPeaks(raw, bound), raw) && Increasing(DeprecursorPeaks(raw, bound).idx)
    ensures forall j :: 0 <= j < |raw.mz| ==> (j in DeprecursorPeaks(raw, bound).idx <==> raw.mz[j] < bound)
    ensures forall k :: 0 <= k < |DeprecursorPeaks(raw, bound).mz| ==> DeprecursorPeaks(raw, bound).mz[k] < bound
  {
    var mask := BelowMask(raw.mz, bound);
    var r := DeprecursorPeaks(raw, bound);
    forall k | 0 <= k < |r.mz| ensures r.mz[k] < bound {
      assert mask[r.idx[k]];
    }
  }

  /** The largest element (`sorted_int[-1]`). */
  function MaxOf(s: seq<real>): (m: real)
    requires s != []
    ensures m in s
    ensures forall i :: 0 <= i < |s| ==> s[i] <= m
  {
    if |s| == 1 then s[0]
    else
      var m := MaxOf(s[1..]);
      assert forall i :: 1 <= i < |s| ==> s[i] == s[1..][i - 1];
      if s[0] >= m then s[0] else m
  }

  /** `rel_int_denoise_cutoff * sorted_int[-1]`. */
  function DenoiseThreshold(ints: seq<real>, cutoff: real): real
    requires ints != []
  {
    cutoff * MaxOf(ints)
  }

  /** `_denoise`: keep the peaks with intensity at least `cutoff` times the maximum. */
  function DenoisePeaks(p: Peaks, cutoff: real): (r: Peaks)
    requires Aligned(p) && p.ints != []
  {
    Select(p, AtLeastMask(p.ints, DenoiseThreshold(p.ints, cutoff)))
  }

  /** `mz // 50`: the index of the 50-Da mass bin of an m/z value. */
  function Bin(m: real): int {
    (m / 50.0).Floor
  }

  /** The positions of the peaks in bin `g`, ascending (`np.where(group_arr == group)`). */
  function BinIdx(mz: seq<real>, g: int): (w: seq<nat>)
    ensures forall i :: 0 <= i < |w| ==> w[i] < |mz|
    ensures forall k :: 0 <= k < |mz| ==> (k in w <==> Bin(mz[k]) == g)
  {
    Where(seq(|mz|, k requires 0 <= k < |mz| => Bin(mz[k]) == g))
  }

  /** The values of `s` at the positions `w`. */
  function ValuesAt(s: seq<real>, w: seq<nat>): (r: seq<real>)
    requires forall i :: 0 <= i < |w| ==> w[i] < |s|
    ensures |r| == |w| && forall i :: 0 <= i < |w| ==> r[i] == s[w[i]]
  {
    seq(|w|, i requires 0 <= i < |w| => s[w[i]])
  }

  /** The intensities of bin `g`. */
  function BinInts(mz: seq<real>, ints: seq<real>, g: int): seq<real>
    requires |mz| == |ints|
  {
    ValuesAt(ints, BinIdx(mz, g))
  }

  /** A bin is crowded when it holds more than `topN` peaks. */
  predicate Crowded(mz: seq<real>, g: int, topN: int)
  {
    |BinIdx(mz, g)| > topN
  }

  /** The keep-mask `ms2_denoise` returns: a peak in a crowded bin is kept iff its
      intensity reaches the `topN`-th largest intensity of its bin; every peak of
      an uncrowded bin is kept. */
  function Ms2DenoiseMask(mz: seq<real>, ints: seq<real>, topN: int): (keep: seq<bool>)
    requires |mz| == |ints| && topN >= 1
    ensures |keep| == |mz|
  {
    seq(|mz|, k requires 0 <= k < |mz| =>
      var g := Bin(mz[k]);
      if Crowded(mz, g, topN) then ints[k] >= NthLargest(BinInts(mz, ints, g), topN) else true)
  }

  /** In a crowded bin at least `topN` intensities reach the threshold and fewer
      than `topN` exceed it; a peak is kept exactly when it reaches it. */
  lemma Ms2DenoiseCrowded(mz: seq<real>, ints: seq<real>, topN: int, g: int)
    requires |mz| == |ints| && topN >= 1
    requires Crowded(mz, g, topN)
    ensures var t := NthLargest(BinInts(mz, ints, g), topN);
      CountIf(BinInts(mz, ints, g), AtLeast(t)) >= topN
      && CountIf(BinInts(mz, ints, g), Above(t)) < topN
      && forall k :: 0 <= k < |mz| && Bin(mz[k]) == g ==>
           (Ms2DenoiseMask(mz, ints, topN)[k] <==> ints[k] >= t)
  {
    NthLargestReached(BinInts(mz, ints, g), topN);
    NthLargestExceeded(BinInts(mz, ints, g), topN);
  }

  /** Within one bin, every dropped peak is strictly weaker than every kept one,
      and uncrowded bins lose nothing. */
  lemma Ms2DenoiseOrder(mz: seq<real>, ints: seq<real>, topN: int, k: nat, k': nat)
    requires |mz| == |ints| && topN >= 1
    requires k < |mz| && k' < |mz| && Bin(mz[k]) == Bin(mz[k'])
    ensures !Crowded(mz, Bin(mz[k]), topN) ==> Ms2DenoiseMask(mz, ints, topN)[k]
    ensures Ms2DenoiseMask(mz, ints, topN)[k] && !Ms2DenoiseMask(mz, ints, topN)[k'] ==> ints[k'] < ints[k]
  {
  }

  /** Equal intensities are never dropped, however crowded their bin. */
  lemma Ms2DenoiseUniform(mz: seq<real>, ints: seq<real>, topN: int, c: real)
    requires |mz| == |ints| && topN >= 1
    requires forall i :: 0 <= i < |ints| ==> ints[i] == c
    ensures forall k :: 0 <= k < |mz| ==> Ms2DenoiseMask(mz, ints, topN)[k]
  {
    forall k | 0 <= k < |mz| ensures Ms2DenoiseMask(mz, ints, topN)[k] {
      var g := Bin(mz[k]);
      if Crowded(mz, g, topN) {
        var b := BinInts(mz, ints, g);
        NthLargestUniform(b, topN, c);
      }
      MaskEntry(mz, ints, topN, k);
    }
  }

  /** Ties let a bin keep more than `topN` peaks: three equal intensities in one
      bin with `topN` = 2 are all kept. */
  lemma Ms2DenoiseTiesExceedCap()
    ensures Bin(10.0) == Bin(20.0) == Bin(30.0)
    ensures forall k :: 0 <= k < 3 ==> Ms2DenoiseMask([10.0, 20.0, 30.0], [5.0, 5.0, 5.0], 2)[k]
  {
    Ms2DenoiseUniform([10.0, 20.0, 30.0], [5.0, 5.0, 5.0], 2, 5.0);
  }

  /** Every order statistic of a constant sequence is that constant. */
  lemma NthLargestUniform(s: seq<real>, n: nat, c: real)
    requires 1 <= n <= |s|
    requires forall i :: 0 <= i < |s| ==> s[i] == c
    ensures NthLargest(s, n) == c
  {
    NthLargestIn(s, n);
  }

  /** `_keep_top_n_per_50_da`: skipped when `topN <= 1`. */
  function KeepTopNPer50Da(p: Peaks, topN: int): (r: Peaks)
    requires Aligned(p)
  {
    if topN <= 1 then p else Select(p, Ms2DenoiseMask(p.mz, p.ints, topN))
  }

  /** `_calc_top_n_frag`: `int(20 + 0.05 * mz)`. */
  function TopNFrag(pre: real): (n: int)
    ensures pre >= 0.0 ==> n >= 20
  {
    Trunc(20.0 + 0.05 * pre)
  }

  /** The global cap of `_preprocess`: with more than `TopNFrag(pre)` peaks,
      keep those reaching the `TopNFrag(pre)`-th largest intensity. */
  function GlobalCap(p: Peaks, pre: real): (r: Peaks)
    requires Aligned(p) && pre >= 0.0
  {
    var n := TopNFrag(pre);
    if |p.ints| > n then Select(p, AtLeastMask(p.ints, NthLargest(p.ints, n))) else p
  }

  /** The whole of `ProcessedMS2.__init__`: nothing for an empty raw spectrum,
      else each stage in turn, each after the first only on a non-empty list. */
  function Ms2Preprocess(pre: real, raw: Spectrum, tol: real, ppm: bool, cutoff: real, topN: int): (r: Peaks)
    requires |raw.mz| == |raw.ints| && pre >= 0.0
  {
    if !NonEmpty(raw) then NoPeaks
    else
      var a := DeprecursorPeaks(raw, DeprecursorBound(pre, tol, ppm));
      var b := if HasPeaks(a) then DenoisePeaks(a, cutoff) else a;
      var c := if HasPeaks(b) then KeepTopNPer50Da(b, topN) else b;
      if HasPeaks(c) then GlobalCap(c, pre) else c
  }

  /** A raw-indexed peak list in increasing index order. */
  predicate Ordered(p: Peaks, raw: Spectrum) {
    DrawnFrom(p, raw) && Increasing(p.idx)
  }

  /** Relative-intensity denoising keeps an ordered sub-list of peaks, each at
      least `cutoff` times the strongest. */
  lemma DenoiseFacts(p: Peaks, cutoff: real, raw: Spectrum)
    requires Ordered(p, raw) && p.ints != []
    ensures Ordered(DenoisePeaks(p, cutoff), raw)
    ensures forall j :: j in DenoisePeaks(p, cutoff).idx ==> j in p.idx && raw.ints[j] >= DenoiseThreshold(p.ints, cutoff)
  {
    var mask := AtLeastMask(p.ints, DenoiseThreshold(p.ints, cutoff));
    SelectFacts(p, mask, raw);
    forall j | j in DenoisePeaks(p, cutoff).idx ensures raw.ints[j] >= DenoiseThreshold(p.ints, cutoff) {
      var k :| 0 <= k < |p.idx| && p.idx[k] == j;
      assert mask[k];
    }
  }

  lemma KeepTopNFacts(p: Peaks, topN: int, raw: Spectrum)
    requires Ordered(p, raw)
    ensures Ordered(KeepTopNPer50Da(p, topN), raw)
    ensures forall j :: j in KeepTopNPer50Da(p, topN).idx ==> j in p.idx
  {
    if topN > 1 {
      SelectFacts(p, Ms2DenoiseMask(p.mz, p.ints, topN), raw);
    }
  }

  lemma GlobalCapFacts(p: Peaks, pre: real, raw: Spectrum)
    requires Ordered(p, raw) && pre >= 0.0
    ensures Ordered(GlobalCap(p, pre), raw)
    ensures forall j :: j in GlobalCap(p, pre).idx ==> j in p.idx
  {
    var n := TopNFrag(pre);
    if |p.ints| > n {
      SelectFacts(p, AtLeastMask(p.ints, NthLargest(p.ints, n)), raw);
    }
  }

  /** The global cap keeps every peak when there are at most `TopNFrag(pre)`
      of them. Otherwise it keeps a peak exactly when its intensity reaches the
      `TopNFrag(pre)`-th largest, so ties are kept: at least that many peaks
      reach the threshold and fewer lie strictly above it. */
  lemma GlobalCapKeepsTies(p: Peaks, pre: real, raw: Spectrum)
    requires Ordered(p, raw) && pre >= 0.0
    ensures |p.ints| <= TopNFrag(pre) ==> GlobalCap(p, pre) == p
    ensures var n := TopNFrag(pre);
      var r := GlobalCap(p, pre);
      |p.ints| > n ==>
        Ordered(r, raw)
        && (forall k :: 0 <= k < |p.idx| ==> (p.idx[k] in r.idx <==> p.ints[k] >= NthLargest(p.ints, n)))
        && CountIf(p.ints, AtLeast(NthLargest(p.ints, n))) >= n
        && CountIf(p.ints, Above(NthLargest(p.ints, n))) < n
  {
    var n := TopNFrag(pre);
    if |p.ints| > n {
      SelectFacts(p, AtLeastMask(p.ints, NthLargest(p.ints, n)), raw);
      NthLargestReached(p.ints, n);
      NthLargestExceeded(p.ints, n);
    }
  }

  /** Every peak's m/z is below `bound`. */
  predicate AllBelow(p: Peaks, bound: real) {
    forall k :: 0 <= k < |p.mz| ==> p.mz[k] < bound
  }

  /** Every peak's intensity reaches `t`. */
  predicate AllAtLeast(p: Peaks, t: real) {
    forall k :: 0 <= k < |p.ints| ==> p.ints[k] >= t
  }

  /** A peak list all of whose raw indices satisfy a property of the raw peak. */
  lemma InheritRaw(r: Peaks, b: Peaks, raw: Spectrum, bound: real, t: real)
    requires DrawnFrom(r, raw) && DrawnFrom(b, raw)
    requires forall j :: j in r.idx ==> j in b.idx
    requires forall j :: j in b.idx ==> raw.mz[j] < bound && raw.ints[j] >= t
    ensures AllBelow(r, bound) && AllAtLeast(r, t)
  {
    forall k | 0 <= k < |r.mz| ensures r.mz[k] < bound && r.ints[k] >= t {
      assert r.idx[k] in r.idx;
    }
  }

  /** The surviving peaks are raw peaks in increasing index order, all below the
      de-precursor bound and all at least `cutoff` times the strongest peak left
      after de-precursoring. */
  lemma Ms2PreprocessFacts(pre: real, raw: Spectrum, tol: real, ppm: bool, cutoff: real, topN: int)
    requires |raw.mz| == |raw.ints| && pre >= 0.0
    ensures Ordered(Ms2Preprocess(pre, raw, tol, ppm, cutoff, topN), raw)
    ensures AllBelow(Ms2Preprocess(pre, raw, tol, ppm, cutoff, topN), DeprecursorBound(pre, tol, ppm))
    ensures var a := DeprecursorPeaks(raw, DeprecursorBound(pre, tol, ppm));
      HasPeaks(a) ==> AllAtLeast(Ms2Preprocess(pre, raw, tol, ppm, cutoff, topN), DenoiseThreshold(a.ints, cutoff))
  {
    var r := Ms2Preprocess(pre, raw, tol, ppm, cutoff, topN);
    if NonEmpty(raw) {
      var bound := DeprecursorBound(pre, tol, ppm);
      var a := DeprecursorPeaks(raw, bound);
      DeprecursorFacts(raw, bound);
      if HasPeaks(a) {
        var b := DenoisePeaks(a, cutoff);
        DenoiseFacts(a, cutoff, raw);
        var c := if HasPeaks(b) then KeepTopNPer50Da(b, topN) else b;
        KeepTopNFacts(b, topN, raw);
        GlobalCapFacts(c, pre, raw);
        var thr := DenoiseThreshold(a.ints, cutoff);
        assert forall j :: j in b.idx ==> raw.mz[j] < bound && raw.ints[j] >= thr by {
          forall j | j in b.idx ensures raw.mz[j] < bound && raw.ints[j] >= thr {
            assert j in a.idx;
          }
        }
        InheritRaw(r, b, raw, bound, thr);
      }
    }
  }

  /** MS2 peaks under preprocessing: every stage overwrites the three arrays
      with a masked selection of themselves. */
  class ProcessedMs2 {
    var idx: seq<nat>
    var mz: seq<real>
    var ints: seq<real>
    var tol: real
    var ppm: bool

    function Current(): Peaks
      reads this
    {
      Peaks(idx, mz, ints)
    }

    /** `ProcessedMS2(mz, raw_spec, mz_tol, ppm, rel_int_denoise_cutoff, top_n_per_50_da)`. */
    constructor (pre: real, raw: Spectrum, tol: real, ppm: bool, cutoff: real, topN: int)
      requires |raw.mz| == |raw.ints| && pre >= 0.0
      ensures Current() == Ms2Preprocess(pre, raw, tol, ppm, cutoff, topN)
    {
      this.tol, this.ppm := tol, ppm;
      idx, mz, ints := [], [], [];
      new;
      if NonEmpty(raw) {
        Preprocess(pre, raw, cutoff, topN);
      }
    }

    /** `_preprocess`. */
    method Preprocess(pre: real, raw: Spectrum, cutoff: real, topN: int)
      requires |raw.mz| == |raw.ints| && pre >= 0.0 && NonEmpty(raw)
      modifies this
      ensures tol == old(tol) && ppm == old(ppm)
      ensures Current() == Ms2Preprocess(pre, raw, tol, ppm, cutoff, topN)
    {
      Deprecursor(pre, raw);
      if |mz| > 0 {
        Denoise(cutoff);
      }
      if |mz| > 0 {
        KeepTopN(topN);
      }
      if |mz| > 0 {
        CapTopNFrag(pre);
      }
    }

    /** `_deprecursor`. */
    method Deprecursor(pre: real, raw: Spectrum)
      requires |raw.mz| == |raw.ints|
      modifies this
      ensures tol == old(tol) && ppm == old(ppm)
      ensures Current() == DeprecursorPeaks(raw, DeprecursorBound(pre, tol, ppm))
    {
      var keep := BelowMask(raw.mz, DeprecursorBound(pre, tol, ppm));
      var r := At(raw, Where(keep));
      idx, mz, ints := r.idx, r.mz, r.ints;
    }

    /** `_denoise`. */
    method Denoise(cutoff: real)
      requires Aligned(Current()) && ints != []
      modifies this
      ensures tol == old(tol) && ppm == old(ppm)
      ensures Current() == DenoisePeaks(old(Current()), cutoff)
    {
      var keep := AtLeastMask(ints, DenoiseThreshold(ints, cutoff));
      var r := Select(Current(), keep);
      idx, mz, ints := r.idx, r.mz, r.ints;
    }

    /** `_keep_top_n_per_50_da`. */
    method KeepTopN(topN: int)
      requires Aligned(Current())
      modifies this
      ensures tol == old(tol) && ppm == old(ppm)
      ensures Current() == KeepTopNPer50Da(old(Current()), topN)
    {
      if topN <= 1 {
        return;
      }
      var keep := Ms2Denoise(mz, ints, topN);
      var r := Select(Current(), keep);
      idx, mz, ints := r.idx, r.mz, r.ints;
    }

    /** The global cap at the end of `_preprocess`. */
    method CapTopNFrag(pre: real)
      requires Aligned(Current()) && pre >= 0.0
      modifies this
      ensures tol == old(tol) && ppm == old(ppm)
      ensures Current() == GlobalCap(old(Current()), pre)
    {
      var n := TopNFrag(pre);
      if |ints| > n {
        var keep := AtLeastMask(ints, NthLargest(ints, n));
        var r := Select(Current(), keep);
        idx, mz, ints := r.idx, r.mz, r.ints;
      }
    }
  }

  /** `bool_arr[group_idx] = int_arr[group_idx] >= int_threshold`. */
  method MarkBin(boolArr: array<bool>, groupIdx: seq<nat>, ints: seq<real>, t: real)
    requires |ints| == boolArr.Length
    requires forall i :: 0 <= i < |groupIdx| ==> groupIdx[i] < boolArr.Length
    modifies boolArr
    ensures boolArr[..] == Marked(old(boolArr[..]), groupIdx, ints, t)
  {
    for i := 0 to |groupIdx|
      invariant forall k :: 0 <= k < boolArr.Length ==>
        boolArr[k] == if k in groupIdx[..i] then ints[k] >= t else old(boolArr[k])
    {
      assert groupIdx[..i + 1] == groupIdx[..i] + [groupIdx[i]];
      boolArr[groupIdx[i]] := ints[groupIdx[i]] >= t;
    }
    assert groupIdx[..|groupIdx|] == groupIdx;
  }

  /** `bool_arr[group_idx] = int_arr[group_idx] >= threshold` on a mask. */
  function Marked(before: seq<bool>, w: seq<nat>, ints: seq<real>, t: real): (r: seq<bool>)
    requires |ints| == |before|
    ensures |r| == |before|
    ensures forall k :: 0 <= k < |r| ==> r[k] == if k in w then ints[k] >= t else before[k]
  {
    seq(|before|, k requires 0 <= k < |before| => if k in w then ints[k] >= t else before[k])
  }

  /** The mask while the bins in `todo` are still to be visited: those bins
      keep every peak so far, the others hold their final value. */
  function Pending(mz: seq<real>, ints: seq<real>, topN: int, todo: set<int>): (r: seq<bool>)
    requires |mz| == |ints| && topN >= 1
    ensures |r| == |mz|
    ensures forall k :: 0 <= k < |mz| ==>
      r[k] == if Bin(mz[k]) in todo then true else Ms2DenoiseMask(mz, ints, topN)[k]
  {
    seq(|mz|, k requires 0 <= k < |mz| =>
      if Bin(mz[k]) in todo then true else Ms2DenoiseMask(mz, ints, topN)[k])
  }

  /** One entry of the keep-mask. */
  lemma MaskEntry(mz: seq<real>, ints: seq<real>, topN: int, k: nat)
    requires |mz| == |ints| && topN >= 1 && k < |mz|
    ensures Ms2DenoiseMask(mz, ints, topN)[k] ==
      (Crowded(mz, Bin(mz[k]), topN) ==>
         ints[k] >= NthLargest(BinInts(mz, ints, Bin(mz[k])), topN))
  {
  }

  /** `ms2_denoise`: marks, bin by bin, which peaks to keep. */
  method Ms2Denoise(mz: seq<real>, ints: seq<real>, topN: int) returns (keep: seq<bool>)
    requires |mz| == |ints| && topN >= 1
    ensures keep == Ms2DenoiseMask(mz, ints, topN)
  {
    var n := |mz|;
    var boolArr := new bool[n](_ => true);
    var todo := set k | 0 <= k < n :: Bin(mz[k]);
    PendingAll(mz, ints, topN, todo, boolArr[..]);
    while todo != {}
      invariant boolArr.Length == n
      invariant boolArr[..] == Pending(mz, ints, topN, todo)
      decreases todo
    {
      var g :| g in todo;
      var groupIdx := BinIdx(mz, g);
      ghost var before := boolArr[..];
      if |groupIdx| > topN {
        var t := NthLargest(ValuesAt(ints, groupIdx), topN);
        MarkBin(boolArr, groupIdx, ints, t);
      }
      BinUpdated(mz, ints, topN, g, before, boolArr[..], todo);
      todo := todo - {g};
    }
    PendingNone(mz, ints, topN);
    keep := boolArr[..];
  }

  /** Before any bin is visited every peak is kept. */
  lemma PendingAll(mz: seq<real>, ints: seq<real>, topN: int, todo: set<int>, init: seq<bool>)
    requires |mz| == |ints| && topN >= 1
    requires todo == set k | 0 <= k < |mz| :: Bin(mz[k])
    requires |init| == |mz| && forall k :: 0 <= k < |init| ==> init[k]
    ensures init == Pending(mz, ints, topN, todo)
  {
    var p := Pending(mz, ints, topN, todo);
    forall k | 0 <= k < |mz| ensures init[k] == p[k] {
      assert Bin(mz[k]) in todo;
    }
  }

  /** With every bin visited, the mask is final. */
  lemma PendingNone(mz: seq<real>, ints: seq<real>, topN: int)
    requires |mz| == |ints| && topN >= 1
    ensures Pending(mz, ints, topN, {}) == Ms2DenoiseMask(mz, ints, topN)
  {
  }

  /** The loop step of `ms2_denoise`: after bin `g` is marked, its entries agree
      with the keep-mask and every other entry is unchanged. */
  lemma BinUpdated(mz: seq<real>, ints: seq<real>, topN: int, g: int, before: seq<bool>, after: seq<bool>, todo: set<int>)
    requires |mz| == |ints| && topN >= 1 && g in todo
    requires before == Pending(mz, ints, topN, todo)
    requires !Crowded(mz, g, topN) ==> after == before
    requires Crowded(mz, g, topN) ==>
      after == Marked(before, BinIdx(mz, g), ints, NthLargest(ValuesAt(ints, BinIdx(mz, g)), topN))
    ensures after == Pending(mz, ints, topN, todo - {g})
  {
    var p := Pending(mz, ints, topN, todo - {g});
    var w := BinIdx(mz, g);
    assert |after| == |mz|;
    forall k | 0 <= k < |mz| ensures after[k] == p[k] {
      if Bin(mz[k]) == g {
        MaskEntry(mz, ints, topN, k);
        assert k in w;
        assert before[k];
      } else {
        assert k !in w;
        assert after[k] == before[k];
      }
    }
  }
}
