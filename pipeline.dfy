/** The batch bookkeeping of `Msbuddy`: the m/z filter before annotation, the
    batch count and ranges, the sequential write-back of the per-feature
    stages, the subformula candidate filter and the summary list. */
module Pipeline {
  import opened PyStr
  import opened Spectra
  import opened Features
  import opened Config

  // ---------------------------------------------------------------------
  // Preparation: the m/z filter and the batch count
  // ---------------------------------------------------------------------

  /** Features kept for annotation: `1 < mz < 1500`. */
  predicate InMzRange(f: Feature) { 1.0 < f.mz < 1500.0 }

  /** `[mf for mf in data if 1 < mf.mz < 1500]`. */
  function FilterMz(d: seq<Feature>): (r: seq<Feature>)
    ensures |r| <= |d|
    ensures forall i :: 0 <= i < |r| ==> InMzRange(r[i]) && r[i] in d
  {
    if d == [] then [] else (if InMzRange(d[0]) then [d[0]] else []) + FilterMz(d[1..])
  }

  /** The filter distributes over concatenation: it keeps the order. */
  lemma {:induction false} FilterMzConcat(a: seq<Feature>, b: seq<Feature>)
    ensures FilterMz(a + b) == FilterMz(a) + FilterMz(b)
  {
    if a == [] {
      assert a + b == b;
    } else {
      assert (a + b)[0] == a[0];
      assert (a + b)[1..] == a[1..] + b;
      FilterMzConcat(a[1..], b);
    }
  }

  /** On one feature: kept exactly when its m/z is in range. */
  lemma FilterMzSingle(f: Feature)
    ensures FilterMz([f]) == if InMzRange(f) then [f] else []
  {
    assert [f][1..] == [];
  }

  /** Every feature in range is kept. */
  lemma {:induction false} FilterMzKeeps(d: seq<Feature>, f: Feature)
    requires f in d && InMzRange(f)
    ensures f in FilterMz(d)
  {
    if d[0] != f {
      assert f in d[1..];
      FilterMzKeeps(d[1..], f);
    }
  }

  /** `int(np.ceil(n / batch_size))`. */
  function BatchCount(n: nat, bs: nat): (k: nat)
    requires bs >= 1
    ensures k * bs >= n
    ensures k == 0 || (k - 1) * bs < n
  {
    if n % bs == 0 then n / bs else n / bs + 1
  }

  // ---------------------------------------------------------------------
  // Batches
  // ---------------------------------------------------------------------

  /** `_get_batch(data, batch_size, n)`: the range `[n * bs, min((n + 1) * bs, len))`. */
  function GetBatch(len: nat, bs: nat, n: nat): (nat, nat) {
    (n * bs, if (n + 1) * bs < len then (n + 1) * bs else len)
  }

  /** The batch holding index `i`. */
  function BatchOf(i: nat, bs: nat): nat
    requires bs >= 1
  {
    i / bs
  }

  /** The ranges of batches 0 .. BatchCount - 1 start at 0, end at `len`,
      follow each other without gap, and are not empty. */
  lemma BatchesContiguous(len: nat, bs: nat)
    requires bs >= 1 && len >= 1
    ensures GetBatch(len, bs, 0).0 == 0
    ensures GetBatch(len, bs, BatchCount(len, bs) - 1).1 == len
    ensures forall n :: 0 <= n < BatchCount(len, bs) - 1 ==> GetBatch(len, bs, n).1 == GetBatch(len, bs, n + 1).0
    ensures forall n :: 0 <= n < BatchCount(len, bs) ==> GetBatch(len, bs, n).0 < GetBatch(len, bs, n).1
  {
    var k := BatchCount(len, bs);
    forall n | 0 <= n < k - 1 ensures GetBatch(len, bs, n).1 == GetBatch(len, bs, n + 1).0 {
      MulMono(n + 2, k, bs);
      assert (n + 1) * bs <= (k - 1) * bs;
    }
    forall n | 0 <= n < k ensures GetBatch(len, bs, n).0 < GetBatch(len, bs, n).1 {
      MulMono(n + 1, k, bs);
      assert n * bs <= (k - 1) * bs;
      assert (n + 1) * bs == n * bs + bs;
    }
    assert (k - 1 + 1) * bs == k * bs;
  }

  lemma MulMono(a: nat, b: nat, c: nat)
    requires a <= b
    ensures a * c <= b * c
  {
  }

  /** Every index of the data lies in exactly one batch range, the one of
      batch `i / bs`. */
  lemma BatchesCover(len: nat, bs: nat, i: nat)
    requires bs >= 1 && i < len
    ensures BatchOf(i, bs) < BatchCount(len, bs)
    ensures GetBatch(len, bs, BatchOf(i, bs)).0 <= i < GetBatch(len, bs, BatchOf(i, bs)).1
    ensures forall n :: 0 <= n < BatchCount(len, bs) && GetBatch(len, bs, n).0 <= i < GetBatch(len, bs, n).1
                        ==> n == BatchOf(i, bs)
  {
    var q := i / bs;
    assert q * bs <= i < (q + 1) * bs by {
      assert i == q * bs + i % bs;
      assert (q + 1) * bs == q * bs + bs;
    }
    var k := BatchCount(len, bs);
    if q >= k {
      MulMono(k, q, bs);
    }
    forall n | 0 <= n < k && GetBatch(len, bs, n).0 <= i < GetBatch(len, bs, n).1 ensures n == q {
      if n < q {
        MulMono(n + 1, q, bs);
      } else if n > q {
        MulMono(q + 1, n, bs);
      }
    }
  }

  // ---------------------------------------------------------------------
  // Slices and write-back
  // ---------------------------------------------------------------------

  /** Python's clamping of a slice `[start:end]` on a list of length `len`. */
  function SliceLo(len: nat, start: nat): nat { if start < len then start else len }
  function SliceHi(len: nat, start: nat, end: nat): nat {
    var lo := SliceLo(len, start);
    var hi := if end < len then end else len;
    if hi < lo then lo else hi
  }

  lemma SliceBounds(len: nat, start: nat, end: nat)
    ensures SliceLo(len, start) <= SliceHi(len, start, end) <= len
  {
  }

  /** `data[start:end] = mid` for a `mid` of the slice's length. */
  function Splice(d: seq<Feature>, start: nat, end: nat, mid: seq<Feature>): seq<Feature>
    requires |mid| == SliceHi(|d|, start, end) - SliceLo(|d|, start)
  {
    d[..SliceLo(|d|, start)] + mid + d[SliceHi(|d|, start, end)..]
  }

  /** The batch slice `data[start:end]`. */
  function Batch(d: seq<Feature>, start: nat, end: nat): seq<Feature> {
    d[SliceLo(|d|, start)..SliceHi(|d|, start, end)]
  }

  /** Preprocessing may be applied to every feature of the list. */
  predicate Preprocessable(d: seq<Feature>) {
    forall i :: 0 <= i < |d| ==> Aligned(d[i]) && d[i].mz >= 0.0
  }

  /** The parameters `_generate_candidate_formula` passes to `data_preprocess`. */
  function PrepParamsOf(c: Config): PrepParams {
    PrepParams(c.ppm, c.ms1Tol, c.ms2Tol, c.isotopeBinMztol, c.maxIsotopeCnt,
               c.relIntDenoiseCutoff, c.topNPer50Da)
  }

  /** `_generate_candidate_formula`: `data_preprocess`, then the candidate
      generator `gen` (not part of this model) unless preprocessing raised.
      The result is the state the feature object is left in and the
      exception, if any. */
  function CandidateStage(f: Feature, p: PrepParams, gen: Feature -> Step): Step
    requires Aligned(f) && f.mz >= 0.0
  {
    var s := Preprocess(f, p);
    if s.exc.Some? then s else gen(s.state)
  }

  /** The list `modified_mf_ls` of the sequential branch. Both the success
      branch and the `except` branch append the same object `mf`, so each
      slot is the state of that object after its stage, raised or not. */
  function CandidateBatch(b: seq<Feature>, p: PrepParams, gen: Feature -> Step): (r: seq<Feature>)
    requires Preprocessable(b)
    ensures |r| == |b|
    ensures forall i :: 0 <= i < |b| ==> r[i] == CandidateStage(b[i], p, gen).state
  {
    seq(|b|, i requires 0 <= i < |b| => CandidateStage(b[i], p, gen).state)
  }

  /** The batch write-back keeps the list length, leaves every feature outside
      the batch as it was, puts into the slot of each batch feature the state
      that feature reached, and keeps a feature whose preprocessing raised
      exactly as it was. */
  lemma WriteBackFacts(d: seq<Feature>, start: nat, end: nat, p: PrepParams, gen: Feature -> Step,
                       b: seq<Feature>, r: seq<Feature>)
    requires b == Batch(d, start, end) && Preprocessable(b)
    requires r == Splice(d, start, end, CandidateBatch(b, p, gen))
    ensures |r| == |d| && |b| == SliceHi(|d|, start, end) - SliceLo(|d|, start)
    ensures forall i :: 0 <= i < SliceLo(|d|, start) || SliceHi(|d|, start, end) <= i < |d| ==> r[i] == d[i]
    ensures forall k :: 0 <= k < |b| ==>
      b[k] == d[SliceLo(|d|, start) + k] && r[SliceLo(|d|, start) + k] == CandidateStage(b[k], p, gen).state
    ensures forall k :: 0 <= k < |b| && Preprocess(b[k], p).exc.Some? ==> r[SliceLo(|d|, start) + k] == b[k]
  {
    SliceBounds(|d|, start, end);
    SpliceSlots(d, start, end, CandidateBatch(b, p, gen));
    WriteBackSlots(d, start, end, p, gen, b, r);
    WriteBackRaised(d, start, end, p, gen, b, r);
  }

  /** Each batch slot of the written-back list holds the state its feature
      reached. */
  lemma WriteBackSlots(d: seq<Feature>, start: nat, end: nat, p: PrepParams, gen: Feature -> Step,
                       b: seq<Feature>, r: seq<Feature>)
    requires b == Batch(d, start, end) && Preprocessable(b)
    requires r == Splice(d, start, end, CandidateBatch(b, p, gen))
    ensures forall k :: 0 <= k < |b| ==>
      b[k] == d[SliceLo(|d|, start) + k] && r[SliceLo(|d|, start) + k] == CandidateStage(b[k], p, gen).state
  {
    SliceBounds(|d|, start, end);
    SpliceSlots(d, start, end, CandidateBatch(b, p, gen));
  }

  /** A batch slot whose feature raised in preprocessing holds that feature. */
  lemma WriteBackRaised(d: seq<Feature>, start: nat, end: nat, p: PrepParams, gen: Feature -> Step,
                        b: seq<Feature>, r: seq<Feature>)
    requires b == Batch(d, start, end) && Preprocessable(b)
    requires r == Splice(d, start, end, CandidateBatch(b, p, gen))
    ensures forall k :: 0 <= k < |b| && Preprocess(b[k], p).exc.Some? ==> r[SliceLo(|d|, start) + k] == b[k]
  {
    SliceBounds(|d|, start, end);
    SpliceSlots(d, start, end, CandidateBatch(b, p, gen));
    BatchRaisedKept(b, p, gen);
  }

  /** A batch feature whose preprocessing raised leaves the stage as it came. */
  lemma BatchRaisedKept(b: seq<Feature>, p: PrepParams, gen: Feature -> Step)
    requires Preprocessable(b)
    ensures forall k :: 0 <= k < |b| && Preprocess(b[k], p).exc.Some? ==> CandidateBatch(b, p, gen)[k] == b[k]
  {
    forall k | 0 <= k < |b| && Preprocess(b[k], p).exc.Some?
      ensures CandidateBatch(b, p, gen)[k] == b[k]
    {
      PreprocessRaisedKeeps(b[k], p);
    }
  }

  /** A splice keeps the length and the slots outside the slice, and puts the
      new list into the slice. */
  lemma SpliceSlots(d: seq<Feature>, start: nat, end: nat, mid: seq<Feature>)
    requires |mid| == SliceHi(|d|, start, end) - SliceLo(|d|, start)
    ensures var lo, hi := SliceLo(|d|, start), SliceHi(|d|, start, end);
      var r := Splice(d, start, end, mid);
      |r| == |d|
      && (forall i :: 0 <= i < lo || hi <= i < |d| ==> r[i] == d[i])
      && (forall k :: 0 <= k < |mid| ==> r[lo + k] == mid[k])
  {
  }

  // ---------------------------------------------------------------------
  // The subformula candidate filter
  // ---------------------------------------------------------------------

  /** The entry of `cand_form_exp_ms2_peak_list` for one candidate. */
  function ExplainedCount(cf: Candidate): nat {
    if cf.ms2RawExplanation.Some? && Explains(cf.ms2RawExplanation.value)
    then ExplanationLen(cf.ms2RawExplanation.value) else 0
  }

  function ExplainedCounts(cs: seq<Candidate>): (r: seq<nat>)
    ensures |r| == |cs| && forall i :: 0 <= i < |cs| ==> r[i] == ExplainedCount(cs[i])
  {
    seq(|cs|, i requires 0 <= i < |cs| => ExplainedCount(cs[i]))
  }

  /** `min(list)` of a non-empty list. */
  function Min(s: seq<nat>): nat
    requires s != []
  {
    if |s| == 1 then s[0]
    else var m := Min(s[1..]); if s[0] <= m then s[0] else m
  }

  /** The minimum is positive exactly when every entry is. */
  lemma {:induction false} MinPositive(s: seq<nat>)
    requires s != []
    ensures Min(s) > 0 <==> forall i :: 0 <= i < |s| ==> s[i] > 0
  {
    if |s| > 1 {
      MinPositive(s[1..]);
      assert forall i :: 1 <= i < |s| ==> s[i] == s[1..][i - 1];
    }
  }

  /** `[cf for cf in cs if len(cf.ms2_raw_explanation) > 0]` (reached only when
      every candidate has an explanation). */
  function FilterExplained(cs: seq<Candidate>): (r: seq<Candidate>)
    ensures |r| <= |cs|
  {
    if cs == [] then []
    else (if ExplainedCount(cs[0]) > 0 then [cs[0]] else []) + FilterExplained(cs[1..])
  }

  /** When every candidate explains a peak, the filter keeps them all. */
  lemma {:induction false} FilterExplainedKeepsAll(cs: seq<Candidate>)
    requires forall i :: 0 <= i < |cs| ==> ExplainedCount(cs[i]) > 0
    ensures FilterExplained(cs) == cs
  {
    if cs != [] {
      assert forall i :: 0 <= i < |cs[1..]| ==> cs[1..][i] == cs[i + 1];
      FilterExplainedKeepsAll(cs[1..]);
    }
  }

  /** `mf.ms2_processed` is truthy: present with peaks. */
  predicate HasMs2(f: Feature) { f.ms2Processed.Some? && HasPeaks(f.ms2Processed.value) }

  /** `mf.candidate_formula_list` is truthy: present and not empty. */
  predicate HasCandidates(f: Feature) { f.candidates.Some? && f.candidates.value != [] }

  /** `_gen_subformula`, with the external `assign_subformula_cand_form` as
      `assign`. Iterating a missing candidate list raises TypeError and the
      minimum of an empty one ValueError. */
  function GenSubformula(mf: Feature, assign: Feature -> Feature): Result<Feature> {
    if !HasMs2(mf) || !HasCandidates(mf) then Ok(mf)
    else
      var m := assign(mf);
      if m.candidates.None? then Err(TypeError)
      else if m.candidates.value == [] then Err(ValueError)
      else if Min(ExplainedCounts(m.candidates.value)) > 0
      then Ok(m.(candidates := Some(FilterExplained(m.candidates.value))))
      else Ok(m)
  }

  /** Without processed MS2 peaks or without candidates the feature is
      returned unchanged; otherwise the result is exactly the assigned
      feature: the filter never removes a candidate. */
  lemma GenSubformulaFacts(mf: Feature, assign: Feature -> Feature)
    ensures !HasMs2(mf) || !HasCandidates(mf) ==> GenSubformula(mf, assign) == Ok(mf)
    ensures HasMs2(mf) && HasCandidates(mf) && GenSubformula(mf, assign).Ok? ==>
      GenSubformula(mf, assign) == Ok(assign(mf))
    ensures GenSubformula(mf, assign).Err? <==>
      HasMs2(mf) && HasCandidates(mf) && (assign(mf).candidates.None? || assign(mf).candidates.value == [])
  {
    if HasMs2(mf) && HasCandidates(mf) {
      var m := assign(mf);
      if m.candidates.Some? && m.candidates.value != [] {
        var cs := m.candidates.value;
        MinPositive(ExplainedCounts(cs));
        if Min(ExplainedCounts(cs)) > 0 {
          FilterExplainedKeepsAll(cs);
          assert m.(candidates := Some(cs)) == m;
        }
      }
    }
  }

  /** The sequential loop of `_assign_subformula_annotation`: the results in
      order, or the first exception raised. */
  function SubformulaBatch(b: seq<Feature>, assign: Feature -> Feature): Result<seq<Feature>> {
    if b == [] then Ok([])
    else
      match SubformulaBatch(b[..|b| - 1], assign)
      case Err(e) => Err(e)
      case Ok(rest) =>
        match GenSubformula(b[|b| - 1], assign)
        case Err(e) => Err(e)
        case Ok(x) => Ok(rest + [x])
  }

  /** The loop succeeds exactly when every feature does, and then holds one
      result per feature in order; a failure is that of the first failing
      feature. */
  lemma {:induction false} SubformulaBatchFacts(b: seq<Feature>, assign: Feature -> Feature)
    ensures SubformulaBatch(b, assign).Ok? <==> forall i :: 0 <= i < |b| ==> GenSubformula(b[i], assign).Ok?
    ensures SubformulaBatch(b, assign).Ok? ==>
      |SubformulaBatch(b, assign).value| == |b|
      && forall i :: 0 <= i < |b| ==> SubformulaBatch(b, assign).value[i] == GenSubformula(b[i], assign).value
    ensures SubformulaBatch(b, assign).Err? ==>
      exists j :: 0 <= j < |b| && GenSubformula(b[j], assign).Err?
                  && SubformulaBatch(b, assign).exc == GenSubformula(b[j], assign).exc
                  && forall i :: 0 <= i < j ==> GenSubformula(b[i], assign).Ok?
  {
    if b != [] {
      var init := b[..|b| - 1];
      SubformulaBatchFacts(init, assign);
      assert forall i :: 0 <= i < |init| ==> init[i] == b[i];
      if SubformulaBatch(init, assign).Err? {
        var j :| 0 <= j < |init| && GenSubformula(init[j], assign).Err?
                 && SubformulaBatch(init, assign).exc == GenSubformula(init[j], assign).exc
                 && forall i :: 0 <= i < j ==> GenSubformula(init[i], assign).Ok?;
        assert GenSubformula(b[j], assign).Err?;
      } else if GenSubformula(b[|b| - 1], assign).Err? {
        assert SubformulaBatch(b, assign).exc == GenSubformula(b[|b| - 1], assign).exc;
      }
    }
  }

  // ---------------------------------------------------------------------
  // The Msbuddy object
  // ---------------------------------------------------------------------

  /** `Msbuddy`: the configuration and the loaded features (`None` until data
      is added). */
  class Msbuddy {
    var config: Config
    var data: Option<seq<Feature>>

    constructor (c: Config)
      ensures config == c && data == None
    {
      config := c;
      data := None;
    }

    /** `_annotate_formula_prepare`: keeps the features with 1 < mz < 1500 and
      returns the batch count; ValueError when none remains, TypeError when
      no data was loaded. */
    method AnnotatePrepare() returns (r: Result<nat>)
      requires config.batchSize >= 1
      modifies this
      ensures config == old(config)
      ensures data == if old(data).None? then None else Some(FilterMz(old(data).value))
      ensures old(data).None? ==> r == Err(TypeError)
      ensures old(data).Some? ==>
        r == if FilterMz(old(data).value) == [] then Err(ValueError)
             else Ok(BatchCount(|FilterMz(old(data).value)|, config.batchSize))
    {
      if data.None? {
        return Err(TypeError);
      }
      data := Some(FilterMz(data.value));
      if data.value == [] {
        return Err(ValueError);
      }
      r := Ok(BatchCount(|data.value|, config.batchSize));
    }

    /** The sequential branch of `_preprocess_and_generate_candidate_formula`:
      every feature of the batch goes through its stage, any exception is
      caught, and the batch slice is replaced by the list built. */
    method PreprocessAndGenerate(start: nat, end: nat, gen: Feature -> Step) returns (e: Option<Exc>)
      requires data.Some? ==> Preprocessable(Batch(data.value, start, end))
      modifies this
      ensures config == old(config)
      ensures old(data).None? ==> e == Some(TypeError) && data == old(data)
      ensures old(data).Some? ==>
        e == None
        && data == Some(Splice(old(data).value, start, end,
                               CandidateBatch(Batch(old(data).value, start, end), PrepParamsOf(config), gen)))
    {
      if data.None? {
        return Some(TypeError);
      }
      var d := data.value;
      SliceBounds(|d|, start, end);
      var batch := Batch(d, start, end);
      var p := PrepParamsOf(config);
      var modified: seq<Feature> := [];
      for i := 0 to |batch|
        invariant |modified| == i
        invariant forall k :: 0 <= k < i ==> modified[k] == CandidateStage(batch[k], p, gen).state
      {
        // Raised or not, the object appended is the feature itself.
        var s := CandidateStage(batch[i], p, gen);
        modified := modified + [s.state];
      }
      assert modified == CandidateBatch(batch, p, gen);
      data := Some(d[..SliceLo(|d|, start)] + modified + d[SliceHi(|d|, start, end)..]);
      e := None;
    }

    /** The sequential branch of `_assign_subformula_annotation`: no exception
      is caught, so the first one leaves the data as it was. */
    method AssignSubformula(start: nat, end: nat, assign: Feature -> Feature) returns (e: Option<Exc>)
      modifies this
      ensures config == old(config)
      ensures old(data).None? ==> e == Some(TypeError) && data == old(data)
      ensures old(data).Some? ==>
        var r := SubformulaBatch(Batch(old(data).value, start, end), assign);
        (e.Some? <==> r.Err?)
        && (r.Err? ==> e == Some(r.exc) && data == old(data))
        && (r.Ok? ==> |r.value| == |Batch(old(data).value, start, end)|
                      && data == Some(Splice(old(data).value, start, end, r.value)))
    {
      if data.None? {
        return Some(TypeError);
      }
      var d := data.value;
      SliceBounds(|d|, start, end);
      var batch := Batch(d, start, end);
      var modified: seq<Feature> := [];
      for i := 0 to |batch|
        invariant SubformulaBatch(batch[..i], assign) == Ok(modified)
      {
        assert batch[..i + 1][..i] == batch[..i];
        var m := GenSubformula(batch[i], assign);
        if m.Err? {
          assert SubformulaBatch(batch[..i + 1], assign) == Err(m.exc);
          SubformulaErrExtends(batch, i + 1, assign);
          return Some(m.exc);
        }
        modified := modified + [m.value];
      }
      assert batch[..|batch|] == batch;
      SubformulaBatchFacts(batch, assign);
      data := Some(d[..SliceLo(|d|, start)] + modified + d[SliceHi(|d|, start, end)..]);
      e := None;
    }

    /** `get_summary`: ValueError without data, otherwise one summary per
      feature, in data order. */
    method GetSummary() returns (r: Result<seq<Summary>>)
      ensures r.Err? <==> data.None? || data.value == []
      ensures r.Err? ==> r.exc == ValueError
      ensures r.Ok? ==> |r.value| == |data.value|
                        && forall i :: 0 <= i < |data.value| ==> r.value[i] == Summarize(data.value[i])
    {
      if data.None? || data.value == [] {
        return Err(ValueError);
      }
      var d := data.value;
      var out: seq<Summary> := [];
      for i := 0 to |d|
        invariant |out| == i
        invariant forall k :: 0 <= k < i ==> out[k] == Summarize(d[k])
      {
        out := out + [Summarize(d[i])];
      }
      r := Ok(out);
    }
  }

  /** A failure within the first `n` features fails the whole batch with the
      same exception. */
  lemma {:induction false} SubformulaErrExtends(b: seq<Feature>, n: nat, assign: Feature -> Feature)
    requires n <= |b|
    requires SubformulaBatch(b[..n], assign).Err?
    ensures SubformulaBatch(b, assign) == SubformulaBatch(b[..n], assign)
    decreases |b| - n
  {
    if n < |b| {
      assert b[..n + 1][..n] == b[..n];
      SubformulaErrExtends(b, n + 1, assign);
    } else {
      assert b[..n] == b;
    }
  }
}
