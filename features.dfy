/** The per-feature record `MetaFeature`: a precursor with its adduct, raw
    and processed spectra and candidate formulas, and its annotation summary. */
module Features {
  import opened PyStr
  import opened Formulas
  import opened Spectra
  import opened Adducts
  import Ms1
  import Ms2

  /** A feature identifier, `Union[str, int]`. */
  datatype Ident = IdStr(s: string) | IdInt(n: int)

  /** `MS2Explanation`: the explained peak indices, with one formula (or none)
      per index. */
  datatype Ms2Explanation = Ms2Explanation(idx: seq<nat>, explanations: seq<Option<Formula>>)

  /** `len(explanation)`: the number of explained peaks. */
  function ExplanationLen(e: Ms2Explanation): nat { |e.idx| }

  /** `bool(explanation)`: at least one peak is explained. */
  predicate Explains(e: Ms2Explanation) { ExplanationLen(e) > 0 }

  /** `CandidateFormula`, reduced to the fields the core reads: the neutral
      formula, the estimated FDR and the MS2 explanation. */
  datatype Candidate = Candidate(formula: Formula, estimatedFdr: Option<real>,
                                 ms2RawExplanation: Option<Ms2Explanation>)

  /** The state of a `MetaFeature` object. The adduct is kept as the state of
      its `Adduct` object. */
  datatype Feature = Feature(identifier: Ident, mz: real, rt: Option<real>, adduct: Rule,
                             ms1Raw: Option<Spectrum>, ms2Raw: Option<Spectrum>,
                             ms1Processed: Option<Peaks>, ms2Processed: Option<Peaks>,
                             candidates: Option<seq<Candidate>>)

  /** Every raw spectrum has arrays of equal length, as `Spectrum` guarantees. */
  predicate Aligned(f: Feature) {
    (f.ms1Raw.Some? ==> |f.ms1Raw.value.mz| == |f.ms1Raw.value.ints|)
    && (f.ms2Raw.Some? ==> |f.ms2Raw.value.mz| == |f.ms2Raw.value.ints|)
  }

  /** `if self.ms1_raw` / `if self.ms2_raw`: present and not empty. */
  predicate Truthy(s: Option<Spectrum>) { s.Some? && NonEmpty(s.value) }

  /** The constructor `MetaFeature(...)`: ValueError for charge 0; otherwise
      the adduct string parsed (not strictly) in the mode of the charge's sign,
      with nothing processed yet and no candidates. An adduct the parser
      rejects raises the parser's exception. */
  function NewFeature(id: Ident, mz: real, charge: int, rt: Option<real>, adduct: Option<string>,
                      ms1: Option<Spectrum>, ms2: Option<Spectrum>, rf: string -> Option<Vec>): (r: Result<Feature>)
    ensures charge == 0 ==> r == Err(ValueError)
    ensures charge != 0 ==> (r.Err? <==> Parse(adduct, charge > 0, false, rf).Err?)
    ensures charge != 0 && r.Err? ==> r.exc == Parse(adduct, charge > 0, false, rf).exc
    ensures r.Ok? ==> r.value.adduct.posMode == (charge > 0)
    ensures r.Ok? ==> r.value.identifier == id && r.value.mz == mz && r.value.rt == rt
                      && r.value.ms1Raw == ms1 && r.value.ms2Raw == ms2
    ensures r.Ok? ==> r.value.ms1Processed.None? && r.value.ms2Processed.None? && r.value.candidates.None?
  {
    if charge == 0 then Err(ValueError)
    else
      match Parse(adduct, charge > 0, false, rf)
      case Err(e) => Err(e)
      case Ok(a) =>
        ParsedRuleShape(adduct, charge > 0, false, rf);
        Ok(Feature(id, mz, rt, a, ms1, ms2, None, None, None))
  }

  /** The parameters of `data_preprocess`. */
  datatype PrepParams = PrepParams(ppm: bool, ms1Tol: real, ms2Tol: real, isoTol: real,
                                   maxIsotopeCnt: int, relCutoff: real, topNPer50Da: int)

  /** The state a feature is left in by a step, and the exception the step
      raised, if any. */
  datatype Step = Step(state: Feature, exc: Option<Exc>)

  /** The MS1 peaks `ProcessedMS1` picks for a feature. */
  function Ms1Of(f: Feature, p: PrepParams): Result<Peaks>
    requires Aligned(f) && f.ms1Raw.Some?
  {
    Ms1.Ms1Peaks(f.mz, f.ms1Raw.value, f.adduct.charge, p.ms1Tol, p.ppm, p.isoTol,
                 p.maxIsotopeCnt, Ms1.MassNeutron)
  }

  /** The MS2 peaks `ProcessedMS2` keeps for a feature. */
  function Ms2Of(f: Feature, p: PrepParams): Peaks
    requires Aligned(f) && f.ms2Raw.Some? && f.mz >= 0.0
  {
    Ms2.Ms2Preprocess(f.mz, f.ms2Raw.value, p.ms2Tol, p.ppm, p.relCutoff, p.topNPer50Da)
  }

  /** `data_preprocess`: MS1 is processed when the raw MS1 spectrum is truthy,
      then MS2 when the raw MS2 spectrum is. An exception from MS1 leaves both
      processed fields as they were. */
  function Preprocess(f: Feature, p: PrepParams): Step
    requires Aligned(f) && f.mz >= 0.0
  {
    if Truthy(f.ms1Raw) && Ms1Of(f, p).Err? then Step(f, Some(Ms1Of(f, p).exc))
    else
      var g := if Truthy(f.ms1Raw) then f.(ms1Processed := Some(Ms1Of(f, p).value)) else f;
      var h := if Truthy(f.ms2Raw) then g.(ms2Processed := Some(Ms2Of(f, p))) else g;
      Step(h, None)
  }

  /** Preprocessing touches only the two processed fields; each is set exactly
      when its raw spectrum is truthy (and MS1 did not raise); the only
      exception is the ZeroDivisionError of an isotope step for a charge-0
      adduct; MS1 peaks are drawn from the raw MS1 spectrum, and MS2 peaks
      form an increasing subsequence of the raw MS2 peaks, all below the
      de-precursor bound. */
  lemma PreprocessFacts(f: Feature, p: PrepParams)
    requires Aligned(f) && f.mz >= 0.0
    ensures var s := Preprocess(f, p).state;
      s == f.(ms1Processed := s.ms1Processed, ms2Processed := s.ms2Processed)
    ensures var st := Preprocess(f, p);
      st.exc.Some? <==> Truthy(f.ms1Raw) && Ms1Of(f, p).Err?
    ensures var st := Preprocess(f, p);
      st.exc.Some? ==> st.exc == Some(ZeroDivisionError) && f.adduct.charge == 0 && st.state == f
    ensures var st := Preprocess(f, p);
      st.exc.None? ==>
        (st.state.ms1Processed == if Truthy(f.ms1Raw) then Some(Ms1Of(f, p).value) else f.ms1Processed)
        && (st.state.ms2Processed == if Truthy(f.ms2Raw) then Some(Ms2Of(f, p)) else f.ms2Processed)
    ensures var st := Preprocess(f, p);
      st.exc.None? && Truthy(f.ms1Raw) ==> DrawnFrom(st.state.ms1Processed.value, f.ms1Raw.value)
    ensures var st := Preprocess(f, p);
      st.exc.None? && Truthy(f.ms2Raw) ==>
        Ms2.Ordered(st.state.ms2Processed.value, f.ms2Raw.value)
        && Ms2.AllBelow(st.state.ms2Processed.value, Ms2.DeprecursorBound(f.mz, p.ms2Tol, p.ppm))
  {
    if Truthy(f.ms1Raw) {
      Ms1ResultFacts(f, p);
    }
    if Truthy(f.ms2Raw) {
      Ms2.Ms2PreprocessFacts(f.mz, f.ms2Raw.value, p.ms2Tol, p.ppm, p.relCutoff, p.topNPer50Da);
    }
  }

  /** A feature whose preprocessing raised is left as it was. */
  lemma PreprocessRaisedKeeps(f: Feature, p: PrepParams)
    requires Aligned(f) && f.mz >= 0.0
    requires Preprocess(f, p).exc.Some?
    ensures Preprocess(f, p).state == f
  {
  }

  /** The MS1 step raises only ZeroDivisionError, only for a charge-0 adduct,
      and otherwise draws its peaks from the raw spectrum. */
  lemma Ms1ResultFacts(f: Feature, p: PrepParams)
    requires Aligned(f) && f.ms1Raw.Some?
    ensures Ms1Of(f, p).Err? ==> Ms1Of(f, p).exc == ZeroDivisionError && f.adduct.charge == 0
    ensures Ms1Of(f, p).Ok? ==> DrawnFrom(Ms1Of(f, p).value, f.ms1Raw.value)
  {
  }

  /** The summary dictionary of `summarize_result`: the five formula ranks are
      kept as a sequence of five entries. */
  datatype Summary = Summary(identifier: Ident, mz: real, rt: Option<real>, adduct: string,
                             ranks: seq<Option<string>>, estimatedFdr: Option<real>)

  /** The rank-`i` entry: the serialised formula of candidate `i`, if any. */
  function RankOf(cs: seq<Candidate>, i: nat): Option<string> {
    if i < |cs| then Some(FormArrToStr(cs[i].formula.counts)) else None
  }

  /** `summarize_result`: identifier, m/z, retention time and adduct string,
      then for a truthy candidate list the first five candidates' formulas and
      the first candidate's estimated FDR. */
  function Summarize(f: Feature): (r: Summary)
    ensures r.identifier == f.identifier && r.mz == f.mz && r.rt == f.rt && r.adduct == f.adduct.str
    ensures |r.ranks| == 5
    ensures r.estimatedFdr == if f.candidates.Some? && f.candidates.value != [] then f.candidates.value[0].estimatedFdr else None
  {
    var cs := if f.candidates.Some? then f.candidates.value else [];
    Summary(f.identifier, f.mz, f.rt, f.adduct.str,
            seq(5, i requires 0 <= i < 5 => RankOf(cs, i)),
            if cs != [] then cs[0].estimatedFdr else None)
  }

  /** The rank entries are the candidates' entries, treating no list as an
      empty one. */
  lemma SummarizeRanks(f: Feature, i: nat)
    requires i < 5
    ensures Summarize(f).ranks[i] == RankOf(if f.candidates.Some? then f.candidates.value else [], i)
  {
  }

  /** Rank `i` is present exactly when there is an `i`-th candidate, and then
      it is that candidate's formula string. */
  lemma SummarizeRank(f: Feature, i: nat)
    requires i < 5
    ensures Summarize(f).ranks[i].Some? <==> f.candidates.Some? && i < |f.candidates.value|
    ensures Summarize(f).ranks[i].Some? ==>
      Summarize(f).ranks[i].value == FormArrToStr(f.candidates.value[i].formula.counts)
  {
    SummarizeRanks(f, i);
  }

  /** `MetaFeature`, with the fields the core reads and writes. */
  class MetaFeature {
    var identifier: Ident
    var mz: real
    var rt: Option<real>
    var adduct: Rule
    var ms1Raw: Option<Spectrum>
    var ms2Raw: Option<Spectrum>
    var ms1Processed: Option<Peaks>
    var ms2Processed: Option<Peaks>
    var candidates: Option<seq<Candidate>>

    function State(): Feature
      reads this
    {
      Feature(identifier, mz, rt, adduct, ms1Raw, ms2Raw, ms1Processed, ms2Processed, candidates)
    }

    /** The fields set by the constructor once the charge and adduct are checked. */
    constructor Init(id: Ident, mz0: real, rt0: Option<real>, a: Rule, ms1: Option<Spectrum>, ms2: Option<Spectrum>)
      ensures State() == Feature(id, mz0, rt0, a, ms1, ms2, None, None, None)
    {
      identifier, mz, rt, adduct := id, mz0, rt0, a;
      ms1Raw, ms2Raw := ms1, ms2;
      ms1Processed, ms2Processed, candidates := None, None, None;
    }

    /** `MetaFeature(...)`: the object, or the exception the constructor raises. */
    static method Make(id: Ident, mz0: real, charge: int, rt0: Option<real>, adductStr: Option<string>,
                       ms1: Option<Spectrum>, ms2: Option<Spectrum>, rf: string -> Option<Vec>)
      returns (r: Result<MetaFeature>)
      ensures r.Err? <==> NewFeature(id, mz0, charge, rt0, adductStr, ms1, ms2, rf).Err?
      ensures r.Err? ==> r.exc == NewFeature(id, mz0, charge, rt0, adductStr, ms1, ms2, rf).exc
      ensures r.Ok? ==> fresh(r.value) && r.value.State() == NewFeature(id, mz0, charge, rt0, adductStr, ms1, ms2, rf).value
    {
      if charge == 0 {
        return Err(ValueError);
      }
      var a := Adduct.Make(adductStr, charge > 0, false, rf);
      if a.Err? {
        return Err(a.exc);
      }
      var mf := new MetaFeature.Init(id, mz0, rt0, a.value.Current(), ms1, ms2);
      return Ok(mf);
    }

    /** `data_preprocess`: fills in the processed spectra. */
    method DataPreprocess(p: PrepParams) returns (e: Option<Exc>)
      requires Aligned(State()) && mz >= 0.0
      modifies this
      ensures State() == Preprocess(old(State()), p).state
      ensures e == Preprocess(old(State()), p).exc
    {
      if ms1Raw.Some? && NonEmpty(ms1Raw.value) {
        var r := Ms1.ProcessMs1(mz, ms1Raw.value, adduct.charge, p.ms1Tol, p.ppm, p.isoTol,
                                p.maxIsotopeCnt, Ms1.MassNeutron);
        if r.Err? {
          return Some(r.exc);
        }
        ms1Processed := Some(r.value);
      }
      if ms2Raw.Some? && NonEmpty(ms2Raw.value) {
        var q := new Ms2.ProcessedMs2(mz, ms2Raw.value, p.ms2Tol, p.ppm, p.relCutoff, p.topNPer50Da);
        ms2Processed := Some(q.Current());
      }
      e := None;
    }
  }
}
