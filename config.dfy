/** `MsbuddyConfig`: instrument presets, defaulting of out-of-range
    parameters, and the element bounds in alphabet order. */
module Config {
  import opened PyStr
  import opened Formulas

  /** An element range `(lower, upper)`. */
  datatype Range = Range(lo: int, hi: int)

  /** The constructor's arguments. `msInstr` is None for Python's `None`. */
  datatype Settings = Settings(
    msInstr: Option<string>, ppm: bool, ms1Tol: real, ms2Tol: real,
    halogen: bool, parallel: bool, nCpu: int, timeoutSecs: real, batchSize: int,
    cRange: Range, hRange: Range, nRange: Range, oRange: Range, pRange: Range,
    sRange: Range, fRange: Range, clRange: Range, brRange: Range, iRange: Range,
    isotopeBinMztol: real, maxIsotopeCnt: int, relIntDenoiseCutoff: real, topNPer50Da: int)

  /** The keyword defaults of `MsbuddyConfig()`. */
  const DefaultSettings := Settings(
    None, true, 5.0, 10.0, false, false, -1, 300.0, 1000,
    Range(0, 80), Range(0, 150), Range(0, 20), Range(0, 30), Range(0, 10),
    Range(0, 15), Range(0, 20), Range(0, 15), Range(0, 10), Range(0, 10),
    0.02, 4, 0.01, 6)

  /** The attributes of a constructed configuration. */
  datatype Config = Config(
    ppm: bool, ms1Tol: real, ms2Tol: real, dbMode: int, parallel: bool, nCpu: int,
    timeoutSecs: real, batchSize: int, eleLower: Vec, eleUpper: Vec,
    isotopeBinMztol: real, maxIsotopeCnt: int, relIntDenoiseCutoff: real, topNPer50Da: int)

  /** The m/z tolerances: `ppm`, MS1 and MS2. */
  datatype Tolerances = Tolerances(ppm: bool, ms1Tol: real, ms2Tol: real)

  /** The instrument names with a preset. */
  const Instruments: seq<string> := ["orbitrap", "fticr", "qtof"]

  /** No instrument: Python's `None` or the string "None". */
  predicate NoInstrument(instr: Option<string>) { instr.None? || instr == Some("None") }

  /** The instrument preset: the user's tolerances without an instrument, the
      preset (always in ppm) for a known one, ValueError for any other name. */
  function Preset(st: Settings): (r: Result<Tolerances>)
    ensures r.Err? <==> !NoInstrument(st.msInstr) && st.msInstr.value !in Instruments
    ensures r.Err? ==> r.exc == ValueError
    ensures NoInstrument(st.msInstr) ==> r == Ok(Tolerances(st.ppm, st.ms1Tol, st.ms2Tol))
    ensures r.Ok? && !NoInstrument(st.msInstr) ==> r.value.ppm
    ensures st.msInstr == Some("orbitrap") ==> r == Ok(Tolerances(true, 5.0, 10.0))
    ensures st.msInstr == Some("fticr") ==> r == Ok(Tolerances(true, 2.0, 5.0))
    ensures st.msInstr == Some("qtof") ==> r == Ok(Tolerances(true, 10.0, 20.0))
  {
    if NoInstrument(st.msInstr) then Ok(Tolerances(st.ppm, st.ms1Tol, st.ms2Tol))
    else if st.msInstr.value in Instruments then
      if st.msInstr.value == "orbitrap" then Ok(Tolerances(true, 5.0, 10.0))
      else if st.msInstr.value == "fticr" then Ok(Tolerances(true, 2.0, 5.0))
      else Ok(Tolerances(true, 10.0, 20.0))
    else Err(ValueError)
  }

  /** `n_cpu`: kept when in (0, cpu_count], else cpu_count. */
  function CpuCount(given: int, cpu: int): (n: int)
    requires cpu >= 1
    ensures 1 <= n <= cpu
    ensures 0 < given <= cpu ==> n == given
    ensures !(0 < given <= cpu) ==> n == cpu
  {
    if given > cpu || given <= 0 then cpu else given
  }

  /** The timeout as written (main.py): the correction to 300 for a
      non-positive value is overwritten by the given value, then 30 seconds
      are added in parallel mode. */
  function TimeoutAsWritten(t: real, parallel: bool): real {
    if parallel then t + 30.0 else t
  }

  /** A non-positive timeout survives: -5 seconds stays -5 sequentially. */
  lemma TimeoutAsWrittenKeepsNonPositive(t: real)
    requires t <= 0.0
    ensures TimeoutAsWritten(t, false) == t
    ensures TimeoutAsWritten(-5.0, false) == -5.0
    ensures TimeoutAsWritten(t, true) <= 30.0
  {
  }

  /** The timeout as evidently intended: a non-positive value becomes 300,
      then 30 seconds are added in parallel mode. */
  function TimeoutCorrected(t: real, parallel: bool): (r: real)
    ensures r > 0.0
    ensures t > 0.0 ==> r == TimeoutAsWritten(t, parallel)
    ensures t <= 0.0 ==> r == TimeoutAsWritten(300.0, parallel)
  {
    var base := if t <= 0.0 then 300.0 else t;
    if parallel then base + 30.0 else base
  }

  /** `batch_size`: 1000 when at most 1. */
  function BatchSize(b: int): (r: int)
    ensures r >= 2
    ensures b > 1 ==> r == b
    ensures b <= 1 ==> r == 1000
  {
    if b <= 1 then 1000 else b
  }

  /** `isotope_bin_mztol`: 0.02 when not positive. */
  function IsotopeBin(t: real): (r: real)
    ensures r > 0.0
    ensures t > 0.0 ==> r == t
    ensures t <= 0.0 ==> r == 0.02
  {
    if t <= 0.0 then 0.02 else t
  }

  /** `max_isotope_cnt`: 4 when below 1. */
  function MaxIsotopeCount(n: int): (r: int)
    ensures r >= 1
    ensures n >= 1 ==> r == n
    ensures n < 1 ==> r == 4
  {
    if n < 1 then 4 else n
  }

  /** `rel_int_denoise_cutoff`: 0 when outside [0, 1). */
  function RelCutoff(c: real): (r: real)
    ensures 0.0 <= r < 1.0
    ensures 0.0 <= c < 1.0 ==> r == c
    ensures !(0.0 <= c < 1.0) ==> r == 0.0
  {
    if c < 0.0 || c >= 1.0 then 0.0 else c
  }

  /** `top_n_per_50_da`: 6 when below 1. */
  function TopNPer50Da(n: int): (r: int)
    ensures r >= 1
    ensures n >= 1 ==> r == n
    ensures n < 1 ==> r == 6
  {
    if n < 1 then 6 else n
  }

  function Bound(r: Range, lower: bool): int { if lower then r.lo else r.hi }

  /** The int16 bound array in alphabet order, with the K and Na slots 0. */
  function RawBounds(st: Settings, lower: bool): Vec {
    Int16Vec([Bound(st.cRange, lower), Bound(st.hRange, lower), Bound(st.brRange, lower),
              Bound(st.clRange, lower), Bound(st.fRange, lower), Bound(st.iRange, lower), 0,
              Bound(st.nRange, lower), 0, Bound(st.oRange, lower), Bound(st.pRange, lower),
              Bound(st.sRange, lower)])
  }

  /** `ele[2:6] = 0`: the Br, Cl, F and I slots cleared. */
  function HalogenFree(v: Vec): Vec {
    v[..2] + [0, 0, 0, 0] + v[6..]
  }

  /** A bound array of the configuration. */
  function ElementBounds(st: Settings, lower: bool): Vec {
    if st.halogen then RawBounds(st, lower) else HalogenFree(RawBounds(st, lower))
  }

  /** Every slot of each bound array holds the element's range in alphabet
      order as an int16, K and Na are 0, and without halogens Br, Cl, F and I
      are 0. */
  lemma ElementBoundsFacts(st: Settings, lower: bool)
    ensures var v := ElementBounds(st, lower);
      v[C] == Int16(Bound(st.cRange, lower)) && v[H] == Int16(Bound(st.hRange, lower))
      && v[N] == Int16(Bound(st.nRange, lower)) && v[O] == Int16(Bound(st.oRange, lower))
      && v[P] == Int16(Bound(st.pRange, lower)) && v[S] == Int16(Bound(st.sRange, lower))
      && v[K] == 0 && v[Na] == 0
    ensures var v := ElementBounds(st, lower);
      st.halogen ==>
        v[Br] == Int16(Bound(st.brRange, lower)) && v[Cl] == Int16(Bound(st.clRange, lower))
        && v[F] == Int16(Bound(st.fRange, lower)) && v[I] == Int16(Bound(st.iRange, lower))
    ensures var v := ElementBounds(st, lower);
      !st.halogen ==> v[Br] == 0 && v[Cl] == 0 && v[F] == 0 && v[I] == 0
  {
  }

  /** Neither bound is negative and the lower never exceeds the upper. */
  predicate BoundsValid(lo: Vec, hi: Vec) {
    (forall k :: 0 <= k < 12 ==> lo[k] >= 0 && hi[k] >= 0)
    && (forall k :: 0 <= k < 12 ==> lo[k] <= hi[k])
  }

  /** `MsbuddyConfig(...)` with `cpu_count()` as the parameter `cpu`. */
  function Configure(st: Settings, cpu: int): Result<Config>
    requires cpu >= 1
  {
    match Preset(st)
    case Err(e) => Err(e)
    case Ok(tol) =>
      var lo := ElementBounds(st, true);
      var hi := ElementBounds(st, false);
      if !BoundsValid(lo, hi) then Err(ValueError)
      else
        Ok(Config(tol.ppm, tol.ms1Tol, tol.ms2Tol, if st.halogen then 1 else 0, st.parallel,
                  CpuCount(st.nCpu, cpu), TimeoutCorrected(st.timeoutSecs, st.parallel),
                  BatchSize(st.batchSize), lo, hi, IsotopeBin(st.isotopeBinMztol),
                  MaxIsotopeCount(st.maxIsotopeCnt), RelCutoff(st.relIntDenoiseCutoff),
                  TopNPer50Da(st.topNPer50Da)))
  }

  /** What every constructed configuration satisfies. */
  predicate Sane(c: Config, cpu: int) {
    1 <= c.nCpu <= cpu && c.timeoutSecs > 0.0 && c.batchSize >= 2
    && c.isotopeBinMztol > 0.0 && c.maxIsotopeCnt >= 1
    && 0.0 <= c.relIntDenoiseCutoff < 1.0 && c.topNPer50Da >= 1
    && (c.dbMode == 0 || c.dbMode == 1)
    && BoundsValid(c.eleLower, c.eleUpper)
    && c.eleLower[K] == 0 && c.eleUpper[K] == 0 && c.eleLower[Na] == 0 && c.eleUpper[Na] == 0
  }

  /** The constructor raises ValueError exactly for an unknown instrument or
      invalid element bounds; otherwise every parameter is in range and the
      tolerances are those of the preset. */
  lemma ConfigureFacts(st: Settings, cpu: int)
    requires cpu >= 1
    ensures Configure(st, cpu).Err? <==>
      Preset(st).Err? || !BoundsValid(ElementBounds(st, true), ElementBounds(st, false))
    ensures Configure(st, cpu).Err? ==> Configure(st, cpu).exc == ValueError
    ensures Configure(st, cpu).Ok? ==> Sane(Configure(st, cpu).value, cpu)
    ensures Configure(st, cpu).Ok? ==>
      var c := Configure(st, cpu).value;
      Tolerances(c.ppm, c.ms1Tol, c.ms2Tol) == Preset(st).value && c.parallel == st.parallel
      && (c.dbMode == 1 <==> st.halogen)
  {
    ElementBoundsFacts(st, true);
    ElementBoundsFacts(st, false);
  }

  /** With the keyword defaults: ppm tolerances 5 and 10, no halogens, a
      sequential 300-second timeout and batches of 1000. */
  lemma DefaultConfig(cpu: int)
    requires cpu >= 1
    ensures Configure(DefaultSettings, cpu).Ok?
    ensures var c := Configure(DefaultSettings, cpu).value;
      c.ppm && c.ms1Tol == 5.0 && c.ms2Tol == 10.0 && c.dbMode == 0 && c.nCpu == cpu
      && c.timeoutSecs == 300.0 && c.batchSize == 1000 && c.eleUpper[C] == 80 && c.eleUpper[Br] == 0
  {
    DefaultBounds();
  }

  /** The default bounds: all lower bounds 0, upper bounds C 80, H 150, N 20,
      O 30, P 10, S 15 and no halogens. */
  lemma DefaultBounds()
    ensures BoundsValid(ElementBounds(DefaultSettings, true), ElementBounds(DefaultSettings, false))
    ensures ElementBounds(DefaultSettings, false)[C] == 80 && ElementBounds(DefaultSettings, false)[Br] == 0
  {
    SmallBoundsValid(DefaultSettings);
  }

  /** Without halogens, ranges of non-negative int16 values with lower <= upper
      give valid bounds that keep the given values. */
  lemma SmallBoundsValid(st: Settings)
    requires !st.halogen
    requires forall r :: r in [st.cRange, st.hRange, st.nRange, st.oRange, st.pRange, st.sRange] ==>
      0 <= r.lo <= r.hi < 32768
    ensures BoundsValid(ElementBounds(st, true), ElementBounds(st, false))
    ensures ElementBounds(st, false)[C] == st.cRange.hi && ElementBounds(st, false)[Br] == 0
  {
    ElementBoundsFacts(st, true);
    ElementBoundsFacts(st, false);
    var lo, hi := ElementBounds(st, true), ElementBounds(st, false);
    assert st.cRange in [st.cRange, st.hRange, st.nRange, st.oRange, st.pRange, st.sRange];
    assert st.hRange in [st.cRange, st.hRange, st.nRange, st.oRange, st.pRange, st.sRange];
    assert st.nRange in [st.cRange, st.hRange, st.nRange, st.oRange, st.pRange, st.sRange];
    assert st.oRange in [st.cRange, st.hRange, st.nRange, st.oRange, st.pRange, st.sRange];
    assert st.pRange in [st.cRange, st.hRange, st.nRange, st.oRange, st.pRange, st.sRange];
    assert st.sRange in [st.cRange, st.hRange, st.nRange, st.oRange, st.pRange, st.sRange];
    forall k | 0 <= k < 12 ensures lo[k] >= 0 && hi[k] >= 0 && lo[k] <= hi[k] {
      assert k == C || k == H || k == Br || k == Cl || k == F || k == I || k == K
          || k == N || k == Na || k == O || k == P || k == S;
    }
  }

  /** `MsbuddyConfig`, with the attributes set by the constructor. */
  class MsbuddyConfig {
    var ppm: bool
    var ms1Tol: real
    var ms2Tol: real
    var dbMode: int
    var parallel: bool
    var nCpu: int
    var timeoutSecs: real
    var batchSize: int
    var eleLower: Vec
    var eleUpper: Vec
    var isotopeBinMztol: real
    var maxIsotopeCnt: int
    var relIntDenoiseCutoff: real
    var topNPer50Da: int

    function Current(): Config
      reads this
    {
      Config(ppm, ms1Tol, ms2Tol, dbMode, parallel, nCpu, timeoutSecs, batchSize, eleLower, eleUpper,
             isotopeBinMztol, maxIsotopeCnt, relIntDenoiseCutoff, topNPer50Da)
    }

    /** An object before any attribute is set (placeholders). */
    constructor Init()
      ensures fresh(this)
    {
      ppm, ms1Tol, ms2Tol, dbMode, parallel, nCpu := false, 0.0, 0.0, 0, false, 1;
      timeoutSecs, batchSize, eleLower, eleUpper := 0.0, 0, Zero, Zero;
      isotopeBinMztol, maxIsotopeCnt, relIntDenoiseCutoff, topNPer50Da := 0.0, 0, 0.0, 0;
    }

    /** `MsbuddyConfig(...)`: the object, or the ValueError the constructor raises. */
    static method Make(st: Settings, cpu: int) returns (r: Result<MsbuddyConfig>)
      requires cpu >= 1
      ensures r.Err? <==> Configure(st, cpu).Err?
      ensures r.Err? ==> r.exc == ValueError
      ensures r.Ok? ==> fresh(r.value) && r.value.Current() == Configure(st, cpu).value
    {
      var c := new MsbuddyConfig.Init();
      var ok := c.SetTolerances(st);
      if !ok {
        return Err(ValueError);
      }
      c.SetRuntime(st, cpu);
      ok := c.SetBounds(st);
      if !ok {
        return Err(ValueError);
      }
      c.SetSpectrumParams(st);
      return Ok(c);
    }

    /** The instrument preset, or false for an unknown instrument. */
    method SetTolerances(st: Settings) returns (ok: bool)
      modifies this
      ensures ok <==> Preset(st).Ok?
      ensures ok ==> Tolerances(ppm, ms1Tol, ms2Tol) == Preset(st).value
    {
      ok := true;
      if st.msInstr.None? || st.msInstr == Some("None") {
        ppm, ms1Tol, ms2Tol := st.ppm, st.ms1Tol, st.ms2Tol;
      } else if st.msInstr.value in ["orbitrap", "fticr", "qtof"] {
        ppm := true;
        if st.msInstr.value == "orbitrap" {
          ms1Tol, ms2Tol := 5.0, 10.0;
        } else if st.msInstr.value == "fticr" {
          ms1Tol, ms2Tol := 2.0, 5.0;
        } else {
          ms1Tol, ms2Tol := 10.0, 20.0;
        }
      } else {
        ok := false;
      }
    }

    /** The database mode, parallelism, CPU count, timeout and batch size. */
    method SetRuntime(st: Settings, cpu: int)
      requires cpu >= 1
      modifies this
      ensures ppm == old(ppm) && ms1Tol == old(ms1Tol) && ms2Tol == old(ms2Tol)
      ensures dbMode == (if st.halogen then 1 else 0) && parallel == st.parallel
      ensures nCpu == CpuCount(st.nCpu, cpu)
      ensures timeoutSecs == TimeoutCorrected(st.timeoutSecs, st.parallel)
      ensures batchSize == BatchSize(st.batchSize)
    {
      dbMode := if st.halogen then 1 else 0;
      parallel := st.parallel;
      if st.nCpu > cpu || st.nCpu <= 0 {
        nCpu := cpu;
      } else {
        nCpu := st.nCpu;
      }
      // The corrected timeout (see TimeoutAsWritten for the code as written).
      if st.timeoutSecs <= 0.0 {
        timeoutSecs := 300.0;
      } else {
        timeoutSecs := st.timeoutSecs;
      }
      if parallel {
        timeoutSecs := timeoutSecs + 30.0;
      }
      if st.batchSize <= 1 {
        batchSize := 1000;
      } else {
        batchSize := st.batchSize;
      }
    }

    /** The element bounds, and whether they pass both range checks. */
    method SetBounds(st: Settings) returns (ok: bool)
      modifies this
      ensures ppm == old(ppm) && ms1Tol == old(ms1Tol) && ms2Tol == old(ms2Tol)
      ensures dbMode == old(dbMode) && parallel == old(parallel) && nCpu == old(nCpu)
      ensures timeoutSecs == old(timeoutSecs) && batchSize == old(batchSize)
      ensures eleLower == ElementBounds(st, true) && eleUpper == ElementBounds(st, false)
      ensures ok <==> BoundsValid(eleLower, eleUpper)
    {
      eleLower := RawBounds(st, true);
      eleUpper := RawBounds(st, false);
      if !st.halogen {
        eleLower := eleLower[..2] + [0, 0, 0, 0] + eleLower[6..];
        eleUpper := eleUpper[..2] + [0, 0, 0, 0] + eleUpper[6..];
      }
      ok := true;
      if exists k :: 0 <= k < 12 && (eleLower[k] < 0 || eleUpper[k] < 0) {
        ok := false;
      } else if exists k :: 0 <= k < 12 && eleLower[k] > eleUpper[k] {
        ok := false;
      }
    }

    /** The isotope and MS2 parameters, each corrected when out of range. */
    method SetSpectrumParams(st: Settings)
      modifies this
      ensures ppm == old(ppm) && ms1Tol == old(ms1Tol) && ms2Tol == old(ms2Tol)
      ensures dbMode == old(dbMode) && parallel == old(parallel) && nCpu == old(nCpu)
      ensures timeoutSecs == old(timeoutSecs) && batchSize == old(batchSize)
      ensures eleLower == old(eleLower) && eleUpper == old(eleUpper)
      ensures isotopeBinMztol == IsotopeBin(st.isotopeBinMztol)
      ensures maxIsotopeCnt == MaxIsotopeCount(st.maxIsotopeCnt)
      ensures relIntDenoiseCutoff == RelCutoff(st.relIntDenoiseCutoff)
      ensures topNPer50Da == TopNPer50Da(st.topNPer50Da)
    {
      if st.isotopeBinMztol <= 0.0 {
        isotopeBinMztol := 0.02;
      } else {
        isotopeBinMztol := st.isotopeBinMztol;
      }
      if st.maxIsotopeCnt < 1 {
        maxIsotopeCnt := 4;
      } else {
        maxIsotopeCnt := st.maxIsotopeCnt;
      }
      if st.relIntDenoiseCutoff < 0.0 || st.relIntDenoiseCutoff >= 1.0 {
        relIntDenoiseCutoff := 0.0;
      } else {
        relIntDenoiseCutoff := st.relIntDenoiseCutoff;
      }
      if st.topNPer50Da < 1 {
        topNPer50Da := 6;
      } else {
        topNPer50Da := st.topNPer50Da;
      }
    }
  }
}
