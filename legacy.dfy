/** The older module of the package: its `Adduct` (style check first, then
    the abbreviations, then the common table on the expanded string; a
    per-character check; a one-character charge; `m` kept as a character),
    its MS1 helpers `_func_a`/`_func_b` and its fragment budget for MS2. The
    segmentation of the add and loss runs is the same code as in the newer
    module and is shared with it. */
module Legacy {
  import opened PyStr
  import opened Formulas
  import opened Segments
  import opened Adducts
  import opened Sorting
  import opened Spectra
  import opened Ms2
  import Ms1

  // ---------------------------------------------------------------- Adduct

  /** `self.m`: the character before the first `M` when it is a digit, else
      the integer 1. */
  datatype MValue = MCount(n: int) | MChar(c: char)

  /** The fields of the older `Adduct` once the constructor has returned. */
  datatype LegacyRule = LegacyRule(str: string, posMode: bool, charge: int, m: MValue,
                                   net: Formula, loss: Option<Formula>)

  /** A rule of the newer module with its integer `m`. */
  function OfRule(r: Rule): LegacyRule {
    LegacyRule(r.str, r.posMode, r.charge, MCount(r.m), r.net, r.loss)
  }

  /** The older `_exchange` stops after `TFA`: the first twelve replacements. */
  const LegacyAbbrevCount := 12

  /** The replacements `i` .. 11 applied in turn. */
  function LegacyExchangeFrom(s: string, i: nat): string
    decreases LegacyAbbrevCount - i
  {
    if i >= LegacyAbbrevCount then s
    else LegacyExchangeFrom(Replace(s, Abbrevs[i].0, Abbrevs[i].1), i + 1)
  }

  /** The older `_exchange`. */
  function LegacyExchange(s: string): string {
    LegacyExchangeFrom(s, 0)
  }

  lemma {:induction false} ExchangeExtendsLegacy(s: string, i: nat)
    requires i <= LegacyAbbrevCount
    ensures ExchangeFrom(s, i) == ExchangeFrom(LegacyExchangeFrom(s, i), LegacyAbbrevCount)
    decreases LegacyAbbrevCount - i
  {
    if i < LegacyAbbrevCount {
      ExchangeExtendsLegacy(Replace(s, Abbrevs[i].0, Abbrevs[i].1), i + 1);
    }
  }

  /** The newer `_exchange` is the older one followed by `MeOH` to `CH4O`. */
  lemma ExchangeIsLegacyThenMeOH(s: string)
    ensures Exchange(s) == Replace(LegacyExchange(s), "MeOH", "CH4O")
  {
    ExchangeExtendsLegacy(s, 0);
    var x := LegacyExchange(s);
    assert Abbrevs[12] == ("MeOH", "CH4O");
    assert ExchangeFrom(x, 12) == ExchangeFrom(Replace(x, "MeOH", "CH4O"), 13);
  }

  /** The older `_check_valid_character`: every character of the segment is
      in the list, whose two-letter entries never equal one character. */
  predicate PerCharValid(seg: string) {
    forall k :: 0 <= k < |seg| ==> IsSingle(seg[k])
  }

  function LegacyCharsValid(s: string): (r: Result<bool>)
    ensures r.Err? <==> CharSegment(s).Err?
  {
    match CharSegment(s)
    case Err(e) => Err(e)
    case Ok(seg) => Ok(PerCharValid(seg))
  }

  /** The older check accepts only what the newer greedy check accepts. */
  lemma LegacyCharsStricter(s: string)
    requires LegacyCharsValid(s) == Ok(true)
    ensures CharsValid(s) == Ok(true)
  {
    var seg := CharSegment(s).value;
    CharacterCheckMeaning(seg);
    assert forall k :: 0 <= k < |seg| ==> LocallyValid(seg, k) by {
      forall k | 0 <= k < |seg| ensures LocallyValid(seg, k) {
        assert IsSingle(seg[k]);
      }
    }
  }

  /** The second letters of Na, Cl and Br fail the older check. */
  lemma SecondLetterRejected(s: string, k: nat)
    requires CharSegment(s).Ok? && k < |CharSegment(s).value|
    requires CharSegment(s).value[k] in "alr"
    ensures LegacyCharsValid(s) == Ok(false)
  {
    var seg := CharSegment(s).value;
    assert !IsSingle(seg[k]);
  }

  /** Python's `s[len(s) - 2]`: with one character, index -1 is that character. */
  function BeforeLast(s: string): char
    requires s != []
  {
    if |s| >= 2 then s[|s| - 2] else s[0]
  }

  /** The older `_calc_charge`: the single character before the trailing
      sign; `]` or a non-digit gives 1, a digit gives its value; negated in
      negative mode. */
  function LegacyCharge(s: string, pos: bool): (c: int)
    requires s != []
    ensures pos ==> 0 <= c <= 9
    ensures !pos ==> -9 <= c <= 0
    ensures (BeforeLast(s) == ']' || !IsDigit(BeforeLast(s))) ==> c == (if pos then 1 else -1)
  {
    var ch := BeforeLast(s);
    var v := if ch != ']' && IsDigit(ch) then DigitVal(ch) else 1;
    if pos then v else -v
  }

  /** Where the charge text after `]` is empty, both charges are the unit. */
  lemma LegacyChargeAgreesUnit(s: string, pre: string, sign: char, pos: bool)
    requires ']' !in pre && sign == (if pos then '+' else '-')
    requires s == pre + "]" + [sign]
    ensures CalcCharge(s, pos) == Ok(LegacyCharge(s, pos))
  {
    AfterBracketIs(pre, [sign]);
    assert Remove([sign], sign) == "";
    assert s[|s| - 2] == ']';
  }

  /** Where the charge text after `]` is one digit, both charges read it. */
  lemma LegacyChargeAgreesDigit(s: string, pre: string, d: char, sign: char, pos: bool)
    requires ']' !in pre && sign == (if pos then '+' else '-') && IsDigit(d)
    requires s == pre + "]" + [d, sign]
    ensures CalcCharge(s, pos).Ok? && CalcCharge(s, pos).value == LegacyCharge(s, pos)
  {
    AfterBracketIs(pre, [d, sign]);
    DigitCalcCharge(s, d, sign, pos);
    DigitLegacyCharge(s, pre, d, sign, pos);
  }

  /** The newer charge of a string whose text after `]` is `d±`. */
  lemma DigitCalcCharge(s: string, d: char, sign: char, pos: bool)
    requires sign == (if pos then '+' else '-') && IsDigit(d)
    requires AfterBracket(s) == Ok([d, sign])
    ensures CalcCharge(s, pos) == Ok(if pos then DigitVal(d) as int else -(DigitVal(d) as int))
  {
    DigitText(d, sign);
    if pos {
      PositiveChargeOf(s, [d, sign], DigitVal(d));
    } else {
      NegativeChargeOf(s, [d, sign], DigitVal(d));
    }
  }

  /** The charge text `d±` without its sign reads as the digit. */
  lemma DigitText(d: char, sign: char)
    requires IsDigit(d) && (sign == '+' || sign == '-')
    ensures Remove([d, sign], sign) == [d] && PyInt([d]) == Some(DigitVal(d))
  {
    assert [d, sign][1..] == [sign];
    PyIntDigit(d);
  }

  /** The older charge of `pre]d±`. */
  lemma DigitLegacyCharge(s: string, pre: string, d: char, sign: char, pos: bool)
    requires ']' !in pre && sign == (if pos then '+' else '-') && IsDigit(d)
    requires s == pre + "]" + [d, sign]
    ensures LegacyCharge(s, pos) == (if pos then DigitVal(d) as int else -(DigitVal(d) as int))
  {
    assert BeforeLast(s) == d by {
      assert s[|s| - 2] == d;
    }
  }

  /** `split(']')[1]` of a string with one `]` after `pre`. */
  lemma AfterBracketIs(pre: string, rest: string)
    requires ']' !in pre && ']' !in rest
    ensures AfterBracket(pre + "]" + rest) == Ok(rest)
  {
    var s := pre + "]" + rest;
    assert s[|pre|] == ']' && s[..|pre|] == pre;
    IndexOfAt(s, ']', |pre|);
    assert s[|pre| + 1..] == rest;
    assert rest[..|rest|] == rest;
    TakeUntilPrefix(rest, ']', |rest|);
  }

  /** `int(d)` for one digit. */
  lemma PyIntDigit(d: char)
    requires IsDigit(d)
    ensures PyInt([d]) == Some(DigitVal(d))
  {
    var s := [d];
    assert StripSpace(s) == s by {
      assert !IsSpace(s[0]);
    }
    assert DigitGroups(s);
    assert Remove(s, '_') == s;
    assert DecVal(s) == 10 * DecVal(s[..0]) + DigitVal(d);
  }

  /** The older `_calc_m`: count the characters before the first `M` (all of
      them when there is none) and look one back, index -1 being the last. */
  function LegacyM(s: string): (m: MValue)
    requires s != []
  {
    var k := if IndexOf(s, 'M').Some? then IndexOf(s, 'M').value else |s|;
    var c := if k == 0 then s[|s| - 1] else s[k - 1];
    if IsDigit(c) then MChar(c) else MCount(1)
  }

  /** With an `M` present, the older `m` is the newer one, kept as the digit
      character where there is one. */
  lemma LegacyMAgrees(s: string)
    requires 'M' in s
    ensures CalcM(s).Ok?
    ensures LegacyM(s).MChar? ==> IsDigit(LegacyM(s).c) && CalcM(s).value == DigitVal(LegacyM(s).c)
    ensures LegacyM(s).MCount? ==> LegacyM(s).n == 1 && CalcM(s).value == 1
  {
  }

  /** The older `read_formula`, as a function: the parser's counts checked
      against the alphabet. */
  function LegacyReader(parse: string -> Option<map<string, int>>): string -> Option<Vec> {
    form => if parse(form).None? then None else FromCounts(parse(form).value)
  }

  /** The older `Formula(array=v, charge=0)`: the array is stored as given, with
      no int16 conversion. Within the int16 range it is the newer formula. */
  function LegacyNeutral(v: Vec): (f: Formula)
    ensures f.counts == v && f.charge == 0 && f.isotope == 0 && f.dbe == Dbe(v)
    ensures f.dbe == Neutral(v).dbe && Int16Vec(f.counts) == Neutral(v).counts
    ensures (forall i :: 0 <= i < 12 ==> -32768 <= v[i] < 32768) ==> f == Neutral(v)
  {
    Formula(v, 0, 0, Dbe(v))
  }

  /** The older `_calc_loss_and_net_formula`: the same segmentation, repeat
      expansion and formula reading as the newer one, with both formulas built
      by the older constructor. */
  function LegacyLossAndNet(s: string, parse: string -> Option<map<string, int>>): Net {
    match Groups(s)
    case Err(e) => NetErr(e)
    case Ok(None) => NetFallback
    case Ok(Some(parts)) => LegacyNetOfParts(parts, parse)
  }

  /** The part of the older `_calc_loss_and_net_formula` after the group loop. */
  function LegacyNetOfParts(parts: Parts, parse: string -> Option<map<string, int>>): Net {
    match Expand(parts.loss, '-', false)
    case Fallback => NetFallback
    case IndexFault => NetErr(IndexError)
    case Scanned(loss) =>
      match Expand(parts.add, '+', true)
      case Fallback => NetFallback
      case IndexFault => NetErr(IndexError)
      case Scanned(add) =>
        var la := LegacyReader(parse)(Remove(loss, '-'));
        var aa := LegacyReader(parse)(Remove(add, '+'));
        if la.None? || aa.None? then NetErr(TypeError)
        else NetOk(LegacyNeutral(Sub(aa.value, la.value)), LegacyNeutral(la.value))
  }

  /** The older net computation has the outcome of the newer one on the same
      reader; where both succeed, the older formulas hold the arrays as read and
      the newer ones their int16 wrap, so the two agree in the int16 range. */
  lemma LegacyNetWraps(s: string, parse: string -> Option<map<string, int>>)
    ensures var o, n := LegacyLossAndNet(s, parse), LossAndNet(s, LegacyReader(parse));
      WrapsTo(o, n)
  {
    if Groups(s).Ok? && Groups(s).value.Some? {
      LegacyPartsWrap(Groups(s).value.value, parse);
    }
  }

  /** The same after the group loop. */
  lemma LegacyPartsWrap(parts: Parts, parse: string -> Option<map<string, int>>)
    ensures WrapsTo(LegacyNetOfParts(parts, parse), NetOfParts(parts, LegacyReader(parse)))
  {
  }

  /** `n` is the outcome `o` with its formulas stored as int16. */
  predicate WrapsTo(o: Net, n: Net) {
    (o.NetOk? <==> n.NetOk?) && (!o.NetOk? ==> o == n)
    && (o.NetOk? ==>
          n.net == Neutral(o.net.counts) && n.loss == Neutral(o.loss.counts)
          && o.net == LegacyNeutral(o.net.counts) && o.loss == LegacyNeutral(o.loss.counts))
  }

  /** A count beyond int16 survives in the older formulas: `[M+C40000]+` read
      as 40000 carbons has a net of 40000 carbons, where the newer formula
      would hold -25536. */
  lemma LegacyKeepsLargeCounts(v: Vec)
    requires v[C] == 40000
    ensures LegacyNeutral(v).counts[C] == 40000 && Neutral(v).counts[C] == -25536
  {
  }

  /** The older `Adduct(string, pos_mode)`. Every style, character or
      segmentation failure falls back to the default; the string-index,
      formula-subtraction and repeat-digit errors raise. */
  function LegacyParse(input: Option<string>, pos: bool, parse: string -> Option<map<string, int>>)
    : Result<LegacyRule>
  {
    var s := Stripped(input, pos);
    if !ValidStyle(s, pos) then Ok(OfRule(Default(pos)))
    else
      var x := LegacyExchange(s);
      match Common(x, pos)
      case Some(r) => Ok(OfRule(r))
      case None => LegacyGeneral(x, pos, parse)
  }

  /** The steps after the table lookup: the character check, then the charge,
      `m` and the formulas. */
  function LegacyGeneral(x: string, pos: bool, parse: string -> Option<map<string, int>>): Result<LegacyRule> {
    match LegacyCharsValid(x)
    case Err(e) => Err(e)
    case Ok(ok) =>
      if !ok then Ok(OfRule(Default(pos)))
      else
        match LegacyLossAndNet(x, parse)
        case NetFallback => Ok(OfRule(Default(pos)))
        case NetErr(e) => Err(e)
        case NetOk(net, loss) => Ok(LegacyRule(x, pos, LegacyCharge(x, pos), LegacyM(x), net, Some(loss)))
  }

  /** There is no strict mode: a bad style always gives the default. */
  lemma LegacyStyleFallback(input: Option<string>, pos: bool, parse: string -> Option<map<string, int>>)
    requires !ValidStyle(Stripped(input, pos), pos)
    ensures LegacyParse(input, pos, parse) == Ok(OfRule(Default(pos)))
  {
  }

  /** The common table is consulted on the expanded string. */
  lemma LegacyTableAfterExchange(input: Option<string>, pos: bool, parse: string -> Option<map<string, int>>)
    requires ValidStyle(Stripped(input, pos), pos)
    requires Common(LegacyExchange(Stripped(input, pos)), pos).Some?
    ensures LegacyParse(input, pos, parse) == Ok(OfRule(Common(LegacyExchange(Stripped(input, pos)), pos).value))
  {
  }

  /** An expanded non-table adduct with `a`, `l` or `r` between `M` and `]`
      (as in Na, Cl, Br) falls back to the default. */
  lemma LegacySecondLetterFallback(input: Option<string>, pos: bool, parse: string -> Option<map<string, int>>, k: nat)
    requires ValidStyle(Stripped(input, pos), pos)
    requires Common(LegacyExchange(Stripped(input, pos)), pos).None?
    requires CharSegment(LegacyExchange(Stripped(input, pos))).Ok?
    requires k < |CharSegment(LegacyExchange(Stripped(input, pos))).value|
    requires CharSegment(LegacyExchange(Stripped(input, pos))).value[k] in "alr"
    ensures LegacyParse(input, pos, parse) == Ok(OfRule(Default(pos)))
  {
    SecondLetterRejected(LegacyExchange(Stripped(input, pos)), k);
  }

  /** Whatever the input, a returned rule is in the mode asked for, and its
      charge has one digit. */
  lemma LegacyParsedShape(input: Option<string>, pos: bool, parse: string -> Option<map<string, int>>)
    requires LegacyParse(input, pos, parse).Ok?
    ensures LegacyParse(input, pos, parse).value.posMode == pos
    ensures pos ==> 0 <= LegacyParse(input, pos, parse).value.charge <= 9
    ensures !pos ==> -9 <= LegacyParse(input, pos, parse).value.charge <= 0
  {
    var s := Stripped(input, pos);
    if ValidStyle(s, pos) {
      GeneralShape(LegacyExchange(s), pos, parse);
    }
  }

  /** The same, after the style check, on the expanded string `x`. */
  lemma GeneralShape(x: string, pos: bool, parse: string -> Option<map<string, int>>)
    ensures var w := if Common(x, pos).Some? then Ok(OfRule(Common(x, pos).value))
      else match LegacyCharsValid(x)
        case Err(e) => Err(e)
        case Ok(ok) =>
          if !ok then Ok(OfRule(Default(pos)))
          else match LegacyLossAndNet(x, parse)
            case NetFallback => Ok(OfRule(Default(pos)))
            case NetErr(e) => Err(e)
            case NetOk(net, loss) => Ok(LegacyRule(x, pos, LegacyCharge(x, pos), LegacyM(x), net, Some(loss)));
      w.Ok? ==> w.value.posMode == pos && (pos ==> 0 <= w.value.charge <= 9) && (!pos ==> -9 <= w.value.charge <= 0)
  {
  }

  /** The older `Adduct` object. */
  class LegacyAdduct {
    var str: string
    var posMode: bool
    var charge: int
    var m: MValue
    var net: Formula
    var loss: Option<Formula>

    function Current(): LegacyRule
      reads this
    {
      LegacyRule(str, posMode, charge, m, net, loss)
    }

    /** The first two statements of `__init__`; the other fields start as
        placeholders. */
    constructor Init(input: Option<string>, pos: bool)
      ensures str == Stripped(input, pos) && posMode == pos
      ensures charge == 0 && m == MCount(0) && net == MakeFormula(Zero, 0) && loss == None
    {
      if input.None? {
        str := if pos then "[M+H]+" else "[M-H]-";
      } else {
        str := Remove(input.value, ' ');
      }
      posMode := pos;
      charge, m, net, loss := 0, MCount(0), MakeFormula(Zero, 0), None;
    }

    /** `Adduct(string, pos_mode)` of the older module: the object, or the
        exception its constructor raises. */
    static method Make(input: Option<string>, pos: bool, parse: string -> Option<map<string, int>>)
      returns (r: Result<LegacyAdduct>)
      ensures r.Err? <==> LegacyParse(input, pos, parse).Err?
      ensures r.Err? ==> r.exc == LegacyParse(input, pos, parse).exc
      ensures r.Ok? ==> fresh(r.value) && r.value.Current() == LegacyParse(input, pos, parse).value
    {
      var a := new LegacyAdduct.Init(input, pos);
      if !ValidStyle(a.str, a.posMode) {
        a.MarkInvalid();
        return Ok(a);
      }
      a.ExchangeNames();
      var common := a.CheckCommon();
      if common {
        return Ok(a);
      }
      var e := a.ParseGeneral(parse);
      return if e.Some? then Err(e.value) else Ok(a);
    }

    /** The steps after the table lookup: the character check, `m`, the charge
        and the formulas. */
    method ParseGeneral(parse: string -> Option<map<string, int>>) returns (e: Option<Exc>)
      modifies this
      ensures var want := LegacyGeneral(old(str), old(posMode), parse);
        (e.Some? <==> want.Err?) && (e.Some? ==> e.value == want.exc) && (e.None? ==> Current() == want.value)
    {
      var chars := CheckValidCharacter();
      if chars.Err? {
        return Some(chars.exc);
      }
      if !chars.value {
        MarkInvalid();
        return None;
      }
      ComputeM();
      ComputeCharge();
      e := ComputeLossAndNet(parse);
    }

    /** The older `_exchange`: twelve replacements, in table order. */
    method ExchangeNames()
      modifies this
      ensures str == LegacyExchange(old(str))
      ensures posMode == old(posMode) && charge == old(charge) && m == old(m)
      ensures net == old(net) && loss == old(loss)
    {
      for i := 0 to LegacyAbbrevCount
        invariant LegacyExchangeFrom(str, i) == LegacyExchange(old(str))
        invariant posMode == old(posMode) && charge == old(charge) && m == old(m)
        invariant net == old(net) && loss == old(loss)
      {
        str := Replace(str, Abbrevs[i].0, Abbrevs[i].1);
      }
    }

    /** Sets every field from `r`. */
    method Load(r: LegacyRule)
      modifies this
      ensures Current() == r
    {
      str, posMode, charge, m, net, loss := r.str, r.posMode, r.charge, r.m, r.net, r.loss;
    }

    /** `_check_common`, on the expanded string. */
    method CheckCommon() returns (found: bool)
      modifies this
      ensures found == Common(old(str), old(posMode)).Some?
      ensures found ==> Current() == OfRule(Common(old(str), old(posMode)).value)
      ensures !found ==> Current() == old(Current())
    {
      var c := Common(str, posMode);
      if c.Some? {
        Load(OfRule(c.value));
      }
      found := c.Some?;
    }

    /** The older `_invalid`: the default rule, with no strict mode. */
    method MarkInvalid()
      modifies this
      ensures Current() == OfRule(Default(old(posMode)))
    {
      Load(OfRule(Default(posMode)));
    }

    /** The older `_check_valid_character`: `all(...)` over the segment. */
    method CheckValidCharacter() returns (r: Result<bool>)
      ensures r == LegacyCharsValid(str)
    {
      var mi := IndexOf(str, 'M');
      if mi.None? {
        return Err(ValueError);
      }
      var ri := IndexOf(str, ']');
      if ri.None? {
        return Err(ValueError);
      }
      var seg := Slice(str, mi.value + 1, ri.value);
      SegmentAt(str, mi.value, ri.value);
      for k := 0 to |seg|
        invariant forall j :: 0 <= j < k ==> IsSingle(seg[j])
      {
        if !IsSingle(seg[k]) {
          return Ok(false);
        }
      }
      return Ok(true);
    }

    /** The older `_calc_m`: the counting loop, then one character back. */
    method ComputeM()
      requires str != []
      modifies this
      ensures Current() == old(Current()).(m := LegacyM(old(str)))
    {
      var count := 0;
      while count < |str| && str[count] != 'M'
        invariant count <= |str|
        invariant 'M' !in str[..count]
      {
        assert str[..count + 1] == str[..count] + [str[count]];
        count := count + 1;
      }
      if count < |str| {
        IndexOfAt(str, 'M', count);
      } else {
        assert str[..count] == str;
      }
      var c := if count == 0 then str[|str| - 1] else str[count - 1];
      m := if IsDigit(c) then MChar(c) else MCount(1);
    }

    /** The older `_calc_charge`. */
    method ComputeCharge()
      requires str != []
      modifies this
      ensures Current() == old(Current()).(charge := LegacyCharge(old(str), old(posMode)))
    {
      var c := BeforeLast(str);
      var v: int := 1;
      if c != ']' && IsDigit(c) {
        v := DigitVal(c);
      }
      charge := if posMode then v else -v;
    }

    /** The older `_calc_loss_and_net_formula`, reading both formulas with the
        older `read_formula`. */
    method ComputeLossAndNet(parse: string -> Option<map<string, int>>) returns (e: Option<Exc>)
      modifies this
      ensures var n := LegacyLossAndNet(old(str), parse);
        (e.Some? <==> n.NetErr?) && (e.Some? ==> e.value == n.exc && Current() == old(Current()))
        && (n.NetFallback? ==> Current() == OfRule(Default(old(posMode))))
        && (n.NetOk? ==> Current() == old(Current()).(net := n.net, loss := Some(n.loss)))
    {
      var g := SplitGroups(str);
      if g.Err? {
        return Some(g.exc);
      }
      if g.value.None? {
        MarkInvalid();
        return None;
      }
      var n := LegacyNetFromParts(g.value.value, parse);
      match n
      case NetErr(x) => e := Some(x);
      case NetFallback =>
        MarkInvalid();
        e := None;
      case NetOk(nf, lf) =>
        net, loss := nf, Some(lf);
        e := None;
    }
  }

  /** The two repeat loops and the two calls of the older `read_formula`. */
  method LegacyNetFromParts(parts: Parts, parse: string -> Option<map<string, int>>) returns (n: Net)
    ensures n == LegacyNetOfParts(parts, parse)
  {
    var lossScan := ExpandRepeats(parts.loss, '-', false);
    if !lossScan.Scanned? {
      return if lossScan.Fallback? then NetFallback else NetErr(IndexError);
    }
    var addScan := ExpandRepeats(parts.add, '+', true);
    if !addScan.Scanned? {
      return if addScan.Fallback? then NetFallback else NetErr(IndexError);
    }
    var la := ReadFormula(parse, Remove(lossScan.text, '-'));
    var aa := ReadFormula(parse, Remove(addScan.text, '+'));
    if la.None? || aa.None? {
      return NetErr(TypeError);
    }
    return NetOk(LegacyNeutral(Sub(aa.value, la.value)), LegacyNeutral(la.value));
  }

  // ---------------------------------------------------------------- MS1

  /** The isotope spacing of `_func_b`. */
  const LegacyNeutron: real := 1.003355

  /** The older `ProcessedMS1`: `_func_a` for M0, then `_func_b`. Where no M0
      is found the older code returns before setting the arrays (None here). */
  method LegacyProcessMs1(mz: real, raw: Spectrum, charge: int, tol: real, ppm: bool,
                          isoTol: real, maxCnt: int)
    returns (r: Result<Option<Peaks>>)
    requires |raw.mz| == |raw.ints|
    ensures !NonEmpty(raw) ==> r == Ok(Some(NoPeaks))
    ensures NonEmpty(raw) ==>
      (r == Ok(None) <==> !exists k :: 0 <= k < |raw.mz| && Ms1.Dist(raw.mz[k], mz) <= Ms1.MzWindow(mz, tol, ppm))
    ensures r.Err? <==> NonEmpty(raw) && maxCnt >= 2 && charge == 0
                        && exists k :: 0 <= k < |raw.mz| && Ms1.Dist(raw.mz[k], mz) <= Ms1.MzWindow(mz, tol, ppm)
    ensures r.Err? ==> r.exc == ZeroDivisionError
    ensures r.Ok? && r.value.Some? && NonEmpty(raw) ==>
      var p := r.value.value;
      DrawnFrom(p, raw) && HasPeaks(p)
      && Ms1.Dist(raw.mz[p.idx[0]], mz) <= Ms1.MzWindow(mz, tol, ppm)
      && (forall k :: 0 <= k < |raw.mz| ==> Ms1.Dist(raw.mz[p.idx[0]], mz) <= Ms1.Dist(raw.mz[k], mz))
      && (forall k :: p.idx[0] < k < |raw.mz| ==> Ms1.Dist(raw.mz[p.idx[0]], mz) < Ms1.Dist(raw.mz[k], mz))
      && (maxCnt >= 2 ==> p.idx[1..] == Ms1.IsoSteps(raw.mz, mz, Ms1.Spacing(LegacyNeutron, charge), isoTol, 1, maxCnt - 1))
      && (maxCnt < 2 ==> p.idx == [p.idx[0]])
  {
    if !NonEmpty(raw) {
      return Ok(Some(NoPeaks));
    }
    var found, idx := Ms1.FindM0(mz, raw.mz, Ms1.MzWindow(mz, tol, ppm));
    if !found {
      return Ok(None);
    }
    var iso := Ms1.FindIsoPeaks(mz, raw.mz, charge, isoTol, maxCnt, LegacyNeutron);
    if iso.Err? {
      return Err(iso.exc);
    }
    var all := [idx] + iso.value;
    assert all[1..] == iso.value;
    r := Ok(Some(At(raw, all)));
  }

  // ---------------------------------------------------------------- MS2

  /** The older `_calc_top_n_frag`: `int(90 - 0.08 * mz)` below 1000, else
      `int(30 - 0.02 * mz)`, capped at `max_frag_reserved`. */
  function LegacyTopNFrag(pre: real, maxRes: int): (n: int)
    ensures n <= maxRes
    ensures 0.0 <= pre < 1000.0 ==> n <= 90 && (maxRes >= 10 ==> n >= 10)
    ensures 1000.0 <= pre <= 1450.0 ==> n <= 10 && (maxRes >= 1 ==> n >= 1)
    ensures 1450.0 < pre < 1550.0 ==> n <= 0 && (maxRes >= 0 ==> n == 0)
    ensures pre >= 1550.0 ==> n < 0
  {
    var topN := if pre < 1000.0 then Trunc(90.0 - 0.08 * pre) else Trunc(30.0 - 0.02 * pre);
    if topN < maxRes then topN else maxRes
  }

  /** Python's `idx[-n]` on a list of `len` entries, as a position from the
      front. */
  function FromEnd(len: nat, n: int): int {
    if n > 0 then len - n else -n
  }

  /** The top-n cap of the older `_preprocess`: with a budget below the peak
      count, keep the peaks reaching the intensity at `idx[-n]` of the
      ascending order; IndexError where that position is past the end. */
  function LegacyCap(p: Peaks, pre: real, maxRes: int, useAll: bool): Result<Peaks>
    requires Aligned(p)
  {
    var n := LegacyTopNFrag(pre, maxRes);
    if useAll || n >= |p.ints| then Ok(p)
    else
      var k := FromEnd(|p.ints|, n);
      if k >= |p.ints| then Err(IndexError)
      else Ok(Select(p, AtLeastMask(p.ints, SortBy(p.ints, Identity)[k])))
  }

  /** A positive budget keeps exactly the peaks reaching the n-th largest
      intensity, ties included: at least `n` of them, fewer than `n` above it. */
  lemma LegacyCapKeepsTies(p: Peaks, pre: real, maxRes: int, raw: Spectrum)
    requires Ordered(p, raw)
    requires 1 <= LegacyTopNFrag(pre, maxRes) < |p.ints|
    ensures LegacyCap(p, pre, maxRes, false).Ok?
    ensures var n := LegacyTopNFrag(pre, maxRes);
      var r := LegacyCap(p, pre, maxRes, false).value;
      Ordered(r, raw)
      && (forall k :: 0 <= k < |p.idx| ==> (p.idx[k] in r.idx <==> p.ints[k] >= NthLargest(p.ints, n)))
      && CountIf(p.ints, AtLeast(NthLargest(p.ints, n))) >= n
      && CountIf(p.ints, Above(NthLargest(p.ints, n))) < n
  {
    var n := LegacyTopNFrag(pre, maxRes);
    var mask := AtLeastMask(p.ints, NthLargest(p.ints, n));
    SelectFacts(p, mask, raw);
    NthLargestReached(p.ints, n);
    NthLargestExceeded(p.ints, n);
  }

  /** A zero budget (precursor m/z strictly between 1450 and 1550) keeps every peak. */
  lemma LegacyCapZeroBudget(p: Peaks, pre: real, maxRes: int, raw: Spectrum)
    requires Ordered(p, raw) && p.ints != []
    requires LegacyTopNFrag(pre, maxRes) == 0
    ensures LegacyCap(p, pre, maxRes, false).Ok?
    ensures forall k :: 0 <= k < |p.idx| ==> p.idx[k] in LegacyCap(p, pre, maxRes, false).value.idx
  {
    var ss := SortBy(p.ints, Identity);
    var mask := AtLeastMask(p.ints, ss[0]);
    SelectFacts(p, mask, raw);
    forall k | 0 <= k < |p.idx| ensures mask[k] {
      SortedMinimum(p.ints, ss, k);
    }
  }

  /** The first entry of the ascending order is at most every element. */
  lemma SortedMinimum(s: seq<real>, ss: seq<real>, k: nat)
    requires ss == SortBy(s, Identity) && k < |s|
    ensures ss[0] <= s[k]
  {
    assert s[k] in multiset(ss);
    var j :| 0 <= j < |ss| && ss[j] == s[k];
    assert j == 0 || Identity(ss[0]) <= Identity(ss[j]);
  }

  /** A negative budget (precursor m/z from 1550 on) indexes the ascending order
      from the front: IndexError unless there are more than `-n` peaks. */
  lemma LegacyCapNegativeBudget(p: Peaks, pre: real, maxRes: int)
    requires Aligned(p) && LegacyTopNFrag(pre, maxRes) < 0
    ensures LegacyCap(p, pre, maxRes, false).Err? <==> |p.ints| <= -LegacyTopNFrag(pre, maxRes)
  {
  }

  /** The threshold of the older `_denoise`: the relative cutoff, or the
      noise level its RSD loop settles on (None where it returns early). */
  datatype NoiseRule = RelInt(cutoff: real) | NoiseLevel(level: Option<real>)

  /** The older `_denoise`. */
  function LegacyDenoise(p: Peaks, rule: NoiseRule): (r: Peaks)
    requires Aligned(p) && p.ints != []
  {
    match rule
    case RelInt(c) => DenoisePeaks(p, c)
    case NoiseLevel(None) => p
    case NoiseLevel(Some(t)) => Select(p, AtLeastMask(p.ints, t))
  }

  /** The older `ProcessedMS2`: nothing for an empty raw spectrum; else
      de-precursor, denoise only with at least 10 peaks left, then the cap. */
  function LegacyMs2Preprocess(pre: real, raw: Spectrum, tol: real, ppm: bool, denoise: bool,
                               rule: NoiseRule, maxRes: int, useAll: bool): Result<Peaks>
    requires |raw.mz| == |raw.ints|
  {
    if !NonEmpty(raw) then Ok(NoPeaks)
    else
      var a := DeprecursorPeaks(raw, DeprecursorBound(pre, tol, ppm));
      var b := if denoise && |a.mz| >= 10 then LegacyDenoise(a, rule) else a;
      LegacyCap(b, pre, maxRes, useAll)
  }

  /** Every surviving peak is a raw peak below the de-precursor bound, in
      raw order. */
  lemma LegacyMs2PreprocessFacts(pre: real, raw: Spectrum, tol: real, ppm: bool, denoise: bool,
                                 rule: NoiseRule, maxRes: int, useAll: bool)
    requires |raw.mz| == |raw.ints|
    requires LegacyMs2Preprocess(pre, raw, tol, ppm, denoise, rule, maxRes, useAll).Ok?
    ensures var r := LegacyMs2Preprocess(pre, raw, tol, ppm, denoise, rule, maxRes, useAll).value;
      Ordered(r, raw) && AllBelow(r, DeprecursorBound(pre, tol, ppm))
  {
    if NonEmpty(raw) {
      var bound := DeprecursorBound(pre, tol, ppm);
      var a := DeprecursorPeaks(raw, bound);
      DeprecursorFacts(raw, bound);
      var b := if denoise && |a.mz| >= 10 then LegacyDenoise(a, rule) else a;
      LegacyDenoiseFacts(a, denoise, rule, raw);
      var r := LegacyMs2Preprocess(pre, raw, tol, ppm, denoise, rule, maxRes, useAll).value;
      LegacyCapFacts(b, pre, maxRes, useAll, raw);
      assert forall j :: j in b.idx ==> raw.mz[j] < bound by {
        forall j | j in b.idx ensures raw.mz[j] < bound {
          assert j in a.idx;
        }
      }
      InheritRawBelow(r, b, raw, bound);
    }
  }

  lemma LegacyDenoiseFacts(a: Peaks, denoise: bool, rule: NoiseRule, raw: Spectrum)
    requires Ordered(a, raw)
    ensures var b := if denoise && |a.mz| >= 10 then LegacyDenoise(a, rule) else a;
      Ordered(b, raw) && forall j :: j in b.idx ==> j in a.idx
  {
    if denoise && |a.mz| >= 10 {
      match rule
      case RelInt(c) => SelectFacts(a, AtLeastMask(a.ints, DenoiseThreshold(a.ints, c)), raw);
      case NoiseLevel(None) =>
      case NoiseLevel(Some(t)) => SelectFacts(a, AtLeastMask(a.ints, t), raw);
    }
  }

  lemma LegacyCapFacts(b: Peaks, pre: real, maxRes: int, useAll: bool, raw: Spectrum)
    requires Ordered(b, raw)
    requires LegacyCap(b, pre, maxRes, useAll).Ok?
    ensures Ordered(LegacyCap(b, pre, maxRes, useAll).value, raw)
    ensures forall j :: j in LegacyCap(b, pre, maxRes, useAll).value.idx ==> j in b.idx
  {
    var n := LegacyTopNFrag(pre, maxRes);
    if !(useAll || n >= |b.ints|) {
      var k := FromEnd(|b.ints|, n);
      SelectFacts(b, AtLeastMask(b.ints, SortBy(b.ints, Identity)[k]), raw);
    }
  }

  /** A sub-list of a list below `bound` is below `bound`. */
  lemma InheritRawBelow(r: Peaks, b: Peaks, raw: Spectrum, bound: real)
    requires DrawnFrom(r, raw) && DrawnFrom(b, raw)
    requires forall j :: j in r.idx ==> j in b.idx
    requires forall j :: j in b.idx ==> raw.mz[j] < bound
    ensures AllBelow(r, bound)
  {
    forall k | 0 <= k < |r.mz| ensures r.mz[k] < bound {
      assert r.idx[k] in r.idx;
    }
  }

  /** The older `ProcessedMS2` object: each stage overwrites the arrays. */
  class LegacyProcessedMs2 {
    var idx: seq<nat>
    var mz: seq<real>
    var ints: seq<real>

    function Current(): Peaks
      reads this
    {
      Peaks(idx, mz, ints)
    }

    constructor Empty()
      ensures Current() == NoPeaks
    {
      idx, mz, ints := [], [], [];
    }

    /** The older `ProcessedMS2(...)`, or the IndexError of its cap. */
    static method Make(pre: real, raw: Spectrum, tol: real, ppm: bool, denoise: bool,
                       rule: NoiseRule, maxRes: int, useAll: bool)
      returns (r: Result<LegacyProcessedMs2>)
      requires |raw.mz| == |raw.ints|
      ensures r.Err? <==> LegacyMs2Preprocess(pre, raw, tol, ppm, denoise, rule, maxRes, useAll).Err?
      ensures r.Err? ==> r.exc == IndexError
      ensures r.Ok? ==>
        fresh(r.value) && r.value.Current() == LegacyMs2Preprocess(pre, raw, tol, ppm, denoise, rule, maxRes, useAll).value
    {
      var o := new LegacyProcessedMs2.Empty();
      if !NonEmpty(raw) {
        return Ok(o);
      }
      o.Deprecursor(pre, raw, tol, ppm);
      if denoise && |o.mz| >= 10 {
        o.Denoise(rule);
      }
      var e := o.CapTopN(pre, maxRes, useAll);
      return if e.Some? then Err(e.value) else Ok(o);
    }

    /** The older `_deprecursor`. */
    method Deprecursor(pre: real, raw: Spectrum, tol: real, ppm: bool)
      requires |raw.mz| == |raw.ints|
      modifies this
      ensures Current() == DeprecursorPeaks(raw, DeprecursorBound(pre, tol, ppm))
    {
      var keep := BelowMask(raw.mz, DeprecursorBound(pre, tol, ppm));
      var r := At(raw, Where(keep));
      idx, mz, ints := r.idx, r.mz, r.ints;
    }

    /** The older `_denoise`. */
    method Denoise(rule: NoiseRule)
      requires Aligned(Current()) && ints != []
      modifies this
      ensures Current() == LegacyDenoise(old(Current()), rule)
    {
      if rule.NoiseLevel? && rule.level.None? {
        return;
      }
      var t := if rule.RelInt? then DenoiseThreshold(ints, rule.cutoff) else rule.level.value;
      var r := Select(Current(), AtLeastMask(ints, t));
      idx, mz, ints := r.idx, r.mz, r.ints;
    }

    /** The top-n cap of the older `_preprocess`. */
    method CapTopN(pre: real, maxRes: int, useAll: bool) returns (e: Option<Exc>)
      requires Aligned(Current())
      modifies this
      ensures e.Some? <==> LegacyCap(old(Current()), pre, maxRes, useAll).Err?
      ensures e.Some? ==> e.value == IndexError
      ensures e.None? ==> Current() == LegacyCap(old(Current()), pre, maxRes, useAll).value
    {
      if useAll {
        return None;
      }
      var n := LegacyTopNFrag(pre, maxRes);
      if n >= |ints| {
        return None;
      }
      var order := SortBy(ints, Identity);
      var k := FromEnd(|ints|, n);
      if k >= |ints| {
        return Some(IndexError);
      }
      var r := Select(Current(), AtLeastMask(ints, order[k]));
      idx, mz, ints := r.idx, r.mz, r.ints;
      return None;
    }
  }
}
