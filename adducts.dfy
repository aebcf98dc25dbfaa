/** The adduct notation parser of `msbuddy/base.py`: an adduct string such as
    `[M+H-H2O]+` becomes its charge, its multiplicity `m` of the molecule, the
    net formula added to the molecule and the formula lost from it. The common
    adducts come from a literal table; anything else is checked, abbreviations
    are expanded, characters are checked, and the string is split into added
    and lost groups. Failures fall back to `[M+H]+` or `[M-H]-`. */
module Adducts {
  import opened PyStr
  import opened Formulas
  import opened Segments

  /** The state of an `Adduct` once construction completes. */
  datatype Rule = Rule(str: string, posMode: bool, charge: int, m: int, net: Formula, loss: Option<Formula>)

  /** `Formula(array=v, charge=0)`. */
  function Neutral(v: Vec): Formula { MakeFormula(v, 0) }

  const OneH: Vec := [0, 1, 0, 0, 0, 0, 0, 0, 0, 0, 0, 0]
  const MinusH: Vec := [0, -1, 0, 0, 0, 0, 0, 0, 0, 0, 0, 0]

  /** `_invalid` without `report_invalid`: `[M+H]+` (charge +1, net H, no loss)
      or `[M-H]-` (charge -1, net -H, loss H), m = 1. */
  function Default(pos: bool): (r: Rule)
    ensures r.posMode == pos && r.m == 1 && r.charge == (if pos then 1 else -1)
    ensures r.str == (if pos then "[M+H]+" else "[M-H]-")
    ensures r.net.counts == (if pos then OneH else MinusH) && r.net.charge == 0
    ensures pos <==> r.loss.None?
    ensures !pos ==> r.loss.value.counts == OneH && r.net.counts == Sub(Zero, r.loss.value.counts)
  {
    if pos then Rule("[M+H]+", true, 1, 1, Neutral(OneH), None)
    else Rule("[M-H]-", false, -1, 1, Neutral(MinusH), Some(Neutral(OneH)))
  }

  /** `_invalid(string, report_invalid)`. */
  function Invalid(pos: bool, strict: bool): (r: Result<Rule>)
    ensures strict <==> r == Err(ValueError)
    ensures !strict ==> r == Ok(Default(pos))
  {
    if strict then Err(ValueError) else Ok(Default(pos))
  }

  /** `_check_common`: the literal table of common adducts, per ion mode. */
  function Common(s: string, pos: bool): (r: Option<Rule>)
    ensures r.Some? ==> r.value.str == s && r.value.posMode == pos && r.value.m == 1
    ensures r.Some? ==> r.value.charge == if pos then 1 else -1
  {
    if pos then
      if s == "[M+H]+" then Some(Rule(s, pos, 1, 1, Neutral(OneH), None))
      else if s == "[M+NH4]+" then Some(Rule(s, pos, 1, 1, Neutral([0, 4, 0, 0, 0, 0, 0, 1, 0, 0, 0, 0]), None))
      else if s == "[M+Na]+" then Some(Rule(s, pos, 1, 1, Neutral([0, 0, 0, 0, 0, 0, 0, 0, 1, 0, 0, 0]), None))
      else if s == "[M+K]+" then Some(Rule(s, pos, 1, 1, Neutral([0, 0, 0, 0, 0, 0, 1, 0, 0, 0, 0, 0]), None))
      else if s == "[M+H-H2O]+" || s == "[M-H2O+H]+" then
        Some(Rule(s, pos, 1, 1, Neutral([0, -1, 0, 0, 0, 0, 0, 0, 0, -1, 0, 0]), Some(Neutral([0, 2, 0, 0, 0, 0, 0, 0, 0, 1, 0, 0]))))
      else None
    else
      if s == "[M-H]-" then Some(Rule(s, pos, -1, 1, Neutral(MinusH), Some(Neutral(OneH))))
      else if s == "[M+Cl]-" then Some(Rule(s, pos, -1, 1, Neutral([0, 0, 0, 1, 0, 0, 0, 0, 0, 0, 0, 0]), None))
      else if s == "[M+Br]-" then Some(Rule(s, pos, -1, 1, Neutral([0, 0, 1, 0, 0, 0, 0, 0, 0, 0, 0, 0]), None))
      else if s == "[M-H2O-H]-" || s == "[M-H-H2O]-" then
        Some(Rule(s, pos, -1, 1, Neutral([0, -3, 0, 0, 0, 0, 0, 0, 0, -1, 0, 0]), Some(Neutral([0, 3, 0, 0, 0, 0, 0, 0, 0, 1, 0, 0]))))
      else None
  }

  /** Small counts are stored unchanged. */
  lemma InRangeVec(v: Vec)
    requires forall i :: 0 <= i < 12 ==> -4 <= v[i] <= 4
    ensures Neutral(v).counts == v
  {
  }

  /** An element-wise difference given slot by slot. */
  lemma SubIs(a: Vec, b: Vec, c: Vec)
    requires forall i :: 0 <= i < 12 ==> c[i] == a[i] - b[i]
    ensures Sub(a, b) == c
  {
  }

  /** The water-loss entry of positive mode: H is added and H2O lost, so the
      net formula is H-1 O-1, the added H less the loss. */
  lemma CommonWaterLossPositive()
    ensures Common("[M+H-H2O]+", true).Some?
    ensures var r := Common("[M+H-H2O]+", true).value;
      r.charge == 1 && r.m == 1 && r.loss.Some?
      && r.loss.value.counts == [0, 2, 0, 0, 0, 0, 0, 0, 0, 1, 0, 0]
      && r.net.counts == [0, -1, 0, 0, 0, 0, 0, 0, 0, -1, 0, 0]
      && r.net.counts == Sub(OneH, r.loss.value.counts)
  {
    // The table entry is proved apart, so the table is unfolded only there.
    var net: Vec := [0, -1, 0, 0, 0, 0, 0, 0, 0, -1, 0, 0];
    var loss: Vec := [0, 2, 0, 0, 0, 0, 0, 0, 0, 1, 0, 0];
    assert Common("[M+H-H2O]+", true) == Some(Rule("[M+H-H2O]+", true, 1, 1, Neutral(net), Some(Neutral(loss)))) by {
    }
    InRangeVec(net);
    InRangeVec(loss);
    SubIs(OneH, loss, net);
  }

  /** The water-loss entry of negative mode: H and H2O are lost, so the loss is
      H3O and the net formula H-3 O-1 is its negation. */
  lemma CommonWaterLossNegative()
    ensures Common("[M-H2O-H]-", false).Some?
    ensures var r := Common("[M-H2O-H]-", false).value;
      r.charge == -1 && r.m == 1 && r.loss.Some?
      && r.loss.value.counts == [0, 3, 0, 0, 0, 0, 0, 0, 0, 1, 0, 0]
      && r.net.counts == [0, -3, 0, 0, 0, 0, 0, 0, 0, -1, 0, 0]
      && r.net.counts == Sub(Zero, r.loss.value.counts)
  {
    // The table entry is proved apart, as above.
    var net: Vec := [0, -3, 0, 0, 0, 0, 0, 0, 0, -1, 0, 0];
    var loss: Vec := [0, 3, 0, 0, 0, 0, 0, 0, 0, 1, 0, 0];
    assert Common("[M-H2O-H]-", false) == Some(Rule("[M-H2O-H]-", false, -1, 1, Neutral(net), Some(Neutral(loss)))) by {
    }
    InRangeVec(net);
    InRangeVec(loss);
    SubIs(Zero, loss, net);
  }

  /** `_check_valid_style`: one `]`, one `[`, an `M`, and the last character is
      the sign of the ion mode. */
  predicate ValidStyle(s: string, pos: bool) {
    Count(s, ']') == 1 && Count(s, '[') == 1 && 'M' in s
    && ((s[|s| - 1] == '+' && pos) || (s[|s| - 1] == '-' && !pos))
  }

  /** The abbreviations of `_exchange` and their formulas, in the order of
      replacement. */
  const Abbrevs: seq<(string, string)> := [
    ("ACN", "C2H3N"), ("IsoProp", "C3H8O"), ("DMSO", "C2H6OS"), ("FA", "HCOOH"),
    ("HFA", "HCOOH"), ("Hac", "CH3COOH"), ("HAc", "CH3COOH"), ("HAC", "CH3COOH"),
    ("Ac", "CH3COO"), ("ac", "CH3COO"), ("AC", "CH3COO"), ("TFA", "CF3COOH"), ("MeOH", "CH4O")]

  /** The replacements `i` .. 12 applied in turn. */
  function ExchangeFrom(s: string, i: nat): string
    decreases |Abbrevs| - i
  {
    if i >= |Abbrevs| then s
    else ExchangeFrom(Replace(s, Abbrevs[i].0, Abbrevs[i].1), i + 1)
  }

  /** `_exchange`. */
  function Exchange(s: string): string {
    ExchangeFrom(s, 0)
  }

  /** The two-letter elements of the character check. */
  predicate IsPair(a: char, b: char) {
    (a == 'B' && b == 'r') || (a == 'C' && b == 'l') || (a == 'N' && b == 'a')
  }

  /** The one-character entries of the character check, and digits. */
  predicate IsSingle(c: char) {
    c == '-' || c == '+' || c == 'C' || c == 'H' || c == 'F' || c == 'I' || c == 'K'
    || c == 'N' || c == 'O' || c == 'P' || c == 'S' || IsDigit(c)
  }

  /** The greedy scan of `_check_valid_character` from position `i`: a
      two-letter element is taken whenever one starts here. */
  function GreedyFrom(seg: string, i: nat): bool
    decreases |seg| - i
  {
    if i >= |seg| then true
    else if i < |seg| - 1 && IsPair(seg[i], seg[i + 1]) then GreedyFrom(seg, i + 2)
    else if IsSingle(seg[i]) then GreedyFrom(seg, i + 1)
    else false
  }

  /** The reference per-position rule: each character is a one-character entry
      or a digit, or one half of a two-letter element. */
  predicate LocallyValid(seg: string, k: nat)
    requires k < |seg|
  {
    IsSingle(seg[k])
    || (k + 1 < |seg| && IsPair(seg[k], seg[k + 1]))
    || (k > 0 && IsPair(seg[k - 1], seg[k]))
  }

  /** The greedy scan accepts exactly the strings in which every character is
      locally valid: the second letters r, l, a never start a token, so the
      greedy choice never blocks a valid reading. */
  lemma {:induction false} GreedyIffLocal(seg: string, i: nat)
    requires i <= |seg|
    requires i == 0 || i == |seg| || !IsPair(seg[i - 1], seg[i])
    ensures GreedyFrom(seg, i) <==> forall k :: i <= k < |seg| ==> LocallyValid(seg, k)
    decreases |seg| - i
  {
    if i < |seg| {
      if i < |seg| - 1 && IsPair(seg[i], seg[i + 1]) {
        GreedyIffLocal(seg, i + 2);
      } else if IsSingle(seg[i]) {
        GreedyIffLocal(seg, i + 1);
      } else {
        assert !LocallyValid(seg, i);
      }
    }
  }

  lemma CharacterCheckMeaning(seg: string)
    ensures GreedyFrom(seg, 0) <==> forall k :: 0 <= k < |seg| ==> LocallyValid(seg, k)
  {
    GreedyIffLocal(seg, 0);
  }

  /** The checked segment: the text strictly between the first `M` and the
      first `]`; ValueError where either is missing (`str.index`). */
  function CharSegment(s: string): (r: Result<string>)
    ensures r.Err? <==> 'M' !in s || ']' !in s
    ensures r.Err? ==> r.exc == ValueError
  {
    match IndexOf(s, 'M')
    case None => Err(ValueError)
    case Some(mi) =>
      match IndexOf(s, ']')
      case None => Err(ValueError)
      case Some(ri) => Ok(Slice(s, mi + 1, ri))
  }

  /** The segment runs from after the first M up to the first `]`. */
  lemma SegmentAt(s: string, mi: nat, ri: nat)
    requires IndexOf(s, 'M') == Some(mi) && IndexOf(s, ']') == Some(ri)
    ensures CharSegment(s) == Ok(Slice(s, mi + 1, ri))
  {
  }

  /** `_check_valid_character`. */
  function CharsValid(s: string): Result<bool> {
    match CharSegment(s)
    case Err(e) => Err(e)
    case Ok(seg) => Ok(GreedyFrom(seg, 0))
  }

  /** `_calc_m`: the digit just before the first `M`, else 1. With `M` first,
      Python's index -1 reads the last character. */
  function CalcM(s: string): (r: Result<int>)
    ensures r.Err? <==> 'M' !in s
    ensures r.Ok? ==> 1 <= r.value <= 9 || r.value == 0
  {
    match IndexOf(s, 'M')
    case None => Err(ValueError)
    case Some(k) =>
      var c := if k == 0 then s[|s| - 1] else s[k - 1];
      Ok(if IsDigit(c) then DigitVal(c) else 1)
  }

  /** `string.split(']')[1]`: the text after the first `]`, up to any next
      one; IndexError where there is no `]`. */
  function AfterBracket(s: string): Result<string> {
    match IndexOf(s, ']')
    case None => Err(IndexError)
    case Some(k) => Ok(TakeUntil(s[k + 1..], ']'))
  }

  /** `_calc_charge`: the text after `]` without the mode's sign; empty means
      1, otherwise `int()` of it (ValueError where that fails); negated in
      negative mode. */
  function CalcCharge(s: string, pos: bool): Result<int> {
    match AfterBracket(s)
    case Err(e) => Err(e)
    case Ok(t) =>
      var sub := Remove(t, if pos then '+' else '-');
      if sub == "" then Ok(if pos then 1 else -1)
      else match PyInt(sub)
        case None => Err(ValueError)
        case Some(v) => Ok(if pos then v else -v)
  }

  /** The outcome of `_calc_loss_and_net_formula`. */
  datatype Net = NetOk(net: Formula, loss: Formula) | NetFallback | NetErr(exc: Exc)

  /** The groups cut from the string, or None where it has no marker. */
  function Groups(s: string): (r: Result<Option<Parts>>)
  {
    if Markers(s) == [] then Ok(None)
    else match IndexOf(s, ']')
      case None => Err(ValueError)
      case Some(close) => Ok(Some(Seg(s, Markers(s), close, Parts("", ""))))
  }

  /** `_calc_loss_and_net_formula`: segment, expand the repeats of the lost
      then of the added text, hand both (signs removed) to `read_formula`
      (`rf`, None where it fails, which makes `np.subtract` raise TypeError),
      and return add - loss with the loss. */
  function LossAndNet(s: string, rf: string -> Option<Vec>): Net {
    match Groups(s)
    case Err(e) => NetErr(e)
    case Ok(None) => NetFallback
    case Ok(Some(parts)) => NetOfParts(parts, rf)
  }

  /** The part of `_calc_loss_and_net_formula` after the group loop. */
  function NetOfParts(parts: Parts, rf: string -> Option<Vec>): Net {
    match Expand(parts.loss, '-', false)
    case Fallback => NetFallback
    case IndexFault => NetErr(IndexError)
    case Scanned(loss) =>
      match Expand(parts.add, '+', true)
      case Fallback => NetFallback
      case IndexFault => NetErr(IndexError)
      case Scanned(add) =>
        var la := rf(Remove(loss, '-'));
        var aa := rf(Remove(add, '+'));
        if la.None? || aa.None? then NetErr(TypeError)
        else NetOk(Neutral(Sub(aa.value, la.value)), Neutral(la.value))
  }

  /** The input string after the constructor's first step. */
  function Stripped(input: Option<string>, pos: bool): string {
    if input.None? then (if pos then "[M+H]+" else "[M-H]-") else Remove(input.value, ' ')
  }

  /** The general path of the constructor, on the expanded string `x`: the
      character check, then `m`, the charge and the groups. */
  function ParseExpanded(x: string, pos: bool, strict: bool, rf: string -> Option<Vec>): Result<Rule> {
    match CharsValid(x)
    case Err(e) => Err(e)
    case Ok(ok) =>
      if !ok then Invalid(pos, strict)
      else
        match CalcM(x)
        case Err(e) => Err(e)
        case Ok(m) =>
          match CalcCharge(x, pos)
          case Err(e) => Err(e)
          case Ok(charge) =>
            match LossAndNet(x, rf)
            case NetFallback => Ok(Default(pos))
            case NetErr(e) => Err(e)
            case NetOk(net, loss) => Ok(Rule(x, pos, charge, m, net, Some(loss)))
  }

  /** `Adduct(string, pos_mode, report_invalid)`: the state it ends in, or the
      exception it raises. */
  function Parse(input: Option<string>, pos: bool, strict: bool, rf: string -> Option<Vec>): Result<Rule> {
    var s := Stripped(input, pos);
    match Common(s, pos)
    case Some(r) => Ok(r)
    case None =>
      if !ValidStyle(s, pos) then Invalid(pos, strict)
      else ParseExpanded(Exchange(s), pos, strict, rf)
  }

  /** `check_adduct`: (valid, positive mode). */
  function CheckAdduct(str: string): (bool, bool) {
    var s := Remove(str, ' ');
    if Count(s, ']') != 1 || Count(s, '[') != 1 || 'M' !in s then (false, false)
    else if s[|s| - 1] != '+' && s[|s| - 1] != '-' then (false, false)
    else (true, s[|s| - 1] == '+')
  }

  /** `check_adduct` accepts a string, with a mode, exactly when the
      constructor's style check passes for that mode. */
  lemma CheckAdductIsStyle(str: string, pos: bool)
    ensures CheckAdduct(str) == (true, pos) <==> ValidStyle(Remove(str, ' '), pos)
    ensures !CheckAdduct(str).0 ==> !CheckAdduct(str).1
  {
  }

  /** The table is consulted first: a stripped string in it yields its entry,
      whatever the strict flag and the formula reader. */
  lemma CommonFirst(input: Option<string>, pos: bool, strict: bool, rf: string -> Option<Vec>)
    requires Common(Stripped(input, pos), pos).Some?
    ensures Parse(input, pos, strict, rf) == Ok(Common(Stripped(input, pos), pos).value)
  {
  }

  /** Without a string the constructor takes the first table entry of the mode,
      which is the default rule. */
  lemma NoInputIsDefault(pos: bool, strict: bool, rf: string -> Option<Vec>)
    ensures Parse(None, pos, strict, rf) == Ok(Default(pos))
  {
    if pos {
      assert Common("[M+H]+", true) == Some(Default(true));
    } else {
      assert Common("[M-H]-", false) == Some(Default(false));
    }
  }

  /** A style or character failure is `_invalid`: the default rule, or
      ValueError in strict mode. */
  lemma CheckFailureIsInvalid(input: Option<string>, pos: bool, strict: bool, rf: string -> Option<Vec>)
    requires Common(Stripped(input, pos), pos).None?
    requires !ValidStyle(Stripped(input, pos), pos)
             || CharsValid(Exchange(Stripped(input, pos))) == Ok(false)
    ensures Parse(input, pos, strict, rf) == Invalid(pos, strict)
  {
  }

  /** A segmentation failure falls back to the default rule even in strict
      mode. */
  lemma SegmentationFallbackIgnoresStrict(input: Option<string>, pos: bool, strict: bool, rf: string -> Option<Vec>)
    requires Common(Stripped(input, pos), pos).None? && ValidStyle(Stripped(input, pos), pos)
    requires var x := Exchange(Stripped(input, pos));
      CharsValid(x) == Ok(true) && CalcM(x).Ok? && CalcCharge(x, pos).Ok? && LossAndNet(x, rf) == NetFallback
    ensures Parse(input, pos, strict, rf) == Ok(Default(pos))
  {
  }

  /** What a parsed rule looks like: it keeps the mode, and off the table and
      the default it always carries a loss formula, possibly all zero, with
      net = add - loss. */
  lemma ParsedRuleShape(input: Option<string>, pos: bool, strict: bool, rf: string -> Option<Vec>)
    requires Parse(input, pos, strict, rf).Ok?
    ensures var r := Parse(input, pos, strict, rf).value;
      r.posMode == pos
      && (Common(Stripped(input, pos), pos).None? && r != Default(pos) ==>
            r.loss.Some? && r.str == Exchange(Stripped(input, pos))
            && LossAndNet(r.str, rf) == NetOk(r.net, r.loss.value))
  {
    var s := Stripped(input, pos);
    if Common(s, pos).None? && ValidStyle(s, pos) {
      ExpandedShape(Exchange(s), pos, strict, rf);
    }
  }

  /** The general path keeps the mode; a rule other than the default comes
      from the groups, with its loss formula. */
  lemma ExpandedShape(x: string, pos: bool, strict: bool, rf: string -> Option<Vec>)
    requires ParseExpanded(x, pos, strict, rf).Ok?
    ensures var r := ParseExpanded(x, pos, strict, rf).value;
      r.posMode == pos
      && (r != Default(pos) ==> r.loss.Some? && r.str == x && LossAndNet(x, rf) == NetOk(r.net, r.loss.value))
  {
    var net := LossAndNet(x, rf);
    if CharsValid(x) == Ok(true) && CalcM(x).Ok? && CalcCharge(x, pos).Ok? && net.NetOk? {
      assert ParseExpanded(x, pos, strict, rf)
          == Ok(Rule(x, pos, CalcCharge(x, pos).value, CalcM(x).value, net.net, Some(net.loss)));
    }
  }

  /** A pattern holding a character the text lacks is never replaced. */
  lemma ReplaceMissingChar(s: string, pat: string, rep: string, c: char)
    requires pat != "" && c in pat && c !in s
    ensures Replace(s, pat, rep) == s
  {
    forall i: nat ensures !OccursAt(s, pat, i) {
    }
    ReplaceAbsent(s, pat, rep);
  }

  /** Every abbreviation contains one of the letters A, a, D, e, s. */
  predicate AbbrevLetter(c: char) {
    c == 'A' || c == 'a' || c == 'D' || c == 'e' || c == 's'
  }

  lemma AbbrevsHaveLetter(i: nat)
    requires i < |Abbrevs|
    ensures exists k :: 0 <= k < |Abbrevs[i].0| && AbbrevLetter(Abbrevs[i].0[k])
  {
    // the position of an A, a, D, e or s in each abbreviation
    var at := [0, 1, 0, 1, 2, 1, 1, 1, 0, 0, 0, 2, 1];
    assert AbbrevLetter(Abbrevs[i].0[at[i]]);
  }

  /** A text without those letters is left unchanged by the replacements. */
  lemma {:induction false} ExchangeFromPlain(s: string, i: nat)
    requires forall j :: 0 <= j < |s| ==> !AbbrevLetter(s[j])
    ensures ExchangeFrom(s, i) == s
    decreases |Abbrevs| - i
  {
    if i < |Abbrevs| {
      AbbrevsHaveLetter(i);
      var k :| 0 <= k < |Abbrevs[i].0| && AbbrevLetter(Abbrevs[i].0[k]);
      ReplaceMissingChar(s, Abbrevs[i].0, Abbrevs[i].1, Abbrevs[i].0[k]);
      ExchangeFromPlain(s, i + 1);
    }
  }

  lemma ExchangePlain(s: string)
    requires forall i :: 0 <= i < |s| ==> !AbbrevLetter(s[i])
    ensures Exchange(s) == s
  {
    ExchangeFromPlain(s, 0);
  }

  /** Replacement leaves a prefix alone that holds no first character of the
      pattern. */
  lemma {:induction false} ReplacePrefixFree(a: string, b: string, pat: string, rep: string)
    requires pat != "" && pat[0] !in a
    ensures Replace(a + b, pat, rep) == a + Replace(b, pat, rep)
  {
    if a != [] {
      if |a + b| < |pat| {
        assert Replace(b, pat, rep) == b;
      } else {
        assert (a + b)[..|pat|][0] == a[0];
        assert (a + b)[1..] == a[1..] + b;
        ReplacePrefixFree(a[1..], b, pat, rep);
      }
    } else {
      assert a + b == b;
    }
  }

  /** One occurrence of `pat`, with no first character of it before and a
      character of it missing after, is replaced and nothing else changes. */
  lemma ReplaceOnce(a: string, b: string, pat: string, rep: string, c: char)
    requires pat != "" && pat[0] !in a && c in pat && c !in b
    ensures Replace(a + pat + b, pat, rep) == a + rep + b
  {
    assert a + pat + b == a + (pat + b);
    ReplacePrefixFree(a, pat + b, pat, rep);
    assert (pat + b)[..|pat|] == pat && (pat + b)[|pat|..] == b;
    ReplaceMissingChar(b, pat, rep, c);
    assert a + (rep + b) == a + rep + b;
  }

  /** Three texts without abbreviation letters join into one. */
  lemma JoinPlain(a: string, m: string, b: string)
    requires forall i :: 0 <= i < |a| ==> !AbbrevLetter(a[i])
    requires forall i :: 0 <= i < |m| ==> !AbbrevLetter(m[i])
    requires forall i :: 0 <= i < |b| ==> !AbbrevLetter(b[i])
    ensures forall i :: 0 <= i < |a + m + b| ==> !AbbrevLetter((a + m + b)[i])
  {
    var t := a + m + b;
    forall j | 0 <= j < |t| ensures !AbbrevLetter(t[j]) {
      if j < |a| { assert t[j] == a[j]; }
      else if j >= |a| + |m| { assert t[j] == b[j - |a| - |m|]; }
      else { assert t[j] == m[j - |a|]; }
    }
  }

  /** One occurrence of `FA` between texts without abbreviation letters or F:
      `_exchange` turns it into HCOOH and changes nothing else. */
  lemma ExchangeOneFA(a: string, b: string)
    requires forall i :: 0 <= i < |a| ==> !AbbrevLetter(a[i]) && a[i] != 'F' && a[i] != 'N' && a[i] != 'I'
    requires forall i :: 0 <= i < |b| ==> !AbbrevLetter(b[i]) && b[i] != 'F' && b[i] != 'N' && b[i] != 'I'
    ensures Exchange(a + "FA" + b) == a + "HCOOH" + b
  {
    FaUntouchedFirst(a, b);
    FaReplaced(a, b);
  }

  lemma HcoohPlain()
    ensures forall i :: 0 <= i < |"HCOOH"| ==> !AbbrevLetter("HCOOH"[i])
  {
  }

  /** The first three replacements leave a text around one `FA` alone. */
  lemma FaUntouchedFirst(a: string, b: string)
    requires forall i :: 0 <= i < |a| ==> !AbbrevLetter(a[i]) && a[i] != 'N' && a[i] != 'I'
    requires forall i :: 0 <= i < |b| ==> !AbbrevLetter(b[i]) && b[i] != 'N' && b[i] != 'I'
    ensures ExchangeFrom(a + "FA" + b, 0) == ExchangeFrom(a + "FA" + b, 3)
  {
    var s := a + "FA" + b;
    FaMissingFirst(a, b);
    ExchangeStep(s, 0, s);
    ExchangeStep(s, 1, s);
    ExchangeStep(s, 2, s);
  }

  /** The fourth replacement rewrites the one `FA`, and the rest find nothing. */
  lemma FaReplaced(a: string, b: string)
    requires forall i :: 0 <= i < |a| ==> !AbbrevLetter(a[i]) && a[i] != 'F'
    requires forall i :: 0 <= i < |b| ==> !AbbrevLetter(b[i]) && b[i] != 'F'
    ensures ExchangeFrom(a + "FA" + b, 3) == a + "HCOOH" + b
  {
    var s := a + "FA" + b;
    var t := a + "HCOOH" + b;
    assert 'F' !in a && 'A' !in b;
    ReplaceOnce(a, b, "FA", "HCOOH", 'A');
    ExchangeStep(s, 3, t);
    HcoohPlain();
    JoinPlain(a, "HCOOH", b);
    ExchangeFromPlain(t, 4);
  }


  /** ACN, IsoProp and DMSO do not occur around an `FA`. */
  lemma FaMissingFirst(a: string, b: string)
    requires forall i :: 0 <= i < |a| ==> !AbbrevLetter(a[i]) && a[i] != 'N' && a[i] != 'I'
    requires forall i :: 0 <= i < |b| ==> !AbbrevLetter(b[i]) && b[i] != 'N' && b[i] != 'I'
    ensures var s := a + "FA" + b;
      Replace(s, "ACN", "C2H3N") == s && Replace(s, "IsoProp", "C3H8O") == s
      && Replace(s, "DMSO", "C2H6OS") == s
  {
    var s := a + "FA" + b;
    assert 'N' !in s && 'I' !in s && 'D' !in s;
    ReplaceMissingChar(s, "ACN", "C2H3N", 'N');
    ReplaceMissingChar(s, "IsoProp", "C3H8O", 'I');
    ReplaceMissingChar(s, "DMSO", "C2H6OS", 'D');
  }

  /** One occurrence of `DMSO` between texts without abbreviation letters:
      `_exchange` turns it into C2H6OS and changes nothing else. */
  lemma ExchangeOneDmso(a: string, b: string)
    requires forall i :: 0 <= i < |a| ==> !AbbrevLetter(a[i])
    requires forall i :: 0 <= i < |b| ==> !AbbrevLetter(b[i])
    ensures Exchange(a + "DMSO" + b) == a + "C2H6OS" + b
  {
    DmsoUntouchedFirst(a, b);
    DmsoReplaced(a, b);
  }

  /** The first two replacements leave a text around one `DMSO` alone. */
  lemma DmsoUntouchedFirst(a: string, b: string)
    requires forall i :: 0 <= i < |a| ==> !AbbrevLetter(a[i])
    requires forall i :: 0 <= i < |b| ==> !AbbrevLetter(b[i])
    ensures ExchangeFrom(a + "DMSO" + b, 0) == ExchangeFrom(a + "DMSO" + b, 2)
  {
    var s := a + "DMSO" + b;
    DmsoMissingFirst(a, b);
    ExchangeStep(s, 0, s);
    ExchangeStep(s, 1, s);
  }

  /** The third replacement rewrites the one `DMSO`, and the rest find nothing. */
  lemma DmsoReplaced(a: string, b: string)
    requires forall i :: 0 <= i < |a| ==> !AbbrevLetter(a[i])
    requires forall i :: 0 <= i < |b| ==> !AbbrevLetter(b[i])
    ensures ExchangeFrom(a + "DMSO" + b, 2) == a + "C2H6OS" + b
  {
    var s := a + "DMSO" + b;
    var t := a + "C2H6OS" + b;
    assert 'D' !in a && 'D' !in b;
    ReplaceOnce(a, b, "DMSO", "C2H6OS", 'D');
    ExchangeStep(s, 2, t);
    DmsoFormulaPlain();
    JoinPlain(a, "C2H6OS", b);
    ExchangeFromPlain(t, 3);
  }

  lemma DmsoFormulaPlain()
    ensures forall i :: 0 <= i < |"C2H6OS"| ==> !AbbrevLetter("C2H6OS"[i])
  {
  }

  /** ACN and IsoProp do not occur around a `DMSO`. */
  lemma DmsoMissingFirst(a: string, b: string)
    requires forall i :: 0 <= i < |a| ==> !AbbrevLetter(a[i])
    requires forall i :: 0 <= i < |b| ==> !AbbrevLetter(b[i])
    ensures var s := a + "DMSO" + b;
      Replace(s, "ACN", "C2H3N") == s && Replace(s, "IsoProp", "C3H8O") == s
  {
    var s := a + "DMSO" + b;
    assert 'A' !in s && 's' !in s;
    ReplaceMissingChar(s, "ACN", "C2H3N", 'A');
    ReplaceMissingChar(s, "IsoProp", "C3H8O", 's');
  }

  /** `FA` is replaced before `HFA` and `TFA` are looked at, so `HFA` becomes
      `HHCOOH` and `TFA` becomes `THCOOH`, whose T then fails the character
      check: neither longer abbreviation is ever matched. */
  lemma FaShadowsHfaAndTfa()
    ensures Exchange("HFA") == "HHCOOH"
    ensures Exchange("TFA") == "THCOOH"
  {
    var a, b := "H", "";
    assert a + "FA" + b == "HFA";
    assert a + "HCOOH" + b == "HHCOOH";
    ExchangeOneFA(a, b);
    var c := "T";
    assert c + "FA" + b == "TFA";
    assert c + "HCOOH" + b == "THCOOH";
    ExchangeOneFA(c, b);
  }

  /** A bare `[M]+` has no marker, so segmentation falls back to `[M+H]+`,
      and does so even in strict mode. */
  lemma BareMFallsBack(strict: bool, rf: string -> Option<Vec>)
    ensures Parse(Some("[M]+"), true, strict, rf) == Ok(Default(true))
  {
    BareMNoSpace();
    BareMNotCommon();
    BareMStyle();
    PlainPath("[M]+", true, strict, rf);
    BareMExchange();
    BareMChars();
    BareMCharge();
    BareMNoMarker(rf);
    ExpandedFallback("[M]+", true, strict, rf, 1, 1);
  }

  lemma BareMNoSpace()
    ensures ' ' !in "[M]+"
  {
  }

  lemma BareMNotCommon()
    ensures Common("[M]+", true).None?
  {
  }

  lemma BareMStyle()
    ensures ValidStyle("[M]+", true)
  {
  }

  lemma BareMExchange()
    ensures Exchange("[M]+") == "[M]+"
  {
    ExchangePlain("[M]+");
  }

  lemma BareMIndices()
    ensures IndexOf("[M]+", 'M') == Some(1) && IndexOf("[M]+", ']') == Some(2)
  {
  }

  lemma BareMChars()
    ensures CharsValid("[M]+") == Ok(true) && CalcM("[M]+") == Ok(1)
  {
    BareMIndices();
  }

  lemma BareMCharge()
    ensures CalcCharge("[M]+", true) == Ok(1)
  {
    BareMIndices();
    assert "[M]+"[3..] == "+" && TakeUntil("+", ']') == "+";
  }

  lemma BareMNoMarker(rf: string -> Option<Vec>)
    ensures LossAndNet("[M]+", rf) == NetFallback
  {
    assert Markers("[M]+") == [];
  }

  /** A space-free input that is not in the table but passes the style check
      takes the general path on its expansion. */
  lemma PlainPath(s: string, pos: bool, strict: bool, rf: string -> Option<Vec>)
    requires ' ' !in s && Common(s, pos).None? && ValidStyle(s, pos)
    ensures Parse(Some(s), pos, strict, rf) == ParseExpanded(Exchange(s), pos, strict, rf)
  {
    RemoveAbsent(s, ' ');
  }

  /** A text past the common table and the style check whose exchanged form
      fails the character check raises that error. */
  lemma PlainPathError(s: string, t: string, pos: bool, strict: bool, rf: string -> Option<Vec>)
    requires ' ' !in s && Common(s, pos).None? && ValidStyle(s, pos)
    requires Exchange(s) == t && CharsValid(t).Err?
    ensures Parse(Some(s), pos, strict, rf) == Err(CharsValid(t).exc)
  {
    PlainPath(s, pos, strict, rf);
  }

  lemma ExchangeStep(s: string, i: nat, t: string)
    requires i < |Abbrevs| && Replace(s, Abbrevs[i].0, Abbrevs[i].1) == t
    ensures ExchangeFrom(s, i) == ExchangeFrom(t, i + 1)
  {
  }

  lemma GroupsOf(s: string, close: nat)
    requires Markers(s) != [] && IndexOf(s, ']') == Some(close)
    ensures Groups(s) == Ok(Some(Seg(s, Markers(s), close, Parts("", ""))))
  {
  }

  lemma NetOf(s: string, rf: string -> Option<Vec>, parts: Parts, loss: string, add: string, la: Vec, aa: Vec)
    requires Groups(s) == Ok(Some(parts))
    requires Expand(parts.loss, '-', false) == Scanned(loss) && Expand(parts.add, '+', true) == Scanned(add)
    requires rf(Remove(loss, '-')) == Some(la) && rf(Remove(add, '+')) == Some(aa)
    ensures LossAndNet(s, rf) == NetOk(Neutral(Sub(aa, la)), Neutral(la))
  {
  }

  lemma PositiveChargeOf(s: string, t: string, v: int)
    requires AfterBracket(s) == Ok(t) && Remove(t, '+') != "" && PyInt(Remove(t, '+')) == Some(v)
    ensures CalcCharge(s, true) == Ok(v)
  {
  }

  lemma NegativeChargeOf(s: string, t: string, v: int)
    requires AfterBracket(s) == Ok(t) && Remove(t, '-') != "" && PyInt(Remove(t, '-')) == Some(v)
    ensures CalcCharge(s, false).Ok? && CalcCharge(s, false).value == -v
  {
  }

  lemma ExpandedFallback(x: string, pos: bool, strict: bool, rf: string -> Option<Vec>, m: int, charge: int)
    requires CharsValid(x) == Ok(true) && CalcM(x) == Ok(m) && CalcCharge(x, pos) == Ok(charge)
    requires LossAndNet(x, rf) == NetFallback
    ensures ParseExpanded(x, pos, strict, rf) == Ok(Default(pos))
  {
  }

  /** The style check from its four conditions. */
  lemma StyleOf(s: string, pos: bool)
    requires Count(s, ']') == 1 && Count(s, '[') == 1 && 'M' in s
    requires s[|s| - 1] == (if pos then '+' else '-')
    ensures ValidStyle(s, pos)
  {
  }

  lemma ExpandedError(x: string, pos: bool, strict: bool, rf: string -> Option<Vec>)
    requires CharsValid(x).Err?
    ensures ParseExpanded(x, pos, strict, rf) == Err(CharsValid(x).exc)
  {
  }

  lemma ExpandedInvalid(x: string, pos: bool, strict: bool, rf: string -> Option<Vec>)
    requires CharsValid(x) == Ok(false)
    ensures ParseExpanded(x, pos, strict, rf) == Invalid(pos, strict)
  {
  }

  lemma ExpandedRule(x: string, pos: bool, strict: bool, rf: string -> Option<Vec>,
                     m: int, charge: int, net: Formula, loss: Formula)
    requires CharsValid(x) == Ok(true) && CalcM(x) == Ok(m) && CalcCharge(x, pos) == Ok(charge)
    requires LossAndNet(x, rf) == NetOk(net, loss)
    ensures ParseExpanded(x, pos, strict, rf) == Ok(Rule(x, pos, charge, m, net, Some(loss)))
  {
  }

  /** `[M+TFA]+` expands to `[M+THCOOH]+`, fails the character check on T, and
      falls back to `[M+H]+`, or raises ValueError in strict mode. */
  lemma TfaFallsBack(strict: bool, rf: string -> Option<Vec>)
    ensures Parse(Some("[M+TFA]+"), true, strict, rf) == Invalid(true, strict)
  {
    TfaNoSpace();
    TfaNotCommon();
    TfaStyle();
    PlainPath("[M+TFA]+", true, strict, rf);
    TfaExchange();
    TfaCharacters();
    ExpandedInvalid("[M+THCOOH]+", true, strict, rf);
  }

  lemma TfaNoSpace()
    ensures ' ' !in "[M+TFA]+"
  {
  }

  lemma TfaNotCommon()
    ensures Common("[M+TFA]+", true).None?
  {
  }

  lemma TfaStyle()
    ensures ValidStyle("[M+TFA]+", true)
  {
    TfaClose();
    TfaOpen();
    StyleOf("[M+TFA]+", true);
  }

  lemma TfaClose()
    ensures Count("[M+TFA]+", ']') == 1
  {
  }

  lemma TfaOpen()
    ensures Count("[M+TFA]+", '[') == 1
  {
  }

  lemma TfaExchange()
    ensures Exchange("[M+TFA]+") == "[M+THCOOH]+"
  {
    var a, b := "[M+T", "]+";
    assert a + "FA" + b == "[M+TFA]+";
    assert a + "HCOOH" + b == "[M+THCOOH]+";
    ExchangeOneFA(a, b);
  }

  lemma TfaCharacters()
    ensures CharsValid("[M+THCOOH]+") == Ok(false)
  {
    TfaSegment();
    TfaGreedy();
  }

  lemma TfaSegment()
    ensures CharSegment("[M+THCOOH]+") == Ok("+THCOOH")
  {
    TfaIndexM();
    TfaIndexBracket();
    TfaSlice();
    SegmentAt("[M+THCOOH]+", 1, 9);
  }

  lemma TfaSlice()
    ensures Slice("[M+THCOOH]+", 2, 9) == "+THCOOH"
  {
    var x := "[M+THCOOH]+";
    assert x[2..9] == "+THCOOH";
  }

  lemma TfaIndexM()
    ensures IndexOf("[M+THCOOH]+", 'M') == Some(1)
  {
    IndexOfAt("[M+THCOOH]+", 'M', 1);
  }

  lemma TfaIndexBracket()
    ensures IndexOf("[M+THCOOH]+", ']') == Some(9)
  {
    var x := "[M+THCOOH]+";
    assert x[..9] == "[M+THCOOH";
    IndexOfAt(x, ']', 9);
  }

  lemma TfaGreedy()
    ensures !GreedyFrom("+THCOOH", 0)
  {
    assert !GreedyFrom("+THCOOH", 1);
  }

  /** `[DMSO+H]+` passes the style check on the M of DMSO, but the expansion
      C2H6OS removes it, so `str.index('M')` raises ValueError whatever the
      strict flag. */
  lemma DmsoLosesM(strict: bool, rf: string -> Option<Vec>)
    ensures Parse(Some("[DMSO+H]+"), true, strict, rf) == Err(ValueError)
  {
    DmsoNoSpace();
    DmsoNotCommon();
    DmsoStyle();
    DmsoExchange();
    DmsoNoM();
    PlainPathError("[DMSO+H]+", "[C2H6OS+H]+", true, strict, rf);
  }

  lemma DmsoNoSpace()
    ensures ' ' !in "[DMSO+H]+"
  {
  }

  lemma DmsoNotCommon()
    ensures Common("[DMSO+H]+", true).None?
  {
  }

  lemma DmsoStyle()
    ensures ValidStyle("[DMSO+H]+", true)
  {
    DmsoClose();
    DmsoOpen();
    StyleOf("[DMSO+H]+", true);
  }

  lemma DmsoClose()
    ensures Count("[DMSO+H]+", ']') == 1
  {
  }

  lemma DmsoOpen()
    ensures Count("[DMSO+H]+", '[') == 1
  {
  }

  lemma DmsoNoM()
    ensures CharsValid("[C2H6OS+H]+") == Err(ValueError)
  {
    assert 'M' !in "[C2H6OS+H]+";
  }

  lemma DmsoExchange()
    ensures Exchange("[DMSO+H]+") == "[C2H6OS+H]+"
  {
    var a, b := "[", "+H]+";
    assert a + "DMSO" + b == "[DMSO+H]+";
    assert a + "C2H6OS" + b == "[C2H6OS+H]+";
    ExchangeOneDmso(a, b);
  }

  /** The table is consulted on the space-stripped string first: `[M + H]+`
      is `[M+H]+`, charge 1, m 1, net H and no loss, whatever the strict
      flag and the formula reader. */
  lemma CommonAfterStripping(strict: bool, rf: string -> Option<Vec>)
    ensures Parse(Some("[M + H]+"), true, strict, rf) == Ok(Rule("[M+H]+", true, 1, 1, Neutral(OneH), None))
  {
    StripExample();
  }

  lemma StripExample()
    ensures Remove("[M + H]+", ' ') == "[M+H]+"
  {
    var p1, p2, p3 := "[M", "+", "H]+";
    var q1 := p1 + " " + p2;
    assert "[M + H]+" == q1 + " " + p3;
    RemoveAbsent(p1, ' ');
    RemoveSpaceJoin(p1, p2);
    RemoveSpaceJoin(q1, p3);
    assert p1 + p2 + p3 == "[M+H]+";
  }

  /** Removing the spaces around a space-free tail keeps the tail. */
  lemma RemoveSpaceJoin(a: string, b: string)
    requires ' ' !in b
    ensures Remove(a + " " + b, ' ') == Remove(a, ' ') + b
  {
    assert Remove(a + " " + b, ' ') == Remove(a, ' ') + Remove(" " + b, ' ') by {
      assert a + " " + b == a + (" " + b);
      RemoveConcat(a, " " + b, ' ');
    }
    assert Remove(" " + b, ' ') == Remove(b, ' ') by {
      assert (" " + b)[0] == ' ' && (" " + b)[1..] == b;
    }
    RemoveAbsent(b, ' ');
  }

  /** `[M+2H]2+`: charge 2, m 1 and, where `read_formula` reads HH as H2 and
      the empty loss as zero, net H2 and an all-zero loss formula. */
  lemma DoubleProton(strict: bool, rf: string -> Option<Vec>)
    requires rf("HH") == Some([0, 2, 0, 0, 0, 0, 0, 0, 0, 0, 0, 0])
    requires rf("") == Some(Zero)
    ensures Parse(Some("[M+2H]2+"), true, strict, rf)
         == Ok(Rule("[M+2H]2+", true, 2, 1, Neutral([0, 2, 0, 0, 0, 0, 0, 0, 0, 0, 0, 0]), Some(Neutral(Zero))))
  {
    DoubleProtonNoSpace();
    DoubleProtonNotCommon();
    DoubleProtonStyle();
    PlainPath("[M+2H]2+", true, strict, rf);
    DoubleProtonExchange();
    DoubleProtonExpanded(strict, rf);
  }

  lemma DoubleProtonExchange()
    ensures Exchange("[M+2H]2+") == "[M+2H]2+"
  {
    DoubleProtonNoAbbrev();
    ExchangePlain("[M+2H]2+");
  }

  lemma DoubleProtonNoAbbrev()
    ensures forall i :: 0 <= i < |"[M+2H]2+"| ==> !AbbrevLetter("[M+2H]2+"[i])
  {
  }

  lemma DoubleProtonExpanded(strict: bool, rf: string -> Option<Vec>)
    requires rf("HH") == Some([0, 2, 0, 0, 0, 0, 0, 0, 0, 0, 0, 0])
    requires rf("") == Some(Zero)
    ensures ParseExpanded("[M+2H]2+", true, strict, rf)
         == Ok(Rule("[M+2H]2+", true, 2, 1, Neutral([0, 2, 0, 0, 0, 0, 0, 0, 0, 0, 0, 0]), Some(Neutral(Zero))))
  {
    DoubleProtonChars();
    DoubleProtonM();
    DoubleProtonCharge();
    DoubleProtonGroups(rf);
    ExpandedRule("[M+2H]2+", true, strict, rf, 1, 2, Neutral([0, 2, 0, 0, 0, 0, 0, 0, 0, 0, 0, 0]), Neutral(Zero));
  }

  lemma DoubleProtonNoSpace()
    ensures ' ' !in "[M+2H]2+"
  {
  }

  lemma DoubleProtonNotCommon()
    ensures Common("[M+2H]2+", true).None?
  {
  }

  lemma DoubleProtonStyle()
    ensures ValidStyle("[M+2H]2+", true)
  {
    DoubleProtonClose();
    DoubleProtonOpen();
    StyleOf("[M+2H]2+", true);
  }

  lemma DoubleProtonClose()
    ensures Count("[M+2H]2+", ']') == 1
  {
  }

  lemma DoubleProtonOpen()
    ensures Count("[M+2H]2+", '[') == 1
  {
  }

  lemma DoubleProtonIndexM()
    ensures IndexOf("[M+2H]2+", 'M') == Some(1)
  {
    IndexOfAt("[M+2H]2+", 'M', 1);
  }

  lemma DoubleProtonIndexBracket()
    ensures IndexOf("[M+2H]2+", ']') == Some(5)
  {
    var s := "[M+2H]2+";
    assert s[..5] == "[M+2H";
    IndexOfAt(s, ']', 5);
  }

  lemma DoubleProtonChars()
    ensures CharsValid("[M+2H]2+") == Ok(true)
  {
    DoubleProtonIndexM();
    DoubleProtonIndexBracket();
    DoubleProtonSlice();
    DoubleProtonGreedy();
  }

  lemma DoubleProtonSlice()
    ensures Slice("[M+2H]2+", 2, 5) == "+2H"
  {
  }

  lemma DoubleProtonGreedy()
    ensures GreedyFrom("+2H", 0)
  {
  }

  lemma DoubleProtonM()
    ensures CalcM("[M+2H]2+") == Ok(1)
  {
    DoubleProtonIndexM();
  }

  lemma DoubleProtonCharge()
    ensures CalcCharge("[M+2H]2+", true) == Ok(2)
  {
    DoubleProtonAfter();
    DoubleProtonDigit();
    PositiveChargeOf("[M+2H]2+", "2+", 2);
  }

  lemma DoubleProtonAfter()
    ensures AfterBracket("[M+2H]2+") == Ok("2+")
  {
    DoubleProtonIndexBracket();
    DoubleProtonTail();
  }

  lemma DoubleProtonTail()
    ensures TakeUntil("[M+2H]2+"[6..], ']') == "2+"
  {
    assert "[M+2H]2+"[6..] == "2+";
    TakeUntilPrefix("2+", ']', 2);
  }

  lemma DoubleProtonDigit()
    ensures Remove("2+", '+') == "2" && PyInt("2") == Some(2)
  {
    PyIntNatToStr(2);
  }

  lemma DoubleProtonGroups(rf: string -> Option<Vec>)
    requires rf("HH") == Some([0, 2, 0, 0, 0, 0, 0, 0, 0, 0, 0, 0])
    requires rf("") == Some(Zero)
    ensures LossAndNet("[M+2H]2+", rf) == NetOk(Neutral([0, 2, 0, 0, 0, 0, 0, 0, 0, 0, 0, 0]), Neutral(Zero))
  {
    var h2: Vec := [0, 2, 0, 0, 0, 0, 0, 0, 0, 0, 0, 0];
    SubZero(h2);
    NoLoss();
    DoubleProtonSegments();
    DoubleProtonRepeat();
    NetOf("[M+2H]2+", rf, Parts("+2H", ""), "", "+H+H", Zero, h2);
  }

  lemma SubZero(v: Vec)
    ensures Sub(v, Zero) == v
  {
    assert forall i :: 0 <= i < 12 ==> Sub(v, Zero)[i] == v[i];
  }

  lemma NoLoss()
    ensures Expand("", '-', false) == Scanned("") && Remove("", '-') == ""
  {
  }

  lemma DoubleProtonSegments()
    ensures Groups("[M+2H]2+") == Ok(Some(Parts("+2H", "")))
  {
    DoubleProtonMarkers();
    DoubleProtonIndexBracket();
    GroupsOf("[M+2H]2+", 5);
    DoubleProtonParts();
  }

  lemma DoubleProtonParts()
    ensures Seg("[M+2H]2+", [2], 5, Parts("", "")) == Parts("+2H", "")
  {
    DoubleProtonSlice();
  }

  lemma DoubleProtonMarkers()
    ensures Markers("[M+2H]2+") == [2]
  {
    var s := "[M+2H]2+";
    assert IsSign(s[2]);
    assert forall k :: 1 <= k < 6 && k != 2 ==> !IsSign(s[k]);
    MarkersUpToSingle(s, 2, 6);
  }

  lemma DoubleProtonRepeat()
    ensures Expand("+2H", '+', true) == Scanned("+H+H")
    ensures Remove("+H+H", '+') == "HH"
  {
    RepeatedGroup('+', '2', "H", true);
    assert ['+', '2'] + "H" == "+2H";
    assert Repeat("H", 2) == "HH";
  }

  /** The marker scan and the group loop of `_calc_loss_and_net_formula`. */
  method SplitGroups(s: string) returns (r: Result<Option<Parts>>)
    ensures r == Groups(s)
  {
    var ri := IndexOf(s, ']');
    var parts := Segment(s, if ri.Some? then ri.value else 0);
    if parts.None? {
      return Ok(None);
    }
    if ri.None? {
      return Err(ValueError);
    }
    return Ok(parts);
  }

  /** The two repeat loops and the call to `read_formula`. */
  method NetFromParts(parts: Parts, rf: string -> Option<Vec>) returns (n: Net)
    ensures n == NetOfParts(parts, rf)
  {
    var lossScan := ExpandRepeats(parts.loss, '-', false);
    if !lossScan.Scanned? {
      return if lossScan.Fallback? then NetFallback else NetErr(IndexError);
    }
    var addScan := ExpandRepeats(parts.add, '+', true);
    if !addScan.Scanned? {
      return if addScan.Fallback? then NetFallback else NetErr(IndexError);
    }
    var la := rf(Remove(lossScan.text, '-'));
    var aa := rf(Remove(addScan.text, '+'));
    if la.None? || aa.None? {
      return NetErr(TypeError);
    }
    return NetOk(MakeFormula(Sub(aa.value, la.value), 0), MakeFormula(la.value, 0));
  }

  /** The `Adduct` object: its constructor rewrites `string` and sets the
      other fields step by step. Python creates the fields `charge`, `m`,
      `net_formula` and `loss_formula` only when a step sets them; here they
      start at 0, 0, the zero formula and None, and every path that returns
      an object has set all four. */
  class Adduct {
    var str: string
    var posMode: bool
    var charge: int
    var m: int
    var net: Formula
    var loss: Option<Formula>

    function Current(): Rule
      reads this
    {
      Rule(str, posMode, charge, m, net, loss)
    }

    /** The first two statements of `__init__`. */
    constructor Init(input: Option<string>, pos: bool)
      ensures str == Stripped(input, pos) && posMode == pos
      ensures charge == 0 && m == 0 && net == MakeFormula(Zero, 0) && loss == None
    {
      if input.None? {
        str := if pos then "[M+H]+" else "[M-H]-";
      } else {
        str := Remove(input.value, ' ');
      }
      posMode := pos;
      charge, m, net, loss := 0, 0, MakeFormula(Zero, 0), None;
    }

    /** `Adduct(string, pos_mode, report_invalid)`: the object, or the
        exception the constructor raises. */
    static method Make(input: Option<string>, pos: bool, strict: bool, rf: string -> Option<Vec>)
      returns (r: Result<Adduct>)
      ensures r.Err? <==> Parse(input, pos, strict, rf).Err?
      ensures r.Err? ==> r.exc == Parse(input, pos, strict, rf).exc
      ensures r.Ok? ==> fresh(r.value) && r.value.Current() == Parse(input, pos, strict, rf).value
    {
      var a := new Adduct.Init(input, pos);
      var common := a.CheckCommon();
      if common {
        return Ok(a);
      }
      var style := a.CheckValidStyle();
      if !style {
        var raised := a.MarkInvalid(strict);
        return if raised then Err(ValueError) else Ok(a);
      }
      a.ExchangeNames();
      var e := a.ParseGeneral(strict, rf);
      return if e.Some? then Err(e.value) else Ok(a);
    }

    /** The constructor's steps after `_exchange`: the character check, `m`,
        the charge and the formulas. */
    method ParseGeneral(strict: bool, rf: string -> Option<Vec>) returns (e: Option<Exc>)
      modifies this
      ensures e.Some? <==> ParseExpanded(old(str), old(posMode), strict, rf).Err?
      ensures e.Some? ==> e.value == ParseExpanded(old(str), old(posMode), strict, rf).exc
      ensures e.None? ==> Current() == ParseExpanded(old(str), old(posMode), strict, rf).value
    {
      var chars := CheckValidCharacter();
      if chars.Err? {
        return Some(chars.exc);
      }
      if !chars.value {
        var raised := MarkInvalid(strict);
        return if raised then Some(ValueError) else None;
      }
      // `_calc_m` cannot fail here: the character check found an `M`.
      e := ComputeM();
      if e.Some? {
        assert false;
      }
      e := ComputeCharge();
      if e.Some? {
        return;
      }
      e := ComputeLossAndNet(rf);
    }

    /** `_check_common`: on a table entry, sets charge, m and both formulas. */
    method CheckCommon() returns (found: bool)
      modifies this
      ensures found == Common(old(str), old(posMode)).Some?
      ensures found ==> Current() == Common(old(str), old(posMode)).value
      ensures !found ==> Current() == old(Current())
    {
      var c := Common(str, posMode);
      if c.Some? {
        Load(c.value);
      }
      found := c.Some?;
    }

    /** `_check_valid_style`. */
    method CheckValidStyle() returns (ok: bool)
      ensures ok == ValidStyle(str, posMode)
    {
      ok := false;
      if Count(str, ']') == 1 && Count(str, '[') == 1 && 'M' in str {
        var last := str[|str| - 1];
        ok := (last == '+' && posMode) || (last == '-' && !posMode);
      }
    }

    /** `_exchange`: the thirteen replacements, in table order. */
    method ExchangeNames()
      modifies this
      ensures str == Exchange(old(str))
      ensures posMode == old(posMode) && charge == old(charge) && m == old(m)
      ensures net == old(net) && loss == old(loss)
    {
      for i := 0 to |Abbrevs|
        invariant ExchangeFrom(str, i) == Exchange(old(str))
        invariant posMode == old(posMode) && charge == old(charge) && m == old(m)
        invariant net == old(net) && loss == old(loss)
      {
        str := Replace(str, Abbrevs[i].0, Abbrevs[i].1);
      }
    }

    /** `_check_valid_character`: the greedy scan over the text between the
        first `M` and the first `]`. */
    method CheckValidCharacter() returns (r: Result<bool>)
      ensures r == CharsValid(str)
    {
      var mi := IndexOf(str, 'M');
      if mi.None? {
        return Err(ValueError);
      }
      var ri := IndexOf(str, ']');
      if ri.None? {
        return Err(ValueError);
      }
      var seg := Slice(str, mi.value + 1, ri.value);
      assert CharSegment(str) == Ok(seg);
      var i := 0;
      while i < |seg|
        invariant i <= |seg|
        invariant GreedyFrom(seg, i) == GreedyFrom(seg, 0)
        decreases |seg| - i
      {
        if i < |seg| - 1 && IsPair(seg[i], seg[i + 1]) {
          i := i + 2;
        } else if IsSingle(seg[i]) {
          i := i + 1;
        } else {
          return Ok(false);
        }
      }
      return Ok(true);
    }

    /** Sets every field from `r`; the callers pass a rule of the same mode. */
    method Load(r: Rule)
      modifies this
      ensures Current() == r
    {
      str, posMode, charge, m, net, loss := r.str, r.posMode, r.charge, r.m, r.net, r.loss;
    }

    /** `_invalid`: raises in strict mode, otherwise resets to the default. */
    method MarkInvalid(strict: bool) returns (raised: bool)
      modifies this
      ensures raised == strict
      ensures strict ==> Current() == old(Current())
      ensures !strict ==> Current() == Default(old(posMode))
    {
      if strict {
        return true;
      }
      Load(Default(posMode));
      return false;
    }

    /** `_calc_m`. */
    method ComputeM() returns (e: Option<Exc>)
      modifies this
      ensures e.Some? <==> CalcM(old(str)).Err?
      ensures e.Some? ==> e.value == CalcM(old(str)).exc && Current() == old(Current())
      ensures e.None? ==> Current() == old(Current()).(m := CalcM(old(str)).value)
    {
      var idx := IndexOf(str, 'M');
      if idx.None? {
        return Some(ValueError);
      }
      var k := idx.value;
      var c := if k == 0 then str[|str| - 1] else str[k - 1];
      m := if IsDigit(c) then DigitVal(c) else 1;
      return None;
    }

    /** `_calc_charge`. */
    method ComputeCharge() returns (e: Option<Exc>)
      modifies this
      ensures e.Some? <==> CalcCharge(old(str), old(posMode)).Err?
      ensures e.Some? ==> e.value == CalcCharge(old(str), old(posMode)).exc && Current() == old(Current())
      ensures e.None? ==> Current() == old(Current()).(charge := CalcCharge(old(str), old(posMode)).value)
    {
      var after := AfterBracket(str);
      if after.Err? {
        return Some(after.exc);
      }
      var sub := Remove(after.value, if posMode then '+' else '-');
      if sub == "" {
        assert CalcCharge(str, posMode).Ok? && CalcCharge(str, posMode).value == if posMode then 1 else -1;
        charge := if posMode then 1 else -1;
        return None;
      }
      var v := PyInt(sub);
      if v.None? {
        return Some(ValueError);
      }
      assert CalcCharge(str, posMode).Ok? && CalcCharge(str, posMode).value == if posMode then v.value else -v.value;
      charge := if posMode then v.value else -v.value;
      return None;
    }

    /** `_calc_loss_and_net_formula`: the groups, then the formulas, or the
        default rule where there is nothing to read. */
    method ComputeLossAndNet(rf: string -> Option<Vec>) returns (e: Option<Exc>)
      modifies this
      ensures e.Some? <==> LossAndNet(old(str), rf).NetErr?
      ensures e.Some? ==> e.value == LossAndNet(old(str), rf).exc && Current() == old(Current())
      ensures LossAndNet(old(str), rf).NetFallback? ==> Current() == Default(old(posMode))
      ensures LossAndNet(old(str), rf).NetOk? ==>
        Current() == old(Current()).(net := LossAndNet(old(str), rf).net, loss := Some(LossAndNet(old(str), rf).loss))
    {
      var g := SplitGroups(str);
      var n: Net;
      if g.Err? {
        n := NetErr(g.exc);
      } else if g.value.None? {
        n := NetFallback;
      } else {
        n := NetFromParts(g.value.value, rf);
      }
      assert n == LossAndNet(str, rf);
      match n
      case NetErr(x) => e := Some(x);
      case NetFallback =>
        var _ := MarkInvalid(false);
        e := None;
      case NetOk(nf, lf) =>
        net, loss := nf, Some(lf);
        e := None;
    }
  }
}
