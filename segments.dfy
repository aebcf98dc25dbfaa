/** The add/loss segmentation of an adduct string such as `[M+H-H2O]+`: the
    sign markers, the split of the text into the added and the lost groups, and
    the repeat-digit expansion (`-2H2O` stands for H2O twice). The same code is
    found in both adduct parsers. */
module Segments {
  import opened PyStr

  predicate IsSign(c: char) { c == '+' || c == '-' }

  /** The positions `p` with `1 <= p < n` that hold a sign, ascending. */
  function MarkersUpTo(s: string, n: nat): (ms: seq<nat>)
    requires n <= |s|
    ensures forall i :: 0 <= i < |ms| ==> 1 <= ms[i] < n && IsSign(s[ms[i]])
    ensures Increasing(ms)
  {
    if n <= 1 then []
    else
      var prev := MarkersUpTo(s, n - 1);
      if IsSign(s[n - 1]) then IncreasingSnoc(prev, n - 1); prev + [n - 1] else prev
  }

  /** The markers scanned by `_calc_loss_and_net_formula`: the signs of
      `string[1:len(string) - 2]`, by their position in the whole string. */
  function Markers(s: string): seq<nat> {
    MarkersUpTo(s, if |s| >= 2 then |s| - 2 else 0)
  }

  /** No sign among positions 1 .. n - 1: no markers. */
  lemma {:induction false} MarkersUpToNone(s: string, n: nat)
    requires n <= |s|
    requires forall k :: 1 <= k < n ==> !IsSign(s[k])
    ensures MarkersUpTo(s, n) == []
  {
    if n > 1 {
      MarkersUpToNone(s, n - 1);
    }
  }

  /** Exactly one sign among positions 1 .. n - 1: it is the only marker. */
  lemma {:induction false} MarkersUpToSingle(s: string, p: nat, n: nat)
    requires 1 <= p < n <= |s| && IsSign(s[p])
    requires forall k :: 1 <= k < n && k != p ==> !IsSign(s[k])
    ensures MarkersUpTo(s, n) == [p]
  {
    if n - 1 == p {
      MarkersUpToNone(s, p);
    } else {
      MarkersUpToSingle(s, p, n - 1);
    }
  }

  /** Strictly ascending: each element is below the next. */
  predicate Increasing(ms: seq<nat>) {
    |ms| <= 1 || (ms[0] < ms[1] && Increasing(ms[1..]))
  }

  lemma {:induction false} IncreasingSnoc(ms: seq<nat>, y: nat)
    requires Increasing(ms)
    requires forall i :: 0 <= i < |ms| ==> ms[i] < y
    ensures Increasing(ms + [y])
  {
    if |ms| >= 1 {
      assert (ms + [y])[1..] == ms[1..] + [y];
      IncreasingSnoc(ms[1..], y);
    }
  }

  /** The markers of one sign (`add_index`, `loss_index`), in order. */
  function OfSign(s: string, ms: seq<nat>, c: char): (r: seq<nat>)
    requires forall i :: 0 <= i < |ms| ==> ms[i] < |s|
    ensures forall i :: 0 <= i < |r| ==> r[i] in ms && s[r[i]] == c
    ensures |r| <= |ms|
  {
    if ms == [] then []
    else (if s[ms[0]] == c then [ms[0]] else []) + OfSign(s, ms[1..], c)
  }

  lemma {:induction false} OfSignComplete(s: string, ms: seq<nat>, c: char)
    requires forall i :: 0 <= i < |ms| ==> ms[i] < |s|
    ensures forall k :: 0 <= k < |ms| && s[ms[k]] == c ==> ms[k] in OfSign(s, ms, c)
  {
    if ms != [] {
      OfSignComplete(s, ms[1..], c);
      forall k | 1 <= k < |ms| && s[ms[k]] == c ensures ms[k] in OfSign(s, ms, c) {
        assert ms[1..][k - 1] == ms[k];
      }
    }
  }

  /** All remaining markers carry the sign of the first. */
  predicate OneSign(s: string, ms: seq<nat>)
    requires forall i :: 0 <= i < |ms| ==> ms[i] < |s|
  {
    forall k :: 0 <= k < |ms| ==> s[ms[k]] == s[ms[0]]
  }

  /** For markers that are all signs: one sign remains iff one of the two
      sign lists is empty. */
  lemma OneSignIffListEmpty(s: string, ms: seq<nat>)
    requires forall i :: 0 <= i < |ms| ==> ms[i] < |s| && IsSign(s[ms[i]])
    ensures ms != [] ==> (OneSign(s, ms) <==> OfSign(s, ms, '+') == [] || OfSign(s, ms, '-') == [])
    ensures ms == [] <==> OfSign(s, ms, '+') == [] && OfSign(s, ms, '-') == []
  {
    if ms != [] {
      OfSignComplete(s, ms, '+');
      OfSignComplete(s, ms, '-');
      assert ms[0] in OfSign(s, ms, s[ms[0]]);
      if !OneSign(s, ms) {
        var k :| 0 <= k < |ms| && s[ms[k]] != s[ms[0]];
        assert ms[k] in OfSign(s, ms, s[ms[k]]);
      }
    }
  }

  /** In an increasing list every later element exceeds the head. */
  lemma {:induction false} LaterExceedsHead(ms: seq<nat>, x: nat)
    requires Increasing(ms) && ms != [] && x in ms[1..]
    ensures x > ms[0]
    decreases |ms|
  {
    if x != ms[1] {
      assert x in ms[1..][1..];
      LaterExceedsHead(ms[1..], x);
    }
  }

  /** Popping the first marker (of sign `c`, while markers of the other sign
      `d` remain): the `c` list loses its head, the `d` list is unchanged. */
  lemma PopUnfold(s: string, rest: seq<nat>, c: char, d: char)
    requires forall i :: 0 <= i < |rest| ==> rest[i] < |s| && IsSign(s[rest[i]])
    requires rest != [] && s[rest[0]] == c && c != d
    requires OfSign(s, rest, d) != []
    ensures |rest| >= 2
    ensures OfSign(s, rest, c) == [rest[0]] + OfSign(s, rest[1..], c)
    ensures OfSign(s, rest, d) == OfSign(s, rest[1..], d)
  {
    var tail := rest[1..];
    assert OfSign(s, rest, c) == [rest[0]] + OfSign(s, tail, c);
    assert OfSign(s, rest, d) == OfSign(s, tail, d);
    assert |OfSign(s, tail, d)| <= |tail|;
  }

  /** After the pop, the next marker is the nearer of the next `c` marker and
      the head of the `d` list, and that head lies beyond the popped marker. */
  lemma PopNext(s: string, rest: seq<nat>, c: char, d: char)
    requires forall i :: 0 <= i < |rest| ==> rest[i] < |s| && IsSign(s[rest[i]])
    requires Increasing(rest)
    requires |rest| >= 2 && IsSign(c) && IsSign(d) && c != d
    requires OfSign(s, rest[1..], d) != []
    ensures rest[0] < OfSign(s, rest[1..], d)[0]
    ensures rest[1] == (if OfSign(s, rest[1..], c) == [] || OfSign(s, rest[1..], c)[0] > OfSign(s, rest[1..], d)[0]
                        then OfSign(s, rest[1..], d)[0] else OfSign(s, rest[1..], c)[0])
  {
    var tail := rest[1..];
    var a := OfSign(s, tail, d);
    assert a[0] in tail;
    LaterExceedsHead(rest, a[0]);
    if s[tail[0]] == c {
      HeadOfOwnList(s, tail, c, d);
    } else {
      HeadOfOwnList(s, tail, d, c);
    }
  }

  /** The first marker heads the list of its own sign `c`, and every marker
      of the other sign `d` lies beyond it. */
  lemma HeadOfOwnList(s: string, ms: seq<nat>, c: char, d: char)
    requires forall i :: 0 <= i < |ms| ==> ms[i] < |s|
    requires Increasing(ms) && ms != [] && s[ms[0]] == c && c != d
    ensures OfSign(s, ms, c) != [] && OfSign(s, ms, c)[0] == ms[0]
    ensures OfSign(s, ms, d) != [] ==> OfSign(s, ms, d)[0] > ms[0]
  {
    var od := OfSign(s, ms, d);
    assert od == OfSign(s, ms[1..], d);
    if od != [] {
      assert od[0] in ms[1..];
      LaterExceedsHead(ms, od[0]);
    }
  }

  /** Popping the first marker, in terms of the two sign lists: it heads the
      list of its own sign `c`, and the next marker is the nearer of the next
      `c` marker and the head of the other list. */
  lemma PopFacts(s: string, rest: seq<nat>, c: char, d: char)
    requires forall i :: 0 <= i < |rest| ==> rest[i] < |s| && IsSign(s[rest[i]])
    requires Increasing(rest)
    requires rest != [] && s[rest[0]] == c && IsSign(c) && IsSign(d) && c != d
    requires OfSign(s, rest, d) != []
    ensures |rest| >= 2 && OfSign(s, rest, c) != []
    ensures OfSign(s, rest, c)[0] == rest[0] < OfSign(s, rest, d)[0]
    ensures OfSign(s, rest[1..], c) == OfSign(s, rest, c)[1..]
    ensures OfSign(s, rest[1..], d) == OfSign(s, rest, d)
    ensures rest[1] == (if |OfSign(s, rest, c)| == 1 || OfSign(s, rest, c)[1] > OfSign(s, rest, d)[0]
                        then OfSign(s, rest, d)[0] else OfSign(s, rest, c)[1])
  {
    PopUnfold(s, rest, c, d);
    PopNext(s, rest, c, d);
    var cl := OfSign(s, rest, c);
    assert cl[1..] == OfSign(s, rest[1..], c);
  }

  /** The added and the lost text. */
  datatype Parts = Parts(add: string, loss: string)

  /** The segmentation, over the merged marker list: each marker's group runs to
      the next marker; once only one sign remains, everything from the first
      remaining marker up to `close` (the `]`) belongs to that sign. */
  function Seg(s: string, ms: seq<nat>, close: nat, acc: Parts): Parts
    requires forall i :: 0 <= i < |ms| ==> ms[i] < |s|
    decreases |ms|
  {
    if ms == [] then acc
    else if OneSign(s, ms) then
      (if s[ms[0]] == '+' then Parts(acc.add + Slice(s, ms[0], close), acc.loss)
       else Parts(acc.add, acc.loss + Slice(s, ms[0], close)))
    else
      var piece := Slice(s, ms[0], ms[1]);
      Seg(s, ms[1..], close, if s[ms[0]] == '+' then Parts(acc.add + piece, acc.loss) else Parts(acc.add, acc.loss + piece))
  }

  /** Every group starts at a marker of its sign: the added text is a
      concatenation of groups opened by `+`, the lost text of groups opened by `-`. */
  lemma {:induction false} SegGroupsStartWithSign(s: string, ms: seq<nat>, close: nat, acc: Parts)
    requires forall i :: 0 <= i < |ms| ==> ms[i] < |s| && IsSign(s[ms[i]])
    requires Increasing(ms)
    requires forall i :: 0 <= i < |ms| ==> ms[i] < close
    requires acc.add == [] || acc.add[0] == '+'
    requires acc.loss == [] || acc.loss[0] == '-'
    ensures Seg(s, ms, close, acc).add == [] || Seg(s, ms, close, acc).add[0] == '+'
    ensures Seg(s, ms, close, acc).loss == [] || Seg(s, ms, close, acc).loss[0] == '-'
    decreases |ms|
  {
    if ms != [] && !OneSign(s, ms) {
      var piece := Slice(s, ms[0], ms[1]);
      assert piece != [] && piece[0] == s[ms[0]];
      var acc' := if s[ms[0]] == '+' then Parts(acc.add + piece, acc.loss) else Parts(acc.add, acc.loss + piece);
      assert acc'.add == [] || acc'.add[0] == '+';
      assert acc'.loss == [] || acc'.loss[0] == '-';
      SegGroupsStartWithSign(s, ms[1..], close, acc');
    } else if ms != [] {
      var piece := Slice(s, ms[0], close);
      assert piece != [] && piece[0] == s[ms[0]];
    }
  }

  /** The marker loop of `_calc_loss_and_net_formula`. */
  method CollectMarkers(s: string) returns (addIdx: seq<nat>, lossIdx: seq<nat>)
    ensures addIdx == OfSign(s, Markers(s), '+') && lossIdx == OfSign(s, Markers(s), '-')
  {
    addIdx, lossIdx := [], [];
    var n := if |s| >= 2 then |s| - 2 else 0;
    if n > 1 {
      for i := 1 to n
        invariant addIdx == OfSign(s, MarkersUpTo(s, i), '+')
        invariant lossIdx == OfSign(s, MarkersUpTo(s, i), '-')
      {
        MarkersStep(s, i, '+');
        MarkersStep(s, i, '-');
        if s[i] == '+' {
          addIdx := addIdx + [i];
        } else if s[i] == '-' {
          lossIdx := lossIdx + [i];
        }
      }
    }
  }

  /** Scanning one more position adds it to the list of its sign. */
  lemma MarkersStep(s: string, i: nat, c: char)
    requires 1 <= i < |s|
    ensures OfSign(s, MarkersUpTo(s, i + 1), c)
         == OfSign(s, MarkersUpTo(s, i), c) + (if s[i] == c && IsSign(s[i]) then [i] else [])
  {
    assert MarkersUpTo(s, i + 1) == MarkersUpTo(s, i) + (if IsSign(s[i]) then [i] else []);
    OfSignAppend(s, MarkersUpTo(s, i), i, c);
  }

  lemma {:induction false} OfSignAppend(s: string, ms: seq<nat>, p: nat, c: char)
    requires forall i :: 0 <= i < |ms| ==> ms[i] < |s|
    requires p < |s|
    ensures OfSign(s, ms + (if IsSign(s[p]) then [p] else []), c)
         == OfSign(s, ms, c) + (if s[p] == c && IsSign(s[p]) then [p] else [])
  {
    var q: seq<nat> := if IsSign(s[p]) then [p] else [];
    if ms == [] {
      assert ms + q == q;
    } else {
      assert (ms + q)[0] == ms[0];
      assert (ms + q)[1..] == ms[1..] + q;
      OfSignAppend(s, ms[1..], p, c);
    }
  }


  /** One round of the `while` loop: the group opened by the nearer of the
      two list heads, ending at the next marker of either sign. */
  method PopGroup(s: string, ghost rest: seq<nat>, addIdx: seq<nat>, lossIdx: seq<nat>)
    returns (piece: string, isLoss: bool, addIdx': seq<nat>, lossIdx': seq<nat>)
    requires forall i :: 0 <= i < |rest| ==> rest[i] < |s| && IsSign(s[rest[i]])
    requires Increasing(rest)
    requires addIdx == OfSign(s, rest, '+') && lossIdx == OfSign(s, rest, '-')
    requires addIdx != [] && lossIdx != []
    ensures |rest| >= 2 && isLoss == (s[rest[0]] == '-')
    ensures piece == Slice(s, rest[0], rest[1])
    ensures addIdx' == OfSign(s, rest[1..], '+') && lossIdx' == OfSign(s, rest[1..], '-')
  {
    OneSignIffListEmpty(s, rest);
    ghost var c := s[rest[0]];
    ghost var d := if c == '+' then '-' else '+';
    PopFacts(s, rest, c, d);
    if lossIdx[0] < addIdx[0] {
      if |lossIdx| == 1 {
        piece := Slice(s, lossIdx[0], addIdx[0]);
      } else if lossIdx[1] > addIdx[0] {
        piece := Slice(s, lossIdx[0], addIdx[0]);
      } else {
        piece := Slice(s, lossIdx[0], lossIdx[1]);
      }
      isLoss, addIdx', lossIdx' := true, addIdx, lossIdx[1..];
    } else {
      if |addIdx| == 1 {
        piece := Slice(s, addIdx[0], lossIdx[0]);
      } else if addIdx[1] < lossIdx[0] {
        piece := Slice(s, addIdx[0], addIdx[1]);
      } else {
        piece := Slice(s, addIdx[0], lossIdx[0]);
      }
      isLoss, addIdx', lossIdx' := false, addIdx[1..], lossIdx;
    }
  }

  /** The `while` loop of `_calc_loss_and_net_formula` and the tail after it;
      None where the string has no marker at all (the fallback). */
  method Segment(s: string, close: nat) returns (r: Option<Parts>)
    ensures Markers(s) == [] ==> r.None?
    ensures Markers(s) != [] ==> r == Some(Seg(s, Markers(s), close, Parts("", "")))
  {
    var addIdx, lossIdx := CollectMarkers(s);
    ghost var ms: seq<nat> := Markers(s);
    ghost var rest: seq<nat> := ms;
    var add, loss := "", "";
    OneSignIffListEmpty(s, ms);
    while |addIdx| != 0 && |lossIdx| != 0
      invariant forall i :: 0 <= i < |rest| ==> rest[i] < |s| && IsSign(s[rest[i]])
      invariant Increasing(rest)
      invariant addIdx == OfSign(s, rest, '+') && lossIdx == OfSign(s, rest, '-')
      invariant Seg(s, rest, close, Parts(add, loss)) == Seg(s, ms, close, Parts("", ""))
      invariant ms != [] ==> rest != []
      decreases |rest|
    {
      OneSignIffListEmpty(s, rest);
      var piece, isLoss;
      piece, isLoss, addIdx, lossIdx := PopGroup(s, rest, addIdx, lossIdx);
      if isLoss {
        loss := loss + piece;
      } else {
        add := add + piece;
      }
      rest := rest[1..];
    }
    if |addIdx| == 0 && |lossIdx| == 0 {
      return None;
    }
    OneSignIffListEmpty(s, rest);
    assert rest[0] in OfSign(s, rest, s[rest[0]]) by {
      OfSignComplete(s, rest, s[rest[0]]);
    }
    if |addIdx| == 0 {
      loss := loss + Slice(s, lossIdx[0], close);
    } else {
      add := add + Slice(s, addIdx[0], close);
    }
    r := Some(Parts(add, loss));
  }

  /** The outcome of a repeat-digit loop: the fallback (`_invalid`), an
      IndexError, or the rewritten group text. */
  datatype Scan = Fallback | IndexFault | Scanned(text: string)

  /** The text after the loop: the collected repeats appended behind one more
      sign, then every blank removed. */
  function Finish(cur: string, sign: char, rep: string): string {
    Remove(if rep != "" then cur + [sign] + rep else cur, ' ')
  }

  /** The repeat-digit loop of `_calc_loss_and_net_formula`, from position `i`
      of the ORIGINAL group text `orig`: the loop enumerates `orig`, while its
      tests and rewrites read the CURRENT text `cur`. A sign followed by a digit
      `t` repeats the text after the digit up to the next sign, `t - 1` more
      times when `t > 2` and once otherwise; the digit is blanked (`del` false,
      lost groups) or deleted (`del` true, added groups; later positions of
      `orig` then no longer line up with `cur`). */
  function RepeatScan(orig: string, sign: char, del: bool, i: nat, cur: string, rep: string): Scan
    decreases |orig| - i
  {
    if i >= |orig| then Scanned(Finish(cur, sign, rep))
    else if orig[i] != sign then RepeatScan(orig, sign, del, i + 1, cur, rep)
    else if cur == [] then IndexFault
    else if cur[|cur| - 1] == sign then Fallback
    else if i + 1 >= |cur| then IndexFault
    else if cur[i + 1] == sign then Fallback
    else if IsDigit(cur[i + 1]) then
      var t := DigitVal(cur[i + 1]);
      var e := TakeUntil(cur[i + 2..], sign);
      var e' := if t > 2 then Repeat(e, t - 1) else e;
      var cur' := if del then cur[..i + 1] + cur[i + 2..] else cur[i + 1 := ' '];
      RepeatScan(orig, sign, del, i + 1, cur', rep + e')
    else RepeatScan(orig, sign, del, i + 1, cur, rep)
  }

  /** The whole loop over a group text. */
  function Expand(orig: string, sign: char, del: bool): Scan {
    RepeatScan(orig, sign, del, 0, orig, "")
  }

  /** The loop, as the source runs it. */
  method ExpandRepeats(orig: string, sign: char, del: bool) returns (r: Scan)
    ensures r == Expand(orig, sign, del)
  {
    var cur := orig;
    var rep := "";
    for i := 0 to |orig|
      invariant RepeatScan(orig, sign, del, i, cur, rep) == Expand(orig, sign, del)
    {
      if orig[i] == sign {
        if cur == [] {
          return IndexFault;
        }
        if cur[|cur| - 1] == sign {
          return Fallback;
        }
        if i + 1 >= |cur| {
          return IndexFault;
        }
        if cur[i + 1] == sign {
          return Fallback;
        } else if IsDigit(cur[i + 1]) {
          var t := DigitVal(cur[i + 1]);
          var e := RepeatText(cur[i + 2..], sign);
          if t > 2 {
            e := Repeat(e, t - 1);
          }
          if del {
            cur := cur[..i + 1] + cur[i + 2..];
          } else {
            cur := cur[i + 1 := ' '];
          }
          rep := rep + e;
        }
      }
    }
    r := Scanned(Finish(cur, sign, rep));
  }

  /** The inner loop: the characters up to the next sign. */
  method RepeatText(rest: string, sign: char) returns (e: string)
    ensures e == TakeUntil(rest, sign)
  {
    e := "";
    var k := 0;
    while k < |rest| && rest[k] != sign
      invariant k <= |rest|
      invariant e == rest[..k] && sign !in e
    {
      e := e + [rest[k]];
      k := k + 1;
    }
    TakeUntilPrefix(rest, sign, k);
  }

  /** Past the last sign the loop changes nothing more. */
  lemma {:induction false} ScanWithoutSign(orig: string, sign: char, del: bool, i: nat, cur: string, rep: string)
    requires forall j :: i <= j < |orig| ==> orig[j] != sign
    ensures RepeatScan(orig, sign, del, i, cur, rep) == Scanned(Finish(cur, sign, rep))
    decreases |orig| - i
  {
    if i < |orig| {
      ScanWithoutSign(orig, sign, del, i + 1, cur, rep);
    }
  }

  lemma {:induction false} RemoveConcat(a: string, b: string, c: char)
    ensures Remove(a + b, c) == Remove(a, c) + Remove(b, c)
  {
    if a == [] {
      assert a + b == b;
    } else {
      assert (a + b)[0] == a[0];
      assert (a + b)[1..] == a[1..] + b;
      RemoveConcat(a[1..], b, c);
    }
  }

  /** The times a repeat digit `t` makes its text appear: the text itself plus
      `t - 1` copies when `t > 2`, plus one copy otherwise. */
  function Extra(x: string, t: nat): string {
    if t > 2 then Repeat(x, t - 1) else x
  }

  /** The first step over `[sign, dg] + x`: the digit is consumed and the
      text after it collected once. */
  lemma RepeatedGroupStep(sign: char, dg: char, x: string, del: bool)
    requires IsSign(sign) && IsDigit(dg)
    requires sign !in x
    ensures Expand([sign, dg] + x, sign, del)
         == RepeatScan([sign, dg] + x, sign, del, 1, if del then [sign] + x else [sign, ' '] + x, Extra(x, DigitVal(dg)))
  {
    var orig := [sign, dg] + x;
    assert orig[|orig| - 1] != sign by {
      if x != "" { assert orig[|orig| - 1] == x[|x| - 1]; }
    }
    TakeUntilPrefix(x, sign, |x|);
    assert x[..|x|] == x;
    FirstDigitStep(orig, sign, del, dg, x);
  }

  /** The first step over a text `[sign, d] + rest` that does not end in a
      sign: the digit is consumed and the text after it, up to the next sign,
      collected. */
  lemma FirstDigitStep(o: string, sign: char, del: bool, d: char, rest: string)
    requires IsSign(sign) && IsDigit(d) && o == [sign, d] + rest && o[|o| - 1] != sign
    ensures RepeatScan(o, sign, del, 0, o, "")
         == RepeatScan(o, sign, del, 1, if del then [sign] + rest else [sign, ' '] + rest,
                       Extra(TakeUntil(rest, sign), DigitVal(d)))
  {
    assert o[2..] == rest;
    assert o[..1] + o[2..] == [sign] + rest;
    assert o[1 := ' '] == [sign, ' '] + rest;
    var e := Extra(TakeUntil(rest, sign), DigitVal(d));
    assert "" + e == e;
    DigitStep(o, sign, del, 0, o, "");
  }

  /** A single group with a repeat digit `t` stands for `max(t, 2)` copies of
      its text: the text once, then once more (or `t - 1` more times when
      `t > 2`) behind a second sign. */
  lemma RepeatedGroup(sign: char, dg: char, x: string, del: bool)
    requires IsSign(sign) && IsDigit(dg)
    requires sign !in x && ' ' !in x
    ensures Expand([sign, dg] + x, sign, del).Scanned?
    ensures Expand([sign, dg] + x, sign, del).text
         == [sign] + x + (if x == "" then "" else [sign] + Extra(x, DigitVal(dg)))
    ensures Remove(Expand([sign, dg] + x, sign, del).text, sign)
         == Repeat(x, if DigitVal(dg) >= 2 then DigitVal(dg) else 2)
  {
    var orig := [sign, dg] + x;
    var t := DigitVal(dg);
    var e' := Extra(x, t);
    var cur' := if del then [sign] + x else [sign, ' '] + x;
    RepeatedGroupStep(sign, dg, x, del);
    forall j | 1 <= j < |orig| ensures orig[j] != sign {
      if j >= 2 { assert orig[j] == x[j - 2]; }
    }
    ScanWithoutSign(orig, sign, del, 1, cur', e');
    ghost var r := Expand(orig, sign, del);
    assert r == Scanned(Finish(cur', sign, e'));
    ExtraFree(x, t);
    GroupText(sign, x, e', del);
    RepeatTimes(x, t);
  }

  /** The repeats of a text share its absent characters, and are empty
      exactly when it is. */
  lemma ExtraFree(x: string, t: nat)
    ensures forall c :: c !in x ==> c !in Extra(x, t)
    ensures (x == "") == (Extra(x, t) == "")
  {
    forall c | c !in x ensures c !in Extra(x, t) {
      RepeatFree(x, t - 1, c);
    }
  }

  /** `x + Extra(x, t)` is `max(t, 2)` copies of `x`. */
  lemma RepeatTimes(x: string, t: nat)
    ensures x + Extra(x, t) == Repeat(x, if t >= 2 then t else 2)
  {
    if t > 2 {
      assert Repeat(x, t) == x + Repeat(x, t - 1);
    } else {
      assert Repeat(x, 2) == x + Repeat(x, 1);
      assert Repeat(x, 1) == x + Repeat(x, 0);
      assert x + "" == x;
    }
  }

  /** Removing `c` from a sign, then a text free of `c`. */
  lemma RemoveSignThen(sign: char, x: string, c: char)
    requires c != sign && c !in x
    ensures Remove([sign] + x, c) == [sign] + x
  {
    RemoveConcat([sign], x, c);
    RemoveAbsent(x, c);
  }

  /** Blank and sign removal on the rewritten single group. */
  lemma GroupText(sign: char, x: string, e': string, del: bool)
    requires IsSign(sign) && sign !in x && ' ' !in x && sign !in e' && ' ' !in e'
    requires (x == "") == (e' == "")
    ensures Finish(if del then [sign] + x else [sign, ' '] + x, sign, e')
         == [sign] + x + (if x == "" then "" else [sign] + e')
    ensures Remove([sign] + x + (if x == "" then "" else [sign] + e'), sign) == x + e'
  {
    GroupBlanks(sign, x, e', del);
    GroupSigns(sign, x, e');
  }

  lemma GroupBlanks(sign: char, x: string, e': string, del: bool)
    requires IsSign(sign) && ' ' !in x && ' ' !in e'
    requires (x == "") == (e' == "")
    ensures Finish(if del then [sign] + x else [sign, ' '] + x, sign, e')
         == [sign] + x + (if x == "" then "" else [sign] + e')
  {
    var cur' := if del then [sign] + x else [sign, ' '] + x;
    CurBlank(sign, x, del);
    if x == "" {
      assert [sign] + x + "" == [sign] + x;
    } else {
      assert cur' + [sign] + e' == cur' + ([sign] + e');
      RemoveConcat(cur', [sign] + e', ' ');
      RemoveSignThen(sign, e', ' ');
    }
  }

  /** The blank a lost group's digit leaves is removed with the others. */
  lemma CurBlank(sign: char, x: string, del: bool)
    requires IsSign(sign) && ' ' !in x
    ensures Remove(if del then [sign] + x else [sign, ' '] + x, ' ') == [sign] + x
  {
    if del {
      RemoveSignThen(sign, x, ' ');
    } else {
      RemoveConcat([sign, ' '], x, ' ');
      RemoveAbsent(x, ' ');
      assert Remove([sign, ' '], ' ') == [sign];
    }
  }

  lemma GroupSigns(sign: char, x: string, e': string)
    requires sign !in x && sign !in e'
    requires (x == "") == (e' == "")
    ensures Remove([sign] + x + (if x == "" then "" else [sign] + e'), sign) == x + e'
  {
    if x == "" {
      assert [sign] + x + "" == [sign];
      assert Remove([sign], sign) == "";
    } else {
      var out := [sign] + x + ([sign] + e');
      assert [sign] + x + [sign] + e' == out;
      RemoveConcat([sign] + x, [sign] + e', sign);
      RemoveSignStrip(sign, x);
      RemoveSignStrip(sign, e');
    }
  }

  lemma RemoveSignStrip(sign: char, x: string)
    requires sign !in x
    ensures Remove([sign] + x, sign) == x
  {
    assert ([sign] + x)[1..] == x;
    RemoveAbsent(x, sign);
  }

  lemma {:induction false} RepeatFree(x: string, n: int, c: char)
    requires c !in x
    ensures c !in Repeat(x, n)
    decreases if n <= 0 then 0 else n
  {
    if n > 0 {
      RepeatFree(x, n - 1, c);
    }
  }

  lemma {:induction false} RepeatEmpty(n: int)
    ensures Repeat("", n) == ""
    decreases if n <= 0 then 0 else n
  {
    if n > 0 {
      RepeatEmpty(n - 1);
    }
  }

  /** Positions of `orig` without a sign leave the loop state alone. */
  lemma {:induction false} SkipTo(orig: string, sign: char, del: bool, i: nat, j: nat, cur: string, rep: string)
    requires i <= j <= |orig|
    requires forall k :: i <= k < j ==> orig[k] != sign
    ensures RepeatScan(orig, sign, del, i, cur, rep) == RepeatScan(orig, sign, del, j, cur, rep)
    decreases j - i
  {
    if i < j {
      SkipTo(orig, sign, del, i + 1, j, cur, rep);
    }
  }

  /** A sign followed by a digit: the digit is consumed and the text after it,
      up to the next sign, collected. */
  lemma DigitStep(orig: string, sign: char, del: bool, i: nat, cur: string, rep: string)
    requires i < |orig| && orig[i] == sign
    requires cur != [] && cur[|cur| - 1] != sign && i + 1 < |cur| && cur[i + 1] != sign && IsDigit(cur[i + 1])
    ensures RepeatScan(orig, sign, del, i, cur, rep)
         == RepeatScan(orig, sign, del, i + 1, if del then cur[..i + 1] + cur[i + 2..] else cur[i + 1 := ' '],
                       rep + Extra(TakeUntil(cur[i + 2..], sign), DigitVal(cur[i + 1])))
  {
  }

  /** The text of two groups `[sign, d1] + x + [sign, d2] + y`. */
  function TwoGroups(sign: char, d1: char, x: string, d2: char, y: string): string {
    [sign, d1] + x + [sign, d2] + y
  }

  lemma TwoGroupsFirstStep(sign: char, d1: char, x: string, d2: char, y: string, del: bool)
    requires IsSign(sign) && IsDigit(d1) && IsDigit(d2) && sign !in x && sign !in y
    ensures var o := TwoGroups(sign, d1, x, d2, y);
      RepeatScan(o, sign, del, 0, o, "")
        == RepeatScan(o, sign, del, |x| + 2,
                      if del then [sign] + x + [sign, d2] + y else [sign, ' '] + x + [sign, d2] + y,
                      Extra(x, DigitVal(d1)))
  {
    TwoGroupsDigit(sign, d1, x, d2, y, del);
    TwoGroupsSkip(sign, d1, x, d2, y, del,
                  if del then [sign] + x + [sign, d2] + y else [sign, ' '] + x + [sign, d2] + y,
                  Extra(x, DigitVal(d1)));
  }

  /** Over two groups, the first repeat digit collects the first group's text. */
  lemma TwoGroupsDigit(sign: char, d1: char, x: string, d2: char, y: string, del: bool)
    requires IsSign(sign) && IsDigit(d1) && IsDigit(d2) && sign !in x && sign !in y
    ensures var o := TwoGroups(sign, d1, x, d2, y);
      RepeatScan(o, sign, del, 0, o, "")
        == RepeatScan(o, sign, del, 1,
                      if del then [sign] + x + [sign, d2] + y else [sign, ' '] + x + [sign, d2] + y,
                      Extra(x, DigitVal(d1)))
  {
    var o := TwoGroups(sign, d1, x, d2, y);
    var rest := x + [sign, d2] + y;
    TwoGroupsShape(sign, d1, x, d2, y);
    FirstDigitStep(o, sign, del, d1, rest);
    if del {
      assert [sign] + rest == [sign] + x + [sign, d2] + y;
    } else {
      assert [sign, ' '] + rest == [sign, ' '] + x + [sign, d2] + y;
    }
  }

  /** Two groups are a sign and a digit before the rest, and do not end in a sign. */
  lemma TwoGroupsShape(sign: char, d1: char, x: string, d2: char, y: string)
    requires IsDigit(d2) && IsSign(sign) && sign !in x && sign !in y
    ensures var o := TwoGroups(sign, d1, x, d2, y);
      o == [sign, d1] + (x + [sign, d2] + y) && o[|o| - 1] != sign
    ensures TakeUntil(x + [sign, d2] + y, sign) == x
  {
    TwoGroupsLast(sign, d1, x, d2, y);
    FirstGroupText(sign, x, d2, y);
  }

  /** Two groups do not end in a sign. */
  lemma TwoGroupsLast(sign: char, d1: char, x: string, d2: char, y: string)
    requires IsDigit(d2) && IsSign(sign) && sign !in y
    ensures var o := TwoGroups(sign, d1, x, d2, y); o[|o| - 1] != sign
  {
    var o := TwoGroups(sign, d1, x, d2, y);
    if y != "" {
      assert o[|o| - 1] == y[|y| - 1];
    } else {
      assert o[|o| - 1] == d2;
    }
  }

  /** The text up to the second sign is the first group's text. */
  lemma FirstGroupText(sign: char, x: string, d2: char, y: string)
    requires sign !in x
    ensures TakeUntil(x + [sign, d2] + y, sign) == x
  {
    var rest := x + [sign, d2] + y;
    assert rest[..|x|] == x;
    assert rest[|x|] == sign;
    TakeUntilPrefix(rest, sign, |x|);
  }

  /** Over two groups, the first group's text holds no sign to act on. */
  lemma TwoGroupsSkip(sign: char, d1: char, x: string, d2: char, y: string, del: bool, cur: string, rep: string)
    requires IsSign(sign) && IsDigit(d1) && sign !in x
    ensures var o := TwoGroups(sign, d1, x, d2, y);
      RepeatScan(o, sign, del, 1, cur, rep) == RepeatScan(o, sign, del, |x| + 2, cur, rep)
  {
    var o := TwoGroups(sign, d1, x, d2, y);
    forall k | 1 <= k < |x| + 2 ensures o[k] != sign {
      if k >= 2 { assert o[k] == x[k - 2]; } else { assert o[1] == d1; }
    }
    SkipTo(o, sign, del, 1, |x| + 2, cur, rep);
  }

  /** Two repeated lost groups: both repeat digits take effect, so each group
      counts `max(t, 2)` times. */
  lemma TwoLostGroups(d1: char, x: string, d2: char, y: string)
    requires IsDigit(d1) && IsDigit(d2) && '-' !in x && '-' !in y
    ensures Expand(TwoGroups('-', d1, x, d2, y), '-', false)
         == Scanned(Finish(['-', ' '] + x + ['-', ' '] + y, '-', Extra(x, DigitVal(d1)) + Extra(y, DigitVal(d2))))
  {
    var o := TwoGroups('-', d1, x, d2, y);
    var n := |x|;
    var cur1 := ['-', ' '] + x + ['-', d2] + y;
    var cur2 := ['-', ' '] + x + ['-', ' '] + y;
    var e1 := Extra(x, DigitVal(d1));
    TwoGroupsFirstStep('-', d1, x, d2, y, false);
    LostSecondStep(d1, x, d2, y);
    TailWithoutSign('-', d1, x, d2, y);
    ScanWithoutSign(o, '-', false, n + 3, cur2, e1 + Extra(y, DigitVal(d2)));
  }

  /** The second lost group's digit is blanked and its text collected. */
  lemma LostSecondStep(d1: char, x: string, d2: char, y: string)
    requires IsDigit(d1) && IsDigit(d2) && '-' !in x && '-' !in y
    ensures var o := TwoGroups('-', d1, x, d2, y);
      RepeatScan(o, '-', false, |x| + 2, ['-', ' '] + x + ['-', d2] + y, Extra(x, DigitVal(d1)))
        == RepeatScan(o, '-', false, |x| + 3, ['-', ' '] + x + ['-', ' '] + y,
                      Extra(x, DigitVal(d1)) + Extra(y, DigitVal(d2)))
  {
    var o := TwoGroups('-', d1, x, d2, y);
    var n := |x|;
    var cur1 := ['-', ' '] + x + ['-', d2] + y;
    assert cur1[n + 3] == d2 && cur1[n + 2] == '-' && o[n + 2] == '-';
    assert cur1[|cur1| - 1] != '-' by {
      if y != "" { assert cur1[|cur1| - 1] == y[|y| - 1]; }
    }
    assert cur1[n + 4..] == y;
    TakeUntilPrefix(y, '-', |y|);
    assert y[..|y|] == y;
    DigitStep(o, '-', false, n + 2, cur1, Extra(x, DigitVal(d1)));
    assert cur1[n + 3 := ' '] == ['-', ' '] + x + ['-', ' '] + y;
  }

  /** No sign follows the second repeat digit. */
  lemma TailWithoutSign(sign: char, d1: char, x: string, d2: char, y: string)
    requires IsSign(sign) && IsDigit(d2) && sign !in y
    ensures var o := TwoGroups(sign, d1, x, d2, y);
      forall k :: |x| + 3 <= k < |o| ==> o[k] != sign
  {
    var o := TwoGroups(sign, d1, x, d2, y);
    var n := |x|;
    forall k | n + 3 <= k < |o| ensures o[k] != sign {
      if k >= n + 4 { assert o[k] == y[k - n - 4]; } else { assert o[k] == d2; }
    }
  }

  /** Two repeated added groups: deleting the first repeat digit shifts the
      text under the loop's position, so the second digit is never reached.
      The second group then counts once instead of `max(t, 2)` times (with a
      stray digit left in its text); `+2H+2K` yields `+H+2K+H`, H3K where the
      lost-group rule gives H2K2. */
  lemma TwoAddedGroups(d1: char, x: string, d2: char, y: string)
    requires IsDigit(d1) && IsDigit(d2) && '+' !in x && '+' !in y
    requires y != "" && !IsDigit(y[0])
    ensures Expand(TwoGroups('+', d1, x, d2, y), '+', true)
         == Scanned(Finish(['+'] + x + ['+', d2] + y, '+', Extra(x, DigitVal(d1))))
  {
    var o := TwoGroups('+', d1, x, d2, y);
    var n := |x|;
    var cur1 := ['+'] + x + ['+', d2] + y;
    TwoGroupsFirstStep('+', d1, x, d2, y, true);
    assert o[n + 2] == '+' && cur1[n + 3] == y[0];
    assert y[0] != '+' by { assert y[0] in y; }
    assert cur1[|cur1| - 1] == y[|y| - 1] && y[|y| - 1] in y;
    assert RepeatScan(o, '+', true, n + 2, cur1, Extra(x, DigitVal(d1)))
        == RepeatScan(o, '+', true, n + 3, cur1, Extra(x, DigitVal(d1)));
    TailWithoutSign('+', d1, x, d2, y);
    ScanWithoutSign(o, '+', true, n + 3, cur1, Extra(x, DigitVal(d1)));
  }

  /** With nothing after the second repeat digit of an added text, the shifted
      lookup runs past the end: `+2H+2` raises IndexError. */
  lemma TwoAddedGroupsIndexError(d1: char, x: string, d2: char)
    requires IsDigit(d1) && IsDigit(d2) && '+' !in x
    ensures Expand(TwoGroups('+', d1, x, d2, ""), '+', true) == IndexFault
  {
    var o := TwoGroups('+', d1, x, d2, "");
    var n := |x|;
    var cur1 := ['+'] + x + ['+', d2] + "";
    TwoGroupsFirstStep('+', d1, x, d2, "", true);
    assert o[n + 2] == '+' && |cur1| == n + 3 && cur1[|cur1| - 1] == d2;
  }
}
