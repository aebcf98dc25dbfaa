/** Python string and integer primitives that the parsers rely on, with the
    semantics of Python 3 restricted to ASCII text: `str.replace`, `str.count`,
    `str.index`, `int(str)`, `str(int)`, slicing and `s * n`. */
module PyStr {

  datatype Option<+T> = None | Some(value: T)

  /** The Python exceptions the modelled code can raise. */
  datatype Exc = ValueError | TypeError | IndexError | ZeroDivisionError

  /** A value, or the exception raised instead. */
  datatype Result<+T> = Ok(value: T) | Err(exc: Exc)

  /** `c.isdigit()` / `c.isnumeric()` restricted to ASCII. */
  predicate IsDigit(c: char) { '0' <= c <= '9' }

  function DigitVal(c: char): (d: nat)
    requires IsDigit(c)
    ensures d < 10
  {
    (c as int) - ('0' as int)
  }

  /** `s.count(c)` for a one-character pattern. */
  function Count(s: string, c: char): (n: nat)
    ensures n <= |s|
    ensures n == 0 <==> (forall i :: 0 <= i < |s| ==> s[i] != c)
  {
    if s == [] then 0 else (if s[0] == c then 1 else 0) + Count(s[1..], c)
  }

  /** `s.index(c)`: the first position of `c`, None where Python raises ValueError. */
  function IndexOf(s: string, c: char): (r: Option<nat>)
    ensures r.None? <==> c !in s
    ensures r.Some? ==> r.value < |s| && s[r.value] == c && c !in s[..r.value]
  {
    if s == [] then None
    else if s[0] == c then Some(0)
    else match IndexOf(s[1..], c)
      case None => None
      case Some(k) => assert s[1..][..k] == s[1..k + 1]; Some(k + 1)
  }

  /** The first `c` is at `k` when `s[k]` is `c` and none comes before it. */
  lemma IndexOfAt(s: string, c: char, k: nat)
    requires k < |s| && s[k] == c && c !in s[..k]
    ensures IndexOf(s, c) == Some(k)
  {
    assert s[k] in s;
  }

  /** `s[i:j]` for non-negative bounds: both ends are clamped to the length. */
  function Slice(s: string, i: nat, j: nat): (r: string)
    ensures |r| == if i <= j && i <= |s| then (if j <= |s| then j else |s|) - i else 0
    ensures forall k :: 0 <= k < |r| ==> r[k] == s[i + k]
  {
    var hi := if j <= |s| then j else |s|;
    if i <= hi then s[i..hi] else ""
  }

  /** `s.replace(pat, rep)`: non-overlapping occurrences, scanned left to right. */
  function Replace(s: string, pat: string, rep: string): (r: string)
    requires pat != ""
    decreases |s|
  {
    if |s| < |pat| then s
    else if s[..|pat|] == pat then rep + Replace(s[|pat|..], pat, rep)
    else [s[0]] + Replace(s[1..], pat, rep)
  }

  /** `s.replace(c, "")` for a single character: every `c` is removed and
      nothing else changes. */
  function Remove(s: string, c: char): (r: string)
    ensures c !in r
    ensures |r| == |s| - Count(s, c)
  {
    if s == [] then "" else (if s[0] == c then "" else [s[0]]) + Remove(s[1..], c)
  }

  /** Removal keeps only characters of the original. */
  lemma {:induction false} RemoveSubset(s: string, c: char)
    ensures forall x :: x in Remove(s, c) ==> x in s
  {
    if s != [] {
      RemoveSubset(s[1..], c);
    }
  }

  lemma {:induction false} ReplaceOneCharIsRemove(s: string, c: char)
    ensures Replace(s, [c], "") == Remove(s, c)
  {
    if s != [] {
      ReplaceOneCharIsRemove(s[1..], c);
    }
  }

  /** `pat` occurs in `s` starting at position `i`. */
  predicate OccursAt(s: string, pat: string, i: nat) {
    i + |pat| <= |s| && s[i..i + |pat|] == pat
  }

  lemma {:induction false} ReplaceAbsent(s: string, pat: string, rep: string)
    requires pat != ""
    requires forall i: nat :: !OccursAt(s, pat, i)
    ensures Replace(s, pat, rep) == s
  {
    if |s| >= |pat| {
      assert !OccursAt(s, pat, 0);
      assert s[..|pat|] == s[0..|pat|];
      forall i: nat ensures !OccursAt(s[1..], pat, i) {
        assert !OccursAt(s, pat, i + 1);
        if i + |pat| <= |s[1..]| {
          assert s[1..][i..i + |pat|] == s[i + 1..i + 1 + |pat|];
        }
      }
      ReplaceAbsent(s[1..], pat, rep);
    }
  }

  /** `s * n`: `n` copies of `s`, empty when `n <= 0`. */
  function Repeat(s: string, n: int): (r: string)
    ensures |r| == if n <= 0 then 0 else n * |s|
    decreases if n <= 0 then 0 else n
  {
    if n <= 0 then "" else s + Repeat(s, n - 1)
  }

  /** The characters of `s` before the first `c` (all of `s` if there is none). */
  function TakeUntil(s: string, c: char): (r: string)
    ensures |r| <= |s| && r == s[..|r|]
    ensures c !in r
    ensures |r| < |s| ==> s[|r|] == c
  {
    if s == [] || s[0] == c then "" else [s[0]] + TakeUntil(s[1..], c)
  }

  /** A prefix free of `c` that ends at a `c` or at the end is what `TakeUntil` returns. */
  lemma {:induction false} TakeUntilPrefix(s: string, c: char, k: nat)
    requires k <= |s| && c !in s[..k]
    requires k == |s| || s[k] == c
    ensures TakeUntil(s, c) == s[..k]
  {
    if k > 0 {
      assert s[0] in s[..k];
      assert s[1..][..k - 1] == s[1..k];
      TakeUntilPrefix(s[1..], c, k - 1);
    }
  }

  /** The value of a non-empty run of decimal digits. */
  function DecVal(ds: string): (n: nat)
    requires forall i :: 0 <= i < |ds| ==> IsDigit(ds[i])
    decreases |ds|
  {
    if ds == [] then 0 else 10 * DecVal(ds[..|ds| - 1]) + DigitVal(ds[|ds| - 1])
  }

  /** `int(x)` for a float: truncation toward zero. */
  function Trunc(x: real): (r: int)
    ensures x >= 0.0 ==> r as real <= x < r as real + 1.0
    ensures x < 0.0 ==> r as real - 1.0 < x <= r as real
  {
    if x >= 0.0 then x.Floor else -((-x).Floor)
  }

  /** `str(n)` for a natural number: shortest decimal, no leading zeros. */
  function NatToStr(n: nat): (r: string)
    ensures r != [] && forall i :: 0 <= i < |r| ==> IsDigit(r[i])
    ensures |r| > 1 ==> r[0] != '0'
  {
    if n < 10 then [(('0' as int) + n) as char]
    else NatToStr(n / 10) + [(('0' as int) + n % 10) as char]
  }

  /** `str(i)` for any integer. */
  function IntToStr(i: int): string {
    if i < 0 then "-" + NatToStr(-i) else NatToStr(i)
  }

  lemma {:induction false} DecValNatToStr(n: nat)
    ensures DecVal(NatToStr(n)) == n
  {
    var r := NatToStr(n);
    if n >= 10 {
      DecValNatToStr(n / 10);
      assert r[..|r| - 1] == NatToStr(n / 10);
    }
  }

  /** The characters `str.isspace()` accepts in ASCII, which `int()` strips. */
  predicate IsSpace(c: char) {
    c == ' ' || c == '\t' || c == '\n' || c == '\r' || c == '\U{000B}' || c == '\U{000C}'
    || ('\U{001C}' <= c <= '\U{001F}')
  }

  function StripSpace(s: string): (r: string)
    ensures |r| <= |s|
    ensures r != [] ==> !IsSpace(r[0]) && !IsSpace(r[|r| - 1])
    decreases |s|
  {
    if s == [] then ""
    else if IsSpace(s[0]) then StripSpace(s[1..])
    else if IsSpace(s[|s| - 1]) then StripSpace(s[..|s| - 1])
    else s
  }

  /** Digits with single underscores between them, as `int()` accepts in base 10. */
  predicate DigitGroups(u: string) {
    u != [] && IsDigit(u[0]) && IsDigit(u[|u| - 1])
    && (forall i :: 0 <= i < |u| ==> IsDigit(u[i]) || u[i] == '_')
    && (forall i :: 0 <= i < |u| - 1 ==> !(u[i] == '_' && u[i + 1] == '_'))
  }

  /** `int(s)` for ASCII text: optional surrounding whitespace, an optional sign,
      then digit groups. None where Python raises ValueError. */
  function PyInt(s: string): (r: Option<int>) {
    var t := StripSpace(s);
    var neg := t != [] && t[0] == '-';
    var u := if t != [] && (t[0] == '-' || t[0] == '+') then t[1..] else t;
    if !DigitGroups(u) then None
    else
      var w := Remove(u, '_');
      RemoveSubset(u, '_');
      assert forall i :: 0 <= i < |w| ==> IsDigit(w[i]) by {
        forall i | 0 <= i < |w| ensures IsDigit(w[i]) {
          assert w[i] in u && w[i] != '_';
        }
      }
      var v: int := DecVal(w);
      Some(if neg then -v else v)
  }

  lemma {:induction false} PyIntNatToStr(n: nat)
    ensures PyInt(NatToStr(n)) == Some(n)
  {
    var s := NatToStr(n);
    assert StripSpace(s) == s by {
      assert !IsSpace(s[0]) && !IsSpace(s[|s| - 1]);
    }
    assert !(s[0] == '-' || s[0] == '+');
    assert DigitGroups(s);
    assert Remove(s, '_') == s by { RemoveAbsent(s, '_'); }
    DecValNatToStr(n);
  }

  lemma {:induction false} RemoveAbsent(s: string, c: char)
    requires c !in s
    ensures Remove(s, c) == s
  {
    if s != [] {
      RemoveAbsent(s[1..], c);
    }
  }
}
