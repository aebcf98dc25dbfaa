/** The formula-string helpers of the benchmark script: a tokenizer of
    element symbols and counts, a sorted serialiser, and the merging of an
    adduct's counts into a formula's. */
module PerfRun {
  import opened PyStr

  predicate IsUpper(c: char) { 'A' <= c <= 'Z' }
  predicate IsLower(c: char) { 'a' <= c <= 'z' }

  /** An element-count dictionary (`defaultdict(int)`). */
  type Counts = map<string, int>

  /** `d[k]` of a `defaultdict(int)`: 0 for a missing key. */
  function Get(d: Counts, k: string): int { if k in d then d[k] else 0 }

  // ---------------------------------------------------------------------
  // parse_formula
  // ---------------------------------------------------------------------

  /** One match of `([A-Z][a-z]?)(\d*)`, with its count converted. */
  datatype Token = Token(sym: string, count: int)

  /** The length of the symbol group at the start of `s`: `[A-Z][a-z]?`. */
  function SymLen(s: string): (n: nat)
    requires s != []
    ensures 1 <= n <= |s|
  {
    if |s| > 1 && IsLower(s[1]) then 2 else 1
  }

  /** The length of the longest run of digits at the start of `s`: `\d*`. */
  function DigitRun(s: string): (n: nat)
    ensures n <= |s| && forall i :: 0 <= i < n ==> IsDigit(s[i])
    ensures n < |s| ==> !IsDigit(s[n])
  {
    if s != [] && IsDigit(s[0]) then 1 + DigitRun(s[1..]) else 0
  }

  /** `int(count) if count else 1`. */
  function CountOf(ds: string): int
    requires forall i :: 0 <= i < |ds| ==> IsDigit(ds[i])
  {
    if ds == [] then 1 else DecVal(ds)
  }

  /** `re.findall(r'([A-Z][a-z]?)(\d*)', s)`: a match starts at each upper-case
      letter; any other character starts no match and is skipped. */
  function Tokens(s: string): seq<Token>
    decreases |s|
  {
    if s == [] then []
    else if !IsUpper(s[0]) then Tokens(s[1..])
    else
      var j := SymLen(s);
      var e := j + DigitRun(s[j..]);
      [Token(s[..j], CountOf(s[j..e]))] + Tokens(s[e..])
  }

  /** `element_counts[element] += count`. */
  function Bump(d: Counts, t: Token): Counts {
    d[t.sym := Get(d, t.sym) + t.count]
  }

  /** The accumulation loop, token by token. */
  function Accumulate(d: Counts, ts: seq<Token>): Counts
    decreases |ts|
  {
    if ts == [] then d else Accumulate(Bump(d, ts[0]), ts[1..])
  }

  /** `parse_formula(s)` as a value. */
  function ParsedCounts(s: string): Counts {
    Accumulate(map[], Tokens(s))
  }

  /** The total count of the tokens of symbol `k`. */
  function SumFor(ts: seq<Token>, k: string): int {
    if ts == [] then 0 else (if ts[0].sym == k then ts[0].count else 0) + SumFor(ts[1..], k)
  }

  /** Accumulation sums the counts of repeated symbols, and its keys are those
      of the start dictionary and the symbols of the tokens. */
  lemma {:induction false} AccumulateSums(d: Counts, ts: seq<Token>, k: string)
    ensures k in Accumulate(d, ts) <==> k in d || exists i :: 0 <= i < |ts| && ts[i].sym == k
    ensures Get(Accumulate(d, ts), k) == Get(d, k) + SumFor(ts, k)
    decreases |ts|
  {
    if ts != [] {
      AccumulateSums(Bump(d, ts[0]), ts[1..], k);
      if k in d || exists i :: 0 <= i < |ts| && ts[i].sym == k {
        if k !in d && ts[0].sym != k {
          var i :| 0 <= i < |ts| && ts[i].sym == k;
          assert ts[1..][i - 1].sym == k;
        }
      } else {
        forall i | 0 <= i < |ts[1..]| ensures ts[1..][i].sym != k {
          assert ts[1..][i] == ts[i + 1];
        }
      }
    }
  }

  /** `parse_formula`: the counts of each symbol, summed over its tokens; a
      symbol is a key exactly when some token has it. */
  lemma ParsedCountsMeaning(s: string, k: string)
    ensures k in ParsedCounts(s) <==> exists i :: 0 <= i < |Tokens(s)| && Tokens(s)[i].sym == k
    ensures k in ParsedCounts(s) ==> ParsedCounts(s)[k] == SumFor(Tokens(s), k)
  {
    var ts := Tokens(s);
    AccumulateSums(map[], ts, k);
    var r := Accumulate(map[], ts);
    assert Get(map[], k) == 0;
    assert ParsedCounts(s) == r;
    if k in r {
      assert r[k] == Get(r, k);
      var i :| 0 <= i < |ts| && ts[i].sym == k;
      assert Tokens(s)[i].sym == k;
    }
  }

  /** A skipped character changes nothing. */
  lemma TokensSkip(s: string)
    requires s != [] && !IsUpper(s[0])
    ensures ParsedCounts(s) == ParsedCounts(s[1..])
  {
    assert Tokens(s) == Tokens(s[1..]);
  }

  /** `parse_formula`, the scan over the string written as the loop it is. */
  method ParseFormula(s: string) returns (d: Counts)
    ensures d == ParsedCounts(s)
  {
    d := map[];
    var i := 0;
    assert s[0..] == s;
    while i < |s|
      invariant 0 <= i <= |s|
      invariant Accumulate(d, Tokens(s[i..])) == ParsedCounts(s)
      decreases |s| - i
    {
      if !IsUpper(s[i]) {
        TokensSkipAt(s, i);
        i := i + 1;
      } else {
        var j := if i + 1 < |s| && IsLower(s[i + 1]) then i + 2 else i + 1;
        var e, v := ScanDigits(s, j);
        TokenAt(s, i, j, e);
        var t := Token(s[i..j], if e == j then 1 else v);
        AccumulateCons(d, t, Tokens(s[e..]));
        d := Bump(d, t);
        i := e;
      }
    }
    assert s[|s|..] == [];
  }

  /** The `\d*` group from `j`: its end and its value. */
  method ScanDigits(s: string, j: nat) returns (e: nat, v: nat)
    requires j <= |s|
    ensures j <= e <= |s| && forall k :: j <= k < e ==> IsDigit(s[k])
    ensures e < |s| ==> !IsDigit(s[e])
    ensures v == DecVal(s[j..e])
  {
    e, v := j, 0;
    while e < |s| && IsDigit(s[e])
      invariant j <= e <= |s|
      invariant forall k :: j <= k < e ==> IsDigit(s[k])
      invariant v == DecVal(s[j..e])
      decreases |s| - e
    {
      DecValExtend(s, j, e);
      v := 10 * v + DigitVal(s[e]);
      e := e + 1;
    }
  }

  lemma TokensSkipAt(s: string, i: nat)
    requires i < |s| && !IsUpper(s[i])
    ensures Tokens(s[i..]) == Tokens(s[i + 1..])
  {
    assert s[i..][1..] == s[i + 1..];
  }

  lemma AccumulateCons(d: Counts, t: Token, ts: seq<Token>)
    ensures Accumulate(d, [t] + ts) == Accumulate(Bump(d, t), ts)
  {
    assert ([t] + ts)[1..] == ts;
  }

  /** The token that starts at an upper-case letter at `i`, with its symbol
      ending at `j` and its digits at `e`. */
  lemma TokenAt(s: string, i: nat, j: nat, e: nat)
    requires i < j <= e <= |s| && IsUpper(s[i])
    requires j == if i + 1 < |s| && IsLower(s[i + 1]) then i + 2 else i + 1
    requires forall k :: j <= k < e ==> IsDigit(s[k])
    requires e < |s| ==> !IsDigit(s[e])
    ensures Tokens(s[i..]) == [Token(s[i..j], CountOf(s[j..e]))] + Tokens(s[e..])
  {
    SliceFacts(s, i, j, e);
    assert DigitRun(s[j..]) == e - j by {
      DigitRunExact(s[j..], e - j);
    }
    TokensHead(s[i..], j - i, e - i);
  }

  /** The slices of a suffix are slices of the whole. */
  lemma SliceFacts(s: string, i: nat, j: nat, e: nat)
    requires i < j <= e <= |s|
    requires j == if i + 1 < |s| && IsLower(s[i + 1]) then i + 2 else i + 1
    ensures s[i..] != [] && s[i..][0] == s[i] && j - i == SymLen(s[i..])
    ensures s[i..][j - i..] == s[j..] && s[i..][..j - i] == s[i..j]
    ensures s[i..][j - i..e - i] == s[j..e] && s[i..][e - i..] == s[e..]
  {
    if i + 1 < |s| {
      assert s[i..][1] == s[i + 1];
    }
  }

  /** The first token of text that starts with an upper-case letter. */
  lemma TokensHead(t: string, a: nat, b: nat)
    requires t != [] && IsUpper(t[0]) && a == SymLen(t) && b == a + DigitRun(t[a..])
    ensures Tokens(t) == [Token(t[..a], CountOf(t[a..b]))] + Tokens(t[b..])
  {
  }

  /** One more digit: `10 * v + d`. */
  lemma DecValExtend(s: string, j: nat, e: nat)
    requires j <= e < |s| && forall k :: j <= k <= e ==> IsDigit(s[k])
    ensures DecVal(s[j..e + 1]) == 10 * DecVal(s[j..e]) + DigitVal(s[e])
  {
    assert s[j..e + 1][..e - j] == s[j..e];
  }

  /** A digit prefix of length `n` followed by a non-digit (or the end) is the
      whole digit run. */
  lemma {:induction false} DigitRunExact(s: string, n: nat)
    requires n <= |s| && forall i :: 0 <= i < n ==> IsDigit(s[i])
    requires n < |s| ==> !IsDigit(s[n])
    ensures DigitRun(s) == n
  {
    if n > 0 {
      DigitRunExact(s[1..], n - 1);
    }
  }

  // ---------------------------------------------------------------------
  // formula_from_dict
  // ---------------------------------------------------------------------

  /** Python's string order: by code point, a prefix first. */
  predicate LexLe(a: string, b: string)
    decreases |a|
  {
    a == [] || (b != [] && (a[0] < b[0] || (a[0] == b[0] && LexLe(a[1..], b[1..]))))
  }

  lemma {:induction false} LexReflexive(a: string)
    ensures LexLe(a, a)
    decreases |a|
  {
    if a != [] {
      LexReflexive(a[1..]);
    }
  }

  lemma {:induction false} LexTotal(a: string, b: string)
    ensures LexLe(a, b) || LexLe(b, a)
    decreases |a|
  {
    if a != [] && b != [] && a[0] == b[0] {
      LexTotal(a[1..], b[1..]);
    }
  }

  lemma {:induction false} LexAntisymmetric(a: string, b: string)
    requires LexLe(a, b) && LexLe(b, a)
    ensures a == b
    decreases |a|
  {
    if a != [] && b != [] {
      LexAntisymmetric(a[1..], b[1..]);
      assert a == [a[0]] + a[1..] && b == [b[0]] + b[1..];
    }
  }

  lemma {:induction false} LexTransitive(a: string, b: string, c: string)
    requires LexLe(a, b) && LexLe(b, c)
    ensures LexLe(a, c)
    decreases |a|
  {
    if a != [] && a[0] == b[0] && b[0] == c[0] {
      LexTransitive(a[1..], b[1..], c[1..]);
    }
  }

  /** `m` is the least key of `ks`. */
  predicate IsLeast(m: string, ks: set<string>) {
    m in ks && forall k :: k in ks ==> LexLe(m, k)
  }

  lemma {:induction false} LeastExists(ks: set<string>)
    requires ks != {}
    ensures exists m :: IsLeast(m, ks)
    decreases |ks|
  {
    var x :| x in ks;
    if ks != {x} {
      var rest := ks - {x};
      LeastExists(rest);
      var m :| IsLeast(m, rest);
      LexTotal(m, x);
      if LexLe(m, x) {
        assert IsLeast(m, ks);
      } else {
        forall k | k in ks ensures LexLe(x, k) {
          if k == x {
            LexReflexive(x);
          } else {
            assert k in rest;
            LexTransitive(x, m, k);
          }
        }
        assert IsLeast(x, ks);
      }
    } else {
      LexReflexive(x);
      assert IsLeast(x, ks);
    }
  }

  lemma LeastUnique(a: string, b: string, ks: set<string>)
    requires IsLeast(a, ks) && IsLeast(b, ks)
    ensures a == b
  {
    LexAntisymmetric(a, b);
  }

  /** The keys in ascending order: the least key, then the rest. */
  ghost function SortedKeys(ks: set<string>): (r: seq<string>)
    ensures |r| == |ks|
    decreases |ks|
  {
    if ks == {} then []
    else
      LeastExists(ks);
      var m :| IsLeast(m, ks);
      [m] + SortedKeys(ks - {m})
  }

  /** The least key comes first. */
  lemma SortedKeysHead(ks: set<string>, m: string)
    requires IsLeast(m, ks)
    ensures SortedKeys(ks) == [m] + SortedKeys(ks - {m})
  {
    var r := SortedKeys(ks);
    LeastUnique(r[0], m, ks);
  }

  /** The sorted keys are exactly the keys. */
  lemma {:induction false} SortedKeysMembers(ks: set<string>)
    ensures forall i :: 0 <= i < |SortedKeys(ks)| ==> SortedKeys(ks)[i] in ks
    ensures forall k :: k in ks ==> k in SortedKeys(ks)
    decreases |ks|
  {
    if ks != {} {
      LeastExists(ks);
      var m :| IsLeast(m, ks);
      SortedKeysHead(ks, m);
      SortedKeysMembers(ks - {m});
      var r := SortedKeys(ks);
      var t := SortedKeys(ks - {m});
      forall i | 0 <= i < |r| ensures r[i] in ks {
        if i > 0 {
          assert r[i] == t[i - 1];
        }
      }
    }
  }

  /** Each key is below, and differs from, every later one. */
  predicate Ascending(r: seq<string>) {
    forall i, j :: 0 <= i < j < |r| ==> LexLe(r[i], r[j]) && r[i] != r[j]
  }

  /** The least key before ascending larger keys. */
  lemma AscendingCons(m: string, t: seq<string>, ks: set<string>)
    requires IsLeast(m, ks)
    requires forall i :: 0 <= i < |t| ==> t[i] in ks - {m}
    requires Ascending(t)
    ensures Ascending([m] + t)
  {
    var r := [m] + t;
    forall i, j | 0 <= i < j < |r| ensures LexLe(r[i], r[j]) && r[i] != r[j] {
      assert r[j] == t[j - 1];
      if i > 0 {
        assert r[i] == t[i - 1];
      }
    }
  }

  /** The sorted keys ascend strictly. */
  lemma {:induction false} SortedKeysOrdered(ks: set<string>)
    ensures Ascending(SortedKeys(ks))
    decreases |ks|
  {
    if ks != {} {
      LeastExists(ks);
      var m :| IsLeast(m, ks);
      SortedKeysHead(ks, m);
      SortedKeysOrdered(ks - {m});
      SortedKeysMembers(ks - {m});
      AscendingCons(m, SortedKeys(ks - {m}), ks);
    }
  }

  /** `element + (str(count) if count > 1 else '')`. */
  function Piece(sym: string, count: int): string {
    sym + (if count > 1 then NatToStr(count) else "")
  }

  /** The pieces of the keys `ks`, in that order. */
  function Serialize(ks: seq<string>, d: Counts): string
    requires forall i :: 0 <= i < |ks| ==> ks[i] in d
  {
    if ks == [] then "" else Piece(ks[0], d[ks[0]]) + Serialize(ks[1..], d)
  }

  /** `formula_from_dict(d)` as a value. */
  ghost function FromDict(d: Counts): string {
    SortedKeysMembers(d.Keys);
    Serialize(SortedKeys(d.Keys), d)
  }

  lemma {:induction false} SerializeSnoc(ks: seq<string>, k: string, d: Counts)
    requires forall i :: 0 <= i < |ks| ==> ks[i] in d
    requires k in d
    ensures Serialize(ks + [k], d) == Serialize(ks, d) + Piece(k, d[k])
  {
    if ks == [] {
      assert ks + [k] == [k];
    } else {
      assert (ks + [k])[1..] == ks[1..] + [k];
      SerializeSnoc(ks[1..], k, d);
    }
  }

  /** Taking the least remaining key extends the sorted prefix. */
  lemma SelectLeast(ks: set<string>, done: seq<string>, rest: set<string>, m: string)
    requires IsLeast(m, rest)
    requires SortedKeys(ks) == done + SortedKeys(rest)
    ensures SortedKeys(ks) == (done + [m]) + SortedKeys(rest - {m})
  {
    SortedKeysHead(rest, m);
    assert done + ([m] + SortedKeys(rest - {m})) == (done + [m]) + SortedKeys(rest - {m});
  }

  /** `formula_from_dict`: the pieces in ascending key order, taking the least
      remaining key each time. */
  method FormulaFromDict(d: Counts) returns (out: string)
    ensures out == FromDict(d)
  {
    var rest := d.Keys;
    out := "";
    ghost var done: seq<string> := [];
    while rest != {}
      invariant rest <= d.Keys
      invariant forall i :: 0 <= i < |done| ==> done[i] in d
      invariant SortedKeys(d.Keys) == done + SortedKeys(rest)
      invariant out == Serialize(done, d)
      decreases |rest|
    {
      LeastExists(rest);
      var m :| IsLeast(m, rest);
      SelectLeast(d.Keys, done, rest, m);
      SerializeSnoc(done, m, d);
      out := out + Piece(m, d[m]);
      done := done + [m];
      rest := rest - {m};
    }
    assert done + [] == done;
  }

  // ---------------------------------------------------------------------
  // The round trip
  // ---------------------------------------------------------------------

  /** An element symbol: `[A-Z][a-z]?`. */
  predicate Symbol(k: string) {
    (|k| == 1 && IsUpper(k[0])) || (|k| == 2 && IsUpper(k[0]) && IsLower(k[1]))
  }

  /** Symbols as keys and counts of at least 1. */
  predicate Canonical(d: Counts) {
    forall k :: k in d ==> Symbol(k) && d[k] >= 1
  }

  lemma {:induction false} DigitRunStops(ds: string, rest: string)
    requires forall i :: 0 <= i < |ds| ==> IsDigit(ds[i])
    requires rest == [] || !IsDigit(rest[0])
    ensures DigitRun(ds + rest) == |ds|
  {
    if ds == [] {
      assert ds + rest == rest;
    } else {
      assert (ds + rest)[1..] == ds[1..] + rest;
      DigitRunStops(ds[1..], rest);
    }
  }

  /** One piece followed by text that starts a new piece reads back as its
      own token. */
  lemma TokensPiece(k: string, c: int, rest: string)
    requires Symbol(k) && c >= 1
    requires rest == [] || IsUpper(rest[0])
    ensures Tokens(Piece(k, c) + rest) == [Token(k, c)] + Tokens(rest)
  {
    var ds := if c > 1 then NatToStr(c) else "";
    assert Piece(k, c) + rest == k + ds + rest;
    TokensPieceDigits(k, ds, rest);
    if c > 1 {
      DecValNatToStr(c);
    }
  }

  /** A symbol, a run of digits and text that starts a new token. */
  lemma TokensPieceDigits(k: string, ds: string, rest: string)
    requires Symbol(k) && forall x :: 0 <= x < |ds| ==> IsDigit(ds[x])
    requires rest == [] || IsUpper(rest[0])
    ensures Tokens(k + ds + rest) == [Token(k, CountOf(ds))] + Tokens(rest)
  {
    var s := k + ds + rest;
    var j := |k|;
    var e := |k| + |ds|;
    assert forall x :: j <= x < e ==> s[x] == ds[x - j];
    assert e < |s| ==> s[e] == rest[0];
    assert j == if 1 < |s| && IsLower(s[1]) then 2 else 1 by {
      if |k| == 1 && |s| > 1 {
        assert s[1] == if ds != [] then ds[0] else rest[0];
      }
    }
    TokenAt(s, 0, j, e);
    assert s[0..] == s && s[..j] == k && s[j..e] == ds && s[e..] == rest;
  }

  /** The keys of `ks` as tokens with their counts in `d`. */
  function TokensOf(ks: seq<string>, d: Counts): seq<Token>
    requires forall i :: 0 <= i < |ks| ==> ks[i] in d
  {
    if ks == [] then [] else [Token(ks[0], d[ks[0]])] + TokensOf(ks[1..], d)
  }

  /** The tokens of a serialisation are the keys with their counts, in order. */
  lemma {:induction false} TokensSerialize(ks: seq<string>, d: Counts)
    requires forall i :: 0 <= i < |ks| ==> ks[i] in d && Symbol(ks[i]) && d[ks[i]] >= 1
    ensures Tokens(Serialize(ks, d)) == TokensOf(ks, d)
  {
    if ks != [] {
      var rest := Serialize(ks[1..], d);
      TokensSerialize(ks[1..], d);
      if ks[1..] != [] {
        assert rest == ks[1] + (if d[ks[1]] > 1 then NatToStr(d[ks[1]]) else "") + Serialize(ks[2..], d) by {
          assert ks[1..][0] == ks[1] && ks[1..][1..] == ks[2..];
        }
      }
      TokensPiece(ks[0], d[ks[0]], rest);
    }
  }

  /** Accumulating the tokens of distinct keys new to `m` adds exactly those
      entries. */
  lemma {:induction false} AccumulateKeys(m: Counts, ks: seq<string>, d: Counts)
    requires forall i :: 0 <= i < |ks| ==> ks[i] in d && ks[i] !in m
    requires forall i, j :: 0 <= i < j < |ks| ==> ks[i] != ks[j]
    ensures forall k :: k in Accumulate(m, TokensOf(ks, d)) <==> k in m || k in ks
    ensures forall k :: k in m ==> Accumulate(m, TokensOf(ks, d))[k] == m[k]
    ensures forall k :: k in ks ==> Accumulate(m, TokensOf(ks, d))[k] == d[k]
    decreases |ks|
  {
    if ks != [] {
      var m' := m[ks[0] := d[ks[0]]];
      assert Bump(m, Token(ks[0], d[ks[0]])) == m';
      forall i | 0 <= i < |ks[1..]| ensures ks[1..][i] in d && ks[1..][i] !in m' {
        assert ks[1..][i] == ks[i + 1];
      }
      AccumulateKeys(m', ks[1..], d);
      assert ks == [ks[0]] + ks[1..];
    }
  }

  /** Parsing the serialisation of distinct keys that cover `d`. */
  lemma ParseSerialized(d: Counts, ks: seq<string>)
    requires forall i :: 0 <= i < |ks| ==> ks[i] in d && Symbol(ks[i]) && d[ks[i]] >= 1
    requires forall i, j :: 0 <= i < j < |ks| ==> ks[i] != ks[j]
    requires forall k :: k in d ==> k in ks
    ensures ParsedCounts(Serialize(ks, d)) == d
  {
    TokensSerialize(ks, d);
    AccumulateCovers(d, ks);
  }

  /** The tokens of distinct keys that cover `d` accumulate to `d`. */
  lemma AccumulateCovers(d: Counts, ks: seq<string>)
    requires forall i :: 0 <= i < |ks| ==> ks[i] in d
    requires forall i, j :: 0 <= i < j < |ks| ==> ks[i] != ks[j]
    requires forall k :: k in d ==> k in ks
    ensures Accumulate(map[], TokensOf(ks, d)) == d
  {
    var r := Accumulate(map[], TokensOf(ks, d));
    AccumulateKeys(map[], ks, d);
    assert r.Keys == d.Keys;
  }

  /** For symbol keys and counts of at least 1, parsing the serialisation
      gives back the dictionary. */
  lemma RoundTrip(d: Counts)
    requires Canonical(d)
    ensures ParsedCounts(FromDict(d)) == d
  {
    SortedKeysMembers(d.Keys);
    SortedKeysDistinct(d.Keys);
    ParseSerialized(d, SortedKeys(d.Keys));
  }

  lemma SortedKeysDistinct(ks: set<string>)
    ensures forall i, j :: 0 <= i < j < |SortedKeys(ks)| ==> SortedKeys(ks)[i] != SortedKeys(ks)[j]
  {
    SortedKeysOrdered(ks);
  }

  /** A count of 0 is written as the bare symbol, which reads back as 1: the
      round trip needs counts of at least 1. */
  lemma ZeroCountReadsAsOne()
    ensures FromDict(map["H" := 0]) == "H"
    ensures ParsedCounts("H") == map["H" := 1]
  {
    var d := map["H" := 0];
    LexReflexive("H");
    assert IsLeast("H", d.Keys);
    SortedKeysHead(d.Keys, "H");
    assert d.Keys - {"H"} == {};
    TokensPiece("H", 1, "");
    assert Piece("H", 1) + "" == "H";
  }

  // ---------------------------------------------------------------------
  // add_adduct
  // ---------------------------------------------------------------------

  /** The per-element sums of two dictionaries. */
  function Merge(f: Counts, a: Counts): Counts {
    map k | k in f.Keys + a.Keys :: Get(f, k) + Get(a, k)
  }

  /** The entries of `a` whose keys are in `ks`. */
  function Restrict(a: Counts, ks: set<string>): Counts {
    map k | k in a.Keys * ks :: a[k]
  }

  lemma MergeNone(f: Counts, a: Counts)
    ensures Merge(f, Restrict(a, {})) == f
  {
    assert Restrict(a, {}) == map[];
  }

  lemma MergeAll(f: Counts, a: Counts)
    ensures Merge(f, Restrict(a, a.Keys)) == Merge(f, a)
  {
    assert Restrict(a, a.Keys) == a;
  }

  /** Adding one more adduct entry to the partial sum over `done`. */
  lemma MergeStep(f: Counts, a: Counts, done: set<string>, e: string)
    requires e in a && e !in done
    ensures var m := Merge(f, Restrict(a, done));
      m[e := Get(m, e) + a[e]] == Merge(f, Restrict(a, done + {e}))
  {
    var p := Restrict(a, done);
    var p' := Restrict(a, done + {e});
    assert p' == p[e := a[e]];
    var m := Merge(f, p);
    var m' := Merge(f, p');
    assert m'.Keys == m.Keys + {e};
    assert forall k :: k in m' && k != e ==> m'[k] == m[k];
  }

  /** `add_adduct`: the formula's counts with the adduct's added per element,
      then serialised. */
  method AddAdduct(formula: string, adduct: string) returns (r: string)
    ensures r == FromDict(Merge(ParsedCounts(formula), ParsedCounts(adduct)))
  {
    var fc := ParseFormula(formula);
    var ac := ParseFormula(adduct);
    fc := AddCounts(fc, ac);
    r := FormulaFromDict(fc);
  }

  /** The loop `formula_counts[element] += count` over the adduct's entries. */
  method AddCounts(f: Counts, a: Counts) returns (fc: Counts)
    ensures fc == Merge(f, a)
  {
    fc := f;
    ghost var done: set<string> := {};
    var rest := a.Keys;
    MergeNone(f, a);
    while rest != {}
      invariant done == a.Keys - rest && rest <= a.Keys
      invariant fc == Merge(f, Restrict(a, done))
      decreases |rest|
    {
      var e :| e in rest;
      MergeStep(f, a, done, e);
      fc := fc[e := Get(fc, e) + a[e]];
      rest := rest - {e};
      done := done + {e};
    }
    assert done == a.Keys;
    MergeAll(f, a);
  }

  lemma ParsedCH4()
    ensures ParsedCounts("CH4") == map["C" := 1, "H" := 4]
  {
    TokensPiece("H", 4, "");
    assert Piece("H", 4) + "" == "H4";
    TokensPiece("C", 1, "H4");
    assert Piece("C", 1) + "H4" == "CH4";
    assert Tokens("") == [];
  }

  lemma ParsedH()
    ensures ParsedCounts("H") == map["H" := 1]
  {
    TokensPiece("H", 1, "");
    assert Piece("H", 1) + "" == "H";
  }

  lemma FromDictCH5()
    ensures FromDict(map["C" := 1, "H" := 5]) == "CH5"
  {
    var m := map["C" := 1, "H" := 5];
    LexReflexive("C");
    assert IsLeast("C", m.Keys);
    SortedKeysHead(m.Keys, "C");
    assert m.Keys - {"C"} == {"H"};
    LexReflexive("H");
    assert IsLeast("H", {"H"});
    SortedKeysHead({"H"}, "H");
    assert {"H"} - {"H"} == {};
    assert Piece("C", 1) + Piece("H", 5) == "CH5";
  }

  lemma MergeCH4H()
    ensures Merge(map["C" := 1, "H" := 4], map["H" := 1]) == map["C" := 1, "H" := 5]
  {
    var m := Merge(map["C" := 1, "H" := 4], map["H" := 1]);
    assert m.Keys == {"C", "H"};
    assert m["C"] == 1 && m["H"] == 5;
  }

  /** 'CH4' plus 'H' gives 'CH5'. */
  lemma AddAdductExample()
    ensures FromDict(Merge(ParsedCounts("CH4"), ParsedCounts("H"))) == "CH5"
  {
    ParsedCH4();
    ParsedH();
    MergeCH4H();
    FromDictCH5();
  }
}
