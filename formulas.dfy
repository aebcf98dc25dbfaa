/** Molecular formulas as 12-slot element-count vectors over the fixed alphabet
    C, H, Br, Cl, F, I, K, N, Na, O, P, S: element-wise arithmetic, the
    double-bond equivalent, the "all counts zero" rule, the int16 storage of a
    `Formula`, the canonical serialiser `form_arr_to_str` and the older
    `read_formula`, which turns parsed element counts into a vector. */
module Formulas {
  import opened PyStr

  const Alphabet: seq<string> := ["C", "H", "Br", "Cl", "F", "I", "K", "N", "Na", "O", "P", "S"]

  // slot numbers, in alphabet order
  const C := 0
  const H := 1
  const Br := 2
  const Cl := 3
  const F := 4
  const I := 5
  const K := 6
  const N := 7
  const Na := 8
  const O := 9
  const P := 10
  const S := 11

  /** One count per alphabet slot; counts may be negative inside adduct deltas. */
  type Vec = v: seq<int> | |v| == 12 witness [0, 0, 0, 0, 0, 0, 0, 0, 0, 0, 0, 0]

  const Zero: Vec := [0, 0, 0, 0, 0, 0, 0, 0, 0, 0, 0, 0]

  lemma AlphabetDistinct()
    ensures forall i, j :: 0 <= i < j < 12 ==> Alphabet[i] != Alphabet[j]
  {
  }

  /** Element-wise `np.add`. */
  function Add(a: Vec, b: Vec): (r: Vec)
    ensures forall i :: 0 <= i < 12 ==> r[i] == a[i] + b[i]
  {
    seq(12, i requires 0 <= i < 12 => a[i] + b[i])
  }

  /** Element-wise `np.subtract`; the result may hold negative counts. */
  function Sub(a: Vec, b: Vec): (r: Vec)
    ensures forall i :: 0 <= i < 12 ==> r[i] == a[i] - b[i]
  {
    seq(12, i requires 0 <= i < 12 => a[i] - b[i])
  }

  /** Subtracting is the inverse of adding, and adding the loss back to a net
      delta recovers the added atoms. */
  lemma SubAddInverse(a: Vec, b: Vec)
    ensures Sub(Add(a, b), b) == a
    ensures Add(Sub(a, b), b) == a
  {
    assert Sub(Add(a, b), b) == a by {
      forall i | 0 <= i < 12 ensures Sub(Add(a, b), b)[i] == a[i] { }
    }
    assert Add(Sub(a, b), b) == a by {
      forall i | 0 <= i < 12 ensures Add(Sub(a, b), b)[i] == a[i] { }
    }
  }

  /** `Formula.__bool__`: some count is nonzero (`np.any`). */
  predicate IsNonZero(v: Vec) {
    exists i :: 0 <= i < 12 && v[i] != 0
  }

  /** A formula is falsy exactly when it is the all-zero vector. */
  lemma FalsyIffZero(v: Vec)
    ensures !IsNonZero(v) <==> v == Zero
  {
    if !IsNonZero(v) {
      forall i | 0 <= i < 12 ensures v[i] == Zero[i] { }
    }
  }

  /** `calc_formula_dbe`: C + 1 - (H + F + Cl + Br + I + Na + K)/2 + (N + P)/2. */
  function Dbe(v: Vec): real {
    (v[C] + 1) as real - (v[H] + v[F] + v[Cl] + v[Br] + v[I] + v[Na] + v[K]) as real / 2.0
    + (v[N] + v[P]) as real / 2.0
  }

  /** DBE is affine: combining two formulas adds their DBEs less the constant 1. */
  lemma DbeAdd(a: Vec, b: Vec)
    ensures Dbe(Add(a, b)) == Dbe(a) + Dbe(b) - 1.0
  {
  }

  /** Twice the DBE is an integer: the DBE is a whole or half number. */
  lemma DbeHalfInteger(v: Vec)
    ensures (2.0 * Dbe(v)).Floor as real == 2.0 * Dbe(v)
  {
    var n := 2 * (v[C] + 1) - (v[H] + v[F] + v[Cl] + v[Br] + v[I] + v[Na] + v[K]) + (v[N] + v[P]);
    assert 2.0 * Dbe(v) == n as real;
  }

  /** `np.int16(x)`: two's-complement wrap-around into [-32768, 32767]. */
  function Int16(x: int): (r: int)
    ensures -32768 <= r < 32768
    ensures (r - x) % 65536 == 0
    ensures -32768 <= x < 32768 ==> r == x
  {
    (x + 32768) % 65536 - 32768
  }

  function Int16Vec(v: Vec): (r: Vec)
    ensures forall i :: 0 <= i < 12 ==> r[i] == Int16(v[i])
  {
    seq(12, i requires 0 <= i < 12 => Int16(v[i]))
  }

  /** A `Formula`: counts stored as int16, a charge, an isotope index and the DBE.
      The mass (single-precision arithmetic) is not part of this model. */
  datatype Formula = Formula(counts: Vec, charge: int, isotope: int, dbe: real)

  /** `Formula(array, charge)`: the counts are wrapped to int16, while the DBE is
      computed from the array as given. */
  function MakeFormula(arr: Vec, charge: int): (f: Formula)
    ensures forall i :: 0 <= i < 12 ==> f.counts[i] == Int16(arr[i])
    ensures (forall i :: 0 <= i < 12 ==> -32768 <= arr[i] < 32768) ==> f.counts == arr
    ensures f.charge == charge && f.isotope == 0 && f.dbe == Dbe(arr)
  {
    var f := Formula(Int16Vec(arr), charge, 0, Dbe(arr));
    assert (forall i :: 0 <= i < 12 ==> -32768 <= arr[i] < 32768) ==> f.counts == arr by {
      if forall i :: 0 <= i < 12 ==> -32768 <= arr[i] < 32768 {
        forall i | 0 <= i < 12 ensures f.counts[i] == arr[i] { }
      }
    }
    f
  }

  /** `decode` inside `form_arr_to_str`: nothing for 0, the bare symbol for 1,
      otherwise the symbol followed by `str(count)` (a negative count keeps its sign). */
  function Decode(sym: string, cnt: int): string {
    if cnt == 0 then "" else if cnt == 1 then sym else sym + IntToStr(cnt)
  }

  /** The serialisation of slots `from` .. 11. */
  function SerializeFrom(v: Vec, from: nat): string
    requires from <= 12
    decreases 12 - from
  {
    if from == 12 then "" else Decode(Alphabet[from], v[from]) + SerializeFrom(v, from + 1)
  }

  /** `form_arr_to_str`: the slots in alphabet order, joined. */
  function FormArrToStr(v: Vec): string {
    SerializeFrom(v, 0)
  }

  /** The serialisation is empty exactly for the all-zero vector. */
  lemma {:induction false} SerializeEmptyIffZero(v: Vec, from: nat)
    requires from <= 12
    ensures SerializeFrom(v, from) == "" <==> forall i :: from <= i < 12 ==> v[i] == 0
    decreases 12 - from
  {
    if from < 12 {
      SerializeEmptyIffZero(v, from + 1);
      assert Alphabet[from] != "";
    }
  }

  /** `Formula.__str__`: 'Null' for a falsy formula, else `form_arr_to_str`. */
  function FormulaStr(f: Formula): (r: string)
    ensures !IsNonZero(f.counts) <==> r == "Null"
  {
    if !IsNonZero(f.counts) then "Null"
    else
      var s := FormArrToStr(f.counts);
      SerializeEmptyIffZero(f.counts, 0);
      assert s != "";
      assert s != "Null" by { SerializeNotNull(f.counts, 0); }
      s
  }

  /** No serialisation is 'Null': no symbol or count puts a 'u' second, and
      what follows a symbol starts with an upper-case letter. */
  lemma {:induction false} SerializeNotNull(v: Vec, from: nat)
    requires from <= 12
    ensures SerializeFrom(v, from) != "Null"
    decreases 12 - from
  {
    if from < 12 {
      var d := Decode(Alphabet[from], v[from]);
      SerializeNotNull(v, from + 1);
      if d != "" {
        DecodeNoSecondU(from, v[from]);
        SerializeNoLowerStart(v, from + 1);
        NotNullJoin(d, SerializeFrom(v, from + 1));
      }
    }
  }

  /** A piece without 'u' second, followed by text that is empty or starts
      with an upper-case letter, does not spell 'Null'. */
  lemma NotNullJoin(d: string, r: string)
    requires d != "" && (|d| == 1 || d[1] != 'u')
    requires r != [] ==> 'A' <= r[0] <= 'Z'
    ensures d + r != "Null"
  {
    if |d| == 1 {
      assert (d + r)[1..] == r;
    } else {
      assert (d + r)[1] == d[1];
    }
  }

  /** The second character of a decoded slot is a lower-case letter other than
      'u', a minus sign or a digit. */
  lemma DecodeNoSecondU(slot: nat, cnt: int)
    requires slot < 12
    ensures |Decode(Alphabet[slot], cnt)| >= 2 ==> Decode(Alphabet[slot], cnt)[1] != 'u'
  {
    var d := Decode(Alphabet[slot], cnt);
    if |d| >= 2 && |Alphabet[slot]| == 1 {
      var t := IntToStr(cnt);
      assert d == Alphabet[slot] + t;
      assert t[0] == '-' || IsDigit(t[0]);
      assert d[1] == t[0];
    }
  }

  /** A serialisation never starts with a lower-case letter. */
  lemma {:induction false} SerializeNoLowerStart(v: Vec, from: nat)
    requires from <= 12
    ensures SerializeFrom(v, from) != [] ==> 'A' <= SerializeFrom(v, from)[0] <= 'Z'
    decreases 12 - from
  {
    if from < 12 {
      SerializeNoLowerStart(v, from + 1);
      var d := Decode(Alphabet[from], v[from]);
      var r := SerializeFrom(v, from + 1);
      if d != "" {
        DecodeHead(from, v[from]);
        assert (d + r)[0] == d[0];
      } else {
        assert d + r == r;
      }
    }
  }

  /** A decoded slot starts with its symbol's upper-case letter. */
  lemma DecodeHead(slot: nat, cnt: int)
    requires slot < 12
    ensures Decode(Alphabet[slot], cnt) != "" ==> 'A' <= Decode(Alphabet[slot], cnt)[0] <= 'Z'
  {
    var d := Decode(Alphabet[slot], cnt);
    if d != "" {
      assert d[0] == Alphabet[slot][0];
    }
  }

  /** The vector that `read_formula` builds from parsed element counts: None when
      any parsed element is outside the alphabet, otherwise each slot takes the
      parsed count of its symbol and 0 where the symbol was not parsed. */
  function FromCounts(parsed: map<string, int>): (r: Option<Vec>)
    ensures r.Some? <==> (forall e :: e in parsed ==> e in Alphabet)
    ensures r.Some? ==> forall i :: 0 <= i < 12 ==>
      r.value[i] == if Alphabet[i] in parsed then parsed[Alphabet[i]] else 0
  {
    if exists e :: e in parsed && e !in Alphabet then None
    else Some(seq(12, i requires 0 <= i < 12 => if Alphabet[i] in parsed then parsed[Alphabet[i]] else 0))
  }

  /** The element counts a vector stands for: its nonzero slots by symbol. */
  function CountsOf(v: Vec): (d: map<string, int>)
    ensures forall i :: 0 <= i < 12 ==> (Alphabet[i] in d <==> v[i] != 0)
    ensures forall i :: 0 <= i < 12 && Alphabet[i] in d ==> d[Alphabet[i]] == v[i]
    ensures forall e :: e in d ==> e in Alphabet
  {
    AlphabetDistinct();
    map i | 0 <= i < 12 && v[i] != 0 :: Alphabet[i] := v[i]
  }

  /** `read_formula` inverts the counts of a vector. */
  lemma FromCountsOfVec(v: Vec)
    ensures FromCounts(CountsOf(v)) == Some(v)
  {
    var d := CountsOf(v);
    var r := FromCounts(d);
    assert r.Some?;
    forall i | 0 <= i < 12 ensures r.value[i] == v[i] {
      if v[i] == 0 {
        assert Alphabet[i] !in d;
      }
    }
    assert r.value == v;
  }

  /** `read_formula` (older module): `parse` is the external chemical-formula
      parser, None where it raises. Checks every parsed element against the
      alphabet, then fills a zero array slot by slot. */
  method ReadFormula(parse: string -> Option<map<string, int>>, form: string) returns (r: Option<Vec>)
    ensures parse(form).None? ==> r.None?
    ensures parse(form).Some? ==> r == FromCounts(parse(form).value)
  {
    var parsed := parse(form);
    if parsed.None? {
      return None;
    }
    var d := parsed.value;
    var keys := d.Keys;
    while keys != {}
      invariant keys <= d.Keys
      invariant forall e :: e in d && e !in keys ==> e in Alphabet
      decreases keys
    {
      var e :| e in keys;
      if e !in Alphabet {
        return None;
      }
      keys := keys - {e};
    }
    var counts := new int[12](_ => 0);
    for i := 0 to 12
      invariant forall j :: 0 <= j < i ==> counts[j] == if Alphabet[j] in d then d[Alphabet[j]] else 0
      invariant forall j :: i <= j < 12 ==> counts[j] == 0
    {
      if Alphabet[i] in d {
        counts[i] := d[Alphabet[i]];
      }
    }
    assert forall e :: e in d ==> e in Alphabet;
    var expected := FromCounts(d);
    assert counts[..] == expected.value;
    r := Some(counts[..]);
  }
}
