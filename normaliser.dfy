/**
 Feature normalisation: the record's headers are stripped, only its numeric
 columns are kept, every selected feature that is missing is added as 0.0, the
 columns are projected onto the selected features in their order, and
 infinities and NaN are replaced by 0.
 */
module Normaliser {
  import opened PyStr
  import opened Records

  // ---------------------------------------------------------------------
  // Specification
  // ---------------------------------------------------------------------

  /** The number the frame holds for feature `f` before infinities and NaN are
      replaced: the first numeric column whose stripped header is `f`, or the
      0.0 added for a missing feature. */
  function Chosen(rec: Record, f: string): Number {
    match NumericValue(StripNames(rec), f)
    case Some(x) => x
    case None => Finite(0.0)
  }

  /** The vector entry for feature `f`: the finite number of the first numeric
      column whose stripped header is `f`; 0.0 when there is none or when it
      holds an infinity or NaN. */
  function FeatureValue(rec: Record, f: string): real {
    match Chosen(rec, f)
    case Finite(x) => x
    case _ => 0.0
  }

  /** The vector the model is given: one entry per selected feature, in the
      order of `features`. */
  function Normalised(rec: Record, features: seq<string>): (v: seq<real>)
    ensures |v| == |features|
  {
    seq(|features|, i requires 0 <= i < |features| => FeatureValue(rec, features[i]))
  }

  // ---------------------------------------------------------------------
  // The pandas steps
  // ---------------------------------------------------------------------

  /** `select_dtypes(include=[np.number])`: the numeric columns, in order. */
  function SelectNumeric(cols: Record): (r: Record)
    ensures forall c | c in r :: c.Numeric? && c in cols
    ensures forall c | c in cols && c.Numeric? :: c in r
    ensures |r| <= |cols|
  {
    if cols == [] then []
    else if cols[0].Numeric? then [cols[0]] + SelectNumeric(cols[1..])
    else SelectNumeric(cols[1..])
  }

  /** Dropping the non-numeric columns does not change which numeric column
      a header finds. */
  lemma {:induction false} SelectKeepsNumericValue(cols: Record, key: string)
    ensures NumericValue(SelectNumeric(cols), key) == NumericValue(cols, key)
  {
    if cols != [] {
      SelectKeepsNumericValue(cols[1..], key);
      if cols[0].Numeric? {
        NumericValueAppend([cols[0]], SelectNumeric(cols[1..]), key);
      }
    }
  }

  /** A header names a column of the frame (`col in df.columns`): exactly
      when `df[col]` finds a column, which it does whenever a numeric column
      carries the header. */
  predicate HasColumn(cols: Record, key: string): (r: bool)
    ensures r <==> ColumnValue(cols, key).Some?
    ensures NumericValue(cols, key).Some? ==> r
  {
    exists i | 0 <= i < |cols| :: cols[i].name == key
  }

  /** What the lookup gives after lines 68-70 have run over the features `fs`:
      the existing numeric column, or the added 0.0 for a feature of `fs`. */
  function Padded(base: Record, fs: seq<string>, key: string): Option<Number> {
    if NumericValue(base, key).Some? then NumericValue(base, key)
    else if key in fs then Some(Finite(0.0))
    else None
  }

  /** `replace([np.inf, -np.inf], 0)` on one cell. */
  function NoInfinity(x: Number): (y: Number)
    ensures !y.PosInf? && !y.NegInf?
    ensures x.PosInf? || x.NegInf? ==> y == Finite(0.0)
    ensures x.Finite? || x.NaN? ==> y == x
  {
    if x.PosInf? || x.NegInf? then Finite(0.0) else x
  }

  /** `fillna(0.0)` on one cell. */
  function NoNaN(x: Number): (y: Number)
    ensures !y.NaN?
    ensures x.NaN? ==> y == Finite(0.0)
    ensures !x.NaN? ==> y == x
  {
    if x.NaN? then Finite(0.0) else x
  }

  /** `df_detect.replace([np.inf, -np.inf], 0, inplace=True)`. */
  method ReplaceInfinite(a: array<Number>)
    modifies a
    ensures forall k | 0 <= k < a.Length :: a[k] == NoInfinity(old(a[k]))
  {
    for k := 0 to a.Length
      invariant forall m | 0 <= m < k :: a[m] == NoInfinity(old(a[m]))
      invariant forall m | k <= m < a.Length :: a[m] == old(a[m])
    {
      if a[k].PosInf? || a[k].NegInf? {
        a[k] := Finite(0.0);
      }
    }
  }

  /** `df_detect.fillna(0.0, inplace=True)`. */
  method FillNaN(a: array<Number>)
    modifies a
    ensures forall k | 0 <= k < a.Length :: a[k] == NoNaN(old(a[k]))
  {
    for k := 0 to a.Length
      invariant forall m | 0 <= m < k :: a[m] == NoNaN(old(a[m]))
      invariant forall m | k <= m < a.Length :: a[m] == old(a[m])
    {
      if a[k].NaN? {
        a[k] := Finite(0.0);
      }
    }
  }

  /** Lines 68-70: every selected feature the frame lacks is added as a
      column of 0.0 at the end; the columns already there are kept. */
  method AddMissing(selected: Record, features: seq<string>) returns (detect: Record)
    requires forall c | c in selected :: c.Numeric?
    ensures forall c | c in detect :: c.Numeric?
    ensures forall key :: NumericValue(detect, key) == Padded(selected, features, key)
  {
    detect := selected;
    var i := 0;
    while i < |features|
      invariant 0 <= i <= |features|
      invariant forall c | c in detect :: c.Numeric?
      invariant forall key :: NumericValue(detect, key) == Padded(selected, features[..i], key)
    {
      var col := features[i];
      assert features[..i + 1] == features[..i] + [col];
      if !HasColumn(detect, col) {
        var added := Numeric(col, Finite(0.0));
        forall key ensures NumericValue(detect + [added], key) == Padded(selected, features[..i + 1], key) {
          NumericValueAppend(detect, [added], key);
        }
        detect := detect + [added];
      } else {
        var j :| 0 <= j < |detect| && detect[j].name == col;
        assert detect[j] in detect;
      }
      i := i + 1;
    }
    assert features[..i] == features;
  }

  /** Line 71, `df_detect[selected_features]`: the frame's cells in the
      order of the features, each feature being a column of the frame. */
  method Project(detect: Record, features: seq<string>) returns (frame: array<Number>)
    requires forall f | f in features :: NumericValue(detect, f).Some?
    ensures fresh(frame) && frame.Length == |features|
    ensures forall k | 0 <= k < |features| :: Some(frame[k]) == NumericValue(detect, features[k])
  {
    frame := new Number[|features|];
    for k := 0 to |features|
      invariant forall m | 0 <= m < k :: Some(frame[m]) == NumericValue(detect, features[m])
    {
      frame[k] := NumericValue(detect, features[k]).value;
    }
  }

  /** Lines 65-73, step by step: the vector handed to the model is the
      normalised record. */
  method Normalise(rec: Record, features: seq<string>) returns (vec: seq<real>)
    ensures vec == Normalised(rec, features)
  {
    var cols := StripNames(rec);
    var selected := SelectNumeric(cols);
    var detect := AddMissing(selected, features);
    forall f | f in features ensures NumericValue(detect, f) == Some(Chosen(rec, f)) {
      SelectKeepsNumericValue(cols, f);
    }
    var frame := Project(detect, features);
    ReplaceInfinite(frame);
    FillNaN(frame);
    vec := seq(frame.Length, k requires 0 <= k < frame.Length && frame[k].Finite? reads frame => frame[k].r);
  }

  // ---------------------------------------------------------------------
  // Properties of the normalised vector
  // ---------------------------------------------------------------------

  /** The first numeric column headed `key` decides the lookup. */
  lemma {:induction false} NumericValueAt(cols: Record, key: string, j: nat)
    requires j < |cols| && cols[j].Numeric? && cols[j].name == key
    requires forall m | 0 <= m < j :: !(cols[m].Numeric? && cols[m].name == key)
    ensures NumericValue(cols, key) == Some(cols[j].n)
  {
    if j > 0 {
      assert !(cols[0].Numeric? && cols[0].name == key);
      forall m | 0 <= m < j - 1 ensures !(cols[1..][m].Numeric? && cols[1..][m].name == key) {
        assert cols[1..][m] == cols[m + 1];
      }
      NumericValueAt(cols[1..], key, j - 1);
    }
  }

  lemma StripNamesAppend(a: Record, b: Record)
    ensures StripNames(a + b) == StripNames(a) + StripNames(b)
  {
    var l, r := StripNames(a + b), StripNames(a) + StripNames(b);
    forall i | 0 <= i < |l| ensures l[i] == r[i] {
      if i < |a| { assert (a + b)[i] == a[i]; } else { assert (a + b)[i] == b[i - |a|]; }
    }
  }

  /** Entry `i` of the vector comes from the first numeric column whose
      stripped header is feature `i`: its value when finite, 0.0 for an
      infinity or NaN. */
  lemma FirstNumericColumnDecides(rec: Record, features: seq<string>, i: nat, j: nat)
    requires i < |features| && j < |rec|
    requires rec[j].Numeric? && Strip(rec[j].name) == features[i]
    requires forall m | 0 <= m < j :: !(rec[m].Numeric? && Strip(rec[m].name) == features[i])
    ensures Normalised(rec, features)[i] == (if rec[j].n.Finite? then rec[j].n.r else 0.0)
  {
    NumericValueAt(StripNames(rec), features[i], j);
  }

  /** Entry `i` once the lookup of feature `i` is known. */
  lemma EntryFromLookup(rec: Record, features: seq<string>, i: nat, x: Option<Number>)
    requires i < |features| && NumericValue(StripNames(rec), features[i]) == x
    ensures Normalised(rec, features)[i] == (if x.Some? && x.value.Finite? then x.value.r else 0.0)
  {
  }

  /** A feature with no numeric column under its (stripped) header is 0.0,
      whatever non-numeric columns carry that header. */
  lemma MissingFeatureIsZero(rec: Record, features: seq<string>, i: nat)
    requires i < |features|
    requires forall j | 0 <= j < |rec| :: !(rec[j].Numeric? && Strip(rec[j].name) == features[i])
    ensures Normalised(rec, features)[i] == 0.0
  {
    var cols := StripNames(rec);
    assert forall j | 0 <= j < |cols| :: !(cols[j].Numeric? && cols[j].name == features[i]);
  }

  /** Replacing a run of columns by one that looks up every selected feature
      the same way does not change the vector. */
  lemma SameLookupInContext(a: Record, m1: Record, m2: Record, b: Record, features: seq<string>)
    requires forall f | f in features :: NumericValue(StripNames(m1), f) == NumericValue(StripNames(m2), f)
    ensures Normalised(a + m1 + b, features) == Normalised(a + m2 + b, features)
  {
    StripNamesAppend(a + m1, b);
    StripNamesAppend(a, m1);
    StripNamesAppend(a + m2, b);
    StripNamesAppend(a, m2);
    var sa, s1, s2, sb := StripNames(a), StripNames(m1), StripNames(m2), StripNames(b);
    forall f | f in features ensures NumericValue(sa + s1 + sb, f) == NumericValue(sa + s2 + sb, f) {
      NumericValueAppend(sa + s1, sb, f);
      NumericValueAppend(sa, s1, f);
      NumericValueAppend(sa + s2, sb, f);
      NumericValueAppend(sa, s2, f);
    }
    forall i | 0 <= i < |features|
      ensures Normalised(a + m1 + b, features)[i] == Normalised(a + m2 + b, features)[i]
    {
      assert features[i] in features;
    }
  }

  /** A non-numeric column, wherever it stands, does not change the vector. */
  lemma ObjectColumnIgnored(a: Record, c: Column, b: Record, features: seq<string>)
    requires c.Object?
    ensures Normalised(a + [c] + b, features) == Normalised(a + b, features)
  {
    SameLookupInContext(a, [c], [], b, features);
    assert a + [] + b == a + b;
  }

  /** A numeric column whose stripped header is no selected feature does not
      change the vector. */
  lemma UnselectedColumnIgnored(a: Record, c: Column, b: Record, features: seq<string>)
    requires Strip(c.name) !in features
    ensures Normalised(a + [c] + b, features) == Normalised(a + b, features)
  {
    SameLookupInContext(a, [c], [], b, features);
    assert a + [] + b == a + b;
  }

  /** Whitespace around a header does not change the vector. */
  lemma HeaderPaddingIgnored(a: Record, c: Column, b: Record, w1: string, w2: string, features: seq<string>)
    requires AllSpace(w1) && AllSpace(w2)
    ensures Normalised(a + [Renamed(c, w1 + c.name + w2)] + b, features) == Normalised(a + [c] + b, features)
  {
    StripPadding(w1, c.name, w2);
    var p := Renamed(c, w1 + c.name + w2);
    assert StripNames([p]) == StripNames([c]);
    SameLookupInContext(a, [p], [c], b, features);
  }

  /** Two adjacent columns with different stripped headers can be swapped
      without changing the vector: the vector follows the order of the
      features, not of the columns. */
  lemma AdjacentColumnsCommute(a: Record, c: Column, d: Column, b: Record, features: seq<string>)
    requires Strip(c.name) != Strip(d.name)
    ensures Normalised(a + [c, d] + b, features) == Normalised(a + [d, c] + b, features)
  {
    forall f | f in features ensures NumericValue(StripNames([c, d]), f) == NumericValue(StripNames([d, c]), f) {
      SwapStripped(c, d, f);
    }
    SameLookupInContext(a, [c, d], [d, c], b, features);
  }

  lemma SwapStripped(c: Column, d: Column, key: string)
    requires Strip(c.name) != Strip(d.name)
    ensures NumericValue(StripNames([c, d]), key) == NumericValue(StripNames([d, c]), key)
  {
    StripNamesSwap(c, d);
    SwapPair(StripNames([c, d]), key);
  }

  lemma StripNamesSwap(c: Column, d: Column)
    ensures StripNames([d, c]) == [StripNames([c, d])[1], StripNames([c, d])[0]]
  {
    var l, r := StripNames([d, c]), [StripNames([c, d])[1], StripNames([c, d])[0]];
    assert l[0] == r[0];
    assert l[1] == r[1];
  }

  /** Two columns under different headers find the same numeric column in
      either order. */
  lemma SwapPair(cols: Record, key: string)
    requires |cols| == 2 && cols[0].name != cols[1].name
    ensures NumericValue(cols, key) == NumericValue([cols[1], cols[0]], key)
  {
    assert cols[1..] == [cols[1]] && [cols[1], cols[0]][1..] == [cols[0]];
  }
}
