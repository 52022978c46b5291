/**
 The record the detector reads: the first row of the payload table, seen as
 the sequence of its columns in file order. Each column carries the dtype
 pandas gave it: a numeric column holds a number, an object column holds any
 value (text, or a number such as a missing cell's NaN).
 */
module Records {
  import opened PyStr

  datatype Option<T> = None | Some(value: T)

  /** A float or integer cell; infinities and NaN are kept apart from finite values. */
  datatype Number = Finite(r: real) | PosInf | NegInf | NaN

  /** A cell of an object column. Boolean columns are object columns holding
      "True" or "False". */
  datatype Value = Num(n: Number) | Text(s: string)

  /** One column of a one-row frame: its header and its single cell. */
  datatype Column = Numeric(name: string, n: Number) | Object(name: string, v: Value)

  type Record = seq<Column>

  /** The cell of a column as a value of any dtype. */
  function CellValue(c: Column): Value {
    match c
    case Numeric(_, n) => Num(n)
    case Object(_, v) => v
  }

  /** The column under a new header, dtype and cell unchanged. */
  function Renamed(c: Column, name: string): (d: Column)
    ensures d.name == name && d.Numeric? == c.Numeric? && CellValue(d) == CellValue(c)
  {
    match c
    case Numeric(_, n) => Numeric(name, n)
    case Object(_, v) => Object(name, v)
  }

  /** `df.columns = [col.strip() for col in df.columns]`: every header is
      stripped, in place, and nothing else changes. */
  function StripNames(rec: Record): (r: Record)
    ensures |r| == |rec|
    ensures forall i | 0 <= i < |r| :: r[i].name == Strip(rec[i].name)
    ensures forall i | 0 <= i < |r| :: r[i].Numeric? == rec[i].Numeric? && CellValue(r[i]) == CellValue(rec[i])
  {
    seq(|rec|, i requires 0 <= i < |rec| => Renamed(rec[i], Strip(rec[i].name)))
  }

  /** Headers that are already trimmed are left as they are. */
  lemma StripNamesTrimmed(rec: Record)
    requires forall i | 0 <= i < |rec| :: Trimmed(rec[i].name)
    ensures StripNames(rec) == rec
  {
    var r := StripNames(rec);
    forall i | 0 <= i < |rec| ensures r[i] == rec[i] {
      assert r[i].name == rec[i].name;
    }
  }

  /** The cell of the first column headed `key`, of any dtype: `df[key]`. */
  function ColumnValue(cols: Record, key: string): (r: Option<Value>)
    ensures r.None? <==> forall i | 0 <= i < |cols| :: cols[i].name != key
    ensures r.Some? ==>
      exists i | 0 <= i < |cols| ::
        && cols[i].name == key && r.value == CellValue(cols[i])
        && forall j | 0 <= j < i :: cols[j].name != key
  {
    if cols == [] then None
    else if cols[0].name == key then Some(CellValue(cols[0]))
    else
      var r := ColumnValue(cols[1..], key);
      assert r.Some? ==> exists i | 0 <= i < |cols| ::
        && cols[i].name == key && r.value == CellValue(cols[i])
        && forall j | 0 <= j < i :: cols[j].name != key
      by {
        if r.Some? {
          var i :| 0 <= i < |cols[1..]| && cols[1..][i].name == key && r.value == CellValue(cols[1..][i])
            && forall j | 0 <= j < i :: cols[1..][j].name != key;
          assert cols[i + 1] == cols[1..][i];
          forall j | 0 <= j < i + 1 ensures cols[j].name != key {
            if j > 0 { assert cols[j] == cols[1..][j - 1]; }
          }
        }
      }
      r
  }

  /** Where the first numeric column headed `key` sits; `|cols|` when there is none. */
  function NumericIndex(cols: Record, key: string): (k: nat)
    ensures k <= |cols|
    ensures forall j | 0 <= j < k :: !(cols[j].Numeric? && cols[j].name == key)
    ensures k < |cols| ==> cols[k].Numeric? && cols[k].name == key
  {
    if cols == [] then 0
    else if cols[0].Numeric? && cols[0].name == key then 0
    else 1 + NumericIndex(cols[1..], key)
  }

  /** The number in the first numeric column headed `key`. */
  function NumericValue(cols: Record, key: string): (r: Option<Number>)
    ensures r.None? <==> forall i | 0 <= i < |cols| :: !(cols[i].Numeric? && cols[i].name == key)
    ensures r.Some? ==> NumericIndex(cols, key) < |cols| && r.value == cols[NumericIndex(cols, key)].n
  {
    if cols == [] then None
    else if cols[0].Numeric? && cols[0].name == key then Some(cols[0].n)
    else NumericValue(cols[1..], key)
  }

  /** Looking up in a concatenation: the first part wins when it has the column. */
  lemma {:induction false} NumericValueAppend(a: Record, b: Record, key: string)
    ensures NumericValue(a + b, key) ==
      if NumericValue(a, key).Some? then NumericValue(a, key) else NumericValue(b, key)
  {
    if a != [] {
      assert (a + b)[1..] == a[1..] + b;
      NumericValueAppend(a[1..], b, key);
    } else {
      assert a + b == b;
    }
  }
}
