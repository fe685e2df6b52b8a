/** The Python values the application handles: decoded JSON payloads and
    spreadsheet cells. A dict keeps its entries in insertion order, which is
    the order every walker in the application visits them in. */
module Json {
  import opened Prelude
  import opened Digits
  import opened Text

  datatype Value =
    | Null
      /** pandas' marker for a missing numeric cell (`float("nan")`). */
    | NaN
    | Bool(b: bool)
    | Int(i: int)
    | Float(r: real)
    | Str(s: string)
    | List(items: seq<Value>)
    | Dict(entries: seq<(string, Value)>)

  /** Index of the first entry with key `key`, or `|entries|` when absent. */
  function KeyIndex(entries: seq<(string, Value)>, key: string): (i: nat)
    ensures i <= |entries|
    ensures forall j :: 0 <= j < i ==> entries[j].0 != key
    ensures i < |entries| ==> entries[i].0 == key
    decreases |entries|
  {
    if |entries| == 0 then 0
    else if entries[0].0 == key then 0
    else 1 + KeyIndex(entries[1..], key)
  }

  /** `d.get(key)`: the value stored under `key`, or None when absent. */
  function Get(entries: seq<(string, Value)>, key: string): (r: Option<Value>)
    ensures r.None? <==> forall j :: 0 <= j < |entries| ==> entries[j].0 != key
    ensures r.Some? ==> (key, r.value) in entries
  {
    var i := KeyIndex(entries, key);
    if i < |entries| then Some(entries[i].1) else None
  }

  /** The first entry under a key is the one `get` finds. */
  lemma GetAt(entries: seq<(string, Value)>, p: nat)
    requires p < |entries|
    requires forall j :: 0 <= j < p ==> entries[j].0 != entries[p].0
    ensures Get(entries, entries[p].0) == Some(entries[p].1)
  {
  }

  /** `get` on two dicts laid end to end looks in the first, then in the
      second. */
  lemma GetAppend(a: seq<(string, Value)>, b: seq<(string, Value)>, key: string)
    ensures Get(a + b, key) == if Get(a, key).Some? then Get(a, key) else Get(b, key)
  {
    KeyIndexAppend(a, b, key);
    var i := KeyIndex(a, key);
    if i < |a| {
      assert (a + b)[i] == a[i];
    } else {
      assert KeyIndex(a + b, key) == |a| + KeyIndex(b, key);
      if KeyIndex(b, key) < |b| {
        assert (a + b)[|a| + KeyIndex(b, key)] == b[KeyIndex(b, key)];
      }
    }
  }

  lemma {:induction false} KeyIndexAppend(a: seq<(string, Value)>, b: seq<(string, Value)>, key: string)
    ensures KeyIndex(a + b, key) == if KeyIndex(a, key) < |a| then KeyIndex(a, key) else |a| + KeyIndex(b, key)
    decreases |a|
  {
    if |a| > 0 {
      assert (a + b)[0] == a[0];
      assert (a + b)[1..] == a[1..] + b;
      if a[0].0 != key {
        KeyIndexAppend(a[1..], b, key);
        assert KeyIndex(a + b, key) == 1 + KeyIndex(a[1..] + b, key);
        assert KeyIndex(a, key) == 1 + KeyIndex(a[1..], key);
      }
    } else {
      assert a + b == b;
    }
  }

  /** `v.get(key)` when `v` is a dict, `None` (Python's) otherwise or when
      the key is absent. */
  function Field(v: Value, key: string): (r: Value)
    ensures !v.Dict? ==> r == Null
    ensures v.Dict? && r != Null ==> (key, r) in v.entries
  {
    if v.Dict? then Get(v.entries, key).GetOr(Null) else Null
  }

  /** Python truthiness (`bool(v)`). */
  predicate Truthy(v: Value) {
    match v
    case Null => false
    case NaN => true
    case Bool(b) => b
    case Int(i) => i != 0
    case Float(r) => r != 0.0
    case Str(s) => |s| > 0
    case List(items) => |items| > 0
    case Dict(entries) => |entries| > 0
  }

  /** Python's `a or b`: `a` when it is truthy, else `b`. */
  function Or(a: Value, b: Value): (r: Value)
    ensures Truthy(a) ==> r == a
    ensures !Truthy(a) ==> r == b
  {
    if Truthy(a) then a else b
  }

  const FloatReprLimit: real := 10000000000000000.0

  /** `str(v)`. Exact for None, booleans, integers, strings and integral
      floats below 10^16; a fixed non-blank stand-in for other floats and for
      non-empty containers. */
  function Display(v: Value): (r: string)
    ensures v.Str? ==> r == v.s
    ensures !v.Str? ==> |r| > 0
  {
    match v
    case Null => "None"
    case NaN => "nan"
    case Bool(b) => if b then "True" else "False"
    case Int(i) => IntToString(i)
    case Float(r) =>
      if r == r.Floor as real && -FloatReprLimit < r < FloatReprLimit
      then IntToString(r.Floor) + ".0"
      else "<float>"
    case Str(s) => s
    case List(items) => if |items| == 0 then "[]" else "[...]"
    case Dict(entries) => if |entries| == 0 then "{}" else "{...}"
  }

  /** Keys of a dict, in order. */
  function Keys(entries: seq<(string, Value)>): (ks: seq<string>)
    ensures |ks| == |entries|
    ensures forall i :: 0 <= i < |entries| ==> ks[i] == entries[i].0
  {
    seq(|entries|, i requires 0 <= i < |entries| => entries[i].0)
  }

  /** A list of texts as JSON text items, in order. */
  function Strs(texts: seq<string>): (r: seq<Value>)
    ensures |r| == |texts|
    ensures forall k :: 0 <= k < |r| ==> r[k] == Str(texts[k])
  {
    seq(|texts|, k requires 0 <= k < |texts| => Str(texts[k]))
  }

  /** A spreadsheet row after `dtype=str` loading: column name to cell. */
  type Row = map<string, Value>

  /** `row.get(column)`, None when the column is absent. */
  function Cell(row: Row, column: string): (r: Value)
    ensures column !in row ==> r == Null
    ensures column in row ==> r == row[column]
  {
    if column in row then row[column] else Null
  }

  /** `str(row.get(column, ""))`. */
  function RowText(row: Row, column: string): (r: string)
    ensures column !in row ==> r == ""
  {
    if column in row then Display(row[column]) else ""
  }

  /** The represented taxpayer's CUIT as the row gives it, stripped. */
  function RowCuit(row: Row): string {
    Strip(RowText(row, "cuit_representado"))
  }

  /** The folder a row asks for: the first non-empty of its three folder
      columns, stripped. */
  function RowDownload(row: Row): string {
    Strip(Display(Or(Or(Or(Cell(row, "ubicacion_descarga"), Cell(row, "path_descarga")), Cell(row, "carpeta_descarga")), Str(""))))
  }
}
