/** Query results as the data consultant holds them (a pandas DataFrame read
    from SQLite), and the cell-level conversions its shaping steps apply. */
module Frames {
  import opened Wrappers
  import opened Text

  /** One cell: SQL NULL (pandas None or NaN), a number, or text. */
  datatype Cell = Null | Num(value: real) | Str(text: string)

  /** Column labels and rows, in order. */
  datatype Table = Table(columns: seq<string>, rows: seq<seq<Cell>>)

  /** Every row has one cell per column. */
  predicate Rectangular(t: Table) {
    forall i :: 0 <= i < |t.rows| ==> |t.rows[i]| == |t.columns|
  }

  type Frame = t: Table | Rectangular(t) witness Table([], [])

  /** `pd.DataFrame()` */
  const EmptyFrame: Frame := Table([], [])

  /** pandas `DataFrame.empty`: no rows or no columns. */
  predicate IsEmpty(t: Table) {
    |t.rows| == 0 || |t.columns| == 0
  }

  /** The numeric readers of pandas and Python, which the model does not
      open up: `toNumber` is `pd.to_numeric` on one text value, `evaluate` is
      `pd.eval` followed by a cast to float, `show` is `str()` of a number.
      `None` stands for a value they reject. */
  datatype Numerics = Numerics(
    toNumber: string -> Option<real>,
    evaluate: string -> Option<real>,
    show: real -> string)

  predicate IsNumeric(c: Cell) {
    c.Null? || c.Num?
  }

  /** `astype(str)` on one cell (None and NaN both render without digits). */
  function CellText(c: Cell, nums: Numerics): string {
    match c
    case Null => "None"
    case Num(v) => nums.show(v)
    case Str(s) => s
  }

  /** `pd.to_numeric(..., errors='coerce')` on one cell: text that does not
      read as a number becomes null; numbers and nulls are kept. */
  function Coerce(c: Cell, nums: Numerics): (r: Cell)
    ensures IsNumeric(r)
    ensures IsNumeric(c) ==> r == c
  {
    match c
    case Str(s) => (match nums.toNumber(s) case Some(v) => Num(v) case None => Null)
    case _ => c
  }

  /** `pd.to_numeric(..., errors='raise')` on one cell: `None` where it raises. */
  function DirectNumber(c: Cell, nums: Numerics): (r: Option<Cell>)
    ensures r.Some? ==> IsNumeric(r.value)
    ensures r.None? <==> c.Str? && nums.toNumber(c.text).None?
  {
    match c
    case Str(s) => (match nums.toNumber(s) case Some(v) => Some(Num(v)) case None => None)
    case _ => Some(c)
  }

  /** Digits and the two decimal separators: what the pattern `[^\d.,]` spares. */
  predicate IsDecimalChar(c: char) {
    IsDigit(c) || c == '.' || c == ','
  }

  function CommaToDot(s: string): (r: string)
    ensures |r| == |s|
    ensures forall i :: 0 <= i < |s| ==> r[i] == if s[i] == ',' then '.' else s[i]
  {
    seq(|s|, i requires 0 <= i < |s| => if s[i] == ',' then '.' else s[i])
  }

  /** The cleaning before a lenient numeric read: drop every character but
      digits, `.` and `,`, then read `,` as a decimal point. */
  function CleanDecimal(s: string): (r: string)
    ensures forall i :: 0 <= i < |r| ==> IsDigit(r[i]) || r[i] == '.'
  {
    CommaToDot(Keep(s, IsDecimalChar))
  }

  /** Cleaning is idempotent: a cleaned text is left as it is. */
  lemma CleanDecimalIdempotent(s: string)
    ensures CleanDecimal(CleanDecimal(s)) == CleanDecimal(s)
  {
    var c := CleanDecimal(s);
    KeepAllKept(c, IsDecimalChar);
    assert CommaToDot(c) == c;
  }

  /** Keeping from a text whose every character passes changes nothing. */
  lemma {:induction false} KeepAllKept(s: string, keep: char -> bool)
    requires forall i :: 0 <= i < |s| ==> keep(s[i])
    ensures Keep(s, keep) == s
  {
    if s != [] {
      KeepAllKept(s[1..], keep);
    }
  }

  /** Keeping from a text none of whose characters passes leaves nothing. */
  lemma {:induction false} KeepNoneKept(s: string, keep: char -> bool)
    requires forall i :: 0 <= i < |s| ==> !keep(s[i])
    ensures Keep(s, keep) == []
  {
    if s != [] {
      KeepNoneKept(s[1..], keep);
    }
  }

  /** A sign is lost in cleaning: `-x` cleans as `x` does. */
  lemma CleanDecimalDropsSign(s: string)
    ensures CleanDecimal("-" + s) == CleanDecimal(s)
  {
    assert ("-" + s)[1..] == s;
  }

  /** The cleaned text read with `pd.to_numeric(..., errors='coerce')`. */
  function CleanCoerce(c: Cell, nums: Numerics): (r: Cell)
    ensures IsNumeric(r)
    ensures r.Num? <==> nums.toNumber(CleanDecimal(CellText(c, nums))).Some?
  {
    match nums.toNumber(CleanDecimal(CellText(c, nums)))
    case Some(v) => Num(v)
    case None => Null
  }

  /** What the pie cleaning pattern `[^\d.,kK]` spares. */
  predicate IsPieChar(c: char) {
    IsDecimalChar(c) || c == 'k' || c == 'K'
  }

  const Thousand: string := "*1e3"

  /** Each `k` or `K` becomes the factor `*1e3`. */
  function ExpandK(s: string): (r: string)
    ensures forall i :: 0 <= i < |r| ==> r[i] != 'k' && r[i] != 'K'
  {
    if s == [] then []
    else (if s[0] == 'k' || s[0] == 'K' then Thousand else [s[0]]) + ExpandK(s[1..])
  }

  /** Reads each `*1e3` back as a `k`: the inverse of `ExpandK`. */
  function CollapseK(s: string): string {
    if s == [] then []
    else if StartsWith(s, Thousand) then "k" + CollapseK(s[|Thousand|..])
    else [s[0]] + CollapseK(s[1..])
  }

  /** The expansion loses nothing: on a text without `*` (every cleaned pie
      value) and with lower-case `k`, collapsing it gives the text back. */
  lemma {:induction false} ExpandKRoundTrip(s: string)
    requires forall i :: 0 <= i < |s| ==> s[i] != '*' && s[i] != 'K'
    ensures CollapseK(ExpandK(s)) == s
  {
    if s != [] {
      ExpandKRoundTrip(s[1..]);
      var e := ExpandK(s);
      if s[0] == 'k' {
        assert e == Thousand + ExpandK(s[1..]);
        assert e[|Thousand|..] == ExpandK(s[1..]);
      } else {
        assert e == [s[0]] + ExpandK(s[1..]);
        assert e[1..] == ExpandK(s[1..]);
        assert !StartsWith(e, Thousand);
      }
    }
  }

  /** The text the pie shaping evaluates for one cell. */
  function PieExpression(c: Cell, nums: Numerics): string {
    ExpandK(Keep(CellText(c, nums), IsPieChar))
  }

  /** The pie value of one cell: `None` where `pd.eval` or the float cast raises. */
  function PieValue(c: Cell, nums: Numerics): Option<real> {
    nums.evaluate(PieExpression(c, nums))
  }

  /** How many columns carry the label `name`. */
  function Occurrences(columns: seq<string>, name: string): (n: nat)
    ensures n <= |columns|
    ensures n == 0 <==> name !in columns
  {
    if columns == [] then 0
    else (if columns[0] == name then 1 else 0) + Occurrences(columns[1..], name)
  }

  /** The position of the first column labelled `name`. */
  function ColumnIndex(columns: seq<string>, name: string): (r: Option<nat>)
    ensures r.Some? <==> name in columns
    ensures r.Some? ==> r.value < |columns| && columns[r.value] == name
    ensures r.Some? ==> forall k :: 0 <= k < r.value ==> columns[k] != name
  {
    if columns == [] then None
    else if columns[0] == name then Some(0)
    else match ColumnIndex(columns[1..], name)
      case None => None
      case Some(k) => Some(k + 1)
  }

  /** The cells of column `j`, top to bottom. */
  function Column(t: Frame, j: nat): (col: seq<Cell>)
    requires j < |t.columns|
    ensures |col| == |t.rows|
    ensures forall i :: 0 <= i < |t.rows| ==> col[i] == t.rows[i][j]
  {
    seq(|t.rows|, i requires 0 <= i < |t.rows| => t.rows[i][j])
  }
}
