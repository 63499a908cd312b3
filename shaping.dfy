/** The data consultant's result shaping: the pie-chart preparation, the
    generic visualization preparation, and the specification of the two
    numeric promotion passes (whose loops live in DataConsultant). */
module Shaping {
  import opened Wrappers
  import opened Text
  import opened Frames

  // ------------------------------------------------------------ pie chart

  const PieColumns: seq<string> := ["categoria", "valor"]

  /** A shaped pie row: a category and a numeric value. */
  predicate IsPieRow(row: seq<Cell>) {
    |row| == 2 && row[1].Num?
  }

  /** The value of a shaped pie row (zero for any other row). */
  function PieRowValue(row: seq<Cell>): real {
    if IsPieRow(row) then row[1].value else 0.0
  }

  /** The value column converted on every row, or `None` as soon as one value
      does not evaluate (the conversion has no per-row error handling). */
  function PieRows(rows: seq<seq<Cell>>, nums: Numerics): (r: Option<seq<seq<Cell>>>)
    requires forall i :: 0 <= i < |rows| ==> |rows[i]| == 2
    ensures r.None? <==> exists i :: 0 <= i < |rows| && PieValue(rows[i][1], nums).None?
    ensures r.Some? ==> |r.value| == |rows|
    ensures r.Some? ==> forall i :: 0 <= i < |rows| ==>
      r.value[i] == [rows[i][0], Num(PieValue(rows[i][1], nums).value)]
  {
    if rows == [] then Some([])
    else
      var rest := PieRows(rows[1..], nums);
      assert forall i :: 1 <= i < |rows| ==> rows[i] == rows[1..][i - 1];
      match PieValue(rows[0][1], nums)
      case None => None
      case Some(v) =>
        match rest
        case None => None
        case Some(tail) => Some([[rows[0][0], Num(v)]] + tail)
  }

  predicate IsPositiveRow(row: seq<Cell>) {
    IsPieRow(row) && row[1].value > 0.0
  }

  /** `df[df['valor'] > 0]`: every positive row, as many times as it occurs, and nothing else. */
  function KeepPositive(rows: seq<seq<Cell>>): (r: seq<seq<Cell>>)
    ensures forall i :: 0 <= i < |r| ==> IsPositiveRow(r[i])
    ensures forall row :: multiset(r)[row] == if IsPositiveRow(row) then multiset(rows)[row] else 0
  {
    if rows == [] then []
    else
      var rest := KeepPositive(rows[1..]);
      assert rows == [rows[0]] + rows[1..];
      if IsPositiveRow(rows[0]) then [rows[0]] + rest else rest
  }

  /** Rows in non-increasing order of value. */
  predicate NonIncreasing(rows: seq<seq<Cell>>) {
    forall i, j :: 0 <= i < j < |rows| ==> PieRowValue(rows[i]) >= PieRowValue(rows[j])
  }

  function Insert(row: seq<Cell>, rows: seq<seq<Cell>>): (r: seq<seq<Cell>>)
    requires IsPieRow(row)
    requires forall i :: 0 <= i < |rows| ==> IsPieRow(rows[i])
    requires NonIncreasing(rows)
    ensures forall i :: 0 <= i < |r| ==> IsPieRow(r[i])
    ensures NonIncreasing(r)
    ensures multiset(r) == multiset(rows) + multiset{row}
    ensures |r| == |rows| + 1 && (r[0] == row || (|rows| > 0 && r[0] == rows[0]))
  {
    if rows == [] || PieRowValue(row) >= PieRowValue(rows[0]) then
      ConsNonIncreasing(row, rows);
      [row] + rows
    else
      var rest := Insert(row, rows[1..]);
      assert rows == [rows[0]] + rows[1..];
      ConsNonIncreasing(rows[0], rest);
      [rows[0]] + rest
  }

  /** A row no smaller than the head of a non-increasing sequence can go in front. */
  lemma ConsNonIncreasing(x: seq<Cell>, s: seq<seq<Cell>>)
    requires NonIncreasing(s) && (s == [] || PieRowValue(x) >= PieRowValue(s[0]))
    ensures NonIncreasing([x] + s)
  {
    var r := [x] + s;
    forall i, j | 0 <= i < j < |r| ensures PieRowValue(r[i]) >= PieRowValue(r[j]) {
      if i == 0 {
        assert r[j] == s[j - 1];
      } else {
        assert r[i] == s[i - 1] && r[j] == s[j - 1];
      }
    }
  }

  /** `sort_values('valor', ascending=False)`: the same rows, largest value first.
      (pandas does not promise a stable order among equal values, so neither does this.) */
  function SortDescending(rows: seq<seq<Cell>>): (r: seq<seq<Cell>>)
    requires forall i :: 0 <= i < |rows| ==> IsPieRow(rows[i])
    ensures forall i :: 0 <= i < |r| ==> IsPieRow(r[i])
    ensures NonIncreasing(r)
    ensures multiset(r) == multiset(rows)
  {
    if rows == [] then []
    else
      assert rows == [rows[0]] + rows[1..];
      Insert(rows[0], SortDescending(rows[1..]))
  }

  /** `_prepare_pie_chart_data` on a two-column result. It fails, as the
      source raises, when some value does not evaluate; otherwise the columns
      are `categoria` and `valor`, every value is a positive number, the rows
      are in non-increasing order of value, and they are exactly the
      converted rows whose value is positive. */
  function PrepareChartData(t: Frame, nums: Numerics): (r: Result<Frame, string>)
    requires |t.columns| == 2
    ensures r.Err? <==> exists i :: 0 <= i < |t.rows| && PieValue(t.rows[i][1], nums).None?
    ensures r.Ok? ==> r.value.columns == PieColumns
    ensures r.Ok? ==> forall i :: 0 <= i < |r.value.rows| ==> IsPositiveRow(r.value.rows[i])
    ensures r.Ok? ==> NonIncreasing(r.value.rows)
    ensures r.Ok? ==> forall row :: multiset(r.value.rows)[row] ==
                                    if IsPositiveRow(row) then multiset(PieRows(t.rows, nums).value)[row] else 0
  {
    match PieRows(t.rows, nums)
    case None => Err("a pie value could not be evaluated")
    case Some(converted) => Ok(ChartFromRows(converted))
  }

  /** The converted rows with a positive value, largest first, under the
      labels `categoria` and `valor`. */
  function ChartFromRows(converted: seq<seq<Cell>>): (r: Frame)
    requires forall i :: 0 <= i < |converted| ==> IsPieRow(converted[i])
    ensures r.columns == PieColumns
    ensures forall i :: 0 <= i < |r.rows| ==> IsPositiveRow(r.rows[i])
    ensures NonIncreasing(r.rows)
    ensures forall row :: multiset(r.rows)[row] == if IsPositiveRow(row) then multiset(converted)[row] else 0
  {
    var positive := KeepPositive(converted);
    var sorted := SortDescending(positive);
    SameElements(sorted, positive);
    Table(PieColumns, sorted)
  }

  /** Two arrangements of the same rows hold the same rows. */
  lemma SameElements(a: seq<seq<Cell>>, b: seq<seq<Cell>>)
    requires multiset(a) == multiset(b)
    ensures forall i :: 0 <= i < |a| ==> a[i] in b
  {
    forall i | 0 <= i < |a| ensures a[i] in b {
      assert a[i] in multiset(a);
    }
  }

  /** A leading minus sign is lost before evaluation: `-x` is charted as `x`. */
  lemma PieValueIgnoresSign(s: string, nums: Numerics)
    ensures PieValue(Str("-" + s), nums) == PieValue(Str(s), nums)
  {
    assert ("-" + s)[1..] == s;
    assert !IsPieChar('-');
    assert Keep("-" + s, IsPieChar) == Keep(s, IsPieChar);
  }

  // ------------------------------------------------- other visualizations

  /** The rows whose cell `j` reads as a number under the lenient cleaned
      read, with that cell replaced by the number: `df[df['valor'].notna()]`
      after the conversion. */
  function KeepParsed(rows: seq<seq<Cell>>, j: nat, nums: Numerics): (r: seq<seq<Cell>>)
    requires forall i :: 0 <= i < |rows| ==> j < |rows[i]|
    ensures |r| <= |rows|
  {
    if rows == [] then []
    else
      var c := CleanCoerce(rows[0][j], nums);
      if c.Num? then [rows[0][j := c]] + KeepParsed(rows[1..], j, nums) else KeepParsed(rows[1..], j, nums)
  }

  /** Row `i` with its cell `j` read as a number. */
  function ParsedRow(rows: seq<seq<Cell>>, i: nat, j: nat, nums: Numerics): seq<Cell>
    requires i < |rows| && j < |rows[i]|
  {
    rows[i][j := CleanCoerce(rows[i][j], nums)]
  }

  /** Every row whose value reads is kept, converted, and every kept row is
      such a row. */
  lemma {:induction false} KeepParsedRows(rows: seq<seq<Cell>>, j: nat, nums: Numerics)
    requires forall i :: 0 <= i < |rows| ==> j < |rows[i]|
    ensures forall i :: 0 <= i < |rows| && CleanCoerce(rows[i][j], nums).Num? ==>
      ParsedRow(rows, i, j, nums) in KeepParsed(rows, j, nums)
    ensures forall row :: row in KeepParsed(rows, j, nums) ==>
      exists i :: 0 <= i < |rows| && CleanCoerce(rows[i][j], nums).Num? && row == ParsedRow(rows, i, j, nums)
  {
    if rows != [] {
      var tail := rows[1..];
      KeepParsedRows(tail, j, nums);
      var r := KeepParsed(rows, j, nums);
      var rest := KeepParsed(tail, j, nums);
      var c := CleanCoerce(rows[0][j], nums);
      assert r == if c.Num? then [ParsedRow(rows, 0, j, nums)] + rest else rest;
      forall i | 0 < i < |rows| ensures ParsedRow(rows, i, j, nums) == ParsedRow(tail, i - 1, j, nums) {
        assert rows[i] == tail[i - 1];
      }
      forall row | row in r
        ensures exists i :: 0 <= i < |rows| && CleanCoerce(rows[i][j], nums).Num? && row == ParsedRow(rows, i, j, nums)
      {
        if row !in rest {
          assert row == ParsedRow(rows, 0, j, nums);
        } else {
          var k :| 0 <= k < |tail| && CleanCoerce(tail[k][j], nums).Num? && row == ParsedRow(tail, k, j, nums);
          assert rows[k + 1] == tail[k];
        }
      }
    }
  }

  /** When every value reads, no row is dropped and the order is kept. */
  lemma {:induction false} KeepParsedKeepsAll(rows: seq<seq<Cell>>, j: nat, nums: Numerics)
    requires forall i :: 0 <= i < |rows| ==> j < |rows[i]| && CleanCoerce(rows[i][j], nums).Num?
    ensures |KeepParsed(rows, j, nums)| == |rows|
    ensures forall i :: 0 <= i < |rows| ==> KeepParsed(rows, j, nums)[i] == ParsedRow(rows, i, j, nums)
  {
    if rows != [] {
      var tail := rows[1..];
      KeepParsedKeepsAll(tail, j, nums);
      var r := KeepParsed(rows, j, nums);
      assert r == [ParsedRow(rows, 0, j, nums)] + KeepParsed(tail, j, nums);
      forall i | 1 <= i < |rows| ensures r[i] == ParsedRow(rows, i, j, nums) {
        var k := i - 1;
        assert rows[i] == tail[k];
        assert r[i] == KeepParsed(tail, j, nums)[k];
      }
    }
  }

  /** The result of `_prepare_visualization_data`. A result with fewer than
      two columns is returned unchanged; a two-column result is relabelled
      `categoria`/`valor`; when exactly one column is labelled `valor`, its
      cleaned values are read as numbers and only the rows whose value reads
      are kept; otherwise (no such column, or several, where pandas raises
      and the error is swallowed) the rows are unchanged. */
  function PrepareVisualizationData(t: Frame, nums: Numerics): (r: Frame)
    ensures |t.columns| < 2 ==> r == t
    ensures |t.columns| == 2 ==> r.columns == PieColumns
    ensures |t.columns| != 2 ==> r.columns == t.columns
    ensures |r.rows| <= |t.rows|
    ensures Occurrences(r.columns, "valor") != 1 ==> r.rows == t.rows
    ensures |t.columns| >= 2 && Occurrences(r.columns, "valor") == 1 ==>
              r.rows == KeepParsed(t.rows, ColumnIndex(r.columns, "valor").value, nums)
  {
    if |t.columns| < 2 then t
    else
      var columns := if |t.columns| == 2 then PieColumns else t.columns;
      if Occurrences(columns, "valor") != 1 then Table(columns, t.rows)
      else
        var j := ColumnIndex(columns, "valor").value;
        var kept := KeepParsed(t.rows, j, nums);
        KeepParsedRows(t.rows, j, nums);
        assert forall k :: 0 <= k < |kept| ==> |kept[k]| == |columns| by {
          forall k | 0 <= k < |kept| ensures |kept[k]| == |columns| {
            assert kept[k] in kept;
          }
        }
        Table(columns, kept)
  }

  // ---------------------------------------------------- numeric promotion

  /** Label fragments that make `_convert_numeric_columns` promote a column. */
  const ConvertKeys: seq<string> := ["valor", "total", "count", "soma"]

  /** Label fragments that make `_enhance_numeric_conversion` promote a column. */
  const EnhanceKeys: seq<string> := ["valor", "total", "count", "sum", "amount", "quant", "soma", "qtd", "num"]

  /** The lower-cased label contains one of `keys`. */
  predicate NameMatches(name: string, keys: seq<string>) {
    exists k :: k in keys && Contains(Lower(name), k)
  }

  /** Column `j` is rewritten by a pass with `keys`: its label matches and
      no other column carries that label (for a repeated label pandas hands
      back a frame instead of a column and both passes swallow the error). */
  predicate Promoted(t: Frame, j: nat, keys: seq<string>)
    requires j < |t.columns|
  {
    NameMatches(t.columns[j], keys) && Occurrences(t.columns, t.columns[j]) == 1
  }

  /** Every cell of the column converts under `errors='raise'`. */
  predicate AllDirect(col: seq<Cell>, nums: Numerics) {
    forall i :: 0 <= i < |col| ==> DirectNumber(col[i], nums).Some?
  }

  /** One cell after `_convert_numeric_columns`: the direct conversion when it
      succeeds for the whole column, otherwise the cleaned lenient read. */
  function ConvertedCell(t: Frame, i: nat, j: nat, nums: Numerics): Cell
    requires i < |t.rows| && j < |t.columns|
  {
    if !Promoted(t, j, ConvertKeys) then t.rows[i][j]
    else if AllDirect(Column(t, j), nums) then DirectNumber(t.rows[i][j], nums).value
    else CleanCoerce(t.rows[i][j], nums)
  }

  /** The frame `_convert_numeric_columns` leaves: same labels, same rows,
      columns it does not promote untouched, columns it promotes numeric. */
  function ConvertNumericSpec(t: Frame, nums: Numerics): (r: Frame)
    ensures r.columns == t.columns && |r.rows| == |t.rows|
    ensures forall i, j :: 0 <= i < |t.rows| && 0 <= j < |t.columns| && !Promoted(t, j, ConvertKeys) ==>
      r.rows[i][j] == t.rows[i][j]
    ensures forall i, j :: 0 <= i < |t.rows| && 0 <= j < |t.columns| && Promoted(t, j, ConvertKeys) ==>
      IsNumeric(r.rows[i][j])
  {
    var rows := seq(|t.rows|, i requires 0 <= i < |t.rows| =>
      seq(|t.columns|, j requires 0 <= j < |t.columns| => ConvertedCell(t, i, j, nums)));
    Table(t.columns, rows)
  }

  function EnhancedCell(t: Frame, i: nat, j: nat, nums: Numerics): Cell
    requires i < |t.rows| && j < |t.columns|
  {
    if Promoted(t, j, EnhanceKeys) then Coerce(t.rows[i][j], nums) else t.rows[i][j]
  }

  /** The frame `_enhance_numeric_conversion` leaves: same labels, same rows,
      columns it does not promote untouched, columns it promotes numeric. */
  function EnhanceNumericSpec(t: Frame, nums: Numerics): (r: Frame)
    ensures r.columns == t.columns && |r.rows| == |t.rows|
    ensures forall i, j :: 0 <= i < |t.rows| && 0 <= j < |t.columns| && !Promoted(t, j, EnhanceKeys) ==>
      r.rows[i][j] == t.rows[i][j]
    ensures forall i, j :: 0 <= i < |t.rows| && 0 <= j < |t.columns| && Promoted(t, j, EnhanceKeys) ==>
      IsNumeric(r.rows[i][j])
  {
    var rows := seq(|t.rows|, i requires 0 <= i < |t.rows| =>
      seq(|t.columns|, j requires 0 <= j < |t.columns| => EnhancedCell(t, i, j, nums)));
    Table(t.columns, rows)
  }

  /** Every label the first pass promotes, the second pass promotes too. */
  lemma ConvertKeysWithinEnhanceKeys(name: string)
    requires NameMatches(name, ConvertKeys)
    ensures NameMatches(name, EnhanceKeys)
  {
    var k :| k in ConvertKeys && Contains(Lower(name), k);
    assert k in EnhanceKeys;
  }

  /** The second pass is idempotent. */
  lemma EnhanceIdempotent(t: Frame, nums: Numerics)
    ensures EnhanceNumericSpec(EnhanceNumericSpec(t, nums), nums) == EnhanceNumericSpec(t, nums)
  {
    var once := EnhanceNumericSpec(t, nums);
    var twice := EnhanceNumericSpec(once, nums);
    forall i | 0 <= i < |t.rows| ensures twice.rows[i] == once.rows[i] {
      assert |twice.rows[i]| == |once.rows[i]|;
      forall j | 0 <= j < |t.columns| ensures twice.rows[i][j] == once.rows[i][j] {
        if Promoted(once, j, EnhanceKeys) {
          assert IsNumeric(once.rows[i][j]);
        }
      }
    }
  }

  /** On every column the first pass promoted, the second pass changes nothing. */
  lemma EnhanceKeepsConverted(t: Frame, nums: Numerics, i: nat, j: nat)
    requires i < |t.rows| && j < |t.columns| && Promoted(t, j, ConvertKeys)
    ensures EnhanceNumericSpec(ConvertNumericSpec(t, nums), nums).rows[i][j] == ConvertNumericSpec(t, nums).rows[i][j]
  {
    var c := ConvertNumericSpec(t, nums);
    assert IsNumeric(c.rows[i][j]);
  }

  /** A column labelled `Total_Vendas` holding `1.234,56`, `1000` and `n/a`:
      the direct read fails on the first value, so the whole column takes the
      cleaned read, where `1.234,56` becomes `1.234.56`, which pandas rejects;
      the rows are all kept, two of them null. */
  lemma TotalVendasExample(nums: Numerics)
    requires nums.toNumber("1.234,56").None?
    requires nums.toNumber("1.234.56").None? && nums.toNumber("1000") == Some(1000.0) && nums.toNumber("").None?
    ensures var t: Frame := Table(["Total_Vendas"], [[Str("1.234,56")], [Str("1000")], [Str("n/a")]]);
      var r := EnhanceNumericSpec(ConvertNumericSpec(t, nums), nums);
      r.columns == t.columns && r.rows == [[Null], [Num(1000.0)], [Null]]
  {
    var t: Frame := Table(["Total_Vendas"], [[Str("1.234,56")], [Str("1000")], [Str("n/a")]]);
    TotalVendasConverted(t, nums);
    EnhanceKeepsColumn(ConvertNumericSpec(t, nums), t, nums);
  }

  /** When the first pass promoted the only column of a frame, the second
      pass returns the first pass's rows. */
  lemma EnhanceKeepsColumn(c: Frame, t: Frame, nums: Numerics)
    requires |t.columns| == 1 && Promoted(t, 0, ConvertKeys)
    requires c == ConvertNumericSpec(t, nums)
    ensures EnhanceNumericSpec(c, nums).rows == c.rows
  {
    var r := EnhanceNumericSpec(c, nums);
    forall i | 0 <= i < |t.rows| ensures r.rows[i] == c.rows[i] {
      EnhanceKeepsRow(c, t, nums, i);
    }
  }

  /** One row of a one-column frame whose column the first pass promoted. */
  lemma EnhanceKeepsRow(c: Frame, t: Frame, nums: Numerics, i: nat)
    requires |t.columns| == 1 && i < |t.rows| && Promoted(t, 0, ConvertKeys)
    requires c == ConvertNumericSpec(t, nums)
    ensures EnhanceNumericSpec(c, nums).rows[i] == c.rows[i]
  {
    EnhanceKeepsConverted(t, nums, i, 0);
    var r := EnhanceNumericSpec(c, nums);
    assert |r.rows[i]| == 1 == |c.rows[i]|;
  }

  lemma TotalVendasConverted(t: Frame, nums: Numerics)
    requires t == Table(["Total_Vendas"], [[Str("1.234,56")], [Str("1000")], [Str("n/a")]])
    requires nums.toNumber("1.234,56").None?
    requires nums.toNumber("1.234.56").None? && nums.toNumber("1000") == Some(1000.0) && nums.toNumber("").None?
    ensures Promoted(t, 0, ConvertKeys)
    ensures ConvertNumericSpec(t, nums).rows == [[Null], [Num(1000.0)], [Null]]
  {
    TotalVendasPromoted(t);
    assert !AllDirect(Column(t, 0), nums) by {
      assert !DirectNumber(Column(t, 0)[0], nums).Some?;
    }
    TotalVendasCells(t, nums);
    ConvertedRows(t, nums);
  }

  /** A one-column frame's converted rows are its converted cells. */
  lemma ConvertedRows(t: Frame, nums: Numerics)
    requires |t.columns| == 1 && |t.rows| == 3
    ensures ConvertNumericSpec(t, nums).rows ==
      [[ConvertedCell(t, 0, 0, nums)], [ConvertedCell(t, 1, 0, nums)], [ConvertedCell(t, 2, 0, nums)]]
  {
    var c := ConvertNumericSpec(t, nums);
    assert c.rows[0] == [ConvertedCell(t, 0, 0, nums)];
    assert c.rows[1] == [ConvertedCell(t, 1, 0, nums)];
    assert c.rows[2] == [ConvertedCell(t, 2, 0, nums)];
  }

  lemma TotalVendasCells(t: Frame, nums: Numerics)
    requires t == Table(["Total_Vendas"], [[Str("1.234,56")], [Str("1000")], [Str("n/a")]])
    requires nums.toNumber("1.234.56").None? && nums.toNumber("1000") == Some(1000.0) && nums.toNumber("").None?
    requires Promoted(t, 0, ConvertKeys) && !AllDirect(Column(t, 0), nums)
    ensures ConvertedCell(t, 0, 0, nums) == Null
    ensures ConvertedCell(t, 1, 0, nums) == Num(1000.0)
    ensures ConvertedCell(t, 2, 0, nums) == Null
  {
    CleanedExamples();
  }

  lemma TotalVendasPromoted(t: Frame)
    requires t.columns == ["Total_Vendas"]
    ensures Promoted(t, 0, ConvertKeys)
  {
    assert Lower("Total_Vendas")[0..5] == "total";
    assert OccursAt(Lower("Total_Vendas"), "total", 0);
    assert "total" in ConvertKeys;
  }

  lemma CleanedExamples()
    ensures CleanDecimal("1.234,56") == "1.234.56"
    ensures CleanDecimal("1000") == "1000"
    ensures CleanDecimal("n/a") == ""
  {
    CleanedThousands("1.234,56");
    CleanedPlain();
    CleanedNothing();
  }

  lemma CleanedThousands(s: string)
    requires s == "1.234,56"
    ensures CleanDecimal(s) == "1.234.56"
  {
    KeepAllKept(s, IsDecimalChar);
    var r := CommaToDot(s);
    assert r == [s[0], s[1], s[2], s[3], s[4], '.', s[6], s[7]];
  }

  lemma CleanedPlain()
    ensures CleanDecimal("1000") == "1000"
  {
    KeepAllKept("1000", IsDecimalChar);
    assert CommaToDot("1000") == "1000";
  }

  lemma CleanedNothing()
    ensures CleanDecimal("n/a") == ""
  {
    KeepNoneKept("n/a", IsDecimalChar);
    assert CommaToDot("") == "";
  }
}
