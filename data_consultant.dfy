/** The data consultant: it refuses blank and unfiltered destructive queries,
    answers repeated queries from a process-wide cache, runs the others on the
    store, shapes the result for the requested chart, promotes quantity
    columns to numbers and caches what it processed. */
module DataConsultant {
  import opened Wrappers
  import opened Text
  import opened Frames
  import opened Shaping

  /** How running a query on the store can fail: an error raised by `sqlite3`
      itself (opening the database), or any other error (pandas reports a
      failing statement with an error of its own). */
  datatype StoreError = SqliteError(message: string) | OtherError(message: string)

  /** The messages the agent shows next to its result. */
  datatype Diagnostic =
    | InvalidQuery
    | DangerousStatement(verb: string)
    | CacheHit
    | DatabaseError(message: string, query: string)
    | UnexpectedError(message: string)

  /** Statement openings the gate refuses without a `WHERE` (each with its trailing blank). */
  const Forbidden: seq<string> := ["DROP ", "DELETE ", "UPDATE "]

  /** The same openings as a refusal names them, `stmt.strip()`. */
  const ForbiddenVerbs: seq<string> := ["DROP", "DELETE", "UPDATE"]

  /** Each name in a refusal is its opening with the surrounding blanks stripped. */
  lemma VerbsAreStripped()
    ensures |ForbiddenVerbs| == |Forbidden|
    ensures forall k :: 0 <= k < |Forbidden| ==> ForbiddenVerbs[k] == Strip(Forbidden[k])
  {
    var f := Forbidden;
    StripAround([], ForbiddenVerbs[0], " ");
    StripAround([], ForbiddenVerbs[1], " ");
    StripAround([], ForbiddenVerbs[2], " ");
    assert [] + ForbiddenVerbs[0] + " " == f[0];
    assert [] + ForbiddenVerbs[1] + " " == f[1];
    assert [] + ForbiddenVerbs[2] + " " == f[2];
  }

  // ------------------------------------------------------------- the gate

  /** The gate's test for one opening on the stripped, upper-cased query. */
  predicate Flags(upper: string, stmt: string) {
    StartsWith(upper, stmt) && !Contains(upper, "WHERE")
  }

  /** The index of the first of `stmts` the query is refused for, in list order. */
  function FirstFlagged(upper: string, stmts: seq<string>): (r: Option<nat>)
    ensures r.None? <==> forall k :: 0 <= k < |stmts| ==> !Flags(upper, stmts[k])
    ensures r.Some? ==> r.value < |stmts| && Flags(upper, stmts[r.value])
    ensures r.Some? ==> forall k :: 0 <= k < r.value ==> !Flags(upper, stmts[k])
  {
    if stmts == [] then None
    else if Flags(upper, stmts[0]) then Some(0)
    else
      var r := FirstFlagged(upper, stmts[1..]);
      assert forall k :: 1 <= k < |stmts| ==> stmts[k] == stmts[1..][k - 1];
      if r.Some? then Some(r.value + 1) else None
  }

  /** The text the gate inspects: `query.strip().upper()`. */
  function GateText(query: string): string {
    Upper(Strip(query))
  }

  /** Why the query is refused before the cache is consulted, if it is: a
      blank query is invalid, and a non-blank query is refused exactly when
      one of the forbidden openings flags it, naming that statement. */
  function Refusal(query: string): (r: Option<Diagnostic>)
    ensures r == Some(InvalidQuery) <==> IsBlank(query)
    ensures r.Some? && !IsBlank(query) ==>
              exists k :: 0 <= k < |Forbidden| && Flags(GateText(query), Forbidden[k]) &&
                          (forall j :: 0 <= j < k ==> !Flags(GateText(query), Forbidden[j])) &&
                          r.value == DangerousStatement(ForbiddenVerbs[k])
    ensures r.None? <==> !IsBlank(query) && forall k :: 0 <= k < |Forbidden| ==> !Flags(GateText(query), Forbidden[k])
  {
    if IsBlank(query) then Some(InvalidQuery)
    else match FirstFlagged(GateText(query), Forbidden)
      case Some(k) => Some(DangerousStatement(ForbiddenVerbs[k]))
      case None => None
  }

  /** A query whose upper-cased text contains `WHERE` anywhere, even inside
      another word or a string literal, passes the gate unless it is blank. */
  lemma WherePasses(query: string)
    requires !IsBlank(query) && Contains(GateText(query), "WHERE")
    ensures Refusal(query).None?
  {
  }

  /** The three openings exclude each other, so at most one can flag a query. */
  lemma AtMostOneOpening(upper: string, k: nat, m: nat)
    requires k < m < |Forbidden|
    ensures !StartsWith(upper, Forbidden[k]) || !StartsWith(upper, Forbidden[m])
  {
    var f := Forbidden;
    if StartsWith(upper, f[k]) && |f[m]| <= |upper| {
      var p := upper[..|f[m]|];
      assert upper[0] == f[k][0] && upper[1] == f[k][1] by {
        assert upper[..|f[k]|][0] == upper[0] && upper[..|f[k]|][1] == upper[1];
      }
      assert f[m][0] != f[k][0] || f[m][1] != f[k][1];
      assert p[0] != f[m][0] || p[1] != f[m][1];
    }
  }

  // --------------------------------------------------------- the pipeline

  /** The full promotion step: `_convert_numeric_columns`, then
      `_enhance_numeric_conversion`. */
  function Promote(t: Frame, nums: Numerics): (r: Frame)
    ensures r.columns == t.columns && |r.rows| == |t.rows|
  {
    EnhanceNumericSpec(ConvertNumericSpec(t, nums), nums)
  }

  /** `if visualization:` */
  predicate Truthy(vis: Option<string>) {
    vis.Some? && vis.value != ""
  }

  /** What `run_query` does to a non-empty result: shaping for the requested
      chart, then promotion. It fails only where pie shaping raises. */
  function Process(t: Frame, vis: Option<string>, nums: Numerics): (r: Result<Frame, string>)
    ensures r.Err? <==> vis == Some("pie") && |t.columns| == 2 &&
                         exists i :: 0 <= i < |t.rows| && PieValue(t.rows[i][1], nums).None?
    ensures r.Ok? ==> |r.value.rows| <= |t.rows|
    ensures !Truthy(vis) ==> r.Ok? && r.value.columns == t.columns && |r.value.rows| == |t.rows|
    ensures r.Ok? && vis == Some("pie") && |t.columns| == 2 ==>
              r.value.columns == PieColumns && NonIncreasing(r.value.rows) &&
              forall i :: 0 <= i < |r.value.rows| ==> IsPositiveRow(r.value.rows[i])
  {
    if vis == Some("pie") && |t.columns| == 2 then
      match PrepareChartData(t, nums)
      case Err(m) => Err(m)
      case Ok(chart) =>
        assert |chart.rows| <= |t.rows| by {
          PieRowsBound(t, chart, nums);
        }
        PromotionKeepsChart(chart, nums);
        Ok(Promote(chart, nums))
    else if Truthy(vis) then Ok(Promote(PrepareVisualizationData(t, nums), nums))
    else Ok(Promote(t, nums))
  }

  /** Pie shaping never adds rows. */
  lemma PieRowsBound(t: Frame, chart: Frame, nums: Numerics)
    requires |t.columns| == 2 && PrepareChartData(t, nums) == Ok(chart)
    ensures |chart.rows| <= |t.rows|
  {
    var converted := PieRows(t.rows, nums).value;
    var positive := KeepPositive(converted);
    assert multiset(chart.rows) == multiset(positive) by {
      forall row ensures multiset(chart.rows)[row] == multiset(positive)[row] {
      }
    }
    assert |chart.rows| == |multiset(chart.rows)| == |multiset(positive)| == |positive|;
    KeepPositiveBound(converted);
  }

  lemma {:induction false} KeepPositiveBound(rows: seq<seq<Cell>>)
    ensures |KeepPositive(rows)| <= |rows|
  {
    if rows != [] {
      KeepPositiveBound(rows[1..]);
    }
  }

  /** The promotion passes leave a shaped pie frame as it is: `categoria`
      carries none of the quantity fragments, and `valor` is numeric already. */
  lemma PromotionKeepsChart(t: Frame, nums: Numerics)
    requires t.columns == PieColumns
    requires forall i :: 0 <= i < |t.rows| ==> IsPieRow(t.rows[i])
    ensures Promote(t, nums) == t
  {
    CategoriaIsNoQuantity();
    var c := ConvertNumericSpec(t, nums);
    assert AllDirect(Column(t, 1), nums);
    forall i | 0 <= i < |t.rows| ensures c.rows[i] == t.rows[i] {
      assert c.rows[i][0] == t.rows[i][0];
      assert c.rows[i][1] == t.rows[i][1];
    }
    assert c == t;
    var e := EnhanceNumericSpec(c, nums);
    forall i | 0 <= i < |t.rows| ensures e.rows[i] == t.rows[i] {
      assert e.rows[i][0] == t.rows[i][0];
      assert e.rows[i][1] == t.rows[i][1];
    }
  }

  /** No quantity fragment of either pass occurs in `categoria`. */
  lemma CategoriaIsNoQuantity()
    ensures !NameMatches("categoria", EnhanceKeys)
    ensures !NameMatches("categoria", ConvertKeys)
  {
    var low := Lower("categoria");
    assert low == "categoria";
    CategoriaNoEnhanceKey(low);
    CategoriaNoConvertKey(low);
  }

  lemma CategoriaNoConvertKey(low: string)
    requires low == "categoria"
    ensures forall k :: k in ConvertKeys ==> !Contains(low, k)
  {
    NoCharNoContains(low, "valor", 'v');
    NoCharNoContains(low, "total", 'l');
    NoCharNoContains(low, "count", 'n');
    NoCharNoContains(low, "soma", 's');
  }

  lemma CategoriaNoEnhanceKey(low: string)
    requires low == "categoria"
    ensures forall k :: k in EnhanceKeys ==> !Contains(low, k)
  {
    CategoriaNoConvertKey(low);
    NoCharNoContains(low, "sum", 's');
    NoCharNoContains(low, "amount", 'm');
    NoCharNoContains(low, "quant", 'q');
    NoCharNoContains(low, "qtd", 'q');
    NoCharNoContains(low, "num", 'n');
  }

  /** How one call of `run_query` ends. */
  datatype Outcome =
    | Refused(reason: Diagnostic)   // blank or unfiltered destructive query
    | FromCache(frame: Frame)       // answered from the cache
    | NoRows(frame: Frame)          // the store returned an empty frame
    | Processed(frame: Frame)       // shaped, promoted and cached
    | Failed(reason: Diagnostic)    // the store or the shaping raised

  /** `run_query(query, visualization)` against the cache `cache` and a
      store that answers `store(query)`: the gate first, then the cache, and
      only then the store. */
  function Run(query: string, vis: Option<string>, cache: map<string, Frame>,
               store: string -> Result<Frame, StoreError>, nums: Numerics): (o: Outcome)
    ensures o.Refused? <==> Refusal(query).Some?
    ensures o.Refused? ==> o.reason == Refusal(query).value
    ensures o.FromCache? <==> Refusal(query).None? && query in cache
    ensures o.FromCache? ==> o.frame == cache[query]
    ensures CallsStore(o) <==> Refusal(query).None? && query !in cache
  {
    match Refusal(query)
    case Some(d) => Refused(d)
    case None =>
      if query in cache then FromCache(cache[query]) else Answer(query, vis, store(query), nums)
  }

  /** How the `try` block ends once the store has answered: an empty frame
      is returned as it is, any other is shaped, and a database error keeps
      the query that caused it. */
  function Answer(query: string, vis: Option<string>, answer: Result<Frame, StoreError>, nums: Numerics): (o: Outcome)
    ensures CallsStore(o)
    ensures o.NoRows? <==> answer.Ok? && IsEmpty(answer.value)
    ensures o.NoRows? ==> o.frame == answer.value
    ensures o.Processed? <==> answer.Ok? && !IsEmpty(answer.value) && Process(answer.value, vis, nums).Ok?
    ensures o.Processed? ==> o.frame == Process(answer.value, vis, nums).value
    ensures answer.Err? ==> o.Failed? && (o.reason == DatabaseError(answer.error.message, query) <==> answer.error.SqliteError?)
    ensures answer.Err? && answer.error.OtherError? ==> o.reason == UnexpectedError(answer.error.message)
    ensures o.Failed? && answer.Ok? ==> o.reason == UnexpectedError(Process(answer.value, vis, nums).error)
  {
    match answer
    case Err(SqliteError(m)) => Failed(DatabaseError(m, query))
    case Err(OtherError(m)) => Failed(UnexpectedError(m))
    case Ok(df) =>
      if IsEmpty(df) then NoRows(df)
      else match Process(df, vis, nums)
        case Err(m) => Failed(UnexpectedError(m))
        case Ok(r) => Processed(r)
  }

  /** The frame the caller receives: an empty frame on refusal and failure. */
  function Returned(o: Outcome): Frame {
    match o
    case Refused(_) => EmptyFrame
    case Failed(_) => EmptyFrame
    case FromCache(f) => f
    case NoRows(f) => f
    case Processed(f) => f
  }

  /** The cache after the call: only a processed result is inserted. */
  function NextCache(cache: map<string, Frame>, query: string, o: Outcome): map<string, Frame> {
    if o.Processed? then cache[query := o.frame] else cache
  }

  /** The messages the call adds. */
  function Notes(o: Outcome): seq<Diagnostic> {
    match o
    case Refused(d) => [d]
    case Failed(d) => [d]
    case FromCache(_) => [CacheHit]
    case _ => []
  }

  /** Whether the call reached the store. */
  predicate CallsStore(o: Outcome) {
    o.NoRows? || o.Processed? || o.Failed?
  }

  /** A refused query returns an empty frame, adds the refusal and touches
      neither the cache nor the store. */
  lemma RefusedRun(query: string, vis: Option<string>, cache: map<string, Frame>,
                   store: string -> Result<Frame, StoreError>, nums: Numerics, d: Diagnostic)
    requires Refusal(query) == Some(d)
    ensures var o := Run(query, vis, cache, store, nums);
      Returned(o) == EmptyFrame && NextCache(cache, query, o) == cache && Notes(o) == [d] && !CallsStore(o)
  {
    assert Run(query, vis, cache, store, nums) == Refused(d);
  }

  /** A cached query that passes the gate returns the cached frame, notes the
      hit and touches neither the cache nor the store. */
  lemma CachedRun(query: string, vis: Option<string>, cache: map<string, Frame>,
                  store: string -> Result<Frame, StoreError>, nums: Numerics)
    requires Refusal(query).None? && query in cache
    ensures var o := Run(query, vis, cache, store, nums);
      Returned(o) == cache[query] && NextCache(cache, query, o) == cache && Notes(o) == [CacheHit] && !CallsStore(o)
  {
    assert Run(query, vis, cache, store, nums) == FromCache(cache[query]);
  }

  /** Any other query ends as the store's answer does. */
  lemma AnsweredRun(query: string, vis: Option<string>, cache: map<string, Frame>,
                    store: string -> Result<Frame, StoreError>, nums: Numerics)
    requires Refusal(query).None? && query !in cache
    ensures Run(query, vis, cache, store, nums) == Answer(query, vis, store(query), nums)
  {
  }

  /** A blank query is refused with an empty result; the store is not called
      and the cache does not change. */
  lemma BlankQueryRefused(query: string, vis: Option<string>, cache: map<string, Frame>,
                          store: string -> Result<Frame, StoreError>, nums: Numerics)
    requires forall i :: 0 <= i < |query| ==> IsSpace(query[i])
    ensures var o := Run(query, vis, cache, store, nums);
      o == Refused(InvalidQuery) && Returned(o) == EmptyFrame && !CallsStore(o) && NextCache(cache, query, o) == cache
  {
    BlankIff(query);
  }

  /** The gate refuses exactly the blank queries and those that open with a
      forbidden statement and lack `WHERE`; refused queries reach neither the
      cache nor the store. */
  lemma GateIff(query: string, vis: Option<string>, cache: map<string, Frame>,
                store: string -> Result<Frame, StoreError>, nums: Numerics)
    ensures var o := Run(query, vis, cache, store, nums);
      o.Refused? <==> IsBlank(query) || exists k :: 0 <= k < |Forbidden| && Flags(GateText(query), Forbidden[k])
    ensures var o := Run(query, vis, cache, store, nums);
      o.Refused? ==> Returned(o) == EmptyFrame && !CallsStore(o) && NextCache(cache, query, o) == cache
  {
    match Refusal(query)
    case Some(d) =>
      RefusedRun(query, vis, cache, store, nums, d);
    case None =>
      if query in cache {
        CachedRun(query, vis, cache, store, nums);
      } else {
        AnsweredRun(query, vis, cache, store, nums);
      }
  }

  /** A cached query is answered with the cached frame, whatever the store
      now holds and whatever chart is requested; nothing is shaped again. */
  lemma CacheHitIgnoresStore(query: string, vis1: Option<string>, vis2: Option<string>,
                             cache: map<string, Frame>,
                             store1: string -> Result<Frame, StoreError>,
                             store2: string -> Result<Frame, StoreError>, nums: Numerics)
    requires query in cache && Refusal(query).None?
    ensures Run(query, vis1, cache, store1, nums) == Run(query, vis2, cache, store2, nums) == FromCache(cache[query])
    ensures Returned(Run(query, vis1, cache, store1, nums)) == cache[query]
  {
  }

  /** Asking the same query twice gives the same frame the second time, even
      when the store has changed in between. */
  lemma RepeatedQueryStable(query: string, vis: Option<string>, cache: map<string, Frame>,
                            store1: string -> Result<Frame, StoreError>,
                            store2: string -> Result<Frame, StoreError>, nums: Numerics)
    requires Run(query, vis, cache, store1, nums).Processed?
    ensures var first := Run(query, vis, cache, store1, nums);
      Run(query, vis, NextCache(cache, query, first), store2, nums) == FromCache(Returned(first))
  {
  }

  /** The cache only grows: an entry, once stored, is never replaced, and
      only the query itself can be added. */
  lemma CacheOnlyGrows(query: string, vis: Option<string>, cache: map<string, Frame>,
                       store: string -> Result<Frame, StoreError>, nums: Numerics)
    ensures var next := NextCache(cache, query, Run(query, vis, cache, store, nums));
      (forall q :: q in cache ==> q in next && next[q] == cache[q]) &&
      (forall q :: q in next && q !in cache ==> q == query && next[q] == Returned(Run(query, vis, cache, store, nums)))
  {
    var o := Run(query, vis, cache, store, nums);
    ProcessedWasMissing(query, vis, cache, store, nums);
    NextCacheGrows(cache, query, o);
  }

  /** Only a query the cache lacks is processed. */
  lemma ProcessedWasMissing(query: string, vis: Option<string>, cache: map<string, Frame>,
                            store: string -> Result<Frame, StoreError>, nums: Numerics)
    ensures Run(query, vis, cache, store, nums).Processed? ==> query !in cache
  {
  }

  /** Storing the outcome of a query the cache lacks keeps every entry and
      adds at most that query. */
  lemma NextCacheGrows(cache: map<string, Frame>, query: string, o: Outcome)
    requires o.Processed? ==> query !in cache
    ensures var next := NextCache(cache, query, o);
      (forall q :: q in cache ==> q in next && next[q] == cache[q]) &&
      (forall q :: q in next && q !in cache ==> q == query && next[q] == Returned(o))
  {
    if o.Processed? {
      assert NextCache(cache, query, o) == cache[query := Returned(o)];
    } else {
      assert NextCache(cache, query, o) == cache;
    }
  }

  /** Whatever is stored is non-empty from the store and fully processed, and
      is what the caller receives. */
  lemma StoredIsProcessed(query: string, vis: Option<string>, cache: map<string, Frame>,
                          store: string -> Result<Frame, StoreError>, nums: Numerics)
    requires query !in cache
    requires query in NextCache(cache, query, Run(query, vis, cache, store, nums))
    ensures store(query).Ok? && !IsEmpty(store(query).value)
    ensures Process(store(query).value, vis, nums) == Ok(NextCache(cache, query, Run(query, vis, cache, store, nums))[query])
  {
  }

  /** The app's path (no chart requested): a non-empty answer from the store
      is promoted and cached, with its labels and its row count. */
  lemma AppPath(query: string, cache: map<string, Frame>,
                store: string -> Result<Frame, StoreError>, nums: Numerics)
    requires Refusal(query).None? && query !in cache
    requires store(query).Ok? && !IsEmpty(store(query).value)
    ensures var o := Run(query, None, cache, store, nums);
      o == Processed(Promote(store(query).value, nums)) &&
      o.frame.columns == store(query).value.columns && |o.frame.rows| == |store(query).value.rows|
  {
  }

  // ------------------------------------------------ the promotion loops

  /** `t` with column `j` replaced by `col`. */
  function SetColumn(t: Frame, j: nat, col: seq<Cell>): (r: Frame)
    requires j < |t.columns| && |col| == |t.rows|
    ensures r.columns == t.columns && |r.rows| == |t.rows|
    ensures forall i, k :: 0 <= i < |t.rows| && 0 <= k < |t.columns| ==>
      r.rows[i][k] == if k == j then col[i] else t.rows[i][k]
  {
    Table(t.columns, seq(|t.rows|, i requires 0 <= i < |t.rows| => t.rows[i][j := col[i]]))
  }

  /** The column as the first pass leaves a promoted column: the direct read
      when every cell takes it, otherwise the cleaned lenient read. */
  function ConvertColumn(col: seq<Cell>, nums: Numerics): (r: seq<Cell>)
    ensures |r| == |col|
    ensures forall i :: 0 <= i < |col| ==> IsNumeric(r[i])
  {
    if AllDirect(col, nums) then seq(|col|, i requires 0 <= i < |col| => DirectNumber(col[i], nums).value)
    else seq(|col|, i requires 0 <= i < |col| => CleanCoerce(col[i], nums))
  }

  /** `pd.to_numeric(..., errors='coerce')` on a whole column. */
  function CoerceColumn(col: seq<Cell>, nums: Numerics): (r: seq<Cell>)
    ensures |r| == |col|
    ensures forall i :: 0 <= i < |col| ==> r[i] == Coerce(col[i], nums)
  {
    seq(|col|, i requires 0 <= i < |col| => Coerce(col[i], nums))
  }

  /** A promoted column, converted whole, holds the first pass's cells. */
  lemma ConvertColumnCells(t: Frame, j: nat, nums: Numerics)
    requires j < |t.columns| && Promoted(t, j, ConvertKeys)
    ensures forall i :: 0 <= i < |t.rows| ==> ConvertColumn(Column(t, j), nums)[i] == ConvertedCell(t, i, j, nums)
  {
    var col := Column(t, j);
    var r := ConvertColumn(col, nums);
    forall i | 0 <= i < |t.rows| ensures r[i] == ConvertedCell(t, i, j, nums) {
      assert col[i] == t.rows[i][j];
    }
  }

  /** A promoted column, coerced whole, holds the second pass's cells. */
  lemma CoerceColumnCells(t: Frame, j: nat, nums: Numerics)
    requires j < |t.columns| && Promoted(t, j, EnhanceKeys)
    ensures forall i :: 0 <= i < |t.rows| ==> CoerceColumn(Column(t, j), nums)[i] == EnhancedCell(t, i, j, nums)
  {
  }

  /** `_convert_numeric_columns`: one pass over the labels, rewriting each
      promoted column in place. */
  method ConvertNumericColumns(t: Frame, nums: Numerics) returns (r: Frame)
    ensures r == ConvertNumericSpec(t, nums)
  {
    r := t;
    for j := 0 to |t.columns|
      invariant r.columns == t.columns && |r.rows| == |t.rows|
      invariant forall i, k :: 0 <= i < |t.rows| && 0 <= k < j ==> r.rows[i][k] == ConvertedCell(t, i, k, nums)
      invariant forall i, k :: 0 <= i < |t.rows| && j <= k < |t.columns| ==> r.rows[i][k] == t.rows[i][k]
    {
      ghost var before := r;
      if NameMatches(t.columns[j], ConvertKeys) && Occurrences(r.columns, r.columns[j]) == 1 {
        assert Column(r, j) == Column(t, j);
        ConvertColumnCells(t, j, nums);
        r := SetColumn(r, j, ConvertColumn(Column(r, j), nums));
      } else {
        assert !Promoted(t, j, ConvertKeys);
      }
      forall i, k | 0 <= i < |t.rows| && 0 <= k < j ensures r.rows[i][k] == ConvertedCell(t, i, k, nums) {
        assert r.rows[i][k] == before.rows[i][k];
      }
    }
    SameFrame(r, ConvertNumericSpec(t, nums));
  }

  /** `_enhance_numeric_conversion`: the lenient read on every promoted column. */
  method EnhanceNumericConversion(t: Frame, nums: Numerics) returns (r: Frame)
    ensures r == EnhanceNumericSpec(t, nums)
  {
    r := t;
    for j := 0 to |t.columns|
      invariant r.columns == t.columns && |r.rows| == |t.rows|
      invariant forall i, k :: 0 <= i < |t.rows| && 0 <= k < j ==> r.rows[i][k] == EnhancedCell(t, i, k, nums)
      invariant forall i, k :: 0 <= i < |t.rows| && j <= k < |t.columns| ==> r.rows[i][k] == t.rows[i][k]
    {
      ghost var before := r;
      if NameMatches(t.columns[j], EnhanceKeys) && Occurrences(r.columns, r.columns[j]) == 1 {
        assert Column(r, j) == Column(t, j);
        CoerceColumnCells(t, j, nums);
        r := SetColumn(r, j, CoerceColumn(Column(r, j), nums));
      } else {
        assert !Promoted(t, j, EnhanceKeys);
      }
      forall i, k | 0 <= i < |t.rows| && 0 <= k < j ensures r.rows[i][k] == EnhancedCell(t, i, k, nums) {
        assert r.rows[i][k] == before.rows[i][k];
      }
    }
    SameFrame(r, EnhanceNumericSpec(t, nums));
  }

  /** Two frames with the same labels and the same cells are equal. */
  lemma SameFrame(a: Frame, b: Frame)
    requires a.columns == b.columns && |a.rows| == |b.rows|
    requires forall i, k :: 0 <= i < |a.rows| && 0 <= k < |a.columns| ==> a.rows[i][k] == b.rows[i][k]
    ensures a == b
  {
    forall i | 0 <= i < |a.rows| ensures a.rows[i] == b.rows[i] {
    }
  }

  /** The validation at the head of `run_query`: the blank check, then one
      pass over the forbidden openings that stops at the first that flags. */
  method CheckQuery(query: string) returns (refusal: Option<Diagnostic>)
    ensures refusal == Refusal(query)
  {
    if IsBlank(query) {
      return Some(InvalidQuery);
    }
    var upper := Upper(Strip(query));
    for k := 0 to |Forbidden|
      invariant forall m :: 0 <= m < k ==> !Flags(upper, Forbidden[m])
    {
      if StartsWith(upper, Forbidden[k]) && !Contains(upper, "WHERE") {
        return Some(DangerousStatement(ForbiddenVerbs[k]));
      }
    }
    return None;
  }

  /** The body of the `try` after a non-empty read: chart shaping, then the
      two promotion passes, each rewriting the frame in turn. */
  method ProcessFrame(t: Frame, vis: Option<string>, nums: Numerics) returns (r: Result<Frame, string>)
    ensures r == Process(t, vis, nums)
  {
    var df := t;
    if vis == Some("pie") && |df.columns| == 2 {
      var chart := PrepareChartData(df, nums);
      if chart.Err? {
        return Err(chart.error);
      }
      df := chart.value;
    } else if Truthy(vis) {
      df := PrepareVisualizationData(df, nums);
    }
    df := ConvertNumericColumns(df, nums);
    df := EnhanceNumericConversion(df, nums);
    return Ok(df);
  }

  // ------------------------------------------------------------ the agent

  class DataConsultantAgent {
    /** `_query_cache`, keyed by the query text. */
    var cache: map<string, Frame>
    /** The messages shown so far. */
    var diagnostics: seq<Diagnostic>
    /** The queries sent to the store so far. */
    ghost var executed: seq<string>

    constructor()
      ensures cache == map[] && diagnostics == [] && executed == []
    {
      cache := map[];
      diagnostics := [];
      executed := [];
    }

    /** `run_query`: the result, the new cache, the messages and the store
        calls are those of `Run`. */
    method RunQuery(query: string, vis: Option<string>, store: string -> Result<Frame, StoreError>, nums: Numerics)
      returns (df: Frame)
      modifies this
      ensures var o := Run(query, vis, old(cache), store, nums);
        df == Returned(o) && cache == NextCache(old(cache), query, o) &&
        diagnostics == old(diagnostics) + Notes(o) &&
        executed == old(executed) + (if CallsStore(o) then [query] else [])
    {
      var refusal := CheckQuery(query);
      if refusal.Some? {
        RefusedRun(query, vis, cache, store, nums, refusal.value);
        diagnostics := diagnostics + [refusal.value];
        return EmptyFrame;
      }
      if query in cache {
        CachedRun(query, vis, cache, store, nums);
        diagnostics := diagnostics + [CacheHit];
        return cache[query];
      }
      AnsweredRun(query, vis, cache, store, nums);
      df := Execute(query, vis, store, nums);
    }

    /** The `try` block of `run_query`, for a query the cache does not hold:
        read from the store, shape, promote and cache. */
    method Execute(query: string, vis: Option<string>, store: string -> Result<Frame, StoreError>, nums: Numerics)
      returns (df: Frame)
      modifies this
      ensures var o := Answer(query, vis, store(query), nums);
        df == Returned(o) && cache == NextCache(old(cache), query, o) &&
        diagnostics == old(diagnostics) + Notes(o) && executed == old(executed) + [query]
    {
      executed := executed + [query];
      var answer := store(query);
      if answer.Err? {
        var d := if answer.error.SqliteError? then DatabaseError(answer.error.message, query)
                 else UnexpectedError(answer.error.message);
        diagnostics := diagnostics + [d];
        return EmptyFrame;
      }
      df := answer.value;
      if IsEmpty(df) {
        return df;
      }
      var processed := ProcessFrame(df, vis, nums);
      if processed.Err? {
        diagnostics := diagnostics + [UnexpectedError(processed.error)];
        return EmptyFrame;
      }
      df := processed.value;
      cache := cache[query := df];
    }

  }
}
