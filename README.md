# Smart data agent: a verified model of its query pipeline

The application turns a Portuguese request ("total de vendas por categoria
como gráfico de pizza") into SQL and runs it on an SQLite database of
customers, purchases and support tickets. Two agents do the work:

- the **natural-language agent** (`agents/natural_language.py`) finds the
  month, the year and the chart type named in the request, routes requests
  about support tickets or purchases to fixed SQL templates, and otherwise
  asks a language model, whose reply it cleans of code fences and of two
  alias slips before falling back to `SELECT 1`;
- the **data consultant** (`agents/data_consultant.py`) refuses blank and
  unfiltered destructive queries, answers repeated queries from a
  process-wide cache, runs the others on the store, shapes the result for a
  pie chart or another chart, promotes quantity columns to numbers, and
  caches what it processed.

The Streamlit page (`main.py`) adds two pieces of logic: the height of the
query box and the history of requests shown in the sidebar.

Modules:

| module | file | what it holds |
|---|---|---|
| `Wrappers` | wrappers.dfy | `Option` and `Result` |
| `Text` | text.dfy | the Python `str` operations used: `strip`, `lower`/`upper`, `in`, `find`, `split(sep)[0]`/`[-1]`, `count`, `\s*` and character filtering |
| `Frames` | frames.dfy | cells and tables (a DataFrame), the abstract numeric readers, the character cleaning and the `k` expansion |
| `Shaping` | shaping.dfy | pie shaping, generic chart shaping, and the specifications of the two promotion passes |
| `DataConsultant` | data_consultant.dfy | the gate, the outcome of one `run_query` call as a function (`Run`), the promotion loops, and the agent as a class with its cache |
| `ConsultantExamples` | consultant_examples.dfy | the gate and the pipeline on concrete queries and answers |
| `AliasRepair` | alias_repair.dfy | `corrigir_query` as three left-to-right regular-expression substitutions |
| `AliasIdempotence` | alias_idempotence.dfy | the proof that the repair is idempotent |
| `NaturalLanguage` | natural_language.dfy | month extraction, chart and domain detection, the templates, the reply cleaning, `interpret_command` |
| `LanguageExamples` | language_examples.dfy | the interpreter on concrete requests |
| `App` | app.dfy | the query-box height and the history |

The store, the year lookup and the language model are parameters: the store
is a function from query text to a table or an error, the year lookup is an
`Option<string>` (`None` where it raised) and the model's reply is an
`Option<string>` (`None` where the call raised). pandas' numeric readers are
a record of functions (`Frames.Numerics`); only the character filtering and
the `k` expansion around them are concrete.

`DataConsultant.DataConsultantAgent.RunQuery` is the imperative model of
`run_query`: it changes the cache and the message log, and it records the
queries sent to the store in a ghost field. Its contract ties the returned
frame, the new cache, the messages and the store calls to the pure
`DataConsultant.Run`. The gate, cache and storage properties are lemmas
about `Run`. The two promotion passes are `for` loops over the column
labels, each proved equal to a specification function of the input frame.

## Model

| member | source | states |
|---|---|---|
| DataConsultant.BlankQueryRefused | agents/data_consultant.py:41-43 | a whitespace-only query is refused as invalid: the caller gets an empty frame, the store is not called and the cache is unchanged |
| DataConsultant.Refusal | agents/data_consultant.py:41-51 | the refusal is "invalid" exactly for a blank query; any other refusal names the statement of the first forbidden opening that flags the query; a query passes exactly when it is not blank and no forbidden opening flags its stripped, upper-cased text |
| DataConsultant.FirstFlagged | agents/data_consultant.py:48-51 | the index of the first opening, in list order, that the stripped upper-cased query starts with while lacking `WHERE`; none exactly when no opening flags it |
| DataConsultant.VerbsAreStripped | agents/data_consultant.py:46-50 | the verb a refusal names is its opening (`DROP `, `DELETE `, `UPDATE `) with the blanks stripped |
| DataConsultant.CheckQuery | agents/data_consultant.py:41-51 | the blank check followed by the early-return loop over the openings computes exactly the gate's refusal |
| DataConsultant.WherePasses | agents/data_consultant.py:49 | a non-blank query whose upper-cased text contains `WHERE` anywhere, inside a word or a literal included, passes the gate |
| DataConsultant.AtMostOneOpening | agents/data_consultant.py:46 | no text starts with two of the three openings, so the order of the loop decides nothing |
| DataConsultant.GateIff | agents/data_consultant.py:41-57 | a call is refused exactly when the query is blank or some opening flags it; a refused call returns an empty frame, does not call the store and leaves the cache unchanged |
| DataConsultant.RefusedRun | agents/data_consultant.py:46-51 | a refused query returns an empty frame, logs the refusal alone, leaves the cache as it was and does not reach the store |
| DataConsultant.CachedRun | agents/data_consultant.py:54-57 | a query that passes the gate and is cached returns the cached frame, logs the cache hit, leaves the cache as it was and does not reach the store |
| DataConsultant.CacheHitIgnoresStore | agents/data_consultant.py:54-57 | a cache hit gives the same outcome whatever the store now answers and whatever chart is requested: nothing is shaped or promoted again |
| DataConsultant.RepeatedQueryStable | agents/data_consultant.py:54-80 | after a query is processed, asking it again returns the frame returned the first time, even when the store has changed |
| DataConsultant.AnsweredRun | agents/data_consultant.py:59-92 | a query that passes the gate and is not cached ends as the store's answer does |
| DataConsultant.Run | agents/data_consultant.py:41-92 | the gate comes first, then the cache, then the store: a call is refused exactly when the gate refuses it, with the gate's reason; it is answered from the cache, with the cached frame, exactly when it passes the gate and the query is cached; it reaches the store exactly when it passes the gate and the query is not cached |
| DataConsultant.Answer | agents/data_consultant.py:59-92 | once the store has answered, the call is never a refusal or a cache hit; an empty frame is returned as it is; a non-empty frame is processed exactly when shaping succeeds, and the result is the shaped frame; a database error reports the message with the query, any other error only the message |
| DataConsultant.CacheOnlyGrows | agents/data_consultant.py:53-92 | after any call every cached entry is still there with the same frame, and the only key that can appear is the query itself, holding the returned frame |
| DataConsultant.ProcessedWasMissing | agents/data_consultant.py:55-80 | a processed result is only ever produced for a query the cache lacked |
| DataConsultant.NextCacheGrows | agents/data_consultant.py:80 | storing the outcome of a query the cache lacks keeps every entry and adds at most that query |
| DataConsultant.StoredIsProcessed | agents/data_consultant.py:62-80 | whatever a call stores came from the store as a non-empty frame and is exactly its shaped and promoted form |
| DataConsultant.AppPath | agents/data_consultant.py:62-82 | with no chart requested, a non-empty answer is promoted and cached with its own column labels and row count |
| DataConsultant.Process | agents/data_consultant.py:69-77 | shaping then promotion fails exactly for a pie request on two columns where some value does not evaluate; never adds rows; without a chart keeps labels and row count; a pie result has labels `categoria`/`valor`, positive values, non-increasing order |
| DataConsultant.ProcessFrame | agents/data_consultant.py:69-77 | the in-order reassignment of the frame by the shaping step and the two promotion passes computes `Process` |
| DataConsultant.PieRowsBound | agents/data_consultant.py:116 | pie shaping never returns more rows than it was given |
| DataConsultant.KeepPositiveBound | agents/data_consultant.py:116 | the positive filter never adds rows |
| DataConsultant.PromotionKeepsChart | agents/data_consultant.py:76-77 | the promotion passes leave a shaped pie frame unchanged |
| DataConsultant.CategoriaIsNoQuantity | agents/data_consultant.py:154 | the label `categoria` contains none of the quantity fragments of either pass |
| DataConsultant.Promote | agents/data_consultant.py:76-77 | promotion keeps the column labels and the row count |
| DataConsultant.SetColumn | agents/data_consultant.py:157 | assigning a column changes that column's cells and no other cell, label or row count |
| DataConsultant.ConvertColumn | agents/data_consultant.py:155-166 | a converted column keeps its length and holds only numbers and nulls |
| DataConsultant.CoerceColumn | agents/data_consultant.py:182 | the lenient read of a column reads each of its cells |
| DataConsultant.ConvertNumericColumns | agents/data_consultant.py:153-170 | the loop over the labels returns exactly the frame `Shaping.ConvertNumericSpec` describes |
| DataConsultant.EnhanceNumericConversion | agents/data_consultant.py:179-186 | the loop over the labels returns exactly the frame `Shaping.EnhanceNumericSpec` describes |
| DataConsultant.DataConsultantAgent.constructor | agents/data_consultant.py:20 | the cache starts empty, with no messages and no store calls |
| DataConsultant.DataConsultantAgent.RunQuery | agents/data_consultant.py:23-92 | the returned frame, the new cache, the appended messages and the store calls are those of one `run_query` call |
| DataConsultant.DataConsultantAgent.Execute | agents/data_consultant.py:59-92 | the `try` block: one store call; an error logs a database or unexpected error and returns an empty frame; an empty answer is returned as is; otherwise the processed frame is cached and returned, and a shaping failure logs an unexpected error |
| Shaping.PieRows | agents/data_consultant.py:107-113 | the value column is evaluated on every row, keeping the label; the conversion fails exactly when some value does not evaluate |
| Shaping.KeepPositive | agents/data_consultant.py:116 | every kept row has a positive value, and each positive row is kept as often as it occurs and nothing else |
| Shaping.Insert | agents/data_consultant.py:116 | inserting a row into a non-increasing sequence keeps it non-increasing and adds exactly that row |
| Shaping.SortDescending | agents/data_consultant.py:116 | the rows in non-increasing order of value, as a permutation of the input |
| Shaping.ChartFromRows | agents/data_consultant.py:104-116 | the converted rows with a positive value, largest first, under the labels `categoria` and `valor` |
| Shaping.PrepareChartData | agents/data_consultant.py:95-118 | fails exactly when some value does not evaluate; otherwise the labels are `categoria`/`valor`, every value is positive, the order is non-increasing, and the rows are exactly the positive converted rows |
| Shaping.PieValueIgnoresSign | agents/data_consultant.py:109 | a leading minus sign is removed before evaluation: `-x` is charted as `x` |
| Shaping.KeepParsed | agents/data_consultant.py:135-141 | dropping rows whose value does not read never adds rows |
| Shaping.KeepParsedRows | agents/data_consultant.py:135-141 | every row whose cleaned value reads is kept, converted, and every kept row is such a row |
| Shaping.KeepParsedKeepsAll | agents/data_consultant.py:141 | when every value reads, no row is dropped and the order is kept |
| Shaping.PrepareVisualizationData | agents/data_consultant.py:121-145 | fewer than two columns: unchanged; two columns: relabelled `categoria`/`valor`; with exactly one `valor` column only the rows whose value reads are kept, otherwise the rows are unchanged; never adds rows |
| Shaping.ConvertNumericSpec | agents/data_consultant.py:153-170 | the first pass keeps labels and row count, leaves every column it does not promote untouched and leaves promoted columns numeric |
| Shaping.EnhanceNumericSpec | agents/data_consultant.py:177-186 | the second pass keeps labels and row count, leaves every column it does not promote untouched and leaves promoted columns numeric |
| Shaping.ConvertKeysWithinEnhanceKeys | agents/data_consultant.py:154-180 | every label the first pass promotes, the second pass promotes too |
| Shaping.EnhanceIdempotent | agents/data_consultant.py:179-186 | running the second pass twice is running it once |
| Shaping.EnhanceKeepsConverted | agents/data_consultant.py:153-186 | on a column the first pass promoted, the second pass changes nothing |
| Shaping.TotalVendasExample | agents/data_consultant.py:157-166 | a `Total_Vendas` column holding `1.234,56`, `1000` and `n/a` becomes null, 1000 and null |
| Shaping.CleanedExamples | agents/data_consultant.py:163-164 | cleaning turns `1.234,56` into `1.234.56`, keeps `1000` and empties `n/a` |
| Frames.Coerce | agents/data_consultant.py:182 | the lenient read gives a number or null and keeps numbers and nulls |
| Frames.DirectNumber | agents/data_consultant.py:157 | the strict read fails exactly on text that does not read as a number |
| Frames.CommaToDot | agents/data_consultant.py:164 | every comma becomes a dot and nothing else changes |
| Frames.CleanDecimal | agents/data_consultant.py:163-164 | the cleaned text holds only digits and dots |
| Frames.CleanDecimalIdempotent | agents/data_consultant.py:163-164 | cleaning a cleaned text changes nothing |
| Frames.CleanDecimalDropsSign | agents/data_consultant.py:163 | a sign is lost in cleaning: `-x` cleans as `x` does |
| Frames.CleanCoerce | agents/data_consultant.py:161-166 | the cleaned lenient read gives a number exactly when the cleaned text reads as one |
| Frames.ExpandK | agents/data_consultant.py:110 | no `k` or `K` is left after the expansion |
| Frames.ExpandKRoundTrip | agents/data_consultant.py:110 | reading each `*1e3` back as `k` gives the cleaned text back |
| Frames.Occurrences | agents/data_consultant.py:133 | the number of columns with a label, zero exactly when no column has it |
| Frames.ColumnIndex | agents/data_consultant.py:135 | the first column carrying a label, present exactly when some column does |
| Frames.Column | agents/data_consultant.py:135 | the cells of one column, top to bottom |
| Text.Strip | agents/data_consultant.py:47 | `strip()` leaves no whitespace at either end and no more than the text |
| Text.StripSlice | agents/data_consultant.py:47 | what `strip()` leaves is a contiguous slice of the text |
| Text.StripStartSuffix | agents/data_consultant.py:47 | what `lstrip()` leaves is a suffix of the text |
| Text.StripEnd | agents/data_consultant.py:47 | `rstrip()` leaves a prefix with no trailing whitespace, having removed only whitespace |
| Text.BlankIff | agents/data_consultant.py:41 | `not query.strip()` holds exactly when every character is whitespace |
| Text.StripAround | agents/natural_language.py:105-110 | `strip()` removes exactly the whitespace around a text with non-space ends |
| Text.IndexOf | agents/natural_language.py:145 | the first occurrence of a text, present exactly when the text is contained |
| Text.SplitFirst | agents/natural_language.py:146 | `split(sep)[0]` is the prefix before the first separator and holds none |
| Text.SplitLast | agents/natural_language.py:146 | `split(sep)[-1]` holds no separator, and is the whole text when there is none |
| Text.SplitLastSuffix | agents/natural_language.py:146 | `split(sep)[-1]` is an end of the text, and when the text holds a separator it directly follows an occurrence of one |
| Text.SpaceRun | agents/natural_language.py:50 | `\s*` takes every whitespace character from a position on and stops at the first other |
| Text.CountChar | main.py:9 | `count('\n')` is the number of occurrences of the character, and never exceeds the length |
| Text.CountCharAppend | main.py:9 | the count of a concatenation is the sum of the counts |
| Text.Keep | agents/data_consultant.py:109 | a character filter keeps only passing characters and is never longer than its input |
| Text.KeepCounts | agents/data_consultant.py:109 | every passing character is kept as many times as it occurs, and no other character is kept |
| Text.KeepOne | agents/data_consultant.py:109 | one character is kept exactly when it passes |
| Text.KeepAppend | agents/data_consultant.py:109 | filtering a concatenation is concatenating the filtered parts; with `Text.KeepOne` this fixes the order of what is kept, which is that of the text |
| Text.KeepIdempotent | agents/data_consultant.py:109 | filtering twice is filtering once |
| AliasRepair.MatchHere | agents/natural_language.py:152-155 | a match of `\bFROM\s+x\b` or `\bc\.canal\b` is never empty and fits in the text |
| AliasRepair.SubNoMatch | agents/natural_language.py:152-155 | `re.sub` (`AliasRepair.Sub`) with no match leaves the text as it is |
| AliasRepair.SubFromCopies | agents/natural_language.py:152-155 | where no match starts, the substitution (`AliasRepair.SubFrom`) copies the text |
| AliasRepair.SubFromReplaces | agents/natural_language.py:152-155 | where a match starts, the replacement is written and the match skipped |
| AliasIdempotence.MatchEnds | agents/natural_language.py:152-155 | every match starts and ends with a word character |
| AliasIdempotence.SubClean | agents/natural_language.py:152-155 | a substitution whose replacement starts no match leaves no match of its own pattern, and none of another pattern where the input had none |
| AliasIdempotence.AliasPassesClean | agents/natural_language.py:152-153 | after the first substitution no `FROM s` is left; after the second, neither `FROM s` nor `FROM c` |
| AliasIdempotence.CanalPassClean | agents/natural_language.py:154-155 | the `c.canal` substitution leaves no `c.canal` and brings back no `FROM s` or `FROM c` |
| AliasIdempotence.CorrectAliasesIdempotent | agents/natural_language.py:151-156 | `corrigir_query` (`AliasRepair.CorrectAliases`) is idempotent: repairing a repaired query changes nothing |
| NaturalLanguage.FirstMonthFrom | agents/natural_language.py:46-48 | the first month in table order whose name occurs in the text, none exactly when no name occurs |
| NaturalLanguage.NoMonthName | agents/natural_language.py:46-48 | a text with neither `a` nor `o` names no month |
| NaturalLanguage.MesNumberAt | agents/natural_language.py:50-52 | the number `m[eê]s\s*(\d{1,2})` captures at a position is below 100 |
| NaturalLanguage.MesSearchLeftmost | agents/natural_language.py:50 | the search finds a number exactly when the pattern matches somewhere, and then it is the capture of the leftmost match |
| NaturalLanguage.TwoDigits | agents/natural_language.py:54 | `f"{m:02d}"` is two digits whose value is `m` |
| NaturalLanguage.TwoDigitsIsCode | agents/natural_language.py:40-54 | a padded month number is that month's code in the table |
| NaturalLanguage.ExtractMonth | agents/natural_language.py:39-56 | the answer is one of the twelve codes; the first month named in table order wins; failing that, the leftmost `mes N` gives N exactly when 1 <= N <= 12 |
| NaturalLanguage.DetectVisualization | agents/natural_language.py:63-67 | `pie`, `bar` or `line` exactly when a chart is mentioned and `pizza`, else `barras`, else `linha` occurs; nothing otherwise |
| NaturalLanguage.DetectDomain | agents/natural_language.py:80-91 | support exactly when a support word occurs; purchases exactly when none does and a purchase word occurs, in average mode exactly when `média`/`media` occurs |
| NaturalLanguage.YearOrDefault | agents/natural_language.py:26-36 | the year is never empty: the lookup's answer when it gave a non-empty one, and `2025` otherwise |
| NaturalLanguage.AverageTailStripped | agents/natural_language.py:105-110 | `.strip()` applies to the closing literal alone and removes its surrounding line breaks and indentation |
| NaturalLanguage.Template | agents/natural_language.py:93-116 | every template holds the year filter on its date column, and the month filter whenever a month was found |
| NaturalLanguage.MonthFilterInsertion | agents/natural_language.py:103-116 | the template with a month is the one without it plus the month filter, placed just before the year filter |
| NaturalLanguage.ReplyQuery | agents/natural_language.py:143-167 | the query taken from the model is never blank; it is `SELECT 1` when the call failed or when the stripped, unfenced and repaired reply is blank or is `SELECT 1`, and otherwise it is that cleaned reply unchanged |
| NaturalLanguage.ReplyQueryRepaired | agents/natural_language.py:150-163 | the query taken from the model is the fallback or a query that alias repair leaves unchanged |
| NaturalLanguage.TaggedFence | agents/natural_language.py:145-146 | a reply fenced with `sql` yields its stripped body |
| NaturalLanguage.UntaggedFence | agents/natural_language.py:147-148 | a reply in an untagged fence yields the empty text after the closing fence |
| NaturalLanguage.UntaggedFenceFallsBack | agents/natural_language.py:147-161 | a reply in an untagged fence therefore becomes `SELECT 1` |
| NaturalLanguage.StripFences | agents/natural_language.py:145-148 | a reply without a fence is kept as it is; what is taken from a fenced reply holds no fence |
| NaturalLanguage.SelectOneIsNotBlank | agents/natural_language.py:160-161 | the fallback query is not blank |
| NaturalLanguage.InterpretCommand | agents/natural_language.py:59-167 | the chart type is the detected one on every path; an undetected domain gives the model's cleaned reply; a detected domain gives its template, whatever the model would say |
| NaturalLanguage.InterpretFilters | agents/natural_language.py:93-118 | a request routed to a template is always filtered on the year, and on the month when one was found |
| LanguageExamples.ThreeDigitMonth | agents/natural_language.py:50-54 | `mes 123` reads as December: the capture stops after two digits |
| LanguageExamples.ThirteenIsNoMonth | agents/natural_language.py:53 | `mês 13` names no month |
| LanguageExamples.SingleDigitMonth | agents/natural_language.py:54 | `Mês 7` is `07` |
| LanguageExamples.TableOrderWins | agents/natural_language.py:46-48 | `abril ou janeiro` is January: table order, not text order |
| LanguageExamples.SupportBeforePurchases | agents/natural_language.py:80-85 | `tickets de vendas` goes to the support table |
| LanguageExamples.PieBeforeLine | agents/natural_language.py:64-67 | `pizza` wins over `linha` wherever each occurs |
| LanguageExamples.ComplaintsInMarch | agents/natural_language.py:80-116 | `Reclamações em março` gives the support template filtered on March and the year, with no chart |
| LanguageExamples.SupportAliasRepaired | agents/natural_language.py:152-155 | `SELECT canal FROM s` becomes `SELECT canal FROM suporte AS s` |
| ConsultantExamples.GluedOpeningPasses | agents/data_consultant.py:46-49 | the blank belongs to each opening: `DROPTABLE x` passes |
| ConsultantExamples.BareVerbPasses | agents/data_consultant.py:46-49 | a bare `drop` passes |
| ConsultantExamples.LowerCaseDropRefused | agents/data_consultant.py:47-50 | `  drop t  ` is refused as a `DROP` |
| ConsultantExamples.FilteredDeletePasses | agents/data_consultant.py:49 | `delete from t where id = 1` passes |
| ConsultantExamples.ZeroPieIsCached | agents/data_consultant.py:66-80 | a pie answer whose only value is `0` is shaped to an empty frame, which is cached |
| ConsultantExamples.UnreadablePieFails | agents/data_consultant.py:107-113 | a pie answer holding `abc` fails the whole call: empty frame, nothing cached |
| ConsultantExamples.ShapingFailureNotCached | agents/data_consultant.py:89-92 | a non-empty answer that shaping rejects fails the call and is not cached |
| App.TextAreaHeight | main.py:8-11 | the height never leaves `min_lines` and `max_lines` times the line height, and between them is the number of lines times the line height |
| App.ClampLines | main.py:10 | the clamp lies between the bounds and is the line count when that lies between them |
| App.DefaultHeight | main.py:8-11 | with the defaults the height is a multiple of 24 between 72 and 360: 72 up to two line breaks, 360 from fourteen, 24 a line between |
| App.HeightMonotone | main.py:9-11 | more line breaks never give a lower box |
| App.HeightGrowsWithText | main.py:9-11 | typing more never makes the box lower |
| App.LastReversed | main.py:73 | the last `n` entries (all of them when there are fewer), newest first |
| App.LastReversedPush | main.py:104-105 | recording an entry puts it first and pushes the oldest shown one out |
| App.LastReversedPrefix | main.py:73 | a shorter display is a prefix of a longer one |
| App.StripIsEntry | main.py:104-105 | the stripped form of a non-blank request is stripped and non-blank |
| App.History.constructor | main.py:30-31 | the history starts empty |
| App.History.Record | main.py:104-105 | only a non-blank request is appended, in stripped form; it then heads the display |
| App.History.Shown | main.py:73 | the sidebar list: the last ten entries, newest first |

## Left out

- Streamlit rendering (`st.error`, `st.info`, `st.code`, widgets, charts) is not modelled; the messages `run_query` shows become `DataConsultant.Diagnostic` values appended to a log, and `st.code(query)` is the query carried by `DatabaseError`.
- SQLite and pandas reading are not modelled: the store is a function parameter from query text to a table or an error, fixed for one call. SQL semantics are out of scope.
- `get_most_recent_year` is a database lookup: its answer is a parameter (`None` where it raised).
- The language-model call and its prompt are network I/O: the reply is a parameter (`None` where the call raised). `utils/ollama.py` and `config.py` are not part of this model.
- MD5 hashing of the cache key is not modelled: the cache is keyed by the query text, taking the hash as injective.
- A non-string query is not modelled: Dafny's type admits only text, so that half of the check at `agents/data_consultant.py:41` has no counterpart.
- pandas' `to_numeric`, `pd.eval`, the float cast and `str()` of a number are abstract functions (`Frames.Numerics`); NaN, floating-point rounding and how `pd.eval` reads a comma are therefore not modelled. A NaN is represented as a null cell.
- `str.lower`, `str.upper` and `str.isspace` are modelled for ASCII and Latin-1, case mapping for the Latin-1 letters whose other case is one character; `ß`, which Python upper-cases to `SS`, is left as it is; `\w` is exact for Latin-1 and takes every other non-space character as a word character; `\d` is ASCII only.
- The `except:` that swallows a pandas error in `_prepare_visualization_data` and the promotion passes is modelled only where the error is foreseeable: a repeated column label. Any other exception inside pandas is out of scope.
- pandas' sort is not stable for equal values in the source; `Shaping.SortDescending` promises the order of values and the multiset of rows, not the order among equal values.
- Aliasing is not modelled: the cached frame and the returned frame are the same pandas object in the source, and later in-place changes by a caller would show in the cache; frames here are values.
- The class-level cache is shared by all threads in the source; concurrency is not modelled.
- Text.SplitLast: the function's own contract does not say that the result is the suffix after the last separator; that fact is proved separately in `Text.SplitLastSuffix`.
- Text.StripStart: the function's own contract does not say that the result is a suffix of the text; that is proved separately in `Text.StripStartSuffix`, and `Text.StripSlice` states the same for `Text.Strip`.
- DataConsultant.Promote: its own contract states labels and row count only; what it does to each cell is stated by `Shaping.ConvertNumericSpec` and `Shaping.EnhanceNumericSpec`.

## Where the code differs from its documentation

The model follows the code throughout. These behaviours differ from what the
docstrings and comments suggest:

- Pie cleaning keeps only digits, `.`, `,`, `k` and `K`, so a value `-3` is charted as 3 (`Shaping.PieValueIgnoresSign`).
- A pie value that cleans to nothing, such as `abc`, makes `pd.eval` raise with no per-row handling: the whole call fails, the caller gets an empty frame and nothing is cached (`ConsultantExamples.UnreadablePieFails`).
- The cleaned read turns `1.234,56` into `1.234.56`, which does not read as a number: the cell becomes null, not 1234.56 (`Shaping.TotalVendasExample`).
- Emptiness is tested before shaping, so a result that pie or chart shaping empties is still cached (`ConsultantExamples.ZeroPieIsCached`).
- In the average template `.strip()` applies to the closing literal only, so the year filter is followed directly by `GROUP BY` and the query keeps its leading line break (`NaturalLanguage.AverageTailStripped`).
- pandas reports a failing statement with its own error class rather than `sqlite3.Error`, so such a failure is logged as an unexpected error; only an error raised by `sqlite3` itself is logged as a database error with the query (`DataConsultant.StoreError`).
- `mes 123` gives December: the capture takes two digits and ignores the third (`LanguageExamples.ThreeDigitMonth`).
- The refusal message names the opening with its blank stripped (`DataConsultant.VerbsAreStripped`).
