/** The natural-language agent: it turns a Portuguese request into an SQL
    query and an optional chart type. Requests about support tickets or
    purchases get a fixed SQL template; any other request is sent to a
    language model, whose reply is cleaned of code fences and alias slips.
    The database lookup of the most recent year and the model's reply are
    inputs here: `yearLookup` is what the lookup returned (`None` where it
    raised) and `reply` the model's message (`None` where the call raised). */
module NaturalLanguage {
  import opened Wrappers
  import opened Text
  import opened AliasRepair
  import AliasIdempotence

  // ------------------------------------------------------------- months

  const MonthNames: seq<string> := ["janeiro", "fevereiro", "março", "abril", "maio", "junho",
                                    "julho", "agosto", "setembro", "outubro", "novembro", "dezembro"]
  const MonthCodes: seq<string> := ["01", "02", "03", "04", "05", "06", "07", "08", "09", "10", "11", "12"]

  /** The first month, in table order from `k`, whose name occurs in `low`. */
  function FirstMonthFrom(low: string, k: nat): (r: Option<nat>)
    requires k <= |MonthNames|
    ensures r.Some? ==> k <= r.value < |MonthNames| && Contains(low, MonthNames[r.value])
    ensures r.Some? ==> forall j :: k <= j < r.value ==> !Contains(low, MonthNames[j])
    ensures r.None? ==> forall j :: k <= j < |MonthNames| ==> !Contains(low, MonthNames[j])
    decreases |MonthNames| - k
  {
    if k == |MonthNames| then None
    else if Contains(low, MonthNames[k]) then Some(k)
    else FirstMonthFrom(low, k + 1)
  }

  /** Every month name holds an `a` or an `o`. */
  lemma MonthNamesVowels()
    ensures forall k :: 0 <= k < |MonthNames| ==> 'a' in MonthNames[k] || 'o' in MonthNames[k]
  {
    assert MonthNames[0][1] == 'a' && MonthNames[1][8] == 'o' && MonthNames[2][1] == 'a';
    assert MonthNames[3][0] == 'a' && MonthNames[4][1] == 'a' && MonthNames[5][4] == 'o';
    assert MonthNames[6][4] == 'o' && MonthNames[7][0] == 'a' && MonthNames[8][7] == 'o';
    assert MonthNames[9][0] == 'o' && MonthNames[10][1] == 'o' && MonthNames[11][7] == 'o';
  }

  /** A request with neither `a` nor `o` names no month. */
  lemma NoMonthName(low: string)
    requires 'a' !in low && 'o' !in low
    ensures forall k :: 0 <= k < |MonthNames| ==> !Contains(low, MonthNames[k])
  {
    MonthNamesVowels();
    forall k | 0 <= k < |MonthNames|
      ensures !Contains(low, MonthNames[k])
    {
      if 'a' in MonthNames[k] {
        NoCharNoContains(low, MonthNames[k], 'a');
      } else {
        NoCharNoContains(low, MonthNames[k], 'o');
      }
    }
  }

  function DigitValue(c: char): nat
    requires IsDigit(c)
  {
    c as int - '0' as int
  }

  /** The number `m[eê]s\s*(\d{1,2})` captures when it matches at `i`: the
      greedy `\d{1,2}` takes a second digit whenever one follows. */
  function MesNumberAt(low: string, i: nat): (r: Option<nat>)
    requires i <= |low|
    ensures r.Some? ==> r.value <= 99
  {
    if i + 3 <= |low| && low[i] == 'm' && (low[i + 1] == 'e' || low[i + 1] == 'ê') && low[i + 2] == 's' then
      var e := i + 3 + SpaceRun(low, i + 3);
      if e < |low| && IsDigit(low[e]) then
        if e + 1 < |low| && IsDigit(low[e + 1]) then Some(10 * DigitValue(low[e]) + DigitValue(low[e + 1]))
        else Some(DigitValue(low[e]))
      else None
    else None
  }

  /** The pattern matches at `j`. */
  predicate MesAt(low: string, j: nat) {
    j <= |low| && MesNumberAt(low, j).Some?
  }

  /** The pattern matches nowhere in `[i, j)`. */
  predicate NoMesBetween(low: string, i: nat, j: nat) {
    forall k :: i <= k < j ==> !MesAt(low, k)
  }

  /** `re.search`: the capture of the leftmost match at or after `i`. */
  function MesSearch(low: string, i: nat): (r: Option<nat>)
    requires i <= |low|
    ensures r.Some? ==> r.value <= 99
    decreases |low| - i
  {
    if i == |low| then MesNumberAt(low, i)
    else match MesNumberAt(low, i)
      case Some(n) => Some(n)
      case None => MesSearch(low, i + 1)
  }

  /** The search finds a match exactly when the pattern matches somewhere
      from `i` on, and then it is the capture of the leftmost match. */
  lemma {:induction false} MesSearchLeftmost(low: string, i: nat)
    requires i <= |low|
    ensures MesSearch(low, i).None? <==> NoMesBetween(low, i, |low| + 1)
    ensures MesSearch(low, i).Some? ==>
              exists j :: i <= j && MesAt(low, j) && MesNumberAt(low, j) == MesSearch(low, i) && NoMesBetween(low, i, j)
    decreases |low| - i
  {
    if i < |low| && MesNumberAt(low, i).None? {
      MesSearchLeftmost(low, i + 1);
      assert !MesAt(low, i);
      if MesSearch(low, i).Some? {
        var j :| i + 1 <= j && MesAt(low, j) && MesNumberAt(low, j) == MesSearch(low, i) && NoMesBetween(low, i + 1, j);
        assert NoMesBetween(low, i, j);
      }
    } else if i == |low| {
      assert MesNumberAt(low, i).None?;
      assert NoMesBetween(low, i, |low| + 1);
    } else {
      assert NoMesBetween(low, i, i) && MesAt(low, i);
    }
  }

  /** `f"{m:02d}"` for a number below 100. */
  function TwoDigits(m: nat): (r: string)
    requires m < 100
    ensures |r| == 2 && IsDigit(r[0]) && IsDigit(r[1])
    ensures 10 * DigitValue(r[0]) + DigitValue(r[1]) == m
  {
    [('0' as int + m / 10) as char, ('0' as int + m % 10) as char]
  }

  /** The zero-padded form of a month number is its code in the month table. */
  lemma TwoDigitsIsCode(m: nat)
    requires 1 <= m <= 12
    ensures TwoDigits(m) == MonthCodes[m - 1]
  {
    var r := TwoDigits(m);
    var c := MonthCodes[m - 1];
    assert |c| == 2 && c[0] == r[0] && c[1] == r[1];
  }

  /** `extract_month_from_command`. A month named in the request wins, the
      first in table order whatever its position in the text; failing that,
      the leftmost `mes N` / `mês N` gives N when it is a month number. The
      answer is always one of the twelve codes. */
  function ExtractMonth(command: string): (r: Option<string>)
    ensures r.Some? ==> r.value in MonthCodes
    ensures forall k :: 0 <= k < |MonthNames| && Contains(Lower(command), MonthNames[k]) &&
                        (forall j :: 0 <= j < k ==> !Contains(Lower(command), MonthNames[j])) ==>
                        r == Some(MonthCodes[k])
    ensures (forall k :: 0 <= k < |MonthNames| ==> !Contains(Lower(command), MonthNames[k])) ==>
              (r.Some? <==> MesSearch(Lower(command), 0).Some? && 1 <= MesSearch(Lower(command), 0).value <= 12)
    ensures (forall k :: 0 <= k < |MonthNames| ==> !Contains(Lower(command), MonthNames[k])) && r.Some? ==>
              r.value == MonthCodes[MesSearch(Lower(command), 0).value - 1]
  {
    var low := Lower(command);
    match FirstMonthFrom(low, 0)
    case Some(k) => Some(MonthCodes[k])
    case None =>
      match MesSearch(low, 0)
      case Some(m) =>
        if 1 <= m <= 12 then
          TwoDigitsIsCode(m);
          Some(TwoDigits(m))
        else None
      case None => None
  }

  // ------------------------------------------------------ visualization

  predicate MentionsChart(low: string) {
    Contains(low, "gráfico") || Contains(low, "grafico")
  }

  /** The chart type a lower-cased request asks for: only when it mentions a
      chart, and then `pizza` before `barras` before `linha`. */
  function DetectVisualization(low: string): (r: Option<string>)
    ensures r == Some("pie") <==> MentionsChart(low) && Contains(low, "pizza")
    ensures r == Some("bar") <==> MentionsChart(low) && !Contains(low, "pizza") && Contains(low, "barras")
    ensures r == Some("line") <==> MentionsChart(low) && !Contains(low, "pizza") && !Contains(low, "barras") && Contains(low, "linha")
    ensures r.None? <==> !MentionsChart(low) || (!Contains(low, "pizza") && !Contains(low, "barras") && !Contains(low, "linha"))
  {
    if MentionsChart(low) then
      if Contains(low, "pizza") then Some("pie")
      else if Contains(low, "barras") then Some("bar")
      else if Contains(low, "linha") then Some("line")
      else None
    else None
  }

  // ------------------------------------------------------------- domain

  const SupportWords: seq<string> := ["reclamaç", "não resolvid", "ticket"]
  const PurchaseWords: seq<string> := ["venda", "compra", "produto"]

  predicate MentionsAny(low: string, words: seq<string>) {
    exists w :: w in words && Contains(low, w)
  }

  predicate AsksAverage(low: string) {
    Contains(low, "média") || Contains(low, "media")
  }

  /** `sub` occurs in `a + sub + b` right after `a`. */
  lemma OccursInMiddle(a: string, sub: string, b: string)
    ensures OccursAt(a + sub + b, sub, |a|) && Contains(a + sub + b, sub)
  {
    assert (a + sub + b)[|a|..|a| + |sub|] == sub;
    assert OccursAt(a + sub + b, sub, |a|);
  }

  /** Which table a request is about: support first, then purchases, where
      an average is asked for with `média`. */
  datatype Domain = Support | Purchases(average: bool) | Undetected

  function DetectDomain(low: string): (d: Domain)
    ensures d == Support <==> MentionsAny(low, SupportWords)
    ensures d.Purchases? <==> !MentionsAny(low, SupportWords) && MentionsAny(low, PurchaseWords)
    ensures d.Purchases? ==> (d.average <==> AsksAverage(low))
  {
    if MentionsAny(low, SupportWords) then Support
    else if MentionsAny(low, PurchaseWords) then Purchases(AsksAverage(low))
    else Undetected
  }

  // ----------------------------------------------------------- templates

  /** `get_most_recent_year`: the lookup's answer, or `2025` when it raised
      or found nothing. */
  function YearOrDefault(yearLookup: Option<string>): (r: string)
    ensures r != []
    ensures yearLookup.Some? && yearLookup.value != [] ==> r == yearLookup.value
    ensures !(yearLookup.Some? && yearLookup.value != []) ==> r == "2025"
  {
    if yearLookup.Some? && yearLookup.value != [] then yearLookup.value else "2025"
  }

  /** ` AND strftime('<fmt>', <col>) = '<value>'` */
  function DateFilter(fmt: string, col: string, value: string): string {
    " AND strftime('" + fmt + "', " + col + ") = '" + value + "'"
  }

  /** The filter for the month, if one was found (`if mes:`). */
  function MonthPart(col: string, mes: Option<string>): string {
    if mes.Some? && mes.value != [] then DateFilter("%m", col, mes.value) else []
  }

  /** The filter for the year (`if ano:`). */
  function YearPart(col: string, ano: string): string {
    if ano != [] then DateFilter("%Y", col, ano) else []
  }

  /** `SELECT {group}, COUNT(*) AS total FROM {table} AS t WHERE {cond}`:
      the opening of the count-per-group template. */
  function FlatHead(group: string, table: string, cond: string): string {
    "SELECT " + group + ", COUNT(*) AS total FROM " + table + " AS t WHERE " + cond
  }

  /** The opening of the average-per-customer template, up to `WHERE 1=1`. */
  function AverageHead(table: string): string {
    "\nSELECT categoria, ROUND(AVG(contagem_cliente), 2) AS media_compras_por_cliente\nFROM (\n"
    + "    SELECT cliente_id, categoria, COUNT(*) AS contagem_cliente\n    FROM " + table + "\n    WHERE 1=1\n"
  }

  /** The stripped closing literal: the inner grouping, then the outer
      grouping and ordering. */
  const TailGroup: string := "GROUP BY cliente_id, categoria\n) AS sub\n"
  const TailOrder: string := "GROUP BY categoria\nORDER BY media_compras_por_cliente DESC;"
  const AverageTail: string := TailGroup + TailOrder
  const TailIndent: string := "\n    "
  const TailTrailer: string := "\n                "

  /** The closing literal of the average template, as written: the text
      between a line break with indentation and a line break with the
      indentation of the surrounding code. */
  const AverageTailLiteral: string := TailIndent + AverageTail + TailTrailer

  /** `.strip()` binds to the closing literal alone and removes the line
      breaks and indentation around it. */
  lemma AverageTailStripped()
    ensures Strip(AverageTailLiteral) == AverageTail
  {
    assert forall i :: 0 <= i < |TailIndent| ==> IsSpace(TailIndent[i]);
    assert forall i :: 0 <= i < |TailTrailer| ==> IsSpace(TailTrailer[i]);
    assert TailGroup[0] == 'G' && AverageTail[0] == TailGroup[0];
    assert TailOrder[|TailOrder| - 1] == ';';
    StripAround(TailIndent, AverageTail, TailTrailer);
  }

  /** The text before the filters of a template. */
  function Head(d: Domain): string
    requires !d.Undetected?
  {
    match d
    case Support => FlatHead("canal", "suporte", "resolvido = 0")
    case Purchases(average) => if average then AverageHead("compras") else FlatHead("categoria", "compras", "1=1")
  }

  /** The date column the filters of a template test. */
  function DateColumn(d: Domain): string
    requires !d.Undetected?
  {
    match d
    case Support => "t.data_contato"
    case Purchases(average) => if average then "data_compra" else "t.data_compra"
  }

  /** The text after the filters of a template. */
  function Tail(d: Domain): string
    requires !d.Undetected?
  {
    match d
    case Support => "\nGROUP BY canal;"
    case Purchases(average) => if average then Strip(AverageTailLiteral) else "\nGROUP BY categoria;"
  }

  /** The template of a detected domain: its head, the month filter if a
      month was found, the year filter, and its tail. The year filter is in
      every template, and the month filter whenever a month was found. */
  function Template(d: Domain, mes: Option<string>, ano: string): (sql: string)
    requires !d.Undetected?
    ensures ano != [] ==> Contains(sql, DateFilter("%Y", DateColumn(d), ano))
    ensures mes.Some? && mes.value != [] ==> Contains(sql, DateFilter("%m", DateColumn(d), mes.value))
  {
    PartsOccur(Head(d), MonthPart(DateColumn(d), mes), YearPart(DateColumn(d), ano), Tail(d));
    Head(d) + MonthPart(DateColumn(d), mes) + YearPart(DateColumn(d), ano) + Tail(d)
  }

  /** The two middle parts of a four-part text occur in it. */
  lemma PartsOccur(h: string, m: string, y: string, t: string)
    ensures Contains(h + m + y + t, m) && Contains(h + m + y + t, y)
  {
    OccursInMiddle(h + m, y, t);
    OccursInMiddle(h, m, y + t);
    assert h + m + y + t == h + m + (y + t);
  }

  /** Without a month the template is the one with a month minus its month
      filter, which sits just before the year filter. */
  lemma MonthFilterInsertion(d: Domain, mes: string, ano: string)
    requires !d.Undetected? && mes != [] && ano != []
    ensures var plain := Template(d, None, ano);
            exists k :: OccursAt(plain, DateFilter("%Y", DateColumn(d), ano), k) &&
                        Template(d, Some(mes), ano) == plain[..k] + DateFilter("%m", DateColumn(d), mes) + plain[k..]
  {
    var h, y, t := Head(d), YearPart(DateColumn(d), ano), Tail(d);
    assert Template(d, None, ano) == h + [] + y + t;
    Insertion(h, DateFilter("%m", DateColumn(d), mes), y, t);
  }

  /** Inserting `m` between `h` and `y + t`. */
  lemma Insertion(h: string, m: string, y: string, t: string)
    ensures var plain := h + [] + y + t;
            OccursAt(plain, y, |h|) && h + m + y + t == plain[..|h|] + m + plain[|h|..]
  {
    var plain := h + [] + y + t;
    var rest := y + t;
    assert h + [] == h;
    assert plain == h + rest;
    OccursInMiddle(h, y, t);
    assert plain[..|h|] == h;
    assert plain[|h|..] == rest;
    assert h + m + y + t == h + m + rest;
  }

  // ---------------------------------------------------------- the reply

  /** The code-fence cleaning of the model's (stripped) reply: the text
      after the last "```sql" up to the next fence, else the text after the
      last fence, else the reply itself. A reply without a fence is kept as
      it is; from one with a fence, what is taken holds no fence. */
  function StripFences(text: string): (r: string)
    ensures !Contains(text, "```") ==> r == text
    ensures Contains(text, "```") ==> !Contains(r, "```")
  {
    if Contains(text, "```sql") then
      TagHasFence(text);
      var inner := SplitFirst(SplitLast(text, "```sql"), "```");
      StripKeepsAbsence(inner, "```");
      Strip(inner)
    else if Contains(text, "```") then
      var inner := SplitFirst(SplitLast(text, "```"), "```");
      StripKeepsAbsence(inner, "```");
      Strip(inner)
    else text
  }

  /** A `sql`-tagged fence is a fence. */
  lemma TagHasFence(text: string)
    requires Contains(text, "```sql")
    ensures Contains(text, "```")
  {
    var k :| 0 <= k <= |text| - 6 && OccursAt(text, "```sql", k);
    assert text[k..k + 3] == text[k..k + 6][..3];
    assert OccursAt(text, "```", k);
  }

  /** The cleaned reply: stripped, taken out of its code fence and with its
      aliases repaired. */
  function CleanReply(content: string): string {
    CorrectAliases(StripFences(Strip(content)))
  }

  /** The query taken from the model: `SELECT 1` when the call failed or the
      cleaned text is blank or is `SELECT 1` itself, and otherwise the
      cleaned text as it is. */
  function ReplyQuery(reply: Option<string>): (q: string)
    ensures !IsBlank(q)
    ensures reply.None? ==> q == "SELECT 1"
    ensures reply.Some? && (IsBlank(CleanReply(reply.value)) || Strip(CleanReply(reply.value)) == "SELECT 1") ==> q == "SELECT 1"
    ensures reply.Some? && !IsBlank(CleanReply(reply.value)) && Strip(CleanReply(reply.value)) != "SELECT 1" ==> q == CleanReply(reply.value)
  {
    match reply
    case None => SelectOneIsNotBlank(); "SELECT 1"
    case Some(content) =>
      var q := CleanReply(content);
      if IsBlank(q) || Strip(q) == "SELECT 1" then SelectOneIsNotBlank(); "SELECT 1" else q
  }

  /** Whatever the model replies, the query taken from it is the fallback or
      a query whose aliases are already repaired. */
  lemma ReplyQueryRepaired(reply: Option<string>)
    ensures ReplyQuery(reply) == "SELECT 1" || CorrectAliases(ReplyQuery(reply)) == ReplyQuery(reply)
  {
    if reply.Some? {
      AliasIdempotence.CorrectAliasesIdempotent(StripFences(Strip(reply.value)));
    }
  }

  /** No backquote anywhere in `s`. */
  predicate NoBackquote(s: string) {
    forall i :: 0 <= i < |s| ==> s[i] != '`'
  }

  /** A fence tagged `sql` around a body without backquotes yields the
      stripped body. */
  lemma TaggedFence(body: string)
    requires NoBackquote(body)
    ensures StripFences("```sql" + body + "```") == Strip(body)
  {
    TaggedLastPiece(body);
    ClosingFence(body);
  }

  /** What follows the only `sql` tag is the body and the closing fence. */
  lemma TaggedLastPiece(body: string)
    requires NoBackquote(body)
    ensures Contains("```sql" + body + "```", "```sql")
    ensures SplitLast("```sql" + body + "```", "```sql") == body + "```"
  {
    var s := "```sql" + body + "```";
    var rest := body + "```";
    assert s[0..6] == "```sql";
    assert OccursAt(s, "```sql", 0);
    assert IndexOf(s, "```sql") == Some(0);
    assert s[6..] == rest;
    forall k | 0 <= k <= |rest| - 6
      ensures !OccursAt(rest, "```sql", k)
    {
      assert rest[k] == body[k];
    }
  }

  /** The body before the closing fence is the first piece. */
  lemma ClosingFence(body: string)
    requires NoBackquote(body)
    ensures SplitFirst(body + "```", "```") == body
  {
    var rest := body + "```";
    assert rest[|body|..|body| + 3] == "```";
    forall k | 0 <= k < |body|
      ensures !OccursAt(rest, "```", k)
    {
      assert rest[k] == body[k];
    }
    SplitFirstAt(rest, "```", |body|);
    assert rest[..|body|] == body;
  }

  /** An untagged fence around a body without backquotes that does not
      itself begin with `sql` yields nothing: the text after the last fence
      is the empty text after the closing one. */
  lemma UntaggedFence(body: string)
    requires NoBackquote(body) && !StartsWith(body, "sql")
    ensures StripFences("```" + body + "```") == []
  {
    UntaggedHasNoTag(body);
    UntaggedLastPiece(body);
  }

  lemma UntaggedHasNoTag(body: string)
    requires NoBackquote(body) && !StartsWith(body, "sql")
    ensures !Contains("```" + body + "```", "```sql")
  {
    var s := "```" + body + "```";
    forall k | 0 <= k <= |s| - 6
      ensures !OccursAt(s, "```sql", k)
    {
      if k > 0 {
        assert s[k + 2] == body[k - 1];
        MismatchNotAt(s, "```sql", k, 2);
      } else if |body| < 3 {
        assert s[3 + |body|] == '`';
        MismatchNotAt(s, "```sql", 0, 3 + |body|);
      } else {
        var j := if body[0] != 's' then 0 else if body[1] != 'q' then 1 else 2;
        assert body[..3] == [body[0], body[1], body[2]];
        assert s[3 + j] == body[j];
        MismatchNotAt(s, "```sql", 0, 3 + j);
      }
    }
  }

  lemma UntaggedLastPiece(body: string)
    requires NoBackquote(body)
    ensures SplitLast("```" + body + "```", "```") == []
  {
    var s := "```" + body + "```";
    var rest := body + "```";
    assert s[0..3] == "```";
    assert OccursAt(s, "```", 0);
    assert IndexOf(s, "```") == Some(0);
    assert s[3..] == rest;
    assert rest[|body|..|body| + 3] == "```";
    assert OccursAt(rest, "```", |body|);
    forall k | 0 <= k < |body|
      ensures !OccursAt(rest, "```", k)
    {
      assert rest[k] == body[k];
    }
    assert IndexOf(rest, "```") == Some(|body|);
    assert rest[|body| + 3..] == [];
    assert SplitLast(rest, "```") == SplitLast([], "```");
  }

  /** The model's reply in an untagged fence gives `SELECT 1`. */
  lemma UntaggedFenceFallsBack(body: string)
    requires NoBackquote(body) && !StartsWith(body, "sql")
    ensures ReplyQuery(Some("```" + body + "```")) == "SELECT 1"
  {
    var content := "```" + body + "```";
    assert content[0] == '`' && content[|content| - 1] == '`';
    StripUnchanged(content);
    UntaggedFence(body);
    assert CorrectAliases([]) == [];
  }

  /** Stripping a text without `sub` leaves a text without `sub`. */
  lemma StripKeepsAbsence(s: string, sub: string)
    requires !Contains(s, sub)
    ensures !Contains(Strip(s), sub)
  {
    var i := StripOffset(s);
    StripSlice(s);
    SliceKeepsAbsence(s, sub, i, i + |Strip(s)|);
  }

  lemma SelectOneIsNotBlank()
    ensures !IsBlank("SELECT 1")
  {
    BlankIff("SELECT 1");
    assert !IsSpace("SELECT 1"[0]);
  }

  // ------------------------------------------------------------- the agent

  /** `interpret_command`: the query and the chart type. */
  function InterpretCommand(command: string, yearLookup: Option<string>, reply: Option<string>): (r: (string, Option<string>))
    ensures r.1 == DetectVisualization(Lower(command))
    ensures DetectDomain(Lower(command)) == Undetected ==> r.0 == ReplyQuery(reply)
    ensures DetectDomain(Lower(command)) != Undetected ==>
              r.0 == Template(DetectDomain(Lower(command)), ExtractMonth(command), YearOrDefault(yearLookup))
  {
    var low := Lower(command);
    var vis := DetectVisualization(low);
    var mes := ExtractMonth(command);
    var ano := YearOrDefault(yearLookup);
    var d := DetectDomain(low);
    if d.Undetected? then (ReplyQuery(reply), vis) else (Template(d, mes, ano), vis)
  }

  /** A request routed to a template always filters on the year, and on the
      month when one was found; the model's reply plays no part. */
  lemma InterpretFilters(command: string, yearLookup: Option<string>, reply: Option<string>)
    requires DetectDomain(Lower(command)) != Undetected
    ensures var d := DetectDomain(Lower(command));
            var sql := InterpretCommand(command, yearLookup, reply).0;
            Contains(sql, DateFilter("%Y", DateColumn(d), YearOrDefault(yearLookup))) &&
            (ExtractMonth(command).Some? ==> Contains(sql, DateFilter("%m", DateColumn(d), ExtractMonth(command).value)))
  {
    var mes := ExtractMonth(command);
    if mes.Some? {
      assert mes.value != [] by {
        var k :| 0 <= k < |MonthCodes| && MonthCodes[k] == mes.value;
      }
    }
  }
}
