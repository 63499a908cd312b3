/** The two pieces of logic in the Streamlit page: the height of the query
    box, which grows with the number of lines typed, and the query history
    kept in the session (every non-blank request, shown newest first, ten
    at most). */
module App {
  import opened Text

  /** `max(minLines, min(lines, maxLines))` */
  function ClampLines(lines: int, minLines: int, maxLines: int): (r: int)
    ensures r >= minLines
    ensures minLines <= maxLines ==> r <= maxLines
    ensures minLines <= lines <= maxLines ==> r == lines
    ensures lines <= minLines ==> r == minLines
    ensures minLines <= maxLines <= lines ==> r == maxLines
  {
    var capped := if lines < maxLines then lines else maxLines;
    if minLines > capped then minLines else capped
  }

  /** `get_text_area_height`: one line per line break plus one, clamped,
      times the line height. Between its bounds the box is exactly as high
      as the text has lines; it never leaves the bounds. */
  function TextAreaHeight(text: string, lineHeight: int, minLines: int, maxLines: int): (h: int)
    ensures lineHeight >= 0 ==> h >= minLines * lineHeight
    ensures lineHeight >= 0 && minLines <= maxLines ==> h <= maxLines * lineHeight
    ensures minLines <= CountChar(text, '\n') + 1 <= maxLines ==> h == (CountChar(text, '\n') + 1) * lineHeight
  {
    var lines := ClampLines(CountChar(text, '\n') + 1, minLines, maxLines);
    if lineHeight < 0 then lines * lineHeight
    else
      ScaleMonotone(minLines, lines, lineHeight);
      if minLines <= maxLines then ScaleMonotone(lines, maxLines, lineHeight); lines * lineHeight
      else lines * lineHeight
  }

  /** The height with the page's defaults: 24 pixels a line, 3 to 15 lines. */
  function DefaultHeight(text: string): (h: int)
    ensures 72 <= h <= 360 && h % 24 == 0
    ensures CountChar(text, '\n') <= 2 ==> h == 72
    ensures CountChar(text, '\n') >= 14 ==> h == 360
    ensures 2 <= CountChar(text, '\n') <= 14 ==> h == 24 * (CountChar(text, '\n') + 1)
  {
    TextAreaHeight(text, 24, 3, 15)
  }

  /** More line breaks never make the box lower. */
  lemma HeightMonotone(a: string, b: string, lineHeight: int, minLines: int, maxLines: int)
    requires CountChar(a, '\n') <= CountChar(b, '\n') && lineHeight >= 0
    ensures TextAreaHeight(a, lineHeight, minLines, maxLines) <= TextAreaHeight(b, lineHeight, minLines, maxLines)
  {
    var la := ClampLines(CountChar(a, '\n') + 1, minLines, maxLines);
    var lb := ClampLines(CountChar(b, '\n') + 1, minLines, maxLines);
    assert la <= lb;
    ScaleMonotone(la, lb, lineHeight);
  }

  lemma ScaleMonotone(a: int, b: int, c: int)
    requires a <= b && c >= 0
    ensures a * c <= b * c
  {
    assert b * c - a * c == (b - a) * c;
  }

  /** Typing more never makes the box lower. */
  lemma HeightGrowsWithText(a: string, b: string)
    ensures DefaultHeight(a) <= DefaultHeight(a + b)
  {
    CountCharAppend(a, b, '\n');
    HeightMonotone(a, a + b, 24, 3, 15);
  }

  /** The history shown: the last `n` entries, most recent first. */
  function LastReversed(entries: seq<string>, n: nat): (r: seq<string>)
    ensures |r| == if |entries| < n then |entries| else n
    ensures forall i :: 0 <= i < |r| ==> r[i] == entries[|entries| - 1 - i]
  {
    if entries == [] || n == 0 then []
    else [entries[|entries| - 1]] + LastReversed(entries[..|entries| - 1], n - 1)
  }

  /** Recording an entry puts it at the top of the display and pushes the
      oldest shown entry out once ten are shown. */
  lemma {:induction false} LastReversedPush(entries: seq<string>, e: string, n: nat)
    requires n > 0
    ensures LastReversed(entries + [e], n) == [e] + LastReversed(entries, n - 1)
  {
    assert (entries + [e])[..|entries|] == entries;
  }

  /** The display shows a prefix of what a longer display would show. */
  lemma {:induction false} LastReversedPrefix(entries: seq<string>, n: nat, m: nat)
    requires n <= m
    ensures LastReversed(entries, n) == LastReversed(entries, m)[..|LastReversed(entries, n)|]
  {
    if entries != [] && n != 0 {
      LastReversedPrefix(entries[..|entries| - 1], n - 1, m - 1);
    }
  }

  /** Every history entry is a stripped, non-blank request. */
  predicate IsEntry(s: string) {
    !IsBlank(s) && Strip(s) == s
  }

  /** The stripped form of a non-blank request is an entry. */
  lemma StripIsEntry(command: string)
    requires !IsBlank(command)
    ensures IsEntry(Strip(command))
  {
    StripUnchanged(Strip(command));
  }

  const ShownEntries: nat := 10

  /** `st.session_state.history` */
  class History {
    var entries: seq<string>

    predicate Valid()
      reads this
    {
      forall i :: 0 <= i < |entries| ==> IsEntry(entries[i])
    }

    constructor()
      ensures entries == [] && Valid()
    {
      entries := [];
    }

    /** Saving a submitted request: only a non-blank one, in its stripped form. */
    method Record(command: string)
      requires Valid()
      modifies this
      ensures Valid()
      ensures IsBlank(command) ==> entries == old(entries)
      ensures !IsBlank(command) ==> entries == old(entries) + [Strip(command)]
      ensures !IsBlank(command) ==> Shown() == [Strip(command)] + old(LastReversed(entries, ShownEntries - 1))
    {
      var stripped := Strip(command);
      if stripped != [] {
        StripIsEntry(command);
        LastReversedPush(entries, stripped, ShownEntries);
        entries := entries + [stripped];
      }
    }

    /** The sidebar list: the last ten entries, newest first. */
    function Shown(): (r: seq<string>)
      reads this
      ensures |r| == if |entries| < ShownEntries then |entries| else ShownEntries
      ensures forall i :: 0 <= i < |r| ==> r[i] == entries[|entries| - 1 - i]
    {
      LastReversed(entries, ShownEntries)
    }
  }
}
