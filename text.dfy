/** The handful of Python `str` operations the agents rely on: whitespace
    stripping, case mapping, substring search and `split`, all over `seq<char>`.
    Case mapping covers ASCII and the Latin-1 letters whose other case is a
    single character, which is where the Portuguese vocabulary of the agents
    lives; `ß`, whose capital is `SS`, is left as it is. */
module Text {
  import opened Wrappers

  /** The characters for which Python's `str.isspace()` holds: those `strip()`
      removes and the regular-expression class `\s` matches. */
  predicate IsSpace(c: char) {
    c == ' ' || '\t' <= c <= '\r' || '\U{1C}' <= c <= '\U{1F}' || c == '\U{85}' || c == '\U{A0}'
    || c == '\U{1680}' || '\U{2000}' <= c <= '\U{200A}' || c == '\U{2028}' || c == '\U{2029}'
    || c == '\U{202F}' || c == '\U{205F}' || c == '\U{3000}'
  }

  predicate IsDigit(c: char) {
    '0' <= c <= '9'
  }

  /** `str.lower()` on one character: ASCII and the Latin-1 capitals. */
  function LowerChar(c: char): char {
    if 'A' <= c <= 'Z' || ('\U{C0}' <= c <= '\U{DE}' && c != '\U{D7}') then (c as int + 32) as char else c
  }

  /** `str.upper()` on one character: ASCII and the Latin-1 small letters that
      have a one-character capital. */
  function UpperChar(c: char): char {
    if 'a' <= c <= 'z' || ('\U{E0}' <= c <= '\U{FE}' && c != '\U{F7}') then (c as int - 32) as char
    else if c == '\U{FF}' then '\U{178}'
    else if c == '\U{B5}' then '\U{39C}'
    else c
  }

  function Lower(s: string): (r: string)
    ensures |r| == |s|
  {
    seq(|s|, i requires 0 <= i < |s| => LowerChar(s[i]))
  }

  function Upper(s: string): (r: string)
    ensures |r| == |s|
  {
    seq(|s|, i requires 0 <= i < |s| => UpperChar(s[i]))
  }

  lemma LowerAppend(a: string, b: string)
    ensures Lower(a + b) == Lower(a) + Lower(b)
  {
    assert forall i :: 0 <= i < |a + b| ==> Lower(a + b)[i] == (Lower(a) + Lower(b))[i];
  }

  lemma UpperAppend(a: string, b: string)
    ensures Upper(a + b) == Upper(a) + Upper(b)
  {
    assert forall i :: 0 <= i < |a + b| ==> Upper(a + b)[i] == (Upper(a) + Upper(b))[i];
  }

  /** `str.lstrip()` */
  function StripStart(s: string): (r: string)
    ensures |r| <= |s|
    ensures r == [] || !IsSpace(r[0])
    ensures forall i :: 0 <= i < |s| - |r| ==> IsSpace(s[i])
  {
    if |s| > 0 && IsSpace(s[0]) then StripStart(s[1..]) else s
  }

  /** What `lstrip` leaves is a suffix of the text. */
  lemma {:induction false} StripStartSuffix(s: string)
    ensures StripStart(s) == s[|s| - |StripStart(s)|..]
  {
    if |s| > 0 && IsSpace(s[0]) {
      StripStartSuffix(s[1..]);
      SuffixOfSuffix(s, 1, |s| - 1 - |StripStart(s)|);
    }
  }

  /** `str.rstrip()` */
  function StripEnd(s: string): (r: string)
    ensures |r| <= |s| && r == s[..|r|]
    ensures r == [] || !IsSpace(r[|r| - 1])
    ensures forall i :: |r| <= i < |s| ==> IsSpace(s[i])
  {
    if |s| > 0 && IsSpace(s[|s| - 1]) then StripEnd(s[..|s| - 1]) else s
  }

  /** `str.strip()`: what remains once leading and trailing whitespace are
      removed; it starts `StripOffset(s)` characters into `s`. */
  function Strip(s: string): (r: string)
    ensures r == [] || (!IsSpace(r[0]) && !IsSpace(r[|r| - 1]))
    ensures StripOffset(s) + |r| <= |s|
  {
    StripEnd(StripStart(s))
  }

  /** The strip of a text is the slice of it that starts `StripOffset(s)` in. */
  lemma StripSlice(s: string)
    ensures Strip(s) == s[StripOffset(s)..StripOffset(s) + |Strip(s)|]
  {
    var t := StripStart(s);
    StripStartSuffix(s);
    SliceOfSuffix(s, |s| - |t|, |Strip(s)|);
  }

  lemma SliceOfSuffix(s: string, i: nat, n: nat)
    requires i + n <= |s|
    ensures s[i..][..n] == s[i..i + n]
  {
  }

  function StripOffset(s: string): nat {
    |s| - |StripStart(s)|
  }

  /** `not s.strip()`: the text is empty or whitespace only. */
  predicate IsBlank(s: string) {
    Strip(s) == []
  }

  lemma {:induction false} StripStartAllSpace(s: string)
    requires forall i :: 0 <= i < |s| ==> IsSpace(s[i])
    ensures StripStart(s) == []
  {
    if |s| > 0 {
      StripStartAllSpace(s[1..]);
    }
  }

  /** A text is blank exactly when every one of its characters is whitespace. */
  lemma BlankIff(s: string)
    ensures IsBlank(s) <==> forall i :: 0 <= i < |s| ==> IsSpace(s[i])
  {
    var t := StripStart(s);
    if forall i :: 0 <= i < |s| ==> IsSpace(s[i]) {
      StripStartAllSpace(s);
    } else {
      var i :| 0 <= i < |s| && !IsSpace(s[i]);
      assert |s| - |t| <= i;
      assert t != [] && !IsSpace(t[0]);
      assert |StripEnd(t)| > 0;
    }
  }

  /** A text that neither starts nor ends with whitespace is its own strip. */
  lemma StripUnchanged(s: string)
    requires s == [] || (!IsSpace(s[0]) && !IsSpace(s[|s| - 1]))
    ensures Strip(s) == s
  {
  }

  /** Leading whitespace before a text that opens with none is all `lstrip` removes. */
  lemma {:induction false} StripStartSpaces(lead: string, rest: string)
    requires forall i :: 0 <= i < |lead| ==> IsSpace(lead[i])
    requires rest == [] || !IsSpace(rest[0])
    ensures StripStart(lead + rest) == rest
  {
    if lead == [] {
      assert lead + rest == rest;
    } else {
      assert (lead + rest)[1..] == lead[1..] + rest;
      StripStartSpaces(lead[1..], rest);
    }
  }

  /** Trailing whitespace after a text that ends with none is all `rstrip` removes. */
  lemma {:induction false} StripEndSpaces(rest: string, trail: string)
    requires forall i :: 0 <= i < |trail| ==> IsSpace(trail[i])
    requires rest == [] || !IsSpace(rest[|rest| - 1])
    ensures StripEnd(rest + trail) == rest
  {
    if trail == [] {
      assert rest + trail == rest;
    } else {
      var t := trail[..|trail| - 1];
      assert (rest + trail)[..|rest + trail| - 1] == rest + t;
      StripEndSpaces(rest, t);
    }
  }

  /** `strip` removes exactly the whitespace around a text with non-space ends. */
  lemma StripAround(lead: string, core: string, trail: string)
    requires forall i :: 0 <= i < |lead| ==> IsSpace(lead[i])
    requires forall i :: 0 <= i < |trail| ==> IsSpace(trail[i])
    requires core != [] && !IsSpace(core[0]) && !IsSpace(core[|core| - 1])
    ensures Strip(lead + core + trail) == core
  {
    assert lead + core + trail == lead + (core + trail);
    StripStartSpaces(lead, core + trail);
    StripEndSpaces(core, trail);
  }

  predicate StartsWith(s: string, prefix: string) {
    |prefix| <= |s| && s[..|prefix|] == prefix
  }

  /** `sub` occurs in `s` starting at index `k`. */
  predicate OccursAt(s: string, sub: string, k: int) {
    0 <= k && k + |sub| <= |s| && s[k..k + |sub|] == sub
  }

  /** Python's `sub in s`. */
  predicate Contains(s: string, sub: string) {
    exists k :: 0 <= k <= |s| - |sub| && OccursAt(s, sub, k)
  }

  /** One differing character rules out an occurrence. */
  lemma MismatchNotAt(s: string, sub: string, k: nat, j: nat)
    requires j < |sub| && k + j < |s| && s[k + j] != sub[j]
    ensures !OccursAt(s, sub, k)
  {
    if k + |sub| <= |s| {
      assert s[k..k + |sub|][j] == s[k + j];
    }
  }

  /** An occurrence in a slice is an occurrence in the whole text. */
  lemma SliceOccurs(s: string, sub: string, a: nat, b: nat, k: nat)
    requires a <= b <= |s| && OccursAt(s[a..b], sub, k)
    ensures OccursAt(s, sub, a + k)
  {
    var u, v := s[a..b][k..k + |sub|], s[a + k..a + k + |sub|];
    forall j | 0 <= j < |sub|
      ensures u[j] == v[j]
    {
    }
    assert u == v;
  }

  /** A slice of a text without `sub` is without `sub`. */
  lemma SliceKeepsAbsence(s: string, sub: string, a: nat, b: nat)
    requires a <= b <= |s| && !Contains(s, sub)
    ensures !Contains(s[a..b], sub)
  {
    forall k | 0 <= k <= b - a - |sub|
      ensures !OccursAt(s[a..b], sub, k)
    {
      if OccursAt(s[a..b], sub, k) {
        SliceOccurs(s, sub, a, b, k);
      }
    }
  }

  /** A text lacking one of the characters of `sub` does not contain `sub`. */
  lemma NoCharNoContains(s: string, sub: string, c: char)
    requires c in sub && c !in s
    ensures !Contains(s, sub)
  {
    var i :| 0 <= i < |sub| && sub[i] == c;
    forall k | 0 <= k <= |s| - |sub| ensures !OccursAt(s, sub, k) {
      assert s[k + i] != c;
      assert s[k..k + |sub|][i] != sub[i];
    }
  }

  /** The first occurrence of `sub` in `s` at or after `from`, as `str.find` gives it. */
  function IndexFrom(s: string, sub: string, from: nat): (r: Option<nat>)
    requires from <= |s|
    ensures r.Some? ==> from <= r.value && OccursAt(s, sub, r.value)
    ensures r.Some? ==> forall k :: from <= k < r.value ==> !OccursAt(s, sub, k)
    ensures r.None? ==> forall k :: from <= k ==> !OccursAt(s, sub, k)
    decreases |s| - from
  {
    if from + |sub| > |s| then None
    else if s[from..from + |sub|] == sub then Some(from)
    else IndexFrom(s, sub, from + 1)
  }

  /** The first occurrence of `sub` in `s`; there is one exactly when `s` contains `sub`. */
  function IndexOf(s: string, sub: string): (r: Option<nat>)
    ensures r.Some? <==> Contains(s, sub)
    ensures r.Some? ==> OccursAt(s, sub, r.value)
    ensures r.Some? ==> forall k :: 0 <= k < r.value ==> !OccursAt(s, sub, k)
  {
    IndexFrom(s, sub, 0)
  }

  /** Python's `s.split(sep)[0]`: the text before the first occurrence of `sep`. */
  function SplitFirst(s: string, sep: string): (r: string)
    requires |sep| > 0
    ensures StartsWith(s, r)
    ensures !Contains(r, sep)
    ensures Contains(s, sep) ==> OccursAt(s, sep, |r|)
    ensures !Contains(s, sep) ==> r == s
  {
    match IndexOf(s, sep)
    case None => s
    case Some(i) =>
      var r := s[..i];
      assert !Contains(r, sep) by {
        forall k | 0 <= k <= |r| - |sep| ensures !OccursAt(r, sep, k) {
          assert r[k..k + |sep|] == s[k..k + |sep|];
          assert !OccursAt(s, sep, k);
        }
      }
      r
  }

  /** The first occurrence of `sep` ends the first piece. */
  lemma SplitFirstAt(s: string, sep: string, j: nat)
    requires |sep| > 0 && OccursAt(s, sep, j)
    requires forall k :: 0 <= k < j ==> !OccursAt(s, sep, k)
    ensures SplitFirst(s, sep) == s[..j]
  {
    assert Contains(s, sep);
    var i := IndexOf(s, sep).value;
    assert i == j;
  }

  /** Python's `s.split(sep)[-1]`: occurrences of `sep` are consumed left to
      right without overlapping, and what follows the last one consumed is
      returned. */
  function SplitLast(s: string, sep: string): (r: string)
    requires |sep| > 0
    ensures |r| <= |s|
    ensures !Contains(r, sep)
    ensures !Contains(s, sep) ==> r == s
    decreases |s|
  {
    match IndexOf(s, sep)
    case None => s
    case Some(i) => SplitLast(s[i + |sep|..], sep)
  }

  /** `r` is the end of `s` that follows an occurrence of `sep`, when `s`
      holds one. */
  predicate SuffixAfter(s: string, sep: string, r: string) {
    |r| <= |s| && r == s[|s| - |r|..] && (Contains(s, sep) ==> OccursAt(s, sep, |s| - |r| - |sep|))
  }

  /** What `SplitLast` returns is the suffix of the text that follows an
      occurrence of `sep`, when there is one. */
  lemma {:induction false} SplitLastSuffix(s: string, sep: string)
    requires |sep| > 0
    ensures SuffixAfter(s, sep, SplitLast(s, sep))
    decreases |s|
  {
    match IndexOf(s, sep)
    case None =>
      assert s[0..] == s;
    case Some(i) =>
      var rest := s[i + |sep|..];
      SplitLastStep(s, sep, i);
      SplitLastSuffix(rest, sep);
      SplitLastShift(s, sep, i, rest, SplitLast(rest, sep));
  }

  /** Past the first occurrence, `SplitLast` goes on with the rest of the text. */
  lemma SplitLastStep(s: string, sep: string, i: nat)
    requires |sep| > 0 && IndexOf(s, sep) == Some(i)
    ensures OccursAt(s, sep, i)
    ensures SplitLast(s, sep) == SplitLast(s[i + |sep|..], sep)
  {
  }

  /** What follows an occurrence in the rest follows one in the whole text. */
  lemma SplitLastShift(s: string, sep: string, i: nat, rest: string, r: string)
    requires |sep| > 0 && OccursAt(s, sep, i) && rest == s[i + |sep|..]
    requires SuffixAfter(rest, sep, r) && (!Contains(rest, sep) ==> r == rest)
    ensures SuffixAfter(s, sep, r)
  {
    var a := i + |sep|;
    SuffixOfSuffix(s, a, |rest| - |r|);
    if Contains(rest, sep) {
      var k := |rest| - |r| - |sep|;
      assert rest == s[a..|s|];
      SliceOccurs(s, sep, a, |s|, k);
      assert a + k == |s| - |r| - |sep|;
    } else {
      assert |r| == |rest| && i == |s| - |r| - |sep|;
    }
    assert Contains(s, sep) by {
      assert 0 <= i <= |s| - |sep|;
    }
  }

  lemma SuffixOfSuffix(s: string, a: nat, b: nat)
    requires a + b <= |s|
    ensures s[a..][b..] == s[a + b..]
  {
  }

  /** The number of whitespace characters from `j` on: what the regular-expression `\s*` consumes. */
  function SpaceRun(s: string, j: nat): (n: nat)
    requires j <= |s|
    ensures j + n <= |s|
    ensures forall k :: j <= k < j + n ==> IsSpace(s[k])
    ensures j + n == |s| || !IsSpace(s[j + n])
    decreases |s| - j
  {
    if j < |s| && IsSpace(s[j]) then 1 + SpaceRun(s, j + 1) else 0
  }

  /** Number of occurrences of `c` in `s`: Python's `s.count(c)` for one character. */
  function CountChar(s: string, c: char): (n: nat)
    ensures n <= |s|
    ensures n == multiset(s)[c]
  {
    if s == [] then 0
    else
      assert s == [s[0]] + s[1..];
      (if s[0] == c then 1 else 0) + CountChar(s[1..], c)
  }

  lemma {:induction false} CountCharAppend(a: string, b: string, c: char)
    ensures CountChar(a + b, c) == CountChar(a, c) + CountChar(b, c)
  {
    if a == [] {
      assert a + b == b;
    } else {
      assert (a + b)[1..] == a[1..] + b;
      CountCharAppend(a[1..], b, c);
    }
  }

  /** The characters of `s` that satisfy `keep`, in order: a regular-expression
      substitution of a negated character class by the empty string. */
  function Keep(s: string, keep: char -> bool): (r: string)
    ensures |r| <= |s|
    ensures forall i :: 0 <= i < |r| ==> keep(r[i])
  {
    if s == [] then [] else (if keep(s[0]) then [s[0]] else []) + Keep(s[1..], keep)
  }

  /** Every character that passes is kept as often as it occurs, and no
      other character is kept. */
  lemma {:induction false} KeepCounts(s: string, keep: char -> bool)
    ensures forall c :: multiset(Keep(s, keep))[c] == if keep(c) then multiset(s)[c] else 0
  {
    if s != [] {
      KeepCounts(s[1..], keep);
      assert s == [s[0]] + s[1..];
    }
  }

  /** One character is kept exactly when it passes; with `KeepAppend` this
      fixes the order of what is kept: that of the text. */
  lemma KeepOne(c: char, keep: char -> bool)
    ensures Keep([c], keep) == if keep(c) then [c] else []
  {
    assert [c][1..] == [];
  }

  lemma {:induction false} KeepAppend(a: string, b: string, keep: char -> bool)
    ensures Keep(a + b, keep) == Keep(a, keep) + Keep(b, keep)
  {
    if a == [] {
      assert a + b == b;
    } else {
      assert (a + b)[1..] == a[1..] + b;
      KeepAppend(a[1..], b, keep);
    }
  }

  /** Filtering twice by the same test is filtering once. */
  lemma {:induction false} KeepIdempotent(s: string, keep: char -> bool)
    ensures Keep(Keep(s, keep), keep) == Keep(s, keep)
  {
    if s != [] {
      KeepIdempotent(s[1..], keep);
      KeepAppend(if keep(s[0]) then [s[0]] else [], Keep(s[1..], keep), keep);
    }
  }
}
