/** The alias repair applied to a query the language model wrote: three
    case-insensitive regular-expression substitutions, `\bFROM\s+s\b` to
    `FROM suporte AS s`, `\bFROM\s+c\b` to `FROM clientes AS c`, and, only
    when the text then holds `FROM suporte AS s` verbatim, `\bc\.canal\b` to
    `s.canal`. Each substitution scans left to right and replaces
    non-overlapping matches, as Python's `re.sub` does. */
module AliasRepair {
  import opened Wrappers
  import opened Text

  /** Python's `\w` on a `str` pattern: letters, digits, other numerals and
      `_`. Latin-1 is classified exactly; beyond it every character that is
      not whitespace counts as a word character. */
  predicate IsWordChar(c: char) {
    ('0' <= c <= '9') || ('A' <= c <= 'Z') || ('a' <= c <= 'z') || c == '_'
    || c == '\U{AA}' || c == '\U{B2}' || c == '\U{B3}' || c == '\U{B5}' || c == '\U{B9}' || c == '\U{BA}'
    || ('\U{BC}' <= c <= '\U{BE}') || ('\U{C0}' <= c <= '\U{FF}' && c != '\U{D7}' && c != '\U{F7}')
    || (c > '\U{FF}' && !IsSpace(c))
  }

  /** `s[i]` exists and is a word character. */
  predicate WordAt(s: string, i: int) {
    0 <= i < |s| && IsWordChar(s[i])
  }

  /** `\b` at position `i`: a word character on exactly one side. */
  predicate Boundary(s: string, i: int) {
    WordAt(s, i - 1) != WordAt(s, i)
  }

  /** Under `re.IGNORECASE`, the character `c` matches the lower-case ASCII
      letter `x`: itself, its capital, and for `s` also the long s `ſ`. */
  predicate Folds(c: char, x: char) {
    c == x || c == UpperChar(x) || (x == 's' && c == '\U{17F}')
  }

  /** The patterns of the repair. */
  datatype Pattern =
    | FromAlias(alias: char)   // \bFROM\s+<alias>\b
    | QualifiedCanal           // \bc\.canal\b

  /** `FROM` in any case at `i`. */
  predicate FromAt(s: string, i: nat) {
    i + 4 <= |s| && Folds(s[i], 'f') && Folds(s[i + 1], 'r') && Folds(s[i + 2], 'o') && Folds(s[i + 3], 'm')
  }

  /** `c.canal` in any case at `i`. */
  predicate CanalAt(s: string, i: nat) {
    i + 7 <= |s| && Folds(s[i], 'c') && s[i + 1] == '.' && Folds(s[i + 2], 'c') && Folds(s[i + 3], 'a')
    && Folds(s[i + 4], 'n') && Folds(s[i + 5], 'a') && Folds(s[i + 6], 'l')
  }

  /** The length of the match of `p` at the start of `t`, when the character
      before it is a word character exactly when `before` holds: `\b` looks
      one character back and nothing further. */
  function MatchHere(p: Pattern, before: bool, t: string): (r: Option<nat>)
    ensures r.Some? ==> 0 < r.value <= |t|
  {
    match p
    case FromAlias(x) =>
      if before != WordAt(t, 0) && FromAt(t, 0) then
        var e := 4 + SpaceRun(t, 4);
        if e > 4 && e < |t| && Folds(t[e], x) && Boundary(t, e + 1) then Some(e + 1) else None
      else None
    case QualifiedCanal =>
      if before != WordAt(t, 0) && CanalAt(t, 0) && Boundary(t, 7) then Some(7) else None
  }

  /** The length of the match of `p` that starts at `i`, if one does. */
  function MatchLen(p: Pattern, s: string, i: nat): (r: Option<nat>)
    requires i <= |s|
    ensures r.Some? ==> 0 < r.value && i + r.value <= |s|
  {
    MatchHere(p, WordAt(s, i - 1), s[i..])
  }

  /** No match of `p` starts anywhere in `s`. */
  predicate NoMatch(p: Pattern, s: string) {
    forall i :: 0 <= i <= |s| ==> MatchLen(p, s, i).None?
  }

  /** `re.sub(p, repl, s[i..])` scanning the original text: at each position
      a match is replaced and skipped, any other character is kept. */
  function SubFrom(p: Pattern, repl: string, s: string, i: nat): string
    requires i <= |s|
    decreases |s| - i
  {
    if i == |s| then []
    else match MatchLen(p, s, i)
      case Some(n) => repl + SubFrom(p, repl, s, i + n)
      case None => [s[i]] + SubFrom(p, repl, s, i + 1)
  }

  function Sub(p: Pattern, repl: string, s: string): string {
    SubFrom(p, repl, s, 0)
  }

  const SupportAlias: string := "FROM suporte AS s"
  const ClientAlias: string := "FROM clientes AS c"
  const SupportCanal: string := "s.canal"

  /** `corrigir_query` */
  function CorrectAliases(query: string): string {
    var a := Sub(FromAlias('s'), SupportAlias, query);
    var b := Sub(FromAlias('c'), ClientAlias, a);
    if Contains(b, SupportAlias) then Sub(QualifiedCanal, SupportCanal, b) else b
  }

  /** A text with no match is left as it is. */
  lemma {:induction false} SubFromNoMatch(p: Pattern, repl: string, s: string, i: nat)
    requires i <= |s| && NoMatch(p, s)
    ensures SubFrom(p, repl, s, i) == s[i..]
    decreases |s| - i
  {
    if i < |s| {
      SubFromNoMatch(p, repl, s, i + 1);
      assert s[i..] == [s[i]] + s[i + 1..];
    }
  }

  lemma SubNoMatch(p: Pattern, repl: string, s: string)
    requires NoMatch(p, s)
    ensures Sub(p, repl, s) == s
  {
    SubFromNoMatch(p, repl, s, 0);
  }

  /** A match of `FROM` starts with an `f` in some case. */
  lemma FromStartsWithF(x: char, s: string, i: nat)
    requires i <= |s| && MatchLen(FromAlias(x), s, i).Some?
    ensures i < |s| && Folds(s[i], 'f')
  {
  }

  /** A match of `c.canal` has its dot second. */
  lemma CanalHasDot(s: string, i: nat)
    requires i <= |s| && MatchLen(QualifiedCanal, s, i).Some?
    ensures i + 1 < |s| && s[i + 1] == '.'
  {
  }

  /** Where no match starts, the substitution copies the text. */
  lemma {:induction false} SubFromCopies(p: Pattern, repl: string, s: string, i: nat, j: nat)
    requires i <= j <= |s|
    requires forall k :: i <= k < j ==> MatchLen(p, s, k).None?
    ensures SubFrom(p, repl, s, i) == s[i..j] + SubFrom(p, repl, s, j)
    decreases j - i
  {
    if i < j {
      SubFromKeeps(p, repl, s, i);
      SubFromCopies(p, repl, s, i + 1, j);
      ConsSlice(s, i, j, SubFrom(p, repl, s, j));
    } else {
      assert s[i..j] == [];
    }
  }

  /** Copying one character in front of the copy of the rest of a slice. */
  lemma ConsSlice(s: string, i: nat, j: nat, rest: string)
    requires i < j <= |s|
    ensures [s[i]] + (s[i + 1..j] + rest) == s[i..j] + rest
  {
    assert s[i..j] == [s[i]] + s[i + 1..j];
  }

  /** Where a match starts, the replacement is written and the match skipped. */
  lemma SubFromReplaces(p: Pattern, repl: string, s: string, i: nat, n: nat)
    requires i < |s| && MatchLen(p, s, i) == Some(n)
    ensures SubFrom(p, repl, s, i) == repl + SubFrom(p, repl, s, i + n)
  {
  }

  /** Where no match starts, one character is copied. */
  lemma SubFromKeeps(p: Pattern, repl: string, s: string, i: nat)
    requires i < |s| && MatchLen(p, s, i).None?
    ensures SubFrom(p, repl, s, i) == [s[i]] + SubFrom(p, repl, s, i + 1)
  {
  }

  /** A text whose only `f` sits where no match starts has no `FROM` match. */
  lemma OnlyFromAt(x: char, s: string, j: nat)
    requires forall k :: 0 <= k < |s| && k != j ==> !Folds(s[k], 'f')
    requires j <= |s| && MatchLen(FromAlias(x), s, j).None?
    ensures NoMatch(FromAlias(x), s)
  {
    forall k | 0 <= k <= |s|
      ensures MatchLen(FromAlias(x), s, k).None?
    {
      if k != j && MatchLen(FromAlias(x), s, k).Some? {
        FromStartsWithF(x, s, k);
      }
    }
  }

  /** A text without a dot has no `c.canal` match. */
  lemma NoDotNoCanal(s: string)
    requires '.' !in s
    ensures NoMatch(QualifiedCanal, s)
  {
    forall k | 0 <= k <= |s|
      ensures MatchLen(QualifiedCanal, s, k).None?
    {
      if MatchLen(QualifiedCanal, s, k).Some? {
        CanalHasDot(s, k);
      }
    }
  }
}
