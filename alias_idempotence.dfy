/** The alias repair is idempotent: a repaired query is repaired to itself.
    Each substitution leaves no match of its own pattern behind, the second
    and third leave no match of the earlier patterns where there was none,
    and so a second repair finds nothing to rewrite. The argument follows
    the output of a substitution piece by piece: a replacement block starts
    no match, and a copied stretch starts a match only if the original text
    did, because the first character of the next block stops every match
    that would run into it. */
module AliasIdempotence {
  import opened Wrappers
  import opened Text
  import opened AliasRepair

  // ------------------------------------------------------------ matches

  /** The patterns of the repair: an alias is a lower-case ASCII letter. */
  predicate LetterAlias(p: Pattern) {
    p.FromAlias? ==> 'a' <= p.alias <= 'z'
  }

  /** A match begins and ends with a word character. */
  lemma MatchEnds(p: Pattern, s: string, j: nat)
    requires LetterAlias(p) && j <= |s| && MatchLen(p, s, j).Some?
    ensures IsWordChar(s[j]) && IsWordChar(s[j + MatchLen(p, s, j).value - 1])
  {
    var t := s[j..];
    match p
    case FromAlias(x) =>
      var e := 4 + SpaceRun(t, 4);
      assert t[0] == s[j] && t[e] == s[j + e];
    case QualifiedCanal =>
      assert t[0] == s[j] && t[6] == s[j + 6];
  }

  /** The first position from `j` on where the scan of `Sub` meets a match. */
  function NextMatch(p: Pattern, s: string, j: nat): (r: Option<nat>)
    requires j <= |s|
    ensures r.Some? ==> j <= r.value < |s| && MatchLen(p, s, r.value).Some?
    ensures forall k :: j <= k < (if r.Some? then r.value else |s|) ==> MatchLen(p, s, k).None?
    decreases |s| - j
  {
    if j == |s| then None
    else
      var here := MatchLen(p, s, j);
      if here.Some? then Some(j) else NextMatch(p, s, j + 1)
  }

  /** With no match from `j` on, the substitution copies the rest. */
  lemma SubFromTail(p: Pattern, repl: string, s: string, j: nat)
    requires j <= |s|
    requires forall k :: j <= k < |s| ==> MatchLen(p, s, k).None?
    ensures SubFrom(p, repl, s, j) == s[j..]
  {
    SubFromCopies(p, repl, s, j, |s|);
    assert s[j..|s|] == s[j..];
  }

  /** With the first match from `j` on at `m`, the substitution is the text up
      to `m`, the replacement, and the substitution after the match. */
  lemma SubFromUpTo(p: Pattern, repl: string, s: string, j: nat, m: nat)
    requires j <= m < |s| && MatchLen(p, s, m).Some?
    requires forall k :: j <= k < m ==> MatchLen(p, s, k).None?
    ensures SubFrom(p, repl, s, j) == s[j..m] + repl + SubFrom(p, repl, s, m + MatchLen(p, s, m).value)
  {
    SubFromCopies(p, repl, s, j, m);
    SubFromReplaces(p, repl, s, m, MatchLen(p, s, m).value);
    var rest := SubFrom(p, repl, s, m + MatchLen(p, s, m).value);
    assert s[j..m] + (repl + rest) == s[j..m] + repl + rest;
  }

  // ------------------------------------------------------------ windows

  /** A run of spaces is determined by the run and the character after it. */
  lemma SpaceRunIs(s: string, j: nat, n: nat)
    requires j + n <= |s|
    requires forall k :: j <= k < j + n ==> IsSpace(s[k])
    requires j + n == |s| || !IsSpace(s[j + n])
    ensures SpaceRun(s, j) == n
  {
  }

  /** A character that ends every match of `q` that would reach it: it can
      take no place in the match after the first character. */
  predicate Stops(q: Pattern, c: char) {
    match q
    case FromAlias(x) => !IsSpace(c) && !Folds(c, 'r') && !Folds(c, 'o') && !Folds(c, 'm') && !Folds(c, x)
    case QualifiedCanal => c != '.' && !Folds(c, 'c') && !Folds(c, 'a') && !Folds(c, 'n') && !Folds(c, 'l')
  }

  /** Inside a match of `FROM` with an alias, no character after the first
      stops it. */
  lemma FromInside(x: char, before: bool, t: string)
    requires 'a' <= x <= 'z' && MatchHere(FromAlias(x), before, t).Some?
    ensures forall k :: 1 <= k <= 4 + SpaceRun(t, 4) ==> !Stops(FromAlias(x), t[k])
  {
  }

  /** Two texts that agree up to the end `e` of a candidate alias, with the
      same run of spaces and the same kind of character after `e`, agree on
      the match of `FROM` and an alias. */
  lemma FromAgree(x: char, before: bool, ts: string, to: string, e: nat)
    requires 4 <= e < |ts| && e < |to| && forall k :: 0 <= k <= e ==> ts[k] == to[k]
    requires SpaceRun(ts, 4) == e - 4 == SpaceRun(to, 4)
    requires WordAt(ts, e + 1) == WordAt(to, e + 1)
    ensures MatchHere(FromAlias(x), before, ts) == MatchHere(FromAlias(x), before, to)
  {
    assert FromAt(ts, 0) == FromAt(to, 0);
    assert Boundary(ts, e + 1) == Boundary(to, e + 1);
  }

  /** Two texts that agree before `b` and hold word characters at `b`: a match
      of `FROM` and an alias in the second that `to[b]` stops is a match in
      the first. */
  lemma WindowFrom(x: char, before: bool, ts: string, to: string, b: nat)
    requires 'a' <= x <= 'z'
    requires 1 <= b < |ts| && b < |to| && ts[..b] == to[..b]
    requires IsWordChar(ts[b]) && IsWordChar(to[b]) && Stops(FromAlias(x), to[b])
    requires MatchHere(FromAlias(x), before, to).Some?
    ensures MatchHere(FromAlias(x), before, ts) == MatchHere(FromAlias(x), before, to)
  {
    var n := SpaceRun(to, 4);
    FromInside(x, before, to);
    assert b > 4 + n;
    forall k | 0 <= k < b ensures ts[k] == to[k] {
      assert ts[..b][k] == to[..b][k];
    }
    assert forall k :: 4 <= k < 4 + n ==> IsSpace(ts[k]);
    assert ts[4 + n] == to[4 + n];
    SpaceRunIs(ts, 4, n);
    if 5 + n < b {
      assert ts[5 + n] == to[5 + n];
    }
    assert WordAt(ts, 5 + n) == WordAt(to, 5 + n);
    FromAgree(x, before, ts, to, 4 + n);
  }

  /** The same for `c.canal`. */
  lemma WindowCanal(before: bool, ts: string, to: string, b: nat)
    requires 1 <= b < |ts| && b < |to| && ts[..b] == to[..b]
    requires IsWordChar(ts[b]) && IsWordChar(to[b]) && Stops(QualifiedCanal, to[b])
    requires MatchHere(QualifiedCanal, before, to).Some?
    ensures MatchHere(QualifiedCanal, before, ts) == MatchHere(QualifiedCanal, before, to)
  {
    assert b >= 7;
    assert forall k :: 0 <= k < b ==> ts[k] == to[k] by {
      forall k | 0 <= k < b ensures ts[k] == to[k] {
        assert ts[..b][k] == to[..b][k];
      }
    }
  }

  /** A match of `c.canal` begins with a `c` in some case and a dot. */
  lemma CanalStart(s: string, m: nat)
    requires m <= |s| && MatchLen(QualifiedCanal, s, m).Some?
    ensures m + 1 < |s| && Folds(s[m], 'c') && s[m + 1] == '.'
  {
    assert s[m..][0] == s[m] && s[m..][1] == s[m + 1];
  }

  /** Before its alias, a match of `FROM s` holds no `s`. */
  lemma FromNoS(before: bool, t: string)
    requires MatchHere(FromAlias('s'), before, t).Some?
    ensures forall k :: 1 <= k < 4 + SpaceRun(t, 4) ==> t[k] != 's'
  {
  }

  /** `FROM s` whose `s` was written over the `c` of `c.canal`: the first
      text holds `FROM c` there. */
  lemma AliasOverCanal(before: bool, ts: string, to: string, e: nat)
    requires 4 < e && e + 1 < |ts| && e + 1 < |to| && forall k :: 0 <= k < e ==> ts[k] == to[k]
    requires Folds(ts[e], 'c') && ts[e + 1] == '.' && to[e] == 's' && to[e + 1] == '.'
    requires MatchHere(FromAlias('s'), before, to).Some? && SpaceRun(to, 4) == e - 4
    ensures MatchHere(FromAlias('c'), before, ts).Some?
  {
    SpaceRunIs(ts, 4, e - 4);
    assert FromAt(ts, 0) && WordAt(ts, 0) == WordAt(to, 0) && Boundary(ts, e + 1);
  }

  /** `FROM s` ending where `s.canal` was written over `c.canal`: a match of
      `FROM s` there stands in the first text as a match of `FROM c`. */
  lemma WindowFromOnCanal(before: bool, ts: string, to: string, b: nat)
    requires 1 <= b && b + 1 < |ts| && b + 1 < |to| && ts[..b] == to[..b]
    requires Folds(ts[b], 'c') && ts[b + 1] == '.' && to[b] == 's' && to[b + 1] == '.'
    requires MatchHere(FromAlias('s'), before, to).Some?
    ensures MatchHere(FromAlias('s'), before, ts).Some? || MatchHere(FromAlias('c'), before, ts).Some?
  {
    var n := SpaceRun(to, 4);
    var e := 4 + n;
    FromNoS(before, to);
    assert b >= e;
    assert forall k :: 0 <= k < b ==> ts[k] == to[k] by {
      forall k | 0 <= k < b ensures ts[k] == to[k] {
        assert ts[..b][k] == to[..b][k];
      }
    }
    if b == e {
      AliasOverCanal(before, ts, to, e);
    } else {
      SpaceRunIs(ts, 4, n);
      FromAgree('s', before, ts, to, e);
    }
  }

  /** The same, read the other way: no match in the first text, none in the
      second. */
  lemma CanalSpliceStart(before: bool, ts: string, to: string, b: nat)
    requires 1 <= b && b + 1 < |ts| && b + 1 < |to| && ts[..b] == to[..b]
    requires Folds(ts[b], 'c') && ts[b + 1] == '.' && to[b] == 's' && to[b + 1] == '.'
    requires MatchHere(FromAlias('s'), before, ts).None? && MatchHere(FromAlias('c'), before, ts).None?
    ensures MatchHere(FromAlias('s'), before, to).None?
  {
    if MatchHere(FromAlias('s'), before, to).Some? {
      WindowFromOnCanal(before, ts, to, b);
    }
  }

  // ------------------------------------------------------------ clean output

  /** No match of `q` starts at the `k`th position of `t` when the character
      before `t` is a word character exactly when `before` holds. */
  function Before(before: bool, t: string, k: nat): bool
    requires k <= |t|
  {
    if k == 0 then before else IsWordChar(t[k - 1])
  }

  ghost predicate CleanFrom(q: Pattern, before: bool, t: string) {
    forall k :: 0 <= k <= |t| ==> MatchHere(q, Before(before, t, k), t[k..]).None?
  }

  /** A replacement starts no match of `q` anywhere in it, whatever follows it
      and whatever precedes it. */
  ghost predicate Inert(q: Pattern, u: string) {
    forall k, before: bool, w: string :: 0 <= k < |u| ==> MatchHere(q, before, u[k..] + w).None?
  }

  lemma CleanCons(q: Pattern, before: bool, c: char, t: string)
    requires MatchHere(q, before, [c] + t).None? && CleanFrom(q, IsWordChar(c), t)
    ensures CleanFrom(q, before, [c] + t)
  {
    var ct := [c] + t;
    forall k | 1 <= k <= |ct|
      ensures MatchHere(q, Before(before, ct, k), ct[k..]).None?
    {
      assert ct[k..] == t[k - 1..];
      assert Before(before, ct, k) == Before(IsWordChar(c), t, k - 1);
    }
  }

  lemma CleanAppend(q: Pattern, before: bool, u: string, t: string)
    requires |u| > 0 && Inert(q, u) && CleanFrom(q, IsWordChar(u[|u| - 1]), t)
    ensures CleanFrom(q, before, u + t)
  {
    var ut := u + t;
    forall k | 0 <= k <= |ut|
      ensures MatchHere(q, Before(before, ut, k), ut[k..]).None?
    {
      if k < |u| {
        assert ut[k..] == u[k..] + t;
      } else {
        assert ut[k..] == t[k - |u|..];
        assert Before(before, ut, k) == Before(IsWordChar(u[|u| - 1]), t, k - |u|);
      }
    }
  }

  lemma CleanNoMatch(q: Pattern, t: string)
    requires CleanFrom(q, false, t)
    ensures NoMatch(q, t)
  {
    forall k | 0 <= k <= |t|
      ensures MatchLen(q, t, k).None?
    {
      assert Before(false, t, k) == WordAt(t, k - 1);
    }
  }

  /** The case where the first character of the replacement does not stop a
      match of `q`: `s.canal` written over `c.canal`, after `FROM s`. */
  ghost predicate CanalAfterAlias(p: Pattern, q: Pattern, repl: string, s: string) {
    p == QualifiedCanal && q == FromAlias('s') && |repl| >= 2 && repl[0] == 's' && repl[1] == '.'
    && NoMatch(FromAlias('c'), s)
  }

  /** A match in a spliced text that the first spliced character stops is a
      match in the original text. */
  lemma SpliceStart(q: Pattern, before: bool, ts: string, to: string, b: nat)
    requires LetterAlias(q)
    requires 1 <= b < |ts| && b < |to| && ts[..b] == to[..b]
    requires IsWordChar(ts[b]) && IsWordChar(to[b]) && Stops(q, to[b])
    requires MatchHere(q, before, ts).None?
    ensures MatchHere(q, before, to).None?
  {
    if MatchHere(q, before, to).Some? {
      match q
      case FromAlias(x) => WindowFrom(x, before, ts, to, b);
      case QualifiedCanal => WindowCanal(before, ts, to, b);
    }
  }

  /** The output of a substitution up to its first match, at `m`, starts no
      match of `q` where the text it copies started none. */
  lemma CopyStartBefore(p: Pattern, repl: string, q: Pattern, s: string, i: nat, m: nat)
    requires LetterAlias(p) && LetterAlias(q)
    requires i < m < |s| && MatchLen(p, s, m).Some? && MatchLen(q, s, i).None?
    requires forall k :: i <= k < m ==> MatchLen(p, s, k).None?
    requires |repl| > 0 && IsWordChar(repl[0])
    requires Stops(q, repl[0]) || CanalAfterAlias(p, q, repl, s)
    ensures MatchHere(q, WordAt(s, i - 1), SubFrom(p, repl, s, i)).None?
  {
    var before := WordAt(s, i - 1);
    var rest := SubFrom(p, repl, s, m + MatchLen(p, s, m).value);
    var out := s[i..m] + repl + rest;
    SubFromUpTo(p, repl, s, i, m);
    var ts := s[i..];
    var b := m - i;
    assert ts[..b] == out[..b];
    assert out[b] == repl[0] && ts[b] == s[m];
    MatchEnds(p, s, m);
    if Stops(q, repl[0]) {
      SpliceStart(q, before, ts, out, b);
    } else {
      CanalStart(s, m);
      assert out[b + 1] == repl[1] && ts[b + 1] == s[m + 1];
      assert MatchLen(FromAlias('c'), s, i).None?;
      CanalSpliceStart(before, ts, out, b);
    }
  }

  /** The first position of the output of a substitution starts no match of
      `q` where the text it copies started none. */
  lemma CopyStart(p: Pattern, repl: string, q: Pattern, s: string, i: nat)
    requires LetterAlias(p) && LetterAlias(q)
    requires i < |s| && MatchLen(p, s, i).None? && MatchLen(q, s, i).None?
    requires |repl| > 0 && IsWordChar(repl[0])
    requires Stops(q, repl[0]) || CanalAfterAlias(p, q, repl, s)
    ensures MatchHere(q, WordAt(s, i - 1), SubFrom(p, repl, s, i)).None?
  {
    var next := NextMatch(p, s, i);
    if next.None? {
      SubFromTail(p, repl, s, i);
    } else {
      CopyStartBefore(p, repl, q, s, i, next.value);
    }
  }

  /** The output of `SubFrom(p, repl, s, i)` starts no match of `q`, given
      that the replacement starts none and stops any that would run into it,
      and that `s` had none of `q` (or `q` is `p` itself). */
  lemma {:induction false} OutClean(p: Pattern, repl: string, q: Pattern, s: string, i: nat)
    requires LetterAlias(p) && LetterAlias(q) && i <= |s|
    requires |repl| > 0 && IsWordChar(repl[0]) && IsWordChar(repl[|repl| - 1]) && Inert(q, repl)
    requires Stops(q, repl[0]) || CanalAfterAlias(p, q, repl, s)
    requires q == p || NoMatch(q, s)
    ensures CleanFrom(q, WordAt(s, i - 1), SubFrom(p, repl, s, i))
    decreases |s| - i
  {
    if i < |s| {
      match MatchLen(p, s, i)
      case Some(n) =>
        OutClean(p, repl, q, s, i + n);
        ReplaceClean(p, repl, q, s, i, n);
      case None =>
        OutClean(p, repl, q, s, i + 1);
        CopyClean(p, repl, q, s, i);
    }
  }

  /** The step of `OutClean` where a match is replaced. */
  lemma ReplaceClean(p: Pattern, repl: string, q: Pattern, s: string, i: nat, n: nat)
    requires LetterAlias(p) && i < |s| && MatchLen(p, s, i) == Some(n)
    requires |repl| > 0 && IsWordChar(repl[|repl| - 1]) && Inert(q, repl)
    requires CleanFrom(q, WordAt(s, i + n - 1), SubFrom(p, repl, s, i + n))
    ensures CleanFrom(q, WordAt(s, i - 1), SubFrom(p, repl, s, i))
  {
    var rest := SubFrom(p, repl, s, i + n);
    SubFromReplaces(p, repl, s, i, n);
    assert SubFrom(p, repl, s, i) == repl + rest;
    MatchEnds(p, s, i);
    assert WordAt(s, i + n - 1) == IsWordChar(repl[|repl| - 1]);
    CleanAppend(q, WordAt(s, i - 1), repl, rest);
  }

  /** The step of `OutClean` where a character is copied. */
  lemma CopyClean(p: Pattern, repl: string, q: Pattern, s: string, i: nat)
    requires LetterAlias(p) && LetterAlias(q)
    requires i < |s| && MatchLen(p, s, i).None? && MatchLen(q, s, i).None?
    requires |repl| > 0 && IsWordChar(repl[0])
    requires Stops(q, repl[0]) || CanalAfterAlias(p, q, repl, s)
    requires CleanFrom(q, WordAt(s, i), SubFrom(p, repl, s, i + 1))
    ensures CleanFrom(q, WordAt(s, i - 1), SubFrom(p, repl, s, i))
  {
    SubFromKeeps(p, repl, s, i);
    CopyStart(p, repl, q, s, i);
    CleanCons(q, WordAt(s, i - 1), s[i], SubFrom(p, repl, s, i + 1));
  }

  /** The whole substitution leaves no match of `q`. */
  lemma SubClean(p: Pattern, repl: string, q: Pattern, s: string)
    requires LetterAlias(p) && LetterAlias(q)
    requires |repl| > 0 && IsWordChar(repl[0]) && IsWordChar(repl[|repl| - 1]) && Inert(q, repl)
    requires Stops(q, repl[0]) || CanalAfterAlias(p, q, repl, s)
    requires q == p || NoMatch(q, s)
    ensures NoMatch(q, Sub(p, repl, s))
  {
    OutClean(p, repl, q, s, 0);
    CleanNoMatch(q, Sub(p, repl, s));
  }

  // ------------------------------------------------------------ the replacements

  /** A text whose first character is not an `f` starts no match of `FROM`. */
  lemma NoFNoFrom(x: char, before: bool, t: string)
    requires |t| > 0 && !Folds(t[0], 'f')
    ensures MatchHere(FromAlias(x), before, t).None?
  {
  }

  /** `FROM` and one space before a word of two or more characters starts
      no match of `FROM` and a one-letter alias. */
  lemma FromLongWord(x: char, before: bool, t: string)
    requires |t| >= 7 && FromAt(t, 0) && t[4] == ' ' && !IsSpace(t[5])
    requires IsWordChar(t[5]) && IsWordChar(t[6])
    ensures MatchHere(FromAlias(x), before, t).None?
  {
    SpaceRunIs(t, 4, 1);
    assert !Boundary(t, 6);
  }

  /** A replacement with `FROM` and a long word at its start and no other
      `f` starts no match of `FROM` and a one-letter alias. */
  lemma InertFrom(x: char, u: string)
    requires |u| >= 7 && FromAt(u, 0) && u[4] == ' ' && !IsSpace(u[5])
    requires IsWordChar(u[5]) && IsWordChar(u[6])
    requires forall k :: 1 <= k < |u| ==> !Folds(u[k], 'f')
    ensures Inert(FromAlias(x), u)
  {
    forall k, before: bool, w: string | 0 <= k < |u|
      ensures MatchHere(FromAlias(x), before, u[k..] + w).None?
    {
      var t := u[k..] + w;
      if k == 0 {
        assert t[..7] == u[..7];
        assert t[0] == u[0] && t[1] == u[1] && t[2] == u[2] && t[3] == u[3];
        assert t[4] == u[4] && t[5] == u[5] && t[6] == u[6];
        FromLongWord(x, before, t);
      } else {
        assert t[0] == u[k];
        NoFNoFrom(x, before, t);
      }
    }
  }

  /** A replacement with no `f` at all starts no match of `FROM`. */
  lemma InertNoF(x: char, u: string)
    requires forall k :: 0 <= k < |u| ==> !Folds(u[k], 'f')
    ensures Inert(FromAlias(x), u)
  {
    forall k, before: bool, w: string | 0 <= k < |u|
      ensures MatchHere(FromAlias(x), before, u[k..] + w).None?
    {
      assert (u[k..] + w)[0] == u[k];
      NoFNoFrom(x, before, u[k..] + w);
    }
  }

  /** A replacement where no `c` is followed by a dot starts no match of
      `c.canal`. */
  predicate NoCanalDot(u: string) {
    forall k :: 0 <= k < |u| ==> !Folds(u[k], 'c') || (k + 1 < |u| && u[k + 1] != '.')
  }

  lemma InertCanal(u: string)
    requires NoCanalDot(u)
    ensures Inert(QualifiedCanal, u)
  {
    forall k, before: bool, w: string | 0 <= k < |u|
      ensures MatchHere(QualifiedCanal, before, u[k..] + w).None?
    {
      var t := u[k..] + w;
      assert t[0] == u[k];
      assert !Folds(u[k], 'c') || (k + 1 < |u| && u[k + 1] != '.');
      if Folds(u[k], 'c') {
        assert t[1] == u[k + 1];
        assert !CanalAt(t, 0);
      } else {
        assert !CanalAt(t, 0);
      }
    }
  }

  lemma SupportAliasInert()
    ensures Inert(FromAlias('s'), SupportAlias) && Inert(FromAlias('c'), SupportAlias)
  {
    var u := SupportAlias;
    assert FromAt(u, 0) && u[4] == ' ' && u[5] == 's' && u[6] == 'u';
    InertFrom('s', u);
    InertFrom('c', u);
  }

  lemma ClientAliasInert()
    ensures Inert(FromAlias('s'), ClientAlias) && Inert(FromAlias('c'), ClientAlias)
  {
    var u := ClientAlias;
    assert FromAt(u, 0) && u[4] == ' ' && u[5] == 'c' && u[6] == 'l';
    InertFrom('s', u);
    InertFrom('c', u);
  }

  lemma SupportCanalInert()
    ensures Inert(FromAlias('s'), SupportCanal) && Inert(FromAlias('c'), SupportCanal)
    ensures Inert(QualifiedCanal, SupportCanal)
  {
    var u := SupportCanal;
    assert u[0] == 's' && u[1] == '.' && u[2] == 'c' && u[3] == 'a' && u[4] == 'n' && u[5] == 'a' && u[6] == 'l';
    InertNoF('s', u);
    InertNoF('c', u);
    assert UpperChar('c') == 'C';
    assert NoCanalDot(u) by {
      forall k | 0 <= k < |u| ensures !Folds(u[k], 'c') || (k + 1 < |u| && u[k + 1] != '.') {
        assert |u| == 7;
        if k == 2 {
          assert u[k + 1] == 'a';
        } else {
          assert !Folds(u[k], 'c');
        }
      }
    }
    InertCanal(u);
  }

  // ------------------------------------------------------------ idempotence

  /** After the first substitution no `FROM s` is left; after the second no
      `FROM s` and no `FROM c`. */
  lemma AliasPassesClean(query: string)
    ensures NoMatch(FromAlias('s'), Sub(FromAlias('s'), SupportAlias, query))
    ensures var b := Sub(FromAlias('c'), ClientAlias, Sub(FromAlias('s'), SupportAlias, query));
            NoMatch(FromAlias('s'), b) && NoMatch(FromAlias('c'), b)
  {
    var a := Sub(FromAlias('s'), SupportAlias, query);
    SupportAliasInert();
    ClientAliasInert();
    assert SupportAlias[0] == 'F' && SupportAlias[|SupportAlias| - 1] == 's';
    assert ClientAlias[0] == 'F' && ClientAlias[|ClientAlias| - 1] == 'c';
    SubClean(FromAlias('s'), SupportAlias, FromAlias('s'), query);
    SubClean(FromAlias('c'), ClientAlias, FromAlias('c'), a);
    SubClean(FromAlias('c'), ClientAlias, FromAlias('s'), a);
  }

  /** The third substitution leaves no `c.canal` and brings back no `FROM s`
      and no `FROM c`. */
  lemma CanalPassClean(b: string)
    requires NoMatch(FromAlias('s'), b) && NoMatch(FromAlias('c'), b)
    ensures var r := Sub(QualifiedCanal, SupportCanal, b);
            NoMatch(QualifiedCanal, r) && NoMatch(FromAlias('s'), r) && NoMatch(FromAlias('c'), r)
  {
    SupportCanalInert();
    assert SupportCanal[0] == 's' && SupportCanal[1] == '.' && SupportCanal[|SupportCanal| - 1] == 'l';
    SubClean(QualifiedCanal, SupportCanal, QualifiedCanal, b);
    SubClean(QualifiedCanal, SupportCanal, FromAlias('c'), b);
    assert CanalAfterAlias(QualifiedCanal, FromAlias('s'), SupportCanal, b);
    SubClean(QualifiedCanal, SupportCanal, FromAlias('s'), b);
  }

  /** Repairing a repaired query changes nothing. */
  lemma CorrectAliasesIdempotent(query: string)
    ensures CorrectAliases(CorrectAliases(query)) == CorrectAliases(query)
  {
    var a := Sub(FromAlias('s'), SupportAlias, query);
    var b := Sub(FromAlias('c'), ClientAlias, a);
    var r := CorrectAliases(query);
    AliasPassesClean(query);
    if Contains(b, SupportAlias) {
      CanalPassClean(b);
      SubNoMatch(QualifiedCanal, SupportCanal, r);
    }
    SubNoMatch(FromAlias('s'), SupportAlias, r);
    SubNoMatch(FromAlias('c'), ClientAlias, r);
  }
}
