/** Worked requests for the natural-language agent. Each lemma takes the
    request as a parameter fixed by its precondition, and reads the
    lower-cased text character by character. */
module LanguageExamples {
  import opened Wrappers
  import opened Text
  import opened NaturalLanguage
  import opened AliasRepair

  /** `low` is the lower-case form of `s`, checked character by character. */
  lemma SameLower(s: string, low: string)
    requires |s| == |low| && forall i :: 0 <= i < |s| ==> LowerChar(s[i]) == low[i]
    ensures Lower(s) == low
  {
  }

  /** `mes 123` reads as December: the greedy `\d{1,2}` stops after two digits. */
  lemma ThreeDigitMonth(c: string)
    requires c == "mes 123"
    ensures ExtractMonth(c) == Some("12")
  {
    SameLower(c, c);
    NoMonthName(c);
    assert SpaceRun(c, 3) == 1;
    assert MesNumberAt(c, 0) == Some(12);
    TwoDigitsIsCode(12);
  }

  /** `mês 13` names no month. */
  lemma ThirteenIsNoMonth(c: string)
    requires c == "mês 13"
    ensures ExtractMonth(c) == None
  {
    SameLower(c, c);
    NoMonthName(c);
    assert SpaceRun(c, 3) == 1;
    assert MesNumberAt(c, 0) == Some(13);
  }

  /** `mês 7` is July, zero-padded. */
  lemma SingleDigitMonth(c: string)
    requires c == "Mês 7"
    ensures ExtractMonth(c) == Some("07")
  {
    var low := "mês 7";
    SameLower(c, low);
    NoMonthName(low);
    assert SpaceRun(low, 3) == 1;
    assert MesNumberAt(low, 0) == Some(7);
    TwoDigitsIsCode(7);
  }

  /** Table order, not text order: `abril ou janeiro` is January. */
  lemma TableOrderWins(c: string)
    requires c == "abril ou janeiro"
    ensures ExtractMonth(c) == Some("01")
  {
    SameLower(c, c);
    assert c[9..16] == "janeiro";
    assert OccursAt(c, MonthNames[0], 9);
  }

  /** Support words take precedence: a request about tickets for sales is
      routed to the support table. */
  lemma SupportBeforePurchases(c: string)
    requires c == "tickets de vendas"
    ensures DetectDomain(Lower(c)) == Support
  {
    SameLower(c, c);
    assert c[0..6] == "ticket";
    assert OccursAt(c, "ticket", 0);
    assert "ticket" in SupportWords;
  }

  /** `pizza` wins over `linha`, wherever each occurs. */
  lemma PieBeforeLine(c: string)
    requires c == "gráfico de linha ou pizza"
    ensures DetectVisualization(Lower(c)) == Some("pie")
  {
    PieRequestIsLower(c);
    assert c[0..7] == "gráfico";
    assert OccursAt(c, "gráfico", 0);
    assert c[20..25] == "pizza";
    assert OccursAt(c, "pizza", 20);
  }

  /** The request is already in lower case. */
  lemma PieRequestIsLower(c: string)
    requires c == "gráfico de linha ou pizza"
    ensures Lower(c) == c
  {
    var chart, rest := "gráfico de ", "linha ou pizza";
    assert c == chart + rest;
    SameLower(chart, chart);
    SameLower(rest, rest);
    LowerAppend(chart, rest);
  }

  /** Unresolved complaints in March: the support template filtered on
      March and on the year, with no chart. */
  lemma ComplaintsInMarch(c: string, yearLookup: Option<string>, reply: Option<string>)
    requires c == "Reclamações em março"
    ensures InterpretCommand(c, yearLookup, reply) == (Template(Support, Some("03"), YearOrDefault(yearLookup)), None)
  {
    var low := "reclamações em março";
    SameLower(c, low);
    ComplaintsDomain(low);
    ComplaintsMonth(c, low);
    ComplaintsNoChart(low);
  }

  lemma ComplaintsDomain(low: string)
    requires low == "reclamações em março"
    ensures DetectDomain(low) == Support
  {
    assert low[0..8] == "reclamaç";
    assert OccursAt(low, "reclamaç", 0);
    assert "reclamaç" in SupportWords;
  }

  lemma ComplaintsMonth(c: string, low: string)
    requires low == "reclamações em março" && Lower(c) == low
    ensures ExtractMonth(c) == Some("03")
  {
    NoCharNoContains(low, "janeiro", 'j');
    NoCharNoContains(low, "fevereiro", 'f');
    assert low[15..20] == "março";
    assert OccursAt(low, MonthNames[2], 15);
  }

  lemma ComplaintsNoChart(low: string)
    requires low == "reclamações em março"
    ensures DetectVisualization(low) == None
  {
    NoCharNoContains(low, "gráfico", 'g');
    NoCharNoContains(low, "grafico", 'g');
  }

  /** The bare alias `s` after `FROM` is given its table. */
  lemma SupportAliasRepaired(q: string)
    requires q == "SELECT canal FROM s"
    ensures CorrectAliases(q) == "SELECT canal " + SupportAlias
  {
    var a := "SELECT canal " + SupportAlias;
    RepairFirstPass(q, a);
    RepairLaterPasses(a);
  }

  lemma RepairFirstPass(q: string, a: string)
    requires q == "SELECT canal FROM s" && a == "SELECT canal " + SupportAlias
    ensures Sub(FromAlias('s'), SupportAlias, q) == a
  {
    NoFBefore13(q);
    NoFromBefore(q, 13);
    SubFromCopies(FromAlias('s'), SupportAlias, q, 0, 13);
    MatchAtFrom(q);
    assert q[..13] == "SELECT canal ";
  }

  lemma NoFBefore13(q: string)
    requires q == "SELECT canal FROM s"
    ensures 13 <= |q| && forall k :: 0 <= k < 13 ==> !Folds(q[k], 'f')
  {
  }

  /** No match of `FROM s` starts before the first `f`. */
  lemma NoFromBefore(q: string, j: nat)
    requires j <= |q| && forall k :: 0 <= k < j ==> !Folds(q[k], 'f')
    ensures forall k :: 0 <= k < j ==> MatchLen(FromAlias('s'), q, k).None?
  {
    forall k | 0 <= k < j
      ensures MatchLen(FromAlias('s'), q, k).None?
    {
      if MatchLen(FromAlias('s'), q, k).Some? {
        FromStartsWithF('s', q, k);
      }
    }
  }

  lemma MatchAtFrom(q: string)
    requires q == "SELECT canal FROM s"
    ensures MatchLen(FromAlias('s'), q, 13) == Some(6) && SubFrom(FromAlias('s'), SupportAlias, q, 19) == []
  {
    assert SpaceRun(q, 17) == 1;
  }

  lemma RepairLaterPasses(a: string)
    requires a == "SELECT canal " + SupportAlias
    ensures Sub(FromAlias('c'), ClientAlias, a) == a
    ensures Sub(QualifiedCanal, SupportCanal, a) == a
  {
    ClientPassKeeps(a);
    CanalPassKeeps(a);
  }

  /** The only `FROM` is followed by `s`, so the `FROM c` pass finds nothing. */
  lemma ClientPassKeeps(a: string)
    requires a == "SELECT canal " + SupportAlias
    ensures Sub(FromAlias('c'), ClientAlias, a) == a
  {
    OnlyFAt13(a);
    var t := a[13..];
    assert t == SupportAlias;
    assert SpaceRun(t, 4) == 1;
    assert MatchHere(FromAlias('c'), WordAt(a, 12), t).None?;
    OnlyFromAt('c', a, 13);
    SubNoMatch(FromAlias('c'), ClientAlias, a);
  }

  /** Without a dot the `c.canal` pass finds nothing. */
  lemma CanalPassKeeps(a: string)
    requires a == "SELECT canal " + SupportAlias
    ensures Sub(QualifiedCanal, SupportCanal, a) == a
  {
    assert '.' !in a;
    NoDotNoCanal(a);
    SubNoMatch(QualifiedCanal, SupportCanal, a);
  }

  lemma OnlyFAt13(a: string)
    requires a == "SELECT canal " + SupportAlias
    ensures forall k :: 0 <= k < |a| && k != 13 ==> !Folds(a[k], 'f')
  {
  }
}
