/** Worked examples of the data consultant's gate and pipeline on concrete
    queries and store answers. */
module ConsultantExamples {
  import opened Wrappers
  import opened Text
  import opened Frames
  import opened Shaping
  import opened DataConsultant

  /** The blank belongs to each opening: `DROPTABLE x` passes the gate. */
  lemma GluedOpeningPasses(q: string)
    requires q == "DROPTABLE x"
    ensures Refusal(q).None?
  {
    var up := "DROPTABLE X";
    StripUnchanged(q);
    SameUpper(q, up);
    assert up[..5] == "DROPT" && up[..7] == "DROPTAB";
    NoOpeningPasses(q, up);
  }

  /** A bare `drop` is shorter than every opening and passes the gate. */
  lemma BareVerbPasses(q: string)
    requires q == "drop"
    ensures Refusal(q).None?
  {
    StripUnchanged(q);
    SameUpper(q, "DROP");
    NoOpeningPasses(q, "DROP");
  }

  /** Surrounding blanks and lower case do not hide a `DROP`. */
  lemma LowerCaseDropRefused(q: string)
    requires q == "  drop t  "
    ensures Refusal(q) == Some(DangerousStatement("DROP"))
  {
    var up := "DROP T";
    StripPadded(q);
    UpperDropT();
    NoCharNoContains(up, "WHERE", 'W');
    assert up[..5] == "DROP ";
    assert Flags(up, Forbidden[0]);
  }

  /** A filtered `DELETE` passes the gate. */
  lemma FilteredDeletePasses(q: string)
    requires q == "delete from t where id = 1"
    ensures Refusal(q).None?
  {
    var up := "DELETE FROM T WHERE ID = 1";
    StripUnchanged(q);
    UpperFilteredDelete();
    DeleteHasWhere(up);
    WherePasses(q);
  }

  lemma UpperDropT()
    ensures Upper("drop t") == "DROP T"
  {
  }

  lemma UpperFilteredDelete()
    ensures Upper("delete from t where id = 1") == "DELETE FROM T WHERE ID = 1"
  {
    UpperAppend("delete from t ", "where id = 1");
    assert "delete from t where id = 1" == "delete from t " + "where id = 1";
    assert Upper("delete from t ") == "DELETE FROM T ";
    assert Upper("where id = 1") == "WHERE ID = 1";
  }

  lemma DeleteHasWhere(up: string)
    requires up == "DELETE FROM T WHERE ID = 1"
    ensures Contains(up, "WHERE")
  {
    assert up[14..19] == "WHERE";
    assert OccursAt(up, "WHERE", 14);
  }

  lemma StripPadded(q: string)
    requires q == "  drop t  "
    ensures Strip(q) == "drop t"
  {
    StripAround("  ", "drop t", "  ");
    assert "  " + "drop t" + "  " == q;
  }

  /** `up` is the upper-case form of `s`, checked character by character. */
  lemma SameUpper(s: string, up: string)
    requires |s| == |up| && forall i :: 0 <= i < |s| ==> UpperChar(s[i]) == up[i]
    ensures Upper(s) == up
  {
  }

  /** A non-blank query whose gate text opens with no forbidden statement passes. */
  lemma NoOpeningPasses(query: string, upper: string)
    requires !IsBlank(query) && GateText(query) == upper
    requires forall k :: 0 <= k < |Forbidden| ==> !StartsWith(upper, Forbidden[k])
    ensures Refusal(query).None?
  {
  }

  /** A pie request whose only value is `0`: the empty frame that shaping
      leaves is cached, because emptiness is checked before shaping. */
  lemma ZeroPieIsCached(query: string, cache: map<string, Frame>,
                        store: string -> Result<Frame, StoreError>, nums: Numerics)
    requires Refusal(query).None? && query !in cache
    requires store(query) == Ok(Table(["canal", "total"], [[Str("app"), Str("0")]]))
    requires nums.evaluate("0") == Some(0.0)
    ensures var o := Run(query, Some("pie"), cache, store, nums);
      o == Processed(Table(PieColumns, [])) && NextCache(cache, query, o)[query] == Table(PieColumns, [])
  {
    var t: Frame := Table(["canal", "total"], [[Str("app"), Str("0")]]);
    ZeroPieChart(t, nums);
    PromotionKeepsChart(Table(PieColumns, []), nums);
  }

  lemma ZeroPieChart(t: Frame, nums: Numerics)
    requires t == Table(["canal", "total"], [[Str("app"), Str("0")]])
    requires nums.evaluate("0") == Some(0.0)
    ensures PrepareChartData(t, nums) == Ok(Table(PieColumns, []))
  {
    KeepAllKept("0", IsPieChar);
    assert ExpandK("0") == "0" by {
      assert "0"[1..] == [];
    }
    assert PieValue(Str("0"), nums) == Some(0.0);
    var converted := [[Str("app"), Num(0.0)]];
    var r := PieRows(t.rows, nums);
    assert r.Some?;
    assert |r.value| == 1;
    assert r.value[0] == [t.rows[0][0], Num(PieValue(t.rows[0][1], nums).value)];
    assert r.value[0] == converted[0];
    assert r.value == converted;
    assert KeepPositive(converted) == [] by {
      assert converted[1..] == [];
    }
  }

  /** A pie request where one value cleans to nothing (`abc`), which
      `pd.eval` rejects: the whole call fails, the caller receives an empty
      frame and nothing is cached. */
  lemma UnreadablePieFails(query: string, cache: map<string, Frame>,
                           store: string -> Result<Frame, StoreError>, nums: Numerics)
    requires Refusal(query).None? && query !in cache
    requires store(query) == Ok(Table(["canal", "total"], [[Str("app"), Str("-3")], [Str("web"), Str("abc")]]))
    requires nums.evaluate("").None?
    ensures var o := Run(query, Some("pie"), cache, store, nums);
      o.Failed? && Returned(o) == EmptyFrame && NextCache(cache, query, o) == cache
  {
    var t: Frame := Table(["canal", "total"], [[Str("app"), Str("-3")], [Str("web"), Str("abc")]]);
    UnreadablePieValue(t, nums);
    ShapingFailureNotCached(query, Some("pie"), cache, store, nums, t);
  }

  /** A non-empty answer that shaping rejects fails the call and is not cached. */
  lemma ShapingFailureNotCached(query: string, vis: Option<string>, cache: map<string, Frame>,
                                store: string -> Result<Frame, StoreError>, nums: Numerics, t: Frame)
    requires Refusal(query).None? && query !in cache
    requires store(query) == Ok(t) && !IsEmpty(t) && Process(t, vis, nums).Err?
    ensures var o := Run(query, vis, cache, store, nums);
      o.Failed? && Returned(o) == EmptyFrame && NextCache(cache, query, o) == cache
  {
    var o := Run(query, vis, cache, store, nums);
    assert o == Answer(query, vis, Ok(t), nums);
    assert o == Failed(UnexpectedError(Process(t, vis, nums).error));
  }

  lemma UnreadablePieValue(t: Frame, nums: Numerics)
    requires t == Table(["canal", "total"], [[Str("app"), Str("-3")], [Str("web"), Str("abc")]])
    requires nums.evaluate("").None?
    ensures PieValue(t.rows[1][1], nums).None?
    ensures !IsEmpty(t) && Process(t, Some("pie"), nums).Err?
  {
    KeepNoneKept("abc", IsPieChar);
    assert PieExpression(Str("abc"), nums) == "";
    assert PieValue(t.rows[1][1], nums).None?;
    assert |t.columns| == 2 && 1 < |t.rows|;
  }
}
