/** Which case selections a run accepts, and what it then runs. */
module CaseSelection {
  import opened Options
  import opened RunTables

  function Ids(s: seq<CaseId>): set<CaseId> { set x | x in s }

  lemma {:induction false} DistinctByCount(s: seq<CaseId>)
    ensures |Ids(s)| <= |s|
    ensures |Ids(s)| == |s| <==> Distinct(s)
  {
    if s == [] {
    } else {
      DistinctByCount(s[1..]);
      assert s == [s[0]] + s[1..];
      assert Ids(s) == Ids(s[1..]) + {s[0]};
      if s[0] in s[1..] {
        assert Ids(s) == Ids(s[1..]);
      } else {
        assert |Ids(s)| == |Ids(s[1..])| + 1;
        if Distinct(s[1..]) {
          forall j, k | 0 <= j < k < |s| ensures s[j] != s[k] {
            if j > 0 { assert s[1..][j - 1] != s[1..][k - 1]; } else { assert s[k] == s[1..][k - 1]; }
          }
        }
      }
    }
  }

  lemma {:induction false} LoadedCases(suite: seq<CaseId>, ids: Option<seq<CaseId>>)
    requires Distinct(suite)
    ensures
      var cases := LoadSuiteCases(suite, ids);
      && Distinct(cases)
      && (ids.None? ==> cases == suite)
      && forall c :: c in cases <==> c in suite && (ids.None? || c in ids.value)
  {
    if suite == [] {
    } else {
      LoadedCases(suite[1..], ids);
      assert suite == [suite[0]] + suite[1..];
      var rest := LoadSuiteCases(suite[1..], ids);
      assert forall k | 1 <= k < |suite| :: suite[k] != suite[0];
      assert suite[0] !in rest;
    }
  }

  /** A selection is accepted iff it names each case once and only cases of the suite; the run then
      has exactly those cases, each once. Without a selection it is the whole suite, if any. */
  lemma SelectionIsExact(suite: seq<CaseId>, ids: Option<seq<CaseId>>)
    requires Distinct(suite)
    ensures
      match ids
      case None => SelectCases(suite, ids) == if suite == [] then Err(EmptySuite) else Ok(suite)
      case Some(wanted) =>
        && (SelectCases(suite, ids).Ok? <==> Distinct(wanted) && forall c | c in wanted :: c in suite)
        && (SelectCases(suite, ids) == Err(DuplicateIds) <==> !Distinct(wanted))
        && (SelectCases(suite, ids).Ok? ==>
              var cases := SelectCases(suite, ids).value;
              Distinct(cases) && |cases| == |wanted| && forall c :: c in cases <==> c in wanted)
  {
    LoadedCases(suite, ids);
    if ids.Some? {
      var cases := LoadSuiteCases(suite, ids);
      DistinctByCount(ids.value);
      DistinctByCount(cases);
      var wanted := ids.value;
      assert Ids(wanted) == (set x | x in wanted) && Ids(cases) == (set x | x in cases);
      if forall c | c in wanted :: c in suite {
        assert Ids(wanted) == Ids(cases);
      } else {
        var c :| c in wanted && c !in suite;
        assert c in Ids(wanted) && c !in Ids(cases);
      }
    }
  }
}
