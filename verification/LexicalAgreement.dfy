/** When the dashboard and the comparison show the same similarity, for rows the program really writes:
    both lexical evaluators compute one score, so they differ only in whether they raise. */
module LexicalAgreement {
  import opened Options
  import opened RunTables
  import opened EvaluatorText
  import opened EvaluatorEngine
  import opened RunReadings
  import opened MetricSamples
  import opened Rounding
  import opened GateSoundness
  import Statistics

  const OVERLAP := "token_f1_overlap"
  const SEMANTIC := "semantic_similarity"

  /** What `float(config.get("threshold", 0.7))` yields; it raises on text that is no number. */
  datatype Threshold = Unreadable | Bound(value: real)

  /** `_token_f1_result`; None when it raises. */
  function LexicalRow(name: string, expected: Option<string>, answer: string, threshold: Threshold): Option<EvalRow> {
    if expected.None? then Some(EvalRow(name, None, None, false, true))
    else match threshold
      case Unreadable => None
      case Bound(value) =>
        var score := TokenF1(answer, expected.value);
        Some(EvalRow(name, Some(score), Some(score >= value), false, false))
  }

  /** A lexical evaluator passes exactly when twice the shared tokens reach the threshold times all tokens of
      both sides; it reports that score, and without an expected answer it skips. */
  lemma PassesExactly(name: string, expected: Option<string>, answer: string, value: real)
    ensures
      var result := LexicalRow(name, expected, answer, Bound(value));
      && result.Some? && result.value.evaluator == name && !result.value.errored
      && (expected.None? ==> result.value.skipped && result.value.passed.None? && result.value.score.None?)
      && (expected.Some? && |TokenSet(answer)| + |TokenSet(expected.value)| > 0 ==>
            var all := (|TokenSet(answer)| + |TokenSet(expected.value)|) as real;
            var shared := 2.0 * |TokenSet(answer) * TokenSet(expected.value)| as real;
            && !result.value.skipped && result.value.score.Some? && result.value.score.value * all == shared
            && result.value.passed == Some(shared >= value * all))
  {
    hide TokenF1, TokenSet;
    if expected.Some? && |TokenSet(answer)| + |TokenSet(expected.value)| > 0 {
      ScoreCompares(answer, expected.value, value);
    }
  }

  lemma ScoreCompares(answer: string, expected: string, value: real)
    requires |TokenSet(answer)| + |TokenSet(expected)| > 0
    ensures
      var all := (|TokenSet(answer)| + |TokenSet(expected)|) as real;
      var shared := 2.0 * |TokenSet(answer) * TokenSet(expected)| as real;
      TokenF1(answer, expected) * all == shared && (TokenF1(answer, expected) >= value <==> shared >= value * all)
  {
    hide *;
    var all := (|TokenSet(answer)| + |TokenSet(expected)|) as real;
    var shared := 2.0 * |TokenSet(answer) * TokenSet(expected)| as real;
    assert TokenSet(answer) != {} || TokenSet(expected) != {};
    F1IsDice(answer, expected);
    CompareTimes(TokenF1(answer, expected), shared, all, value);
  }

  lemma CompareTimes(score: real, shared: real, all: real, value: real)
    requires all > 0.0 && score == shared / all
    ensures score * all == shared && (score >= value <==> shared >= value * all)
  {
    assert score * all == shared;
    TimesKeepsOrder(score, value, all);
  }

  lemma TimesKeepsOrder(x: real, y: real, n: real)
    requires n > 0.0
    ensures x >= y <==> x * n >= y * n
  {
    if x >= y { Statistics.ProductNonNegative(x - y, n); } else { PositiveTimes(y - x, n); }
    assert (x - y) * n == x * n - y * n;
  }

  lemma PositiveTimes(x: real, y: real)
    requires x > 0.0 && y > 0.0
    ensures x * y > 0.0
  {
  }

  /** Both lexical evaluators run the shared function, each with its own threshold. */
  ghost predicate RunsLexically(run: Evaluators, expected: CaseId -> Option<string>, thresholds: string -> Threshold) {
    forall name, c, output | name in SIMILARITY_NAMES ::
      run(name, c, output) == LexicalRow(name, expected(c), output.answer, thresholds(name))
  }

  /** A lexical score, stored with six decimal places, fits the similarity column. */
  lemma LexicalScoreFits(answer: string, expected: string)
    ensures ColumnOf("semantic_similarity").Holds(Round6(TokenF1(answer, expected)))
  {
    F1Range(answer, expected);
    RoundMonotone(0.0, TokenF1(answer, expected));
    RoundMonotone(TokenF1(answer, expected), 1.0);
    RoundFixesGrid(0.0);
    RoundFixesGrid(1.0);
    RoundedOnGrid(TokenF1(answer, expected));
  }

  /** The overlap evaluator is listed and raises while the semantic one is listed and scores. */
  predicate Splits(specs: seq<Spec>, expected: Option<string>, thresholds: string -> Threshold) {
    && expected.Some?
    && Object(OVERLAP) in specs && thresholds(OVERLAP).Unreadable?
    && Object(SEMANTIC) in specs && thresholds(SEMANTIC).Bound?
  }

  predicate RowsSplit(rows: seq<EvalRow>) {
    var overlap, semantic := FindResult(rows, OVERLAP), FindResult(rows, SEMANTIC);
    overlap.Some? && overlap.value.errored && semantic.Some? && semantic.value.score.Some?
  }

  function Attempt(name: string, result: Option<EvalRow>): EvalRow {
    if result.Some? then result.value else NotFoundRow(name)
  }

  /** A lexical evaluator has a row iff it is listed, and the row is its attempt. */
  lemma LexicalFound(specs: seq<Spec>, c: CaseId, output: AdapterOutput, run: Evaluators, name: string)
    requires AllObjects(specs) && ReportOwnName(run) && name in SIMILARITY_NAMES
    ensures
      var found := FindResult(RowsFor(specs, c, output, run), name);
      && (found.Some? <==> Object(name) in specs)
      && (found.Some? ==> found.value == Attempt(name, run(name, c, output)))
  {
    var rows := RowsFor(specs, c, output, run);
    assert name in REGISTRY;
    FoundIs(rows, name);
    hide FindResult;
    forall k | 0 <= k < |specs| ensures rows[k].evaluator == name <==> specs[k] == Object(name) {
      assert rows[k] == RowFor(specs[k], c, output, run) && "unknown" != name;
    }
    if Object(name) in specs {
      var k :| 0 <= k < |specs| && specs[k] == Object(name);
      assert rows[k] in rows;
    }
    if FindResult(rows, name).Some? {
      var k :| 0 <= k < |rows| && rows[k] == FindResult(rows, name).value;
      assert specs[k] == Object(name);
    }
  }

  lemma LexicalRowsClear(specs: seq<Spec>, c: CaseId, output: AdapterOutput, run: Evaluators,
      expected: CaseId -> Option<string>, thresholds: string -> Threshold)
    requires AllObjects(specs) && ReportOwnName(run) && RunsLexically(run, expected, thresholds)
    ensures
      var rows := RowsFor(specs, c, output, run);
      && (SimilarityClear(rows) <==> !Splits(specs, expected(c), thresholds))
      && (RowsSplit(rows) <==> Splits(specs, expected(c), thresholds))
  {
    assert OVERLAP in SIMILARITY_NAMES && SEMANTIC in SIMILARITY_NAMES;
    LexicalFound(specs, c, output, run, OVERLAP);
    LexicalFound(specs, c, output, run, SEMANTIC);
    hide FindResult, TokenF1, RowsFor;
    assert run(OVERLAP, c, output) == LexicalRow(OVERLAP, expected(c), output.answer, thresholds(OVERLAP));
    assert run(SEMANTIC, c, output) == LexicalRow(SEMANTIC, expected(c), output.answer, thresholds(SEMANTIC));
  }

  /** Under any accepted configuration both readings show the same similarity for a case, in every
      reading order, exactly when it is not so that the overlap row errored while the semantic row
      scored; which is a matter of the two thresholds. */
  lemma AcceptedSimilarityAgreesExactly(specs: seq<Spec>, available: set<string>, c: CaseId, output: AdapterOutput,
      run: Evaluators, expected: CaseId -> Option<string>, thresholds: string -> Threshold)
    requires Accepted(specs, available) && ReportOwnName(run) && RunsLexically(run, expected, thresholds)
    ensures AllObjects(specs)
    ensures
      var rows := RowsFor(specs, c, output, run);
      && ((forall read | multiset(read) == multiset(rows) :: LastSimilarity(read) == ShownSimilarity(rows))
            <==> !RowsSplit(rows))
      && (RowsSplit(rows) <==> Splits(specs, expected(c), thresholds))
  {
    hide LastSimilarity, ShownSimilarity, SimilarityClear, RowsSplit, Splits, RunsLexically, ReportOwnName;
    AcceptedRowsDistinct(specs, available, c, output, run);
    LexicalRowsClear(specs, c, output, run, expected, thresholds);
    SimilarityAgreesExactly(RowsFor(specs, c, output, run));
  }

  /** For instance a threshold of the overlap evaluator that is no number: the dashboard shows nothing
      where the comparison judges the semantic score. */
  lemma OverlapErrsWhileSemanticScores(c: CaseId, output: AdapterOutput, expected: string) returns (rows: seq<EvalRow>)
    ensures
      exists run: Evaluators | ReportOwnName(run) && RunsLexically(run, _ => Some(expected), OverlapUnreadable) ::
        && Accepted([Object(OVERLAP), Object(SEMANTIC)], REGISTRY)
        && rows == RowsFor([Object(OVERLAP), Object(SEMANTIC)], c, output, run)
    ensures ShownSimilarity(rows) == None && LastSimilarity(rows) == Some(TokenF1(output.answer, expected))
  {
    var specs := [Object(OVERLAP), Object(SEMANTIC)];
    var run: Evaluators := (name: string, c: CaseId, output: AdapterOutput) =>
      if name in SIMILARITY_NAMES then LexicalRow(name, Some(expected), output.answer, OverlapUnreadable(name))
        else None;
    BothAccepted();
    hide TokenF1;
    assert OVERLAP == SIMILARITY_NAMES[0] && SEMANTIC == SIMILARITY_NAMES[1];
    assert ReportOwnName(run) && RunsLexically(run, _ => Some(expected), OverlapUnreadable);
    rows := RowsFor(specs, c, output, run);
    var scored := EvalRow(SEMANTIC, Some(TokenF1(output.answer, expected)),
      Some(TokenF1(output.answer, expected) >= 0.7), false, false);
    assert rows == [NotFoundRow(OVERLAP), scored];
    assert Similarity(scored);
  }

  function OverlapUnreadable(name: string): Threshold {
    if name == OVERLAP then Unreadable else Bound(0.7)
  }

  lemma BothAccepted()
    ensures Accepted([Object(OVERLAP), Object(SEMANTIC)], REGISTRY)
  {
    RegisteredNamesAreStripped(OVERLAP);
    RegisteredNamesAreStripped(SEMANTIC);
  }

  /** Over a run: when every item's rows, if any, come from one accepted configuration, the items are all
      clear exactly when no evaluated item splits. */
  lemma AcceptedRunClearExactly(db: Db, r: RunId, specs: seq<Spec>, run: Evaluators, outputs: ItemId -> AdapterOutput,
      expected: CaseId -> Option<string>, thresholds: string -> Threshold)
    requires AllObjects(specs) && ReportOwnName(run) && RunsLexically(run, expected, thresholds)
    requires forall i | i in ItemsOf(db, r) ::
      Stored(db, i).rows == [] || Stored(db, i).rows == RowsFor(specs, db.items[i].caseId, outputs(i), run)
    ensures AllClear(db, r) <==>
      forall i | i in ItemsOf(db, r) && Stored(db, i).rows != [] ::
        !Splits(specs, expected(db.items[i].caseId), thresholds)
  {
    hide SimilarityClear, Splits, RunsLexically, ReportOwnName, RowsSplit;
    forall i | i in ItemsOf(db, r)
      ensures SimilarityClear(Stored(db, i).rows)
        <==> (Stored(db, i).rows == [] || !Splits(specs, expected(db.items[i].caseId), thresholds))
    {
      if Stored(db, i).rows == [] {
        NothingIsClear();
      } else {
        LexicalRowsClear(specs, db.items[i].caseId, outputs(i), run, expected, thresholds);
      }
    }
  }

  lemma NothingIsClear()
    ensures SimilarityClear([])
  {
  }
}
