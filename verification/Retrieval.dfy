/** Scored retrieval over a small corpus, and the answer generated from what was retrieved. */
module Retrieval {
  import opened Options
  import opened Sequences
  import opened Strings
  import opened Sorting
  import opened Rounding
  import opened EvaluatorText

  datatype Document = Document(docId: string, text: string, answer: string)

  datatype Chunk = Chunk(docId: string, text: string, score: real, answer: string)

  function Subject(docId: string): string {
    if "python-" <= docId then docId[|"python-"|..] else docId
  }

  function Score(question: string, d: Document): real {
    var asked := TokenSet(question);
    var overlap := |asked * TokenSet(d.text)|;
    var boost := if TokenSet(Subject(d.docId)) * asked != {} then 1.0 else 0.0;
    Round6(overlap as real / (if |asked| > 1 then |asked| else 1) as real + boost)
  }

  function Scored(question: string, d: Document): Chunk {
    Chunk(d.docId, d.text, Score(question, d), d.answer)
  }

  function ScoredAll(question: string, corpus: seq<Document>): (r: seq<Chunk>)
    ensures |r| == |corpus| && forall k | 0 <= k < |corpus| :: r[k] == Scored(question, corpus[k])
  {
    seq(|corpus|, k requires 0 <= k < |corpus| => Scored(question, corpus[k]))
  }

  /** Better score first, then smaller document id. */
  predicate Precedes(a: Chunk, b: Chunk) {
    a.score > b.score || (a.score == b.score && StringLe(a.docId, b.docId))
  }

  /** Python's `s[:k]`, where a negative k drops elements from the end. */
  function Upto<T>(s: seq<T>, k: int): seq<T> {
    if k >= |s| then s
    else if k >= 0 then s[..k]
    else if |s| + k >= 0 then s[..|s| + k]
    else []
  }

  function Ranked(question: string, corpus: seq<Document>): (r: seq<Chunk>)
    ensures |r| == |corpus|
  {
    Sort(ScoredAll(question, corpus), Precedes)
  }

  /** `retrieve`. */
  method Retrieve(question: string, corpus: seq<Document>, topK: int) returns (r: seq<Chunk>)
    ensures r == Upto(Ranked(question, corpus), topK)
  {
    hide Scored, Precedes;
    var scored: seq<Chunk> := [];
    for k := 0 to |corpus|
      invariant scored == ScoredAll(question, corpus)[..k]
    {
      scored := scored + [Scored(question, corpus[k])];
    }
    assert scored == ScoredAll(question, corpus);
    r := Upto(Sort(scored, Precedes), topK);
  }

  lemma PrecedesOrders()
    ensures TotalPreorder(Precedes)
  {
    forall x, y ensures Precedes(x, y) || Precedes(y, x) { StringLeTotal(x.docId, y.docId); }
    forall x, y, z | Precedes(x, y) && Precedes(y, z) ensures Precedes(x, z) {
      if x.score == y.score == z.score { StringLeTransitive(x.docId, y.docId, z.docId); }
    }
  }

  predicate DistinctIds(corpus: seq<Document>) {
    forall j, k | 0 <= j < k < |corpus| :: corpus[j].docId != corpus[k].docId
  }

  lemma OneScored(question: string, corpus: seq<Document>, x: Chunk, y: Chunk)
    requires DistinctIds(corpus) && x.docId == y.docId
    requires x in ScoredAll(question, corpus) && y in ScoredAll(question, corpus)
    ensures x == y
  {
    hide Score;
    var scored := ScoredAll(question, corpus);
    var j :| 0 <= j < |scored| && scored[j] == x;
    var k :| 0 <= k < |scored| && scored[k] == y;
    assert corpus[j].docId == corpus[k].docId;
  }

  lemma ChunksDistinguished(question: string, corpus: seq<Document>)
    requires DistinctIds(corpus)
    ensures KeysDistinguish(ScoredAll(question, corpus), Precedes)
  {
    hide ScoredAll, StringLe, DistinctIds;
    var scored := ScoredAll(question, corpus);
    forall x, y | x in scored && y in scored && Precedes(x, y) && Precedes(y, x) ensures x == y {
      StringLeAntisymmetric(x.docId, y.docId);
      OneScored(question, corpus, x, y);
    }
  }

  /** Retrieval returns the best chunks: it splits all scored chunks into those returned and the rest,
      and everything returned precedes everything left out. Larger limits extend smaller ones. */
  lemma TopChunks(question: string, corpus: seq<Document>, topK: nat)
    ensures
      var ranked := Ranked(question, corpus);
      var top := Upto(ranked, topK);
      && |top| == (if topK <= |corpus| then topK else |corpus|)
      && top <= ranked && multiset(ranked) == multiset(ScoredAll(question, corpus))
      && SortedBy(top, Precedes)
      && (forall x, y | x in top && y in ranked[|top|..] :: Precedes(x, y))
      && (forall more: nat | topK <= more :: top <= Upto(ranked, more))
  {
    hide Precedes, ScoredAll;
    PrecedesOrders();
    SortSorts(ScoredAll(question, corpus), Precedes);
    hide Ranked;
    SplitAt(Ranked(question, corpus), topK);
  }

  lemma SplitAt(ranked: seq<Chunk>, topK: nat)
    requires SortedBy(ranked, Precedes)
    ensures
      var top := Upto(ranked, topK);
      && top <= ranked && SortedBy(top, Precedes)
      && (forall x, y | x in top && y in ranked[|top|..] :: Precedes(x, y))
      && (forall more: nat | topK <= more :: top <= Upto(ranked, more))
  {
    hide Precedes;
  }

  function Scorer(question: string): Document -> Option<Chunk> {
    (d: Document) => Some(Scored(question, d))
  }

  lemma {:induction false} ScoredIsGathered(question: string, corpus: seq<Document>)
    ensures ScoredAll(question, corpus) == Gather(corpus, Scorer(question))
  {
    hide Scored;
    if corpus == [] {
    } else {
      ScoredIsGathered(question, corpus[1..]);
      assert ScoredAll(question, corpus) == [Scored(question, corpus[0])] + ScoredAll(question, corpus[1..]);
    }
  }

  /** With distinct document ids the ranking does not depend on the order of the corpus. */
  lemma CorpusOrderIrrelevant(question: string, a: seq<Document>, b: seq<Document>)
    requires multiset(a) == multiset(b) && DistinctIds(a)
    ensures Ranked(question, a) == Ranked(question, b)
  {
    hide Precedes, Gather, ScoredAll;
    ScoredIsGathered(question, a);
    ScoredIsGathered(question, b);
    GatherPermutation(a, b, Scorer(question));
    PrecedesOrders();
    ChunksDistinguished(question, a);
    SortPermutation(ScoredAll(question, a), ScoredAll(question, b), Precedes);
  }

  // ---- Answers ----

  /** `generate_answer`. */
  function GenerateAnswer(failureMode: string, retrieved: seq<Chunk>): string {
    if failureMode == "hallucinate" then "Python uses a quantum database to create virtual environments."
    else if failureMode == "refuse" then "I do not know."
    else if retrieved == [] || retrieved[0].score == 0.0 then "I do not know based on the retrieved context."
    else if retrieved[0].answer != "" then retrieved[0].answer
    else retrieved[0].text
  }

  predicate AsksAbout(question: string, d: Document) {
    TokenSet(Subject(d.docId)) * TokenSet(question) != {}
  }

  lemma ShareBounds(shared: nat, asked: nat)
    requires shared <= asked
    ensures 0.0 <= shared as real / (if asked > 1 then asked else 1) as real <= 1.0
  {
  }

  /** A document whose subject is asked about scores in [1, 2] and every other in [0, 1], so it never
      ranks below one; among documents alike in that, more shared tokens never score less. */
  lemma SubjectFirst(question: string, d: Document, other: Document)
    ensures if AsksAbout(question, d) then 1.0 <= Score(question, d) <= 2.0 else 0.0 <= Score(question, d) <= 1.0
    ensures AsksAbout(question, d) && !AsksAbout(question, other) ==> Score(question, d) >= Score(question, other)
    ensures AsksAbout(question, d) == AsksAbout(question, other)
      && |TokenSet(question) * TokenSet(d.text)| >= |TokenSet(question) * TokenSet(other.text)|
      ==> Score(question, d) >= Score(question, other)
  {
    hide TokenSet, Round6, OnGrid;
    ScoreRange(question, d);
    ScoreRange(question, other);
    var n := if |TokenSet(question)| > 1 then |TokenSet(question)| else 1;
    var x, y := |TokenSet(question) * TokenSet(d.text)|, |TokenSet(question) * TokenSet(other.text)|;
    if AsksAbout(question, d) == AsksAbout(question, other) && x >= y {
      var boost := if AsksAbout(question, d) then 1.0 else 0.0;
      SharesGrow(y, x, n);
      RoundMonotone(y as real / n as real + boost, x as real / n as real + boost);
    }
  }

  lemma SharesGrow(x: nat, y: nat, n: nat)
    requires x <= y && n > 0
    ensures x as real / n as real <= y as real / n as real
  {
  }

  lemma ScoreRange(question: string, d: Document)
    ensures if AsksAbout(question, d) then 1.0 <= Score(question, d) <= 2.0 else 0.0 <= Score(question, d) <= 1.0
  {
    hide TokenSet, Round6, OnGrid;
    var asked := TokenSet(question);
    SubsetCard(asked * TokenSet(d.text), asked);
    ShareBounds(|asked * TokenSet(d.text)|, |asked|);
    var boost := if AsksAbout(question, d) then 1.0 else 0.0;
    var raw := |asked * TokenSet(d.text)| as real / (if |asked| > 1 then |asked| else 1) as real + boost;
    assert Score(question, d) == Round6(raw);
    RoundMonotone(boost, raw);
    RoundMonotone(raw, boost + 1.0);
    WholeRounds();
  }

  lemma WholeRounds()
    ensures Round6(0.0) == 0.0 && Round6(1.0) == 1.0 && Round6(2.0) == 2.0
  {
    RoundFixesGrid(0.0);
    RoundFixesGrid(1.0);
    RoundFixesGrid(2.0);
  }

  lemma {:induction false} HeadIsBest(ranked: seq<Chunk>)
    requires SortedBy(ranked, Precedes) && ranked != []
    ensures forall x | x in ranked :: x.score <= ranked[0].score
  {
    forall x | x in ranked ensures x.score <= ranked[0].score {
      var k :| 0 <= k < |ranked| && ranked[k] == x;
      assert k == 0 || Precedes(ranked[0], ranked[k]);
    }
  }

  /** Retrieval has nothing to answer from exactly when no document scores. */
  lemma NothingFoundExactly(question: string, corpus: seq<Document>, topK: int)
    requires topK >= 1
    ensures var top := Upto(Ranked(question, corpus), topK);
      (top == [] || top[0].score == 0.0) <==> (forall k | 0 <= k < |corpus| :: Score(question, corpus[k]) == 0.0)
  {
    hide Score, Precedes;
    var ranked, scored := Ranked(question, corpus), ScoredAll(question, corpus);
    PrecedesOrders();
    SortSorts(scored, Precedes);
    if corpus != [] {
      HeadIsBest(ranked);
      assert ranked[0] in multiset(ranked);
      assert ranked[0] in scored;
      forall k | 0 <= k < |corpus| ensures 0.0 <= Score(question, corpus[k]) <= ranked[0].score {
        ScoreRange(question, corpus[k]);
        assert scored[k] in multiset(scored);
        assert scored[k] in ranked;
      }
    }
  }

  /** The answer is the same for every positive limit and every order of the corpus. */
  lemma AnswerIgnoresLimitAndOrder(failureMode: string, question: string, a: seq<Document>, b: seq<Document>,
      topK: int, other: int)
    requires multiset(a) == multiset(b) && DistinctIds(a) && topK >= 1 && other >= 1
    ensures GenerateAnswer(failureMode, Upto(Ranked(question, a), topK))
      == GenerateAnswer(failureMode, Upto(Ranked(question, b), other))
  {
    hide Ranked;
    CorpusOrderIrrelevant(question, a, b);
  }

  /** The score times the number of question tokens is the number of shared tokens, plus that number again
      when the subject is asked about, up to six-digit rounding. */
  lemma ScoreExactly(question: string, d: Document, share: real)
    requires share * |TokenSet(question)| as real == |TokenSet(question) * TokenSet(d.text)| as real
    ensures
      var boosted := if AsksAbout(question, d) then share + 1.0 else share;
      if TokenSet(question) == {} then Score(question, d) == 0.0
      else boosted - 0.0000005 <= Score(question, d) <= boosted + 0.0000005
  {
    hide TokenSet, Round6, OnGrid, Subject;
    var asked := TokenSet(question);
    if asked == {} {
      assert asked * TokenSet(d.text) == {} && !AsksAbout(question, d);
      WholeRounds();
    } else {
      var n := |asked|;
      assert n >= 1;
      ShareIs(|asked * TokenSet(d.text)| as real, n as real, share);
      RoundNear(share + (if AsksAbout(question, d) then 1.0 else 0.0));
    }
  }

  lemma ShareIs(x: real, n: real, share: real)
    requires n > 0.0 && share * n == x
    ensures x / n == share
  {
  }

  /** `d` answers the question: no document scores better, and none as good has a smaller id. */
  predicate Best(question: string, corpus: seq<Document>, d: Document) {
    && d in corpus
    && forall other | other in corpus ::
         || Score(question, other) < Score(question, d)
         || (Score(question, other) == Score(question, d) && StringLe(d.docId, other.docId))
  }

  lemma HeadIsFirst(question: string, corpus: seq<Document>) returns (d: Document)
    requires corpus != []
    ensures Best(question, corpus, d) && Ranked(question, corpus)[0] == Scored(question, d)
  {
    hide Score, StringLe;
    var ranked, scored := Ranked(question, corpus), ScoredAll(question, corpus);
    PrecedesOrders();
    SortSorts(scored, Precedes);
    assert ranked[0] in multiset(ranked);
    assert ranked[0] in scored;
    var j :| 0 <= j < |scored| && scored[j] == ranked[0];
    d := corpus[j];
    forall other | other in corpus ensures Precedes(ranked[0], Scored(question, other)) {
      var k :| 0 <= k < |corpus| && corpus[k] == other;
      assert scored[k] in multiset(scored);
      assert scored[k] in ranked;
      var i :| 0 <= i < |ranked| && ranked[i] == scored[k];
      assert i == 0 || Precedes(ranked[0], ranked[i]);
      PrecedesSelf(ranked[0]);
    }
  }

  lemma PrecedesSelf(c: Chunk)
    ensures Precedes(c, c)
  {
    StringLeTotal(c.docId, c.docId);
  }

  /** The answer comes from a best document, its answer or else its text; nothing scores exactly when the
      fallback is given; the two failure modes ignore what was retrieved. */
  lemma AnswerExactly(failureMode: string, question: string, corpus: seq<Document>, topK: int)
    requires topK >= 1
    ensures
      var answer := GenerateAnswer(failureMode, Upto(Ranked(question, corpus), topK));
      if failureMode == "hallucinate" then answer == "Python uses a quantum database to create virtual environments."
      else if failureMode == "refuse" then answer == "I do not know."
      else if forall d | d in corpus :: Score(question, d) == 0.0 then
        answer == "I do not know based on the retrieved context."
      else exists d :: Best(question, corpus, d) && answer == if d.answer != "" then d.answer else d.text
  {
    hide Score, Precedes, Ranked, StringLe, Best;
    NothingFoundExactly(question, corpus, topK);
    if corpus != [] {
      var d := HeadIsFirst(question, corpus);
    }
    assert forall k | 0 <= k < |corpus| :: corpus[k] in corpus;
  }

  /** A negative limit drops that many chunks from the end. */
  lemma NegativeLimitDrops(question: string, corpus: seq<Document>, topK: int)
    requires topK < 0
    ensures
      var top := Upto(Ranked(question, corpus), topK);
      top <= Ranked(question, corpus) && |top| == if |corpus| + topK >= 0 then |corpus| + topK else 0
  {
  }
}
