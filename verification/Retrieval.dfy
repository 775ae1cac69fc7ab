/** Two-stage retrieval: a blended top-N from the database, then a top-K by vector score. */
module Retrieval {
  import opened Common

  /** A chunk with its scores for the query at hand; a null score counts as zero. */
  datatype Row = Row(id: nat, doc: nat, content: string, vecScore: Option<real>, textScore: Option<real>)

  datatype RankedChunk = RankedChunk(id: nat, doc: nat, content: string, vec: real, text: real, score: real)

  function Coalesce(x: Option<real>): real {
    if x.Some? then x.value else 0.0
  }

  function Vec(r: Row): real {
    Coalesce(r.vecScore)
  }

  function Blended(r: Row, alpha: real): real {
    alpha * Vec(r) + (1.0 - alpha) * Coalesce(r.textScore)
  }

  function Ranked(r: Row, alpha: real): RankedChunk {
    RankedChunk(r.id, r.doc, r.content, Vec(r), Coalesce(r.textScore), Blended(r, alpha))
  }

  function RankedAll(rows: seq<Row>, alpha: real): seq<RankedChunk> {
    seq(|rows|, i requires 0 <= i < |rows| => Ranked(rows[i], alpha))
  }

  /**
   * What ORDER BY the blended score, descending, LIMIT `n` may return: that many rows of the corpus, in
   * order, none of them blended lower than a row left out. Ties may be broken any way.
   */
  ghost predicate IsTopRows(corpus: seq<Row>, alpha: real, n: nat, rows: seq<Row>) {
    && |rows| == Min(n, |corpus|)
    && NoDuplicates(rows)
    && (forall r :: r in rows ==> r in corpus)
    && (forall i, j :: 0 <= i < j < |rows| ==> Blended(rows[i], alpha) >= Blended(rows[j], alpha))
    && (forall r, o :: r in rows && o in corpus && o !in rows ==> Blended(r, alpha) >= Blended(o, alpha))
  }

  ghost predicate SortedByVec(s: seq<RankedChunk>) {
    forall i, j :: 0 <= i < j < |s| ==> s[i].vec >= s[j].vec
  }

  /** `result` is a sorted arrangement of the candidates, cut to `topK` if that is positive. */
  ghost predicate IsReranking(candidates: seq<RankedChunk>, topK: int, result: seq<RankedChunk>) {
    exists arranged: seq<RankedChunk> ::
      && SortedByVec(arranged) && multiset(arranged) == multiset(candidates)
      && result == if 0 < topK < |arranged| then arranged[..topK] else arranged
  }

  method Swap(a: array<RankedChunk>, i: nat, j: nat)
    requires i < a.Length && j < a.Length
    modifies a
    ensures a[..] == old(a[..])[i := old(a[j])][j := old(a[i])]
    ensures multiset(a[..]) == multiset(old(a[..]))
  {
    a[i], a[j] := a[j], a[i];
  }

  /** Position of a largest vector score in a[i..]. */
  method FindLargest(a: array<RankedChunk>, i: nat) returns (k: nat)
    requires i < a.Length
    ensures i <= k < a.Length && forall x :: i <= x < a.Length ==> a[x].vec <= a[k].vec
  {
    k := i;
    for j := i + 1 to a.Length
      invariant i <= k < a.Length && forall x :: i <= x < j ==> a[x].vec <= a[k].vec
    {
      if a[k].vec < a[j].vec {
        k := j;
      }
    }
  }

  /** Stands for the library sort: any descending arrangement would do below. */
  method SortDescending(a: array<RankedChunk>)
    modifies a
    ensures SortedByVec(a[..]) && multiset(a[..]) == multiset(old(a[..]))
  {
    for i := 0 to a.Length
      invariant multiset(a[..]) == multiset(old(a[..]))
      invariant forall x, y :: 0 <= x < i && x < y < a.Length ==> a[x].vec >= a[y].vec
    {
      var k := FindLargest(a, i);
      Swap(a, i, k);
    }
  }

  method Rerank(candidates: array<RankedChunk>, topK: int) returns (r: seq<RankedChunk>)
    modifies candidates
    ensures IsReranking(old(candidates[..]), topK, r)
  {
    SortDescending(candidates);
    if topK > 0 && candidates.Length > topK {
      return candidates[..topK];
    }
    return candidates[..];
  }

  function CandidateCount(topK: int): nat {
    Max(10, topK * 2)
  }

  /** Reads the rows one by one and blends their scores. */
  method ScanAll(rows: seq<Row>, alpha: real) returns (candidates: seq<RankedChunk>)
    ensures candidates == RankedAll(rows, alpha)
  {
    candidates := [];
    for i := 0 to |rows|
      invariant |candidates| == i
      invariant forall k :: 0 <= k < i ==> candidates[k] == Ranked(rows[k], alpha)
    {
      var row := rows[i];
      var vec, text := Coalesce(row.vecScore), Coalesce(row.textScore);
      var score := alpha * vec + (1.0 - alpha) * text;
      candidates := candidates + [RankedChunk(row.id, row.doc, row.content, vec, text, score)];
    }
  }

  /** Twice as many candidates as chunks wanted, and at least ten. */
  lemma CandidateCountIs(topK: int)
    ensures topK <= 5 ==> CandidateCount(topK) == 10
    ensures topK >= 5 ==> CandidateCount(topK) == topK + topK
  {
  }

  /** Alpha weighs the vector score against the text score; scores that are null weigh nothing. */
  lemma BlendedIs(r: Row, alpha: real)
    ensures Blended(r, 1.0) == (match r.vecScore case None => 0.0 case Some(v) => v)
    ensures Blended(r, 0.0) == (match r.textScore case None => 0.0 case Some(t) => t)
    ensures Blended(r, alpha) - Blended(r, 0.0) == alpha * (Blended(r, 1.0) - Blended(r, 0.0))
  {
  }

  /**
   * `query(n)` answers the SQL with LIMIT `n`; `embedded` is whether the query text could be embedded
   * to a non-empty vector.
   */
  method Retrieve(ghost corpus: seq<Row>, embedded: bool, query: nat -> Result<seq<Row>, string>,
                  topK: int, alpha: real)
    returns (r: Result<seq<RankedChunk>, string>, ghost rows: seq<Row>)
    requires forall n :: query(n).Ok? ==> IsTopRows(corpus, alpha, n, query(n).value)
    ensures r.Ok? <==> embedded && query(CandidateCount(topK)).Ok?
    ensures r.Ok? ==>
              && IsTopRows(corpus, alpha, CandidateCount(topK), rows)
              && IsReranking(RankedAll(rows, alpha), topK, r.value)
  {
    rows := [];
    if !embedded {
      return Err("retriever: embed query"), rows;
    }
    var candidateK := topK * 2;
    if candidateK < 10 {
      candidateK := 10;
    }
    var answer := query(candidateK);
    if answer.Err? {
      return Err(answer.error), rows;
    }
    rows := answer.value;
    var candidates := ScanAll(answer.value, alpha);
    var slice := new RankedChunk[|candidates|](i requires 0 <= i < |candidates| => candidates[i]);
    assert slice[..] == candidates;
    var ranked := Rerank(slice, topK);
    return Ok(ranked), rows;
  }

  /** The chunks come from the corpus rows `rows`, re-ranked to `result`. */
  ghost predicate TwoStage(corpus: seq<Row>, alpha: real, topK: int, rows: seq<Row>, result: seq<RankedChunk>) {
    && NoDuplicates(corpus)
    && IsTopRows(corpus, alpha, CandidateCount(topK), rows)
    && IsReranking(RankedAll(rows, alpha), topK, result)
  }

  lemma MembersOfMultiset<T>(a: seq<T>, b: seq<T>)
    requires multiset(a) == multiset(b)
    ensures |a| == |b|
    ensures forall x :: x in a <==> x in b
  {
    assert |multiset(a)| == |multiset(b)|;
    assert forall x :: x in a <==> x in multiset(a);
  }

  /** Every chunk returned is one of the candidates. */
  lemma CandidateBehind(corpus: seq<Row>, alpha: real, topK: int, rows: seq<Row>, result: seq<RankedChunk>,
                        c: RankedChunk)
    requires TwoStage(corpus, alpha, topK, rows, result) && c in result
    ensures exists r :: r in rows && r in corpus && c == Ranked(r, alpha)
  {
    var candidates := RankedAll(rows, alpha);
    var arranged: seq<RankedChunk> :|
      && SortedByVec(arranged) && multiset(arranged) == multiset(candidates)
      && result == if 0 < topK < |arranged| then arranged[..topK] else arranged;
    MembersOfMultiset(arranged, candidates);
    assert c in arranged;
    var i :| 0 <= i < |rows| && candidates[i] == c;
    assert rows[i] in rows;
  }

  /** Min(topK, corpus) chunks come back, all from the corpus, in descending order of vector score. */
  lemma ResultShape(corpus: seq<Row>, alpha: real, topK: int, rows: seq<Row>, result: seq<RankedChunk>)
    requires TwoStage(corpus, alpha, topK, rows, result) && topK > 0
    ensures |result| == Min(topK, |corpus|)
    ensures SortedByVec(result)
    ensures forall c :: c in result ==> exists r :: r in rows && r in corpus && c == Ranked(r, alpha)
  {
    var arranged: seq<RankedChunk> :|
      && SortedByVec(arranged) && multiset(arranged) == multiset(RankedAll(rows, alpha))
      && result == if 0 < topK < |arranged| then arranged[..topK] else arranged;
    MembersOfMultiset(arranged, RankedAll(rows, alpha));
    forall c | c in result ensures exists r :: r in rows && r in corpus && c == Ranked(r, alpha) {
      CandidateBehind(corpus, alpha, topK, rows, result, c);
    }
  }

  /** Among the candidates, the ones returned are the best by vector score. */
  lemma CandidatesLeftOut(corpus: seq<Row>, alpha: real, topK: int, rows: seq<Row>, result: seq<RankedChunk>, o: Row)
    requires TwoStage(corpus, alpha, topK, rows, result)
    requires o in rows && Ranked(o, alpha) !in result
    ensures forall c :: c in result ==> Vec(o) <= c.vec
  {
    var candidates := RankedAll(rows, alpha);
    var arranged: seq<RankedChunk> :|
      && SortedByVec(arranged) && multiset(arranged) == multiset(candidates)
      && result == if 0 < topK < |arranged| then arranged[..topK] else arranged;
    MembersOfMultiset(arranged, candidates);
    var k :| 0 <= k < |rows| && rows[k] == o;
    assert candidates[k] in arranged;
    var i :| 0 <= i < |arranged| && arranged[i] == Ranked(o, alpha);
    assert |result| <= i;
  }

  /**
   * A chunk left out although its vector score beats one that was returned never reached the second
   * stage: no candidate has a lower blended score.
   */
  lemma OmittedLostOnBlend(corpus: seq<Row>, alpha: real, topK: int, rows: seq<Row>, result: seq<RankedChunk>,
                           o: Row, c: RankedChunk)
    requires TwoStage(corpus, alpha, topK, rows, result)
    requires o in corpus && Ranked(o, alpha) !in result
    requires c in result && Vec(o) > c.vec
    ensures o !in rows
    ensures forall r :: r in rows ==> Blended(o, alpha) <= Blended(r, alpha)
  {
    if o in rows {
      CandidatesLeftOut(corpus, alpha, topK, rows, result, o);
    }
  }

  /** No chunk left out has a higher vector score than one returned. */
  ghost predicate GloballyBest(corpus: seq<Row>, alpha: real, result: seq<RankedChunk>) {
    forall o, c :: o in corpus && Ranked(o, alpha) !in result && c in result ==> Vec(o) <= c.vec
  }

  lemma FullSubsequence<T>(part: seq<T>, whole: seq<T>)
    requires NoDuplicates(part) && NoDuplicates(whole) && |part| == |whole|
    requires forall x :: x in part ==> x in whole
    ensures forall x :: x in whole ==> x in part
  {
    forall x | x in whole ensures x in part {
      if x !in part {
        NoDuplicatesSet(whole);
        var rest := (set y | y in whole) - {x};
        NoDuplicatesFits(part, rest);
      }
    }
  }

  lemma {:induction false} NoDuplicatesSet<T>(s: seq<T>)
    requires NoDuplicates(s)
    ensures |set x | x in s| == |s|
  {
    if s == [] {
      assert (set x | x in s) == {};
    } else {
      var front, last := s[..|s| - 1], s[|s| - 1];
      NoDuplicatesSet(front);
      assert (set x | x in s) == (set x | x in front) + {last};
    }
  }

  /** The result is a true top-K by vector score if only vectors count, or if every row is a candidate. */
  lemma GloballyBestWhen(corpus: seq<Row>, alpha: real, topK: int, rows: seq<Row>, result: seq<RankedChunk>)
    requires TwoStage(corpus, alpha, topK, rows, result)
    requires alpha == 1.0 || |corpus| <= CandidateCount(topK)
    ensures GloballyBest(corpus, alpha, result)
  {
    forall o, c | o in corpus && Ranked(o, alpha) !in result && c in result ensures Vec(o) <= c.vec {
      if o in rows {
        CandidatesLeftOut(corpus, alpha, topK, rows, result, o);
      } else if |corpus| <= CandidateCount(topK) {
        FullSubsequence(rows, corpus);
        assert false;
      } else {
        CandidateBehind(corpus, alpha, topK, rows, result, c);
      }
    }
  }

  function Sample(id: nat, v: real, t: real): Row {
    Row(id, 0, "", Some(v), Some(t))
  }

  /** Row `i` of a corpus whose first `k` rows score `v` and `t`, and the others `w` and `u`. */
  ghost function Crowd(n: nat, k: nat, v: real, t: real, w: real, u: real): seq<Row> {
    seq(n, (i: nat) => if i < k then Sample(i, v, t) else Sample(i, w, u))
  }

  lemma CrowdIsTop(n: nat, k: nat, alpha: real, v: real, t: real, w: real, u: real)
    requires k <= n
    requires alpha * w + (1.0 - alpha) * u <= alpha * v + (1.0 - alpha) * t
    ensures var corpus := Crowd(n, k, v, t, w, u);
            NoDuplicates(corpus) && IsTopRows(corpus, alpha, k, corpus[..k])
  {
    var corpus := Crowd(n, k, v, t, w, u);
    var high, low := alpha * v + (1.0 - alpha) * t, alpha * w + (1.0 - alpha) * u;
    assert forall i :: 0 <= i < n ==> corpus[i].id == i;
    forall i | 0 <= i < n ensures Blended(corpus[i], alpha) == if i < k then high else low {
      assert corpus[i] == if i < k then Sample(i, v, t) else Sample(i, w, u);
    }
    forall i | 0 <= i < k ensures corpus[..k][i] in corpus && Blended(corpus[..k][i], alpha) == high {
      assert corpus[..k][i] == corpus[i];
    }
    assert forall i :: 0 <= i < k ==> corpus[i] == corpus[..k][i] && corpus[i] in corpus[..k];
    forall o | o in corpus && o !in corpus[..k] ensures Blended(o, alpha) == low {
      var i :| 0 <= i < n && corpus[i] == o;
    }
  }

  lemma RerankOfSorted(candidates: seq<RankedChunk>, topK: int) returns (result: seq<RankedChunk>)
    requires SortedByVec(candidates)
    ensures IsReranking(candidates, topK, result)
    ensures |result| <= |candidates| && result == candidates[..|result|]
    ensures candidates != [] ==> result != []
  {
    result := if 0 < topK < |candidates| then candidates[..topK] else candidates;
  }

  /** If all candidates have vector score `v`, a row with a better one is missed. */
  lemma BetterRowMissed(corpus: seq<Row>, alpha: real, topK: int, rows: seq<Row>, v: real, o: Row)
    requires NoDuplicates(corpus) && AllScored(corpus) && IsTopRows(corpus, alpha, CandidateCount(topK), rows)
    requires rows != [] && forall i :: 0 <= i < |rows| ==> Vec(rows[i]) == v
    requires o in corpus && v < Vec(o)
    ensures !AlwaysGloballyBest(|corpus|, alpha, topK)
  {
    var candidates := RankedAll(rows, alpha);
    assert forall i :: 0 <= i < |rows| ==> candidates[i].vec == Vec(rows[i]);
    var result := RerankOfSorted(candidates, topK);
    assert result[0] in result && result[0] == candidates[0];
    assert Ranked(o, alpha).vec == Vec(o) && Ranked(o, alpha) !in result;
    assert TwoStage(corpus, alpha, topK, rows, result) && !GloballyBest(corpus, alpha, result);
  }

  /**
   * A crowd that fills all candidate places on the blended score keeps out every row with a better
   * vector score.
   */
  lemma CrowdedOut(n: nat, alpha: real, topK: int, v: real, t: real, w: real, u: real)
    requires n > CandidateCount(topK) && v < w
    requires -1.0 <= v && w <= 1.0 && 0.0 <= t <= 1.0 && 0.0 <= u <= 1.0
    requires alpha * w + (1.0 - alpha) * u <= alpha * v + (1.0 - alpha) * t
    ensures !AlwaysGloballyBest(n, alpha, topK)
  {
    var k := CandidateCount(topK);
    var corpus := Crowd(n, k, v, t, w, u);
    CrowdIsTop(n, k, alpha, v, t, w, u);
    assert corpus[k] == Sample(k, w, u) && corpus[k] in corpus;
    assert forall i :: 0 <= i < n ==> corpus[i] == if i < k then Sample(i, v, t) else Sample(i, w, u);
    BetterRowMissed(corpus, alpha, topK, corpus[..k], v, corpus[k]);
  }

  /** The scores cosine similarity and text ranking can have. */
  ghost predicate Scored(r: Row) {
    -1.0 <= Vec(r) <= 1.0 && 0.0 <= Coalesce(r.textScore) <= 1.0
  }

  ghost predicate AllScored(corpus: seq<Row>) {
    forall i :: 0 <= i < |corpus| ==> Scored(corpus[i])
  }

  /** For every corpus of `n` rows with possible scores, whatever the database returns for it. */
  ghost predicate AlwaysGloballyBest(n: nat, alpha: real, topK: int) {
    forall corpus, rows, result ::
      |corpus| == n && AllScored(corpus) && TwoStage(corpus, alpha, topK, rows, result)
      ==> GloballyBest(corpus, alpha, result)
  }

  /** With alpha 0.7, ten middling chunks with a keyword match keep out a chunk with vector score 0.9. */
  lemma BestVectorCanBeMissed()
    ensures !AlwaysGloballyBest(11, 0.7, 1)
  {
    CrowdedOut(11, 0.7, 1, 0.5, 1.0, 0.9, 0.0);
  }

  /** How far the vector score of a row can lie above the crowd's and still lose on the blend. */
  lemma CrowdingGap(alpha: real) returns (gap: real, t: real, u: real)
    requires alpha != 1.0
    ensures 0.0 < gap <= 1.0 && 0.0 <= t <= 1.0 && 0.0 <= u <= 1.0
    ensures alpha * gap + (1.0 - alpha) * u <= (1.0 - alpha) * t
  {
    if alpha <= 0.5 {
      gap, t, u := 1.0, 1.0, 0.0;
    } else if alpha < 1.0 {
      gap, t, u := (1.0 - alpha) / alpha, 1.0, 0.0;
      assert alpha * gap == 1.0 - alpha;
    } else {
      gap, t, u := (alpha - 1.0) / alpha, 0.0, 1.0;
      assert alpha * gap == alpha - 1.0;
    }
  }

  /**
   * For corpora of `n` rows a true top-K is guaranteed exactly when only vectors count or all rows are
   * candidates.
   */
  lemma GloballyBestIff(n: nat, alpha: real, topK: int)
    ensures AlwaysGloballyBest(n, alpha, topK) <==> alpha == 1.0 || n <= CandidateCount(topK)
  {
    if alpha == 1.0 || n <= CandidateCount(topK) {
      forall corpus, rows, result | |corpus| == n && TwoStage(corpus, alpha, topK, rows, result)
        ensures GloballyBest(corpus, alpha, result)
      {
        GloballyBestWhen(corpus, alpha, topK, rows, result);
      }
    } else {
      var gap, t, u := CrowdingGap(alpha);
      CrowdedOut(n, alpha, topK, 0.0, t, gap, u);
    }
  }

  /** Without a positive topK all candidates come back, sorted. */
  lemma NothingCut(corpus: seq<Row>, alpha: real, topK: int, rows: seq<Row>, result: seq<RankedChunk>)
    requires TwoStage(corpus, alpha, topK, rows, result) && topK <= 0
    ensures multiset(result) == multiset(RankedAll(rows, alpha)) && SortedByVec(result)
    ensures |result| == if |corpus| < 10 then |corpus| else 10
  {
    MembersOfMultiset(result, RankedAll(rows, alpha));
  }
}
