/** Working memory assembly (server/llms/working_memory.py): rank-based relevance scores and the
    merge of high-importance episodes. The two retrieval functions it calls are not part of this
    model; their results are parameters. */
module Working {
  import opened PyText
  import opened MemoryModels

  // ---------------------------------------------------------------- rank scores

  /** Lines 55 and 58: the score of the `i`-th of `n` results, `1 - i / max(n, 1)`. */
  function RankScore(i: nat, n: nat): real {
    1.0 - i as real / (if n > 1 then n else 1) as real
  }

  /** The first result scores 1 and every result scores in (0,1]. */
  lemma RankScoreBounds(i: nat, n: nat)
    requires i < n
    ensures 0.0 < RankScore(i, n) <= 1.0
    ensures i == 0 ==> RankScore(i, n) == 1.0
  {
    assert i as real / n as real < 1.0 by {
      assert i as real < n as real;
    }
  }

  /** Scores strictly decrease with rank. */
  lemma RankScoreDecreasing(i: nat, j: nat, n: nat)
    requires i < j < n
    ensures RankScore(j, n) < RankScore(i, n)
  {
    assert i as real / n as real < j as real / n as real by {
      assert i as real < j as real;
    }
  }

  function EpisodeIds(eps: seq<EpisodicMemory>): (r: seq<string>)
    ensures |r| == |eps| && forall i :: 0 <= i < |r| ==> r[i] == eps[i].id
  {
    seq(|eps|, i requires 0 <= i < |eps| => eps[i].id)
  }

  function FactIds(facts: seq<SemanticMemory>): (r: seq<string>)
    ensures |r| == |facts| && forall i :: 0 <= i < |r| ==> r[i] == facts[i].id
  {
    seq(|facts|, i requires 0 <= i < |facts| => facts[i].id)
  }

  /** The last position of `x` in `s`. */
  function LastIndex(s: seq<string>, x: string): (r: nat)
    requires x in s
    ensures r < |s| && s[r] == x
    ensures forall j :: r < j < |s| ==> s[j] != x
  {
    if s[|s| - 1] == x then |s| - 1 else LastIndex(s[..|s| - 1], x)
  }

  /** The map `m` after `relevance_scores[ids[i]] = RankScore(i, n)` for each `i < k`, in order. */
  function RankWrites(m: map<string, real>, ids: seq<string>, n: nat, k: nat): map<string, real>
    requires k <= |ids|
  {
    if k == 0 then m else RankWrites(m, ids, n, k - 1)[ids[k - 1] := RankScore(k - 1, n)]
  }

  /** The writes add exactly the written ids as keys; a written id holds the score of its last
      position, and any other key keeps its value. */
  lemma {:induction false} RankWritesMeaning(m: map<string, real>, ids: seq<string>, n: nat, k: nat)
    requires k <= |ids|
    ensures forall x :: x in RankWrites(m, ids, n, k) <==> x in m || x in ids[..k]
    ensures forall x :: x in ids[..k] ==> RankWrites(m, ids, n, k)[x] == RankScore(LastIndex(ids[..k], x), n)
    ensures forall x :: x in m && x !in ids[..k] ==> RankWrites(m, ids, n, k)[x] == m[x]
  {
    if k > 0 {
      RankWritesMeaning(m, ids, n, k - 1);
      var pre, y := ids[..k - 1], ids[k - 1];
      var before := RankWrites(m, ids, n, k - 1);
      assert RankWrites(m, ids, n, k) == before[y := RankScore(k - 1, n)];
      assert ids[..k] == pre + [y];
      forall x | x in ids[..k] && x != y
        ensures x in pre && LastIndex(ids[..k], x) == LastIndex(pre, x)
      {
        assert ids[..k][..k - 1] == pre;
      }
      assert LastIndex(ids[..k], y) == k - 1;
    }
  }

  /** Lines 52-58: episodic scores first, then semantic scores over them. */
  function RelevanceScores(eps: seq<EpisodicMemory>, facts: seq<SemanticMemory>): map<string, real> {
    var episodic := RankWrites(map[], EpisodeIds(eps), |eps|, |eps|);
    RankWrites(episodic, FactIds(facts), |facts|, |facts|)
  }

  /** The keys are the union of both id lists; an id among the facts holds its semantic score
      (from its last position there), any other its episodic score; every score is in (0,1]. */
  lemma RelevanceScoresMeaning(eps: seq<EpisodicMemory>, facts: seq<SemanticMemory>)
    ensures var scores := RelevanceScores(eps, facts);
            && (forall x :: x in scores <==> x in EpisodeIds(eps) || x in FactIds(facts))
            && (forall x :: x in FactIds(facts) ==>
                  scores[x] == RankScore(LastIndex(FactIds(facts), x), |facts|))
            && (forall x :: x in EpisodeIds(eps) && x !in FactIds(facts) ==>
                  scores[x] == RankScore(LastIndex(EpisodeIds(eps), x), |eps|))
            && (forall x :: x in scores ==> 0.0 < scores[x] <= 1.0)
  {
    var e := EpisodeIds(eps);
    var f := FactIds(facts);
    assert e[..|e|] == e;
    assert f[..|f|] == f;
    var episodic := RankWrites(map[], e, |eps|, |eps|);
    RankWritesMeaning(map[], e, |eps|, |eps|);
    RankWritesMeaning(episodic, f, |facts|, |facts|);
    var scores := RelevanceScores(eps, facts);
    forall x | x in scores
      ensures 0.0 < scores[x] <= 1.0
    {
      if x in f {
        RankScoreBounds(LastIndex(f, x), |facts|);
      } else {
        RankScoreBounds(LastIndex(e, x), |eps|);
      }
    }
  }

  /** `assemble_working_memory`, given what the two retrievals returned. */
  method AssembleWorkingMemory(episodes: seq<EpisodicMemory>, facts: seq<SemanticMemory>) returns (wm: WorkingMemory)
    ensures wm == WorkingMemory(episodes, facts, RelevanceScores(episodes, facts))
  {
    var scores: map<string, real> := map[];
    var n := |episodes|;
    var i := 0;
    while i < n
      invariant 0 <= i <= n
      invariant scores == RankWrites(map[], EpisodeIds(episodes), n, i)
    {
      scores := scores[episodes[i].id := 1.0 - i as real / (if n > 1 then n else 1) as real];
      i := i + 1;
    }
    ghost var episodic := scores;
    n := |facts|;
    i := 0;
    while i < n
      invariant 0 <= i <= n
      invariant scores == RankWrites(episodic, FactIds(facts), n, i)
    {
      scores := scores[facts[i].id := 1.0 - i as real / (if n > 1 then n else 1) as real];
      i := i + 1;
    }
    wm := WorkingMemory(episodes, facts, scores);
  }

  // ---------------------------------------------------------------- the detailed merge

  /** The score given to an appended high-importance episode (line 117). */
  const HighImportanceScore := 0.9

  /** The high-importance episodes lines 114-116 append: those whose id is not in `existing`,
      in their order. Duplicates among them are not removed. */
  function Appended(existing: set<string>, high: seq<EpisodicMemory>): (r: seq<EpisodicMemory>)
    ensures |r| <= |high|
    decreases |high|
  {
    if high == [] then []
    else
      var last := high[|high| - 1];
      Appended(existing, high[..|high| - 1]) + (if last.id in existing then [] else [last])
  }

  /** An episode is appended exactly when it is in the list and its id is not existing. */
  lemma {:induction false} AppendedMembers(existing: set<string>, high: seq<EpisodicMemory>)
    ensures forall e :: e in Appended(existing, high) <==> e in high && e.id !in existing
    decreases |high|
  {
    if high != [] {
      var init := high[..|high| - 1];
      assert high == init + [high[|high| - 1]];
      AppendedMembers(existing, init);
    }
  }

  /** The filter keeps the order of the list: it distributes over concatenation. */
  lemma {:induction false} AppendedConcat(existing: set<string>, a: seq<EpisodicMemory>, b: seq<EpisodicMemory>)
    ensures Appended(existing, a + b) == Appended(existing, a) + Appended(existing, b)
    decreases |b|
  {
    if b != [] {
      var init := b[..|b| - 1];
      assert (a + b)[..|a + b| - 1] == a + init;
      assert (a + b)[|a + b| - 1] == b[|b| - 1];
      AppendedConcat(existing, a, init);
    } else {
      assert a + b == a;
    }
  }

  /** `existing_ids` is computed once, so two copies of a new episode are both appended. */
  lemma DuplicatesAppended(existing: set<string>, e: EpisodicMemory)
    requires e.id !in existing
    ensures Appended(existing, [e, e]) == [e, e]
  {
    assert [e, e][..1] == [e];
    assert [e][..0] == [];
  }

  /** The map `m` after `relevance_scores[ep.id] = 0.9` for each episode of `eps`, in order. */
  function HighWrites(m: map<string, real>, eps: seq<EpisodicMemory>): map<string, real>
    decreases |eps|
  {
    if eps == [] then m else HighWrites(m, eps[..|eps| - 1])[eps[|eps| - 1].id := HighImportanceScore]
  }

  /** The written episodes' ids score 0.9 afterwards, and every other key keeps its value. */
  lemma {:induction false} HighWritesMeaning(m: map<string, real>, eps: seq<EpisodicMemory>)
    ensures forall x :: x in HighWrites(m, eps) <==> x in m || x in EpisodeIds(eps)
    ensures forall x :: x in EpisodeIds(eps) ==> HighWrites(m, eps)[x] == HighImportanceScore
    ensures forall x :: x in m && x !in EpisodeIds(eps) ==> HighWrites(m, eps)[x] == m[x]
    decreases |eps|
  {
    if eps != [] {
      var init := eps[..|eps| - 1];
      HighWritesMeaning(m, init);
      assert EpisodeIds(eps) == EpisodeIds(init) + [eps[|eps| - 1].id];
    }
  }

  /** Lines 113-117 applied to `wm`. */
  function MergeHighImportance(wm: WorkingMemory, high: seq<EpisodicMemory>): WorkingMemory {
    var added := Appended(ToSet(EpisodeIds(wm.episodicMemories)), high);
    WorkingMemory(wm.episodicMemories + added, wm.semanticFacts, HighWrites(wm.relevanceScores, added))
  }

  /** The base list is an unchanged prefix; what follows are exactly the high-importance episodes
      with an id outside the base list, which score 0.9, while every other score is kept. */
  lemma MergeMeaning(wm: WorkingMemory, high: seq<EpisodicMemory>)
    ensures var r := MergeHighImportance(wm, high);
            var base := wm.episodicMemories;
            && |r.episodicMemories| >= |base|
            && r.episodicMemories[..|base|] == base
            && r.semanticFacts == wm.semanticFacts
            && var added := r.episodicMemories[|base|..];
            && (forall e :: e in added <==> e in high && e.id !in EpisodeIds(base))
            && (forall e :: e in added ==> e.id in r.relevanceScores && r.relevanceScores[e.id] == HighImportanceScore)
            && (forall x :: x in wm.relevanceScores && x !in EpisodeIds(added) ==>
                  x in r.relevanceScores && r.relevanceScores[x] == wm.relevanceScores[x])
  {
    var base := wm.episodicMemories;
    var added := Appended(ToSet(EpisodeIds(base)), high);
    var r := MergeHighImportance(wm, high);
    assert r.episodicMemories[..|base|] == base;
    assert r.episodicMemories[|base|..] == added;
    assert r.relevanceScores == HighWrites(wm.relevanceScores, added);
    HighWritesMeaning(wm.relevanceScores, added);
    AppendedMembers(ToSet(EpisodeIds(base)), high);
    forall e | e in added
      ensures e.id in EpisodeIds(added)
    {
      var k :| 0 <= k < |added| && added[k] == e;
      assert EpisodeIds(added)[k] == e.id;
    }
  }

  /** `get_detailed_working_memory`, given the three retrieval results. `include_recent` is
      accepted and has no effect. */
  method GetDetailedWorkingMemory(episodes: seq<EpisodicMemory>, facts: seq<SemanticMemory>,
                                  high: seq<EpisodicMemory>, includeHighImportance: bool, includeRecent: bool)
    returns (wm: WorkingMemory)
    ensures !includeHighImportance ==> wm == WorkingMemory(episodes, facts, RelevanceScores(episodes, facts))
    ensures includeHighImportance ==>
              wm == MergeHighImportance(WorkingMemory(episodes, facts, RelevanceScores(episodes, facts)), high)
  {
    wm := AssembleWorkingMemory(episodes, facts);
    if includeHighImportance {
      wm := AddHighImportance(wm, high);
    }
  }

  /** Lines 113-117: the append-and-score loop over the high-importance episodes. */
  method AddHighImportance(base: WorkingMemory, high: seq<EpisodicMemory>) returns (wm: WorkingMemory)
    ensures wm == MergeHighImportance(base, high)
  {
    wm := base;
    var existing := ToSet(EpisodeIds(wm.episodicMemories));
    var i := 0;
    while i < |high|
      invariant 0 <= i <= |high|
      invariant wm.semanticFacts == base.semanticFacts
      invariant wm.episodicMemories == base.episodicMemories + Appended(existing, high[..i])
      invariant wm.relevanceScores == HighWrites(base.relevanceScores, Appended(existing, high[..i]))
    {
      var ep := high[i];
      var added := Appended(existing, high[..i]);
      assert high[..i + 1][..i] == high[..i];
      if ep.id !in existing {
        assert Appended(existing, high[..i + 1]) == added + [ep];
        assert (added + [ep])[..|added|] == added;
        assert HighWrites(base.relevanceScores, added + [ep])
               == HighWrites(base.relevanceScores, added)[ep.id := HighImportanceScore];
        wm := wm.(episodicMemories := wm.episodicMemories + [ep],
                   relevanceScores := wm.relevanceScores[ep.id := HighImportanceScore]);
      } else {
        assert Appended(existing, high[..i + 1]) == added;
      }
      i := i + 1;
    }
    assert high[..i] == high;
  }
}
