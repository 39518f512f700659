/**
 * `top_sentences` (questions.py:145-186): a presence-weighted IDF score per
 * sentence, then `n` rounds of a maximum scan in which a sentence replaces the
 * running best when its score is strictly greater, or when the score is equal
 * and its query-term density is strictly greater.
 */
module SentenceRanker {
  import opened Tables
  import opened Scores
  import opened Selection

  /** Every sentence's score. */
  function SentenceScoreMap(query: seq<string>, sentences: Table<seq<string>>, idfs: map<string, real>): map<string, real> {
    map s | s in sentences.entries :: SentenceScore(query, sentences.entries[s], idfs)
  }

  /** Every sentence's query-term density (sentences without words have none). */
  function DensityMap(query: seq<string>, sentences: map<string, seq<string>>): map<string, real> {
    map s | s in sentences && |sentences[s]| > 0 :: Density(query, sentences[s])
  }

  /** Every sentence has at least one word (the caller keeps only such sentences). */
  predicate NonEmptySentences(sentences: map<string, seq<string>>) {
    forall s :: s in sentences ==> |sentences[s]| > 0
  }

  /** The list `top_sentences` returns: `n` rounds over the sentences in their order. */
  function TopSentencesSpec(query: seq<string>, sentences: Table<seq<string>>, idfs: map<string, real>, n: nat): (r: seq<string>)
    requires sentences.Valid() && NonEmptySentences(sentences.entries)
    requires n > 0 ==> sentences.keys != []
    ensures |r| == n
  {
    assert Scored(sentences.keys, SentenceScoreMap(query, sentences, idfs), DensityMap(query, sentences.entries)) by {
      forall k | k in sentences.keys ensures k in sentences.entries { assert k in Elements(sentences.keys); }
    }
    Ranking(sentences.keys, SentenceScoreMap(query, sentences, idfs), DensityMap(query, sentences.entries), n)
  }

  /**
   * questions.py:153-162: the table senIDF. For each sentence, in order, each
   * query word inserts the sentence at 0 if it is absent and, when the word has
   * an IDF and occurs in the sentence, adds that IDF.
   */
  method SentenceScores(query: seq<string>, sentences: Table<seq<string>>, idfs: map<string, real>) returns (senIdf: Table<real>)
    requires sentences.Valid()
    ensures senIdf.Valid()
    ensures senIdf.keys == if query == [] then [] else sentences.keys
    ensures forall s :: s in senIdf.entries ==> s in sentences.entries && senIdf.entries[s] == SentenceScore(query, sentences.entries[s], idfs)
  {
    var names, docs := sentences.keys, sentences.entries;
    assert forall s :: s in names ==> s in docs by {
      forall s | s in names ensures s in docs { assert s in Elements(names); }
    }
    var order: seq<string> := [];
    var scores: map<string, real> := map[];
    for i := 0 to |names|
      invariant query == [] ==> order == []
      invariant query != [] ==> order == names[..i]
      invariant forall s :: s in scores <==> s in order
      invariant forall s :: s in scores ==> s in docs && scores[s] == SentenceScore(query, docs[s], idfs)
    {
      var sen := names[i];
      NotInPrefix(names, i);
      assert names[..i + 1] == names[..i] + [sen];
      order, scores := ScoreSentence(query, sen, docs, idfs, order, scores);
    }
    assert names[..|names|] == names;
    TableValid(order, scores);
    senIdf := Table(order, scores);
  }

  /**
   * The inner loop of questions.py:156-162, for one sentence: the first query
   * word inserts the sentence at 0, and each query word that has an IDF and
   * occurs in the sentence adds that IDF. An empty query leaves the table as
   * it is.
   */
  method ScoreSentence(query: seq<string>, sen: string, docs: map<string, seq<string>>, idfs: map<string, real>,
                       order0: seq<string>, scores0: map<string, real>)
      returns (order: seq<string>, scores: map<string, real>)
    requires sen in docs && sen !in scores0 && forall s :: s in scores0 <==> s in order0
    requires forall s :: s in scores0 ==> s in docs && scores0[s] == SentenceScore(query, docs[s], idfs)
    ensures order == if query == [] then order0 else order0 + [sen]
    ensures forall s :: s in scores <==> s in order
    ensures forall s :: s in scores ==> s in docs && scores[s] == SentenceScore(query, docs[s], idfs)
  {
    var tokens := docs[sen];
    order, scores := order0, scores0;
    for q := 0 to |query|
      invariant order == if q == 0 then order0 else order0 + [sen]
      invariant forall s :: s in scores <==> s in order
      invariant forall s :: s in scores && s != sen ==> s in scores0 && scores[s] == scores0[s]
      invariant q > 0 ==> scores[sen] == SentenceScore(query[..q], tokens, idfs)
    {
      var word := query[q];
      SentenceScoreStep(query, q, tokens, idfs);
      if sen !in scores {
        assert q == 0 && query[..q] == [];
        order := order + [sen];
        scores := scores[sen := 0.0];
      }
      if word in idfs && word in tokens {
        scores := scores[sen := scores[sen] + idfs[word]];
      }
    }
    assert query[..|query|] == query;
  }

  /**
   * One round of questions.py:167-182: `v` starts at minus infinity and the
   * table is scanned in order. A sentence not yet ranked becomes `max` when its
   * score is strictly greater than `v`, or when its score equals `v` and its
   * count of query words per word is strictly greater than that of `max`.
   */
  method ScanSentences(query: seq<string>, sentences: map<string, seq<string>>, keys: seq<string>, scores: map<string, real>,
                       ranked: seq<string>, max0: Option<string>) returns (max: Option<string>)
    requires NonEmptySentences(sentences)
    requires forall k :: k in keys ==> k in sentences && k in scores
    ensures Scored(keys, scores, DensityMap(query, sentences))
    ensures var pick := Scan(keys, scores, DensityMap(query, sentences), ranked);
            max == if pick.Some? then pick else max0
  {
    var density := DensityMap(query, sentences);
    max := max0;
    var v := NegInf;
    for j := 0 to |keys|
      invariant v.NegInf? ==> Scan(keys[..j], scores, density, ranked).None? && max == max0
      invariant v.Finite? ==> Scan(keys[..j], scores, density, ranked) == max && max.Some? && max.value in keys[..j] && v.value == scores[max.value]
    {
      var sen := keys[j];
      assert keys[..j + 1][..j] == keys[..j];
      assert keys[..j + 1] == keys[..j] + [sen];
      if Exceeds(scores[sen], v) && sen !in ranked {
        max := Some(sen);
        v := Finite(scores[sen]);
      }
      if v.Finite? && scores[sen] == v.value && sen !in ranked {
        var newSen, oldSen := CountMatches(query, sentences[sen], sentences[max.value]);
        if newSen as real / |sentences[sen]| as real > oldSen as real / |sentences[max.value]| as real {
          max := Some(sen);
          v := Finite(scores[sen]);
        }
      }
    }
    assert keys[..|keys|] == keys;
  }

  /** questions.py:175-179: how many query words each of two sentences contains. */
  method CountMatches(query: seq<string>, tokens: seq<string>, maxTokens: seq<string>) returns (newSen: nat, oldSen: nat)
    ensures newSen == Matches(query, tokens) && oldSen == Matches(query, maxTokens)
  {
    newSen, oldSen := 0, 0;
    for q := 0 to |query|
      invariant newSen == Matches(query[..q], tokens) && oldSen == Matches(query[..q], maxTokens)
    {
      assert query[..q + 1][..q] == query[..q];
      if query[q] in tokens {
        newSen := newSen + 1;
      }
      if query[q] in maxTokens {
        oldSen := oldSen + 1;
      }
    }
    assert query[..|query|] == query;
  }

  /** questions.py:164-186: `n` rounds, each appending the sentence held in `max`. */
  method SelectSentences(query: seq<string>, sentences: map<string, seq<string>>, senIdf: Table<real>, n: nat) returns (ranked: seq<string>)
    requires NonEmptySentences(sentences)
    requires senIdf.Valid() && forall k :: k in senIdf.keys ==> k in sentences
    requires n > 0 ==> senIdf.keys != []
    ensures Scored(senIdf.keys, senIdf.entries, DensityMap(query, sentences))
    ensures ranked == Ranking(senIdf.keys, senIdf.entries, DensityMap(query, sentences), n)
  {
    var keys, scores := senIdf.keys, senIdf.entries;
    assert forall k :: k in keys ==> k in scores by {
      forall k | k in keys ensures k in scores { assert k in Elements(keys); }
    }
    assert Scored(keys, scores, DensityMap(query, sentences));
    ranked := [];
    var max: Option<string> := None;
    for i := 0 to n
      invariant ranked == Ranking(keys, scores, DensityMap(query, sentences), i)
      invariant i > 0 ==> max == Some(ranked[i - 1])
    {
      max := ScanSentences(query, sentences, keys, scores, ranked, max);
      assert i == 0 ==> keys[0] !in ranked;
      ranked := ranked + [max.value];
    }
  }

  /** questions.py:145-186. */
  method TopSentences(query: seq<string>, sentences: Table<seq<string>>, idfs: map<string, real>, n: nat) returns (ranked: seq<string>)
    requires sentences.Valid() && NonEmptySentences(sentences.entries)
    requires n > 0 ==> query != [] && sentences.keys != []
    ensures ranked == TopSentencesSpec(query, sentences, idfs, n)
    ensures |ranked| == n
  {
    var senIdf := SentenceScores(query, sentences, idfs);
    if n > 0 {
      assert senIdf.entries == SentenceScoreMap(query, sentences, idfs) by {
        forall s ensures s in senIdf.entries <==> s in sentences.entries {
          assert s in Elements(senIdf.keys) <==> s in Elements(sentences.keys);
        }
      }
    }
    ranked := SelectSentences(query, sentences.entries, senIdf, n);
  }

  /**
   * Round `m` of `top_sentences`, while unranked sentences remain, picks a
   * sentence not picked before. No unranked sentence has a greater score, or
   * an equal score and a greater density; every unranked sentence listed
   * before it has a smaller score, or an equal score and a smaller density.
   */
  lemma TopSentencesRound(query: seq<string>, sentences: Table<seq<string>>, idfs: map<string, real>, n: nat, m: nat, j: nat)
    requires sentences.Valid() && NonEmptySentences(sentences.entries) && (n > 0 ==> sentences.keys != [])
    requires m < n && m < |sentences.keys| && j < |sentences.keys| && sentences.keys[j] == TopSentencesSpec(query, sentences, idfs, n)[m]
    ensures var r := TopSentencesSpec(query, sentences, idfs, n);
            var keys, score := sentences.keys, SentenceScoreMap(query, sentences, idfs);
            var s := keys[j];
            && s !in r[..m]
            && (forall i :: 0 <= i < |keys| && keys[i] !in r[..m] ==>
                  var t := keys[i];
                  t in score && (score[t] < score[s] || (score[t] == score[s] &&
                    Density(query, sentences.entries[t]) <= Density(query, sentences.entries[s]))))
            && (forall i :: 0 <= i < j && keys[i] !in r[..m] ==>
                  var t := keys[i];
                  score[t] < score[s] || (score[t] == score[s] &&
                    Density(query, sentences.entries[t]) < Density(query, sentences.entries[s])))
  {
    var keys, score, density := sentences.keys, SentenceScoreMap(query, sentences, idfs), DensityMap(query, sentences.entries);
    assert Scored(keys, score, density) by {
      forall k | k in keys ensures k in sentences.entries { assert k in Elements(keys); }
    }
    RankingRoundIsEarliestBest(keys, score, density, n, m, j);
  }

  /**
   * The sentences `top_sentences` returns have non-increasing scores, and
   * where two of them have equal scores the earlier has at least the density
   * of the later; the first min(n, number of sentences) are distinct; after
   * that every entry repeats the last sentence picked.
   */
  lemma TopSentencesOrdered(query: seq<string>, sentences: Table<seq<string>>, idfs: map<string, real>, n: nat)
    requires sentences.Valid() && NonEmptySentences(sentences.entries) && (n > 0 ==> sentences.keys != [])
    ensures var r := TopSentencesSpec(query, sentences, idfs, n);
            var score := SentenceScoreMap(query, sentences, idfs);
            && (forall i :: 0 <= i < n ==> r[i] in sentences.entries)
            && (forall a, b :: 0 <= a < b < n ==> score[r[b]] <= score[r[a]])
            && (forall a, b :: 0 <= a < b < n && score[r[b]] == score[r[a]] ==>
                  Density(query, sentences.entries[r[b]]) <= Density(query, sentences.entries[r[a]]))
            && NoDuplicates(r[..if n < |sentences.keys| then n else |sentences.keys|])
            && (forall m :: |sentences.keys| <= m < n ==> r[m] == r[m - 1])
  {
    var keys, score, density := sentences.keys, SentenceScoreMap(query, sentences, idfs), DensityMap(query, sentences.entries);
    assert Scored(keys, score, density) by {
      forall k | k in keys ensures k in sentences.entries { assert k in Elements(keys); }
    }
    var r := Ranking(keys, score, density, n);
    var bound := if n < |keys| then n else |keys|;
    RankingNonIncreasing(keys, score, density, n);
    RankingDistinct(keys, score, density, bound);
    RankingPrefix(keys, score, density, n, bound);
    forall m | |keys| <= m < n ensures r[m] == r[m - 1] {
      RankingRepeatsWhenExhausted(keys, score, density, n, m);
    }
  }
}
