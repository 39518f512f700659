/**
 * `top_files` (questions.py:106-143): the TF-IDF table over all files, then
 * `n` rounds of a maximum scan in which only a strictly greater score replaces
 * the running best, so that ties go to the file listed first.
 */
module FileRanker {
  import opened Tables
  import opened Scores
  import opened Selection

  /** Every file's TF-IDF score. */
  function FileScoreMap(query: seq<string>, files: Table<seq<string>>, idfs: map<string, real>): map<string, real> {
    map f | f in files.entries :: TfIdf(query, files.entries[f], idfs)
  }

  /** Files carry no secondary key: only the score orders them. */
  function NoTieBreak(keys: seq<string>): map<string, real> {
    map k | k in keys :: 0.0
  }

  /** The list `top_files` returns: `n` rounds over the files in their order. */
  function TopFilesSpec(query: seq<string>, files: Table<seq<string>>, idfs: map<string, real>, n: nat): (r: seq<string>)
    requires files.Valid()
    requires n > 0 ==> files.keys != []
    ensures |r| == n
  {
    assert Scored(files.keys, FileScoreMap(query, files, idfs), NoTieBreak(files.keys)) by {
      forall k | k in files.keys ensures k in files.entries { assert k in Elements(files.keys); }
    }
    Ranking(files.keys, FileScoreMap(query, files, idfs), NoTieBreak(files.keys), n)
  }

  /**
   * questions.py:121-130: the table TFIDF. Its first query word inserts every
   * file, in file order, at score 0; each query word known to `idfs` then adds
   * its occurrence count times its IDF to every file.
   */
  method FileScores(query: seq<string>, files: Table<seq<string>>, idfs: map<string, real>) returns (tfidf: Table<real>)
    requires files.Valid()
    ensures tfidf.Valid()
    ensures tfidf.keys == if query == [] then [] else files.keys
    ensures forall f :: f in tfidf.entries ==> f in files.entries && tfidf.entries[f] == TfIdf(query, files.entries[f], idfs)
  {
    var names, docs := files.keys, files.entries;
    assert forall f :: f in names ==> f in docs by {
      forall f | f in names ensures f in docs { assert f in Elements(names); }
    }
    var order: seq<string> := [];
    var scores: map<string, real> := map[];
    for i := 0 to |query|
      invariant order == if i == 0 then [] else names
      invariant forall f :: f in scores <==> f in order
      invariant forall f :: f in scores ==> scores[f] == TfIdf(query[..i], docs[f], idfs)
    {
      order, scores := AddWord(query[i], names, docs, idfs, order, scores);
      forall f | f in scores ensures scores[f] == TfIdf(query[..i + 1], docs[f], idfs) {
        TfIdfStep(query, i, docs[f], idfs);
        assert i == 0 ==> query[..i] == [];
      }
    }
    assert query[..|query|] == query;
    TableValid(order, scores);
    tfidf := Table(order, scores);
  }

  /**
   * The inner loop of questions.py:124-130, for one query word: each file not
   * yet in the table is inserted at 0; when the word has an IDF, the file's
   * occurrence count times that IDF is added to its score.
   */
  method AddWord(word: string, names: seq<string>, docs: map<string, seq<string>>, idfs: map<string, real>,
                 order0: seq<string>, scores0: map<string, real>)
      returns (order: seq<string>, scores: map<string, real>)
    requires NoDuplicates(names) && (forall f :: f in names ==> f in docs)
    requires order0 == [] || order0 == names
    requires forall f :: f in scores0 <==> f in order0
    ensures order == names
    ensures forall f :: f in scores <==> f in names
    ensures forall f :: f in scores ==>
      scores[f] == (if f in scores0 then scores0[f] else 0.0) + FileGain(docs[f], idfs, word)
  {
    order, scores := order0, scores0;
    for j := 0 to |names|
      invariant order == if order0 == [] then names[..j] else names
      invariant forall f :: f in scores <==> f in order
      invariant forall k :: 0 <= k < j ==>
        scores[names[k]] == (if names[k] in scores0 then scores0[names[k]] else 0.0) + FileGain(docs[names[k]], idfs, word)
      invariant forall k :: j <= k < |names| && names[k] in scores0 ==> scores[names[k]] == scores0[names[k]]
    {
      var file := names[j];
      assert forall k :: 0 <= k < |names| && k != j ==> names[k] != file;
      if file !in scores {
        order := order + [file];
        scores := scores[file := 0.0];
      }
      if word in idfs {
        var count := Occurrences(docs[file], word);
        FileGainIs(docs[file], idfs, word, count);
        scores := scores[file := scores[file] + count as real * idfs[word]];
      }
    }
    assert names[..|names|] == names;
  }

  /**
   * One round of questions.py:136-140: `v` starts at minus infinity and the
   * table is scanned in order; a file not yet ranked whose score is strictly
   * greater than `v` becomes `max`. When no file is left, `max` keeps its value
   * from the previous round.
   */
  method ScanFiles(keys: seq<string>, scores: map<string, real>, ranked: seq<string>, max0: Option<string>) returns (max: Option<string>)
    requires Scored(keys, scores, NoTieBreak(keys))
    ensures var pick := Scan(keys, scores, NoTieBreak(keys), ranked);
            max == if pick.Some? then pick else max0
  {
    var flat := NoTieBreak(keys);
    max := max0;
    var v := NegInf;
    for j := 0 to |keys|
      invariant v.NegInf? ==> Scan(keys[..j], scores, flat, ranked).None? && max == max0
      invariant v.Finite? ==> Scan(keys[..j], scores, flat, ranked) == max && max.Some? && max.value in scores && v.value == scores[max.value]
    {
      var file := keys[j];
      assert keys[..j + 1][..j] == keys[..j];
      assert keys[..j + 1] == keys[..j] + [file];
      assert v.Finite? ==> (Beats(file, max.value, scores, flat) <==> scores[file] > v.value);
      if Exceeds(scores[file], v) && file !in ranked {
        max := Some(file);
        v := Finite(scores[file]);
      }
    }
    assert keys[..|keys|] == keys;
  }

  /** questions.py:133-143: `n` rounds, each appending the file held in `max`. */
  method SelectFiles(tfidf: Table<real>, n: nat) returns (ranked: seq<string>)
    requires tfidf.Valid()
    requires n > 0 ==> tfidf.keys != []
    ensures Scored(tfidf.keys, tfidf.entries, NoTieBreak(tfidf.keys))
    ensures ranked == Ranking(tfidf.keys, tfidf.entries, NoTieBreak(tfidf.keys), n)
  {
    var keys, scores := tfidf.keys, tfidf.entries;
    assert Scored(keys, scores, NoTieBreak(keys)) by {
      forall k | k in keys ensures k in scores { assert k in Elements(keys); }
    }
    ranked := [];
    var max: Option<string> := None;
    for i := 0 to n
      invariant ranked == Ranking(keys, scores, NoTieBreak(keys), i)
      invariant i > 0 ==> max == Some(ranked[i - 1])
    {
      max := ScanFiles(keys, scores, ranked, max);
      assert i == 0 ==> keys[0] !in ranked;
      ranked := ranked + [max.value];
    }
  }

  /** questions.py:106-143. */
  method TopFiles(query: seq<string>, files: Table<seq<string>>, idfs: map<string, real>, n: nat) returns (ranked: seq<string>)
    requires files.Valid()
    requires n > 0 ==> query != [] && files.keys != []
    ensures ranked == TopFilesSpec(query, files, idfs, n)
    ensures |ranked| == n
  {
    var tfidf := FileScores(query, files, idfs);
    if n > 0 {
      assert tfidf.entries == FileScoreMap(query, files, idfs) by {
        forall f ensures f in tfidf.entries <==> f in files.entries {
          assert f in Elements(tfidf.keys) <==> f in Elements(files.keys);
        }
      }
    }
    ranked := SelectFiles(tfidf, n);
  }

  /**
   * Round `m` of `top_files`, while unranked files remain, picks a file not
   * picked before whose score is at least that of every unranked file and
   * strictly greater than that of every unranked file listed before it.
   */
  lemma TopFilesRound(query: seq<string>, files: Table<seq<string>>, idfs: map<string, real>, n: nat, m: nat, j: nat)
    requires files.Valid() && (n > 0 ==> files.keys != [])
    requires m < n && m < |files.keys| && j < |files.keys| && files.keys[j] == TopFilesSpec(query, files, idfs, n)[m]
    ensures var r := TopFilesSpec(query, files, idfs, n);
            var score := FileScoreMap(query, files, idfs);
            && files.keys[j] !in r[..m]
            && (forall i :: 0 <= i < |files.keys| && files.keys[i] !in r[..m] ==> files.keys[i] in score && score[files.keys[i]] <= score[files.keys[j]])
            && (forall i :: 0 <= i < j && files.keys[i] !in r[..m] ==> score[files.keys[i]] < score[files.keys[j]])
  {
    var keys, score, flat := files.keys, FileScoreMap(query, files, idfs), NoTieBreak(files.keys);
    assert Scored(keys, score, flat) by {
      forall k | k in keys ensures k in files.entries { assert k in Elements(keys); }
    }
    RankingRoundIsEarliestBest(keys, score, flat, n, m, j);
  }

  /**
   * The files `top_files` returns have non-increasing scores; the first
   * min(n, number of files) are distinct; after that every entry repeats the
   * last file picked.
   */
  lemma TopFilesOrdered(query: seq<string>, files: Table<seq<string>>, idfs: map<string, real>, n: nat)
    requires files.Valid() && (n > 0 ==> files.keys != [])
    ensures var r := TopFilesSpec(query, files, idfs, n);
            var score := FileScoreMap(query, files, idfs);
            && (forall i :: 0 <= i < n ==> r[i] in files.entries)
            && (forall a, b :: 0 <= a < b < n ==> score[r[b]] <= score[r[a]])
            && NoDuplicates(r[..if n < |files.keys| then n else |files.keys|])
            && (forall m :: |files.keys| <= m < n ==> r[m] == r[m - 1])
  {
    var keys, score, flat := files.keys, FileScoreMap(query, files, idfs), NoTieBreak(files.keys);
    assert Scored(keys, score, flat) by {
      forall k | k in keys ensures k in files.entries { assert k in Elements(keys); }
    }
    var r := Ranking(keys, score, flat, n);
    var bound := if n < |keys| then n else |keys|;
    RankingNonIncreasing(keys, score, flat, n);
    RankingDistinct(keys, score, flat, bound);
    RankingPrefix(keys, score, flat, n, bound);
    forall m | |keys| <= m < n ensures r[m] == r[m - 1] {
      RankingRepeatsWhenExhausted(keys, score, flat, n, m);
    }
  }
}
