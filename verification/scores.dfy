/**
 * The per-candidate scores of the two rankers. `top_files` adds, for each
 * query word known to the IDF table, the word's number of occurrences in the
 * file times its IDF (questions.py:123-130); `top_sentences` adds the IDF of
 * each query word that is known and present in the sentence at least once
 * (questions.py:155-162), and breaks ties on query-term density
 * (questions.py:172-182). The query is a Python set; it is given here as the
 * sequence in which it is iterated, and both sums are shown not to depend on
 * that order.
 */
module Scores {

  /** The sum of `term(w)` over the query words, added in iteration order. */
  function SumOver(query: seq<string>, term: string -> real): real {
    if query == [] then 0.0
    else SumOver(query[..|query| - 1], term) + term(query[|query| - 1])
  }

  /** `list.count`: the number of occurrences of `w` in `tokens`. */
  function Occurrences(tokens: seq<string>, w: string): (c: nat)
    ensures c == multiset(tokens)[w]
    ensures c <= |tokens|
    ensures c > 0 <==> w in tokens
  {
    if tokens == [] then 0
    else
      var p := tokens[..|tokens| - 1];
      assert tokens == p + [tokens[|tokens| - 1]];
      assert multiset(tokens) == multiset(p) + multiset{tokens[|tokens| - 1]};
      Occurrences(p, w) + (if tokens[|tokens| - 1] == w then 1 else 0)
  }

  /** One query word's contribution to a file's TF-IDF score: occurrences times IDF, or nothing without an IDF. */
  function FileGain(tokens: seq<string>, idfs: map<string, real>, w: string): real {
    if w in idfs then Occurrences(tokens, w) as real * idfs[w] else 0.0
  }

  /** One query word's contribution to a sentence's score: its IDF when it is present. */
  function SentenceGain(tokens: seq<string>, idfs: map<string, real>, w: string): real {
    if w in idfs && w in tokens then idfs[w] else 0.0
  }

  function FileTerm(tokens: seq<string>, idfs: map<string, real>): string -> real {
    w => FileGain(tokens, idfs, w)
  }

  function SentenceTerm(tokens: seq<string>, idfs: map<string, real>): string -> real {
    w => SentenceGain(tokens, idfs, w)
  }

  /** Every IDF value is non-negative. */
  predicate NonNegativeIdfs(idfs: map<string, real>) {
    forall w :: w in idfs ==> idfs[w] >= 0.0
  }

  /** No query word both has an IDF and occurs in `tokens`. */
  predicate NoScoringWord(query: seq<string>, tokens: seq<string>, idfs: map<string, real>) {
    forall w :: w in query ==> w !in idfs || w !in tokens
  }

  /**
   * The TF-IDF score of a file with word list `tokens`. It is non-negative
   * when the IDF values are, and zero when no query word both has an IDF and
   * occurs in the file.
   */
  function TfIdf(query: seq<string>, tokens: seq<string>, idfs: map<string, real>): (r: real)
    ensures NonNegativeIdfs(idfs) ==> r >= 0.0
    ensures NoScoringWord(query, tokens, idfs) ==> r == 0.0
  {
    TermSigns(query, tokens, idfs);
    SumOverSigns(query, FileTerm(tokens, idfs));
    SumOver(query, FileTerm(tokens, idfs))
  }

  /**
   * The IDF score of a sentence with word list `tokens`, with the same sign
   * and zero properties as `TfIdf`.
   */
  function SentenceScore(query: seq<string>, tokens: seq<string>, idfs: map<string, real>): (r: real)
    ensures NonNegativeIdfs(idfs) ==> r >= 0.0
    ensures NoScoringWord(query, tokens, idfs) ==> r == 0.0
  {
    TermSigns(query, tokens, idfs);
    SumOverSigns(query, SentenceTerm(tokens, idfs));
    SumOver(query, SentenceTerm(tokens, idfs))
  }

  /** The number of query words present in `tokens`, whether or not they have an IDF (questions.py:175-179). */
  function Matches(query: seq<string>, tokens: seq<string>): (c: nat)
    ensures c <= |query|
    ensures c > 0 <==> exists w :: w in query && w in tokens
  {
    if query == [] then 0
    else
      var p := query[..|query| - 1];
      assert query == p + [query[|query| - 1]];
      Matches(p, tokens) + (if query[|query| - 1] in tokens then 1 else 0)
  }

  /**
   * Query-term density: matches per token of the sentence (the quotient of
   * questions.py:180, exactly). It lies between 0 and |query| / |tokens|, and
   * is positive exactly when some query word occurs in the sentence.
   */
  function Density(query: seq<string>, tokens: seq<string>): (d: real)
    requires |tokens| > 0
    ensures 0.0 <= d <= |query| as real / |tokens| as real
    ensures d > 0.0 <==> exists w :: w in query && w in tokens
  {
    Matches(query, tokens) as real / |tokens| as real
  }

  /** A word's gains are non-negative with non-negative IDFs, and zero without an IDF or an occurrence. */
  lemma GainSigns(tokens: seq<string>, idfs: map<string, real>, w: string)
    ensures NonNegativeIdfs(idfs) ==> FileGain(tokens, idfs, w) >= 0.0 && SentenceGain(tokens, idfs, w) >= 0.0
    ensures w !in idfs || w !in tokens ==> FileGain(tokens, idfs, w) == 0.0 && SentenceGain(tokens, idfs, w) == 0.0
  {
    if w in idfs {
      var c := Occurrences(tokens, w) as real;
      if idfs[w] >= 0.0 {
        assert c * idfs[w] >= 0.0;
      }
      if w !in tokens {
        assert c == 0.0;
      }
    }
  }

  /** `GainSigns` for every query word, through the term functions the sums use. */
  lemma TermSigns(query: seq<string>, tokens: seq<string>, idfs: map<string, real>)
    ensures NonNegativeIdfs(idfs) ==>
              forall w :: w in query ==> FileTerm(tokens, idfs)(w) >= 0.0 && SentenceTerm(tokens, idfs)(w) >= 0.0
    ensures NoScoringWord(query, tokens, idfs) ==>
              forall w :: w in query ==> FileTerm(tokens, idfs)(w) == 0.0 && SentenceTerm(tokens, idfs)(w) == 0.0
  {
    forall w | w in query {
      GainSigns(tokens, idfs, w);
    }
  }

  /** Non-negative terms give a non-negative sum; zero terms give a zero sum. */
  lemma {:induction false} SumOverSigns(query: seq<string>, term: string -> real)
    ensures (forall w :: w in query ==> term(w) >= 0.0) ==> SumOver(query, term) >= 0.0
    ensures (forall w :: w in query ==> term(w) == 0.0) ==> SumOver(query, term) == 0.0
  {
    if query != [] {
      SumOverSigns(query[..|query| - 1], term);
    }
  }

  /** Adding one more query word adds its term. */
  lemma SumOverSnoc(query: seq<string>, w: string, term: string -> real)
    ensures SumOver(query + [w], term) == SumOver(query, term) + term(w)
  {
    assert (query + [w])[..|query|] == query;
  }

  lemma {:induction false} SumOverAppend(a: seq<string>, b: seq<string>, term: string -> real)
    ensures SumOver(a + b, term) == SumOver(a, term) + SumOver(b, term)
  {
    if b == [] {
      assert a + b == a;
    } else {
      var b' := b[..|b| - 1];
      SumOverAppend(a, b', term);
      assert (a + b)[..|a + b| - 1] == a + b';
    }
  }

  /** A permutation of `p + [w]` is `a + [w] + b` for some permutation `a + b` of `p`. */
  lemma SplitAround(p: seq<string>, w: string, q: seq<string>) returns (a: seq<string>, b: seq<string>)
    requires multiset(p + [w]) == multiset(q)
    ensures q == a + [w] + b
    ensures multiset(p) == multiset(a + b)
  {
    assert w in multiset(q) by {
      assert w in multiset(p + [w]);
    }
    var k :| 0 <= k < |q| && q[k] == w;
    a, b := q[..k], q[k + 1..];
    assert q == a + [w] + b;
    calc {
      multiset(a + b);
      multiset(a) + multiset(b);
      multiset(q) - multiset{w};
      multiset(p + [w]) - multiset{w};
      multiset(p);
    }
  }

  /** The sum over `a + [w] + b` is the sum over `a + b` plus the term of `w`. */
  lemma SumOverInsert(a: seq<string>, w: string, b: seq<string>, term: string -> real)
    ensures SumOver(a + [w] + b, term) == SumOver(a + b, term) + term(w)
  {
    SumOverAppend(a, b, term);
    SumOverAppend(a + [w], b, term);
    SumOverSnoc(a, w, term);
  }

  /** The sum does not depend on the order in which the query set is iterated. */
  lemma {:induction false} SumOverPermutation(q1: seq<string>, q2: seq<string>, term: string -> real)
    requires multiset(q1) == multiset(q2)
    ensures SumOver(q1, term) == SumOver(q2, term)
  {
    if q1 != [] {
      var w := q1[|q1| - 1];
      var p1 := q1[..|q1| - 1];
      assert q1 == p1 + [w];
      var a, b := SplitAround(p1, w, q2);
      SumOverPermutation(p1, a + b, term);
      SumOverInsert(a, w, b, term);
    }
  }

  /** Terms that agree on every query word give equal sums. */
  lemma {:induction false} SumOverCongruent(query: seq<string>, f: string -> real, g: string -> real)
    requires forall w :: w in query ==> f(w) == g(w)
    ensures SumOver(query, f) == SumOver(query, g)
  {
    if query != [] {
      SumOverCongruent(query[..|query| - 1], f, g);
    }
  }

  /** Pointwise smaller terms give a smaller sum. */
  lemma {:induction false} SumOverMonotone(query: seq<string>, f: string -> real, g: string -> real)
    requires forall w :: w in query ==> f(w) <= g(w)
    ensures SumOver(query, f) <= SumOver(query, g)
  {
    if query != [] {
      SumOverMonotone(query[..|query| - 1], f, g);
    }
  }

  /** Reordering the query leaves both scores unchanged. */
  lemma ScoresIgnoreQueryOrder(q1: seq<string>, q2: seq<string>, tokens: seq<string>, idfs: map<string, real>)
    requires multiset(q1) == multiset(q2)
    ensures TfIdf(q1, tokens, idfs) == TfIdf(q2, tokens, idfs)
    ensures SentenceScore(q1, tokens, idfs) == SentenceScore(q2, tokens, idfs)
  {
    SumOverPermutation(q1, q2, FileTerm(tokens, idfs));
    SumOverPermutation(q1, q2, SentenceTerm(tokens, idfs));
  }

  /**
   * A sentence's score is presence-based: two word lists with the same words
   * score the same, however often each word occurs.
   */
  lemma SentenceScorePresenceOnly(query: seq<string>, t1: seq<string>, t2: seq<string>, idfs: map<string, real>)
    requires forall w :: w in t1 <==> w in t2
    ensures SentenceScore(query, t1, idfs) == SentenceScore(query, t2, idfs)
  {
    SumOverCongruent(query, SentenceTerm(t1, idfs), SentenceTerm(t2, idfs));
  }

  /**
   * With non-negative IDF values, both scores are non-negative and the
   * presence-weighted score never exceeds the occurrence-weighted one.
   */
  lemma SentenceScoreAtMostTfIdf(query: seq<string>, tokens: seq<string>, idfs: map<string, real>)
    requires NonNegativeIdfs(idfs)
    ensures 0.0 <= SentenceScore(query, tokens, idfs) <= TfIdf(query, tokens, idfs)
  {
    forall w | w in query ensures SentenceTerm(tokens, idfs)(w) <= FileTerm(tokens, idfs)(w) {
      SentenceGainAtMostFileGain(tokens, idfs, w);
    }
    SumOverMonotone(query, SentenceTerm(tokens, idfs), FileTerm(tokens, idfs));
  }

  /** With a non-negative IDF, a present word's IDF is at most its occurrences times that IDF. */
  lemma SentenceGainAtMostFileGain(tokens: seq<string>, idfs: map<string, real>, w: string)
    requires NonNegativeIdfs(idfs)
    ensures SentenceGain(tokens, idfs, w) <= FileGain(tokens, idfs, w)
  {
    if w in idfs && w in tokens {
      var c := Occurrences(tokens, w) as real;
      var x := idfs[w];
      assert c >= 1.0 && x >= 0.0;
      assert c * x - x == (c - 1.0) * x;
      assert (c - 1.0) * x >= 0.0;
    }
  }

  /** A file's score over one more query word of the iteration. */
  lemma TfIdfStep(query: seq<string>, i: nat, tokens: seq<string>, idfs: map<string, real>)
    requires i < |query|
    ensures TfIdf(query[..i + 1], tokens, idfs) == TfIdf(query[..i], tokens, idfs) + FileGain(tokens, idfs, query[i])
  {
    assert query[..i + 1] == query[..i] + [query[i]];
    SumOverSnoc(query[..i], query[i], FileTerm(tokens, idfs));
  }

  /** A sentence's score over one more query word of the iteration. */
  lemma SentenceScoreStep(query: seq<string>, i: nat, tokens: seq<string>, idfs: map<string, real>)
    requires i < |query|
    ensures SentenceScore(query[..i + 1], tokens, idfs) == SentenceScore(query[..i], tokens, idfs) + SentenceGain(tokens, idfs, query[i])
  {
    assert query[..i + 1] == query[..i] + [query[i]];
    SumOverSnoc(query[..i], query[i], SentenceTerm(tokens, idfs));
  }

  /** The product the loop of questions.py:129-130 adds is the word's gain. */
  lemma FileGainIs(tokens: seq<string>, idfs: map<string, real>, w: string, count: nat)
    requires w in idfs && count == Occurrences(tokens, w)
    ensures FileGain(tokens, idfs, w) == count as real * idfs[w]
  {
  }

  /** Query words unknown to the IDF table, or absent from the file, add nothing. */
  lemma TfIdfUnknownWord(query: seq<string>, w: string, tokens: seq<string>, idfs: map<string, real>)
    requires w !in idfs || w !in tokens
    ensures TfIdf(query + [w], tokens, idfs) == TfIdf(query, tokens, idfs)
    ensures SentenceScore(query + [w], tokens, idfs) == SentenceScore(query, tokens, idfs)
  {
    SumOverSnoc(query, w, FileTerm(tokens, idfs));
    SumOverSnoc(query, w, SentenceTerm(tokens, idfs));
  }
}
