/**
 * `compute_idfs` (questions.py:83-103): from a dictionary of named word lists
 * to the map word -> log(TD / count), where TD is the number of lists and
 * count the number of lists that contain the word. The natural logarithm is
 * a parameter `ln`; the counts are modelled exactly.
 */
module Idf {
  import opened Tables

  /** All names in `names` have a word list. */
  predicate Covers(names: seq<string>, docs: map<string, seq<string>>) {
    forall d :: d in names ==> d in docs
  }

  /** Document frequency: how many of the lists named in `names` contain `w` (a presence test). */
  function DocFreq(names: seq<string>, docs: map<string, seq<string>>, w: string): (count: nat)
    requires Covers(names, docs)
    ensures count <= |names|
  {
    if names == [] then 0
    else
      var d := names[|names| - 1];
      DocFreq(names[..|names| - 1], docs, w) + (if w in docs[d] then 1 else 0)
  }

  /** Every word that occurs in at least one of the lists named in `names`. */
  function Vocabulary(names: seq<string>, docs: map<string, seq<string>>): (vocab: set<string>)
    requires Covers(names, docs)
    ensures forall d, w :: d in names && w in docs[d] ==> w in vocab
  {
    if names == [] then {}
    else Vocabulary(names[..|names| - 1], docs) + Elements(docs[names[|names| - 1]])
  }

  /** The document frequency of a word that occurs in some named list is at least one. */
  lemma {:induction false} DocFreqPositive(names: seq<string>, docs: map<string, seq<string>>, w: string, d: string)
    requires Covers(names, docs) && d in names && w in docs[d]
    ensures DocFreq(names, docs, w) >= 1
  {
    var p := names[..|names| - 1];
    if d != names[|names| - 1] {
      assert d in p;
      DocFreqPositive(p, docs, w, d);
    }
  }

  /** A word is in the vocabulary exactly when some named list contains it. */
  lemma {:induction false} VocabularyMembers(names: seq<string>, docs: map<string, seq<string>>, w: string)
    requires Covers(names, docs)
    ensures w in Vocabulary(names, docs) <==> exists d :: d in names && w in docs[d]
  {
    if names != [] {
      var p := names[..|names| - 1];
      var last := names[|names| - 1];
      VocabularyMembers(p, docs, w);
      assert names == p + [last];
      if w in Vocabulary(names, docs) && w !in Vocabulary(p, docs) {
        assert w in docs[last];
      }
    }
  }

  /** The stored value of `w` is ln(TD / df) with 1 <= df <= TD. */
  ghost predicate IdfEntry(documents: Table<seq<string>>, ln: real -> real, idf: map<string, real>, w: string)
    requires Covers(documents.keys, documents.entries) && w in idf
  {
    var df := DocFreq(documents.keys, documents.entries, w);
    1 <= df <= |documents.keys| && idf[w] == ln(|documents.keys| as real / df as real)
  }

  /** The innermost loop of questions.py:96-99: count the lists that contain `word`. */
  method CountContaining(names: seq<string>, docs: map<string, seq<string>>, word: string) returns (count: nat)
    requires Covers(names, docs)
    ensures count == DocFreq(names, docs, word)
  {
    count := 0;
    for j := 0 to |names|
      invariant count == DocFreq(names[..j], docs, word)
    {
      if word in docs[names[j]] {
        count := count + 1;
      }
      assert names[..j + 1][..j] == names[..j];
    }
    assert names[..|names|] == names;
  }

  /** The loops of questions.py:91-103. */
  method ComputeIdfs(documents: Table<seq<string>>, ln: real -> real) returns (idf: map<string, real>)
    requires documents.Valid()
    ensures Covers(documents.keys, documents.entries)
    ensures idf.Keys == Vocabulary(documents.keys, documents.entries)
    ensures documents.keys == [] ==> idf == map[]
    ensures forall w :: w in idf ==> IdfEntry(documents, ln, idf, w)
  {
    var names, docs := documents.keys, documents.entries;
    assert Covers(names, docs) by {
      forall d | d in names ensures d in docs { assert d in Elements(names); }
    }
    idf := map[];
    var total := |names|;
    for i := 0 to |names|
      invariant idf.Keys == Vocabulary(names[..i], docs)
      invariant forall w :: w in idf ==> IdfEntry(documents, ln, idf, w)
    {
      var doc := names[i];
      var words := docs[doc];
      for k := 0 to |words|
        invariant idf.Keys == Vocabulary(names[..i], docs) + Elements(words[..k])
        invariant forall w :: w in idf ==> IdfEntry(documents, ln, idf, w)
      {
        var word := words[k];
        var count := CountContaining(names, docs, word);
        DocFreqPositive(names, docs, word, doc);
        if word !in idf {
          idf := idf[word := ln(total as real / count as real)];
        }
        assert words[..k + 1] == words[..k] + [word];
      }
      assert words[..|words|] == words;
      assert names[..i + 1][..i] == names[..i];
    }
    assert names[..|names|] == names;
  }

  /** When ln is non-negative from 1 upwards, every IDF value is non-negative (TD / df >= 1). */
  lemma IdfNonNegative(documents: Table<seq<string>>, ln: real -> real, idf: map<string, real>, w: string)
    requires Covers(documents.keys, documents.entries) && w in idf && IdfEntry(documents, ln, idf, w)
    requires forall x: real :: x >= 1.0 ==> ln(x) >= 0.0
    ensures idf[w] >= 0.0
  {
    var total := |documents.keys| as real;
    var df := DocFreq(documents.keys, documents.entries, w) as real;
    var ratio := total / df;
    assert ratio * df == total;
    assert ratio >= 1.0;
  }
}
