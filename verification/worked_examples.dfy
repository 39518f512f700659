/**
 * Small worked cases of the scoring and ranking functions, computed by hand
 * from the definitions.
 */
module Examples {
  import opened Tables
  import opened Tokenize
  import opened Idf
  import opened Scores
  import opened Selection
  import opened FileRanker
  import opened SentenceRanker

  /** `Lower(s)` is `t` when `t` is `s` lower-cased character by character. */
  lemma LowerIs(s: string, t: string)
    requires |s| == |t| && forall i :: 0 <= i < |s| ==> LowerChar(s[i]) == t[i]
    ensures Lower(s) == t
  {
  }

  lemma TokenizeExample()
    ensures Filtered(["The", "quick", ",", "brown", "FOX", "jumps", "."], {"the"}) == ["quick", "brown", "fox", "jumps"]
  {
    var units: seq<string> := ["The", "quick", ",", "brown", "FOX", "jumps", "."];
    assert units == ["The", "quick", ","] + ["brown", "FOX", "jumps", "."];
    FilteredAppend(["The", "quick", ","], ["brown", "FOX", "jumps", "."], {"the"});
    TokenizeHead();
    TokenizeTail();
  }

  lemma TokenizeHead()
    ensures Filtered(["The", "quick", ","], {"the"}) == ["quick"]
  {
    var units: seq<string> := ["The", "quick", ","];
    var sw := {"the"};
    LowerIs("The", "the");
    LowerIs("quick", "quick");
    LowerIs(",", ",");
    assert Kept("quick", sw) by { assert IsAsciiLetter("quick"[0]); }
    assert !HasAsciiLetter(",");
    assert Filtered(units[..1], sw) == [];
    assert units[..2][..1] == units[..1];
    assert Filtered(units[..2], sw) == ["quick"];
    assert units[..3][..2] == units[..2];
    assert units[..3] == units;
  }

  lemma TokenizeTail()
    ensures Filtered(["brown", "FOX", "jumps", "."], {"the"}) == ["brown", "fox", "jumps"]
  {
    var units: seq<string> := ["brown", "FOX", "jumps", "."];
    var sw := {"the"};
    LowerIs("brown", "brown");
    LowerIs("FOX", "fox");
    LowerIs("jumps", "jumps");
    LowerIs(".", ".");
    assert Kept("brown", sw) by { assert IsAsciiLetter("brown"[0]); }
    assert Kept("FOX", sw) by { assert IsAsciiLetter("FOX"[0]); }
    assert Kept("jumps", sw) by { assert IsAsciiLetter("jumps"[0]); }
    assert !HasAsciiLetter(".");
    assert Filtered(units[..1], sw) == ["brown"];
    assert units[..2][..1] == units[..1];
    assert Filtered(units[..2], sw) == ["brown", "fox"];
    assert units[..3][..2] == units[..2];
    assert Filtered(units[..3], sw) == ["brown", "fox", "jumps"];
    assert units[..4][..3] == units[..3];
    assert units[..4] == units;
  }

  /** With doc1 = [a, b] and doc2 = [a], the IDF of a is ln(2/2) and that of b is ln(2/1). */
  method IdfExample(ln: real -> real) returns (idf: map<string, real>)
    ensures idf == map["a" := ln(1.0), "b" := ln(2.0)]
  {
    var names := ["doc1", "doc2"];
    var docs := map["doc1" := ["a", "b"], "doc2" := ["a"]];
    var documents := Table(names, docs);
    assert documents.Valid() by {
      assert Elements(names) == {"doc1", "doc2"};
    }
    idf := ComputeIdfs(documents, ln);
    assert names[..1] == ["doc1"];
    assert Vocabulary(names, docs) == {"a", "b"} by {
      assert Elements(docs["doc1"]) == {"a", "b"};
      assert Elements(docs["doc2"]) == {"a"};
    }
    assert DocFreq(names, docs, "a") == 2 && DocFreq(names, docs, "b") == 1;
    assert IdfEntry(documents, ln, idf, "a") && IdfEntry(documents, ln, idf, "b");
  }

  lemma TopFilesExample(lnTwo: real)
    requires lnTwo > 0.0
    ensures TopFilesSpec(["b"], Table(["doc1", "doc2"], map["doc1" := ["a", "b"], "doc2" := ["a"]]), map["a" := 0.0, "b" := lnTwo], 1) == ["doc1"]
  {
  }

  /** A word list that starts with x and y matches both query words and scores 2 with unit IDFs. */
  lemma BothWordsPresent(t: seq<string>)
    requires |t| >= 2 && t[0] == "x" && t[1] == "y"
    ensures Matches(["x", "y"], t) == 2
    ensures SentenceScore(["x", "y"], t, map["x" := 1.0, "y" := 1.0]) == 2.0
  {
    var query: seq<string> := ["x", "y"];
    var idfs := map["x" := 1.0, "y" := 1.0];
    assert query[..1] == ["x"];
    assert "x" in t && "y" in t;
    assert SumOver([], SentenceTerm(t, idfs)) == 0.0;
    assert SentenceGain(t, idfs, "x") == 1.0 && SentenceGain(t, idfs, "y") == 1.0;
  }

  lemma TieBreakExample()
    ensures TopSentencesSpec(["x", "y"],
      Table(["B", "A"], map["B" := ["x", "y", "c", "d", "e", "f", "g", "h", "i", "j"], "A" := ["x", "y", "c", "d", "e"]]),
      map["x" := 1.0, "y" := 1.0], 1) == ["A"]
  {
    var query: seq<string> := ["x", "y"];
    var a: seq<string> := ["x", "y", "c", "d", "e"];
    var b: seq<string> := ["x", "y", "c", "d", "e", "f", "g", "h", "i", "j"];
    var idfs := map["x" := 1.0, "y" := 1.0];
    var sentences := Table(["B", "A"], map["B" := b, "A" := a]);
    BothWordsPresent(a);
    BothWordsPresent(b);
    assert Density(query, a) == 2.0 / 5.0;
    assert Density(query, b) == 2.0 / 10.0;
    var score, density := SentenceScoreMap(query, sentences, idfs), DensityMap(query, sentences.entries);
    var keys := sentences.keys;
    assert keys[..1] == ["B"];
    assert Scan(keys[..1], score, density, []) == Some("B");
    assert Beats("A", "B", score, density);
  }
}
