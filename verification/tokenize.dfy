/**
 * The filtering step of `tokenize` (questions.py): the word/punctuation units
 * produced by an external splitter are lower-cased, and a unit survives when
 * it contains an ASCII letter and is not a stopword.
 */
module Tokenize {

  /** ASCII lower-casing of one character; every other character is left as it is. */
  function LowerChar(c: char): char {
    if 'A' <= c <= 'Z' then (c as int + 32) as char else c
  }

  /**
   * ASCII `str.lower`: no upper-case ASCII letter is left, and each position
   * holds an ASCII letter exactly when it did before.
   */
  function Lower(s: string): (r: string)
    ensures |r| == |s|
    ensures forall i :: 0 <= i < |r| ==> !('A' <= r[i] <= 'Z')
    ensures forall i :: 0 <= i < |r| ==> (IsAsciiLetter(r[i]) <==> IsAsciiLetter(s[i]))
  {
    seq(|s|, i requires 0 <= i < |s| => LowerChar(s[i]))
  }

  /** Lower-casing twice is lower-casing once. */
  lemma LowerIdempotent(s: string)
    ensures Lower(Lower(s)) == Lower(s)
  {
    var t := Lower(s);
    assert forall i :: 0 <= i < |t| ==> LowerChar(t[i]) == t[i];
  }

  /** The `[a-zA-Z]` search gives the same answer before and after lower-casing. */
  lemma LowerKeepsLetters(s: string)
    ensures HasAsciiLetter(Lower(s)) <==> HasAsciiLetter(s)
  {
    var t := Lower(s);
    if HasAsciiLetter(s) {
      var i :| 0 <= i < |s| && IsAsciiLetter(s[i]);
      assert IsAsciiLetter(t[i]);
    }
    if HasAsciiLetter(t) {
      var i :| 0 <= i < |t| && IsAsciiLetter(t[i]);
      assert IsAsciiLetter(s[i]);
    }
  }

  /** The character class `[a-zA-Z]` of the search at questions.py:77. */
  predicate IsAsciiLetter(c: char) {
    'a' <= c <= 'z' || 'A' <= c <= 'Z'
  }

  predicate HasAsciiLetter(s: string) {
    exists i :: 0 <= i < |s| && IsAsciiLetter(s[i])
  }

  /** A unit survives when its lower-cased form has a letter and is not a stopword. */
  predicate Kept(unit: string, stopwords: set<string>)
    ensures Kept(unit, stopwords) <==> HasAsciiLetter(unit) && Lower(unit) !in stopwords
  {
    LowerKeepsLetters(unit);
    HasAsciiLetter(Lower(unit)) && Lower(unit) !in stopwords
  }

  /** The tokens that survive from `units`, in order, duplicates retained. */
  function Filtered(units: seq<string>, stopwords: set<string>): (r: seq<string>)
    ensures |r| <= |units|
  {
    if units == [] then []
    else
      var last := units[|units| - 1];
      Filtered(units[..|units| - 1], stopwords) + (if Kept(last, stopwords) then [Lower(last)] else [])
  }

  /** The loop of questions.py:73-80: append each surviving lower-cased unit. */
  method Tokenize(units: seq<string>, stopwords: set<string>) returns (tokens: seq<string>)
    ensures tokens == Filtered(units, stopwords)
    ensures |tokens| <= |units|
  {
    tokens := [];
    for k := 0 to |units|
      invariant tokens == Filtered(units[..k], stopwords)
    {
      var itemLower := Lower(units[k]);
      if HasAsciiLetter(itemLower) && itemLower !in stopwords {
        tokens := tokens + [itemLower];
      }
      assert units[..k + 1][..k] == units[..k];
    }
    assert units[..|units|] == units;
  }

  /** Filtering distributes over concatenation: surviving units keep their relative order and multiplicity. */
  lemma {:induction false} FilteredAppend(a: seq<string>, b: seq<string>, stopwords: set<string>)
    ensures Filtered(a + b, stopwords) == Filtered(a, stopwords) + Filtered(b, stopwords)
  {
    if b == [] {
      assert a + b == a;
    } else {
      var b' := b[..|b| - 1];
      FilteredAppend(a, b', stopwords);
      assert (a + b)[..|a + b| - 1] == a + b';
    }
  }

  /** Every output token is the lower-cased form of a unit, has an ASCII letter and is not a stopword. */
  lemma {:induction false} FilteredSound(units: seq<string>, stopwords: set<string>, i: nat)
    requires i < |Filtered(units, stopwords)|
    ensures exists j :: 0 <= j < |units| && Kept(units[j], stopwords) && Filtered(units, stopwords)[i] == Lower(units[j])
    ensures HasAsciiLetter(Filtered(units, stopwords)[i])
    ensures Filtered(units, stopwords)[i] !in stopwords
  {
    var p := units[..|units| - 1];
    if i < |Filtered(p, stopwords)| {
      FilteredSound(p, stopwords, i);
      var j :| 0 <= j < |p| && Kept(p[j], stopwords) && Filtered(p, stopwords)[i] == Lower(p[j]);
      assert units[j] == p[j];
    } else {
      assert Filtered(units, stopwords)[i] == Lower(units[|units| - 1]);
    }
  }

  /** Every unit that satisfies the rules contributes its lower-cased form to the output. */
  lemma {:induction false} FilteredComplete(units: seq<string>, stopwords: set<string>, j: nat)
    requires j < |units| && Kept(units[j], stopwords)
    ensures Lower(units[j]) in Filtered(units, stopwords)
  {
    var p := units[..|units| - 1];
    if j < |p| {
      FilteredComplete(p, stopwords, j);
      assert units[j] == p[j];
    }
  }
}
