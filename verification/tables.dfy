/**
 * Python dictionaries as the question-answering core uses them: a finite map
 * whose iteration order is the order in which keys were first inserted.
 */
module Tables {

  datatype Option<T> = None | Some(value: T)

  predicate NoDuplicates<T(==)>(s: seq<T>) {
    forall i, j :: 0 <= i < j < |s| ==> s[i] != s[j]
  }

  /** The elements of a sequence, as a set. */
  function Elements<T>(s: seq<T>): set<T> {
    set x | x in s
  }

  /**
   * A dictionary keyed by strings (file names, sentences, words): `keys` is the
   * iteration order, `entries` the contents.
   */
  datatype Table<V> = Table(keys: seq<string>, entries: map<string, V>) {
    predicate Valid() {
      NoDuplicates(keys) && entries.Keys == Elements(keys)
    }
  }

  /** In a sequence without duplicates, no element occurs before its own position. */
  lemma NotInPrefix<T>(s: seq<T>, i: nat)
    requires NoDuplicates(s) && i < |s|
    ensures s[i] !in s[..i]
  {
    assert forall k :: 0 <= k < i ==> s[..i][k] == s[k] != s[i];
  }

  /** A table built from a duplicate-free key order and a map with exactly those keys is valid. */
  lemma TableValid<V>(order: seq<string>, entries: map<string, V>)
    requires NoDuplicates(order) && forall k :: k in entries <==> k in order
    ensures Table(order, entries).Valid()
  {
    assert entries.Keys == Elements(order);
  }

  /** A sequence has at least as many positions as distinct elements, and exactly as many when no element repeats. */
  lemma {:induction false} ElementsCard<T>(s: seq<T>)
    ensures |Elements(s)| <= |s|
    ensures NoDuplicates(s) ==> |Elements(s)| == |s|
  {
    if s != [] {
      var p := s[..|s| - 1];
      var x := s[|s| - 1];
      ElementsCard(p);
      assert s == p + [x];
      assert Elements(s) == Elements(p) + {x};
      if NoDuplicates(s) {
        assert NoDuplicates(p);
        assert x !in Elements(p);
      }
    }
  }

  /**
   * Pigeonhole: fewer than |keys| picks cannot cover all of a duplicate-free
   * sequence of keys.
   */
  lemma SomeKeyLeft<T>(keys: seq<T>, picked: seq<T>)
    requires NoDuplicates(keys) && |picked| < |keys|
    ensures exists k :: k in keys && k !in picked
  {
    if forall k :: k in keys ==> k in picked {
      ElementsCard(keys);
      ElementsCard(picked);
      SubsetCard(Elements(keys), Elements(picked));
      assert false;
    }
  }

  /** |keys| distinct picks among |keys| distinct keys cover all of them. */
  lemma AllKeysPicked<T>(keys: seq<T>, picked: seq<T>)
    requires NoDuplicates(keys) && NoDuplicates(picked) && |picked| == |keys|
    requires forall k :: k in picked ==> k in keys
    ensures forall k :: k in keys ==> k in picked
  {
    ElementsCard(keys);
    ElementsCard(picked);
    assert Elements(picked) <= Elements(keys);
    var rest := Elements(keys) - Elements(picked);
    assert Elements(keys) == Elements(picked) + rest;
    assert rest == {};
    forall k | k in keys ensures k in picked {
      assert k in Elements(keys);
    }
  }

  lemma SubsetCard<T>(a: set<T>, b: set<T>)
    requires a <= b
    ensures |a| <= |b|
  {
    assert b == a + (b - a);
  }
}
