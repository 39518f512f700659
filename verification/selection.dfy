/**
 * The repeated maximum scan shared by `top_files` (questions.py:133-143) and
 * `top_sentences` (questions.py:164-186). Each of `n` rounds walks the score
 * table in its iteration order and keeps a running best among the keys not yet
 * ranked, replacing it only when a later key is strictly preferred; the round
 * then appends the running best. A key is preferred for a higher primary score
 * or, at an equal primary score, a higher secondary key (sentences use their
 * query-term density; files use a constant, so that only `>` on the score
 * decides). When every key is already ranked a round finds nothing and the
 * previous pick, still held in the variable `max`, is appended again.
 */
module Selection {
  import opened Tables

  /** The running value `v` of a round: minus infinity, or a real score. */
  datatype Bound = NegInf | Finite(value: real)

  /** `x > v` for a real `x` and a value `v` that may be minus infinity. */
  predicate Exceeds(x: real, v: Bound) {
    v.NegInf? || x > v.value
  }

  predicate Scored(keys: seq<string>, primary: map<string, real>, secondary: map<string, real>) {
    forall k :: k in keys ==> k in primary && k in secondary
  }

  /** `a` is strictly preferred to `b`. */
  predicate Beats(a: string, b: string, primary: map<string, real>, secondary: map<string, real>)
    requires a in primary && b in primary && a in secondary && b in secondary
  {
    primary[a] > primary[b] || (primary[a] == primary[b] && secondary[a] > secondary[b])
  }

  /**
   * Preference is a strict order that separates any two keys whose
   * (primary, secondary) pairs differ.
   */
  lemma BeatsIsStrictOrder(a: string, b: string, c: string, primary: map<string, real>, secondary: map<string, real>)
    requires Scored([a, b, c], primary, secondary)
    ensures !Beats(a, a, primary, secondary)
    ensures Beats(a, b, primary, secondary) ==> !Beats(b, a, primary, secondary)
    ensures Beats(a, b, primary, secondary) && Beats(b, c, primary, secondary) ==> Beats(a, c, primary, secondary)
    ensures !Beats(a, b, primary, secondary) && !Beats(b, a, primary, secondary) ==>
              primary[a] == primary[b] && secondary[a] == secondary[b]
  {
    assert a in [a, b, c] && b in [a, b, c] && c in [a, b, c];
  }

  /** One round's scan of `keys`, in order, skipping the keys already `ranked`. */
  function Scan(keys: seq<string>, primary: map<string, real>, secondary: map<string, real>, ranked: seq<string>): (best: Option<string>)
    requires Scored(keys, primary, secondary)
    ensures best.None? <==> forall k :: k in keys ==> k in ranked
    ensures best.Some? ==> best.value in keys && best.value !in ranked
  {
    if keys == [] then None
    else
      var p := keys[..|keys| - 1];
      var k := keys[|keys| - 1];
      assert keys == p + [k];
      var prev := Scan(p, primary, secondary, ranked);
      if k !in ranked && (prev.None? || Beats(k, prev.value, primary, secondary)) then Some(k) else prev
  }

  /** The list `ranked` after `n` rounds. */
  function Ranking(keys: seq<string>, primary: map<string, real>, secondary: map<string, real>, n: nat): (r: seq<string>)
    requires Scored(keys, primary, secondary)
    requires n > 0 ==> keys != []
    ensures |r| == n
    ensures forall i :: 0 <= i < n ==> r[i] in keys
  {
    if n == 0 then []
    else
      var prev := Ranking(keys, primary, secondary, n - 1);
      var pick := Scan(keys, primary, secondary, prev);
      prev + [if pick.Some? then pick.value else assert keys[0] in prev; prev[n - 2]]
  }

  /**
   * The key a scan picks is preferred to no other unranked key, and it is
   * strictly preferred to every unranked key before it: among the best keys,
   * the earliest one wins.
   */
  lemma {:induction false} ScanPicksEarliestBest(keys: seq<string>, primary: map<string, real>, secondary: map<string, real>, ranked: seq<string>, j: nat)
    requires Scored(keys, primary, secondary) && NoDuplicates(keys)
    requires j < |keys| && Scan(keys, primary, secondary, ranked) == Some(keys[j])
    ensures forall i :: 0 <= i < |keys| && keys[i] !in ranked ==> !Beats(keys[i], keys[j], primary, secondary)
    ensures forall i :: 0 <= i < j && keys[i] !in ranked ==> Beats(keys[j], keys[i], primary, secondary)
    decreases |keys|, 1
  {
    if j == |keys| - 1 {
      ScanPicksLast(keys, primary, secondary, ranked);
    } else {
      ScanKeepsEarlierPick(keys, primary, secondary, ranked, j);
    }
  }

  /** `ScanPicksEarliestBest` when the pick is the last key. */
  lemma {:induction false} ScanPicksLast(keys: seq<string>, primary: map<string, real>, secondary: map<string, real>, ranked: seq<string>)
    requires Scored(keys, primary, secondary) && NoDuplicates(keys)
    requires keys != [] && Scan(keys, primary, secondary, ranked) == Some(keys[|keys| - 1])
    ensures forall i :: 0 <= i < |keys| && keys[i] !in ranked ==>
              !Beats(keys[i], keys[|keys| - 1], primary, secondary) && (i < |keys| - 1 ==> Beats(keys[|keys| - 1], keys[i], primary, secondary))
    decreases |keys|, 0
  {
    var last := |keys| - 1;
    var p := keys[..last];
    var k := keys[last];
    assert keys == p + [k];
    var prev := Scan(p, primary, secondary, ranked);
    if prev.Some? {
      var q :| 0 <= q < |p| && p[q] == prev.value;
      assert Beats(k, p[q], primary, secondary);
      ScanPicksEarliestBest(p, primary, secondary, ranked, q);
      // every unranked key of `p` is at most `p[q]`, which `k` beats
      forall i | 0 <= i < |keys| && keys[i] !in ranked
        ensures !Beats(keys[i], k, primary, secondary) && (i < last ==> Beats(k, keys[i], primary, secondary))
      {
        if i < last {
          assert keys[i] == p[i];
          assert !Beats(p[i], p[q], primary, secondary);
        }
      }
    } else {
      assert forall i :: 0 <= i < last ==> keys[i] in p;
    }
  }

  /** `ScanPicksEarliestBest` when the pick comes before the last key. */
  lemma {:induction false} ScanKeepsEarlierPick(keys: seq<string>, primary: map<string, real>, secondary: map<string, real>, ranked: seq<string>, j: nat)
    requires Scored(keys, primary, secondary) && NoDuplicates(keys)
    requires j < |keys| - 1 && Scan(keys, primary, secondary, ranked) == Some(keys[j])
    ensures forall i :: 0 <= i < |keys| && keys[i] !in ranked ==>
              !Beats(keys[i], keys[j], primary, secondary) && (i < j ==> Beats(keys[j], keys[i], primary, secondary))
    decreases |keys|, 0
  {
    var last := |keys| - 1;
    var p := keys[..last];
    assert keys == p + [keys[last]];
    assert keys[j] != keys[last];
    assert Scan(p, primary, secondary, ranked) == Some(p[j]);
    ScanPicksEarliestBest(p, primary, secondary, ranked, j);
    forall i | 0 <= i < |keys| && keys[i] !in ranked
      ensures !Beats(keys[i], keys[j], primary, secondary) && (i < j ==> Beats(keys[j], keys[i], primary, secondary))
    {
      if i < last {
        assert keys[i] == p[i];
      }
    }
  }

  /** The first `m` rounds of a longer ranking are the ranking of `m` rounds. */
  lemma {:induction false} RankingPrefix(keys: seq<string>, primary: map<string, real>, secondary: map<string, real>, n: nat, m: nat)
    requires Scored(keys, primary, secondary) && (n > 0 ==> keys != [])
    requires m <= n
    ensures Ranking(keys, primary, secondary, n)[..m] == Ranking(keys, primary, secondary, m)
  {
    if m < n {
      RankingPrefix(keys, primary, secondary, n - 1, m);
      assert Ranking(keys, primary, secondary, n)[..n - 1] == Ranking(keys, primary, secondary, n - 1);
    }
  }

  /** Round `m` appends the scan's pick over what was ranked before it, or repeats the previous pick when there is none. */
  lemma RankingRound(keys: seq<string>, primary: map<string, real>, secondary: map<string, real>, n: nat, m: nat)
    requires Scored(keys, primary, secondary) && (n > 0 ==> keys != [])
    requires m < n
    ensures var r := Ranking(keys, primary, secondary, n);
            var pick := Scan(keys, primary, secondary, r[..m]);
            r[m] == if pick.Some? then pick.value else r[m - 1]
  {
    var r := Ranking(keys, primary, secondary, n);
    var next := Ranking(keys, primary, secondary, m + 1);
    var prev := Ranking(keys, primary, secondary, m);
    RankingPrefix(keys, primary, secondary, n, m + 1);
    RankingPrefix(keys, primary, secondary, n, m);
    assert r[m] == next[m];
    assert r[..m] == prev;
  }

  /** While keys remain, every round picks a key not ranked before. */
  lemma {:induction false} RankingDistinct(keys: seq<string>, primary: map<string, real>, secondary: map<string, real>, n: nat)
    requires Scored(keys, primary, secondary) && (n > 0 ==> keys != []) && NoDuplicates(keys)
    requires n <= |keys|
    ensures NoDuplicates(Ranking(keys, primary, secondary, n))
  {
    if n > 0 {
      var prev := Ranking(keys, primary, secondary, n - 1);
      RankingDistinct(keys, primary, secondary, n - 1);
      SomeKeyLeft(keys, prev);
    }
  }

  /**
   * Round `m`, while keys remain, picks a key not ranked before it that no
   * unranked key beats and that strictly beats every unranked key before it.
   */
  lemma RankingRoundIsEarliestBest(keys: seq<string>, primary: map<string, real>, secondary: map<string, real>, n: nat, m: nat, j: nat)
    requires Scored(keys, primary, secondary) && (n > 0 ==> keys != []) && NoDuplicates(keys)
    requires m < n && m < |keys| && j < |keys| && keys[j] == Ranking(keys, primary, secondary, n)[m]
    ensures var r := Ranking(keys, primary, secondary, n);
            && keys[j] !in r[..m]
            && (forall i :: 0 <= i < |keys| && keys[i] !in r[..m] ==> !Beats(keys[i], keys[j], primary, secondary))
            && (forall i :: 0 <= i < j && keys[i] !in r[..m] ==> Beats(keys[j], keys[i], primary, secondary))
  {
    var r := Ranking(keys, primary, secondary, n);
    RankingRound(keys, primary, secondary, n, m);
    SomeKeyLeft(keys, r[..m]);
    ScanPicksEarliestBest(keys, primary, secondary, r[..m], j);
  }

  /** No key later in the ranking is preferred to an earlier one: primary scores never increase, and at equal primary scores the secondary keys never increase. */
  lemma {:induction false} RankingNonIncreasing(keys: seq<string>, primary: map<string, real>, secondary: map<string, real>, n: nat)
    requires Scored(keys, primary, secondary) && (n > 0 ==> keys != [])
    ensures var r := Ranking(keys, primary, secondary, n);
            forall i, j :: 0 <= i < j < n ==> !Beats(r[j], r[i], primary, secondary)
  {
    if n > 1 {
      var r := Ranking(keys, primary, secondary, n);
      var prev := Ranking(keys, primary, secondary, n - 1);
      RankingNonIncreasing(keys, primary, secondary, n - 1);
      assert r[..n - 1] == prev;
      var earlier := Ranking(keys, primary, secondary, n - 2);
      RankingPrefix(keys, primary, secondary, n - 1, n - 2);
      var pick := Scan(keys, primary, secondary, prev);
      // the last pick does not beat the one before it
      assert !Beats(r[n - 1], r[n - 2], primary, secondary) by {
        if pick.Some? {
          assert pick.value !in earlier;
          NotBeatenByUnranked(keys, primary, secondary, earlier, pick.value);
        }
      }
    }
  }

  /** No key that a scan skipped over as unranked beats its pick. */
  lemma {:induction false} NotBeatenByUnranked(keys: seq<string>, primary: map<string, real>, secondary: map<string, real>, ranked: seq<string>, k: string)
    requires Scored(keys, primary, secondary)
    requires k in keys && k !in ranked
    ensures Scan(keys, primary, secondary, ranked).Some?
    ensures !Beats(k, Scan(keys, primary, secondary, ranked).value, primary, secondary)
  {
    var p := keys[..|keys| - 1];
    if k in p {
      NotBeatenByUnranked(p, primary, secondary, ranked, k);
    }
  }

  /** Once every key is ranked (after |keys| rounds), each further round appends the previous pick again. */
  lemma RankingRepeatsWhenExhausted(keys: seq<string>, primary: map<string, real>, secondary: map<string, real>, n: nat, m: nat)
    requires Scored(keys, primary, secondary) && (n > 0 ==> keys != []) && NoDuplicates(keys)
    requires |keys| <= m < n
    ensures Ranking(keys, primary, secondary, n)[m] == Ranking(keys, primary, secondary, n)[m - 1]
  {
    var r := Ranking(keys, primary, secondary, n);
    RankingDistinct(keys, primary, secondary, |keys|);
    RankingPrefix(keys, primary, secondary, n, |keys|);
    AllKeysPicked(keys, r[..|keys|]);
    RankingRound(keys, primary, secondary, n, m);
    assert forall k :: k in keys ==> k in r[..m] by {
      forall k | k in keys ensures k in r[..m] {
        var i :| 0 <= i < |keys| && r[..|keys|][i] == k;
        assert r[..m][i] == k;
      }
    }
  }
}
