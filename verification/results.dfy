/**
 * What a lookup returns: the corrections applied to the query, the entries of the
 * result dictionary, and their final assembly (filter, sort by total score,
 * truncate) done by `__prepare_result`.
 */
module Results {
  import opened Wrappers

  datatype Kind = Insertion | Deletion | Substitution | Transposition

  /**
   * One edit applied to the query: its kind, the symbols it names (the source
   * formats them into a description string), the query position it applies at,
   * and its score.
   */
  datatype Correction = Correction(kind: Kind, symbols: string, position: nat, score: real)

  /** A completion found below a matched node: the full key and its value. */
  datatype Leaf<V> = Leaf(key: string, value: V)

  /** A row of the result dictionary; `value` is None for a completion anchor without a value. */
  datatype Entry<V> = Entry(value: Option<V>, key: string, correction: seq<Correction>, leaves: seq<Leaf<V>>)

  /** Python truthiness of an optional count: present and non-zero. */
  predicate Truthy(n: Option<int>)
  {
    n.Some? && n.value != 0
  }

  /** `__get_total_corrections_score`: the sum of the correction scores. */
  function TotalScore(cs: seq<Correction>): real
  {
    if cs == [] then 0.0 else cs[0].score + TotalScore(cs[1..])
  }

  /** Appending a correction adds exactly its score to the total. */
  lemma {:induction false} TotalScoreAppend(cs: seq<Correction>, c: Correction)
    ensures TotalScore(cs + [c]) == TotalScore(cs) + c.score
  {
    if cs != [] {
      assert (cs + [c])[1..] == cs[1..] + [c];
      TotalScoreAppend(cs[1..], c);
    }
  }

  ghost predicate SortedByScore<V>(s: seq<Entry<V>>)
  {
    forall i, j :: 0 <= i < j < |s| ==> TotalScore(s[i].correction) <= TotalScore(s[j].correction)
  }

  ghost predicate DistinctKeys<V>(s: seq<Entry<V>>)
  {
    forall i, j :: 0 <= i < j < |s| ==> s[i].key != s[j].key
  }

  /** Inserts `e` before the first entry whose total score is not smaller. */
  function InsertByScore<V>(e: Entry<V>, s: seq<Entry<V>>): (r: seq<Entry<V>>)
    ensures |r| == |s| + 1
  {
    if s == [] || TotalScore(e.correction) <= TotalScore(s[0].correction) then [e] + s
    else [s[0]] + InsertByScore(e, s[1..])
  }

  lemma {:induction false} InsertByScorePermutes<V>(e: Entry<V>, s: seq<Entry<V>>)
    ensures multiset(InsertByScore(e, s)) == multiset(s) + multiset{e}
  {
    if !(s == [] || TotalScore(e.correction) <= TotalScore(s[0].correction)) {
      InsertByScorePermutes(e, s[1..]);
      assert s == [s[0]] + s[1..];
    }
  }

  /** Every entry of a permutation of `s` with `e` added is `e` or an entry of `s`. */
  lemma InsertByScoreFrom<V>(e: Entry<V>, s: seq<Entry<V>>, k: int)
    requires 0 <= k < |InsertByScore(e, s)|
    ensures InsertByScore(e, s)[k] == e || InsertByScore(e, s)[k] in s
  {
    var r := InsertByScore(e, s);
    InsertByScorePermutes(e, s);
    assert r[k] in multiset(r);
  }

  lemma {:induction false} InsertByScoreSorted<V>(e: Entry<V>, s: seq<Entry<V>>)
    requires SortedByScore(s)
    ensures SortedByScore(InsertByScore(e, s))
  {
    if !(s == [] || TotalScore(e.correction) <= TotalScore(s[0].correction)) {
      var rest := InsertByScore(e, s[1..]);
      InsertByScoreSorted(e, s[1..]);
      forall k | 0 <= k < |rest| ensures TotalScore(s[0].correction) <= TotalScore(rest[k].correction) {
        InsertByScoreFrom(e, s[1..], k);
      }
      assert InsertByScore(e, s) == [s[0]] + rest;
    }
  }

  lemma {:induction false} InsertByScoreDistinct<V>(e: Entry<V>, s: seq<Entry<V>>)
    requires DistinctKeys(s) && forall i :: 0 <= i < |s| ==> s[i].key != e.key
    ensures DistinctKeys(InsertByScore(e, s))
  {
    if !(s == [] || TotalScore(e.correction) <= TotalScore(s[0].correction)) {
      var rest := InsertByScore(e, s[1..]);
      InsertByScoreDistinct(e, s[1..]);
      forall k | 0 <= k < |rest| ensures s[0].key != rest[k].key {
        InsertByScoreFrom(e, s[1..], k);
      }
      assert InsertByScore(e, s) == [s[0]] + rest;
    }
  }

  /** `sorted(..., key=total score)`: a stable insertion sort by ascending total score. */
  function SortByScore<V>(s: seq<Entry<V>>): (r: seq<Entry<V>>)
    ensures |r| == |s|
  {
    if s == [] then [] else InsertByScore(s[0], SortByScore(s[1..]))
  }

  /** The sort is a permutation whose result is ordered by total score, and it keeps keys distinct. */
  lemma SortByScoreCorrect<V>(s: seq<Entry<V>>)
    ensures multiset(SortByScore(s)) == multiset(s)
    ensures SortedByScore(SortByScore(s))
    ensures DistinctKeys(s) ==> DistinctKeys(SortByScore(s))
  {
    SortByScorePermutes(s);
    SortByScoreSorted(s);
    if DistinctKeys(s) {
      SortByScoreDistinct(s);
    }
  }

  lemma {:induction false} SortByScorePermutes<V>(s: seq<Entry<V>>)
    ensures multiset(SortByScore(s)) == multiset(s)
  {
    if s != [] {
      SortByScorePermutes(s[1..]);
      InsertByScorePermutes(s[0], SortByScore(s[1..]));
      assert s == [s[0]] + s[1..];
    }
  }

  lemma {:induction false} SortByScoreSorted<V>(s: seq<Entry<V>>)
    ensures SortedByScore(SortByScore(s))
  {
    if s != [] {
      SortByScoreSorted(s[1..]);
      InsertByScoreSorted(s[0], SortByScore(s[1..]));
    }
  }

  lemma {:induction false} SortByScoreDistinct<V>(s: seq<Entry<V>>)
    requires DistinctKeys(s)
    ensures DistinctKeys(SortByScore(s))
  {
    if s != [] {
      var rest := SortByScore(s[1..]);
      SortByScoreDistinct(s[1..]);
      SortByScorePermutes(s[1..]);
      forall i | 0 <= i < |rest| ensures rest[i].key != s[0].key {
        InSameMultiset(rest, s[1..], rest[i]);
      }
      InsertByScoreDistinct(s[0], rest);
    }
  }

  /** The dictionary comprehension of line 963: the entries that hold a value, in order. */
  function KeepValued<V>(s: seq<Entry<V>>): (r: seq<Entry<V>>)
    ensures forall i :: 0 <= i < |r| ==> r[i] in s && r[i].value.Some?
    ensures forall i :: 0 <= i < |s| && s[i].value.Some? ==> s[i] in r
    ensures DistinctKeys(s) ==> DistinctKeys(r)
  {
    if s == [] then []
    else
      assert s == [s[0]] + s[1..];
      if s[0].value.Some? then [s[0]] + KeepValued(s[1..]) else KeepValued(s[1..])
  }

  /** Python's `s[:n]`; a negative `n` drops the last `-n` elements. */
  function PySlice<T>(s: seq<T>, n: int): (r: seq<T>)
    ensures |r| <= |s| && r == s[..|r|]
    ensures n >= 0 ==> |r| == if n < |s| then n else |s|
  {
    if n >= |s| then s
    else if n >= 0 then s[..n]
    else if |s| + n >= 0 then s[..|s| + n]
    else []
  }

  /**
   * `__prepare_result`: unless leaves were asked for, drop the entries without a
   * value; sort the rest by ascending total score; keep the first `topn` only when
   * `topn` is truthy.
   */
  function PrepareResult<V>(result: seq<Entry<V>>, topn: Option<int>, topnLeaves: Option<int>): (r: seq<Entry<V>>)
    ensures Truthy(topn) && topn.value > 0 ==> |r| <= topn.value
  {
    var sorted := SortByScore(Kept(result, topnLeaves));
    if Truthy(topn) then PySlice(sorted, topn.value) else sorted
  }

  /**
   * The prepared answer is ordered by total score, takes its entries from the
   * result dictionary, holds only valued entries unless leaves were asked for,
   * keeps keys distinct, and drops nothing else unless `topn` is truthy.
   */
  lemma PrepareResultCorrect<V>(result: seq<Entry<V>>, topn: Option<int>, topnLeaves: Option<int>)
    ensures SortedByScore(PrepareResult(result, topn, topnLeaves))
    ensures forall x :: x in PrepareResult(result, topn, topnLeaves) ==> x in result
    ensures !Truthy(topnLeaves) ==> forall x :: x in PrepareResult(result, topn, topnLeaves) ==> x.value.Some?
    ensures DistinctKeys(result) ==> DistinctKeys(PrepareResult(result, topn, topnLeaves))
    ensures !Truthy(topn) ==>
              forall x :: x in result && (Truthy(topnLeaves) || x.value.Some?) ==> x in PrepareResult(result, topn, topnLeaves)
  {
    var kept := Kept(result, topnLeaves);
    var sorted := SortByScore(kept);
    SortByScoreCorrect(kept);
    SameMembers(sorted, kept);
    var r := PrepareResult(result, topn, topnLeaves);
    assert r == sorted[..|r|];
    PrefixKeeps(sorted, |r|);
    forall x | x in r ensures x in result {
      assert x in sorted[..|r|];
      assert x in sorted;
      InSameMultiset(sorted, kept, x);
    }
  }

  /** The entries `__prepare_result` sorts: all of them when leaves were asked for, else the valued ones. */
  function Kept<V>(result: seq<Entry<V>>, topnLeaves: Option<int>): (kept: seq<Entry<V>>)
    ensures forall x :: x in kept ==> x in result
    ensures !Truthy(topnLeaves) ==> forall x :: x in kept ==> x.value.Some?
    ensures forall x :: x in result && (Truthy(topnLeaves) || x.value.Some?) ==> x in kept
    ensures DistinctKeys(result) ==> DistinctKeys(kept)
  {
    if Truthy(topnLeaves) then result else KeepValued(result)
  }

  lemma InSameMultiset<T>(s: seq<T>, t: seq<T>, x: T)
    requires multiset(s) == multiset(t) && x in s
    ensures x in t
  {
    assert x in multiset(s);
  }

  /** Two sequences with the same multiset have the same members. */
  lemma SameMembers<T>(s: seq<T>, t: seq<T>)
    requires multiset(s) == multiset(t)
    ensures forall x :: x in s <==> x in t
  {
    forall x ensures x in s <==> x in t {
      assert x in s <==> x in multiset(s);
      assert x in t <==> x in multiset(t);
    }
  }

  /** A prefix keeps the order and the distinct keys of the whole, and takes its entries from it. */
  lemma PrefixKeeps<V>(s: seq<Entry<V>>, n: nat)
    requires n <= |s|
    ensures SortedByScore(s) ==> SortedByScore(s[..n])
    ensures DistinctKeys(s) ==> DistinctKeys(s[..n])
    ensures forall x :: x in s[..n] ==> x in s
  {
    assert forall i :: 0 <= i < n ==> s[..n][i] == s[i];
  }

  /** `result[e.key] = e`: replace the entry with the same key in place, or append. */
  function Put<V>(result: seq<Entry<V>>, e: Entry<V>): (r: seq<Entry<V>>)
    requires DistinctKeys(result)
    ensures e in r
    ensures forall x :: x in r ==> x == e || (x in result && x.key != e.key)
    ensures forall x :: x in result && x.key != e.key ==> x in r
    ensures DistinctKeys(r)
  {
    if result == [] then [e]
    else
      assert result == [result[0]] + result[1..];
      if result[0].key == e.key then [e] + result[1..]
      else [result[0]] + Put(result[1..], e)
  }

  /**
   * Lines 528-549 with the value test of line 539 corrected to `is not None`: the
   * whole query walked to a node that stores `stored` (or leaves were asked for),
   * and the answer is that single entry, with no corrections, prepared as usual.
   */
  function ExactHit<V>(query: string, stored: Option<V>, leaves: seq<Leaf<V>>,
                       topn: Option<int>, topnLeaves: Option<int>): seq<Entry<V>>
  {
    PrepareResult([Entry(stored, query, [], if Truthy(topnLeaves) then leaves else [])], topn, topnLeaves)
  }

  /** A key stored with a value is returned exactly, under its own key and with no corrections. */
  lemma ExactHitReturnsStored<V>(query: string, v: V, leaves: seq<Leaf<V>>, topn: Option<int>, topnLeaves: Option<int>)
    requires topn.None? || topn.value >= 0
    ensures ExactHit(query, Some(v), leaves, topn, topnLeaves) ==
              [Entry(Some(v), query, [], if Truthy(topnLeaves) then leaves else [])]
  {
    var e := Entry(Some(v), query, [], if Truthy(topnLeaves) then leaves else []);
    assert KeepValued([e]) == [e] by {
      assert KeepValued([e]) == [e] + KeepValued([e][1..]);
    }
  }

  /**
   * Lines 528-549 as written: line 539 copies the stored value only when it is
   * truthy, so a stored falsy value (0, "", an empty list) becomes None and the
   * entry is then filtered out.
   */
  function ExactHitAsWritten<V>(truthy: V -> bool, query: string, stored: Option<V>, leaves: seq<Leaf<V>>,
                                topn: Option<int>, topnLeaves: Option<int>): seq<Entry<V>>
  {
    var value := if stored.Some? && truthy(stored.value) then stored else None;
    PrepareResult([Entry(value, query, [], if Truthy(topnLeaves) then leaves else [])], topn, topnLeaves)
  }

  /** `d["k"] = 0; d.get("k")` answers `[]` as written, while the corrected exact hit answers the stored 0. */
  lemma FalsyValueLost()
    ensures ExactHitAsWritten((x: int) => x != 0, "k", Some(0), [], None, None) == []
    ensures ExactHit("k", Some(0), [], None, None) == [Entry(Some(0), "k", [], [])]
  {
    var e: Entry<int> := Entry(None, "k", [], []);
    assert KeepValued([e]) == [] by {
      assert KeepValued([e]) == KeepValued([e][1..]);
    }
    ExactHitReturnsStored("k", 0, [], None, None);
    assert SortByScore<int>([]) == [];
  }
}
