/**
 * The states of the approximate search and the rules every state obeys: a row
 * `(position, path, node, corrections)` is a point in the query paired with a
 * node of the trie, the memo `processed` keeps the fewest corrections seen per
 * `(position, path)`, and the correction budget bounds every row.
 */
module Frontier {
  import opened Wrappers
  import opened Trie
  import opened Results
  import opened Leaves

  /** The exceptions the dictionary raises. */
  datatype Error = TypeError | ValueError | KeyError | ZeroDivisionError

  /** An argument used as a key: a string, or any other Python value (which is refused). */
  datatype KeyArg = Text(s: string) | NonText

  /** A search state: the query position reached, the key spelled so far, its node, and the corrections applied. */
  datatype Row = Row(position: nat, path: string, node: nat, correction: seq<Correction>)

  /** `processed`: for each `(position, path)`, the fewest corrections it was enqueued with. */
  type Memo = map<(nat, string), nat>

  function Key(r: Row): (nat, string)
  {
    (r.position, r.path)
  }

  /** Corrections plus position: every successor of a row has a larger measure. */
  function Measure(r: Row): nat
  {
    |r.correction| + r.position
  }

  /** The row is inside the query and its node is the trie node at its path. */
  ghost predicate StateOk<V>(nodes: seq<TrieNode<V>>, query: string, r: Row)
  {
    && WellFormed(nodes)
    && r.position <= |query|
    && r.node < |nodes|
    && Walk(nodes, 0, r.path) == Some(r.node)
  }

  /** The row's corrections are within the budget `max * |query|`. */
  predicate WithinBudget(r: Row, query: string, max: real)
  {
    |r.correction| as real <= max * |query| as real
  }

  /** One more correction than `r` carries is still within the budget. */
  predicate RoomForOne(r: Row, query: string, max: real)
  {
    (|r.correction| + 1) as real <= max * |query| as real
  }

  /** A state without corrections is within any non-negative budget. */
  lemma UncorrectedWithinBudget(r: Row, query: string, max: real)
    requires r.correction == [] && 0.0 <= max
    ensures WithinBudget(r, query, max)
  {
  }

  /** `s` may follow `row` in the next wave: a state within the budget, further along in `Measure`. */
  ghost predicate Advanced<V>(nodes: seq<TrieNode<V>>, query: string, max: real, row: Row, s: Row)
  {
    StateOk(nodes, query, s) && Measure(row) < Measure(s) && WithinBudget(s, query, max)
  }

  lemma AdvancedAppend<V>(nodes: seq<TrieNode<V>>, query: string, max: real, row: Row, a: seq<Row>, b: seq<Row>)
    requires forall s :: s in a ==> Advanced(nodes, query, max, row, s)
    requires forall s :: s in b ==> Advanced(nodes, query, max, row, s)
    ensures forall s :: s in a + b ==> Advanced(nodes, query, max, row, s)
  {
  }

  /** No memo entry grew. */
  ghost predicate Shrinks(memo: Memo, memo': Memo)
  {
    forall k :: k in memo ==> k in memo' && memo'[k] <= memo[k]
  }

  /** Shrinking twice is shrinking. */
  lemma ShrinksTransitive(m0: Memo, m1: Memo, m2: Memo)
    requires Shrinks(m0, m1) && Shrinks(m1, m2)
    ensures Shrinks(m0, m2)
  {
  }

  /**
   * The memo against the rows enqueued so far (`log`, in order): every enqueued
   * key is recorded with at most its corrections, and two enqueues of the same
   * key carry strictly fewer corrections the later one is.
   */
  ghost predicate MemoOk(memo: Memo, log: seq<Row>)
  {
    && (forall i :: 0 <= i < |log| ==> Key(log[i]) in memo && memo[Key(log[i])] <= |log[i].correction|)
    && (forall i, j :: 0 <= i < j < |log| && Key(log[i]) == Key(log[j]) ==>
          |log[j].correction| < |log[i].correction|)
  }

  /**
   * The gate repeated in every `__apply_*` helper: enqueue `s` when its key is
   * new to the memo or was seen with more corrections, and record its count.
   */
  function Offer(memo: Memo, s: Row): (r: (seq<Row>, Memo))
    ensures r.0 == [] || r.0 == [s]
    ensures r.0 == [s] <==> Key(s) !in memo || memo[Key(s)] > |s.correction|
    ensures Key(s) in r.1 && r.1[Key(s)] <= |s.correction|
    ensures Shrinks(memo, r.1)
  {
    if Key(s) !in memo || memo[Key(s)] > |s.correction| then ([s], memo[Key(s) := |s.correction|])
    else ([], memo)
  }

  /** Offering a row keeps the memo invariant over the enqueued rows. */
  lemma OfferGated(memo: Memo, log: seq<Row>, s: Row)
    requires MemoOk(memo, log)
    ensures MemoOk(Offer(memo, s).1, log + Offer(memo, s).0)
  {
    var (rows, memo') := Offer(memo, s);
    if rows == [s] {
      var log' := log + [s];
      forall i | 0 <= i < |log'|
        ensures Key(log'[i]) in memo' && memo'[Key(log'[i])] <= |log'[i].correction|
      {
        if i < |log| {
          assert log'[i] == log[i];
        }
      }
      forall i, j | 0 <= i < j < |log'| && Key(log'[i]) == Key(log'[j])
        ensures |log'[j].correction| < |log'[i].correction|
      {
        assert log'[i] == log[i];
        if j < |log| {
          assert log'[j] == log[j];
        }
      }
    } else {
      assert log + rows == log;
    }
  }

  /** Offering a row after `rows` were enqueued keeps the invariant over everything enqueued. */
  lemma OfferAppends(memo: Memo, log: seq<Row>, rows: seq<Row>, s: Row)
    requires MemoOk(memo, log + rows)
    ensures MemoOk(Offer(memo, s).1, log + (rows + Offer(memo, s).0))
  {
    OfferGated(memo, log + rows, s);
    assert (log + rows) + Offer(memo, s).0 == log + (rows + Offer(memo, s).0);
  }

  /** The memo holds `s`'s key with at most its corrections: `s`, or a better state at its key, went through the gate. */
  ghost predicate Recorded(memo: Memo, s: Row)
  {
    Key(s) in memo && memo[Key(s)] <= |s.correction|
  }

  /**
   * The two enqueue attempts each edit makes, in order: the state right after
   * the edit, then the state reached by walking on from it along the query.
   */
  function OfferPair(memo: Memo, first: Row, walked: Row): (r: (seq<Row>, Memo))
    ensures forall s :: s in r.0 ==> s == first || s == walked
    ensures Recorded(r.1, first) && Recorded(r.1, walked)
    ensures Shrinks(memo, r.1)
  {
    var (a, m) := Offer(memo, first);
    var (b, m') := Offer(m, walked);
    (a + b, m')
  }

  /** Offering a pair keeps the memo invariant over everything enqueued. */
  lemma OfferPairGated(memo: Memo, log: seq<Row>, first: Row, walked: Row)
    requires MemoOk(memo, log)
    ensures MemoOk(OfferPair(memo, first, walked).1, log + OfferPair(memo, first, walked).0)
  {
    OfferGated(memo, log, first);
    var (a, m) := Offer(memo, first);
    OfferAppends(m, log, a, walked);
  }

  /** The enqueue attempts of several edits in turn, each pair offered against the memo the earlier ones left. */
  function OfferPairs(memo: Memo, pairs: seq<(Row, Row)>): (r: (seq<Row>, Memo))
    ensures Shrinks(memo, r.1)
    decreases |pairs|
  {
    if pairs == [] then ([], memo)
    else
      var (a, m) := OfferPairs(memo, pairs[..|pairs| - 1]);
      var last := pairs[|pairs| - 1];
      var (b, m') := OfferPair(m, last.0, last.1);
      (a + b, m')
  }

  /** Offering one more pair continues from the rows and memo the earlier pairs left. */
  lemma OfferPairsSnoc(memo: Memo, pairs: seq<(Row, Row)>, last: (Row, Row))
    ensures OfferPairs(memo, pairs + [last]) ==
            (OfferPairs(memo, pairs).0 + OfferPair(OfferPairs(memo, pairs).1, last.0, last.1).0,
             OfferPair(OfferPairs(memo, pairs).1, last.0, last.1).1)
  {
    assert (pairs + [last])[..|pairs|] == pairs;
  }

  /** Offering several pairs, one after the other, keeps the memo invariant. */
  lemma {:induction false} OfferPairsGated(memo: Memo, log: seq<Row>, pairs: seq<(Row, Row)>)
    requires MemoOk(memo, log)
    ensures MemoOk(OfferPairs(memo, pairs).1, log + OfferPairs(memo, pairs).0)
    decreases |pairs|
  {
    if pairs != [] {
      var front := pairs[..|pairs| - 1];
      var last := pairs[|pairs| - 1];
      OfferPairsGated(memo, log, front);
      var (a, m) := OfferPairs(memo, front);
      OfferPairGated(m, log + a, last.0, last.1);
      var (b, m') := OfferPair(m, last.0, last.1);
      assert log + a + b == log + (a + b);
    }
  }

  /** Offering a list of pairs enqueues only their states. */
  lemma {:induction false} OfferPairsFrom(memo: Memo, pairs: seq<(Row, Row)>)
    ensures forall s :: s in OfferPairs(memo, pairs).0 ==> exists i :: 0 <= i < |pairs| && (s == pairs[i].0 || s == pairs[i].1)
    decreases |pairs|
  {
    if pairs != [] {
      var front := pairs[..|pairs| - 1];
      var last := pairs[|pairs| - 1];
      OfferPairsFrom(memo, front);
      var (a, m) := OfferPairs(memo, front);
      var (b, m') := OfferPair(m, last.0, last.1);
      forall s | s in a + b ensures exists i :: 0 <= i < |pairs| && (s == pairs[i].0 || s == pairs[i].1) {
        if s in a {
          var i :| 0 <= i < |front| && (s == front[i].0 || s == front[i].1);
          assert front[i] == pairs[i];
        } else {
          assert pairs[|pairs| - 1] == last;
        }
      }
    }
  }

  /** Offering a list of pairs leaves every one of their states recorded. */
  lemma {:induction false} OfferPairsRecorded(memo: Memo, pairs: seq<(Row, Row)>)
    ensures forall i :: 0 <= i < |pairs| ==>
              Recorded(OfferPairs(memo, pairs).1, pairs[i].0) && Recorded(OfferPairs(memo, pairs).1, pairs[i].1)
    decreases |pairs|
  {
    if pairs != [] {
      var front := pairs[..|pairs| - 1];
      var last := pairs[|pairs| - 1];
      OfferPairsRecorded(memo, front);
      var (a, m) := OfferPairs(memo, front);
      var (b, m') := OfferPair(m, last.0, last.1);
      forall i | 0 <= i < |pairs| ensures Recorded(m', pairs[i].0) && Recorded(m', pairs[i].1) {
        if i < |front| {
          assert front[i] == pairs[i];
        }
      }
    }
  }

  /**
   * The budget test of line 582 with a non-empty query: dividing by the query
   * length and comparing with `max` is multiplying `max` by it.
   */
  lemma {:induction false} BudgetGate(r: Row, query: string, max: real)
    requires |query| > 0
    ensures ((|r.correction| + 1) as real / |query| as real <= max) <==> RoomForOne(r, query, max)
  {
    var x := (|r.correction| + 1) as real;
    var y := |query| as real;
    assert (x / y) * y == x;
    if x / y <= max {
      assert (max - x / y) * y >= 0.0;
    } else {
      assert (x / y - max) * y > 0.0;
    }
  }

  /** A budget of at most one correction per query symbol bounds the corrections by the query length. */
  lemma {:induction false} BudgetBound(r: Row, query: string, max: real)
    requires max <= 1.0 && WithinBudget(r, query, max)
    ensures |r.correction| <= |query|
  {
    assert (1.0 - max) * |query| as real >= 0.0;
  }

  /** Every leaf is a stored key, with its stored value, that strictly extends `key`. */
  ghost predicate LeavesBelow<V>(nodes: seq<TrieNode<V>>, key: string, leaves: seq<Leaf<V>>)
    requires WellFormed(nodes)
  {
    forall l :: l in leaves ==> Lookup(nodes, l.key) == Some(l.value) && |key| < |l.key| && l.key[..|key|] == key
  }

  /**
   * An entry of the result dictionary the engine may hold: a value is the value
   * stored under its key, every leaf is a stored key strictly extending its key,
   * there are leaves only when leaves were asked for and never more than asked,
   * and its corrections are within the budget.
   */
  ghost predicate EntryOk<V>(nodes: seq<TrieNode<V>>, query: string, max: real, topnLeaves: Option<int>, e: Entry<V>)
  {
    && WellFormed(nodes)
    && (e.value.Some? ==> Lookup(nodes, e.key) == e.value)
    && LeavesBelow(nodes, e.key, e.leaves)
    && |e.leaves| <= LeafLimit(topnLeaves)
    && |e.correction| as real <= max * |query| as real
  }

  /** How many completions an entry may carry: `topn_leaves` when it is positive, otherwise none. */
  function LeafLimit(topnLeaves: Option<int>): nat
  {
    if topnLeaves.Some? && topnLeaves.value > 0 then topnLeaves.value else 0
  }

  /** A walk from the node at `path` extends the path. */
  lemma Reach<V>(nodes: seq<TrieNode<V>>, path: string, n: nat, rest: string, m: nat)
    requires WellFormed(nodes) && n < |nodes|
    requires Walk(nodes, 0, path) == Some(n) && Walk(nodes, n, rest) == Some(m)
    ensures Walk(nodes, 0, path + rest) == Some(m)
  {
    WalkConcat(nodes, 0, path, rest);
  }

  /** Following the edge `c` out of `n` and then `t` is walking `[c] + t` from `n`. */
  lemma WalkStep<V>(nodes: seq<TrieNode<V>>, n: nat, c: char, t: string)
    requires WellFormed(nodes) && n < |nodes| && c in nodes[n].children
    ensures Walk(nodes, n, [c] + t) == Walk(nodes, nodes[n].children[c], t)
  {
    assert ([c] + t)[0] == c && ([c] + t)[1..] == t;
  }

  /** Every entry of `result` is one the result may hold. */
  ghost predicate EntriesOk<V>(nodes: seq<TrieNode<V>>, query: string, max: real, topnLeaves: Option<int>,
                               result: seq<Entry<V>>)
  {
    forall e :: e in result ==> EntryOk(nodes, query, max, topnLeaves, e)
  }

  /** `__prepare_result` keeps the checked, distinct entries it is given, ranked by score. */
  lemma PreparedAnswer<V>(nodes: seq<TrieNode<V>>, query: string, max: real, topnLeaves: Option<int>,
                          result: seq<Entry<V>>, topn: Option<int>)
    requires EntriesOk(nodes, query, max, topnLeaves, result) && DistinctKeys(result)
    ensures var r := PrepareResult(result, topn, topnLeaves);
      && SortedByScore(r) && DistinctKeys(r)
      && EntriesOk(nodes, query, max, topnLeaves, r)
      && (!Truthy(topnLeaves) ==> forall e :: e in r ==> e.value.Some?)
  {
    PrepareResultCorrect(result, topn, topnLeaves);
    PreparedEntriesOk(nodes, query, max, topnLeaves, result, topn);
  }

  lemma PreparedEntriesOk<V>(nodes: seq<TrieNode<V>>, query: string, max: real, topnLeaves: Option<int>,
                             result: seq<Entry<V>>, topn: Option<int>)
    requires EntriesOk(nodes, query, max, topnLeaves, result)
    ensures EntriesOk(nodes, query, max, topnLeaves, PrepareResult(result, topn, topnLeaves))
  {
    PrepareResultCorrect(result, topn, topnLeaves);
  }

  /** Answers without completions: stored keys with their values, within the budget. */
  ghost predicate StoredAnswers<V>(nodes: seq<TrieNode<V>>, query: string, max: real, result: seq<Entry<V>>)
    requires WellFormed(nodes)
  {
    forall e :: e in result ==>
      && e.value.Some? && Lookup(nodes, e.key) == e.value && e.leaves == []
      && |e.correction| as real <= max * |query| as real
  }

  /** Entries found without completions, each with a value, are stored answers. */
  lemma ValuedEntries<V>(nodes: seq<TrieNode<V>>, query: string, max: real, result: seq<Entry<V>>)
    requires WellFormed(nodes) && EntriesOk(nodes, query, max, None, result)
    requires forall e :: e in result ==> e.value.Some?
    ensures StoredAnswers(nodes, query, max, result)
  {
    forall e | e in result
      ensures e.leaves == [] && Lookup(nodes, e.key) == e.value && |e.correction| as real <= max * |query| as real
    {
      assert EntryOk(nodes, query, max, None, e);
    }
  }

  /** An entry built from a row, as `__check_value` builds it, is one the result may hold. */
  lemma EntryFromRow<V>(nodes: seq<TrieNode<V>>, query: string, max: real, row: Row, e: Entry<V>, topnLeaves: Option<int>)
    requires StateOk(nodes, query, row) && WithinBudget(row, query, max)
    requires e.key == row.path && e.correction == row.correction
    requires e.value.Some? ==> e.value == nodes[row.node].value
    requires e.leaves == if Truthy(topnLeaves) then Take(Below(nodes, row.node, row.path), topnLeaves.value) else []
    ensures EntryOk(nodes, query, max, topnLeaves, e)
  {
    if Truthy(topnLeaves) {
      TakenLeavesLookup(nodes, row.node, row.path, topnLeaves.value);
    }
  }

  /** The node reached by the swapped pair of query symbols at `p`, from the node at `path`. */
  lemma SwappedPairWalk<V>(nodes: seq<TrieNode<V>>, query: string, path: string, n: nat, p: nat)
    requires WellFormed(nodes) && n < |nodes| && Walk(nodes, 0, path) == Some(n) && p + 1 < |query|
    requires query[p + 1] in nodes[n].children && query[p] in nodes[nodes[n].children[query[p + 1]]].children
    ensures Walk(nodes, n, [query[p + 1], query[p]]) == Some(nodes[nodes[n].children[query[p + 1]]].children[query[p]])
    ensures Walk(nodes, 0, path + [query[p + 1], query[p]]) == Some(nodes[nodes[n].children[query[p + 1]]].children[query[p]])
  {
    var middle := nodes[n].children[query[p + 1]];
    var pair := [query[p + 1], query[p]];
    WalkStep(nodes, middle, query[p], []);
    WalkStep(nodes, n, query[p + 1], [query[p]]);
    assert pair == [query[p + 1]] + [query[p]];
    Reach(nodes, path, n, pair, nodes[middle].children[query[p]]);
  }

  /** The free walk after a transposition ends at the node of its corrected key. */
  lemma TranspositionWalkReach<V>(nodes: seq<TrieNode<V>>, query: string, path: string, n: nat, p: nat,
                                  swapped: nat, m: nat, stop: nat)
    requires WellFormed(nodes) && n < |nodes| && p + 2 <= stop <= |query|
    requires Walk(nodes, 0, path) == Some(n) && Walk(nodes, n, [query[p + 1], query[p]]) == Some(swapped)
    requires Walk(nodes, swapped, query[p + 2..stop]) == Some(m)
    ensures Walk(nodes, 0, TranspositionWalkPath(path, query, p, stop)) == Some(m)
  {
    var pair := [query[p + 1], query[p]];
    WalkConcat(nodes, n, pair, query[p + 2..stop]);
    Reach(nodes, path, n, pair + query[p + 2..stop], m);
    assert path + pair + query[p + 2..stop] == path + (pair + query[p + 2..stop]);
  }

  /** A leaf listed below the node at `path` is a stored key extending `path`, with its stored value. */
  lemma LeafLookup<V>(nodes: seq<TrieNode<V>>, n: nat, path: string, l: Leaf<V>)
    requires WellFormed(nodes) && n < |nodes| && Walk(nodes, 0, path) == Some(n)
    requires l in Below(nodes, n, path)
    ensures Lookup(nodes, l.key) == Some(l.value) && |path| < |l.key| && l.key[..|path|] == path
  {
    BelowSound(nodes, n, path, l);
    StoredLookup(nodes, n, path, l);
  }

  lemma StoredLookup<V>(nodes: seq<TrieNode<V>>, n: nat, path: string, l: Leaf<V>)
    requires WellFormed(nodes) && n < |nodes| && Walk(nodes, 0, path) == Some(n)
    requires StoredBelow(nodes, n, path, l)
    ensures Lookup(nodes, l.key) == Some(l.value) && |path| < |l.key| && l.key[..|path|] == path
  {
    var suffix := l.key[|path|..];
    assert l.key == path + suffix;
    WalkConcat(nodes, 0, path, suffix);
  }

  /** Leaves taken from the listing below the node at `path` are stored keys extending `path`. */
  lemma TakenLeavesLookup<V>(nodes: seq<TrieNode<V>>, n: nat, path: string, t: int)
    requires WellFormed(nodes) && n < |nodes| && Walk(nodes, 0, path) == Some(n)
    ensures LeavesBelow(nodes, path, Take(Below(nodes, n, path), t))
  {
    var below := Below(nodes, n, path);
    forall l | l in Take(below, t)
      ensures Lookup(nodes, l.key) == Some(l.value) && |path| < |l.key| && l.key[..|path|] == path
    {
      var taken := Take(below, t);
      var i :| 0 <= i < |taken| && taken[i] == l;
      assert below[i] == l;
      LeafLookup(nodes, n, path, l);
    }
  }

  /**
   * The key of the state the transposition's free walk enqueues, as written at
   * lines 784-790: the row's path appears twice.
   */
  function TranspositionWalkPathAsWritten(path: string, query: string, p: nat, stop: nat): string
    requires p + 2 <= stop <= |query|
  {
    path + path + [query[p + 1], query[p]] + query[p + 2..stop]
  }

  /** The key that state evidently should carry: the row's path, the swapped pair, then the walked symbols. */
  function TranspositionWalkPath(path: string, query: string, p: nat, stop: nat): string
    requires p + 2 <= stop <= |query|
  {
    path + [query[p + 1], query[p]] + query[p + 2..stop]
  }

  /** The chain x, b, a, c from the root, with a value only at its end: the key "xbac". */
  function TranspositionTrie(): seq<TrieNode<int>>
  {
    [ TrieNode(map['x' := 1], None),
      TrieNode(map['b' := 2], None),
      TrieNode(map['a' := 3], None),
      TrieNode(map['c' := 4], None),
      TrieNode(map[], Some(7)) ]
  }

  /**
   * Query "xabc" at the row `(1, "x", node 1)`: swapping "ab" walks to node 3 and
   * the free walk goes on to node 4, the node of key "xbac". As written the
   * enqueued state's key is "xxbac", which names no node at all; the evident key
   * "xbac" names node 4.
   */
  lemma TranspositionPathDoubled(t: seq<TrieNode<int>>)
    requires t == TranspositionTrie()
    ensures WellFormed(t)
    ensures ApplyString(t, 3, "xabc", 3) == (4, 4)
    ensures TranspositionWalkPathAsWritten("x", "xabc", 1, 4) == "xxbac"
    ensures Walk(t, 0, "xxbac") == None
    ensures TranspositionWalkPath("x", "xabc", 1, 4) == "xbac"
    ensures Walk(t, 0, "xbac") == Some(4)
  {
    TranspositionTrieShape(t);
    TranspositionWalks(t);
    assert "xabc"[3..4] == "c";
    assert "x" + "x" + ['b', 'a'] + "c" == "xxbac";
    assert "x" + ['b', 'a'] + "c" == "xbac";
  }

  lemma TranspositionTrieShape(t: seq<TrieNode<int>>)
    requires t == TranspositionTrie()
    ensures WellFormed(t) && |t| == 5
    ensures t[0].children == map['x' := 1] && t[1].children == map['b' := 2]
    ensures t[2].children == map['a' := 3] && t[3].children == map['c' := 4] && t[4].children == map[]
  {
    forall i, c | 0 <= i < |t| && c in t[i].children ensures i < t[i].children[c] < |t| {
    }
  }

  lemma TranspositionWalks(t: seq<TrieNode<int>>)
    requires WellFormed(t) && |t| == 5
    requires t[0].children == map['x' := 1] && t[1].children == map['b' := 2]
    requires t[2].children == map['a' := 3] && t[3].children == map['c' := 4] && t[4].children == map[]
    ensures ApplyString(t, 3, "xabc", 3) == (4, 4)
    ensures Walk(t, 0, "xxbac") == None
    ensures Walk(t, 0, "xbac") == Some(4)
  {
    assert Walk(t, 4, "") == Some(4);
    assert "c"[1..] == "" && "ac"[1..] == "c" && "bac"[1..] == "ac" && "xbac"[1..] == "bac";
    assert "xxbac"[1..] == "xbac";
    assert Walk(t, 1, "xbac") == None;
    assert Walk(t, 3, "c") == Some(4);
    assert Walk(t, 2, "ac") == Some(4);
    assert Walk(t, 1, "bac") == Some(4);
    assert ApplyString(t, 4, "xabc", 4) == (4, 4);
  }
}
