/**
 * The completions below a node: `__get_node_leaves` lists the valued nodes
 * strictly below a node, children visited in increasing character order, each
 * valued node before the nodes below it, and stops after `topn` of them.
 */
module Leaves {
  import opened Wrappers
  import opened Trie
  import opened Results

  /** The leaf a node contributes under key `key`: one if it holds a value, none otherwise. */
  function LeafAt<V>(nodes: seq<TrieNode<V>>, m: nat, key: string): seq<Leaf<V>>
    requires m < |nodes|
  {
    if nodes[m].value.Some? then [Leaf(key, nodes[m].value.value)] else []
  }

  /** Every valued node strictly below `n`, in pre-order with children in increasing character order. */
  function Below<V>(nodes: seq<TrieNode<V>>, n: nat, path: string): seq<Leaf<V>>
    requires WellFormed(nodes) && n < |nodes|
    decreases |nodes| - n, 1, 0
  {
    BelowFrom(nodes, n, path, SortedKeys(nodes[n].children.Keys))
  }

  /** The part of `Below(nodes, n, path)` reached through the edges `ks`, in that order. */
  function BelowFrom<V>(nodes: seq<TrieNode<V>>, n: nat, path: string, ks: seq<char>): seq<Leaf<V>>
    requires WellFormed(nodes) && n < |nodes|
    requires forall c :: c in ks ==> c in nodes[n].children
    decreases |nodes| - n, 0, |ks|
  {
    if ks == [] then []
    else
      var m := nodes[n].children[ks[0]];
      LeafAt(nodes, m, path + [ks[0]]) + Below(nodes, m, path + [ks[0]]) + BelowFrom(nodes, n, path, ks[1..])
  }

  /** The first `t` elements of `s`, or none when `t` is not positive. */
  function Take<T>(s: seq<T>, t: int): (r: seq<T>)
    ensures |r| <= |s| && r == s[..|r|]
    ensures t <= 0 ==> r == []
    ensures t > 0 ==> |r| == if t < |s| then t else |s|
  {
    if t <= 0 then [] else if t < |s| then s[..t] else s
  }

  /** `leaf` is stored below `n`: its key extends `path`, and the rest of its key walks from `n` to a node holding its value. */
  ghost predicate StoredBelow<V>(nodes: seq<TrieNode<V>>, n: nat, path: string, leaf: Leaf<V>)
    requires WellFormed(nodes) && n < |nodes|
  {
    && |path| < |leaf.key|
    && leaf.key[..|path|] == path
    && var w := Walk(nodes, n, leaf.key[|path|..]);
       w.Some? && nodes[w.value].value == Some(leaf.value)
  }

  /** Every listed leaf is a stored key below the node, with its stored value. */
  lemma {:induction false} BelowSound<V>(nodes: seq<TrieNode<V>>, n: nat, path: string, leaf: Leaf<V>)
    requires WellFormed(nodes) && n < |nodes|
    requires leaf in Below(nodes, n, path)
    ensures StoredBelow(nodes, n, path, leaf)
    decreases |nodes| - n, 1, 0
  {
    BelowFromSound(nodes, n, path, SortedKeys(nodes[n].children.Keys), leaf);
  }

  lemma {:induction false} BelowFromSound<V>(nodes: seq<TrieNode<V>>, n: nat, path: string, ks: seq<char>, leaf: Leaf<V>)
    requires WellFormed(nodes) && n < |nodes|
    requires forall c :: c in ks ==> c in nodes[n].children
    requires leaf in BelowFrom(nodes, n, path, ks)
    ensures StoredBelow(nodes, n, path, leaf)
    decreases |nodes| - n, 0, |ks|
  {
    var c := ks[0];
    var m := nodes[n].children[c];
    var p := path + [c];
    if leaf in LeafAt(nodes, m, p) {
      assert leaf.key == p;
      assert leaf.key[|path|..] == [c];
      assert Walk(nodes, m, []) == Some(m);
    } else if leaf in Below(nodes, m, p) {
      BelowSound(nodes, m, p, leaf);
      var s := leaf.key[|p|..];
      assert leaf.key[..|path|] == path by {
        assert leaf.key[..|p|] == p;
        assert leaf.key[..|path|] == leaf.key[..|p|][..|path|];
      }
      assert leaf.key[|path|..] == [c] + s by {
        assert leaf.key[|path|..][0] == leaf.key[..|p|][|path|];
        assert leaf.key[|path|..][1..] == s;
      }
    } else {
      BelowFromSound(nodes, n, path, ks[1..], leaf);
    }
  }

  /** Every stored key strictly below the node is listed, with its stored value. */
  lemma {:induction false} BelowComplete<V>(nodes: seq<TrieNode<V>>, n: nat, path: string, s: string, v: V)
    requires WellFormed(nodes) && n < |nodes|
    requires s != [] && Walk(nodes, n, s).Some? && nodes[Walk(nodes, n, s).value].value == Some(v)
    ensures Leaf(path + s, v) in Below(nodes, n, path)
    decreases |nodes| - n
  {
    var c := s[0];
    assert c in nodes[n].children;
    var m := nodes[n].children[c];
    var p := path + [c];
    assert Walk(nodes, m, s[1..]) == Walk(nodes, n, s);
    assert path + s == p + s[1..];
    var leaf := Leaf(path + s, v);
    if s[1..] == [] {
      assert Walk(nodes, m, s[1..]) == Some(m);
      assert path + s == p;
      assert leaf in LeafAt(nodes, m, p);
    } else {
      BelowComplete(nodes, m, p, s[1..], v);
      assert leaf in Below(nodes, m, p);
    }
    var ks := SortedKeys(nodes[n].children.Keys);
    assert c in ks;
    BelowFromHas(nodes, n, path, ks, c, leaf);
  }

  /** Whatever a child contributes appears in the listing through any edge sequence that names it. */
  lemma {:induction false} BelowFromHas<V>(nodes: seq<TrieNode<V>>, n: nat, path: string, ks: seq<char>, c: char, leaf: Leaf<V>)
    requires WellFormed(nodes) && n < |nodes|
    requires forall x :: x in ks ==> x in nodes[n].children
    requires c in ks
    requires leaf in LeafAt(nodes, nodes[n].children[c], path + [c]) + Below(nodes, nodes[n].children[c], path + [c])
    ensures leaf in BelowFrom(nodes, n, path, ks)
    decreases |ks|
  {
    if ks[0] != c {
      BelowFromHas(nodes, n, path, ks[1..], c, leaf);
    }
  }

  /** No two leaves share a key. */
  ghost predicate DistinctLeafKeys<V>(leaves: seq<Leaf<V>>)
  {
    forall i, j :: 0 <= i < j < |leaves| ==> leaves[i].key != leaves[j].key
  }

  /** Every valued node is listed once: the keys below a node are pairwise distinct. */
  lemma {:induction false} BelowDistinct<V>(nodes: seq<TrieNode<V>>, n: nat, path: string)
    requires WellFormed(nodes) && n < |nodes|
    ensures DistinctLeafKeys(Below(nodes, n, path))
    decreases |nodes| - n, 1, 0
  {
    BelowFromDistinct(nodes, n, path, SortedKeys(nodes[n].children.Keys));
  }

  lemma {:induction false} BelowFromDistinct<V>(nodes: seq<TrieNode<V>>, n: nat, path: string, ks: seq<char>)
    requires WellFormed(nodes) && n < |nodes|
    requires forall c :: c in ks ==> c in nodes[n].children
    requires forall i, j :: 0 <= i < j < |ks| ==> ks[i] != ks[j]
    ensures DistinctLeafKeys(BelowFrom(nodes, n, path, ks))
    decreases |nodes| - n, 0, |ks|
  {
    if ks != [] {
      var c := ks[0];
      var m := nodes[n].children[c];
      var p := path + [c];
      var here, below, rest := LeafAt(nodes, m, p), Below(nodes, m, p), BelowFrom(nodes, n, path, ks[1..]);
      BelowDistinct(nodes, m, p);
      forall y | y in below ensures |p| < |y.key| && y.key[..|p|] == p {
        BelowSound(nodes, m, p, y);
      }
      DistinctAppend(here, below);
      BelowFromDistinct(nodes, n, path, ks[1..]);
      forall x, y | x in here + below && y in rest ensures x.key != y.key {
        assert |path| < |x.key| && x.key[|path|] == c by {
          if x in below {
            assert x.key[|path|] == x.key[..|p|][|path|];
          }
        }
        BelowFromEdge(nodes, n, path, ks[1..], y);
        var i :| 0 <= i < |ks[1..]| && y.key[|path|] == ks[1..][i];
        assert ks[0] != ks[i + 1];
      }
      DistinctAppend(here + below, rest);
    }
  }

  /** A leaf listed through the edges `ks` extends `path` by one of those edges. */
  lemma {:induction false} BelowFromEdge<V>(nodes: seq<TrieNode<V>>, n: nat, path: string, ks: seq<char>, leaf: Leaf<V>)
    requires WellFormed(nodes) && n < |nodes|
    requires forall c :: c in ks ==> c in nodes[n].children
    requires leaf in BelowFrom(nodes, n, path, ks)
    ensures |path| < |leaf.key| && leaf.key[|path|] in ks
    decreases |ks|
  {
    var c := ks[0];
    var m := nodes[n].children[c];
    var p := path + [c];
    if leaf in LeafAt(nodes, m, p) {
      assert leaf.key == p;
    } else if leaf in Below(nodes, m, p) {
      BelowSound(nodes, m, p, leaf);
      assert leaf.key[|path|] == leaf.key[..|p|][|path|];
    } else {
      BelowFromEdge(nodes, n, path, ks[1..], leaf);
    }
  }

  /** Two key-distinct listings with no key in common concatenate to a key-distinct listing. */
  lemma DistinctAppend<V>(a: seq<Leaf<V>>, b: seq<Leaf<V>>)
    requires DistinctLeafKeys(a) && DistinctLeafKeys(b)
    requires forall x, y :: x in a && y in b ==> x.key != y.key
    ensures DistinctLeafKeys(a + b)
  {
    forall i, j | 0 <= i < j < |a + b| ensures (a + b)[i].key != (a + b)[j].key {
      if j < |a| {
      } else if i >= |a| {
        assert (a + b)[i] == b[i - |a|] && (a + b)[j] == b[j - |a|];
      } else {
        assert (a + b)[i] in a && (a + b)[j] in b;
      }
    }
  }

  /**
   * `__get_node_leaves`, with the count of the leaves the recursive call returned
   * taken off `topn`: the first `topn` leaves below `node`.
   */
  method NodeLeaves<V>(nodes: seq<TrieNode<V>>, node: nat, path: string, topn: int) returns (leaves: seq<Leaf<V>>)
    requires WellFormed(nodes) && node < |nodes|
    ensures leaves == Take(Below(nodes, node, path), topn)
    decreases |nodes| - node, 1
  {
    leaves := [];
    if topn <= 0 {
      return;
    }
    var count := topn;
    var keys := SortedKeys(nodes[node].children.Keys);
    var i := 0;
    while i < |keys|
      invariant 0 <= i <= |keys|
      invariant 0 < count == topn - |leaves|
      invariant Below(nodes, node, path) == leaves + BelowFrom(nodes, node, path, keys[i..])
    {
      var x := keys[i];
      var child := nodes[node].children[x];
      BelowFromStep(nodes, node, path, keys, i);
      var sub := ChildLeaves(nodes, child, path + [x], count);
      Advance(Below(nodes, node, path), leaves, LeafAt(nodes, child, path + [x]) + Below(nodes, child, path + [x]),
              BelowFrom(nodes, node, path, keys[i + 1..]), topn, count, sub);
      leaves := leaves + sub;
      count := count - |sub|;
      if count <= 0 {
        return;
      }
      i := i + 1;
    }
    assert BelowFrom(nodes, node, path, keys[i..]) == [];
  }

  /**
   * One turn of the loop of lines 1039-1060: the leaves reached through the child
   * `child` (itself, then what lies below it), at most `topn` of them, following a
   * chain of valueless single-child nodes before recursing.
   */
  method ChildLeaves<V>(nodes: seq<TrieNode<V>>, child: nat, p: string, topn: int) returns (leaves: seq<Leaf<V>>)
    requires WellFormed(nodes) && child < |nodes| && topn > 0
    ensures leaves == Take(LeafAt(nodes, child, p) + Below(nodes, child, p), topn)
    decreases |nodes| - child, 4
  {
    var cur, path := FollowChain(nodes, child, p);
    leaves := StopLeaves(nodes, cur, path, topn);
  }

  /** Lines 1048-1058: the leaves from where the chain stopped, that node's own value first. */
  method StopLeaves<V>(nodes: seq<TrieNode<V>>, cur: nat, path: string, topn: int) returns (leaves: seq<Leaf<V>>)
    requires WellFormed(nodes) && cur < |nodes| && topn > 0
    ensures leaves == Take(LeafAt(nodes, cur, path) + Below(nodes, cur, path), topn)
    decreases |nodes| - cur, 3
  {
    ghost var here := LeafAt(nodes, cur, path);
    ghost var below := Below(nodes, cur, path);
    if nodes[cur].value.Some? {
      leaves := ValuedStop(nodes, cur, path, topn);
      assert here == [Leaf(path, nodes[cur].value.value)];
    } else {
      leaves := NodeLeaves(nodes, cur, path, topn);
      EmptyFront(here, below);
    }
  }

  lemma EmptyFront<T>(here: seq<T>, below: seq<T>)
    requires here == []
    ensures here + below == below
  {
  }

  /** Lines 1050-1056: a valued node is listed first, and counts against `topn`. */
  method ValuedStop<V>(nodes: seq<TrieNode<V>>, cur: nat, path: string, topn: int) returns (leaves: seq<Leaf<V>>)
    requires WellFormed(nodes) && cur < |nodes| && topn > 0 && nodes[cur].value.Some?
    ensures leaves == Take([Leaf(path, nodes[cur].value.value)] + Below(nodes, cur, path), topn)
    decreases |nodes| - cur, 2
  {
    var leaf := Leaf(path, nodes[cur].value.value);
    var count := topn - 1;
    var sub := [];
    if count > 0 {
      sub := NodeLeaves(nodes, cur, path, count);
    }
    TakeCons(leaf, Below(nodes, cur, path), topn, sub);
    leaves := [leaf] + sub;
  }

  /**
   * The inner loop of lines 1042-1046: step down through valueless nodes with a
   * single child. Where it stops, the listing is the same as from where it started.
   */
  method FollowChain<V>(nodes: seq<TrieNode<V>>, child: nat, p: string) returns (cur: nat, path: string)
    requires WellFormed(nodes) && child < |nodes|
    ensures child <= cur < |nodes|
    ensures nodes[cur].value.Some? || |nodes[cur].children| != 1
    ensures LeafAt(nodes, cur, path) + Below(nodes, cur, path) == LeafAt(nodes, child, p) + Below(nodes, child, p)
    ensures (cur, path) == Chain(nodes, child, p)
  {
    cur, path := child, p;
    while nodes[cur].value.None? && |nodes[cur].children| == 1
      invariant child <= cur < |nodes|
      invariant LeafAt(nodes, cur, path) + Below(nodes, cur, path) == LeafAt(nodes, child, p) + Below(nodes, child, p)
      invariant Chain(nodes, cur, path) == Chain(nodes, child, p)
      decreases |nodes| - cur
    {
      var ys := SortedKeys(nodes[cur].children.Keys);
      ChainStep(nodes, cur, path);
      cur, path := nodes[cur].children[ys[0]], path + [ys[0]];
    }
  }

  /** Taking `t` elements of a listing that starts with `x` is `x` followed by `t - 1` of the rest. */
  lemma TakeCons<T>(x: T, below: seq<T>, t: int, sub: seq<T>)
    requires t > 0 && sub == Take(below, t - 1)
    ensures Take([x] + below, t) == [x] + sub
  {
    if t - 1 < |below| {
      assert ([x] + below)[..t] == [x] + below[..t - 1];
    }
  }

  /**
   * One step of a bounded listing: `all` is `done + part + rest`, and the next
   * `sub` is the first `count` elements of `part`. Either that reaches the bound
   * and the listing so far is the first `t` elements of `all`, or all of `part`
   * was taken.
   */
  lemma Advance<T>(all: seq<T>, done: seq<T>, part: seq<T>, rest: seq<T>, t: int, count: int, sub: seq<T>)
    requires all == done + (part + rest)
    requires 0 < count == t - |done|
    requires sub == Take(part, count)
    ensures |sub| <= count
    ensures |sub| == count ==> Take(all, t) == done + sub
    ensures |sub| < count ==> all == (done + sub) + rest
  {
    SubListing(done, part, rest, count, sub);
    Associative(done, part, rest);
    if |sub| == count {
      TakePrefix(all, done + sub, t);
    }
  }

  /** Splitting the listing at the `i`-th edge. */
  lemma BelowFromStep<V>(nodes: seq<TrieNode<V>>, n: nat, path: string, ks: seq<char>, i: nat)
    requires WellFormed(nodes) && n < |nodes|
    requires forall c :: c in ks ==> c in nodes[n].children
    requires i < |ks|
    ensures BelowFrom(nodes, n, path, ks[i..]) ==
              (LeafAt(nodes, nodes[n].children[ks[i]], path + [ks[i]]) + Below(nodes, nodes[n].children[ks[i]], path + [ks[i]]))
              + BelowFrom(nodes, n, path, ks[i + 1..])
  {
    assert ks[i..][0] == ks[i] && ks[i..][1..] == ks[i + 1..];
  }

  /** Going down one edge of a valueless node with a single child lists the same leaves. */
  lemma ChainStep<V>(nodes: seq<TrieNode<V>>, m: nat, p: string)
    requires WellFormed(nodes) && m < |nodes|
    requires nodes[m].value.None? && |nodes[m].children| == 1
    ensures var y := SortedKeys(nodes[m].children.Keys)[0];
            LeafAt(nodes, m, p) + Below(nodes, m, p) ==
            LeafAt(nodes, nodes[m].children[y], p + [y]) + Below(nodes, nodes[m].children[y], p + [y])
  {
    var ys := SortedKeys(nodes[m].children.Keys);
    assert |nodes[m].children.Keys| == 1;
    assert BelowFrom(nodes, m, p, ys[1..]) == [];
  }

  /**
   * Appending the first `t` elements of `b` to `a`: either that fills `t` and is a
   * prefix of `a + b + c`, or it takes all of `b`.
   */
  lemma SubListing<T>(a: seq<T>, b: seq<T>, c: seq<T>, t: int, sub: seq<T>)
    requires t > 0 && sub == Take(b, t)
    ensures |sub| <= t
    ensures |sub| == t ==> (a + b + c)[..|a| + t] == a + sub
    ensures |sub| < t ==> a + sub == a + b
  {
    if |sub| == t {
      assert (a + b + c)[..|a| + t] == a + b[..t];
    }
  }

  lemma Associative<T>(a: seq<T>, b: seq<T>, c: seq<T>)
    ensures a + (b + c) == (a + b) + c
  {
  }

  /** A prefix of `s` of length `t > 0` is the first `t` elements of `s`. */
  lemma TakePrefix<T>(s: seq<T>, pre: seq<T>, t: int)
    requires t > 0 && |pre| == t && |pre| <= |s| && s[..|pre|] == pre
    ensures Take(s, t) == pre
  {
  }

  /**
   * The single-child chain of lines 1042-1057: from the child `m` reached by
   * `p`, go down while the node holds no value and has exactly one child.
   */
  function Chain<V>(nodes: seq<TrieNode<V>>, m: nat, p: string): (r: (nat, string))
    requires WellFormed(nodes) && m < |nodes|
    ensures m <= r.0 < |nodes|
    decreases |nodes| - m
  {
    if nodes[m].value.Some? || |nodes[m].children| != 1 then (m, p)
    else
      var y := SortedKeys(nodes[m].children.Keys)[0];
      Chain(nodes, nodes[m].children[y], p + [y])
  }

  /**
   * `__get_node_leaves` as written: line 1060 extends the list with the recursive
   * call's leaves but never takes their number off `topn`.
   */
  function LeavesAsWritten<V>(nodes: seq<TrieNode<V>>, n: nat, path: string, topn: int): seq<Leaf<V>>
    requires WellFormed(nodes) && n < |nodes|
    decreases |nodes| - n, 1, 0
  {
    if topn <= 0 then []
    else LeavesFromAsWritten(nodes, n, path, SortedKeys(nodes[n].children.Keys), topn, [])
  }

  /** The loop of lines 1039-1060 over the edges `ks` still to visit, with the leaves `acc` listed so far. */
  function LeavesFromAsWritten<V>(nodes: seq<TrieNode<V>>, n: nat, path: string, ks: seq<char>, topn: int,
                                  acc: seq<Leaf<V>>): seq<Leaf<V>>
    requires WellFormed(nodes) && n < |nodes|
    requires forall c :: c in ks ==> c in nodes[n].children
    decreases |nodes| - n, 0, |ks|
  {
    if ks == [] then acc
    else
      var stop := Chain(nodes, nodes[n].children[ks[0]], path + [ks[0]]);
      var cur, p := stop.0, stop.1;
      if nodes[cur].value.Some? then
        var acc' := acc + [Leaf(p, nodes[cur].value.value)];
        if topn - 1 <= 0 then acc'
        else LeavesFromAsWritten(nodes, n, path, ks[1..], topn - 1, acc' + LeavesAsWritten(nodes, cur, p, topn - 1))
      else LeavesFromAsWritten(nodes, n, path, ks[1..], topn, acc + LeavesAsWritten(nodes, cur, p, topn))
  }

  /** Root with edges `a` and `b`; `a` holds 1 and has the edge `x` to a node holding 2; `b` holds 3. */
  function OvershootTrie(): seq<TrieNode<int>>
  {
    [ TrieNode(map['a' := 1, 'b' := 3], None),
      TrieNode(map['x' := 2], Some(1)),
      TrieNode(map[], Some(2)),
      TrieNode(map[], Some(3)) ]
  }

  /**
   * Asking that trie for two leaves of the root: as written the answer holds
   * three ("a", "ax", "b"); the corrected listing stops at "a", "ax".
   */
  lemma LeafOvershoot(t: seq<TrieNode<int>>)
    requires t == OvershootTrie()
    ensures WellFormed(t)
    ensures LeavesAsWritten(t, 0, "", 2) == [Leaf("a", 1), Leaf("ax", 2), Leaf("b", 3)]
    ensures Take(Below(t, 0, ""), 2) == [Leaf("a", 1), Leaf("ax", 2)]
  {
    OvershootTrieShape(t);
    OvershootAsWritten(t);
    OvershootBelowRoot(t);
  }

  /** The edges of the overshoot trie, in the order the listing visits them, and the values. */
  ghost predicate OvershootEdges(t: seq<TrieNode<int>>)
  {
    && WellFormed(t)
    && |t| == 4
    && SortedKeys(t[0].children.Keys) == ['a', 'b'] && SortedKeys(t[1].children.Keys) == ['x']
    && SortedKeys(t[2].children.Keys) == [] && SortedKeys(t[3].children.Keys) == []
    && t[0].children['a'] == 1 && t[0].children['b'] == 3 && t[1].children['x'] == 2
    && t[1].value == Some(1) && t[2].value == Some(2) && t[3].value == Some(3)
  }

  /** ... and where each single-child chain stops. */
  ghost predicate OvershootShaped(t: seq<TrieNode<int>>)
  {
    && OvershootEdges(t)
    && Chain(t, 1, "a") == (1, "a") && Chain(t, 2, "ax") == (2, "ax") && Chain(t, 3, "b") == (3, "b")
    && "" + ['a'] == "a" && "" + ['b'] == "b" && "a" + ['x'] == "ax"
    && ['a', 'b'][1..] == ['b'] && ['b'][1..] == [] && ['x'][1..] == []
  }

  lemma OvershootAsWritten(t: seq<TrieNode<int>>)
    requires OvershootShaped(t)
    ensures LeavesAsWritten(t, 0, "", 2) == [Leaf("a", 1), Leaf("ax", 2), Leaf("b", 3)]
  {
    OvershootAsWrittenFirst(t);
    OvershootAsWrittenSecond(t);
  }

  /** The edge `a`: "a" is listed, then the one leaf below it, and `topn` drops to 1 only. */
  lemma OvershootAsWrittenFirst(t: seq<TrieNode<int>>)
    requires OvershootShaped(t)
    ensures LeavesAsWritten(t, 0, "", 2) == LeavesFromAsWritten(t, 0, "", ['b'], 1, [Leaf("a", 1), Leaf("ax", 2)])
  {
    OvershootAsWrittenA(t);
    AsWrittenValuedStep(t, 0, "", ['a', 'b'], 2, [], 1, "a");
    Listed([], [Leaf("a", 1)], [Leaf("ax", 2)]);
  }

  /** One turn of the as-written loop whose chain stops at a valued node, with `topn` left over. */
  lemma AsWrittenValuedStep<V>(nodes: seq<TrieNode<V>>, n: nat, path: string, ks: seq<char>, topn: int,
                               acc: seq<Leaf<V>>, cur: nat, p: string)
    requires WellFormed(nodes) && n < |nodes| && ks != []
    requires forall c :: c in ks ==> c in nodes[n].children
    requires Chain(nodes, nodes[n].children[ks[0]], path + [ks[0]]) == (cur, p)
    requires nodes[cur].value.Some? && topn > 1
    ensures LeavesFromAsWritten(nodes, n, path, ks, topn, acc) ==
            LeavesFromAsWritten(nodes, n, path, ks[1..], topn - 1,
                                acc + [Leaf(p, nodes[cur].value.value)] + LeavesAsWritten(nodes, cur, p, topn - 1))
  {
  }

  /** The edge `b` is still visited with `topn` 1, and "b" is listed third. */
  lemma OvershootAsWrittenSecond(t: seq<TrieNode<int>>)
    requires OvershootShaped(t)
    ensures LeavesFromAsWritten(t, 0, "", ['b'], 1, [Leaf("a", 1), Leaf("ax", 2)])
            == [Leaf("a", 1), Leaf("ax", 2), Leaf("b", 3)]
  {
  }

  lemma OvershootAsWrittenA(t: seq<TrieNode<int>>)
    requires OvershootShaped(t)
    ensures LeavesAsWritten(t, 1, "a", 1) == [Leaf("ax", 2)]
  {
    assert LeavesAsWritten(t, 2, "ax", 1) == [];
    assert LeavesFromAsWritten(t, 1, "a", ['x'], 1, []) == [Leaf("ax", 2)];
  }

  lemma OvershootBelowA(t: seq<TrieNode<int>>)
    requires OvershootEdges(t)
    ensures Below(t, 1, "a") == [Leaf("ax", 2)]
  {
    OvershootStrings();
    NoChildren(t, 2, "ax");
    BelowFromFirst(t, 1, "a", ['x'], [Leaf("ax", 2)], [], []);
    Listed([Leaf("ax", 2)], [], []);
  }

  lemma OvershootBelowRoot(t: seq<TrieNode<int>>)
    requires OvershootEdges(t)
    ensures Below(t, 0, "") == [Leaf("a", 1), Leaf("ax", 2), Leaf("b", 3)]
  {
    OvershootStrings();
    OvershootBelowA(t);
    OvershootBelowB(t);
    BelowFromFirst(t, 0, "", ['a', 'b'], [Leaf("a", 1)], [Leaf("ax", 2)], [Leaf("b", 3)]);
    Listed([Leaf("a", 1)], [Leaf("ax", 2)], [Leaf("b", 3)]);
  }

  lemma OvershootBelowB(t: seq<TrieNode<int>>)
    requires OvershootEdges(t)
    ensures BelowFrom(t, 0, "", ['b']) == [Leaf("b", 3)]
  {
    OvershootStrings();
    NoChildren(t, 3, "b");
    BelowFromFirst(t, 0, "", ['b'], [Leaf("b", 3)], [], []);
    Listed([Leaf("b", 3)], [], []);
  }

  /** Joining listings of at most one element each. */
  lemma Listed<T>(a: seq<T>, b: seq<T>, c: seq<T>)
    requires |a| <= 1 && |b| <= 1 && |c| <= 1
    ensures a == [] && b == [] ==> a + b + c == c
    ensures b == [] && c == [] ==> a + b + c == a
    ensures a == [] && |b| == 1 && |c| == 1 ==> a + b + c == [b[0], c[0]]
    ensures |a| == 1 && |b| == 1 && |c| == 1 ==> a + b + c == [a[0], b[0], c[0]]
  {
  }

  /** Nothing lies below a node without children. */
  lemma NoChildren<V>(nodes: seq<TrieNode<V>>, n: nat, path: string)
    requires WellFormed(nodes) && n < |nodes| && SortedKeys(nodes[n].children.Keys) == []
    ensures Below(nodes, n, path) == []
  {
  }

  /** The listing through the edges `ks`, once the parts for its first edge are known. */
  lemma BelowFromFirst<V>(nodes: seq<TrieNode<V>>, n: nat, path: string, ks: seq<char>,
                          here: seq<Leaf<V>>, below: seq<Leaf<V>>, rest: seq<Leaf<V>>)
    requires WellFormed(nodes) && n < |nodes| && ks != []
    requires forall c :: c in ks ==> c in nodes[n].children
    requires here == LeafAt(nodes, nodes[n].children[ks[0]], path + [ks[0]])
    requires below == Below(nodes, nodes[n].children[ks[0]], path + [ks[0]])
    requires rest == BelowFrom(nodes, n, path, ks[1..])
    ensures BelowFrom(nodes, n, path, ks) == here + below + rest
  {
  }

  lemma OvershootTrieShape(t: seq<TrieNode<int>>)
    requires t == OvershootTrie()
    ensures OvershootShaped(t)
  {
    OvershootTrieEdges(t);
    OvershootChains(t);
  }

  lemma OvershootChains(t: seq<TrieNode<int>>)
    requires OvershootEdges(t)
    ensures OvershootShaped(t)
  {
    OvershootStrings();
    assert Chain(t, 1, "a") == (1, "a");
    assert Chain(t, 2, "ax") == (2, "ax");
    assert Chain(t, 3, "b") == (3, "b");
  }

  lemma OvershootStrings()
    ensures "" + ['a'] == "a" && "" + ['b'] == "b" && "a" + ['x'] == "ax"
    ensures ['a', 'b'][1..] == ['b'] && ['b'][1..] == [] && ['x'][1..] == []
  {
  }

  lemma OvershootTrieEdges(t: seq<TrieNode<int>>)
    requires t == OvershootTrie()
    ensures OvershootEdges(t)
  {
    OvershootWellFormed(t);
    OvershootKeys(t);
  }

  lemma OvershootWellFormed(t: seq<TrieNode<int>>)
    requires t == OvershootTrie()
    ensures WellFormed(t) && |t| == 4
    ensures t[0].children['a'] == 1 && t[0].children['b'] == 3 && t[1].children['x'] == 2
    ensures t[1].value == Some(1) && t[2].value == Some(2) && t[3].value == Some(3)
  {
    forall i, c | 0 <= i < |t| && c in t[i].children ensures i < t[i].children[c] < |t| {
      if i == 0 {
        assert c == 'a' || c == 'b';
      }
    }
  }

  lemma OvershootKeys(t: seq<TrieNode<int>>)
    requires t == OvershootTrie()
    ensures SortedKeys(t[0].children.Keys) == ['a', 'b'] && SortedKeys(t[1].children.Keys) == ['x']
    ensures SortedKeys(t[2].children.Keys) == [] && SortedKeys(t[3].children.Keys) == []
  {
    assert t[0].children.Keys == {'a', 'b'};
    assert t[1].children.Keys == {'x'};
    assert t[2].children.Keys == {} && t[3].children.Keys == {};
    SortedKeysPair('a', 'b');
    SortedKeysSingle('x');
    SortedKeysEmpty();
  }
}
