/**
 * The prefix tree of `FuzzyMultiDict`, as an arena of nodes.
 *
 * The source keeps nested dictionaries `{"children": {...}, "value": ...}`; a
 * node is identified here by its index in the arena, the root is index 0, and a
 * node's children map each edge character to the index of the child node.
 */
module Trie {
  import opened Wrappers

  /** One prefix position: its outgoing edges and the value stored there, if any. */
  datatype TrieNode<V> = TrieNode(children: map<char, nat>, value: Option<V>)

  /** A non-empty arena whose every edge leads to an existing node created after its parent. */
  ghost predicate WellFormed<V>(nodes: seq<TrieNode<V>>)
  {
    && |nodes| > 0
    && forall i, c :: 0 <= i < |nodes| && c in nodes[i].children ==>
         i < nodes[i].children[c] < |nodes|
  }

  /**
   * A well-formed arena that is a tree: `paths[i]` spells the edges from the root
   * to node `i`, so every node has exactly one path.
   */
  ghost predicate TreeShaped<V>(nodes: seq<TrieNode<V>>, paths: seq<string>)
  {
    && WellFormed(nodes)
    && |paths| == |nodes|
    && paths[0] == []
    && forall i, c :: 0 <= i < |nodes| && c in nodes[i].children ==>
         paths[nodes[i].children[c]] == paths[i] + [c]
  }

  /** The node reached from `n` by following every character of `s`, if all those edges exist. */
  function Walk<V>(nodes: seq<TrieNode<V>>, n: nat, s: string): (r: Option<nat>)
    requires WellFormed(nodes) && n < |nodes|
    ensures r.Some? ==> n <= r.value < |nodes|
    ensures r.Some? && s != [] ==> n < r.value
    decreases |s|
  {
    if s == [] then Some(n)
    else if s[0] in nodes[n].children then Walk(nodes, nodes[n].children[s[0]], s[1..])
    else None
  }

  /** The value stored under key `k`: the value of the node at path `k`, or None when there is no such node. */
  function Lookup<V>(nodes: seq<TrieNode<V>>, k: string): Option<V>
    requires WellFormed(nodes)
  {
    match Walk(nodes, 0, k)
    case Some(m) => nodes[m].value
    case None => None
  }

  /** Walking `s + t` is walking `s` and then walking `t` from wherever `s` ended. */
  lemma {:induction false} WalkConcat<V>(nodes: seq<TrieNode<V>>, n: nat, s: string, t: string)
    requires WellFormed(nodes) && n < |nodes|
    ensures Walk(nodes, n, s + t) ==
              match Walk(nodes, n, s)
              case Some(m) => Walk(nodes, m, t)
              case None => None
    decreases |s|
  {
    if s == [] {
      assert s + t == t;
    } else {
      assert (s + t)[0] == s[0];
      assert (s + t)[1..] == s[1..] + t;
      if s[0] in nodes[n].children {
        WalkConcat(nodes, nodes[n].children[s[0]], s[1..], t);
      }
    }
  }

  /** Every prefix of a walkable string is walkable. */
  lemma WalkPrefix<V>(nodes: seq<TrieNode<V>>, n: nat, s: string, i: nat)
    requires WellFormed(nodes) && n < |nodes| && i <= |s|
    requires Walk(nodes, n, s).Some?
    ensures Walk(nodes, n, s[..i]).Some?
  {
    assert s == s[..i] + s[i..];
    WalkConcat(nodes, n, s[..i], s[i..]);
  }

  /** In a tree-shaped arena the path of the node reached from `n` by `s` is `n`'s path followed by `s`. */
  lemma {:induction false} WalkPath<V>(nodes: seq<TrieNode<V>>, paths: seq<string>, n: nat, s: string)
    requires TreeShaped(nodes, paths) && n < |nodes|
    requires Walk(nodes, n, s).Some?
    ensures paths[Walk(nodes, n, s).value] == paths[n] + s
    decreases |s|
  {
    if s != [] {
      var c := nodes[n].children[s[0]];
      WalkPath(nodes, paths, c, s[1..]);
      assert paths[n] + [s[0]] + s[1..] == paths[n] + s;
    }
  }

  /** Two different keys never lead to the same node of a tree-shaped arena. */
  lemma KeysAreUnique<V>(nodes: seq<TrieNode<V>>, paths: seq<string>, k1: string, k2: string)
    requires TreeShaped(nodes, paths)
    requires Walk(nodes, 0, k1).Some? && Walk(nodes, 0, k1) == Walk(nodes, 0, k2)
    ensures k1 == k2
  {
    WalkPath(nodes, paths, 0, k1);
    WalkPath(nodes, paths, 0, k2);
    assert [] + k1 == k1 && [] + k2 == k2;
  }

  /**
   * `b` is `a` after insertions: old nodes keep their values and edges, every new
   * edge out of an old node leads to a new node, and new nodes hold no value.
   */
  ghost predicate Extends<V>(a: seq<TrieNode<V>>, b: seq<TrieNode<V>>)
  {
    && |a| <= |b|
    && (forall j :: 0 <= j < |a| ==> b[j].value == a[j].value)
    && (forall j, c :: 0 <= j < |a| && c in a[j].children ==>
          c in b[j].children && b[j].children[c] == a[j].children[c])
    && (forall j, c :: 0 <= j < |a| && c in b[j].children && c !in a[j].children ==>
          b[j].children[c] >= |a|)
    && (forall j :: |a| <= j < |b| ==> b[j].value.None?)
  }

  /** Growing the arena keeps every old walk, and adds no new walk that ends at an old node. */
  lemma {:induction false} WalkExtends<V>(a: seq<TrieNode<V>>, b: seq<TrieNode<V>>, n: nat, s: string)
    requires WellFormed(a) && WellFormed(b) && Extends(a, b) && n < |a|
    ensures Walk(a, n, s).Some? ==> Walk(b, n, s) == Walk(a, n, s)
    ensures Walk(b, n, s).Some? && Walk(b, n, s).value < |a| ==> Walk(a, n, s) == Walk(b, n, s)
    decreases |s|
  {
    if s != [] {
      if s[0] in a[n].children {
        WalkExtends(a, b, a[n].children[s[0]], s[1..]);
      } else if s[0] in b[n].children {
        var t := b[n].children[s[0]];
        var w := Walk(b, t, s[1..]);
        assert w.Some? ==> t <= w.value;
      }
    }
  }

  /** Changing only stored values does not change which node a walk reaches. */
  lemma {:induction false} WalkIgnoresValues<V>(a: seq<TrieNode<V>>, b: seq<TrieNode<V>>, n: nat, s: string)
    requires WellFormed(a) && |a| == |b| && n < |a|
    requires forall j :: 0 <= j < |a| ==> a[j].children == b[j].children
    ensures WellFormed(b) && Walk(b, n, s) == Walk(a, n, s)
    decreases |s|
  {
    if s != [] && s[0] in a[n].children {
      WalkIgnoresValues(a, b, a[n].children[s[0]], s[1..]);
    }
  }

  /**
   * `__apply_string`: the exact longest walk from `n` along `s[p..]`. It returns the
   * node reached and the position where the walk stopped; if it stopped early, the
   * next character has no edge out of that node.
   */
  function ApplyString<V>(nodes: seq<TrieNode<V>>, n: nat, s: string, p: nat): (r: (nat, nat))
    requires WellFormed(nodes) && n < |nodes| && p <= |s|
    ensures p <= r.1 <= |s| && r.0 < |nodes|
    ensures Walk(nodes, n, s[p..r.1]) == Some(r.0)
    ensures r.1 < |s| ==> s[r.1] !in nodes[r.0].children
    ensures p < |s| && s[p] in nodes[n].children ==> p < r.1
    decreases |s| - p
  {
    if p == |s| || s[p] !in nodes[n].children then (n, p)
    else
      var r := ApplyString(nodes, nodes[n].children[s[p]], s, p + 1);
      assert s[p..r.1][0] == s[p] && s[p..r.1][1..] == s[p + 1..r.1];
      r
  }

  /** When all of `s[p..]` can be walked, `__apply_string` consumes it to the end. */
  lemma {:induction false} ApplyStringWhole<V>(nodes: seq<TrieNode<V>>, n: nat, s: string, p: nat)
    requires WellFormed(nodes) && n < |nodes| && p <= |s|
    requires Walk(nodes, n, s[p..]).Some?
    ensures ApplyString(nodes, n, s, p) == (Walk(nodes, n, s[p..]).value, |s|)
    decreases |s| - p
  {
    if p < |s| {
      assert s[p..][0] == s[p] && s[p..][1..] == s[p + 1..];
      ApplyStringWhole(nodes, nodes[n].children[s[p]], s, p + 1);
    }
  }

  /** The smallest character of a non-empty set. */
  function MinChar(s: set<char>): (m: char)
    requires s != {}
    ensures m in s && forall x :: x in s ==> m <= x
  {
    MinCharExists(s);
    var m :| m in s && forall x :: x in s ==> m <= x;
    m
  }

  lemma {:induction false} MinCharExists(s: set<char>)
    requires s != {}
    ensures exists m :: m in s && forall x :: x in s ==> m <= x
    decreases |s|
  {
    var y :| y in s;
    var rest := s - {y};
    if rest == {} {
      assert s == rest + {y};
      assert s == {y};
    } else {
      MinCharExists(rest);
      var m :| m in rest && forall x :: x in rest ==> m <= x;
      var least := if y < m then y else m;
      forall x | x in s ensures least <= x {
        if x != y {
          assert x in rest;
        }
      }
      assert least in s;
    }
  }

  /** `sorted(keys)`: the characters of `s` in increasing order, each once. */
  function SortedKeys(s: set<char>): (r: seq<char>)
    ensures |r| == |s|
    ensures forall c :: c in r <==> c in s
    ensures forall i, j :: 0 <= i < j < |r| ==> r[i] < r[j]
    decreases |s|
  {
    if s == {} then []
    else
      var m := MinChar(s);
      [m] + SortedKeys(s - {m})
  }

  /**
   * Python's `sorted(s, key=key)`: an insertion sort that puts each element in
   * front of the first later element whose key is not smaller, so elements with
   * equal keys keep their order.
   */
  function SortBy<T>(s: seq<T>, key: T -> real): (r: seq<T>)
    ensures multiset(r) == multiset(s)
  {
    if s == [] then []
    else
      assert s == [s[0]] + s[1..];
      InsertBy(s[0], SortBy(s[1..], key), key)
  }

  function InsertBy<T>(x: T, s: seq<T>, key: T -> real): (r: seq<T>)
    ensures multiset(r) == multiset(s) + multiset{x}
  {
    if s == [] || key(x) <= key(s[0]) then [x] + s
    else
      assert s == [s[0]] + s[1..];
      [s[0]] + InsertBy(x, s[1..], key)
  }

  ghost predicate SortedBy<T>(s: seq<T>, key: T -> real) {
    forall i, j :: 0 <= i < j < |s| ==> key(s[i]) <= key(s[j])
  }

  ghost predicate KeysAtLeast<T>(s: seq<T>, key: T -> real, b: real) {
    forall i :: 0 <= i < |s| ==> b <= key(s[i])
  }

  /** A lower bound on the keys survives reordering and one more element above it. */
  lemma KeysAtLeastPermuted<T>(s: seq<T>, r: seq<T>, x: T, key: T -> real, b: real)
    requires KeysAtLeast(s, key, b) && b <= key(x)
    requires multiset(r) == multiset(s) + multiset{x}
    ensures KeysAtLeast(r, key, b)
  {
    forall k | 0 <= k < |r| ensures b <= key(r[k]) {
      assert r[k] in multiset(r);
      if r[k] != x {
        assert r[k] in multiset(s);
        var m :| 0 <= m < |s| && s[m] == r[k];
      }
    }
  }

  lemma {:induction false} InsertBySorted<T>(x: T, s: seq<T>, key: T -> real)
    requires SortedBy(s, key)
    ensures SortedBy(InsertBy(x, s, key), key)
    decreases |s|
  {
    if s == [] || key(x) <= key(s[0]) {
      var r := InsertBy(x, s, key);
      assert r == [x] + s;
      forall i, j | 0 <= i < j < |r| ensures key(r[i]) <= key(r[j]) {
        if i == 0 && j > 1 {
          assert key(s[0]) <= key(s[j - 1]);
        }
      }
    } else {
      var rest := InsertBy(x, s[1..], key);
      InsertBySorted(x, s[1..], key);
      assert KeysAtLeast(s[1..], key, key(s[0])) by {
        forall k | 0 <= k < |s[1..]| ensures key(s[0]) <= key(s[1..][k]) {
          assert s[1..][k] == s[k + 1];
        }
      }
      KeysAtLeastPermuted(s[1..], rest, x, key, key(s[0]));
      var r := [s[0]] + rest;
      forall i, j | 0 <= i < j < |r| ensures key(r[i]) <= key(r[j]) {
        assert r[j] == rest[j - 1];
        if i > 0 {
          assert r[i] == rest[i - 1];
        }
      }
    }
  }

  /** `sorted` orders by the key. */
  lemma {:induction false} SortBySorted<T>(s: seq<T>, key: T -> real)
    ensures SortedBy(SortBy(s, key), key)
    decreases |s|
  {
    if s != [] {
      SortBySorted(s[1..], key);
      InsertBySorted(s[0], SortBy(s[1..], key), key);
    }
  }

  /** Sorting keeps exactly the elements it was given. */
  lemma SortByMembers<T>(s: seq<T>, key: T -> real)
    ensures forall x :: x in SortBy(s, key) <==> x in s
  {
    var r := SortBy(s, key);
    forall x ensures x in r <==> x in s {
      assert x in r <==> x in multiset(r);
      assert x in s <==> x in multiset(s);
    }
  }

  /** `s` without the occurrences of `x`, in order: a loop that skips `x` with `continue`. */
  function Without(s: seq<char>, x: char): (r: seq<char>)
    ensures forall y :: y in r <==> y in s && y != x
  {
    if s == [] then []
    else
      assert s == [s[0]] + s[1..];
      (if s[0] == x then [] else [s[0]]) + Without(s[1..], x)
  }

  /**
   * The edges of a node in the order its dictionary holds them, which is the
   * order they were added in. A new child is appended to the arena, so that
   * order is the order of the child indices.
   */
  function ChildOrder(children: map<char, nat>): (r: seq<char>)
    ensures forall c :: c in r <==> c in children
  {
    var key := (c: char) => if c in children then children[c] as real else 0.0;
    SortByMembers(SortedKeys(children.Keys), key);
    SortBy(SortedKeys(children.Keys), key)
  }

  lemma SortedKeysEmpty()
    ensures SortedKeys({}) == []
  {
  }

  lemma SortedKeysSingle(a: char)
    ensures SortedKeys({a}) == [a]
  {
    var r := SortedKeys({a});
    assert r[0] in {a};
  }

  lemma SortedKeysPair(a: char, b: char)
    requires a < b
    ensures SortedKeys({a, b}) == [a, b]
  {
    var r := SortedKeys({a, b});
    assert r[0] in {a, b} && r[1] in {a, b} && r[0] < r[1];
  }
}
