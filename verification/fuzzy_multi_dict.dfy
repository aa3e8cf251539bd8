/**
 * `FuzzyMultiDict`: a dictionary over a prefix tree whose lookups tolerate typos.
 * A lookup walks the query through the trie exactly when it can; otherwise it
 * explores, wave after wave, the states reached by keeping a symbol as is or by
 * inserting, deleting, substituting or transposing symbols, within a budget of
 * corrections relative to the query length.
 */
module MultiDict {
  import opened Wrappers
  import opened Trie
  import opened CostModel
  import opened Results
  import opened Leaves
  import opened Frontier

  /** A hit returned by `search`: a value, its key, the corrections that led there, and whether it is a completion. */
  datatype Hit<V> = Hit(value: V, key: string, correction: seq<Correction>, isLeaf: bool)

  /** `symbol_probability or dict()`: a missing table is an empty one. */
  function OrEmpty<K, W>(t: Option<map<K, W>>): map<K, W>
  {
    if t.Some? then t.value else map[]
  }

  /** `dict.get(key)` on the result dictionary. */
  function EntryFor<V>(result: seq<Entry<V>>, key: string): (r: Option<Entry<V>>)
    ensures r.Some? ==> r.value in result && r.value.key == key
    ensures r.None? ==> forall i :: 0 <= i < |result| ==> result[i].key != key
  {
    if result == [] then None
    else if result[0].key == key then Some(result[0])
    else EntryFor(result[1..], key)
  }

  /** The insertion gate of line 585: completions off, or wanted and the query not yet read to its end. */
  predicate InsertionAllowed(query: string, row: Row, topnLeaves: Option<int>)
  {
    (Truthy(topnLeaves) && row.position < |query|) || topnLeaves.None?
  }

  /** `search` stops once it holds `topn` hits, and it checks only after adding one. */
  function Cap(topn: int): nat
  {
    if topn < 1 then 1 else topn
  }

  ghost predicate DistinctHits<V>(top: seq<Hit<V>>)
  {
    forall i, j :: 0 <= i < j < |top| ==> top[i].key != top[j].key
  }

  function HitKeys<V>(top: seq<Hit<V>>): set<string>
  {
    set i | 0 <= i < |top| :: top[i].key
  }

  /** The update function used when none is given (line 67): the new value replaces the old one. */
  function Replace<V>(previous: Option<V>, v: V): V
  {
    v
  }

  class FuzzyMultiDict<V> {
    var nodes: seq<TrieNode<V>>
    ghost var Paths: seq<string>
    var updateValue: (Option<V>, V) -> V
    var maxCorrectionsValue: real
    var correctionPrice: CorrectionPrice
    var symbolProbability: map<string, real>
    var defaultSymbolProbability: real
    var symbolsDistance: map<(string, string), real>
    var defaultSymbolsDistance: real

    /** What the setters establish and `__setitem__` keeps. */
    ghost predicate Valid()
      reads this
    {
      && TreeShaped(nodes, Paths)
      && PriceOk(correctionPrice)
      && InUnit(defaultSymbolProbability)
      && InUnit(defaultSymbolsDistance)
      && ProbabilityTableOk(symbolProbability)
      && DistanceTableOk(symbolsDistance)
      && KeySymmetric(symbolsDistance)
      && InUnit(maxCorrectionsValue)
    }

    /**
     * The dictionary `__init__` builds before its setters run: an empty trie and
     * the update function, which replaces the old value when none is given; the
     * other settings hold the source's defaults.
     */
    constructor (update: Option<(Option<V>, V) -> V>)
      ensures Valid()
      ensures nodes == [TrieNode(map[], None)]
      ensures update.Some? ==> updateValue == update.value
      ensures update.None? ==> updateValue == Replace
      ensures update.None? ==> forall previous: Option<V>, v: V :: updateValue(previous, v) == v
      ensures maxCorrectionsValue == 0.0 && correctionPrice == DefaultPrice
      ensures symbolProbability == map[] && defaultSymbolProbability == DefaultSymbolProbability
      ensures symbolsDistance == map[] && defaultSymbolsDistance == DefaultSymbolsDistance
    {
      nodes := [TrieNode(map[], None)];
      Paths := [[]];
      if update.Some? {
        updateValue := update.value;
      } else {
        updateValue := Replace;
      }
      maxCorrectionsValue := 0.0;
      correctionPrice := DefaultPrice;
      symbolProbability := map[];
      defaultSymbolProbability := DefaultSymbolProbability;
      symbolsDistance := map[];
      defaultSymbolsDistance := DefaultSymbolsDistance;
    }

    /** `set_correction_price`: every price must lie in [0, 1]. */
    method SetCorrectionPrice(price: CorrectionPrice) returns (err: Option<Error>)
      requires Valid()
      modifies this`correctionPrice
      ensures Valid()
      ensures err.None? <==> PriceOk(price)
      ensures err.Some? ==> err.value == ValueError && correctionPrice == old(correctionPrice)
      ensures err.None? ==> correctionPrice == price
    {
      if !PriceOk(price) {
        return Some(ValueError);
      }
      correctionPrice := price;
      return None;
    }

    /**
     * `set_symbols_probability_distances`: both defaults and every table entry
     * must lie in [0, 1] with single-character keys; nothing changes otherwise.
     * The distance table is then completed with the reverse of every given pair
     * whose reverse was not given.
     */
    method SetSymbolsProbabilityDistances(probability: Option<map<string, real>>, defaultProbability: real,
                                          distance: Option<map<(string, string), real>>, defaultDistance: real)
      returns (err: Option<Error>)
      requires Valid()
      modifies this`symbolProbability, this`defaultSymbolProbability, this`symbolsDistance, this`defaultSymbolsDistance
      ensures Valid()
      ensures err.None? <==>
                InUnit(defaultProbability) && InUnit(defaultDistance) &&
                ProbabilityTableOk(OrEmpty(probability)) && DistanceTableOk(OrEmpty(distance))
      ensures err.Some? ==>
                && err.value == ValueError
                && symbolProbability == old(symbolProbability) && defaultSymbolProbability == old(defaultSymbolProbability)
                && symbolsDistance == old(symbolsDistance) && defaultSymbolsDistance == old(defaultSymbolsDistance)
      ensures err.None? ==>
                && symbolProbability == OrEmpty(probability) && defaultSymbolProbability == defaultProbability
                && symbolsDistance == Symmetrised(OrEmpty(distance)) && defaultSymbolsDistance == defaultDistance
    {
      if !InUnit(defaultProbability) || !InUnit(defaultDistance) {
        return Some(ValueError);
      }
      if !ProbabilityTableOk(OrEmpty(probability)) || !DistanceTableOk(OrEmpty(distance)) {
        return Some(ValueError);
      }
      defaultSymbolProbability := defaultProbability;
      defaultSymbolsDistance := defaultDistance;
      symbolProbability := OrEmpty(probability);
      symbolsDistance := Symmetrise(OrEmpty(distance));
      return None;
    }

    /** `set_max_corrections_value`: the budget, corrections per query symbol, must lie in [0, 1]. */
    method SetMaxCorrectionsValue(value: real) returns (err: Option<Error>)
      requires Valid()
      modifies this`maxCorrectionsValue
      ensures Valid()
      ensures err.None? <==> InUnit(value)
      ensures err.Some? ==> err.value == ValueError && maxCorrectionsValue == old(maxCorrectionsValue)
      ensures err.None? ==> maxCorrectionsValue == value
    {
      if !InUnit(value) {
        return Some(ValueError);
      }
      maxCorrectionsValue := value;
      return None;
    }

    /**
     * `__setitem__`: a non-string key is refused before anything changes; otherwise
     * the missing nodes along the key are created and the key's value becomes
     * `update_value(old value, value)`. No other key's value changes.
     */
    method SetItem(key: KeyArg, value: V) returns (err: Option<Error>)
      requires Valid()
      modifies this`nodes, this`Paths
      ensures Valid()
      ensures key.NonText? ==> err == Some(TypeError) && nodes == old(nodes)
      ensures key.Text? ==> err.None?
      ensures key.Text? ==> Lookup(nodes, key.s) == Some(updateValue(old(Lookup(nodes, key.s)), value))
      ensures key.Text? ==> forall k :: k != key.s ==> Lookup(nodes, k) == old(Lookup(nodes, k))
      ensures key.Text? ==> forall i :: 0 <= i <= |key.s| ==> Walk(nodes, 0, key.s[..i]).Some?
    {
      if key.NonText? {
        return Some(TypeError);
      }
      var s := key.s;
      var grown, cur;
      grown, Paths, cur := GrowPath(nodes, Paths, s);
      nodes := grown;
      var stored := updateValue(nodes[cur].value, value);
      InsertFrame(old(nodes), grown, Paths, s, cur, stored);
      nodes := grown[cur := grown[cur].(value := Some(stored))];
      return None;
    }

    /** `get_symbols_distance` on the configured tables. */
    function Distance(x: string, y: string): real
      reads this
    {
      SymbolsDistance(symbolsDistance, defaultSymbolsDistance, x, y)
    }

    /** `get_symbol_probability` on the configured tables. */
    function Probability(c: string): real
      reads this
    {
      SymbolProbability(symbolProbability, defaultSymbolProbability, c)
    }

    /** Inserting the trie symbol `c` at query position `p`: the less probable `c`, the dearer. */
    function InsertionOf(c: char, p: nat, sqrt: real -> real): Correction
      reads this
    {
      Correction(Insertion, [c], p, sqrt(correctionPrice.insertion * (1.0 - Probability([c]))))
    }

    /** Deleting the query symbol at `p`: the less probable it is, the dearer. */
    function DeletionOf(query: string, p: nat, sqrt: real -> real): Correction
      requires p < |query|
      reads this
    {
      Correction(Deletion, [query[p]], p, sqrt(correctionPrice.deletion * (1.0 - Probability([query[p]]))))
    }

    /** Reading the trie symbol `c` for the query symbol at `p`: the farther apart, the dearer. */
    function SubstitutionOf(query: string, p: nat, c: char, sqrt: real -> real): Correction
      requires p < |query|
      reads this
    {
      Correction(Substitution, [query[p], c], p, sqrt(correctionPrice.substitution * Distance([query[p]], [c])))
    }

    /** Swapping the query symbols at `p` and `p + 1`: the farther apart, the dearer. */
    function TranspositionOf(query: string, p: nat, sqrt: real -> real): Correction
      requires p + 1 < |query|
      reads this
    {
      Correction(Transposition, query[p..p + 2], p,
                 sqrt(correctionPrice.transposition * Distance([query[p]], [query[p + 1]])))
    }

    /** Every correction is scored by the square root of a number in [0, 1]. */
    lemma ScoresFromUnit(x: string, y: string)
      requires Valid()
      ensures InUnit(correctionPrice.insertion * (1.0 - Probability(x)))
      ensures InUnit(correctionPrice.deletion * (1.0 - Probability(x)))
      ensures InUnit(correctionPrice.substitution * Distance(x, y))
      ensures InUnit(correctionPrice.transposition * Distance(x, y))
    {
      CostInUnit(correctionPrice.insertion, 1.0 - Probability(x));
      CostInUnit(correctionPrice.deletion, 1.0 - Probability(x));
      CostInUnit(correctionPrice.substitution, Distance(x, y));
      CostInUnit(correctionPrice.transposition, Distance(x, y));
    }

    /** `s` follows `row` by reading query symbols as they are: same corrections, the path grows by what was read. */
    ghost predicate AsIsStep(query: string, row: Row, s: Row)
    {
      && row.position < s.position <= |query|
      && s.path == row.path + query[row.position..s.position]
      && s.correction == row.correction
    }

    /** `s` follows `row` by inserting one trie symbol, then reading query symbols as they are. */
    ghost predicate InsertionStep(query: string, row: Row, s: Row, sqrt: real -> real)
      reads this
    {
      && row.position <= s.position <= |query|
      && |row.path| < |s.path|
      && s.path == row.path + [s.path[|row.path|]] + query[row.position..s.position]
      && s.correction == row.correction + [InsertionOf(s.path[|row.path|], row.position, sqrt)]
    }

    /** `s` follows `row` by deleting the query symbol at the row's position, then reading on. */
    ghost predicate DeletionStep(query: string, row: Row, s: Row, sqrt: real -> real)
      reads this
    {
      && row.position < s.position <= |query|
      && s.path == row.path + query[row.position + 1..s.position]
      && s.correction == row.correction + [DeletionOf(query, row.position, sqrt)]
    }

    /** `s` follows `row` by reading a different trie symbol for the query symbol, then reading on. */
    ghost predicate SubstitutionStep(query: string, row: Row, s: Row, sqrt: real -> real)
      reads this
    {
      && row.position < s.position <= |query|
      && |row.path| < |s.path|
      && s.path[|row.path|] != query[row.position]
      && s.path == row.path + [s.path[|row.path|]] + query[row.position + 1..s.position]
      && s.correction == row.correction + [SubstitutionOf(query, row.position, s.path[|row.path|], sqrt)]
    }

    /** `s` follows `row` by reading the next two query symbols swapped, then reading on. */
    ghost predicate TranspositionStep(query: string, row: Row, s: Row, sqrt: real -> real)
      reads this
    {
      && row.position + 2 <= s.position <= |query|
      && s.path == TranspositionWalkPath(row.path, query, row.position, s.position)
      && s.correction == row.correction + [TranspositionOf(query, row.position, sqrt)]
    }

    /**
     * The two as-is states of `row` (lines 720-736): one query symbol further,
     * then the end of the exact walk from the row's node.
     */
    function AsIsPair(query: string, row: Row): (r: (Row, Row))
      requires StateOk(nodes, query, row) && row.position < |query| && query[row.position] in nodes[row.node].children
      reads this
      ensures r.0.position == row.position + 1 && r.0.path == row.path + [query[row.position]]
      ensures (r.1.node, r.1.position) == ApplyString(nodes, row.node, query, row.position)
    {
      var p := row.position;
      var (n, stop) := ApplyString(nodes, row.node, query, p);
      (Row(p + 1, row.path + [query[p]], nodes[row.node].children[query[p]], row.correction),
       Row(stop, row.path + query[p..stop], n, row.correction))
    }

    /** Both as-is states are trie states that read on from `row` without a correction. */
    lemma AsIsPairOk(query: string, row: Row)
      requires StateOk(nodes, query, row) && row.position < |query| && query[row.position] in nodes[row.node].children
      ensures StateOk(nodes, query, AsIsPair(query, row).0) && AsIsStep(query, row, AsIsPair(query, row).0)
      ensures StateOk(nodes, query, AsIsPair(query, row).1) && AsIsStep(query, row, AsIsPair(query, row).1)
    {
      var p := row.position;
      var (n, stop) := ApplyString(nodes, row.node, query, p);
      WalkStep(nodes, row.node, query[p], []);
      Reach(nodes, row.path, row.node, [query[p]], nodes[row.node].children[query[p]]);
      Reach(nodes, row.path, row.node, query[p..stop], n);
      assert query[p..p + 1] == [query[p]];
    }

    /**
     * What `__apply_as_is` (lines 705-738) enqueues and records: with at least
     * two query symbols left and an edge for the next one, both as-is states,
     * each through the gate; otherwise nothing.
     */
    ghost function AsIsOffers(query: string, row: Row, memo: Memo): (seq<Row>, Memo)
      requires StateOk(nodes, query, row)
      reads this
    {
      if row.position + 1 < |query| && query[row.position] in nodes[row.node].children then
        OfferPair(memo, AsIsPair(query, row).0, AsIsPair(query, row).1)
      else ([], memo)
    }

    /** `__apply_as_is` enqueues only as-is successors of `row`, and no memo entry grows. */
    lemma AsIsOffersOk(query: string, row: Row, memo: Memo)
      requires StateOk(nodes, query, row)
      ensures forall s :: s in AsIsOffers(query, row, memo).0 ==> StateOk(nodes, query, s) && AsIsStep(query, row, s)
      ensures Shrinks(memo, AsIsOffers(query, row, memo).1)
    {
      if row.position + 1 < |query| && query[row.position] in nodes[row.node].children {
        AsIsPairOk(query, row);
      }
    }

    /**
     * `__apply_as_is`: with at least two query symbols left and an edge for the
     * next one, offer the state one symbol further, then the state at the end of
     * the exact walk from the row's node.
     */
    method ApplyAsIs(query: string, row: Row, memo: Memo, ghost log: seq<Row>) returns (rows: seq<Row>, memo': Memo)
      requires StateOk(nodes, query, row)
      ensures (rows, memo') == AsIsOffers(query, row, memo)
      ensures (MemoOk(memo, log) ==> MemoOk(memo', log + rows)) && Shrinks(memo, memo')
      ensures forall s :: s in rows ==> StateOk(nodes, query, s) && AsIsStep(query, row, s)
    {
      rows, memo' := [], memo;
      var p := row.position;
      if p + 1 < |query| && |nodes[row.node].children| > 0 {
        if query[p] in nodes[row.node].children {
          var (first, walked) := AsIsPair(query, row);
          rows, memo' := OfferPair(memo, first, walked).0, OfferPair(memo, first, walked).1;
        }
      } else if p + 1 < |query| {
        assert query[p] !in nodes[row.node].children.Keys;
      }
      AsIsOffersOk(query, row, memo);
      if MemoOk(memo, log) {
        AsIsGated(query, row, memo, log);
      }
    }

    /**
     * The two states inserting the trie symbol `c` gives (lines 825-855): `c`
     * read at no cost in the query, then the end of the exact walk from `c`'s node.
     */
    function InsertionPair(query: string, row: Row, c: char, sqrt: real -> real): (r: (Row, Row))
      requires StateOk(nodes, query, row) && c in nodes[row.node].children
      reads this
      ensures r.0.position == row.position && r.0.path == row.path + [c]
      ensures (r.1.node, r.1.position) == ApplyString(nodes, nodes[row.node].children[c], query, row.position)
    {
      var p := row.position;
      var child := nodes[row.node].children[c];
      var correction := row.correction + [InsertionOf(c, p, sqrt)];
      var (n, stop) := ApplyString(nodes, child, query, p);
      (Row(p, row.path + [c], child, correction), Row(stop, row.path + [c] + query[p..stop], n, correction))
    }

    /** Both insertion states are trie states one insertion of `c` past `row`. */
    lemma InsertionPairOk(query: string, row: Row, c: char, sqrt: real -> real)
      requires StateOk(nodes, query, row) && c in nodes[row.node].children
      ensures StateOk(nodes, query, InsertionPair(query, row, c, sqrt).0)
      ensures InsertionStep(query, row, InsertionPair(query, row, c, sqrt).0, sqrt)
      ensures StateOk(nodes, query, InsertionPair(query, row, c, sqrt).1)
      ensures InsertionStep(query, row, InsertionPair(query, row, c, sqrt).1, sqrt)
      ensures InsertionPair(query, row, c, sqrt).1.path[|row.path|] == c
    {
      var p := row.position;
      var child := nodes[row.node].children[c];
      var (n, stop) := ApplyString(nodes, child, query, p);
      WalkStep(nodes, row.node, c, []);
      Reach(nodes, row.path, row.node, [c], child);
      WalkStep(nodes, row.node, c, query[p..stop]);
      Reach(nodes, row.path, row.node, [c] + query[p..stop], n);
      assert query[p..p] == [] && row.path + [c] + [] == row.path + [c];
      assert row.path + [c] + query[p..stop] == row.path + ([c] + query[p..stop]);
      assert (row.path + [c] + query[p..stop])[|row.path|] == c;
    }

    /**
     * The order in which `__apply_insertion` visits the children of node `n`
     * (lines 812-819): most probable symbol first, ties in dictionary order.
     */
    function InsertionOrder(n: nat): (r: seq<char>)
      requires n < |nodes|
      reads this
      ensures forall c :: c in r <==> c in nodes[n].children
    {
      var table, fallback := symbolProbability, defaultSymbolProbability;
      var key := (c: char) => -SymbolProbability(table, fallback, [c]);
      SortByMembers(ChildOrder(nodes[n].children), key);
      SortBy(ChildOrder(nodes[n].children), key)
    }

    /** The insertion pairs of the symbols `cs`, in order. */
    function InsertionPairs(query: string, row: Row, cs: seq<char>, sqrt: real -> real): (r: seq<(Row, Row)>)
      requires StateOk(nodes, query, row) && forall c :: c in cs ==> c in nodes[row.node].children
      reads this
      ensures |r| == |cs|
      decreases |cs|
    {
      if cs == [] then []
      else
        var front := cs[..|cs| - 1];
        assert forall c :: c in front ==> c in cs;
        InsertionPairs(query, row, front, sqrt) + [InsertionPair(query, row, cs[|cs| - 1], sqrt)]
    }

    /** The pairs are the symbols' pairs, position by position. */
    lemma {:induction false} InsertionPairsAt(query: string, row: Row, cs: seq<char>, sqrt: real -> real)
      requires StateOk(nodes, query, row) && forall c :: c in cs ==> c in nodes[row.node].children
      ensures forall i :: 0 <= i < |cs| ==> InsertionPairs(query, row, cs, sqrt)[i] == InsertionPair(query, row, cs[i], sqrt)
      decreases |cs|
    {
      if cs != [] {
        var front := cs[..|cs| - 1];
        assert forall c :: c in front ==> c in cs;
        InsertionPairsAt(query, row, front, sqrt);
        assert forall i :: 0 <= i < |front| ==> front[i] == cs[i];
      }
    }

    /** The pairs of a prefix of `cs` one symbol longer are the shorter prefix's, then that symbol's. */
    lemma InsertionPairsSnoc(query: string, row: Row, cs: seq<char>, i: nat, sqrt: real -> real)
      requires StateOk(nodes, query, row) && i < |cs| && forall c :: c in cs ==> c in nodes[row.node].children
      ensures forall c :: c in cs[..i] ==> c in nodes[row.node].children
      ensures forall c :: c in cs[..i + 1] ==> c in nodes[row.node].children
      ensures InsertionPairs(query, row, cs[..i + 1], sqrt) ==
              InsertionPairs(query, row, cs[..i], sqrt) + [InsertionPair(query, row, cs[i], sqrt)]
    {
      assert forall c :: c in cs[..i + 1] ==> c in cs;
      assert cs[..i + 1][..i] == cs[..i];
    }

    /**
     * What `__apply_insertion` (lines 798-857) enqueues and records: the pair of
     * every child, in the order it visits them, each state through the gate.
     */
    ghost function InsertionOffers(query: string, row: Row, memo: Memo, sqrt: real -> real): (seq<Row>, Memo)
      requires StateOk(nodes, query, row)
      reads this
    {
      OfferPairs(memo, InsertionPairs(query, row, InsertionOrder(row.node), sqrt))
    }

    /** `__apply_insertion` enqueues only insertion successors of `row` and grows no memo entry. */
    lemma InsertionOffersOk(query: string, row: Row, memo: Memo, sqrt: real -> real)
      requires StateOk(nodes, query, row)
      ensures forall s :: s in InsertionOffers(query, row, memo, sqrt).0 ==>
                StateOk(nodes, query, s) && InsertionStep(query, row, s, sqrt)
      ensures Shrinks(memo, InsertionOffers(query, row, memo, sqrt).1)
    {
      var pairs := InsertionPairs(query, row, InsertionOrder(row.node), sqrt);
      assert InsertionOffers(query, row, memo, sqrt) == OfferPairs(memo, pairs);
      OfferPairsFrom(memo, pairs);
      InsertionPairsOk(query, row, InsertionOrder(row.node), sqrt);
      forall s | s in OfferPairs(memo, pairs).0 ensures StateOk(nodes, query, s) && InsertionStep(query, row, s, sqrt) {
        var i :| 0 <= i < |pairs| && (s == pairs[i].0 || s == pairs[i].1);
        assert InsertionStates(query, row, pairs[i], sqrt);
      }
    }

    /** Both states of an insertion pair are trie states one insertion past `row`. */
    ghost predicate InsertionStates(query: string, row: Row, pair: (Row, Row), sqrt: real -> real)
      reads this
    {
      && StateOk(nodes, query, pair.0) && InsertionStep(query, row, pair.0, sqrt)
      && StateOk(nodes, query, pair.1) && InsertionStep(query, row, pair.1, sqrt)
    }

    /** Every pair of a list of insertion pairs holds two insertion successors of `row`. */
    lemma InsertionPairsOk(query: string, row: Row, cs: seq<char>, sqrt: real -> real)
      requires StateOk(nodes, query, row)
      requires forall c :: c in cs ==> c in nodes[row.node].children
      ensures forall i :: 0 <= i < |cs| ==> InsertionStates(query, row, InsertionPairs(query, row, cs, sqrt)[i], sqrt)
    {
      InsertionPairsAt(query, row, cs, sqrt);
      forall i | 0 <= i < |cs| ensures InsertionStates(query, row, InsertionPairs(query, row, cs, sqrt)[i], sqrt) {
        assert cs[i] in cs;
        InsertionPairOk(query, row, cs[i], sqrt);
      }
    }

    /** `__apply_insertion` leaves the pair of every child of the row's node recorded in the memo. */
    lemma InsertionOffersRecorded(query: string, row: Row, memo: Memo, sqrt: real -> real)
      requires StateOk(nodes, query, row)
      ensures forall c :: c in nodes[row.node].children ==>
                Recorded(InsertionOffers(query, row, memo, sqrt).1, InsertionPair(query, row, c, sqrt).0) &&
                Recorded(InsertionOffers(query, row, memo, sqrt).1, InsertionPair(query, row, c, sqrt).1)
    {
      var order := InsertionOrder(row.node);
      var pairs := InsertionPairs(query, row, order, sqrt);
      var (rows, memo') := OfferPairs(memo, pairs);
      OfferPairsRecorded(memo, pairs);
      InsertionPairsAt(query, row, order, sqrt);
      forall c | c in nodes[row.node].children
        ensures Recorded(memo', InsertionPair(query, row, c, sqrt).0) && Recorded(memo', InsertionPair(query, row, c, sqrt).1)
      {
        var i :| 0 <= i < |order| && order[i] == c;
        assert pairs[i] == InsertionPair(query, row, c, sqrt);
      }
    }

    /**
     * `__apply_insertion`: for every child symbol of the row's node, most
     * probable first, offer the state with that symbol inserted, then the state
     * at the end of the exact walk from the child.
     */
    method ApplyInsertion(query: string, row: Row, memo: Memo, sqrt: real -> real, ghost log: seq<Row>)
      returns (rows: seq<Row>, memo': Memo)
      requires StateOk(nodes, query, row)
      ensures (rows, memo') == InsertionOffers(query, row, memo, sqrt)
      ensures (MemoOk(memo, log) ==> MemoOk(memo', log + rows)) && Shrinks(memo, memo')
      ensures forall s :: s in rows ==> StateOk(nodes, query, s) && InsertionStep(query, row, s, sqrt)
      ensures forall c :: c in nodes[row.node].children ==>
                Recorded(memo', InsertionPair(query, row, c, sqrt).0) && Recorded(memo', InsertionPair(query, row, c, sqrt).1)
    {
      var order := InsertionOrder(row.node);
      rows, memo' := [], memo;
      for i := 0 to |order|
        invariant (rows, memo') == OfferPairs(memo, InsertionPairs(query, row, order[..i], sqrt))
      {
        InsertionPairsSnoc(query, row, order, i, sqrt);
        OfferPairsSnoc(memo, InsertionPairs(query, row, order[..i], sqrt), InsertionPair(query, row, order[i], sqrt));
        var (first, walked) := InsertionPair(query, row, order[i], sqrt);
        rows, memo' := rows + OfferPair(memo', first, walked).0, OfferPair(memo', first, walked).1;
      }
      assert order[..|order|] == order;
      InsertionOffersFacts(query, row, memo, sqrt, log);
    }

    /** What `ApplyInsertion` promises about the offers of `__apply_insertion`, gathered. */
    lemma InsertionOffersFacts(query: string, row: Row, memo: Memo, sqrt: real -> real, log: seq<Row>)
      requires StateOk(nodes, query, row)
      ensures InsertionOffers(query, row, memo, sqrt) == OfferPairs(memo, InsertionPairs(query, row, InsertionOrder(row.node), sqrt))
      ensures MemoOk(memo, log) ==>
                MemoOk(InsertionOffers(query, row, memo, sqrt).1, log + InsertionOffers(query, row, memo, sqrt).0)
      ensures Shrinks(memo, InsertionOffers(query, row, memo, sqrt).1)
      ensures forall s :: s in InsertionOffers(query, row, memo, sqrt).0 ==>
                StateOk(nodes, query, s) && InsertionStep(query, row, s, sqrt)
      ensures forall c :: c in nodes[row.node].children ==>
                Recorded(InsertionOffers(query, row, memo, sqrt).1, InsertionPair(query, row, c, sqrt).0) &&
                Recorded(InsertionOffers(query, row, memo, sqrt).1, InsertionPair(query, row, c, sqrt).1)
    {
      InsertionOffersOk(query, row, memo, sqrt);
      InsertionOffersRecorded(query, row, memo, sqrt);
      if MemoOk(memo, log) {
        OfferPairsGated(memo, log, InsertionPairs(query, row, InsertionOrder(row.node), sqrt));
      }
    }

    /**
     * The two states reading the trie symbol `c` for the query symbol at the
     * row's position gives (lines 915-950): `c` read, then the end of the exact
     * walk from `c`'s node.
     */
    function SubstitutionPair(query: string, row: Row, c: char, sqrt: real -> real): (r: (Row, Row))
      requires StateOk(nodes, query, row) && row.position < |query| && c in nodes[row.node].children
      reads this
      ensures r.0.position == row.position + 1 && r.0.path == row.path + [c]
      ensures (r.1.node, r.1.position) == ApplyString(nodes, nodes[row.node].children[c], query, row.position + 1)
    {
      var p := row.position;
      var child := nodes[row.node].children[c];
      var correction := row.correction + [SubstitutionOf(query, p, c, sqrt)];
      var (n, stop) := ApplyString(nodes, child, query, p + 1);
      (Row(p + 1, row.path + [c], child, correction), Row(stop, row.path + [c] + query[p + 1..stop], n, correction))
    }

    /** Both substitution states are trie states one substitution of `c` past `row`. */
    lemma SubstitutionPairOk(query: string, row: Row, c: char, sqrt: real -> real)
      requires StateOk(nodes, query, row) && row.position < |query|
      requires c in nodes[row.node].children && c != query[row.position]
      ensures StateOk(nodes, query, SubstitutionPair(query, row, c, sqrt).0)
      ensures SubstitutionStep(query, row, SubstitutionPair(query, row, c, sqrt).0, sqrt)
      ensures StateOk(nodes, query, SubstitutionPair(query, row, c, sqrt).1)
      ensures SubstitutionStep(query, row, SubstitutionPair(query, row, c, sqrt).1, sqrt)
      ensures SubstitutionPair(query, row, c, sqrt).1.path[|row.path|] == c
    {
      var p := row.position;
      var child := nodes[row.node].children[c];
      var (n, stop) := ApplyString(nodes, child, query, p + 1);
      WalkStep(nodes, row.node, c, []);
      Reach(nodes, row.path, row.node, [c], child);
      WalkStep(nodes, row.node, c, query[p + 1..stop]);
      Reach(nodes, row.path, row.node, [c] + query[p + 1..stop], n);
      assert query[p + 1..p + 1] == [] && row.path + [c] + [] == row.path + [c];
      assert row.path + [c] + query[p + 1..stop] == row.path + ([c] + query[p + 1..stop]);
      assert (row.path + [c] + query[p + 1..stop])[|row.path|] == c;
    }

    /**
     * The order in which `__apply_substitution` visits the children of node `n`
     * (lines 915-925): sorted by symbol, then by distance to the query symbol
     * `symbol`, which itself is skipped.
     */
    function SubstitutionOrder(n: nat, symbol: char): (r: seq<char>)
      requires n < |nodes|
      reads this
      ensures forall c :: c in r <==> c in nodes[n].children && c != symbol
    {
      var table, fallback := symbolsDistance, defaultSymbolsDistance;
      var key := (c: char) => SymbolsDistance(table, fallback, [c], [symbol]);
      SortByMembers(SortedKeys(nodes[n].children.Keys), key);
      Without(SortBy(SortedKeys(nodes[n].children.Keys), key), symbol)
    }

    /** The substitution pairs of the symbols `cs`, in order. */
    function SubstitutionPairs(query: string, row: Row, cs: seq<char>, sqrt: real -> real): (r: seq<(Row, Row)>)
      requires StateOk(nodes, query, row) && row.position < |query|
      requires forall c :: c in cs ==> c in nodes[row.node].children
      reads this
      ensures |r| == |cs|
      decreases |cs|
    {
      if cs == [] then []
      else
        var front := cs[..|cs| - 1];
        assert forall c :: c in front ==> c in cs;
        SubstitutionPairs(query, row, front, sqrt) + [SubstitutionPair(query, row, cs[|cs| - 1], sqrt)]
    }

    /** The pairs are the symbols' pairs, position by position. */
    lemma {:induction false} SubstitutionPairsAt(query: string, row: Row, cs: seq<char>, sqrt: real -> real)
      requires StateOk(nodes, query, row) && row.position < |query|
      requires forall c :: c in cs ==> c in nodes[row.node].children
      ensures forall i :: 0 <= i < |cs| ==> SubstitutionPairs(query, row, cs, sqrt)[i] == SubstitutionPair(query, row, cs[i], sqrt)
      decreases |cs|
    {
      if cs != [] {
        var front := cs[..|cs| - 1];
        assert forall c :: c in front ==> c in cs;
        SubstitutionPairsAt(query, row, front, sqrt);
        assert forall i :: 0 <= i < |front| ==> front[i] == cs[i];
      }
    }

    /** The pairs of a prefix of `cs` one symbol longer are the shorter prefix's, then that symbol's. */
    lemma SubstitutionPairsSnoc(query: string, row: Row, cs: seq<char>, i: nat, sqrt: real -> real)
      requires StateOk(nodes, query, row) && row.position < |query| && i < |cs| && forall c :: c in cs ==> c in nodes[row.node].children
      ensures forall c :: c in cs[..i] ==> c in nodes[row.node].children
      ensures forall c :: c in cs[..i + 1] ==> c in nodes[row.node].children
      ensures SubstitutionPairs(query, row, cs[..i + 1], sqrt) ==
              SubstitutionPairs(query, row, cs[..i], sqrt) + [SubstitutionPair(query, row, cs[i], sqrt)]
    {
      assert forall c :: c in cs[..i + 1] ==> c in cs;
      assert cs[..i + 1][..i] == cs[..i];
    }

    /**
     * What `__apply_substitution` (lines 903-956) enqueues and records: the pair
     * of every child other than the query symbol, in the order it visits them,
     * each state through the gate.
     */
    ghost function SubstitutionOffers(query: string, row: Row, memo: Memo, sqrt: real -> real): (seq<Row>, Memo)
      requires StateOk(nodes, query, row) && row.position < |query|
      reads this
    {
      OfferPairs(memo, SubstitutionPairs(query, row, SubstitutionOrder(row.node, query[row.position]), sqrt))
    }

    /** `__apply_substitution` enqueues only substitution successors of `row` and grows no memo entry. */
    lemma SubstitutionOffersOk(query: string, row: Row, memo: Memo, sqrt: real -> real)
      requires StateOk(nodes, query, row) && row.position < |query|
      ensures forall s :: s in SubstitutionOffers(query, row, memo, sqrt).0 ==>
                StateOk(nodes, query, s) && SubstitutionStep(query, row, s, sqrt)
      ensures Shrinks(memo, SubstitutionOffers(query, row, memo, sqrt).1)
    {
      var order := SubstitutionOrder(row.node, query[row.position]);
      assert forall c :: c in order ==> c in nodes[row.node].children && c != query[row.position];
      var pairs := SubstitutionPairs(query, row, order, sqrt);
      assert SubstitutionOffers(query, row, memo, sqrt) == OfferPairs(memo, pairs);
      OfferPairsFrom(memo, pairs);
      SubstitutionPairsOk(query, row, order, sqrt);
      forall s | s in SubstitutionOffers(query, row, memo, sqrt).0
        ensures StateOk(nodes, query, s) && SubstitutionStep(query, row, s, sqrt)
      {
        var i :| 0 <= i < |pairs| && (s == pairs[i].0 || s == pairs[i].1);
        assert SubstitutionStates(query, row, pairs[i], sqrt);
      }
    }

    /** Both states of a substitution pair are trie states one substitution past `row`. */
    ghost predicate SubstitutionStates(query: string, row: Row, pair: (Row, Row), sqrt: real -> real)
      reads this
    {
      && StateOk(nodes, query, pair.0) && SubstitutionStep(query, row, pair.0, sqrt)
      && StateOk(nodes, query, pair.1) && SubstitutionStep(query, row, pair.1, sqrt)
    }

    /** Every pair of a list of substitution pairs holds two substitution successors of `row`. */
    lemma SubstitutionPairsOk(query: string, row: Row, cs: seq<char>, sqrt: real -> real)
      requires StateOk(nodes, query, row) && row.position < |query|
      requires forall c :: c in cs ==> c in nodes[row.node].children && c != query[row.position]
      ensures forall i :: 0 <= i < |cs| ==> SubstitutionStates(query, row, SubstitutionPairs(query, row, cs, sqrt)[i], sqrt)
    {
      SubstitutionPairsAt(query, row, cs, sqrt);
      forall i | 0 <= i < |cs| ensures SubstitutionStates(query, row, SubstitutionPairs(query, row, cs, sqrt)[i], sqrt) {
        assert cs[i] in cs;
        SubstitutionPairOk(query, row, cs[i], sqrt);
      }
    }

    /**
     * `__apply_substitution` leaves the pair of every child other than the query
     * symbol recorded in the memo.
     */
    lemma SubstitutionOffersRecorded(query: string, row: Row, memo: Memo, sqrt: real -> real)
      requires StateOk(nodes, query, row) && row.position < |query|
      ensures forall c :: c in nodes[row.node].children && c != query[row.position] ==>
                Recorded(SubstitutionOffers(query, row, memo, sqrt).1, SubstitutionPair(query, row, c, sqrt).0) &&
                Recorded(SubstitutionOffers(query, row, memo, sqrt).1, SubstitutionPair(query, row, c, sqrt).1)
    {
      var order := SubstitutionOrder(row.node, query[row.position]);
      var pairs := SubstitutionPairs(query, row, order, sqrt);
      var (rows, memo') := OfferPairs(memo, pairs);
      OfferPairsRecorded(memo, pairs);
      SubstitutionPairsAt(query, row, order, sqrt);
      forall c | c in nodes[row.node].children && c != query[row.position]
        ensures Recorded(memo', SubstitutionPair(query, row, c, sqrt).0) &&
                Recorded(memo', SubstitutionPair(query, row, c, sqrt).1)
      {
        var i :| 0 <= i < |order| && order[i] == c;
        assert pairs[i] == SubstitutionPair(query, row, c, sqrt);
      }
    }

    /**
     * `__apply_substitution`: for every child symbol other than the query symbol
     * at the row's position, nearest first, offer the state reading that symbol
     * instead, then the state at the end of the exact walk from the child.
     */
    method ApplySubstitution(query: string, row: Row, memo: Memo, sqrt: real -> real, ghost log: seq<Row>)
      returns (rows: seq<Row>, memo': Memo)
      requires StateOk(nodes, query, row) && row.position < |query|
      ensures (rows, memo') == SubstitutionOffers(query, row, memo, sqrt)
      ensures (MemoOk(memo, log) ==> MemoOk(memo', log + rows)) && Shrinks(memo, memo')
      ensures forall s :: s in rows ==> StateOk(nodes, query, s) && SubstitutionStep(query, row, s, sqrt)
      ensures forall c :: c in nodes[row.node].children && c != query[row.position] ==>
                Recorded(memo', SubstitutionPair(query, row, c, sqrt).0) &&
                Recorded(memo', SubstitutionPair(query, row, c, sqrt).1)
    {
      var order := SubstitutionOrder(row.node, query[row.position]);
      rows, memo' := [], memo;
      for i := 0 to |order|
        invariant (rows, memo') == OfferPairs(memo, SubstitutionPairs(query, row, order[..i], sqrt))
      {
        SubstitutionPairsSnoc(query, row, order, i, sqrt);
        OfferPairsSnoc(memo, SubstitutionPairs(query, row, order[..i], sqrt), SubstitutionPair(query, row, order[i], sqrt));
        var (first, walked) := SubstitutionPair(query, row, order[i], sqrt);
        rows, memo' := rows + OfferPair(memo', first, walked).0, OfferPair(memo', first, walked).1;
      }
      assert order[..|order|] == order;
      SubstitutionOffersFacts(query, row, memo, sqrt, log);
    }

    /** What `ApplySubstitution` promises about the offers of `__apply_substitution`, gathered. */
    lemma SubstitutionOffersFacts(query: string, row: Row, memo: Memo, sqrt: real -> real, log: seq<Row>)
      requires StateOk(nodes, query, row) && row.position < |query|
      ensures SubstitutionOffers(query, row, memo, sqrt) ==
              OfferPairs(memo, SubstitutionPairs(query, row, SubstitutionOrder(row.node, query[row.position]), sqrt))
      ensures MemoOk(memo, log) ==>
                MemoOk(SubstitutionOffers(query, row, memo, sqrt).1, log + SubstitutionOffers(query, row, memo, sqrt).0)
      ensures Shrinks(memo, SubstitutionOffers(query, row, memo, sqrt).1)
      ensures forall s :: s in SubstitutionOffers(query, row, memo, sqrt).0 ==>
                StateOk(nodes, query, s) && SubstitutionStep(query, row, s, sqrt)
      ensures forall c :: c in nodes[row.node].children && c != query[row.position] ==>
                Recorded(SubstitutionOffers(query, row, memo, sqrt).1, SubstitutionPair(query, row, c, sqrt).0) &&
                Recorded(SubstitutionOffers(query, row, memo, sqrt).1, SubstitutionPair(query, row, c, sqrt).1)
    {
      SubstitutionOffersOk(query, row, memo, sqrt);
      SubstitutionOffersRecorded(query, row, memo, sqrt);
      if MemoOk(memo, log) {
        OfferPairsGated(memo, log, SubstitutionPairs(query, row, SubstitutionOrder(row.node, query[row.position]), sqrt));
      }
    }

    /**
     * The two states deleting the query symbol at the row's position gives
     * (lines 880-899): the symbol skipped, then the end of the exact walk after it.
     */
    function DeletionPair(query: string, row: Row, sqrt: real -> real): (r: (Row, Row))
      requires StateOk(nodes, query, row) && row.position < |query|
      reads this
      ensures r.0.position == row.position + 1 && r.0.path == row.path && r.0.node == row.node
      ensures (r.1.node, r.1.position) == ApplyString(nodes, row.node, query, row.position + 1)
    {
      var p := row.position;
      var correction := row.correction + [DeletionOf(query, p, sqrt)];
      var (n, stop) := ApplyString(nodes, row.node, query, p + 1);
      (Row(p + 1, row.path, row.node, correction), Row(stop, row.path + query[p + 1..stop], n, correction))
    }

    /** Both deletion states are trie states one deletion past `row`. */
    lemma DeletionPairOk(query: string, row: Row, sqrt: real -> real)
      requires StateOk(nodes, query, row) && row.position < |query|
      ensures StateOk(nodes, query, DeletionPair(query, row, sqrt).0)
      ensures DeletionStep(query, row, DeletionPair(query, row, sqrt).0, sqrt)
      ensures StateOk(nodes, query, DeletionPair(query, row, sqrt).1)
      ensures DeletionStep(query, row, DeletionPair(query, row, sqrt).1, sqrt)
    {
      var p := row.position;
      var (n, stop) := ApplyString(nodes, row.node, query, p + 1);
      Reach(nodes, row.path, row.node, query[p + 1..stop], n);
      assert query[p + 1..p + 1] == [] && row.path + [] == row.path;
    }

    /**
     * `__apply_deletion` (lines 859-901): offer the state that skips the query
     * symbol at the row's position, then the state at the end of the exact walk
     * after it.
     */
    method ApplyDeletion(query: string, row: Row, memo: Memo, sqrt: real -> real, ghost log: seq<Row>)
      returns (rows: seq<Row>, memo': Memo)
      requires StateOk(nodes, query, row) && row.position < |query|
      ensures (rows, memo') == OfferPair(memo, DeletionPair(query, row, sqrt).0, DeletionPair(query, row, sqrt).1)
      ensures (MemoOk(memo, log) ==> MemoOk(memo', log + rows)) && Shrinks(memo, memo')
      ensures forall s :: s in rows ==> StateOk(nodes, query, s) && DeletionStep(query, row, s, sqrt)
    {
      var (first, walked) := DeletionPair(query, row, sqrt);
      rows, memo' := OfferPair(memo, first, walked).0, OfferPair(memo, first, walked).1;
      DeletionPairOk(query, row, sqrt);
      if MemoOk(memo, log) {
        OfferPairGated(memo, log, first, walked);
      }
    }

    /**
     * The two states reading the next two query symbols swapped gives, with the
     * key of the second corrected (see `TranspositionWalkPathAsWritten`): the
     * state after the pair, then the end of the exact walk on from there.
     */
    function TranspositionPair(query: string, row: Row, sqrt: real -> real): (r: (Row, Row))
      requires StateOk(nodes, query, row) && row.position + 1 < |query|
      requires query[row.position + 1] in nodes[row.node].children
      requires query[row.position] in nodes[nodes[row.node].children[query[row.position + 1]]].children
      reads this
      ensures r.0.position == row.position + 2
      ensures r.0.node == nodes[nodes[row.node].children[query[row.position + 1]]].children[query[row.position]]
      ensures (r.1.node, r.1.position) == ApplyString(nodes, r.0.node, query, row.position + 2)
    {
      var p := row.position;
      var swapped := nodes[nodes[row.node].children[query[p + 1]]].children[query[p]];
      var correction := row.correction + [TranspositionOf(query, p, sqrt)];
      var (n, stop) := ApplyString(nodes, swapped, query, p + 2);
      (Row(p + 2, row.path + [query[p + 1], query[p]], swapped, correction),
       Row(stop, TranspositionWalkPath(row.path, query, p, stop), n, correction))
    }

    /** Both transposition states are trie states one transposition past `row`. */
    lemma TranspositionPairOk(query: string, row: Row, sqrt: real -> real)
      requires StateOk(nodes, query, row) && row.position + 1 < |query|
      requires query[row.position + 1] in nodes[row.node].children
      requires query[row.position] in nodes[nodes[row.node].children[query[row.position + 1]]].children
      ensures StateOk(nodes, query, TranspositionPair(query, row, sqrt).0)
      ensures TranspositionStep(query, row, TranspositionPair(query, row, sqrt).0, sqrt)
      ensures StateOk(nodes, query, TranspositionPair(query, row, sqrt).1)
      ensures TranspositionStep(query, row, TranspositionPair(query, row, sqrt).1, sqrt)
    {
      var p := row.position;
      var swapped := nodes[nodes[row.node].children[query[p + 1]]].children[query[p]];
      SwappedPairWalk(nodes, query, row.path, row.node, p);
      var (n, stop) := ApplyString(nodes, swapped, query, p + 2);
      TranspositionWalkReach(nodes, query, row.path, row.node, p, swapped, n, stop);
      assert query[p + 2..p + 2] == [];
    }

    /**
     * What `__apply_transposition` (lines 740-796) enqueues and records: when
     * two query symbols are left and the trie holds them swapped below the row's
     * node, both transposition states, each through the gate; otherwise nothing.
     */
    ghost function TranspositionOffers(query: string, row: Row, memo: Memo, sqrt: real -> real): (seq<Row>, Memo)
      requires StateOk(nodes, query, row)
      reads this
    {
      var p := row.position;
      if p + 1 < |query| && query[p + 1] in nodes[row.node].children &&
         query[p] in nodes[nodes[row.node].children[query[p + 1]]].children then
        OfferPair(memo, TranspositionPair(query, row, sqrt).0, TranspositionPair(query, row, sqrt).1)
      else ([], memo)
    }

    /** `__apply_transposition` enqueues only transposition successors of `row`, none without two query symbols left. */
    lemma TranspositionOffersOk(query: string, row: Row, memo: Memo, sqrt: real -> real)
      requires StateOk(nodes, query, row)
      ensures forall s :: s in TranspositionOffers(query, row, memo, sqrt).0 ==>
                StateOk(nodes, query, s) && TranspositionStep(query, row, s, sqrt)
      ensures Shrinks(memo, TranspositionOffers(query, row, memo, sqrt).1)
      ensures row.position + 1 >= |query| ==> TranspositionOffers(query, row, memo, sqrt).0 == []
    {
      var p := row.position;
      if p + 1 < |query| && query[p + 1] in nodes[row.node].children &&
         query[p] in nodes[nodes[row.node].children[query[p + 1]]].children {
        TranspositionPairOk(query, row, sqrt);
        var pair := TranspositionPair(query, row, sqrt);
        assert TranspositionOffers(query, row, memo, sqrt) == OfferPair(memo, pair.0, pair.1);
        forall s | s in OfferPair(memo, pair.0, pair.1).0 ensures StateOk(nodes, query, s) && TranspositionStep(query, row, s, sqrt) {
          assert s == pair.0 || s == pair.1;
        }
      }
    }

    /**
     * `__apply_transposition`, with the key of its second state corrected: when
     * the next two query symbols can be read swapped, offer the state after
     * them, then the state at the end of the exact walk on from there.
     */
    method ApplyTransposition(query: string, row: Row, memo: Memo, sqrt: real -> real, ghost log: seq<Row>)
      returns (rows: seq<Row>, memo': Memo)
      requires StateOk(nodes, query, row)
      ensures (rows, memo') == TranspositionOffers(query, row, memo, sqrt)
      ensures (MemoOk(memo, log) ==> MemoOk(memo', log + rows)) && Shrinks(memo, memo')
      ensures forall s :: s in rows ==> StateOk(nodes, query, s) && TranspositionStep(query, row, s, sqrt)
      ensures row.position + 1 >= |query| ==> rows == []
    {
      TranspositionOffersOk(query, row, memo, sqrt);
      if MemoOk(memo, log) {
        TranspositionsGated(query, row, memo, sqrt, log);
      }
      rows, memo' := [], memo;
      var p := row.position;
      if p + 1 >= |query| {
        return;
      }
      var children := nodes[row.node].children;
      if query[p + 1] in children && query[p] in nodes[children[query[p + 1]]].children {
        var (first, walked) := TranspositionPair(query, row, sqrt);
        rows, memo' := OfferPair(memo, first, walked).0, OfferPair(memo, first, walked).1;
      }
    }

    /**
     * The entry `__check_value` (lines 958-1012) builds for `row`: none before
     * the end of the query; otherwise one for the row's path and corrections,
     * holding the node's value unless the result already holds this path with no
     * more corrections, and the first `topnLeaves` completions when those are wanted.
     */
    ghost function CheckedEntry(query: string, row: Row, result: seq<Entry<V>>, topnLeaves: Option<int>): Option<Entry<V>>
      requires StateOk(nodes, query, row)
      reads this
    {
      if row.position != |query| then None
      else
        var better := nodes[row.node].value.Some? &&
                      (EntryFor(result, row.path).None? || |EntryFor(result, row.path).value.correction| > |row.correction|);
        Some(Entry(if better then nodes[row.node].value else None, row.path, row.correction,
                   if Truthy(topnLeaves) then Take(Below(nodes, row.node, row.path), topnLeaves.value) else []))
    }

    /**
     * `__check_value`: nothing unless the row has read the whole query; then an
     * entry for the row's path and corrections, holding the node's value unless
     * the result already holds this path with no more corrections, and holding
     * the first `topnLeaves` completions below the node when those are wanted.
     */
    method CheckValue(query: string, row: Row, result: seq<Entry<V>>, topnLeaves: Option<int>)
      returns (r: Option<Entry<V>>)
      requires StateOk(nodes, query, row)
      ensures r == CheckedEntry(query, row, result, topnLeaves)
      ensures r.Some? <==> row.position == |query|
      ensures r.Some? ==> r.value.key == row.path && r.value.correction == row.correction
      ensures r.Some? ==>
                (r.value.value.Some? <==>
                   nodes[row.node].value.Some? &&
                   (EntryFor(result, row.path).None? || |EntryFor(result, row.path).value.correction| > |row.correction|))
      ensures r.Some? && r.value.value.Some? ==> r.value.value == nodes[row.node].value
      ensures r.Some? ==>
                r.value.leaves == if Truthy(topnLeaves) then Take(Below(nodes, row.node, row.path), topnLeaves.value) else []
    {
      if row.position != |query| {
        return None;
      }
      var e := Entry(None, row.path, row.correction, []);
      if nodes[row.node].value.Some? {
        var previous := EntryFor(result, row.path);
        if previous.None? || |previous.value.correction| > |row.correction| {
          e := e.(value := nodes[row.node].value, correction := row.correction);
        }
      }
      if Truthy(topnLeaves) {
        var leaves := NodeLeaves(nodes, row.node, row.path, topnLeaves.value);
        e := e.(leaves := leaves);
      }
      return Some(e);
    }

    /** `s` is one correction past `row`, and that correction is of kind `k`. */
    ghost predicate CorrectedBy(row: Row, s: Row, k: Kind)
    {
      |s.correction| == |row.correction| + 1 && s.correction[|row.correction|].kind == k
    }

    /** `s` is a trie state one correction past `row` and further along in `Measure`. */
    ghost predicate OneMore(query: string, row: Row, s: Row)
      reads this
    {
      StateOk(nodes, query, s) && Measure(row) < Measure(s) && |s.correction| == |row.correction| + 1
    }

    /**
     * What the insertion, substitution and deletion calls of one row (lines
     * 584-621) enqueue and record: insertions only while completions are off, or
     * before the end of the query when they are on; substitutions and deletions
     * only before the end of the query.
     */
    ghost function SymbolEditOffers(query: string, row: Row, memo: Memo, topnLeaves: Option<int>, sqrt: real -> real)
      : (seq<Row>, Memo)
      requires StateOk(nodes, query, row)
      reads this
    {
      var (a, m1) := if InsertionAllowed(query, row, topnLeaves) then InsertionOffers(query, row, memo, sqrt)
                     else ([], memo);
      if row.position < |query| then
        var (b, m2) := SubstitutionOffers(query, row, m1, sqrt);
        var pair := DeletionPair(query, row, sqrt);
        var (c, m3) := OfferPair(m2, pair.0, pair.1);
        (a + b + c, m3)
      else (a, m1)
    }

    /**
     * Every symbol edit is one correction further along; an insertion only
     * passes the gate of line 585, and the others only happen before the end
     * of the query.
     */
    lemma SymbolEditsOk(query: string, row: Row, memo: Memo, topnLeaves: Option<int>, sqrt: real -> real)
      requires StateOk(nodes, query, row)
      ensures forall s :: s in SymbolEditOffers(query, row, memo, topnLeaves, sqrt).0 ==> OneMore(query, row, s)
      ensures forall s :: s in SymbolEditOffers(query, row, memo, topnLeaves, sqrt).0 && CorrectedBy(row, s, Insertion) ==>
                InsertionAllowed(query, row, topnLeaves)
      ensures forall s :: s in SymbolEditOffers(query, row, memo, topnLeaves, sqrt).0 && !CorrectedBy(row, s, Insertion) ==>
                row.position < |query|
      ensures forall s :: s in SymbolEditOffers(query, row, memo, topnLeaves, sqrt).0 ==> !CorrectedBy(row, s, Transposition)
      ensures Shrinks(memo, SymbolEditOffers(query, row, memo, topnLeaves, sqrt).1)
    {
      var r := SymbolEditOffers(query, row, memo, topnLeaves, sqrt);
      var a: seq<Row>, m1: Memo := [], memo;
      if InsertionAllowed(query, row, topnLeaves) {
        InsertionOffersOk(query, row, memo, sqrt);
        InsertionsOneMore(query, row, memo, sqrt);
        a, m1 := InsertionOffers(query, row, memo, sqrt).0, InsertionOffers(query, row, memo, sqrt).1;
      }
      if row.position < |query| {
        SubstitutionOffersOk(query, row, m1, sqrt);
        SubstitutionsOneMore(query, row, m1, sqrt);
        var (b, m2) := SubstitutionOffers(query, row, m1, sqrt);
        DeletionsOneMore(query, row, m2, sqrt);
        var pair := DeletionPair(query, row, sqrt);
        var (c, m3) := OfferPair(m2, pair.0, pair.1);
        assert r == (a + b + c, m3);
        JoinEdits(query, row, topnLeaves, a, b, c);
      } else {
        assert r == (a, m1);
      }
    }

    /** An inserted symbol adds one correction, of kind insertion, and reads no fewer query symbols. */
    lemma InsertionsOneMore(query: string, row: Row, memo: Memo, sqrt: real -> real)
      requires StateOk(nodes, query, row)
      ensures forall s :: s in InsertionOffers(query, row, memo, sqrt).0 ==> OneMore(query, row, s) && CorrectedBy(row, s, Insertion)
    {
      InsertionOffersOk(query, row, memo, sqrt);
    }

    /** A substituted symbol adds one correction, of kind substitution, and reads one more query symbol. */
    lemma SubstitutionsOneMore(query: string, row: Row, memo: Memo, sqrt: real -> real)
      requires StateOk(nodes, query, row) && row.position < |query|
      ensures forall s :: s in SubstitutionOffers(query, row, memo, sqrt).0 ==>
                OneMore(query, row, s) && CorrectedBy(row, s, Substitution)
    {
      SubstitutionOffersOk(query, row, memo, sqrt);
    }

    /** A deleted query symbol adds one correction, of kind deletion, and is skipped. */
    lemma DeletionsOneMore(query: string, row: Row, memo: Memo, sqrt: real -> real)
      requires StateOk(nodes, query, row) && row.position < |query|
      ensures forall s :: s in OfferPair(memo, DeletionPair(query, row, sqrt).0, DeletionPair(query, row, sqrt).1).0 ==>
                OneMore(query, row, s) && CorrectedBy(row, s, Deletion)
    {
      DeletionPairOk(query, row, sqrt);
    }

    /** A transposition adds one correction, of kind transposition, and reads two more query symbols. */
    lemma TranspositionsOneMore(query: string, row: Row, memo: Memo, sqrt: real -> real)
      requires StateOk(nodes, query, row)
      ensures forall s :: s in TranspositionOffers(query, row, memo, sqrt).0 ==>
                OneMore(query, row, s) && CorrectedBy(row, s, Transposition)
    {
      TranspositionOffersOk(query, row, memo, sqrt);
    }

    /** The insertions, substitutions and deletions of a row, put together. */
    lemma JoinEdits(query: string, row: Row, topnLeaves: Option<int>, a: seq<Row>, b: seq<Row>, c: seq<Row>)
      requires a == [] || InsertionAllowed(query, row, topnLeaves)
      requires forall s :: s in a ==> OneMore(query, row, s) && CorrectedBy(row, s, Insertion)
      requires forall s :: s in b ==> OneMore(query, row, s) && CorrectedBy(row, s, Substitution)
      requires forall s :: s in c ==> OneMore(query, row, s) && CorrectedBy(row, s, Deletion)
      ensures forall s :: s in a + b + c ==> OneMore(query, row, s) && !CorrectedBy(row, s, Transposition)
      ensures forall s :: s in a + b + c && CorrectedBy(row, s, Insertion) ==> InsertionAllowed(query, row, topnLeaves)
    {
    }

    /**
     * What the edits of one row enqueue and record once the budget allows one
     * more correction (lines 584-637): the symbol edits, then a transposition
     * only of two different next query symbols.
     */
    ghost function CorrectionOffers(query: string, row: Row, memo: Memo, topnLeaves: Option<int>, sqrt: real -> real)
      : (seq<Row>, Memo)
      requires StateOk(nodes, query, row)
      reads this
    {
      WithTranspositions(query, row, SymbolEditOffers(query, row, memo, topnLeaves, sqrt), sqrt)
    }

    /**
     * The symbol edits `edits` of a row followed by its transposition offers
     * (lines 623-637), which only happen when the next two query symbols differ.
     */
    ghost function WithTranspositions(query: string, row: Row, edits: (seq<Row>, Memo), sqrt: real -> real)
      : (seq<Row>, Memo)
      requires StateOk(nodes, query, row)
      reads this
    {
      if row.position + 1 < |query| && query[row.position] != query[row.position + 1] then
        (edits.0 + TranspositionOffers(query, row, edits.1, sqrt).0, TranspositionOffers(query, row, edits.1, sqrt).1)
      else edits
    }

    /** The symbol edits `edits` followed by the transposition offers, when those happen, are `(rows, memo')`. */
    lemma WithTranspositionsSplit(query: string, row: Row, edits: (seq<Row>, Memo), sqrt: real -> real,
                                  rows: seq<Row>, memo': Memo)
      requires StateOk(nodes, query, row)
      requires row.position + 1 < |query| && query[row.position] != query[row.position + 1] ==>
                 rows == edits.0 + TranspositionOffers(query, row, edits.1, sqrt).0 &&
                 memo' == TranspositionOffers(query, row, edits.1, sqrt).1
      requires !(row.position + 1 < |query| && query[row.position] != query[row.position + 1]) ==> (rows, memo') == edits
      ensures (rows, memo') == WithTranspositions(query, row, edits, sqrt)
    {
    }

    /**
     * Every edit of a row is one correction further along; an insertion only
     * passes the gate of line 585, and a transposition only swaps two different
     * query symbols (line 625).
     */
    lemma CorrectionsOk(query: string, row: Row, memo: Memo, topnLeaves: Option<int>, sqrt: real -> real)
      requires StateOk(nodes, query, row)
      ensures forall s :: s in CorrectionOffers(query, row, memo, topnLeaves, sqrt).0 ==> OneMore(query, row, s)
      ensures forall s :: s in CorrectionOffers(query, row, memo, topnLeaves, sqrt).0 && CorrectedBy(row, s, Insertion) ==>
                InsertionAllowed(query, row, topnLeaves)
      ensures forall s :: s in CorrectionOffers(query, row, memo, topnLeaves, sqrt).0 && CorrectedBy(row, s, Transposition) ==>
                row.position + 1 < |query| && query[row.position] != query[row.position + 1]
      ensures Shrinks(memo, CorrectionOffers(query, row, memo, topnLeaves, sqrt).1)
    {
      SymbolEditsOk(query, row, memo, topnLeaves, sqrt);
      TranspositionsJoin(query, row, memo, topnLeaves, SymbolEditOffers(query, row, memo, topnLeaves, sqrt), sqrt);
    }

    /** The symbol edits and the transpositions of a row, put together. */
    lemma TranspositionsJoin(query: string, row: Row, memo: Memo, topnLeaves: Option<int>, edits: (seq<Row>, Memo),
                             sqrt: real -> real)
      requires StateOk(nodes, query, row)
      requires forall s :: s in edits.0 ==> OneMore(query, row, s) && !CorrectedBy(row, s, Transposition)
      requires forall s :: s in edits.0 && CorrectedBy(row, s, Insertion) ==> InsertionAllowed(query, row, topnLeaves)
      requires Shrinks(memo, edits.1)
      ensures forall s :: s in WithTranspositions(query, row, edits, sqrt).0 ==> OneMore(query, row, s)
      ensures forall s :: s in WithTranspositions(query, row, edits, sqrt).0 && CorrectedBy(row, s, Insertion) ==>
                InsertionAllowed(query, row, topnLeaves)
      ensures forall s :: s in WithTranspositions(query, row, edits, sqrt).0 && CorrectedBy(row, s, Transposition) ==>
                row.position + 1 < |query| && query[row.position] != query[row.position + 1]
      ensures Shrinks(memo, WithTranspositions(query, row, edits, sqrt).1)
    {
      if row.position + 1 < |query| && query[row.position] != query[row.position + 1] {
        TranspositionsOneMore(query, row, edits.1, sqrt);
        ShrinksTransitive(memo, edits.1, TranspositionOffers(query, row, edits.1, sqrt).1);
      }
    }

    /**
     * One turn of the row loop of `__get` (lines 561-637): the row's checked
     * entry is put into the result, the as-is states are offered, and, when one
     * more correction is within the budget, the corrected states.
     */
    ghost function RowStep(query: string, row: Row, memo: Memo, result: seq<Entry<V>>, topnLeaves: Option<int>,
                           sqrt: real -> real): (r: (seq<Row>, Memo, seq<Entry<V>>))
      requires Valid() && |query| > 0 && StateOk(nodes, query, row) && DistinctKeys(result)
      reads this
      ensures DistinctKeys(r.2)
    {
      var checked := CheckedEntry(query, row, result, topnLeaves);
      var result' := if checked.Some? then Put(result, checked.value) else result;
      var (a, m1) := AsIsOffers(query, row, memo);
      if (|row.correction| + 1) as real / |query| as real <= maxCorrectionsValue then
        var (b, m2) := CorrectionOffers(query, row, m1, topnLeaves, sqrt);
        (a + b, m2, result')
      else (a, m1, result')
    }

    /** What `ProcessRow` promises about one turn of the row loop, gathered. */
    lemma RowStepFacts(query: string, row: Row, memo: Memo, result: seq<Entry<V>>, topnLeaves: Option<int>,
                       sqrt: real -> real, log: seq<Row>)
      requires Valid() && |query| > 0 && DistinctKeys(result)
      requires StateOk(nodes, query, row) && WithinBudget(row, query, maxCorrectionsValue)
      ensures MemoOk(memo, log) ==>
                MemoOk(RowStep(query, row, memo, result, topnLeaves, sqrt).1, log + RowStep(query, row, memo, result, topnLeaves, sqrt).0)
      ensures Shrinks(memo, RowStep(query, row, memo, result, topnLeaves, sqrt).1)
      ensures forall s :: s in RowStep(query, row, memo, result, topnLeaves, sqrt).0 ==>
                Advanced(nodes, query, maxCorrectionsValue, row, s)
      ensures EntriesOk(nodes, query, maxCorrectionsValue, topnLeaves, result) ==>
                EntriesOk(nodes, query, maxCorrectionsValue, topnLeaves, RowStep(query, row, memo, result, topnLeaves, sqrt).2)
    {
      RowStepOk(query, row, memo, result, topnLeaves, sqrt);
      RowStepEntries(query, row, memo, result, topnLeaves, sqrt);
      if MemoOk(memo, log) {
        RowStepGated(query, row, memo, result, topnLeaves, sqrt, log);
      }
    }

    /** One turn of the row loop, from the as-is offers `asIs` of the row. */
    lemma RowStepSplit(query: string, row: Row, memo: Memo, result: seq<Entry<V>>, topnLeaves: Option<int>,
                       sqrt: real -> real, asIs: (seq<Row>, Memo), next: seq<Row>, memo': Memo, result': seq<Entry<V>>)
      requires Valid() && |query| > 0 && StateOk(nodes, query, row) && DistinctKeys(result)
      requires asIs == AsIsOffers(query, row, memo)
      requires (|row.correction| + 1) as real / |query| as real <= maxCorrectionsValue ==>
                 next == asIs.0 + CorrectionOffers(query, row, asIs.1, topnLeaves, sqrt).0 &&
                 memo' == CorrectionOffers(query, row, asIs.1, topnLeaves, sqrt).1
      requires !((|row.correction| + 1) as real / |query| as real <= maxCorrectionsValue) ==> (next, memo') == asIs
      requires result' == if CheckedEntry(query, row, result, topnLeaves).Some?
                          then Put(result, CheckedEntry(query, row, result, topnLeaves).value) else result
      ensures (next, memo', result') == RowStep(query, row, memo, result, topnLeaves, sqrt)
    {
    }

    /**
     * One turn of the row loop offers only states further along than the row
     * and within the budget, and grows no memo entry.
     */
    lemma RowStepOk(query: string, row: Row, memo: Memo, result: seq<Entry<V>>, topnLeaves: Option<int>,
                    sqrt: real -> real)
      requires Valid() && |query| > 0 && DistinctKeys(result)
      requires StateOk(nodes, query, row) && WithinBudget(row, query, maxCorrectionsValue)
      ensures forall s :: s in RowStep(query, row, memo, result, topnLeaves, sqrt).0 ==>
                Advanced(nodes, query, maxCorrectionsValue, row, s)
      ensures Shrinks(memo, RowStep(query, row, memo, result, topnLeaves, sqrt).1)
    {
      var r := RowStep(query, row, memo, result, topnLeaves, sqrt);
      var (a, m1) := AsIsOffers(query, row, memo);
      if (|row.correction| + 1) as real / |query| as real <= maxCorrectionsValue {
        var (b, m2) := CorrectionOffers(query, row, m1, topnLeaves, sqrt);
        assert r.0 == a + b && r.1 == m2;
        AsIsAdvance(query, row, memo);
        BudgetGate(row, query, maxCorrectionsValue);
        CorrectionsAdvance(query, row, m1, topnLeaves, sqrt);
        AdvancedAppend(nodes, query, maxCorrectionsValue, row, a, b);
        ShrinksTransitive(memo, m1, m2);
      } else {
        assert r.0 == a && r.1 == m1;
        AsIsAdvance(query, row, memo);
      }
    }

    /** The as-is states follow the row in the next wave. */
    lemma AsIsAdvance(query: string, row: Row, memo: Memo)
      requires StateOk(nodes, query, row) && WithinBudget(row, query, maxCorrectionsValue)
      ensures forall s :: s in AsIsOffers(query, row, memo).0 ==> Advanced(nodes, query, maxCorrectionsValue, row, s)
      ensures Shrinks(memo, AsIsOffers(query, row, memo).1)
    {
      AsIsOffersOk(query, row, memo);
      AsIsAdvances(query, row, AsIsOffers(query, row, memo).0);
    }

    /** The corrected states follow the row in the next wave when one more correction is within the budget. */
    lemma CorrectionsAdvance(query: string, row: Row, memo: Memo, topnLeaves: Option<int>, sqrt: real -> real)
      requires StateOk(nodes, query, row)
      requires RoomForOne(row, query, maxCorrectionsValue)
      ensures forall s :: s in CorrectionOffers(query, row, memo, topnLeaves, sqrt).0 ==>
                Advanced(nodes, query, maxCorrectionsValue, row, s)
      ensures Shrinks(memo, CorrectionOffers(query, row, memo, topnLeaves, sqrt).1)
    {
      CorrectionsOk(query, row, memo, topnLeaves, sqrt);
      OneMoreAdvances(query, row, CorrectionOffers(query, row, memo, topnLeaves, sqrt).0);
    }

    /**
     * One turn of the row loop keeps the result's entries sound and changes
     * the result only at the end of the query.
     */
    lemma RowStepEntries(query: string, row: Row, memo: Memo, result: seq<Entry<V>>, topnLeaves: Option<int>,
                         sqrt: real -> real)
      requires Valid() && |query| > 0 && DistinctKeys(result)
      requires StateOk(nodes, query, row) && WithinBudget(row, query, maxCorrectionsValue)
      ensures EntriesOk(nodes, query, maxCorrectionsValue, topnLeaves, result) ==>
                EntriesOk(nodes, query, maxCorrectionsValue, topnLeaves, RowStep(query, row, memo, result, topnLeaves, sqrt).2)
      ensures row.position < |query| ==> RowStep(query, row, memo, result, topnLeaves, sqrt).2 == result
    {
      var checked := CheckedEntry(query, row, result, topnLeaves);
      assert RowStep(query, row, memo, result, topnLeaves, sqrt).2 ==
             if checked.Some? then Put(result, checked.value) else result;
      if checked.Some? {
        EntryFromRow(nodes, query, maxCorrectionsValue, row, checked.value, topnLeaves);
      }
    }

    /** A state read as-is keeps the row's corrections and reads at least one more query symbol. */
    lemma AsIsAdvances(query: string, row: Row, rows: seq<Row>)
      requires WithinBudget(row, query, maxCorrectionsValue)
      requires forall s :: s in rows ==> StateOk(nodes, query, s) && AsIsStep(query, row, s)
      ensures forall s :: s in rows ==> Advanced(nodes, query, maxCorrectionsValue, row, s)
    {
    }

    /** A state one correction further along is within the budget when one more correction is. */
    lemma OneMoreAdvances(query: string, row: Row, rows: seq<Row>)
      requires RoomForOne(row, query, maxCorrectionsValue)
      requires forall s :: s in rows ==> OneMore(query, row, s)
      ensures forall s :: s in rows ==> Advanced(nodes, query, maxCorrectionsValue, row, s)
    {
    }

    /** One turn of the row loop keeps the memo invariant over everything enqueued. */
    lemma RowStepGated(query: string, row: Row, memo: Memo, result: seq<Entry<V>>, topnLeaves: Option<int>,
                       sqrt: real -> real, log: seq<Row>)
      requires Valid() && |query| > 0 && MemoOk(memo, log)
      requires StateOk(nodes, query, row) && DistinctKeys(result)
      ensures MemoOk(RowStep(query, row, memo, result, topnLeaves, sqrt).1,
                     log + RowStep(query, row, memo, result, topnLeaves, sqrt).0)
    {
      var r := RowStep(query, row, memo, result, topnLeaves, sqrt);
      var (a, m1) := AsIsOffers(query, row, memo);
      if (|row.correction| + 1) as real / |query| as real <= maxCorrectionsValue {
        var (b, m2) := CorrectionOffers(query, row, m1, topnLeaves, sqrt);
        assert r.0 == a + b && r.1 == m2;
        AsIsGated(query, row, memo, log);
        CorrectionsGated(query, row, m1, topnLeaves, sqrt, log + a);
        Associative(log, a, b);
      } else {
        assert r.0 == a && r.1 == m1;
        AsIsGated(query, row, memo, log);
      }
    }

    lemma AsIsGated(query: string, row: Row, memo: Memo, log: seq<Row>)
      requires StateOk(nodes, query, row) && MemoOk(memo, log)
      ensures MemoOk(AsIsOffers(query, row, memo).1, log + AsIsOffers(query, row, memo).0)
    {
      if row.position + 1 < |query| && query[row.position] in nodes[row.node].children {
        OfferPairGated(memo, log, AsIsPair(query, row).0, AsIsPair(query, row).1);
      } else {
        assert log + [] == log;
      }
    }

    lemma CorrectionsGated(query: string, row: Row, memo: Memo, topnLeaves: Option<int>, sqrt: real -> real,
                           log: seq<Row>)
      requires StateOk(nodes, query, row) && MemoOk(memo, log)
      ensures MemoOk(CorrectionOffers(query, row, memo, topnLeaves, sqrt).1,
                     log + CorrectionOffers(query, row, memo, topnLeaves, sqrt).0)
    {
      SymbolEditsGated(query, row, memo, topnLeaves, sqrt, log);
      WithTranspositionsGated(query, row, SymbolEditOffers(query, row, memo, topnLeaves, sqrt), sqrt, log);
    }

    lemma WithTranspositionsGated(query: string, row: Row, edits: (seq<Row>, Memo), sqrt: real -> real, log: seq<Row>)
      requires StateOk(nodes, query, row) && MemoOk(edits.1, log + edits.0)
      ensures MemoOk(WithTranspositions(query, row, edits, sqrt).1, log + WithTranspositions(query, row, edits, sqrt).0)
    {
      if row.position + 1 < |query| && query[row.position] != query[row.position + 1] {
        TranspositionsGated(query, row, edits.1, sqrt, log + edits.0);
        Associative(log, edits.0, TranspositionOffers(query, row, edits.1, sqrt).0);
      }
    }

    lemma TranspositionsGated(query: string, row: Row, memo: Memo, sqrt: real -> real, log: seq<Row>)
      requires StateOk(nodes, query, row) && MemoOk(memo, log)
      ensures MemoOk(TranspositionOffers(query, row, memo, sqrt).1, log + TranspositionOffers(query, row, memo, sqrt).0)
    {
      var p := row.position;
      if p + 1 < |query| && query[p + 1] in nodes[row.node].children &&
         query[p] in nodes[nodes[row.node].children[query[p + 1]]].children {
        OfferPairGated(memo, log, TranspositionPair(query, row, sqrt).0, TranspositionPair(query, row, sqrt).1);
      } else {
        assert log + [] == log;
      }
    }

    lemma SymbolEditsGated(query: string, row: Row, memo: Memo, topnLeaves: Option<int>, sqrt: real -> real,
                           log: seq<Row>)
      requires StateOk(nodes, query, row) && MemoOk(memo, log)
      ensures MemoOk(SymbolEditOffers(query, row, memo, topnLeaves, sqrt).1,
                     log + SymbolEditOffers(query, row, memo, topnLeaves, sqrt).0)
    {
      var r := SymbolEditOffers(query, row, memo, topnLeaves, sqrt);
      var a: seq<Row>, m1: Memo := [], memo;
      assert log + a == log;
      if InsertionAllowed(query, row, topnLeaves) {
        var pairs := InsertionPairs(query, row, InsertionOrder(row.node), sqrt);
        OfferPairsGated(memo, log, pairs);
        a, m1 := OfferPairs(memo, pairs).0, OfferPairs(memo, pairs).1;
        assert (a, m1) == InsertionOffers(query, row, memo, sqrt);
      }
      if row.position < |query| {
        var pairs := SubstitutionPairs(query, row, SubstitutionOrder(row.node, query[row.position]), sqrt);
        OfferPairsGated(m1, log + a, pairs);
        var (b, m2) := OfferPairs(m1, pairs);
        assert (b, m2) == SubstitutionOffers(query, row, m1, sqrt);
        var pair := DeletionPair(query, row, sqrt);
        OfferPairGated(m2, log + a + b, pair.0, pair.1);
        var (c, m3) := OfferPair(m2, pair.0, pair.1);
        assert r == (a + b + c, m3);
        Associative(log, a, b);
        Associative(log, a + b, c);
      } else {
        assert r == (a, m1);
      }
    }

    /**
     * One turn of the row loop of `__get` (lines 559-638): record the row's entry
     * if it has read the whole query, offer the as-is states, and, while one more
     * correction stays within the budget, the insertion, substitution, deletion
     * and transposition states. The budget test divides by the query length.
     */
    method ProcessRow(query: string, row: Row, memo: Memo, result: seq<Entry<V>>, topnLeaves: Option<int>,
                      sqrt: real -> real, ghost log: seq<Row>)
      returns (next: seq<Row>, memo': Memo, result': seq<Entry<V>>)
      requires Valid() && |query| > 0
      requires StateOk(nodes, query, row) && WithinBudget(row, query, maxCorrectionsValue)
      requires DistinctKeys(result)
      ensures (next, memo', result') == RowStep(query, row, memo, result, topnLeaves, sqrt)
      ensures (MemoOk(memo, log) ==> MemoOk(memo', log + next)) && Shrinks(memo, memo')
      ensures forall s :: s in next ==> Advanced(nodes, query, maxCorrectionsValue, row, s)
      ensures DistinctKeys(result')
      ensures EntriesOk(nodes, query, maxCorrectionsValue, topnLeaves, result) ==>
                EntriesOk(nodes, query, maxCorrectionsValue, topnLeaves, result')
      ensures row.position == |query| ==> result' == Put(result, CheckedEntry(query, row, result, topnLeaves).value)
      ensures row.position < |query| ==> result' == result
    {
      result' := result;
      var checked := CheckValue(query, row, result, topnLeaves);
      if checked.Some? {
        result' := Put(result, checked.value);
      }
      var asIs, m0 := ApplyAsIs(query, row, memo, log);
      next, memo' := asIs, m0;
      var rel := (|row.correction| + 1) as real / |query| as real;
      if rel <= maxCorrectionsValue {
        BudgetGate(row, query, maxCorrectionsValue);
        var more, m := ApplyCorrections(query, row, m0, topnLeaves, sqrt, log + asIs);
        next, memo' := asIs + more, m;
      }
      RowStepSplit(query, row, memo, result, topnLeaves, sqrt, (asIs, m0), next, memo', result');
      RowStepFacts(query, row, memo, result, topnLeaves, sqrt, log);
    }

    /**
     * The edits of one row once the budget allows one more correction (lines
     * 582-638): insertions (only while completions are off, or before the end of
     * the query when they are on), substitutions and deletions before the end of
     * the query, and a transposition of two different next query symbols.
     */
    method ApplyCorrections(query: string, row: Row, memo: Memo, topnLeaves: Option<int>, sqrt: real -> real,
                            ghost log: seq<Row>)
      returns (rows: seq<Row>, memo': Memo)
      requires Valid() && StateOk(nodes, query, row)
      requires RoomForOne(row, query, maxCorrectionsValue)
      ensures (rows, memo') == CorrectionOffers(query, row, memo, topnLeaves, sqrt)
      ensures (MemoOk(memo, log) ==> MemoOk(memo', log + rows)) && Shrinks(memo, memo')
      ensures forall s :: s in rows ==> Advanced(nodes, query, maxCorrectionsValue, row, s)
      ensures forall s :: s in rows && CorrectedBy(row, s, Insertion) ==> InsertionAllowed(query, row, topnLeaves)
      ensures forall s :: s in rows && CorrectedBy(row, s, Transposition) ==>
                row.position + 1 < |query| && query[row.position] != query[row.position + 1]
    {
      var edits, m0 := ApplySymbolEdits(query, row, memo, topnLeaves, sqrt, log);
      rows, memo' := edits, m0;
      if row.position + 1 < |query| && query[row.position] != query[row.position + 1] {
        var more, m := ApplyTransposition(query, row, m0, sqrt, log + edits);
        rows, memo' := edits + more, m;
      }
      WithTranspositionsSplit(query, row, (edits, m0), sqrt, rows, memo');
      CorrectionsOk(query, row, memo, topnLeaves, sqrt);
      CorrectionsAdvance(query, row, memo, topnLeaves, sqrt);
      if MemoOk(memo, log) {
        CorrectionsGated(query, row, memo, topnLeaves, sqrt, log);
      }
    }

    /** The insertions, substitutions and deletions of `ApplyCorrections`, each under its own condition. */
    method ApplySymbolEdits(query: string, row: Row, memo: Memo, topnLeaves: Option<int>, sqrt: real -> real,
                            ghost log: seq<Row>)
      returns (rows: seq<Row>, memo': Memo)
      requires Valid() && StateOk(nodes, query, row)
      requires RoomForOne(row, query, maxCorrectionsValue)
      ensures (rows, memo') == SymbolEditOffers(query, row, memo, topnLeaves, sqrt)
      ensures (MemoOk(memo, log) ==> MemoOk(memo', log + rows)) && Shrinks(memo, memo')
      ensures forall s :: s in rows ==> Advanced(nodes, query, maxCorrectionsValue, row, s)
      ensures forall s :: s in rows && CorrectedBy(row, s, Insertion) ==> InsertionAllowed(query, row, topnLeaves)
      ensures forall s :: s in rows && !CorrectedBy(row, s, Insertion) ==> row.position < |query|
    {
      rows, memo' := [], memo;
      ghost var trail := log;
      if InsertionAllowed(query, row, topnLeaves) {
        rows, memo' := ApplyInsertion(query, row, memo, sqrt, log);
        trail := log + rows;
      }
      if row.position < |query| {
        var substituted, m1 := ApplySubstitution(query, row, memo', sqrt, trail);
        var deleted, m2 := ApplyDeletion(query, row, m1, sqrt, trail + substituted);
        rows, memo' := rows + substituted + deleted, m2;
      }
      SymbolEditsOk(query, row, memo, topnLeaves, sqrt);
      OneMoreAdvances(query, row, rows);
      if MemoOk(memo, log) {
        SymbolEditsGated(query, row, memo, topnLeaves, sqrt, log);
      }
    }

    /**
     * One wave of the search loop (lines 556-640): the rows in turn, each step
     * continuing from the memo and result the earlier rows left; the states
     * offered are gathered, in order, into the next wave.
     */
    ghost function Wave(query: string, rows: seq<Row>, memo: Memo, result: seq<Entry<V>>, topnLeaves: Option<int>,
                        sqrt: real -> real): (r: (seq<Row>, Memo, seq<Entry<V>>))
      requires Valid() && |query| > 0 && DistinctKeys(result)
      requires forall i :: 0 <= i < |rows| ==> StateOk(nodes, query, rows[i])
      reads this
      ensures DistinctKeys(r.2)
      decreases |rows|
    {
      if rows == [] then ([], memo, result)
      else
        var (a, m, res) := Wave(query, rows[..|rows| - 1], memo, result, topnLeaves, sqrt);
        var (b, m', res') := RowStep(query, rows[|rows| - 1], m, res, topnLeaves, sqrt);
        (a + b, m', res')
    }

    /** Processing one more row of a wave continues from what the earlier rows left. */
    lemma WaveSnoc(query: string, rows: seq<Row>, j: nat, memo: Memo, result: seq<Entry<V>>, topnLeaves: Option<int>,
                   sqrt: real -> real)
      requires Valid() && |query| > 0 && DistinctKeys(result) && j < |rows|
      requires forall i :: 0 <= i < |rows| ==> StateOk(nodes, query, rows[i])
      ensures var (a, m, res) := Wave(query, rows[..j], memo, result, topnLeaves, sqrt);
              var (b, m', res') := RowStep(query, rows[j], m, res, topnLeaves, sqrt);
              Wave(query, rows[..j + 1], memo, result, topnLeaves, sqrt) == (a + b, m', res')
    {
      assert rows[..j + 1][..j] == rows[..j];
    }

    /**
     * A wave of states within the budget and at least `k` along in `Measure`
     * offers only states within the budget and more than `k` along, and keeps
     * the result's entries sound.
     */
    lemma {:induction false} WaveOk(query: string, rows: seq<Row>, memo: Memo, result: seq<Entry<V>>,
                                    topnLeaves: Option<int>, sqrt: real -> real, k: nat)
      requires Valid() && |query| > 0 && DistinctKeys(result)
      requires forall i :: 0 <= i < |rows| ==>
                 StateOk(nodes, query, rows[i]) && WithinBudget(rows[i], query, maxCorrectionsValue) && k <= Measure(rows[i])
      ensures forall s :: s in Wave(query, rows, memo, result, topnLeaves, sqrt).0 ==>
                StateOk(nodes, query, s) && WithinBudget(s, query, maxCorrectionsValue) && k < Measure(s)
      ensures EntriesOk(nodes, query, maxCorrectionsValue, topnLeaves, result) ==>
                EntriesOk(nodes, query, maxCorrectionsValue, topnLeaves, Wave(query, rows, memo, result, topnLeaves, sqrt).2)
      decreases |rows|
    {
      if rows != [] {
        var front, last := rows[..|rows| - 1], rows[|rows| - 1];
        var (a, m, res) := Wave(query, front, memo, result, topnLeaves, sqrt);
        var (b, m', res') := RowStep(query, last, m, res, topnLeaves, sqrt);
        assert Wave(query, rows, memo, result, topnLeaves, sqrt) == (a + b, m', res');
        WaveOk(query, front, memo, result, topnLeaves, sqrt, k);
        RowStepOk(query, last, m, res, topnLeaves, sqrt);
        RowStepEntries(query, last, m, res, topnLeaves, sqrt);
      }
    }

    /** A wave keeps the memo invariant over everything enqueued. */
    lemma {:induction false} WaveGated(query: string, rows: seq<Row>, memo: Memo, result: seq<Entry<V>>,
                                       topnLeaves: Option<int>, sqrt: real -> real, log: seq<Row>)
      requires Valid() && |query| > 0 && DistinctKeys(result) && MemoOk(memo, log)
      requires forall i :: 0 <= i < |rows| ==> StateOk(nodes, query, rows[i])
      ensures MemoOk(Wave(query, rows, memo, result, topnLeaves, sqrt).1, log + Wave(query, rows, memo, result, topnLeaves, sqrt).0)
      decreases |rows|
    {
      if rows == [] {
        assert log + [] == log;
      } else {
        var front, last := rows[..|rows| - 1], rows[|rows| - 1];
        var (a, m, res) := Wave(query, front, memo, result, topnLeaves, sqrt);
        var (b, m', res') := RowStep(query, last, m, res, topnLeaves, sqrt);
        assert Wave(query, rows, memo, result, topnLeaves, sqrt) == (a + b, m', res');
        WaveGated(query, front, memo, result, topnLeaves, sqrt, log);
        RowStepGated(query, last, m, res, topnLeaves, sqrt, log + a);
        Associative(log, a, b);
      }
    }

    /**
     * The search loop of `__get` (lines 551-642) from the wave `rows`: waves are
     * processed until one offers nothing. It ends because every offered state is
     * further along in `Measure` than the state it came from, and `Measure` is
     * at most twice the query length.
     */
    ghost function Run(query: string, rows: seq<Row>, memo: Memo, result: seq<Entry<V>>, topnLeaves: Option<int>,
                       sqrt: real -> real, waves: nat): (r: seq<Entry<V>>)
      requires Valid() && |query| > 0 && DistinctKeys(result)
      requires forall i :: 0 <= i < |rows| ==>
                 StateOk(nodes, query, rows[i]) && WithinBudget(rows[i], query, maxCorrectionsValue) && waves <= Measure(rows[i])
      reads this
      ensures DistinctKeys(r)
      decreases 2 * |query| + 1 - waves
    {
      if rows == [] then result
      else
        BudgetBound(rows[0], query, maxCorrectionsValue);
        WaveOk(query, rows, memo, result, topnLeaves, sqrt, waves);
        var (next, m, res) := Wave(query, rows, memo, result, topnLeaves, sqrt);
        assert forall i :: 0 <= i < |next| ==> next[i] in next;
        Run(query, next, m, res, topnLeaves, sqrt, waves + 1)
    }

    /** A search with a non-empty wave goes on from the next wave, one wave further. */
    lemma RunStep(query: string, rows: seq<Row>, memo: Memo, result: seq<Entry<V>>, topnLeaves: Option<int>,
                  sqrt: real -> real, waves: nat)
      requires Valid() && |query| > 0 && DistinctKeys(result) && rows != []
      requires forall i :: 0 <= i < |rows| ==>
                 StateOk(nodes, query, rows[i]) && WithinBudget(rows[i], query, maxCorrectionsValue) && waves <= Measure(rows[i])
      ensures var (next, m, res) := Wave(query, rows, memo, result, topnLeaves, sqrt);
              && (forall i :: 0 <= i < |next| ==>
                    StateOk(nodes, query, next[i]) && WithinBudget(next[i], query, maxCorrectionsValue) &&
                    waves + 1 <= Measure(next[i]))
              && (EntriesOk(nodes, query, maxCorrectionsValue, topnLeaves, result) ==>
                    EntriesOk(nodes, query, maxCorrectionsValue, topnLeaves, res))
              && waves < 2 * |query| + 1
              && Run(query, rows, memo, result, topnLeaves, sqrt, waves) == Run(query, next, m, res, topnLeaves, sqrt, waves + 1)
    {
      BudgetBound(rows[0], query, maxCorrectionsValue);
      WaveOk(query, rows, memo, result, topnLeaves, sqrt, waves);
      var (next, m, res) := Wave(query, rows, memo, result, topnLeaves, sqrt);
      assert forall i :: 0 <= i < |next| ==> next[i] in next;
    }

    /** The search keeps the result's entries sound. */
    lemma {:induction false} RunOk(query: string, rows: seq<Row>, memo: Memo, result: seq<Entry<V>>,
                                   topnLeaves: Option<int>, sqrt: real -> real, waves: nat)
      requires Valid() && |query| > 0 && DistinctKeys(result)
      requires forall i :: 0 <= i < |rows| ==>
                 StateOk(nodes, query, rows[i]) && WithinBudget(rows[i], query, maxCorrectionsValue) && waves <= Measure(rows[i])
      requires EntriesOk(nodes, query, maxCorrectionsValue, topnLeaves, result)
      ensures EntriesOk(nodes, query, maxCorrectionsValue, topnLeaves, Run(query, rows, memo, result, topnLeaves, sqrt, waves))
      decreases 2 * |query| + 1 - waves
    {
      if rows != [] {
        BudgetBound(rows[0], query, maxCorrectionsValue);
        WaveOk(query, rows, memo, result, topnLeaves, sqrt, waves);
        var (next, m, res) := Wave(query, rows, memo, result, topnLeaves, sqrt);
        assert forall i :: 0 <= i < |next| ==> next[i] in next;
        RunOk(query, next, m, res, topnLeaves, sqrt, waves + 1);
      }
    }

    /**
     * The result of the search (lines 549-642) from the node `node` the exact
     * walk reached at `position` and from the root, both without corrections
     * and both recorded in the memo.
     */
    ghost function Explored(query: string, position: nat, node: nat, topnLeaves: Option<int>, sqrt: real -> real)
      : (r: seq<Entry<V>>)
      requires Valid() && |query| > 0 && position <= |query| && node < |nodes|
      requires Walk(nodes, 0, query[..position]) == Some(node)
      reads this
      ensures DistinctKeys(r) && EntriesOk(nodes, query, maxCorrectionsValue, topnLeaves, r)
    {
      var rows := [Row(position, query[..position], node, []), Row(0, "", 0, [])];
      var memo: Memo := map[(position, query[..position]) := 0, (0, "") := 0];
      UncorrectedWithinBudget(rows[0], query, maxCorrectionsValue);
      UncorrectedWithinBudget(rows[1], query, maxCorrectionsValue);
      RunOk(query, rows, memo, [], topnLeaves, sqrt, 0);
      Run(query, rows, memo, [], topnLeaves, sqrt, 0)
    }

    /**
     * The approximate matches of a query that is not exactly stored (lines
     * 549-642): the search from the end of the exact walk from the root.
     */
    ghost function Approximate(query: string, topnLeaves: Option<int>, sqrt: real -> real): (r: seq<Entry<V>>)
      requires Valid() && |query| > 0
      reads this
      ensures DistinctKeys(r) && EntriesOk(nodes, query, maxCorrectionsValue, topnLeaves, r)
    {
      var (node, position) := ApplyString(nodes, 0, query, 0);
      assert query[0..position] == query[..position];
      Explored(query, position, node, topnLeaves, sqrt)
    }

    /** The whole query walks to a node that stores a value, or to any node when completions are wanted. */
    ghost predicate ExactlyStored(query: string, topnLeaves: Option<int>)
      reads this
      requires WellFormed(nodes)
    {
      Walk(nodes, 0, query).Some? && (nodes[Walk(nodes, 0, query).value].value.Some? || Truthy(topnLeaves))
    }

    /** What `__get` returns when it does not raise: the exact entry, or the prepared approximate matches. */
    ghost function Answer(query: string, topn: Option<int>, topnLeaves: Option<int>, sqrt: real -> real): seq<Entry<V>>
      requires Valid()
      reads this
    {
      if ExactlyStored(query, topnLeaves) then
        var n := Walk(nodes, 0, query).value;
        ExactHit(query, nodes[n].value, Take(Below(nodes, n, query), LeafLimit(topnLeaves)), topn, topnLeaves)
      else if query != [] then
        PrepareResult(Approximate(query, topnLeaves, sqrt), topn, topnLeaves)
      else
        []
    }

    /**
     * `__get`: the exact walk answers at once when it reads the whole query to a
     * node with a value (or completions are wanted). Otherwise the search starts
     * from the end of the exact walk and from the root, and processes waves of
     * states until a wave offers nothing new; the result is then filtered,
     * sorted by total score and truncated. The square root used in scores is a
     * parameter.
     */
    method Find(query: string, topn: Option<int>, topnLeaves: Option<int>, sqrt: real -> real)
      returns (r: Result<seq<Entry<V>>, Error>)
      requires Valid()
      ensures r.Failure? <==> query == [] && nodes[0].value.None? && !Truthy(topnLeaves)
      ensures r.Failure? ==> r.error == ZeroDivisionError
      ensures r.Success? ==> SortedByScore(r.value) && DistinctKeys(r.value)
      ensures r.Success? ==> EntriesOk(nodes, query, maxCorrectionsValue, topnLeaves, r.value)
      ensures r.Success? && !Truthy(topnLeaves) ==> forall e :: e in r.value ==> e.value.Some?
      ensures r.Success? && Truthy(topn) && topn.value > 0 ==> |r.value| <= topn.value
      ensures ExactlyStored(query, topnLeaves) ==>
                var n := Walk(nodes, 0, query).value;
                r == Success(ExactHit(query, nodes[n].value, Take(Below(nodes, n, query), LeafLimit(topnLeaves)),
                                      topn, topnLeaves))
      ensures query != [] && !ExactlyStored(query, topnLeaves) ==>
                r == Success(PrepareResult(Approximate(query, topnLeaves, sqrt), topn, topnLeaves))
    {
      var (node, position) := ApplyString(nodes, 0, query, 0);
      assert query[0..] == query;
      if Walk(nodes, 0, query).Some? {
        ApplyStringWhole(nodes, 0, query, 0);
      }
      var result;
      if position == |query| && (nodes[node].value.Some? || Truthy(topnLeaves)) {
        assert query[0..position] == query;
        var e := ExactEntry(query, node, topnLeaves);
        ghost var leaves := Take(Below(nodes, node, query), LeafLimit(topnLeaves));
        assert e == Entry(nodes[node].value, query, [], if Truthy(topnLeaves) then leaves else []);
        result := [e];
      } else if |query| == 0 {
        return Failure(ZeroDivisionError);
      } else {
        result := Explore(query, position, node, topnLeaves, sqrt);
      }
      PreparedAnswer(nodes, query, maxCorrectionsValue, topnLeaves, result, topn);
      return Success(PrepareResult(result, topn, topnLeaves));
    }

    /** The entry of an exact hit (lines 528-547): the node's value, and its completions when asked for. */
    method ExactEntry(query: string, node: nat, topnLeaves: Option<int>) returns (e: Entry<V>)
      requires Valid() && Walk(nodes, 0, query) == Some(node)
      ensures e.key == query && e.correction == [] && e.value == nodes[node].value
      ensures e.leaves == if Truthy(topnLeaves) then Take(Below(nodes, node, query), LeafLimit(topnLeaves)) else []
      ensures EntryOk(nodes, query, maxCorrectionsValue, topnLeaves, e)
    {
      var leaves := [];
      if Truthy(topnLeaves) {
        leaves := NodeLeaves(nodes, node, query, topnLeaves.value);
      }
      e := Entry(nodes[node].value, query, [], leaves);
      var row := Row(|query|, query, node, []);
      assert query[..|query|] == query;
      UncorrectedWithinBudget(row, query, maxCorrectionsValue);
      EntryFromRow(nodes, query, maxCorrectionsValue, row, e, topnLeaves);
    }

    /** One wave of the search loop (lines 556-640): every row of the wave in turn. */
    method ProcessWave(query: string, rows: seq<Row>, memo: Memo, result: seq<Entry<V>>, topnLeaves: Option<int>,
                       sqrt: real -> real, ghost log: seq<Row>)
      returns (next: seq<Row>, memo': Memo, result': seq<Entry<V>>)
      requires Valid() && |query| > 0 && DistinctKeys(result)
      requires forall i :: 0 <= i < |rows| ==>
                 StateOk(nodes, query, rows[i]) && WithinBudget(rows[i], query, maxCorrectionsValue)
      ensures (next, memo', result') == Wave(query, rows, memo, result, topnLeaves, sqrt)
      ensures MemoOk(memo, log) ==> MemoOk(memo', log + next)
    {
      next, memo', result' := [], memo, result;
      assert log + [] == log;
      for j := 0 to |rows|
        invariant (next, memo', result') == Wave(query, rows[..j], memo, result, topnLeaves, sqrt)
        invariant MemoOk(memo, log) ==> MemoOk(memo', log + next)
      {
        WaveSnoc(query, rows, j, memo, result, topnLeaves, sqrt);
        var more, m, res := ProcessRow(query, rows[j], memo', result', topnLeaves, sqrt, log + next);
        Associative(log, next, more);
        next, memo', result' := next + more, m, res;
      }
      assert rows[..|rows|] == rows;
    }

    /**
     * The search loop of `__get` (lines 551-642), from the end of the exact walk
     * and from the root: it computes `Explored`, and it ends because every
     * offered state has more corrections plus query symbols read than the state
     * it came from, and neither can exceed the query length.
     */
    method Explore(query: string, position: nat, node: nat, topnLeaves: Option<int>, sqrt: real -> real)
      returns (result: seq<Entry<V>>)
      requires Valid() && |query| > 0 && position <= |query| && node < |nodes|
      requires Walk(nodes, 0, query[..position]) == Some(node)
      ensures result == Explored(query, position, node, topnLeaves, sqrt)
      ensures DistinctKeys(result)
      ensures EntriesOk(nodes, query, maxCorrectionsValue, topnLeaves, result)
    {
      result := [];
      var rows := [Row(position, query[..position], node, []), Row(0, "", 0, [])];
      var memo: Memo := map[(position, query[..position]) := 0, (0, "") := 0];
      ghost var log: seq<Row> := [];
      ghost var waves := 0;
      UncorrectedWithinBudget(rows[0], query, maxCorrectionsValue);
      UncorrectedWithinBudget(rows[1], query, maxCorrectionsValue);
      while rows != []
        invariant MemoOk(memo, log)
        invariant forall i :: 0 <= i < |rows| ==>
                    StateOk(nodes, query, rows[i]) && WithinBudget(rows[i], query, maxCorrectionsValue) &&
                    waves <= Measure(rows[i])
        invariant DistinctKeys(result)
        invariant EntriesOk(nodes, query, maxCorrectionsValue, topnLeaves, result)
        invariant Run(query, rows, memo, result, topnLeaves, sqrt, waves) == Explored(query, position, node, topnLeaves, sqrt)
        decreases 2 * |query| + 1 - waves
      {
        BudgetBound(rows[0], query, maxCorrectionsValue);
        assert waves <= Measure(rows[0]) <= 2 * |query|;
        RunStep(query, rows, memo, result, topnLeaves, sqrt, waves);
        var next;
        next, memo, result := ProcessWave(query, rows, memo, result, topnLeaves, sqrt, log);
        log := log + next;
        rows := next;
        waves := waves + 1;
        assert Run(query, rows, memo, result, topnLeaves, sqrt, waves) == Explored(query, position, node, topnLeaves, sqrt);
      }
    }

    /**
     * `get`: the lookup without completions. Every answer is a stored key with its
     * value, within the correction budget, sorted by total score, each key once;
     * a stored query answers itself alone.
     */
    method Get(query: string, topn: Option<int>, sqrt: real -> real) returns (r: Result<seq<Entry<V>>, Error>)
      requires Valid()
      ensures r.Failure? <==> query == [] && nodes[0].value.None?
      ensures r.Failure? ==> r.error == ZeroDivisionError
      ensures r.Success? ==> SortedByScore(r.value) && DistinctKeys(r.value)
      ensures r.Success? ==> StoredAnswers(nodes, query, maxCorrectionsValue, r.value)
      ensures r.Success? && Truthy(topn) && topn.value > 0 ==> |r.value| <= topn.value
      ensures Lookup(nodes, query).Some? && (topn.None? || topn.value >= 0) ==>
                r == Success([Entry(Lookup(nodes, query), query, [], [])])
      ensures query != [] && Lookup(nodes, query).None? ==>
                r == Success(PrepareResult(Approximate(query, None, sqrt), topn, None))
    {
      r := Find(query, topn, None, sqrt);
      if r.Success? {
        ValuedEntries(nodes, query, maxCorrectionsValue, r.value);
      }
      if Lookup(nodes, query).Some? && (topn.None? || topn.value >= 0) {
        var n := Walk(nodes, 0, query).value;
        ExactHitReturnsStored(query, nodes[n].value.value, Take(Below(nodes, n, query), 0), topn, None);
      }
    }

    /**
     * `search`: the lookup with up to `topn` completions per match, flattened into
     * hits: matched keys with values first, then completions, each key once, at
     * most `topn` of them (one, when `topn` is below one).
     */
    method Search(query: string, topn: int, sqrt: real -> real) returns (r: Result<seq<Hit<V>>, Error>)
      requires Valid()
      ensures r.Failure? <==> query == [] && nodes[0].value.None? && topn == 0
      ensures r.Failure? ==> r.error == ZeroDivisionError
      ensures r.Success? ==> DistinctHits(r.value) && |r.value| <= Cap(topn)
      ensures r.Success? ==> forall i, j :: 0 <= i < j < |r.value| && r.value[i].isLeaf ==> r.value[j].isLeaf
      ensures r.Success? ==> forall h :: h in r.value ==> Lookup(nodes, h.key) == Some(h.value)
      ensures Lookup(nodes, query).Some? && topn >= 1 ==>
                r.Success? && r.value != [] && r.value[0] == Hit(Lookup(nodes, query).value, query, [], false)
      ensures r.Success? ==> var found := Answer(query, Some(topn), Some(topn), sqrt);
                Gathered(found, r.value) && BestFirst(found, r.value) &&
                (|r.value| < Cap(topn) ==>
                   ValuedIn(found, |found|, HitKeys(r.value)) && LeavesIn(found, |found|, HitKeys(r.value)))
    {
      var found := Find(query, Some(topn), Some(topn), sqrt);
      if found.Failure? {
        return Failure(found.error);
      }
      assert found.value == Answer(query, Some(topn), Some(topn), sqrt);
      var top := CollectTop(found.value, topn);
      forall i | 0 <= i < |top| ensures Lookup(nodes, top[i].key) == Some(top[i].value) {
        var h := top[i];
        assert HitFrom(found.value, h);
        if h.isLeaf {
          var k :| 0 <= k < |found.value| && Leaf(h.key, h.value) in found.value[k].leaves;
          assert EntryOk(nodes, query, maxCorrectionsValue, Some(topn), found.value[k]);
        } else {
          var k :| 0 <= k < |found.value| && found.value[k].value == Some(h.value) && found.value[k].key == h.key;
          assert EntryOk(nodes, query, maxCorrectionsValue, Some(topn), found.value[k]);
        }
      }
      if Lookup(nodes, query).Some? && topn >= 1 {
        var n := Walk(nodes, 0, query).value;
        ExactHitReturnsStored(query, nodes[n].value.value, Take(Below(nodes, n, query), topn), Some(topn), Some(topn));
      }
      return Success(top);
    }

    /**
     * `__getitem__`: a non-string query is refused; otherwise the value of the
     * best match, or `KeyError` when nothing matches. A stored key answers its
     * own value.
     */
    method GetItem(query: KeyArg, sqrt: real -> real) returns (r: Result<V, Error>)
      requires Valid()
      ensures query.NonText? ==> r == Failure(TypeError)
      ensures query.Text? && Lookup(nodes, query.s).Some? ==> r == Success(Lookup(nodes, query.s).value)
      ensures r.Success? ==> exists k :: Lookup(nodes, k) == Some(r.value)
      ensures r.Failure? && query.Text? ==> r.error == KeyError || r.error == ZeroDivisionError
      ensures r.Failure? && query.Text? ==> (r.error == ZeroDivisionError <==> query.s == [] && nodes[0].value.None?)
      ensures query.Text? && query.s != [] && Lookup(nodes, query.s).None? ==>
                var best := PrepareResult(Approximate(query.s, None, sqrt), None, None);
                (best == [] ==> r == Failure(KeyError)) && (best != [] ==> r.Success? && best[0].value == Some(r.value))
    {
      if query.NonText? {
        return Failure(TypeError);
      }
      var found := Get(query.s, None, sqrt);
      if found.Failure? {
        return Failure(found.error);
      }
      if |found.value| > 0 {
        assert found.value[0] in found.value;
        return Success(found.value[0].value.value);
      }
      return Failure(KeyError);
    }
  }

  /** Where a hit comes from: a matched entry with a value, or a completion of a matched entry. */
  ghost predicate HitFrom<V>(result: seq<Entry<V>>, h: Hit<V>)
  {
    if h.isLeaf then
      exists k :: 0 <= k < |result| && Leaf(h.key, h.value) in result[k].leaves && result[k].correction == h.correction
    else
      exists k :: 0 <= k < |result| && result[k].value == Some(h.value) && result[k].key == h.key &&
                  result[k].correction == h.correction
  }

  /** The hits gathered from `result`: each key once, matches before completions, each from an entry. */
  ghost predicate Gathered<V>(result: seq<Entry<V>>, top: seq<Hit<V>>)
  {
    && DistinctHits(top)
    && (forall i, j :: 0 <= i < j < |top| && top[i].isLeaf ==> top[j].isLeaf)
    && (forall i :: 0 <= i < |top| ==> HitFrom(result, top[i]))
  }

  /** When the best entry holds a value, it is the first hit. */
  ghost predicate BestFirst<V>(result: seq<Entry<V>>, top: seq<Hit<V>>)
  {
    result != [] && result[0].value.Some? ==>
      top != [] && top[0] == Hit(result[0].value.value, result[0].key, result[0].correction, false)
  }

  /**
   * The two loops of `search` (lines 451-496): first every matched entry with a
   * value, then every completion of every entry, skipping keys already taken and
   * stopping as soon as `topn` hits are held.
   */
  method CollectTop<V>(result: seq<Entry<V>>, topn: int) returns (top: seq<Hit<V>>)
    ensures Gathered(result, top) && |top| <= Cap(topn)
    ensures |top| < Cap(topn) ==> ValuedIn(result, |result|, HitKeys(top)) && LeavesIn(result, |result|, HitKeys(top))
    ensures BestFirst(result, top)
  {
    var seen, full;
    top, seen, full := CollectValued(result, topn);
    if !full {
      var rest := CollectCompletions(result, top, seen, topn);
      BestFirstKept(result, top, rest);
      top := rest;
    }
  }

  /** Every entry before `upto` that holds a value has its key among `keys`. */
  ghost predicate ValuedIn<V>(result: seq<Entry<V>>, upto: nat, keys: set<string>)
  {
    forall k :: 0 <= k < upto && k < |result| && result[k].value.Some? ==> result[k].key in keys
  }

  /** Every completion of every entry before `upto` has its key among `keys`. */
  ghost predicate LeavesIn<V>(result: seq<Entry<V>>, upto: nat, keys: set<string>)
  {
    forall k, l :: 0 <= k < upto && k < |result| && l in result[k].leaves ==> l.key in keys
  }

  /** More keys still cover what fewer keys covered. */
  lemma KeysGrow<V>(result: seq<Entry<V>>, upto: nat, a: set<string>, b: set<string>)
    requires a <= b
    ensures ValuedIn(result, upto, a) ==> ValuedIn(result, upto, b)
    ensures LeavesIn(result, upto, a) ==> LeavesIn(result, upto, b)
  {
  }

  /** Covering the completions of entry `i` extends the coverage by one entry. */
  lemma LeavesInStep<V>(result: seq<Entry<V>>, i: nat, keys: set<string>)
    requires i < |result| && LeavesIn(result, i, keys)
    requires forall l :: l in result[i].leaves ==> l.key in keys
    ensures LeavesIn(result, i + 1, keys)
  {
  }

  /** Appending a hit from `result` with a new key keeps the hits gathered, and keeps the first one. */
  lemma GatheredAppend<V>(result: seq<Entry<V>>, top: seq<Hit<V>>, h: Hit<V>)
    requires Gathered(result, top) && HitFrom(result, h) && h.key !in HitKeys(top)
    requires h.isLeaf || forall i :: 0 <= i < |top| ==> !top[i].isLeaf
    ensures Gathered(result, top + [h]) && HitKeys(top + [h]) == HitKeys(top) + {h.key}
    ensures top <= top + [h]
  {
    HitKeysAppend(top, h);
    var t := top + [h];
    assert forall i :: 0 <= i < |top| ==> t[i] == top[i];
    assert t[|top|] == h;
  }

  /** Hits kept in front keep the best entry's hit first. */
  lemma BestFirstKept<V>(result: seq<Entry<V>>, top: seq<Hit<V>>, t: seq<Hit<V>>)
    requires BestFirst(result, top) && top <= t
    ensures BestFirst(result, t)
  {
    if result != [] && result[0].value.Some? {
      assert t[0] == top[0];
    }
  }

  /** The second loop of `search` (lines 468-494): the completions of every entry, in order. */
  method CollectCompletions<V>(result: seq<Entry<V>>, top: seq<Hit<V>>, seen: set<string>, topn: int)
    returns (top': seq<Hit<V>>)
    requires seen == HitKeys(top) && Gathered(result, top) && |top| < Cap(topn)
    requires ValuedIn(result, |result|, seen)
    ensures Gathered(result, top') && |top'| <= Cap(topn) && top <= top'
    ensures |top'| < Cap(topn) ==> ValuedIn(result, |result|, HitKeys(top')) && LeavesIn(result, |result|, HitKeys(top'))
  {
    top' := top;
    var seen' := seen;
    var i := 0;
    while i < |result|
      invariant 0 <= i <= |result|
      invariant seen' == HitKeys(top') && Gathered(result, top') && |top'| < Cap(topn)
      invariant top <= top' && ValuedIn(result, |result|, seen') && LeavesIn(result, i, seen')
    {
      if result[i].leaves != [] {
        var full;
        ghost var before := top';
        ghost var known := seen';
        top', seen', full := CollectLeaves(result, i, top', seen', topn);
        if full {
          return;
        }
        KeysGrow(result, |result|, known, seen');
        KeysGrow(result, i, known, seen');
      }
      LeavesInStep(result, i, seen');
      i := i + 1;
    }
  }

  /** The first loop of `search` (lines 451-466): the matched entries with values, in order. */
  method CollectValued<V>(result: seq<Entry<V>>, topn: int) returns (top: seq<Hit<V>>, seen: set<string>, full: bool)
    ensures seen == HitKeys(top) && Gathered(result, top) && BestFirst(result, top)
    ensures forall k :: 0 <= k < |top| ==> !top[k].isLeaf
    ensures full ==> |top| == Cap(topn)
    ensures !full ==> |top| < Cap(topn) && ValuedIn(result, |result|, seen)
  {
    top, seen, full := [], {}, false;
    var i := 0;
    while i < |result|
      invariant 0 <= i <= |result|
      invariant seen == HitKeys(top) && Gathered(result, top) && |top| < Cap(topn)
      invariant forall k :: 0 <= k < |top| ==> !top[k].isLeaf
      invariant ValuedIn(result, i, seen)
      invariant i == 0 ==> top == []
      invariant i > 0 ==> BestFirst(result, top)
    {
      var item := result[i];
      if item.value.Some? && item.key !in seen {
        var hit := Hit(item.value.value, item.key, item.correction, false);
        assert HitFrom(result, hit);
        GatheredAppend(result, top, hit);
        top := top + [hit];
        seen := seen + {item.key};
        if |top| >= topn {
          return top, seen, true;
        }
      }
      i := i + 1;
    }
  }

  /** The inner loop of the second loop of `search` (lines 477-494): the completions of entry `i`. */
  method CollectLeaves<V>(result: seq<Entry<V>>, i: nat, top: seq<Hit<V>>, seen: set<string>, topn: int)
    returns (top': seq<Hit<V>>, seen': set<string>, full: bool)
    requires i < |result|
    requires seen == HitKeys(top) && Gathered(result, top) && |top| < Cap(topn)
    ensures seen' == HitKeys(top') && Gathered(result, top')
    ensures top <= top' && seen <= seen'
    ensures full ==> |top'| == Cap(topn)
    ensures !full ==> |top'| < Cap(topn) && forall l :: l in result[i].leaves ==> l.key in seen'
  {
    top', seen', full := top, seen, false;
    var item := result[i];
    var j := 0;
    while j < |item.leaves|
      invariant 0 <= j <= |item.leaves|
      invariant seen' == HitKeys(top') && Gathered(result, top') && |top'| < Cap(topn)
      invariant top <= top' && seen <= seen'
      invariant forall k :: 0 <= k < j ==> item.leaves[k].key in seen'
    {
      var leaf := item.leaves[j];
      if leaf.key !in seen' {
        var hit := Hit(leaf.value, leaf.key, item.correction, true);
        assert HitFrom(result, hit);
        GatheredAppend(result, top', hit);
        top' := top' + [hit];
        seen' := seen' + {leaf.key};
        if |top'| >= topn {
          return top', seen', true;
        }
      }
      j := j + 1;
    }
  }

  lemma HitKeysAppend<V>(top: seq<Hit<V>>, h: Hit<V>)
    ensures HitKeys(top + [h]) == HitKeys(top) + {h.key}
    ensures h.key !in HitKeys(top) && DistinctHits(top) ==> DistinctHits(top + [h])
  {
    var t := top + [h];
    assert t[|top|] == h;
    forall k | k in HitKeys(t) ensures k in HitKeys(top) + {h.key} {
      var i :| 0 <= i < |t| && t[i].key == k;
      if i < |top| {
        assert t[i] == top[i];
      }
    }
    forall k | k in HitKeys(top) ensures k in HitKeys(t) {
      var i :| 0 <= i < |top| && top[i].key == k;
      assert t[i] == top[i];
    }
  }

  /**
   * `__init__`: the empty dictionary with the given update function, then the
   * three setters in the source's order; the first refusal is the constructor's
   * exception.
   */
  method Create<V>(maxCorrectionsValue: real, updateValue: Option<(Option<V>, V) -> V>,
                   correctionPrice: CorrectionPrice,
                   symbolProbability: Option<map<string, real>>, defaultSymbolProbability: real,
                   symbolsDistance: Option<map<(string, string), real>>, defaultSymbolsDistance: real)
    returns (r: Result<FuzzyMultiDict<V>, Error>)
    ensures r.Success? <==>
              && PriceOk(correctionPrice)
              && InUnit(defaultSymbolProbability) && InUnit(defaultSymbolsDistance)
              && ProbabilityTableOk(OrEmpty(symbolProbability)) && DistanceTableOk(OrEmpty(symbolsDistance))
              && InUnit(maxCorrectionsValue)
    ensures r.Failure? ==> r.error == ValueError
    ensures r.Success? ==>
              && fresh(r.value) && r.value.Valid()
              && r.value.nodes == [TrieNode(map[], None)]
              && (updateValue.Some? ==> r.value.updateValue == updateValue.value)
              && (updateValue.None? ==> forall previous: Option<V>, v: V :: r.value.updateValue(previous, v) == v)
              && r.value.maxCorrectionsValue == maxCorrectionsValue
              && r.value.correctionPrice == correctionPrice
              && r.value.symbolProbability == OrEmpty(symbolProbability)
              && r.value.defaultSymbolProbability == defaultSymbolProbability
              && r.value.symbolsDistance == Symmetrised(OrEmpty(symbolsDistance))
              && r.value.defaultSymbolsDistance == defaultSymbolsDistance
  {
    var d := new FuzzyMultiDict<V>(updateValue);
    var err := d.SetCorrectionPrice(correctionPrice);
    if err.Some? {
      return Failure(err.value);
    }
    err := d.SetSymbolsProbabilityDistances(symbolProbability, defaultSymbolProbability,
                                            symbolsDistance, defaultSymbolsDistance);
    if err.Some? {
      return Failure(err.value);
    }
    err := d.SetMaxCorrectionsValue(maxCorrectionsValue);
    if err.Some? {
      return Failure(err.value);
    }
    return Success(d);
  }

  /**
   * The loop of lines 326-329 (`__setitem__`): walk `s` from the root, creating
   * every missing node on the way. The arena only grows, stays a tree, and `s`
   * then leads to `cur`.
   */
  method GrowPath<V>(nodes: seq<TrieNode<V>>, ghost paths: seq<string>, s: string)
    returns (grown: seq<TrieNode<V>>, ghost paths': seq<string>, cur: nat)
    requires TreeShaped(nodes, paths)
    ensures TreeShaped(grown, paths') && Extends(nodes, grown)
    ensures cur < |grown| && Walk(grown, 0, s) == Some(cur)
  {
    grown, paths', cur := nodes, paths, 0;
    var i := 0;
    while i < |s|
      invariant 0 <= i <= |s|
      invariant TreeShaped(grown, paths') && cur < |grown|
      invariant Walk(grown, 0, s[..i]) == Some(cur)
      invariant Extends(nodes, grown)
    {
      var c := s[i];
      if c !in grown[cur].children {
        GrowStep(nodes, grown, paths', s[..i], cur, c);
        grown, paths' := WithChild(grown, cur, c), paths' + [paths'[cur] + [c]];
      }
      assert s[..i + 1] == s[..i] + [c];
      EdgeWalk(grown, s[..i], cur, c);
      cur := grown[cur].children[c];
      i := i + 1;
    }
    assert s[..i] == s;
  }

  /**
   * The loop of lines 209-211: add the reverse of every given pair whose reverse
   * is not in the table yet, with the pair's distance.
   */
  method Symmetrise(given: map<(string, string), real>) returns (table: map<(string, string), real>)
    ensures table == Symmetrised(given)
  {
    table := given;
    var todo := given.Keys;
    while todo != {}
      invariant todo <= given.Keys
      invariant forall k :: k in given ==> k in table && table[k] == given[k]
      invariant forall k :: k in table && k !in given ==> Reversed(k) in given && table[k] == given[Reversed(k)]
      invariant forall k :: k in given && k !in todo ==> Reversed(k) in table
      decreases |todo|
    {
      var k :| k in todo;
      var (x, y) := k;
      if (y, x) !in table {
        table := table[(y, x) := table[(x, y)]];
      }
      todo := todo - {k};
    }
    SymmetrisedUnique(given, table);
  }

  /** The arena after `__node["children"][c] = {"children": dict(), "value": None}`. */
  function WithChild<V>(nodes: seq<TrieNode<V>>, cur: nat, c: char): seq<TrieNode<V>>
    requires cur < |nodes|
  {
    var grown := nodes + [TrieNode(map[], None)];
    grown[cur := grown[cur].(children := grown[cur].children[c := |nodes|])]
  }

  /** One new node in `GrowPath` keeps the arena a tree grown from `nodes`, and keeps the walk so far. */
  lemma GrowStep<V>(nodes: seq<TrieNode<V>>, grown: seq<TrieNode<V>>, paths: seq<string>, prefix: string,
                    cur: nat, c: char)
    requires WellFormed(nodes) && TreeShaped(grown, paths) && Extends(nodes, grown)
    requires cur < |grown| && Walk(grown, 0, prefix) == Some(cur) && c !in grown[cur].children
    ensures TreeShaped(WithChild(grown, cur, c), paths + [paths[cur] + [c]])
    ensures Extends(nodes, WithChild(grown, cur, c))
    ensures Walk(WithChild(grown, cur, c), 0, prefix) == Some(cur)
  {
    AddChild(grown, paths, cur, c);
    ExtendsTransitive(nodes, grown, WithChild(grown, cur, c));
    WalkExtends(grown, WithChild(grown, cur, c), 0, prefix);
  }

  /** Walking one more edge `c` from the node at `prefix`. */
  lemma EdgeWalk<V>(nodes: seq<TrieNode<V>>, prefix: string, cur: nat, c: char)
    requires WellFormed(nodes) && cur < |nodes| && Walk(nodes, 0, prefix) == Some(cur) && c in nodes[cur].children
    ensures Walk(nodes, 0, prefix + [c]) == Some(nodes[cur].children[c])
  {
    WalkConcat(nodes, 0, prefix, [c]);
    WalkStep(nodes, cur, c, []);
  }

  /** Adding a child under `cur` keeps the arena a tree and only extends it. */
  lemma AddChild<V>(nodes: seq<TrieNode<V>>, paths: seq<string>, cur: nat, c: char)
    requires TreeShaped(nodes, paths) && cur < |nodes| && c !in nodes[cur].children
    ensures TreeShaped(WithChild(nodes, cur, c), paths + [paths[cur] + [c]])
    ensures Extends(nodes, WithChild(nodes, cur, c))
    ensures WithChild(nodes, cur, c)[cur].children[c] == |nodes|
  {
    var b := WithChild(nodes, cur, c);
    var paths' := paths + [paths[cur] + [c]];
    forall i, d | 0 <= i < |b| && d in b[i].children
      ensures i < b[i].children[d] < |b| && paths'[b[i].children[d]] == paths'[i] + [d]
    {
      if i != cur || d != c {
        assert i < |nodes| && d in nodes[i].children;
      }
    }
  }

  lemma ExtendsTransitive<V>(a: seq<TrieNode<V>>, b: seq<TrieNode<V>>, c: seq<TrieNode<V>>)
    requires Extends(a, b) && Extends(b, c)
    ensures Extends(a, c)
  {
    forall j, d | 0 <= j < |a| && d in c[j].children && d !in a[j].children
      ensures c[j].children[d] >= |a|
    {
      if d in b[j].children {
        assert c[j].children[d] == b[j].children[d];
      }
    }
  }

  /**
   * Storing `v` at the node of key `s` in an arena grown from `a`: the node held
   * what `a` stored under `s`, and afterwards `s` holds `v` while every other key
   * holds what it held in `a`.
   */
  lemma InsertFrame<V>(a: seq<TrieNode<V>>, b: seq<TrieNode<V>>, paths: seq<string>, s: string, cur: nat, v: V)
    requires WellFormed(a) && TreeShaped(b, paths) && Extends(a, b)
    requires Walk(b, 0, s) == Some(cur)
    ensures b[cur].value == Lookup(a, s)
    ensures TreeShaped(b[cur := b[cur].(value := Some(v))], paths)
    ensures Lookup(b[cur := b[cur].(value := Some(v))], s) == Some(v)
    ensures forall k :: k != s ==> Lookup(b[cur := b[cur].(value := Some(v))], k) == Lookup(a, k)
    ensures forall i :: 0 <= i <= |s| ==> Walk(b[cur := b[cur].(value := Some(v))], 0, s[..i]).Some?
  {
    var c := b[cur := b[cur].(value := Some(v))];
    WalkExtends(a, b, 0, s);
    WalkIgnoresValues(b, c, 0, s);
    forall i | 0 <= i <= |s| ensures Walk(c, 0, s[..i]).Some? {
      WalkPrefix(c, 0, s, i);
    }
    forall k | k != s ensures Lookup(c, k) == Lookup(a, k) {
      WalkExtends(a, b, 0, k);
      WalkIgnoresValues(b, c, 0, k);
      if Walk(b, 0, k) == Some(cur) {
        KeysAreUnique(b, paths, k, s);
      }
    }
  }
}
