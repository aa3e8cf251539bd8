# FuzzyMultiDict in Dafny

`FuzzyMultiDict` is a string-keyed dictionary that also answers approximate queries. Keys live in a prefix tree (trie). A query is matched against the trie by a wave-by-wave search over states `(position, path, node, corrections)`. The search reads query symbols as they are, or pays for one more correction: an insertion, deletion, substitution or transposition of symbols. Each correction is scored from configurable prices, symbol probabilities and symbol distances. The search stops adding corrections once their number, relative to the query length, would exceed a budget in [0, 1]. Matches are ranked by their total correction score. `search` flattens matches and their completions into hits; completions are the stored keys below a matched node.

This project models the class `FuzzyMultiDict` of `fuzzy_multi_dict/fuzzy_multi_dict.py`:

- `trie.dfy` (module `Trie`): the trie as an arena of nodes, root at index 0, with `map<char, nat>` edges. It defines the exact walk `Walk`, the key lookup `Lookup`, the longest exact walk `__apply_string`, and sorted child keys.
- `cost_model.dfy` (module `CostModel`): the configuration checks, the symmetrised distance table, and the two lookups with defaults.
- `results.dfy` (module `Results`): corrections, entries and leaves; total score; `__prepare_result` (filter, stable sort by score, slice); the result dictionary as a sequence with unique keys; the exact-hit answer.
- `leaves.dfy` (module `Leaves`): `__get_node_leaves`. The function `Below` is its specification, the pre-order listing of the valued nodes below a node. The methods are its loops and its recursion.
- `frontier.dfy` (module `Frontier`): the search states, the memo `processed` and its gate, the correction budget, and what every reported entry satisfies.
- `fuzzy_multi_dict.dfy` (module `MultiDict`): the class `FuzzyMultiDict`. Its fields are the trie, the update function and the configuration. It has the setters, `__setitem__`, the five `__apply_*` helpers, `__check_value`, `__get` and its wave loop, `get`, `search` and `__getitem__`.

Where the source mutates state, the model is imperative:

- `__setitem__` is a method with the walk loop.
- The wave loop of `__get` is a `while` loop over the list of rows. It threads the memo and the result through each row.
- `__get_node_leaves` is a method with its loop, its chain-following inner loop and its recursion.
- The two loops of `search` are methods with loops.
- The symmetrising loop of the distance setter is a method with a loop.

Each method is proved against a specification:

- the leaf methods against `Take` of `Below`, the pre-order listing of valued nodes;
- the symmetrising loop against `Symmetrised`;
- `__setitem__` against `Lookup` and `Walk`;
- each `__apply_*` helper against a ghost function that lists, in the source's order, the states it offers and the memo it leaves (`AsIsOffers`, `InsertionOffers`, `SubstitutionOffers`, the `OfferPair` of `DeletionPair`, `TranspositionOffers`);
- one turn of the row loop against `RowStep`, one wave against `Wave`, and the whole search loop against `Run`, whose value from the two starting states is `Explored` (and `Approximate` from the end of the exact walk);
- the two loops of `search` against the predicates `Gathered`, `BestFirst`, `ValuedIn` and `LeavesIn`, which say where each hit comes from and, below the cap, that nothing was missed.

Separate lemmas then prove what those specifications promise: only trie states within the budget are offered, every offered state is further along than its row, the memo gate is respected, and every reported entry is a stored key with its stored value. The pure parts of the source are functions: `__apply_string`, the lookups, the visiting orders of children, the total score and `__prepare_result`.

Three places of the source are modelled corrected; each is listed under "## Findings", with a member that models the lines as written.

Scores are reals. Each correction's score is the caller-supplied `sqrt` applied to the exact radicand of the source (price times `1 - probability`, or price times distance). Only ordering and filtering depend on scores.

Python exceptions are modelled as `Result`/`Option` values:

- `TypeError` for a non-string key or query (`KeyArg.NonText`);
- `ValueError` for a configuration value out of range;
- `KeyError` when `__getitem__` finds nothing;
- `ZeroDivisionError` when the empty query reaches the budget test at line 582.

## Model

| member | source | states |
|---|---|---|
| Trie.Walk | fuzzy_multi_dict/fuzzy_multi_dict.py:324-329 | following a key from a node either fails or ends at a later node of the arena; the trie's walk to a key |
| Trie.WalkConcat | fuzzy_multi_dict/fuzzy_multi_dict.py:690-703 | walking `s + t` is walking `s` and then `t` from where `s` ended |
| Trie.KeysAreUnique | fuzzy_multi_dict/fuzzy_multi_dict.py:324-329 | in a tree-shaped arena two different keys never reach the same node |
| Trie.WalkExtends | fuzzy_multi_dict/fuzzy_multi_dict.py:326-329 | creating nodes keeps every existing walk and creates no new walk to an old node |
| Trie.WalkIgnoresValues | fuzzy_multi_dict/fuzzy_multi_dict.py:331 | storing a value does not change where any walk goes |
| Trie.ApplyString | fuzzy_multi_dict/fuzzy_multi_dict.py:690-703 | `__apply_string` returns `(n, q)` with `p <= q <= len(s)`; `n` is the node `s[p:q]` reaches; if `q < len(s)` then `s[q]` is not an edge of `n`; and if `s[p]` is an edge it moves |
| Trie.ApplyStringWhole | fuzzy_multi_dict/fuzzy_multi_dict.py:690-703 | when the whole rest of `s` can be walked, `__apply_string` consumes it and returns the node `Walk` reaches |
| Trie.SortedKeys | fuzzy_multi_dict/fuzzy_multi_dict.py:1037 | `sorted(children.keys())`: exactly the child symbols, strictly increasing |
| Trie.SortBy | fuzzy_multi_dict/fuzzy_multi_dict.py:814-819 | Python's `sorted(s, key=...)`: a permutation of `s` |
| Trie.SortBySorted | fuzzy_multi_dict/fuzzy_multi_dict.py:814-819 | the sorted list is ordered by its key |
| Trie.SortByMembers | fuzzy_multi_dict/fuzzy_multi_dict.py:918-921 | sorting keeps exactly the given elements |
| Trie.Without | fuzzy_multi_dict/fuzzy_multi_dict.py:923-925 | skipping the query symbol with `continue` keeps every other child symbol, and only those |
| Trie.ChildOrder | fuzzy_multi_dict/fuzzy_multi_dict.py:327-328 | the dictionary order of a node's edges (the order they were created in, which is child-index order) lists exactly its edges |
| CostModel.Symmetrised | fuzzy_multi_dict/fuzzy_multi_dict.py:206-211 | the configured distance table keeps every given pair, adds `(y, x)` only where the reverse was not given, is symmetric in its keys, and keeps all values in [0, 1] |
| CostModel.SymmetrisedUnique | fuzzy_multi_dict/fuzzy_multi_dict.py:206-211 | any table with those three properties is the symmetrised table |
| MultiDict.Symmetrise | fuzzy_multi_dict/fuzzy_multi_dict.py:206-211 | the symmetrising loop computes exactly `Symmetrised` of the given table |
| CostModel.SymbolsDistance | fuzzy_multi_dict/fuzzy_multi_dict.py:1142-1176 | the distance of a symbol to itself is 0; an unknown pair gets the default; the result is in [0, 1] for a valid configuration |
| CostModel.DistanceAfterConfiguration | fuzzy_multi_dict/fuzzy_multi_dict.py:206-211 | after configuration the distance of `(x, y)` is 0 when `x == y`, else the given `(x, y)`, else the given `(y, x)`, else the default |
| CostModel.SymbolProbability | fuzzy_multi_dict/fuzzy_multi_dict.py:1178-1203 | an unknown symbol gets the default probability; the result is in [0, 1] for a valid configuration |
| CostModel.CostInUnit | fuzzy_multi_dict/fuzzy_multi_dict.py:763-766 | a price in [0, 1] times a factor in [0, 1] is in [0, 1] |
| MultiDict.FuzzyMultiDict.ScoresFromUnit | fuzzy_multi_dict/fuzzy_multi_dict.py:827-835 | every score's radicand (insertion, deletion, substitution, transposition) lies in [0, 1] |
| MultiDict.FuzzyMultiDict.constructor | fuzzy_multi_dict/fuzzy_multi_dict.py:65-67 | the empty trie, the given update function or "replace" by default, and the default configuration |
| MultiDict.Create | fuzzy_multi_dict/fuzzy_multi_dict.py:22-75 | `__init__` succeeds if and only if every price, default and table value is in [0, 1] with single-symbol keys, and fails with `ValueError` otherwise; on success it holds exactly the given configuration with a symmetrised distance table, and the given update function or, when none is given, one that returns the new value |
| MultiDict.FuzzyMultiDict.SetCorrectionPrice | fuzzy_multi_dict/fuzzy_multi_dict.py:77-115 | refuses a price outside [0, 1] with `ValueError` and changes nothing; otherwise stores the price |
| MultiDict.FuzzyMultiDict.SetSymbolsProbabilityDistances | fuzzy_multi_dict/fuzzy_multi_dict.py:117-211 | refuses an out-of-range default or table value, or a key that is not one symbol, before any field changes; otherwise stores both tables, the distance table symmetrised, and both defaults |
| MultiDict.FuzzyMultiDict.SetMaxCorrectionsValue | fuzzy_multi_dict/fuzzy_multi_dict.py:213-234 | refuses a budget outside [0, 1] with `ValueError` and changes nothing; otherwise stores it |
| MultiDict.FuzzyMultiDict.SetItem | fuzzy_multi_dict/fuzzy_multi_dict.py:305-331 | a non-string key raises `TypeError` with the trie unchanged; otherwise every prefix of the key becomes a trie path, the key holds `update_value(old, value)`, and every other key keeps its value |
| MultiDict.GrowPath | fuzzy_multi_dict/fuzzy_multi_dict.py:324-329 | the node-creating loop keeps the arena a tree, only adds valueless nodes, and ends at the node of the key |
| MultiDict.AddChild | fuzzy_multi_dict/fuzzy_multi_dict.py:327-328 | creating one missing child keeps the arena a tree and only extends it |
| MultiDict.InsertFrame | fuzzy_multi_dict/fuzzy_multi_dict.py:331 | storing at the key's node changes the value of that key only, and the old value there is the key's old value |
| Results.TotalScoreAppend | fuzzy_multi_dict/fuzzy_multi_dict.py:1064-1075 | the total score of corrections plus one more is the old total plus its score |
| Results.InsertByScorePermutes | fuzzy_multi_dict/fuzzy_multi_dict.py:968-971 | inserting one entry into a ranking adds exactly that entry |
| Results.InsertByScoreSorted | fuzzy_multi_dict/fuzzy_multi_dict.py:968-971 | inserting by score keeps a ranking sorted by total score |
| Results.SortByScoreCorrect | fuzzy_multi_dict/fuzzy_multi_dict.py:968-971 | sorting by total score gives a permutation that is sorted ascending and keeps keys distinct |
| Results.KeepValued | fuzzy_multi_dict/fuzzy_multi_dict.py:962-963 | without completions, exactly the entries with a value are kept |
| Results.PySlice | fuzzy_multi_dict/fuzzy_multi_dict.py:973-974 | `[:n]` is a prefix, of length `n` when `0 <= n <= len` |
| Results.PrepareResult | fuzzy_multi_dict/fuzzy_multi_dict.py:958-976 | a truthy positive `topn` bounds the answer's length |
| Results.PrepareResultCorrect | fuzzy_multi_dict/fuzzy_multi_dict.py:958-976 | the answer is sorted by total score and holds only result entries, only valued ones unless completions were asked for, each key once; without `topn` every kept entry is present |
| Results.Put | fuzzy_multi_dict/fuzzy_multi_dict.py:573-574 | `result[path] = row` replaces the entry of that key, keeps all others, and keeps keys unique |
| Results.ExactHitReturnsStored | fuzzy_multi_dict/fuzzy_multi_dict.py:528-549 | with line 539 corrected, the exact hit of a stored key is exactly one entry: the key, its value, no corrections, and the completions when asked for |
| Leaves.Take | fuzzy_multi_dict/fuzzy_multi_dict.py:1034-1035 | the first `t` leaves, and none when `t <= 0` |
| Leaves.BelowSound | fuzzy_multi_dict/fuzzy_multi_dict.py:1037-1060 | every listed leaf's key extends the node's path and walks to a node that stores the leaf's value |
| Leaves.BelowComplete | fuzzy_multi_dict/fuzzy_multi_dict.py:1037-1060 | every valued node strictly below the node is listed under its key |
| Leaves.BelowDistinct | fuzzy_multi_dict/fuzzy_multi_dict.py:1037-1060 | every valued node is listed once: the keys of the listing are pairwise distinct |
| Leaves.NodeLeaves | fuzzy_multi_dict/fuzzy_multi_dict.py:1012-1062 | with line 1060 corrected (the recursive call's leaves counted against `topn`), `__get_node_leaves` returns exactly the first `topn` of the pre-order listing of valued nodes below the node, children in sorted order, and nothing when `topn <= 0` |
| Leaves.ChildLeaves | fuzzy_multi_dict/fuzzy_multi_dict.py:1037-1060 | one turn of the child loop yields the first `topn` leaves reached through that child |
| Leaves.FollowChain | fuzzy_multi_dict/fuzzy_multi_dict.py:1040-1058 | following valueless single-child nodes stops at a valued node or a branching one, at exactly the node and path `Chain` gives, and the listing from there is the listing from the child |
| Leaves.StopLeaves | fuzzy_multi_dict/fuzzy_multi_dict.py:1042-1060 | from where the chain stopped: that node's own leaf first, then the leaves below it, at most `topn` |
| Leaves.ValuedStop | fuzzy_multi_dict/fuzzy_multi_dict.py:1044-1060 | a valued node is listed first and counts against `topn`; the leaves below it fill the rest |
| Leaves.ChainStep | fuzzy_multi_dict/fuzzy_multi_dict.py:1054-1058 | stepping into the only child of a valueless node does not change the listing |
| Frontier.Offer | fuzzy_multi_dict/fuzzy_multi_dict.py:724-736 | a state is enqueued if and only if its `(position, path)` is new to the memo or was seen with more corrections; afterwards the memo holds at most its count, and no memo entry grew |
| Frontier.OfferGated | fuzzy_multi_dict/fuzzy_multi_dict.py:724-727 | the gate keeps the memo invariant: every enqueued key is recorded with at most its count, and a key enqueued again carries strictly fewer corrections |
| Frontier.OfferPair | fuzzy_multi_dict/fuzzy_multi_dict.py:720-736 | the two enqueue attempts of one edit enqueue only those two states, record both keys, and grow no memo entry |
| Frontier.OfferPairGated | fuzzy_multi_dict/fuzzy_multi_dict.py:720-736 | offering a pair keeps the memo invariant over everything enqueued |
| Frontier.OfferPairs | fuzzy_multi_dict/fuzzy_multi_dict.py:824-855 | the pairs of a loop over children, offered in turn, grow no memo entry |
| Frontier.OfferPairsSnoc | fuzzy_multi_dict/fuzzy_multi_dict.py:824-855 | one more turn of that loop continues from the rows and memo the earlier turns left |
| Frontier.OfferPairsGated | fuzzy_multi_dict/fuzzy_multi_dict.py:824-855 | offering several pairs keeps the memo invariant over everything enqueued |
| Frontier.OfferPairsFrom | fuzzy_multi_dict/fuzzy_multi_dict.py:824-855 | offering several pairs enqueues only their states |
| Frontier.OfferPairsRecorded | fuzzy_multi_dict/fuzzy_multi_dict.py:824-855 | after offering several pairs, every one of their states is recorded in the memo with at most its count |
| Frontier.BudgetGate | fuzzy_multi_dict/fuzzy_multi_dict.py:582-584 | the test `(k + 1) / n <= max` equals `k + 1 <= max * n` for a non-empty query |
| Frontier.BudgetBound | fuzzy_multi_dict/fuzzy_multi_dict.py:231-234 | with a budget of at most 1, a state within the budget has at most as many corrections as query symbols |
| Frontier.UncorrectedWithinBudget | fuzzy_multi_dict/fuzzy_multi_dict.py:551-555 | the starting states, with no corrections, are within any non-negative budget |
| Frontier.TranspositionWalkReach | fuzzy_multi_dict/fuzzy_multi_dict.py:777-790 | with lines 784-790 corrected, the transposed state after the free walk sits at the node its path names |
| Frontier.LeafLookup | fuzzy_multi_dict/fuzzy_multi_dict.py:1048-1058 | every completion is a stored key extending the matched key, with its stored value |
| Frontier.TakenLeavesLookup | fuzzy_multi_dict/fuzzy_multi_dict.py:1007-1008 | the completions `__check_value` attaches are all stored keys below the matched key |
| Frontier.EntryFromRow | fuzzy_multi_dict/fuzzy_multi_dict.py:978-1010 | an entry built from a state within the budget, holding its node's value and the first `topn_leaves` completions, is a checked entry: its value is the one stored under its key, its completions are stored keys extending it, at most `topn_leaves` of them |
| Frontier.PreparedAnswer | fuzzy_multi_dict/fuzzy_multi_dict.py:958-976 | preparing checked, distinct entries gives a sorted answer of checked, distinct entries, valued unless completions were asked for |
| Frontier.ValuedEntries | fuzzy_multi_dict/fuzzy_multi_dict.py:333-391 | checked entries that all hold values are stored keys with their stored values, within the budget, without completions |
| MultiDict.FuzzyMultiDict.AsIsPair | fuzzy_multi_dict/fuzzy_multi_dict.py:720-736 | the two as-is states: one query symbol further along its edge, and the stop of `__apply_string` from the row's node |
| MultiDict.FuzzyMultiDict.AsIsPairOk | fuzzy_multi_dict/fuzzy_multi_dict.py:720-736 | both as-is states are trie states that read query symbols exactly and keep the row's corrections |
| MultiDict.FuzzyMultiDict.AsIsOffersOk | fuzzy_multi_dict/fuzzy_multi_dict.py:705-738 | `__apply_as_is` enqueues only as-is successors of the row and grows no memo entry |
| MultiDict.FuzzyMultiDict.ApplyAsIs | fuzzy_multi_dict/fuzzy_multi_dict.py:705-738 | enqueues and records exactly `AsIsOffers`: with two or more query symbols left and an edge for the next one, the two as-is states through the gate, otherwise nothing; keeps the memo invariant |
| MultiDict.FuzzyMultiDict.InsertionPair | fuzzy_multi_dict/fuzzy_multi_dict.py:824-855 | the two states of inserting child symbol `c`: `c` read at the same query position, and the stop of `__apply_string` from `c`'s node |
| MultiDict.FuzzyMultiDict.InsertionPairOk | fuzzy_multi_dict/fuzzy_multi_dict.py:824-855 | both are trie states one insertion of `c` (scored from its probability) past the row |
| MultiDict.FuzzyMultiDict.InsertionOrder | fuzzy_multi_dict/fuzzy_multi_dict.py:812-819 | the children are visited most probable first, ties in dictionary order; every child exactly |
| MultiDict.FuzzyMultiDict.InsertionPairsAt | fuzzy_multi_dict/fuzzy_multi_dict.py:824-855 | the loop's pairs are, position by position, the pairs of the visited symbols |
| MultiDict.FuzzyMultiDict.InsertionPairsOk | fuzzy_multi_dict/fuzzy_multi_dict.py:824-855 | every pair of the loop holds two insertion successors of the row |
| MultiDict.FuzzyMultiDict.InsertionOffersOk | fuzzy_multi_dict/fuzzy_multi_dict.py:798-857 | `__apply_insertion` enqueues only insertion successors of the row and grows no memo entry |
| MultiDict.FuzzyMultiDict.InsertionOffersRecorded | fuzzy_multi_dict/fuzzy_multi_dict.py:798-857 | after `__apply_insertion`, both states of every child's pair are recorded in the memo |
| MultiDict.FuzzyMultiDict.InsertionOffersFacts | fuzzy_multi_dict/fuzzy_multi_dict.py:798-857 | the insertion offers are the pairs of every child in visiting order, offered in turn; they keep the memo invariant, enqueue only insertion successors and record every child's pair |
| MultiDict.FuzzyMultiDict.ApplyInsertion | fuzzy_multi_dict/fuzzy_multi_dict.py:798-857 | its loop enqueues and records exactly `InsertionOffers` (every child's pair, most probable first, each through the gate); only insertion successors; every child's pair ends recorded; the memo invariant is kept |
| MultiDict.FuzzyMultiDict.SubstitutionPair | fuzzy_multi_dict/fuzzy_multi_dict.py:926-954 | the two states of reading child symbol `c` for the query symbol: `c` read, and the stop of `__apply_string` from `c`'s node |
| MultiDict.FuzzyMultiDict.SubstitutionPairOk | fuzzy_multi_dict/fuzzy_multi_dict.py:926-954 | for `c` other than the query symbol, both are trie states one substitution (scored from the distance) past the row |
| MultiDict.FuzzyMultiDict.SubstitutionOrder | fuzzy_multi_dict/fuzzy_multi_dict.py:915-925 | the children sorted by symbol, then stably by distance to the query symbol, the query symbol itself skipped; exactly the other children |
| MultiDict.FuzzyMultiDict.SubstitutionPairsAt | fuzzy_multi_dict/fuzzy_multi_dict.py:923-954 | the loop's pairs are, position by position, the pairs of the visited symbols |
| MultiDict.FuzzyMultiDict.SubstitutionPairsOk | fuzzy_multi_dict/fuzzy_multi_dict.py:923-954 | every pair of the loop holds two substitution successors of the row |
| MultiDict.FuzzyMultiDict.SubstitutionOffersOk | fuzzy_multi_dict/fuzzy_multi_dict.py:903-956 | `__apply_substitution` enqueues only substitution successors of the row and grows no memo entry |
| MultiDict.FuzzyMultiDict.SubstitutionOffersRecorded | fuzzy_multi_dict/fuzzy_multi_dict.py:903-956 | after `__apply_substitution`, both states of every non-matching child's pair are recorded in the memo |
| MultiDict.FuzzyMultiDict.SubstitutionOffersFacts | fuzzy_multi_dict/fuzzy_multi_dict.py:903-956 | the substitution offers are the pairs of the other children in visiting order, offered in turn; they keep the memo invariant, enqueue only substitution successors and record every such pair |
| MultiDict.FuzzyMultiDict.ApplySubstitution | fuzzy_multi_dict/fuzzy_multi_dict.py:903-956 | its loop enqueues and records exactly `SubstitutionOffers` (every non-matching child's pair, nearest first, each through the gate); only substitution successors; every such pair ends recorded; the memo invariant is kept |
| MultiDict.FuzzyMultiDict.DeletionPair | fuzzy_multi_dict/fuzzy_multi_dict.py:870-899 | the two states of deleting the query symbol: the symbol skipped at the same node, and the stop of `__apply_string` after it |
| MultiDict.FuzzyMultiDict.DeletionPairOk | fuzzy_multi_dict/fuzzy_multi_dict.py:870-899 | both are trie states one deletion (scored from the symbol's probability) past the row |
| MultiDict.FuzzyMultiDict.ApplyDeletion | fuzzy_multi_dict/fuzzy_multi_dict.py:859-901 | enqueues and records exactly the `OfferPair` of the two deletion states; only deletion successors; the memo invariant is kept |
| MultiDict.FuzzyMultiDict.TranspositionPair | fuzzy_multi_dict/fuzzy_multi_dict.py:755-794 | with lines 784-790 corrected, the two states of reading the next two query symbols swapped: the node below the swapped pair, and the stop of `__apply_string` from there |
| MultiDict.FuzzyMultiDict.TranspositionPairOk | fuzzy_multi_dict/fuzzy_multi_dict.py:755-794 | both are trie states one transposition (scored from the distance) past the row |
| MultiDict.FuzzyMultiDict.TranspositionOffersOk | fuzzy_multi_dict/fuzzy_multi_dict.py:740-796 | `__apply_transposition` enqueues only transposition successors, nothing with fewer than two query symbols left, and grows no memo entry |
| MultiDict.FuzzyMultiDict.ApplyTransposition | fuzzy_multi_dict/fuzzy_multi_dict.py:740-796 | with lines 784-790 corrected, enqueues and records exactly `TranspositionOffers`: when the trie holds the next two query symbols swapped, the two transposition states through the gate, otherwise nothing; the memo invariant is kept |
| MultiDict.FuzzyMultiDict.CheckValue | fuzzy_multi_dict/fuzzy_multi_dict.py:978-1010 | an entry exactly when the whole query was read; it holds the node's value if and only if the node is valued and the key is new to the result or was found with more corrections; the first `topn_leaves` completions (line 1060 corrected) when those are wanted |
| MultiDict.FuzzyMultiDict.InsertionsOneMore | fuzzy_multi_dict/fuzzy_multi_dict.py:798-857 | an insertion adds exactly one correction, of kind insertion, and reads no fewer query symbols |
| MultiDict.FuzzyMultiDict.SubstitutionsOneMore | fuzzy_multi_dict/fuzzy_multi_dict.py:903-956 | a substitution adds exactly one correction, of kind substitution, and reads one more query symbol |
| MultiDict.FuzzyMultiDict.DeletionsOneMore | fuzzy_multi_dict/fuzzy_multi_dict.py:859-901 | a deletion adds exactly one correction, of kind deletion, and skips one query symbol |
| MultiDict.FuzzyMultiDict.TranspositionsOneMore | fuzzy_multi_dict/fuzzy_multi_dict.py:740-796 | a transposition adds exactly one correction, of kind transposition, and reads two more query symbols |
| MultiDict.FuzzyMultiDict.SymbolEditsOk | fuzzy_multi_dict/fuzzy_multi_dict.py:584-621 | every symbol edit of a row is one correction further along; an insertion happens only through the gate of line 585; the others only before the end of the query; none is a transposition |
| MultiDict.FuzzyMultiDict.JoinEdits | fuzzy_multi_dict/fuzzy_multi_dict.py:584-621 | the insertions, substitutions and deletions of a row, concatenated, keep those facts |
| MultiDict.FuzzyMultiDict.CorrectionsOk | fuzzy_multi_dict/fuzzy_multi_dict.py:584-637 | every corrected state of a row is one correction further along; an insertion only through the gate of line 585; a transposition only of two different next query symbols (line 625) |
| MultiDict.FuzzyMultiDict.TranspositionsJoin | fuzzy_multi_dict/fuzzy_multi_dict.py:623-637 | adding the transpositions to the symbol edits keeps those facts |
| MultiDict.FuzzyMultiDict.AsIsAdvances | fuzzy_multi_dict/fuzzy_multi_dict.py:576-580 | as-is states read more symbols with the same corrections, so they stay within the budget |
| MultiDict.FuzzyMultiDict.OneMoreAdvances | fuzzy_multi_dict/fuzzy_multi_dict.py:582-637 | a state one correction further along is within the budget when the gate of line 584 passed |
| MultiDict.FuzzyMultiDict.AsIsAdvance | fuzzy_multi_dict/fuzzy_multi_dict.py:576-580 | the as-is offers of a row are further along and within the budget |
| MultiDict.FuzzyMultiDict.CorrectionsAdvance | fuzzy_multi_dict/fuzzy_multi_dict.py:582-637 | the corrected offers of a row are further along and within the budget |
| MultiDict.FuzzyMultiDict.AsIsGated | fuzzy_multi_dict/fuzzy_multi_dict.py:705-738 | `__apply_as_is` keeps the memo invariant |
| MultiDict.FuzzyMultiDict.TranspositionsGated | fuzzy_multi_dict/fuzzy_multi_dict.py:740-796 | `__apply_transposition` keeps the memo invariant |
| MultiDict.FuzzyMultiDict.SymbolEditsGated | fuzzy_multi_dict/fuzzy_multi_dict.py:584-621 | the insertion, substitution and deletion calls, one after the other, keep the memo invariant |
| MultiDict.FuzzyMultiDict.WithTranspositionsGated | fuzzy_multi_dict/fuzzy_multi_dict.py:623-637 | the transposition call after the symbol edits keeps the memo invariant |
| MultiDict.FuzzyMultiDict.CorrectionsGated | fuzzy_multi_dict/fuzzy_multi_dict.py:584-637 | all the correction calls of a row keep the memo invariant |
| MultiDict.FuzzyMultiDict.RowStep | fuzzy_multi_dict/fuzzy_multi_dict.py:561-637 | one turn of the row loop keeps the result's keys unique |
| MultiDict.FuzzyMultiDict.RowStepOk | fuzzy_multi_dict/fuzzy_multi_dict.py:561-637 | one turn of the row loop offers only trie states within the budget and further along than the row, and grows no memo entry |
| MultiDict.FuzzyMultiDict.RowStepEntries | fuzzy_multi_dict/fuzzy_multi_dict.py:561-574 | one turn keeps every result entry checked, and changes the result only when the row has read the whole query |
| MultiDict.FuzzyMultiDict.RowStepGated | fuzzy_multi_dict/fuzzy_multi_dict.py:561-637 | one turn keeps the memo invariant over everything enqueued |
| MultiDict.FuzzyMultiDict.RowStepFacts | fuzzy_multi_dict/fuzzy_multi_dict.py:561-637 | the memo invariant, no memo growth, advancing offers and checked entries, together, for one turn |
| MultiDict.FuzzyMultiDict.ProcessRow | fuzzy_multi_dict/fuzzy_multi_dict.py:561-637 | computes exactly `RowStep`: a row that read the whole query puts its checked entry into the result, any other row leaves it unchanged; the as-is offers, then, when the budget allows one more correction, the corrected offers; every offer advances and stays within the budget; the memo invariant is kept |
| MultiDict.FuzzyMultiDict.ApplyCorrections | fuzzy_multi_dict/fuzzy_multi_dict.py:582-637 | computes exactly `CorrectionOffers`; every state advances within the budget; an insertion only through the gate of line 585, a transposition only of two different next query symbols; the memo invariant is kept |
| MultiDict.FuzzyMultiDict.ApplySymbolEdits | fuzzy_multi_dict/fuzzy_multi_dict.py:584-621 | computes exactly `SymbolEditOffers`; every state advances within the budget; an insertion only when completions are off or before the end of the query (line 585); substitutions and deletions only before the end of the query |
| MultiDict.FuzzyMultiDict.Wave | fuzzy_multi_dict/fuzzy_multi_dict.py:557-640 | a wave of rows in turn keeps the result's keys unique |
| MultiDict.FuzzyMultiDict.WaveSnoc | fuzzy_multi_dict/fuzzy_multi_dict.py:557-640 | one more row of a wave continues from the memo and result the earlier rows left |
| MultiDict.FuzzyMultiDict.WaveOk | fuzzy_multi_dict/fuzzy_multi_dict.py:557-640 | a wave of states at least `k` along offers only trie states within the budget and more than `k` along, and keeps the result's entries checked |
| MultiDict.FuzzyMultiDict.WaveGated | fuzzy_multi_dict/fuzzy_multi_dict.py:557-640 | a wave keeps the memo invariant over everything enqueued |
| MultiDict.FuzzyMultiDict.ProcessWave | fuzzy_multi_dict/fuzzy_multi_dict.py:557-640 | the loop over one wave's rows computes exactly `Wave` and keeps the memo invariant over everything enqueued |
| MultiDict.FuzzyMultiDict.Run | fuzzy_multi_dict/fuzzy_multi_dict.py:551-642 | the search loop, wave after wave until one offers nothing, keeps the result's keys unique; it ends within `2 * len(query) + 1` waves |
| MultiDict.FuzzyMultiDict.RunStep | fuzzy_multi_dict/fuzzy_multi_dict.py:557-642 | a non-empty wave is fewer than `2 * len(query) + 1` waves in, its offers are further along and within the budget, and the search goes on from them |
| MultiDict.FuzzyMultiDict.RunOk | fuzzy_multi_dict/fuzzy_multi_dict.py:551-642 | the search keeps every result entry checked |
| MultiDict.FuzzyMultiDict.Explored | fuzzy_multi_dict/fuzzy_multi_dict.py:551-642 | the result of the search from the end of the exact walk and from the root has unique keys and only checked entries |
| MultiDict.FuzzyMultiDict.Approximate | fuzzy_multi_dict/fuzzy_multi_dict.py:523-642 | the search from where `__apply_string` stopped has unique keys and only checked entries |
| MultiDict.FuzzyMultiDict.Explore | fuzzy_multi_dict/fuzzy_multi_dict.py:551-642 | the wave loop over `rows_to_process` computes exactly `Explored` and ends (its measure is below `2 * len(query) + 1` waves); every reported entry holds the value stored under its key, completions stored below it, corrections within the budget, and each key once |
| MultiDict.FuzzyMultiDict.ExactEntry | fuzzy_multi_dict/fuzzy_multi_dict.py:528-547 | with line 539 corrected, the exact-hit entry: the query, no corrections, the node's value, and its first `topn_leaves` completions when asked for |
| MultiDict.FuzzyMultiDict.Find | fuzzy_multi_dict/fuzzy_multi_dict.py:498-644 | `__get` fails with `ZeroDivisionError` exactly for the empty query on a valueless root without completions; an exactly stored query (or any walkable query when completions are asked for) answers its exact hit, with line 539 corrected; any other query answers `__prepare_result` of `Approximate`; every answer is sorted, checked, each key once, at most `topn` |
| MultiDict.FuzzyMultiDict.Get | fuzzy_multi_dict/fuzzy_multi_dict.py:333-391 | `get` fails exactly for the empty query on a valueless root; a stored query answers itself alone with its stored value (line 539 corrected); any other query answers the prepared `Approximate` without completions; answers are stored keys with their stored values, within the budget, sorted by score, each once, at most `topn` |
| MultiDict.FuzzyMultiDict.Search | fuzzy_multi_dict/fuzzy_multi_dict.py:393-496 | `search` fails exactly when `__get` does; otherwise every hit comes from the answer of `__get` with `topn` completions (a valued match under its key and correction, or a completion of a match), keys are distinct, at most `topn` hits (one when `topn < 1`), matches before completions, the best match first when it holds a value, and below the cap every valued match and every completion is a hit; each hit is a stored key with its value, and a stored query is the first hit (line 539 corrected) |
| MultiDict.CollectTop | fuzzy_multi_dict/fuzzy_multi_dict.py:450-496 | the hits are gathered from the matches, each key once, matches before completions; if the cap was not reached every valued match and every completion is among them |
| MultiDict.CollectValued | fuzzy_multi_dict/fuzzy_multi_dict.py:455-471 | the first loop takes valued matches in order, each key once, the best match first, and stops at the cap |
| MultiDict.CollectCompletions | fuzzy_multi_dict/fuzzy_multi_dict.py:473-494 | the second loop only extends the hits, each new hit a completion of a new key carrying its match's corrections, and stops at the cap; below the cap every valued match and every completion is among the hits |
| MultiDict.CollectLeaves | fuzzy_multi_dict/fuzzy_multi_dict.py:478-494 | the inner loop adds each completion of one match whose key is new, and stops at the cap |
| MultiDict.GatheredAppend | fuzzy_multi_dict/fuzzy_multi_dict.py:483-491 | appending a hit with a new key keeps keys distinct and matches before completions |
| MultiDict.HitKeysAppend | fuzzy_multi_dict/fuzzy_multi_dict.py:468 | `__processed_keys` grows by exactly the appended key |
| MultiDict.FuzzyMultiDict.GetItem | fuzzy_multi_dict/fuzzy_multi_dict.py:646-687 | a non-string query raises `TypeError`; a stored query answers its own value (line 539 corrected); any other non-empty query answers the value of the first prepared `Approximate` match, or `KeyError` when there is none; `ZeroDivisionError` exactly for the empty query on a valueless root |
| MultiDict.EntryFor | fuzzy_multi_dict/fuzzy_multi_dict.py:999-1000 | `result.get(path)`: the entry with that key, or none when no entry has it |
| Frontier.TranspositionPathDoubled | fuzzy_multi_dict/fuzzy_multi_dict.py:784-790 | the free-walk key as written repeats the row's path and names no node; the corrected key names the node reached |
| Leaves.LeafOvershoot | fuzzy_multi_dict/fuzzy_multi_dict.py:1060 | as written two leaves are asked for and three come back; the corrected listing returns two |
| Results.FalsyValueLost | fuzzy_multi_dict/fuzzy_multi_dict.py:539 | as written a stored 0 is answered by an empty list; the corrected exact hit answers the stored 0 |

## Left out

- `save` and `load` (pickling to a file) are file I/O and are not modelled.
- The square root `** 0.5` of each score is floating point. Scores are reals, and the square root is a caller-given function `sqrt` about which nothing is assumed, so no proved property depends on score values beyond their order.
- Floating-point rounding in prices, probabilities, distances, the budget test and the score sum is not modelled; all of these are exact reals.
- `TypeError` for a non-`CorrectionPrice` price, and the dynamic type checks of table keys and values, are typed out: tables are `map<string, real>` and `map<(string, string), real>`, and only the single-symbol key check is modelled.
- `update_value` is an opaque function `(Option<V>, V) -> V`.
- SetItem: values are never None. In the source a stored `None` (from `d[k] = None`, or from an `update_value` that returns `None`) leaves the node valueless, so every reader treats the key as absent; here every `V` is a value and the key answers.
- The `"parent": "ROOT"` key of the root is unused and not modelled.
- Correction descriptions (the f-strings) are datatype fields: kind, symbols, position, score.
- Trie.ChildOrder: the dictionary order of a node's edges is taken to be the order of their child indices. This holds because `__setitem__` appends every new node to the arena, but the arena index is the model's, not the source's.
- Explore: states that it computes `Explored` and that every reported entry is sound; it does not state completeness (that every stored key within the budget is reported) or that each key is reported with its fewest corrections.
- Find: answers beyond the exact hit are stated as `__prepare_result` of `Approximate`, which is proved sound and terminating; completeness of `Approximate` is not claimed. Find also models line 539 corrected: a stored falsy value (0, "", []) is returned like any other (see Findings).
- Get: the same as Find, without completions; completeness is not claimed, and line 539 is modelled corrected.
- Search: states which hits are gathered, that the best valued match comes first and that valued matches come before completions, but not the order among the later matches or among the completions. Through Find it models lines 539 and 1060 corrected.
- GetItem: models line 539 corrected; as written a stored falsy value makes `__getitem__` raise `KeyError`.
- ExactEntry: models line 539 corrected; as written the entry keeps no value when the stored value is falsy.
- CheckValue: its completions come from NodeLeaves, so it models line 1060 corrected.
- NodeLeaves: models line 1060 corrected: the recursive call's leaves are counted against `topn`, so at most `topn` come back; as written more can.
- ApplyTransposition: models lines 784-790 corrected: the walked state's key is the row's path once, not twice.
- TranspositionPair: models lines 784-790 corrected, as ApplyTransposition.

## Findings

| source | as written | input that shows it | evidently intended | confidence | as-written member | corrected member |
|---|---|---|---|---|---|---|
| fuzzy_multi_dict/fuzzy_multi_dict.py:784-790 | the state after the free walk gets the key `path + path + swapped pair + walked symbols` | trie with the single key "xbac"; query "xabc", row at position 1 with path "x": the enqueued key is "xxbac", which names no node | `path + swapped pair + walked symbols`, the key of the node reached ("xbac") | high, not executed | Frontier.TranspositionPathDoubled | Frontier.TranspositionWalkReach |
| fuzzy_multi_dict/fuzzy_multi_dict.py:1060 | the recursive call's leaves are appended but not counted against `topn` | keys "a", "ax", "b" and `topn = 2` from the root: "a" is counted, "ax" is not, so "b" is listed too and three leaves come back | at most `topn` leaves in total, as the docstring says | high, not executed | Leaves.LeafOvershoot | Leaves.NodeLeaves |
| fuzzy_multi_dict/fuzzy_multi_dict.py:539 | the exact hit copies the node's value only if it is truthy, though line 528 tested `is not None` | key "k" stored with value 0, `get("k")`: the entry keeps value `None`, `__prepare_result` drops it, and the answer is `[]` | the stored value, whatever its truth value | high, not executed | Results.FalsyValueLost | Results.ExactHitReturnsStored |
