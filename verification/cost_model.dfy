/**
 * The cost model of `FuzzyMultiDict`: one price per correction kind, a table of
 * symbol probabilities and a table of symbol-pair distances, each table with a
 * default for symbols it does not name. Keys stay strings, as in the source, so
 * that a key of the wrong length can be given and refused.
 */
module CostModel {

  /** `CorrectionPrice`: the price of each kind of correction. */
  datatype CorrectionPrice = CorrectionPrice(transposition: real, deletion: real, substitution: real, insertion: real)

  /** The source's default prices, all 1. */
  const DefaultPrice := CorrectionPrice(1.0, 1.0, 1.0, 1.0)

  /** The source's default probability of a symbol missing from the table, 1e-5. */
  const DefaultSymbolProbability: real := 0.00001

  /** The source's default distance between two symbols missing from the table. */
  const DefaultSymbolsDistance: real := 1.0

  predicate InUnit(x: real)
  {
    0.0 <= x <= 1.0
  }

  /** The check of `set_correction_price`: every price lies in [0, 1]. */
  predicate PriceOk(p: CorrectionPrice)
  {
    InUnit(p.deletion) && InUnit(p.substitution) && InUnit(p.transposition) && InUnit(p.insertion)
  }

  /** Every probability lies in [0, 1] and every key is a single character. */
  predicate ProbabilityTableOk(t: map<string, real>)
  {
    forall c :: c in t ==> InUnit(t[c]) && |c| == 1
  }

  /** Every distance lies in [0, 1] and both symbols of every key are single characters. */
  predicate DistanceTableOk(t: map<(string, string), real>)
  {
    forall k :: k in t ==> InUnit(t[k]) && |k.0| == 1 && |k.1| == 1
  }

  /** Every pair in the table has its reverse in the table too. */
  ghost predicate KeySymmetric(t: map<(string, string), real>)
  {
    forall k :: k in t ==> Reversed(k) in t
  }

  function Reversed(k: (string, string)): (string, string)
  {
    (k.1, k.0)
  }

  /**
   * The distance table `set_symbols_probability_distances` installs: the given
   * table, plus the reverse of every pair whose reverse was not given, with the
   * same distance. A reverse that was given explicitly keeps its own distance.
   */
  function Symmetrised(t: map<(string, string), real>): (r: map<(string, string), real>)
    ensures KeySymmetric(r)
    ensures forall k :: k in t ==> k in r && r[k] == t[k]
    ensures forall k :: k in r && k !in t ==> Reversed(k) in t && r[k] == t[Reversed(k)]
    ensures DistanceTableOk(t) ==> DistanceTableOk(r)
  {
    var reverses := set j | j in t :: Reversed(j);
    var r := map k | k in t.Keys + reverses :: if k in t then t[k] else t[Reversed(k)];
    assert forall k :: k in t ==> Reversed(k) in reverses;
    assert forall k :: k in reverses ==> Reversed(Reversed(k)) == k && Reversed(k) in t;
    r
  }

  /**
   * A table that keeps every given pair, adds only reverses of given pairs with
   * their distance, and holds the reverse of every given pair is the symmetrised
   * table: the order in which reverses were added does not matter.
   */
  lemma SymmetrisedUnique(t: map<(string, string), real>, table: map<(string, string), real>)
    requires forall k :: k in t ==> k in table && table[k] == t[k]
    requires forall k :: k in table && k !in t ==> Reversed(k) in t && table[k] == t[Reversed(k)]
    requires forall k :: k in t ==> Reversed(k) in table
    ensures table == Symmetrised(t)
  {
    var r := Symmetrised(t);
    forall k ensures k in table <==> k in r {
      if k in table && k !in t {
        assert Reversed(Reversed(k)) == k;
      }
      if k in r && k !in t {
        assert Reversed(Reversed(k)) == k;
      }
    }
  }

  /** `get_symbols_distance`: zero for equal symbols, else the table's distance, else the default. */
  function SymbolsDistance(t: map<(string, string), real>, default: real, x: string, y: string): (r: real)
    ensures x == y ==> r == 0.0
    ensures x != y && (x, y) !in t ==> r == default
    ensures DistanceTableOk(t) && InUnit(default) ==> InUnit(r)
  {
    if x == y then 0.0
    else if (x, y) in t then t[(x, y)]
    else default
  }

  /** `get_symbol_probability`: the table's probability, else the default. */
  function SymbolProbability(t: map<string, real>, default: real, c: string): (r: real)
    ensures c !in t ==> r == default
    ensures ProbabilityTableOk(t) && InUnit(default) ==> InUnit(r)
  {
    if c in t then t[c] else default
  }

  /**
   * Reading a distance back after configuring the table `t`: a pair given
   * explicitly reads its own distance, a pair whose reverse alone was given reads
   * the reverse's distance, and anything else reads the default.
   */
  lemma DistanceAfterConfiguration(t: map<(string, string), real>, default: real, x: string, y: string)
    ensures SymbolsDistance(Symmetrised(t), default, x, y) ==
              if x == y then 0.0
              else if (x, y) in t then t[(x, y)]
              else if (y, x) in t then t[(y, x)]
              else default
  {
    var r := Symmetrised(t);
    if x != y && (x, y) !in t && (y, x) in t {
      assert Reversed((y, x)) == (x, y);
      assert (x, y) in r;
    }
  }

  /** The product of a price and a factor in [0, 1], the number whose square root scores a correction, lies in [0, 1]. */
  lemma {:induction false} CostInUnit(price: real, factor: real)
    requires InUnit(price) && InUnit(factor)
    ensures InUnit(price * factor)
  {
    assert price * factor <= price * 1.0 by {
      assert price * (1.0 - factor) >= 0.0;
    }
  }
}
