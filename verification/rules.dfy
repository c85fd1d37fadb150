/** `generate_association_rules`: rules are mined only from the frequent
    itemsets of more than one item, by the two helpers of
    `assoc_rule_mining_tools`, taken here as parameters. */
module Rules {
  import opened Seqs
  import opened Transactions
  import opened Apriori

  /** A rule as the script lists it: antecedent items, `"=>"`, consequent items. */
  type Rule = seq<string>

  /** The helpers rule mining calls: `order` is the iteration order of a
      frozenset; `pruneConsequents` and `apGenrules` are `prune_consequents`
      and `ap_genrules` of `assoc_rule_mining_tools`. */
  datatype RuleHelpers = RuleHelpers(
    order: Itemset -> seq<string>,
    pruneConsequents: (Itemset, seq<Itemset>, Counts, real) -> (seq<Rule>, seq<Itemset>),
    apGenrules: (Itemset, seq<Itemset>, Counts, real) -> seq<Rule>)

  /** Iterating a frozenset visits each of its items once. */
  ghost predicate Enumerates(order: Itemset -> seq<string>)
  {
    forall x: Itemset :: NoDuplicates(order(x)) && forall i :: i in order(x) <==> i in x
  }

  /** What the loop does with one frequent itemset: nothing unless it has more
      than one item; otherwise the rules `prune_consequents` finds from the
      1-item consequents, then those `ap_genrules` grows from the consequents
      it kept. `order` is the iteration order of the frozenset. */
  function RulesFor(itemset: Itemset, support: Counts, minconf: real, h: RuleHelpers): (rules: seq<Rule>)
    ensures |itemset| <= 1 ==> rules == []
  {
    if |itemset| > 1 then
      var h1 := Singletons(h.order(itemset));
      var (found, kept) := h.pruneConsequents(itemset, h1, support, minconf);
      found + h.apGenrules(itemset, kept, support, minconf)
    else []
  }

  /** With an order that visits each item once, the 1-item consequents rule
      mining starts from are the singletons of the itemset's items, once each. */
  lemma FirstConsequents(itemset: Itemset, order: Itemset -> seq<string>)
    requires Enumerates(order)
    ensures forall c :: c in Singletons(order(itemset)) <==> exists i :: i in itemset && c == {i}
    ensures NoDuplicates(Singletons(order(itemset)))
  {
    var xs := order(itemset);
    var h1 := Singletons(xs);
    forall c ensures c in h1 <==> exists i :: i in itemset && c == {i} {
      if c in h1 {
        var j :| 0 <= j < |h1| && h1[j] == c;
        assert xs[j] in xs;
      }
      if exists i :: i in itemset && c == {i} {
        var i :| i in itemset && c == {i};
        var j :| 0 <= j < |xs| && xs[j] == i;
        assert h1[j] == c;
      }
    }
    forall a, b | 0 <= a < b < |h1| ensures h1[a] != h1[b] {
      assert xs[a] in h1[a] && xs[b] !in h1[a];
    }
  }

  /** The rules of all the itemsets, in the order of the itemsets. */
  function MineRules(itemsets: seq<Itemset>, support: Counts, minconf: real, h: RuleHelpers): seq<Rule>
  {
    if itemsets == [] then []
    else
      var here := RulesFor(itemsets[0], support, minconf, h);
      here + MineRules(itemsets[1..], support, minconf, h)
  }

  /** Every mined rule comes from an itemset of more than one item. */
  lemma {:induction false} MinedFromLarge(itemsets: seq<Itemset>, support: Counts, minconf: real, h: RuleHelpers,
                                          r: Rule)
    requires r in MineRules(itemsets, support, minconf, h)
    ensures exists i :: 0 <= i < |itemsets| && |itemsets[i]| > 1
                        && r in RulesFor(itemsets[i], support, minconf, h)
  {
    var here := RulesFor(itemsets[0], support, minconf, h);
    if r !in here {
      MinedFromLarge(itemsets[1..], support, minconf, h, r);
      var i :| 0 <= i < |itemsets| - 1 && |itemsets[1..][i]| > 1
               && r in RulesFor(itemsets[1..][i], support, minconf, h);
      assert itemsets[1..][i] == itemsets[i + 1];
    }
  }

  /** Mining a list of itemsets in two parts gives the rules of each part in turn. */
  lemma {:induction false} MineRulesAppend(a: seq<Itemset>, b: seq<Itemset>, support: Counts, minconf: real, h: RuleHelpers)
    ensures MineRules(a + b, support, minconf, h)
         == MineRules(a, support, minconf, h)
          + MineRules(b, support, minconf, h)
  {
    if a == [] {
      assert a + b == b;
    } else {
      var here := RulesFor(a[0], support, minconf, h);
      assert (a + b)[0] == a[0] && (a + b)[1..] == a[1..] + b;
      calc {
        MineRules(a + b, support, minconf, h);
        here + MineRules(a[1..] + b, support, minconf, h);
        { MineRulesAppend(a[1..], b, support, minconf, h); }
        here + (MineRules(a[1..], support, minconf, h)
              + MineRules(b, support, minconf, h));
      }
    }
  }

  /** The itemsets of more than one item, in order. */
  function Large(itemsets: seq<Itemset>): (r: seq<Itemset>)
    ensures forall x :: x in r <==> x in itemsets && |x| > 1
  {
    if itemsets == [] then []
    else
      var rest := Large(itemsets[1..]);
      assert forall x :: x in itemsets <==> x == itemsets[0] || x in itemsets[1..];
      if |itemsets[0]| > 1 then [itemsets[0]] + rest else rest
  }

  /** Dropping the itemsets of at most one item changes no rule. */
  lemma {:induction false} OnlyLargeItemsetsMined(itemsets: seq<Itemset>, support: Counts, minconf: real, h: RuleHelpers)
    ensures MineRules(itemsets, support, minconf, h)
         == MineRules(Large(itemsets), support, minconf, h)
  {
    if itemsets != [] {
      OnlyLargeItemsetsMined(itemsets[1..], support, minconf, h);
      var rest := Large(itemsets[1..]);
      if |itemsets[0]| > 1 {
        assert ([itemsets[0]] + rest)[1..] == rest;
      }
    }
  }

  /** Adding one itemset to the list adds its rules at the end. */
  lemma MineRulesSnoc(itemsets: seq<Itemset>, i: nat, support: Counts, minconf: real, h: RuleHelpers)
    requires i < |itemsets|
    ensures MineRules(itemsets[..i + 1], support, minconf, h)
         == MineRules(itemsets[..i], support, minconf, h)
          + RulesFor(itemsets[i], support, minconf, h)
  {
    MineRulesAppend(itemsets[..i], [itemsets[i]], support, minconf, h);
    assert itemsets[..i + 1] == itemsets[..i] + [itemsets[i]];
  }

  /** The loop of `generate_association_rules` over the frequent itemsets. */
  method MineAll(itemsets: seq<Itemset>, support: Counts, minconf: real, h: RuleHelpers)
    returns (rules: seq<Rule>)
    ensures rules == MineRules(Large(itemsets), support, minconf, h)
  {
    rules := [];
    for i := 0 to |itemsets|
      invariant rules == MineRules(itemsets[..i], support, minconf, h)
    {
      var itemset := itemsets[i];
      if |itemset| > 1 {
        var h1 := Singletons(h.order(itemset));
        var (found, kept) := h.pruneConsequents(itemset, h1, support, minconf);
        rules := rules + found;
        var grown := h.apGenrules(itemset, kept, support, minconf);
        rules := rules + grown;
      }
      MineRulesSnoc(itemsets, i, support, minconf, h);
    }
    assert itemsets[..|itemsets|] == itemsets;
    OnlyLargeItemsetsMined(itemsets, support, minconf, h);
  }

  /** `generate_association_rules(transactions, minsup, minconf)`. Besides the
      rules it hands back the frequent itemsets and counts it mined them from,
      so that the contract can name them. Every rule comes from a frequent
      itemset of more than one item. */
  method GenerateAssociationRules(ts: seq<Transaction>, minsup: real, minconf: real,
                                  tools: SearchHelpers, h: RuleHelpers)
    returns (rules: seq<Rule>, frequent: seq<Itemset>, support: Counts)
    requires tools.Valid()
    ensures forall x :: x in frequent <==> x in support.values
    ensures support.Valid() && support.keys == frequent
    ensures forall x :: x in support.values ==> Frequent(support.values[x], minsup, |ts|)
    ensures frequent == FirstLevel(ts, minsup) + LaterLevels(ts, minsup, tools).itemsets
    ensures forall item :: {item} in support.values ==> support.values[{item}] == Occurrences(ts, item)
    ensures forall x :: (x in support.values && |x| > 1) <==> x in LaterLevels(ts, minsup, tools).counts
    ensures forall x :: x in LaterLevels(ts, minsup, tools).counts ==>
              support.values[x] == LaterLevels(ts, minsup, tools).counts[x]
    ensures rules == MineRules(Large(frequent), support, minconf, h)
    ensures forall r :: r in rules ==>
      exists x :: x in support.values && |x| > 1
                  && r in RulesFor(x, support, minconf, h)
  {
    frequent, support := GenerateFrequentItemsets(ts, minsup, tools);
    rules := MineAll(frequent, support, minconf, h);
    forall r | r in rules
      ensures exists x :: x in support.values && |x| > 1
                          && r in RulesFor(x, support, minconf, h)
    {
      MinedFromLarge(Large(frequent), support, minconf, h, r);
      var i :| 0 <= i < |Large(frequent)| && |Large(frequent)[i]| > 1
               && r in RulesFor(Large(frequent)[i], support, minconf, h);
      assert Large(frequent)[i] in Large(frequent);
    }
  }
}
