/** `generate_frequent_itemset`: the level-wise search for frequent itemsets,
    with the helpers it imports from `assoc_rule_mining_tools` taken as
    parameters that keep a small contract. */
module Apriori {
  import opened Seqs
  import opened Dicts
  import opened Transactions

  /** A `frozenset` of items. */
  type Itemset = set<string>

  /** A dict from itemsets to their counts. */
  type Counts = Dict<Itemset, nat>

  /** Every item of every transaction, in reading order. */
  function Flatten(ts: seq<Transaction>): seq<string>
  {
    if ts == [] then [] else Flatten(ts[..|ts| - 1]) + ts[|ts| - 1]
  }

  /** How often `item` occurs across the transactions, repeats within one
      transaction included. */
  function Occurrences(ts: seq<Transaction>, item: string): nat
  {
    multiset(Flatten(ts))[item]
  }

  /** The items of `xs` in order of first occurrence. */
  function Distinct(xs: seq<string>): (r: seq<string>)
    ensures NoDuplicates(r)
    ensures forall x :: x in r <==> x in xs
  {
    if xs == [] then []
    else
      var d := Distinct(xs[..|xs| - 1]);
      var x := xs[|xs| - 1];
      assert xs == xs[..|xs| - 1] + [x];
      if x in d then d else d + [x]
  }

  /** `frozenset([x])` for each item `x`. */
  function Singletons(xs: seq<string>): (r: seq<Itemset>)
    ensures |r| == |xs|
    ensures forall i :: 0 <= i < |xs| ==> r[i] == {xs[i]}
  {
    Map((x: string) => {x}, xs)
  }

  /** `freq >= minsup * no_of_transactions`, on exact reals. */
  predicate Frequent(freq: nat, minsup: real, n: nat)
  {
    freq as real >= minsup * n as real
  }

  /** A dict that holds, for each item seen so far, the count of its
      singleton, keyed in order of first occurrence. */
  ghost predicate Tallies(counts: Counts, seen: seq<string>)
  {
    && counts.Valid()
    && counts.keys == Singletons(Distinct(seen))
    && forall item :: {item} in counts.values ==> counts.values[{item}] == multiset(seen)[item]
  }

  /** The counting loop at the start of `generate_frequent_itemset`: the
      singleton of each item, in order of first occurrence, with the number of
      times the item occurs. */
  method CountItems(ts: seq<Transaction>) returns (counts: Counts)
    ensures counts.Valid()
    ensures counts.keys == Singletons(Distinct(Flatten(ts)))
    ensures forall item :: {item} in counts.values ==> counts.values[{item}] == Occurrences(ts, item)
  {
    counts := Empty();
    ghost var seen: seq<string> := [];
    for i := 0 to |ts|
      invariant seen == Flatten(ts[..i])
      invariant Tallies(counts, seen)
    {
      ghost var done := seen;
      for j := 0 to |ts[i]|
        invariant seen == done + ts[i][..j]
        invariant Tallies(counts, seen)
      {
        var item := ts[i][j];
        var key := {item};
        var before := counts;
        if key in counts.values {
          counts := counts.Put(key, counts.values[key] + 1);
        } else {
          counts := counts.Put(key, 1);
        }
        TallyStep(before, seen, item, counts);
        SliceSnoc(done, ts[i], j);
        seen := seen + [item];
      }
      assert ts[i][..|ts[i]|] == ts[i];
      FlattenSnoc(ts, i);
    }
    assert ts[..|ts|] == ts;
  }

  lemma SliceSnoc(done: seq<string>, row: seq<string>, j: nat)
    requires j < |row|
    ensures done + row[..j] + [row[j]] == done + row[..j + 1]
  {
    assert row[..j + 1] == row[..j] + [row[j]];
  }

  lemma FlattenSnoc(ts: seq<Transaction>, i: nat)
    requires i < |ts|
    ensures Flatten(ts[..i + 1]) == Flatten(ts[..i]) + ts[i]
  {
    assert ts[..i + 1][..i] == ts[..i];
  }

  /** Counting one more item keeps the tally. */
  lemma TallyStep(before: Counts, seen: seq<string>, item: string, after: Counts)
    requires Tallies(before, seen)
    requires after == before.Put({item}, if {item} in before.values then before.values[{item}] + 1 else 1)
    ensures Tallies(after, seen + [item])
  {
    TallyKeys(before, seen, item, after);
    TallyCounts(before, seen, item, after);
  }

  /** A new item's singleton is listed last; a seen item's keeps its place. */
  lemma TallyKeys(before: Counts, seen: seq<string>, item: string, after: Counts)
    requires before.Valid() && before.keys == Singletons(Distinct(seen))
    requires after == before.Put({item}, if {item} in before.values then before.values[{item}] + 1 else 1)
    ensures after.keys == Singletons(Distinct(seen + [item]))
  {
    var d := Distinct(seen);
    DistinctSnoc(seen, item);
    if {item} in before.values {
      assert {item} in before.keys;
      var i :| 0 <= i < |d| && {d[i]} == {item};
      assert d[i] in {item};
      assert item in seen;
      assert after.keys == before.keys;
    } else {
      assert after.keys == before.keys + [{item}];
      MapAppend((x: string) => {x}, d, [item]);
      assert Map((x: string) => {x}, [item]) == [{item}];
    }
  }

  /** The counted item's count goes up by one; every other count stays. */
  lemma TallyCounts(before: Counts, seen: seq<string>, item: string, after: Counts)
    requires forall x :: {x} in before.values ==> before.values[{x}] == multiset(seen)[x]
    requires after.values == before.values[{item} := if {item} in before.values then before.values[{item}] + 1 else 1]
    requires {item} !in before.values ==> item !in seen
    ensures forall x :: {x} in after.values ==> after.values[{x}] == multiset(seen + [item])[x]
  {
    forall x | {x} in after.values
      ensures after.values[{x}] == multiset(seen + [item])[x]
    {
      if x != item {
        assert item !in {x};
      }
    }
  }

  lemma DistinctSnoc(xs: seq<string>, x: string)
    ensures Distinct(xs + [x]) == if x in xs then Distinct(xs) else Distinct(xs) + [x]
  {
    assert (xs + [x])[..|xs|] == xs;
  }

  /** `[k for k, freq in d.items() if freq >= minsup * n]`: the keys whose
      count passes the threshold, in the dict's order. */
  function FrequentKeys(keys: seq<Itemset>, values: map<Itemset, nat>, minsup: real, n: nat): (r: seq<Itemset>)
    requires forall k :: k in keys ==> k in values
    ensures forall k :: k in r <==> k in keys && Frequent(values[k], minsup, n)
    ensures NoDuplicates(keys) ==> NoDuplicates(r)
  {
    if keys == [] then []
    else
      var rest := FrequentKeys(keys[1..], values, minsup, n);
      assert forall k :: k in keys <==> k == keys[0] || k in keys[1..];
      if Frequent(values[keys[0]], minsup, n) then [keys[0]] + rest else rest
  }

  /** The dict comprehension of line 52: the entries whose count passes the
      threshold, in the dict's order. */
  function KeepFrequent(d: Counts, minsup: real, n: nat): (r: Counts)
    requires d.Valid()
    ensures r.Valid()
    ensures r.keys == FrequentKeys(d.keys, d.values, minsup, n)
    ensures forall x :: x in r.values <==> x in d.values && Frequent(d.values[x], minsup, n)
    ensures forall x :: x in r.values ==> r.values[x] == d.values[x]
  {
    Dict(FrequentKeys(d.keys, d.values, minsup, n),
         map x | x in d.values && Frequent(d.values[x], minsup, n) :: d.values[x])
  }

  /** The items whose number of occurrences passes the threshold, in the
      order of `xs`. */
  function FrequentItems(xs: seq<string>, ts: seq<Transaction>, minsup: real): (r: seq<string>)
    ensures forall x :: x in r <==> x in xs && Frequent(Occurrences(ts, x), minsup, |ts|)
  {
    if xs == [] then []
    else
      var rest := FrequentItems(xs[1..], ts, minsup);
      assert forall x :: x in xs <==> x == xs[0] || x in xs[1..];
      if Frequent(Occurrences(ts, xs[0]), minsup, |ts|) then [xs[0]] + rest else rest
  }

  /** Filtering the singleton keys of a tally is filtering its items. */
  lemma {:induction false} FrequentSingletons(xs: seq<string>, values: map<Itemset, nat>, ts: seq<Transaction>, minsup: real)
    requires forall x :: x in xs ==> {x} in values && values[{x}] == Occurrences(ts, x)
    ensures forall k :: k in Singletons(xs) ==> k in values
    ensures FrequentKeys(Singletons(xs), values, minsup, |ts|) == Singletons(FrequentItems(xs, ts, minsup))
  {
    if xs != [] {
      FrequentSingletons(xs[1..], values, ts, minsup);
      assert Singletons(xs)[1..] == Singletons(xs[1..]);
      assert Singletons(xs)[0] == {xs[0]};
      var rest := FrequentItems(xs[1..], ts, minsup);
      if Frequent(Occurrences(ts, xs[0]), minsup, |ts|) {
        assert Singletons([xs[0]] + rest) == [{xs[0]}] + Singletons(rest);
      }
    }
  }

  /** The frequent 1-itemsets, in order of their item's first occurrence:
      the level the search starts from. */
  function FirstLevel(ts: seq<Transaction>, minsup: real): (r: seq<Itemset>)
    ensures OfSize(r, 1)
  {
    SingletonsOfSize(FrequentItems(Distinct(Flatten(ts)), ts, minsup));
    Singletons(FrequentItems(Distinct(Flatten(ts)), ts, minsup))
  }

  /** Every item of every itemset in `level`. */
  function ItemsOf(level: seq<Itemset>): (r: set<string>)
    ensures forall x :: x in level ==> x <= r
  {
    if level == [] then {}
    else
      assert forall x :: x in level ==> x == level[0] || x in level[1..];
      level[0] + ItemsOf(level[1..])
  }

  lemma {:induction false} ItemsOfWithin(level: seq<Itemset>, u: set<string>)
    requires forall x :: x in level ==> x <= u
    ensures ItemsOf(level) <= u
  {
    if level != [] {
      assert forall x :: x in level[1..] ==> x in level;
      assert level[0] in level;
      ItemsOfWithin(level[1..], u);
    }
  }

  lemma {:induction false} SubsetSize<T>(a: set<T>, b: set<T>)
    requires a <= b
    ensures |a| <= |b|
  {
    if a != {} {
      var x :| x in a;
      SubsetSize(a - {x}, b - {x});
    }
  }

  predicate OfSize(level: seq<Itemset>, k: nat)
  {
    forall x :: x in level ==> |x| == k
  }

  /** What the search needs of `generate_candidates`: from itemsets of k
      items it makes candidates of k + 1 items, drawn from their items. */
  ghost predicate Generates(gen: seq<Itemset> -> seq<Itemset>)
  {
    forall level: seq<Itemset>, k: nat, c: Itemset ::
      OfSize(level, k) && c in gen(level) ==> |c| == k + 1 && c <= ItemsOf(level)
  }

  /** What the search needs of `prune_candidates`: it keeps some candidates. */
  ghost predicate Prunes(prune: (seq<Itemset>, seq<Itemset>) -> seq<Itemset>)
  {
    forall cs: seq<Itemset>, level: seq<Itemset>, c: Itemset :: c in prune(cs, level) ==> c in cs
  }

  /** What the search needs of `count_freq`: a dict keyed by candidates. */
  ghost predicate CountsCandidates(countFreq: (seq<Transaction>, seq<Itemset>) -> Counts)
  {
    forall ts: seq<Transaction>, cs: seq<Itemset> ::
      countFreq(ts, cs).Valid() && forall c :: c in countFreq(ts, cs).values ==> c in cs
  }

  /** The helpers the search imports from `assoc_rule_mining_tools`:
      `generate_candidates`, `prune_candidates` and `count_freq`. */
  datatype SearchHelpers = SearchHelpers(
    gen: seq<Itemset> -> seq<Itemset>,
    prune: (seq<Itemset>, seq<Itemset>) -> seq<Itemset>,
    countFreq: (seq<Transaction>, seq<Itemset>) -> Counts)
  {
    /** Each helper keeps the contract the search needs of it. */
    ghost predicate Valid()
    {
      Generates(gen) && Prunes(prune) && CountsCandidates(countFreq)
    }
  }

  /** The itemsets found after a level and the counts `count_freq` gave them. */
  datatype Search = Search(itemsets: seq<Itemset>, counts: map<Itemset, nat>)

  /** What the loop of `generate_frequent_itemset` finds after the level
      `level` of k-itemsets, all made of the items `u`: each turn generates
      and prunes candidates, counts them, keeps the frequent ones in the
      order of the counted dict, and goes on from them until a level is empty. */
  function Levels(ts: seq<Transaction>, minsup: real, tools: SearchHelpers,
                  u: set<string>, level: seq<Itemset>, k: nat): (r: Search)
    requires tools.Valid()
    requires OfSize(level, k) && forall x :: x in level ==> x <= u
    ensures forall x :: x in r.counts <==> x in r.itemsets
    ensures forall x :: x in r.itemsets ==> k < |x| && x <= u
    ensures forall x :: x in r.counts ==> Frequent(r.counts[x], minsup, |ts|)
    decreases |u| - k
  {
    if level == [] then Search([], map[])
    else
      SubsetSize(level[0], u);
      ItemsOfWithin(level, u);
      CandidatesCounted(ts, tools, level, k, u);
      var counted := tools.countFreq(ts, tools.prune(tools.gen(level), level));
      var next := FrequentKeys(counted.keys, counted.values, minsup, |ts|);
      var rest := Levels(ts, minsup, tools, u, next, k + 1);
      Search(next + rest.itemsets, rest.counts + map x | x in next :: counted.values[x])
  }

  /** The levels the search finds after the first. */
  function LaterLevels(ts: seq<Transaction>, minsup: real, tools: SearchHelpers): (r: Search)
    requires tools.Valid()
    ensures forall x :: x in r.counts <==> x in r.itemsets
    ensures forall x :: x in r.itemsets ==> 1 < |x| && x <= ItemsOf(FirstLevel(ts, minsup))
  {
    Levels(ts, minsup, tools, ItemsOf(FirstLevel(ts, minsup)), FirstLevel(ts, minsup), 1)
  }

  /** What is stored so far and the levels `rest` still to come make up the
      whole search `whole` beyond the first level: the itemsets in order, and
      every count. */
  ghost predicate Splits(first: seq<Itemset>, whole: Search, rest: Search, frequent: seq<Itemset>, support: Counts)
  {
    && frequent + rest.itemsets == first + whole.itemsets
    && (forall x :: x in whole.counts <==> (x in support.values && |x| > 1) || x in rest.counts)
    && (forall x :: x in support.values && |x| > 1 ==> x in whole.counts && support.values[x] == whole.counts[x])
    && (forall x :: x in rest.counts ==> x in whole.counts && rest.counts[x] == whole.counts[x])
  }

  /** The part of the loop invariant that ties the stored itemsets and counts
      to the levels still to come. */
  ghost predicate Follows(ts: seq<Transaction>, minsup: real, tools: SearchHelpers,
                          u: set<string>, first: seq<Itemset>, whole: Search,
                          k: nat, level: seq<Itemset>, frequent: seq<Itemset>, support: Counts)
    requires tools.Valid()
    requires OfSize(level, k) && forall x :: x in level ==> x <= u
  {
    Splits(first, whole, Levels(ts, minsup, tools, u, level, k), frequent, support)
  }

  /** The search from a non-empty level is that level's frequent candidates,
      then the search from them. */
  lemma LevelsUnfold(ts: seq<Transaction>, minsup: real, tools: SearchHelpers,
                     u: set<string>, level: seq<Itemset>, k: nat, counted: Counts, next: seq<Itemset>)
    requires tools.Valid()
    requires OfSize(level, k) && (forall x :: x in level ==> x <= u) && level != []
    requires counted == tools.countFreq(ts, tools.prune(tools.gen(level), level))
    requires (forall x :: x in counted.keys ==> x in counted.values)
    requires next == FrequentKeys(counted.keys, counted.values, minsup, |ts|)
    requires OfSize(next, k + 1) && forall x :: x in next ==> x <= u
    ensures var rest := Levels(ts, minsup, tools, u, next, k + 1);
            Levels(ts, minsup, tools, u, level, k)
              == Search(next + rest.itemsets, rest.counts + map x | x in next :: counted.values[x])
  {
  }

  /** Storing the next level moves it from the levels to come to the stored ones. */
  lemma SplitsShift(first: seq<Itemset>, whole: Search, cur: Search, rest: Search,
                    frequent: seq<Itemset>, support: Counts, next: seq<Itemset>, values: map<Itemset, nat>, k: nat)
    requires Splits(first, whole, cur, frequent, support)
    requires support.Valid() && k >= 1
    requires forall x :: x in next ==> x in values
    requires OfSize(next, k + 1)
    requires forall x :: x in rest.counts ==> |x| > k + 1
    requires cur == Search(next + rest.itemsets, rest.counts + map x | x in next :: values[x])
    ensures Splits(first, whole, rest, frequent + next, PutAll(support, next, values))
  {
    var here := map x | x in next :: values[x];
    var support' := PutAll(support, next, values);
    assert frequent + next + rest.itemsets == frequent + cur.itemsets;
    forall x | x in rest.counts
      ensures x !in here && cur.counts[x] == rest.counts[x]
    {
      assert |x| > k + 1;
    }
    forall x | x in support'.values && |x| > 1
      ensures x in whole.counts && support'.values[x] == whole.counts[x]
    {
      if x in next {
        assert x in cur.counts && cur.counts[x] == here[x];
      }
    }
  }

  /** One turn of the loop stores the next level and leaves the rest to come. */
  lemma FollowsStep(ts: seq<Transaction>, minsup: real, tools: SearchHelpers,
                    u: set<string>, first: seq<Itemset>, whole: Search,
                    k: nat, level: seq<Itemset>, frequent: seq<Itemset>, support: Counts,
                    counted: Counts, next: seq<Itemset>)
    requires tools.Valid()
    requires OfSize(level, k) && (forall x :: x in level ==> x <= u) && level != [] && k >= 1
    requires support.Valid()
    requires Follows(ts, minsup, tools, u, first, whole, k, level, frequent, support)
    requires counted == tools.countFreq(ts, tools.prune(tools.gen(level), level))
    requires (forall x :: x in counted.keys ==> x in counted.values)
    requires next == FrequentKeys(counted.keys, counted.values, minsup, |ts|)
    requires OfSize(next, k + 1) && forall x :: x in next ==> x <= u
    ensures Follows(ts, minsup, tools, u, first, whole, k + 1, next,
                    frequent + next, PutAll(support, next, counted.values))
  {
    var rest := Levels(ts, minsup, tools, u, next, k + 1);
    LevelsUnfold(ts, minsup, tools, u, level, k, counted, next);
    SplitsShift(first, whole, Levels(ts, minsup, tools, u, level, k), rest,
                frequent, support, next, counted.values, k);
  }

  /** The loop invariant of `generate_frequent_itemset`, at level `k`. */
  ghost predicate Levelwise(ts: seq<Transaction>, minsup: real, first: seq<Itemset>, support1: Counts,
                            u: set<string>, k: nat, level: seq<Itemset>,
                            frequent: seq<Itemset>, support: Counts)
  {
    && k >= 1
    && OfSize(level, k)
    && NoDuplicates(level)
    && (forall x :: x in level ==> x in support.values)
    && support.Valid()
    && (forall x :: x in frequent <==> x in support.values)
    && NoDuplicates(frequent)
    && (forall x :: x in support.values ==> Frequent(support.values[x], minsup, |ts|) && x <= u)
    && (forall x :: x in support.values && |x| <= 1 ==> x in support1.values && support.values[x] == support1.values[x])
    && (forall x :: x in support1.values ==> x in support.values)
    && |frequent| >= |first| && frequent[..|first|] == first
    && (first == [] ==> frequent == [] && level == [])
    && (forall i, j :: 0 <= i < j < |frequent| ==> |frequent[i]| <= |frequent[j]|)
    && (forall i :: 0 <= i < |frequent| ==> 1 <= |frequent[i]| <= k)
  }

  /** Adding the next level, of itemsets one item larger, keeps the invariant. */
  lemma NextLevel(ts: seq<Transaction>, minsup: real, first: seq<Itemset>, support1: Counts,
                  u: set<string>, k: nat, level: seq<Itemset>, frequent: seq<Itemset>, support: Counts,
                  next: seq<Itemset>, counted: Counts)
    requires Levelwise(ts, minsup, first, support1, u, k, level, frequent, support)
    requires level != []
    requires forall x :: x in next ==> x in counted.values && Frequent(counted.values[x], minsup, |ts|)
    requires NoDuplicates(next)
    requires OfSize(next, k + 1) && forall x :: x in next ==> x <= u
    ensures Levelwise(ts, minsup, first, support1, u, k + 1, next, frequent + next, PutAll(support, next, counted.values))
  {
    LevelsAppended(frequent, next, k);
    StoredAfterLevel(ts, minsup, support1, u, k, frequent, support, next, counted);
    assert (frequent + next)[..|first|] == frequent[..|first|];
  }

  /** Appending a level of larger itemsets keeps the list free of repeats and
      ordered by size. */
  lemma LevelsAppended(frequent: seq<Itemset>, next: seq<Itemset>, k: nat)
    requires NoDuplicates(frequent) && NoDuplicates(next)
    requires forall i :: 0 <= i < |frequent| ==> 1 <= |frequent[i]| <= k
    requires forall i, j :: 0 <= i < j < |frequent| ==> |frequent[i]| <= |frequent[j]|
    requires OfSize(next, k + 1)
    ensures NoDuplicates(frequent + next)
    ensures forall i, j :: 0 <= i < j < |frequent + next| ==> |(frequent + next)[i]| <= |(frequent + next)[j]|
    ensures forall i :: 0 <= i < |frequent + next| ==> 1 <= |(frequent + next)[i]| <= k + 1
  {
    var all := frequent + next;
    assert forall j :: |frequent| <= j < |all| ==> all[j] == next[j - |frequent|] && all[j] in next;
  }

  /** Storing the counts of a level of itemsets of two or more items keeps the
      stored counts above the threshold, within the items of the first level,
      and leaves the singletons alone. */
  lemma StoredAfterLevel(ts: seq<Transaction>, minsup: real, support1: Counts, u: set<string>, k: nat,
                         frequent: seq<Itemset>, support: Counts, next: seq<Itemset>, counted: Counts)
    requires k >= 1
    requires support.Valid()
    requires forall x :: x in frequent <==> x in support.values
    requires forall x :: x in support.values ==> Frequent(support.values[x], minsup, |ts|) && x <= u
    requires forall x :: x in support.values && |x| <= 1 ==> x in support1.values && support.values[x] == support1.values[x]
    requires forall x :: x in support1.values ==> x in support.values
    requires forall x :: x in next ==> x in counted.values && Frequent(counted.values[x], minsup, |ts|)
    requires OfSize(next, k + 1) && forall x :: x in next ==> x <= u
    ensures var after := PutAll(support, next, counted.values);
      && after.Valid()
      && (forall x :: x in next ==> x in after.values)
      && (forall x :: x in frequent + next <==> x in after.values)
      && (forall x :: x in after.values ==> Frequent(after.values[x], minsup, |ts|) && x <= u)
      && (forall x :: x in after.values && |x| <= 1 ==> x in support1.values && after.values[x] == support1.values[x])
      && (forall x :: x in support1.values ==> x in after.values)
  {
    var after := PutAll(support, next, counted.values);
    StoredMembers(frequent, support, next, counted.values);
    forall x | x in after.values
      ensures Frequent(after.values[x], minsup, |ts|) && x <= u
    {
      if x in next {
        assert after.values[x] == counted.values[x];
      } else {
        assert after.values[x] == support.values[x];
      }
    }
    forall x | x in after.values && |x| <= 1
      ensures x in support1.values && after.values[x] == support1.values[x]
    {
      assert x !in next;
    }
  }

  /** After storing a level the dict's keys are the itemsets listed so far. */
  lemma StoredMembers(frequent: seq<Itemset>, support: Counts, next: seq<Itemset>, values: map<Itemset, nat>)
    requires support.Valid()
    requires forall x :: x in frequent <==> x in support.values
    requires forall x :: x in next ==> x in values
    ensures var after := PutAll(support, next, values);
      && after.Valid()
      && (forall x :: x in frequent + next <==> x in after.values)
  {
  }

  /** `generate_frequent_itemset(transactions, minsup)`: the frequent itemsets,
      level by level, and the dict of their counts. */
  method GenerateFrequentItemsets(ts: seq<Transaction>, minsup: real, tools: SearchHelpers)
    returns (frequent: seq<Itemset>, support: Counts)
    requires tools.Valid()
    ensures support.Valid()
    ensures support.keys == frequent
    ensures forall x :: x in frequent <==> x in support.values
    ensures NoDuplicates(frequent)
    ensures forall x :: x in support.values ==> Frequent(support.values[x], minsup, |ts|)
    ensures forall x :: x in support.values ==> x <= ItemsOf(FirstLevel(ts, minsup))
    ensures forall item :: {item} in support.values <==> Occurrences(ts, item) > 0 && Frequent(Occurrences(ts, item), minsup, |ts|)
    ensures forall item :: {item} in support.values ==> support.values[{item}] == Occurrences(ts, item)
    ensures |frequent| >= |FirstLevel(ts, minsup)| && frequent[..|FirstLevel(ts, minsup)|] == FirstLevel(ts, minsup)
    ensures FirstLevel(ts, minsup) == [] ==> frequent == []
    ensures forall i, j :: 0 <= i < j < |frequent| ==> 1 <= |frequent[i]| <= |frequent[j]|
    ensures frequent == FirstLevel(ts, minsup) + LaterLevels(ts, minsup, tools).itemsets
    ensures forall x :: (x in support.values && |x| > 1) <==> x in LaterLevels(ts, minsup, tools).counts
    ensures forall x :: x in LaterLevels(ts, minsup, tools).counts ==>
              support.values[x] == LaterLevels(ts, minsup, tools).counts[x]
  {
    var counts := CountItems(ts);
    support := KeepFrequent(counts, minsup, |ts|);
    var level := support.keys;
    frequent := level;
    var k := 1;
    ghost var first := FirstLevel(ts, minsup);
    ghost var u := ItemsOf(first);
    ghost var support1 := support;
    FirstLevelKeys(ts, minsup, counts, support);
    FirstLevelShape(ts, minsup, support);
    StartInvariant(ts, minsup, support, u);
    FirstLevelSingletons(ts, minsup, counts, support);
    FirstLevelCounts(ts, minsup, counts, support);
    ghost var whole := LaterLevels(ts, minsup, tools);
    SearchStarts(ts, minsup, tools, support);
    while level != []
      invariant Levelwise(ts, minsup, first, support1, u, k, level, frequent, support)
      invariant forall x :: x in level ==> x <= u
      invariant Follows(ts, minsup, tools, u, first, whole, k, level, frequent, support)
      invariant support.keys == frequent
      decreases |u| - k
    {
      SubsetSize(level[0], u);
      var candidates := tools.gen(level);
      candidates := tools.prune(candidates, level);
      ItemsOfWithin(level, u);
      CandidatesCounted(ts, tools, level, k, u);
      var counted := tools.countFreq(ts, candidates);
      var next := FrequentKeys(counted.keys, counted.values, minsup, |ts|);
      NextLevel(ts, minsup, first, support1, u, k, level, frequent, support, next, counted);
      FollowsStep(ts, minsup, tools, u, first, whole, k, level, frequent, support, counted, next);
      NewKeys(frequent, support, next, k);
      PutAllAppends(support, next, counted.values);
      support := PutAll(support, next, counted.values);
      frequent := frequent + next;
      level := next;
      k := k + 1;
    }
    LevelsDone(ts, minsup, support1, k, frequent, support);
  }

  /** The itemsets of the next level are larger than every stored one, so
      none of them is stored yet. */
  lemma NewKeys(frequent: seq<Itemset>, support: Counts, next: seq<Itemset>, k: nat)
    requires forall x :: x in frequent <==> x in support.values
    requires forall i :: 0 <= i < |frequent| ==> 1 <= |frequent[i]| <= k
    requires OfSize(next, k + 1)
    ensures forall x :: x in next ==> x !in support.values
  {
    assert forall i :: 0 <= i < |frequent| ==> frequent[i] !in next;
  }

  /** Before the loop nothing beyond the first level is stored, and the whole
      search is still to come. */
  lemma SearchStarts(ts: seq<Transaction>, minsup: real, tools: SearchHelpers,
                     support: Counts)
    requires tools.Valid()
    requires support.keys == FirstLevel(ts, minsup) && support.Valid()
    ensures Follows(ts, minsup, tools, ItemsOf(FirstLevel(ts, minsup)), FirstLevel(ts, minsup),
                    LaterLevels(ts, minsup, tools),
                    1, support.keys, support.keys, support)
  {
    var first := FirstLevel(ts, minsup);
    assert forall x :: x in support.values ==> x in first;
  }

  /** The first level establishes the loop invariant. */
  lemma StartInvariant(ts: seq<Transaction>, minsup: real, support: Counts, u: set<string>)
    requires support.Valid()
    requires OfSize(support.keys, 1)
    requires forall x :: x in support.values ==> Frequent(support.values[x], minsup, |ts|) && x <= u
    ensures Levelwise(ts, minsup, support.keys, support, u, 1, support.keys, support.keys, support)
  {
    assert support.keys[..|support.keys|] == support.keys;
  }

  /** When the loop stops, the invariant gives what `generate_frequent_itemset`
      returns. */
  lemma LevelsDone(ts: seq<Transaction>, minsup: real, support1: Counts, k: nat,
                   frequent: seq<Itemset>, support: Counts)
    requires Levelwise(ts, minsup, FirstLevel(ts, minsup), support1, ItemsOf(FirstLevel(ts, minsup)), k, [], frequent, support)
    requires forall item :: {item} in support1.values <==> Occurrences(ts, item) > 0 && Frequent(Occurrences(ts, item), minsup, |ts|)
    requires forall item :: {item} in support1.values ==> support1.values[{item}] == Occurrences(ts, item)
    ensures forall item :: {item} in support.values <==> Occurrences(ts, item) > 0 && Frequent(Occurrences(ts, item), minsup, |ts|)
    ensures forall item :: {item} in support.values ==> support.values[{item}] == Occurrences(ts, item)
    ensures forall i, j :: 0 <= i < j < |frequent| ==> 1 <= |frequent[i]| <= |frequent[j]|
  {
  }

  /** The counts `count_freq` reports for the pruned candidates of a level of
      k-itemsets are for (k + 1)-itemsets made of the level's items. */
  lemma CandidatesCounted(ts: seq<Transaction>, tools: SearchHelpers, level: seq<Itemset>, k: nat, u: set<string>)
    requires tools.Valid()
    requires OfSize(level, k) && ItemsOf(level) <= u
    ensures tools.countFreq(ts, tools.prune(tools.gen(level), level)).Valid()
    ensures forall x :: x in tools.countFreq(ts, tools.prune(tools.gen(level), level)).values ==> |x| == k + 1 && x <= u
  {
    var cs := tools.prune(tools.gen(level), level);
    forall x | x in tools.countFreq(ts, cs).values
      ensures |x| == k + 1 && x <= u
    {
      assert x in cs;
      assert x in tools.gen(level);
    }
  }

  /** The first level is the frequent singletons, in order of first occurrence. */
  lemma FirstLevelKeys(ts: seq<Transaction>, minsup: real, counts: Counts, support: Counts)
    requires counts.Valid()
    requires counts.keys == Singletons(Distinct(Flatten(ts)))
    requires forall item :: {item} in counts.values ==> counts.values[{item}] == Occurrences(ts, item)
    requires support == KeepFrequent(counts, minsup, |ts|)
    ensures support.keys == FirstLevel(ts, minsup)
  {
    var d := Distinct(Flatten(ts));
    CountedDistinct(ts, counts);
    FrequentSingletons(d, counts.values, ts, minsup);
  }

  /** The first level holds singletons, made of its own items. */
  lemma FirstLevelShape(ts: seq<Transaction>, minsup: real, support: Counts)
    requires support.Valid()
    requires support.keys == FirstLevel(ts, minsup)
    ensures OfSize(support.keys, 1)
    ensures forall x :: x in support.values ==> x <= ItemsOf(FirstLevel(ts, minsup))
  {
    SingletonsOfSize(FrequentItems(Distinct(Flatten(ts)), ts, minsup));
  }

  /** The singletons kept at the first level are those of the items that occur
      often enough. */
  lemma FirstLevelSingletons(ts: seq<Transaction>, minsup: real, counts: Counts, support: Counts)
    requires counts.Valid()
    requires counts.keys == Singletons(Distinct(Flatten(ts)))
    requires forall item :: {item} in counts.values ==> counts.values[{item}] == Occurrences(ts, item)
    requires forall x :: x in support.values <==> x in counts.values && Frequent(counts.values[x], minsup, |ts|)
    ensures forall item :: {item} in support.values <==> Occurrences(ts, item) > 0 && Frequent(Occurrences(ts, item), minsup, |ts|)
  {
    CountedOccurring(ts, counts);
  }

  /** The first level keeps each singleton's number of occurrences. */
  lemma FirstLevelCounts(ts: seq<Transaction>, minsup: real, counts: Counts, support: Counts)
    requires forall item :: {item} in counts.values ==> counts.values[{item}] == Occurrences(ts, item)
    requires forall x :: x in support.values ==> x in counts.values && support.values[x] == counts.values[x]
    ensures forall item :: {item} in support.values ==> support.values[{item}] == Occurrences(ts, item)
  {
  }

  /** Each item seen has its singleton counted, with its number of occurrences. */
  lemma CountedDistinct(ts: seq<Transaction>, counts: Counts)
    requires counts.Valid()
    requires counts.keys == Singletons(Distinct(Flatten(ts)))
    requires forall item :: {item} in counts.values ==> counts.values[{item}] == Occurrences(ts, item)
    ensures forall x :: x in Distinct(Flatten(ts)) ==> {x} in counts.values && counts.values[{x}] == Occurrences(ts, x)
  {
    var d := Distinct(Flatten(ts));
    forall x | x in d
      ensures {x} in counts.values
    {
      var i :| 0 <= i < |d| && d[i] == x;
      assert counts.keys[i] == {x};
    }
  }

  /** The singletons counted are those of the items that occur. */
  lemma CountedOccurring(ts: seq<Transaction>, counts: Counts)
    requires counts.Valid()
    requires counts.keys == Singletons(Distinct(Flatten(ts)))
    ensures forall item :: {item} in counts.values <==> Occurrences(ts, item) > 0
  {
    var d := Distinct(Flatten(ts));
    forall item
      ensures {item} in counts.values <==> item in d
    {
      if {item} in counts.values {
        var i :| 0 <= i < |d| && {d[i]} == {item};
        assert d[i] in {item};
      }
      if item in d {
        var i :| 0 <= i < |d| && d[i] == item;
        assert counts.keys[i] == {item};
      }
    }
  }

  lemma SingletonsOfSize(xs: seq<string>)
    ensures OfSize(Singletons(xs), 1)
  {
    var r := Singletons(xs);
    forall x | x in r
      ensures |x| == 1
    {
      var i :| 0 <= i < |r| && r[i] == x;
    }
  }
}
