# Clustering and association-rule mining, modelled in Dafny

This project models two of the repository's data-mining scripts and proves properties of them.

**DBSCAN** (`dbscan/dbscan-template.py`). The model covers `dbscan`, `_expand_cluster` and
`_region_query`.
- Points are the indices `0 .. n-1`. The distance test "point p lies within eps of point q"
  is a relation `near(p, q)`, required to be symmetric.
- During the run a label is one of three things:
  - `0`, meaning unclassified (the script's `UNCLASSIFIED = False`, which compares equal to 0);
  - `-1`, meaning noise;
  - a cluster number `1, 2, ...`.
- The last pass shifts the cluster numbers down to start at 0. The core points are returned
  sorted.
- Module `Dbscan` proves the following for every input:
  - each label is noise or a cluster number below the cluster count;
  - a noise point is never dense;
  - the core list is exactly the dense points, in strictly increasing order;
  - every neighbour of a core point is clustered, in that core point's cluster or an earlier one,
    so a border point takes the lowest-numbered cluster that has a core point near it;
  - neighbouring core points share a label;
  - the cluster numbers are exactly those carried by core points;
  - clusters are numbered in the order of their first core point;
  - every clustered non-core point neighbours a core point of its own cluster;
  - no point is left unclassified;
  - two points with one cluster label are density-connected: both are reachable, through a
    chain of dense points each within eps of the previous one, from the point that opened the
    cluster; two core points with one label reach each other this way.
- Module `Geometry` instantiates the relation with points of integer coordinates. The test is
  `norm(X[p] - X[q]) <= eps`, stated on the squared distance.

**Frequent itemsets and association rules** (`association-rule-mining/assoc-rule-miner-template.py`).
- The per-line transform of `read_csv` is `line.strip().split(',')[:-1]`, with Python's meaning
  of `strip` and `split`.
- `generate_frequent_itemset`:
  - the first level is counted with a dict that keeps insertion order;
  - the threshold is `freq >= minsup * no_of_transactions`;
  - the search then proceeds level by level until a level comes back empty;
  - `Apriori.Levels` states that search as a recursive function of the helpers, and the
    returned list and dict are proved to be exactly the first level followed by what it finds.
- The loop of `generate_association_rules` mines rules only from itemsets of more than one
  item.
- The text that `main` writes for each frequent itemset and each rule is modelled too.
- The helpers imported from `assoc_rule_mining_tools` are parameters, bundled as
  `Apriori.SearchHelpers` and `Rules.RuleHelpers`. That module is not part of this model. Each
  of its functions is taken with the small contract the search needs:
  - `generate_candidates` turns itemsets of k items into candidates of k+1 items, drawn from
    their items;
  - `prune_candidates` keeps some of its candidates;
  - `count_freq` returns a dict keyed by candidates.

Modules:
- `Seqs`: maps, ordering and the list sort.
- `Text`: Python's `strip`, `split`, `join` and `[:-1]`.
- `Transactions`: `read_csv`'s line transform.
- `Dicts`: dicts that keep insertion order.
- `Apriori`: the frequent-itemset search.
- `Rules`: rule mining.
- `Output`: the lines `main` writes.
- `Dbscan` and `Geometry`: the clustering.

## Model

| member | source | states |
|---|---|---|
| Dbscan.Space.NeighboursBelow | dbscan/dbscan-template.py:86-91 | scanning the indices below k keeps exactly those within eps of q, in strictly increasing order |
| Dbscan.RegionQuerySpec | dbscan/dbscan-template.py:86-91 | the region of q is exactly the points within eps of q, each listed once, in increasing index order |
| Dbscan.ExpandCluster | dbscan/dbscan-template.py:71-84 | expanding from a dense unclassified point gives it cluster c and relabels only unclassified or noise points, only to c; afterwards every neighbour of a dense point of cluster c is clustered, and dense ones are in c; no noise point is dense; the core list holds, once each, the dense clustered points other than the seed; every clustered non-dense point neighbours a dense point of its cluster; every point of cluster c is density-reachable from the seed |
| Dbscan.ExpandStep | dbscan/dbscan-template.py:75-84 | one work list entry: a point already in a cluster is passed over with nothing changed; a noise or unclassified point joins cluster c; the expansion invariant is kept, every point of c and every queued point stays reachable from the seed, and either fewer points are left unclassified or the work list is unchanged |
| Dbscan.VisitAll | dbscan/dbscan-template.py:56-65 | after the main loop every point is labelled, clusters 1 .. c are finished and numbered in the order of their seeds, and every clustered point is reachable from the seed of its cluster |
| Dbscan.Visit | dbscan/dbscan-template.py:56-65 | one turn of the main loop keeps the labelling invariant; a labelled point is passed over with nothing changed; an unclassified sparse point becomes noise and nothing else changes; an unclassified dense point opens exactly one new cluster, takes its number, is listed as core last, and only unclassified or noise points join it, all density-reachable from the point |
| Dbscan.OpenCluster | dbscan/dbscan-template.py:62-65 | a dense unclassified point opens cluster c+1 and takes its number; only unclassified or noise points join it, each density-reachable from the point; the cluster is closed once expanded, and the point is listed as core last |
| Dbscan.Conclude | dbscan/dbscan-template.py:66-67 | after sorting and renumbering, the core list is the dense points in increasing order; the labels run from 0 and each names a cluster that has a core point |
| Dbscan.Cluster | dbscan/dbscan-template.py:50-68 | the whole of `dbscan`: the labels are the renumbering of a labelling that leaves no point unclassified; every label is noise or a cluster below the count; noise is never dense; the core list is exactly the dense points, strictly increasing; neighbours of a core point are clustered, never in a later cluster than it, and core neighbours share a label, so a border point takes the lowest-numbered cluster with a core point near it; clusters are numbered in the order of their first core point; every clustered non-core point neighbours a core point of its cluster; points with one label are density-connected, and core points with one label reach each other |
| Dbscan.ReachStep | dbscan/dbscan-template.py:80-83 | the neighbours of a dense point reachable from o are reachable from o too, which is why the expansion queues them |
| Dbscan.CoreReachable | dbscan/dbscan-template.py:71-84 | with a symmetric distance, two dense points that are density-connected reach each other through dense points |
| Seqs.Sort | dbscan/dbscan-template.py:66 | the sorted core list is in ascending order and is a permutation of the listed points |
| Seqs.SortedPermutationUnique | dbscan/dbscan-template.py:66 | a sorted permutation is unique, so any sorting algorithm gives the same list as the model's sort |
| Seqs.SortStrict | dbscan/dbscan-template.py:66 | sorting a list without repeats gives a strictly increasing list |
| Geometry.Problem | dbscan/dbscan-template.py:86-91 | the clustering input built from points: p is near q exactly when both are points, eps is at least 0, and the squared distance is at most eps squared |
| Geometry.SqDistSymmetric | dbscan/dbscan-template.py:89 | the distance from p to q is the distance from q to p |
| Geometry.ProblemSymmetric | dbscan/dbscan-template.py:89 | the distance test of a point set is symmetric, which the expansion needs |
| Geometry.RegionContainsQuery | dbscan/dbscan-template.py:38 | for eps at least 0, the region of a point contains the point itself, as the docstring says of minpts |
| Geometry.NegativeEpsEmptyRegion | dbscan/dbscan-template.py:89 | a negative eps makes every region empty |
| Geometry.ClusterPoints | dbscan/dbscan-template.py:33-68 | `dbscan` on concrete points: the core points are exactly those with at least minpts points within eps; points within eps of a core point are clustered, never in a later cluster than it, and in its cluster when they are core themselves; noise points have fewer than minpts points within eps; points with one label are density-connected, and core points with one label reach each other; the core list is strictly increasing; the cluster numbers are exactly those of core points, numbered in the order of their first core point |
| Text.StripSpec | association-rule-mining/assoc-rule-miner-template.py:20 | `strip()` leaves no whitespace at either end, removes only leading and trailing whitespace, and keeps the middle unchanged |
| Text.StripExact | association-rule-mining/assoc-rule-miner-template.py:20 | whitespace around a trimmed string is exactly what `strip()` removes |
| Text.StripIdempotent | association-rule-mining/assoc-rule-miner-template.py:20 | stripping twice is stripping once |
| Text.SplitCount | association-rule-mining/assoc-rule-miner-template.py:20 | `split(sep)` gives one field more than there are separators |
| Text.SplitFieldsFree | association-rule-mining/assoc-rule-miner-template.py:20 | no field of a split contains the separator |
| Text.SplitJoin | association-rule-mining/assoc-rule-miner-template.py:20 | joining the fields of a split gives back the string |
| Text.JoinSplit | association-rule-mining/assoc-rule-miner-template.py:20 | splitting a join of separator-free parts gives back the parts |
| Text.Chop | association-rule-mining/assoc-rule-miner-template.py:119 | `s[:-1]` is empty on an empty string, and otherwise it is `s` without its last character |
| Transactions.ParseLineFields | association-rule-mining/assoc-rule-miner-template.py:20 | a transaction has as many items as the stripped line has commas, and no item holds a comma |
| Transactions.ParseLineLayout | association-rule-mining/assoc-rule-miner-template.py:20 | the items, each followed by a comma, are the stripped line up to its last comma; the rest is dropped |
| Transactions.ParseLineOf | association-rule-mining/assoc-rule-miner-template.py:20 | conversely, a stripped line made of comma-terminated comma-free fields and a comma-free tail parses to exactly those fields |
| Transactions.ReadTransactions | association-rule-mining/assoc-rule-miner-template.py:16-21 | one transaction per line, in line order, each the parse of its line |
| Transactions.ReadTransactionsAppend | association-rule-mining/assoc-rule-miner-template.py:16-21 | reading a file in two pieces gives the transactions of each piece in turn |
| Transactions.TerminatedLineRoundTrip | association-rule-mining/assoc-rule-miner-template.py:20 | a line written as `item,` for each comma-free item, newline-terminated and not starting with whitespace, reads back as those items |
| Transactions.JoinedLineLosesLast | association-rule-mining/assoc-rule-miner-template.py:20 | a line whose items are joined by commas, without a trailing comma, loses its last item |
| Dicts.Dict.Put | association-rule-mining/assoc-rule-miner-template.py:48-51 | `d[k] = v` sets the entry; a new key is listed last and a present key keeps its place |
| Dicts.PutAll | association-rule-mining/assoc-rule-miner-template.py:63-64 | after `for k in ks: d[k] = vals[k]`, the keys are the old keys and `ks`; the entries for `ks` come from `vals` and the others are unchanged; the old keys are listed first, in their old order (the new keys follow in the order of `ks`: `Dicts.PutAllAppends`) |
| Dicts.PutAllAppends | association-rule-mining/assoc-rule-miner-template.py:63-64 | storing keys that are not yet in the dict, each once, lists them after the old keys in the order they are stored |
| Apriori.CountItems | association-rule-mining/assoc-rule-miner-template.py:45-51 | the counting loop keys the singleton of each item in order of first occurrence, and stores how often the item occurs across all transactions |
| Apriori.FrequentKeys | association-rule-mining/assoc-rule-miner-template.py:62 | the list comprehension keeps exactly the keys whose count passes the threshold, and never repeats a key |
| Apriori.KeepFrequent | association-rule-mining/assoc-rule-miner-template.py:52 | the dict comprehension keeps exactly the entries whose count passes the threshold, with their counts, in the dict's order |
| Apriori.FrequentSingletons | association-rule-mining/assoc-rule-miner-template.py:52-53 | filtering the singleton keys of the tally is filtering the items by their occurrence counts |
| Apriori.GenerateFrequentItemsets | association-rule-mining/assoc-rule-miner-template.py:40-66 | the result is the frequent singletons followed by the itemsets the level-wise search finds; the dict holds the singletons with their occurrence counts and the later itemsets with the counts `count_freq` gave them; the dict's keys are listed exactly in the order of the result, each once; every stored count passes the threshold; every itemset uses only frequent items; `{item}` is stored exactly when the item occurs and its count passes the threshold; itemset sizes never decrease along the list |
| Apriori.Levels | association-rule-mining/assoc-rule-miner-template.py:55-64 | the levels found from a level of k-itemsets are all larger than k items, made of the level's items, stored with counts that pass the threshold, and the stored counts are exactly for the listed itemsets |
| Apriori.LaterLevels | association-rule-mining/assoc-rule-miner-template.py:52-64 | the search beyond the first level lists itemsets of at least two items, made of frequent items, each with a count |
| Rules.FirstConsequents | association-rule-mining/assoc-rule-miner-template.py:91 | when a frozenset is iterated once per item, the 1-item consequents are the singletons of the itemset's items, without repeats |
| Rules.RulesFor | association-rule-mining/assoc-rule-miner-template.py:90-95 | an itemset of at most one item yields no rules |
| Rules.MinedFromLarge | association-rule-mining/assoc-rule-miner-template.py:89-95 | every mined rule comes from an itemset of more than one item |
| Rules.MineRulesAppend | association-rule-mining/assoc-rule-miner-template.py:89-95 | mining a list of itemsets in two parts gives the rules of each part in turn |
| Rules.OnlyLargeItemsetsMined | association-rule-mining/assoc-rule-miner-template.py:90 | dropping the itemsets of at most one item changes no rule |
| Rules.MineAll | association-rule-mining/assoc-rule-miner-template.py:89-95 | the loop collects the rules of the large itemsets, in the order of the itemsets |
| Rules.GenerateAssociationRules | association-rule-mining/assoc-rule-miner-template.py:85-96 | the itemsets and counts are those of the frequent-itemset search on the transactions, and the dict lists its keys in the order of the itemsets, so the dict handed to the helpers is determined too; the rules are those of the frequent itemsets of more than one item, in order; every rule comes from a stored frequent itemset of more than one item |
| Output.FormatItemset | association-rule-mining/assoc-rule-miner-template.py:113-121 | every itemset line ends in `}` and a newline; an empty itemset would be written as a lone `}` |
| Output.ItemsetLine | association-rule-mining/assoc-rule-miner-template.py:113-121 | a non-empty itemset is written as its items joined by commas, in braces |
| Output.ItemsetLineRoundTrip | association-rule-mining/assoc-rule-miner-template.py:113-121 | splitting the text between the braces at commas gives the items back when none holds a comma |
| Output.FormatRule | association-rule-mining/assoc-rule-miner-template.py:131-143 | every rule line ends in `}` and a newline |
| Output.RuleTextPlain | association-rule-mining/assoc-rule-miner-template.py:133-139 | elements other than `=>` are each appended followed by a comma |
| Output.RuleLine | association-rule-mining/assoc-rule-miner-template.py:131-143 | a rule with non-empty sides is written as `{a} => {c}`, each side joined by commas |
| Output.RuleWithoutMarker | association-rule-mining/assoc-rule-miner-template.py:131-143 | a rule list without `=>` is written exactly like an itemset |

## Left out

- Gradient-boosted regression trees: not part of this model. Only the clustering and the
  itemset scripts are modelled.
- File reading and writing, `sys.argv` handling, plotting and the `read_data` loader: these
  are I/O. The models start from the list of lines and end at the text of each output line.
- Geometry.SqDist: compares only the coordinates two points share. The script's points are the
  rows of one NumPy array, so all of them have the same number of coordinates.
- Geometry.Problem: coordinates are integers and eps is an exact real. The script's floats, the
  square root and rounding are not modelled. For eps >= 0, comparing squared distances is the
  same test as comparing distances.
- Apriori.Frequent: `minsup * no_of_transactions` is computed on exact reals, not floats.
- The docstring example of `dbscan` numbers the clusters differently from what the code
  computes, and it depends on float rounding at distance exactly eps. The model follows the
  code.
- `generate_candidates`, `prune_candidates`, `count_freq`, `prune_consequents` and `ap_genrules`:
  their module is not part of this model.
  - They are parameters, constrained only by the contracts above.
  - The termination of the level-wise loop rests on the contract of `generate_candidates`.
- Rules.RulesFor: what rules are found, and confidence, are not modelled, because they depend
  on `prune_consequents` and `ap_genrules`.
- The iteration order of a `frozenset` is a parameter (`order` in `Rules.RuleHelpers`).
  `Rules.Enumerates` states what Python guarantees of it: each item once. `Output` takes the
  items already listed in that order.
- Dbscan.Cluster and Geometry.ClusterPoints also return the number of clusters, and
  `Dbscan.Cluster` returns the labels before renumbering as a ghost value. The script returns
  only the labels and the core points; the extra results let the contracts name what they
  state.
- Rules.GenerateAssociationRules also returns the frequent itemsets and their counts, so that
  its contract can name them. The script returns only the rules.
- In `_expand_cluster`, the script extends the caller's `neighbor_pts` list in place. The model
  uses a local work list, and nothing reads the extended list afterwards.

Behaviours of the code worth knowing, which the model keeps:
- a line without a trailing comma loses its last item (`Transactions.JoinedLineLosesLast`);
- an empty itemset would be written as `}` and a newline (`Output.FormatItemset`);
- an item that is literally `=>` would be read as the rule marker when a rule is written.
