# kNN classifier and list helpers of CodeBuff, in Dafny

CodeBuff formats source code by learning from a corpus. Each formatting decision is a
k-nearest-neighbour classification over feature vectors. This project models that
classifier engine (`kNNClassifier.java`) and the generic list helpers of `BuffUtils.java`,
and proves what they compute.

A query goes through four stages:

1. **`distances`** builds one `Neighbor(category, distance, corpusVectorIndex)` per corpus row.
2. **`kNN`** sorts those neighbours stably by distance and copies out the first `k`.
3. **`votes`** walks the nearest neighbours and gives each one's category a vote. It stops
   at the first neighbour farther than the distance threshold.
4. **`classify`** returns the category with the most votes, or `0` when nobody voted.

How the Java is represented:

- The class `KnnClassifier` holds the corpus `X`, the labels `Y`, the `categorical` mask and
  the `dumpVotes` switch.
- The abstract metric `distance(int[], int[])` is a function value returning a `real`. It is
  given to the constructor.
- `Arrays.sort` is an in-place insertion sort on the array (`Neighbors.SortByDistance`). It
  is proved equal to the functional stable sort `Neighbors.StableSort`.
- `Arrays.copyOfRange` is `Neighbors.CopyOfRange`. It pads with `None` (Java's `null`) past
  the end of the array and refuses a negative length.
- A thrown exception is the `Err` side of a `Result`:
  - `IndexOutOfBounds` when `Y` is shorter than `X`;
  - `IllegalArgument` for `k < 0`;
  - `NullPointer` when `votes` reaches a `null` pad.
- The walk of `votes` is specified twice, and the two are proved to agree:
  - `Voting.Tally` gives the multiset of categories;
  - `Voting.Ballots` gives the same votes in walk order.
- The bag `votes` fills is `Voting.HashBag`: a count per category plus the key iteration
  order.
- `HashMap` does not specify its iteration order. The model fixes it as the order in which
  categories first received a vote. The loop of `votes` is the method `Voting.CountVotes`.
  It is proved to return `Voting.BagOf` of the ballots: one `add` per ballot, with keys in
  first-vote order.
- `classify` is proved to return a most-voted category. Its strict `>` scan is proved to
  return the first most-voted key of that bag, so a tie goes to the category voted for first.

The `BuffUtils` helpers are methods over sequences:

- Java's `Predicate` and `Function` arguments are total function values.
- A `null` list is `None`, and a `null` array is `null`.
- `sum` works on the 32-bit newtype `int32` and wraps around explicitly.
- The functional `BuffUtils.Filter` specifies both `filter` overloads and `findFirst`.

For `k` larger than the corpus, `Arrays.copyOfRange` pads `kNN`'s result with `null`. So
`votes` throws a `NullPointerException` whenever every corpus row is within the threshold.
`Classifier.KnnClassifier.VotesPastCorpus` states exactly when.

## Model

| member | source | states |
|---|---|---|
| Classifier.KnnClassifier.constructor | java/src/org/antlr/codebuff/kNNClassifier.java:37-42 | stores the corpus, the labels, the categorical mask and the metric; `dumpVotes` starts off |
| Classifier.KnnClassifier.Distances | java/src/org/antlr/codebuff/kNNClassifier.java:108-116 | a fresh array of `X.size()` neighbours whose entry `i` is `(Y[i], distance(X[i], unknown), i)`; `k` plays no part; throws index-out-of-bounds exactly when `Y` is shorter than `X` |
| Neighbors.InsertStep | java/src/org/antlr/codebuff/kNNClassifier.java:103-104 | one pass of the in-place sort: the prefix `a[..i+1]` becomes the insertion of `a[i]` into `a[..i]`, and the rest of the array is untouched |
| Neighbors.SortByDistance | java/src/org/antlr/codebuff/kNNClassifier.java:103-104 | sorting the neighbour array in place leaves exactly `StableSort` of its old contents |
| Neighbors.InsertAt | java/src/org/antlr/codebuff/kNNClassifier.java:103-104 | a new neighbour lands right after the last neighbour that is not farther than it |
| Neighbors.InsertPermutes | java/src/org/antlr/codebuff/kNNClassifier.java:103-104 | insertion adds exactly the new neighbour: the result is a permutation of the old list plus it |
| Neighbors.InsertSorted | java/src/org/antlr/codebuff/kNNClassifier.java:103-104 | insertion keeps a distance-sorted list sorted |
| Neighbors.StableSortSortedPermutation | java/src/org/antlr/codebuff/kNNClassifier.java:103-104 | the sort returns a permutation of its input whose distances never decrease |
| Neighbors.InsertAtDistance | java/src/org/antlr/codebuff/kNNClassifier.java:103-104 | insertion appends the new neighbour to those at its own distance and changes no other distance class |
| Neighbors.StableSortIsStable | java/src/org/antlr/codebuff/kNNClassifier.java:103-104 | stability: for every distance, the neighbours at that distance keep their relative order |
| Neighbors.InsertKeepsTies | java/src/org/antlr/codebuff/kNNClassifier.java:103-104 | inserting a neighbour with a larger row index than all others keeps equal-distance neighbours in row order |
| Neighbors.InsertFrom | java/src/org/antlr/codebuff/kNNClassifier.java:103-104 | every entry of an insertion is the new neighbour or one of the old ones |
| Neighbors.StableSortTiesByIndex | java/src/org/antlr/codebuff/kNNClassifier.java:103-104 | when row indices ascend in the input, equal-distance neighbours come out in ascending row order |
| Neighbors.CopyOfRange | java/src/org/antlr/codebuff/kNNClassifier.java:105 | a fresh array of length `to`: the first `to` entries, padded with `null` past the end; a negative `to` throws illegal-argument |
| Classifier.KnnClassifier.Knn | java/src/org/antlr/codebuff/kNNClassifier.java:101-106 | a fresh array holding `NearestNeighbors`: the sorted neighbours cut or `null`-padded to `k`, with the same errors |
| Classifier.KnnClassifier.SortedNeighborsOrder | java/src/org/antlr/codebuff/kNNClassifier.java:102-104 | the sorted list has one neighbour per corpus row, is a permutation of `distances`, ascends by distance, keeps every distance class in order, and puts ties in ascending row order |
| Classifier.KnnClassifier.NearestNeighborsShape | java/src/org/antlr/codebuff/kNNClassifier.java:101-106 | errors come in order: first a short `Y`, then a negative `k`; otherwise exactly `k` entries, the first `min(k, n)` sorted neighbours followed by `null`s |
| Voting.Tally | java/src/org/antlr/codebuff/kNNClassifier.java:79-82 | the walk either throws null-pointer or casts at most one vote per entry, and every vote is the category of a present neighbour |
| Voting.Ballots | java/src/org/antlr/codebuff/kNNClassifier.java:79-82 | the walk in order: it either throws null-pointer or casts at most one ballot per entry |
| Voting.AddBallotsAssociates | java/src/org/antlr/codebuff/kNNClassifier.java:79-88 | proof helper for the walk of `votes`: the identity and associativity of prepending ballots to a walk's result, used by the loop's step lemmas |
| Voting.BallotsStep | java/src/org/antlr/codebuff/kNNClassifier.java:81-82 | a neighbour within the threshold adds its category to the ballots so far |
| Voting.BallotsNull | java/src/org/antlr/codebuff/kNNClassifier.java:81 | reaching a `null` entry makes the whole walk throw null-pointer |
| Voting.BallotsStop | java/src/org/antlr/codebuff/kNNClassifier.java:79-81 | stopping at the end of the entries or at a far neighbour leaves exactly the ballots cast so far |
| Voting.TallyOfBallots | java/src/org/antlr/codebuff/kNNClassifier.java:79-82 | the tally is the multiset of the ballots, and the two walks fail together |
| Classifier.KnnClassifier.VoteTallyOfBallots | java/src/org/antlr/codebuff/kNNClassifier.java:70-88 | the same agreement for the walk over `kNN`'s result, including the error passed on from `kNN` |
| Voting.AddProperties | java/src/org/antlr/codebuff/kNNClassifier.java:82 | `HashBag.add`: one more vote for the category; keys stay distinct and in step with the counts; a new key goes to the end of the iteration order |
| Voting.BagOfCounts | java/src/org/antlr/codebuff/kNNClassifier.java:72-82 | the bag built by adding the ballots one at a time to an empty bag is well formed and counts exactly the ballots |
| Voting.BagOfSnoc | java/src/org/antlr/codebuff/kNNClassifier.java:82 | one more ballot is one more `add` |
| Voting.BagOfKeyOrder | java/src/org/antlr/codebuff/kNNClassifier.java:82 | the bag's keys are in first-vote order: the first ballot for an earlier key comes before any ballot for a later key |
| Voting.CountVotes | java/src/org/antlr/codebuff/kNNClassifier.java:79-88 | the loop over `kNN`'s array returns exactly `BagOf` the walk's ballots, and throws null-pointer exactly when the walk does |
| Classifier.KnnClassifier.VotesWithThreshold | java/src/org/antlr/codebuff/kNNClassifier.java:70-99 | the returned bag is `BagOf` the ballots of the walk over `kNN`, so its keys are in first-vote order, and its counts are `VoteTally`; a failure of `kNN` or a `null` pad is the same error as that of the walk |
| Classifier.KnnClassifier.Votes | java/src/org/antlr/codebuff/kNNClassifier.java:66-68 | the two-argument `votes` is the three-argument one with threshold `1.0`: the same bag of ballots and the same counts |
| Classifier.KnnClassifier.VotesAtMostK | java/src/org/antlr/codebuff/kNNClassifier.java:79 | a successful walk casts at most `k` votes |
| Voting.TallyMonotone | java/src/org/antlr/codebuff/kNNClassifier.java:79-82 | on the same neighbour list, a successful walk at a higher threshold also succeeds at a lower one and gives no category fewer votes |
| Classifier.KnnClassifier.ThresholdMonotone | java/src/org/antlr/codebuff/kNNClassifier.java:79-82 | raising `distanceThreshold` never lowers any category's count |
| Voting.WithinPastThreshold | java/src/org/antlr/codebuff/kNNClassifier.java:81 | in a distance-sorted list that starts beyond the threshold, no neighbour is within it |
| Voting.TallyOfSortedPrefix | java/src/org/antlr/codebuff/kNNClassifier.java:79-82 | on a sorted list, stopping at the first far neighbour counts exactly the first `k` neighbours within the threshold |
| Voting.TallyOfPaddedList | java/src/org/antlr/codebuff/kNNClassifier.java:79-82 | with `null` padding past a sorted list, the walk throws exactly when every real neighbour is within the threshold; otherwise it counts all those within it |
| Classifier.KnnClassifier.VotesOfNearest | java/src/org/antlr/codebuff/kNNClassifier.java:79-82 | for `0 <= k <= n`, the votes are the categories of the `k` nearest neighbours that lie within the threshold |
| Classifier.KnnClassifier.VotesPastCorpus | java/src/org/antlr/codebuff/kNNClassifier.java:79-82 | for `k > n`, `votes` throws null-pointer exactly when every corpus row is within the threshold; otherwise every row within it votes |
| Classifier.KnnClassifier.NoQuorum | java/src/org/antlr/codebuff/kNNClassifier.java:79-81 | with `k == 0`, or with the nearest neighbour beyond the threshold, the tally is empty |
| Classifier.KnnClassifier.NearestVote | java/src/org/antlr/codebuff/kNNClassifier.java:79-82 | with `k == 1` and the nearest neighbour within the threshold, that neighbour's category gets the only vote |
| Voting.MostVoted | java/src/org/antlr/codebuff/kNNClassifier.java:54-63 | the scan of `classify` returns `0` for an empty bag; otherwise a category with a vote whose count no other category beats, and the first such key in iteration order |
| Classifier.KnnClassifier.ClassifyWithThreshold | java/src/org/antlr/codebuff/kNNClassifier.java:52-64 | the answer is `0` when nobody voted, otherwise a most-voted category of `VoteTally`, and the first most-voted key of the bag of ballots (a tie goes to the category voted for first); errors of `votes` propagate |
| Classifier.KnnClassifier.Classify | java/src/org/antlr/codebuff/kNNClassifier.java:44-46 | the two-argument `classify` is the three-argument one with threshold `1.0`, with the same most-voted and tie-break guarantees |
| Classifier.KnnClassifier.UnanimousCorpus | java/src/org/antlr/codebuff/kNNClassifier.java:52-64 | when every corpus label is `c`, the classification is `c`, or `0` when nobody voted |
| BuffUtils.IndexOf | src/org/antlr/codebuff/misc/BuffUtils.java:14-21 | throws null-pointer exactly for a `null` parent; otherwise the least index holding `child` by reference identity (a `null` child matches a `null` child), or `-1` exactly when no child is `child` |
| BuffUtils.Filter | src/org/antlr/codebuff/misc/BuffUtils.java:33-41 | the kept elements satisfy the predicate and come from the input; every input element satisfying it is kept; the result is no longer than the input |
| BuffUtils.FilterConcat | src/org/antlr/codebuff/misc/BuffUtils.java:33-41 | filtering a concatenation concatenates the filtered parts, so the order of kept elements is the input order |
| BuffUtils.FilterCounts | src/org/antlr/codebuff/misc/BuffUtils.java:33-41 | each element is kept as many times as it occurs if it satisfies the predicate, and not at all otherwise |
| BuffUtils.FilterIdempotent | src/org/antlr/codebuff/misc/BuffUtils.java:33-41 | filtering twice with the same predicate equals filtering once |
| BuffUtils.FindFirst | src/org/antlr/codebuff/misc/BuffUtils.java:24-31 | `None` for `null` data; otherwise `Some` of the earliest element satisfying the predicate (the head of `Filter`), or `None` exactly when none does |
| BuffUtils.FilterList | src/org/antlr/codebuff/misc/BuffUtils.java:33-41 | an empty list for `null` data; otherwise `Filter` of the data |
| BuffUtils.FilterCollection | src/org/antlr/codebuff/misc/BuffUtils.java:43-51 | throws null-pointer exactly for `null` data; otherwise `Filter` of the data |
| BuffUtils.MapCollection | src/org/antlr/codebuff/misc/BuffUtils.java:53-59 | an empty list for `null` data; otherwise the same length, with entry `i` being `getter` of element `i` |
| BuffUtils.MapArray | src/org/antlr/codebuff/misc/BuffUtils.java:61-67 | an empty list for a `null` array; otherwise the same length, with entry `i` being `getter` of element `i` |
| BuffUtils.Wrap | src/org/antlr/codebuff/misc/BuffUtils.java:92 | Java `int` addition's wrap-around: the `int` congruent to the value modulo 2^32, and the value itself when it fits |
| BuffUtils.WrapCongruent | src/org/antlr/codebuff/misc/BuffUtils.java:92 | values that differ by a multiple of 2^32 wrap to the same `int` |
| BuffUtils.WrapAdd | src/org/antlr/codebuff/misc/BuffUtils.java:90-94 | wrapping after every addition gives the same result as wrapping the exact sum once |
| BuffUtils.Sum | src/org/antlr/codebuff/misc/BuffUtils.java:89-95 | the exact sum of the elements wrapped to 32 bits, and `0` for an empty list |

## Left out

- The `dumpVotes` branch of `votes` and `Neighbor.toString`: they only print to the console and do not change any result.
- The concrete metric and `toString(int[])`: subclasses supply them and they are not part of this model. `distance` is any function value, and `categorical` is stored but never read.
- Floating point: distances and the threshold are reals. NaN and the corner cases of `Double.compare` (such as `-0.0` against `0.0`) are not modelled.
- The `charPos`, `widths` and `sum` maps of `votes`: they are allocated but never filled or read.
- `HashBag`'s iteration order: `HashMap` leaves it unspecified, and the model fixes it as first-vote order. The most-voted property of `classify` holds for any order. The tie-break (first most-voted key) is proved only for the fixed order.
- The corpus after construction: Java's constructor keeps the caller's `List` and `boolean[]` references, so a caller that later changes them changes later queries. The model stores `X`, `Y` and `categorical` as immutable values.
- `Arrays.sort`: Java runs a stable merge sort (TimSort). The model runs a stable insertion sort. Both are stable sorts by the same key, so they give the same array; the sort's cost is not modelled.
- `null` labels in `Y` and `null` rows in `X`: labels are plain integers and rows are sequences, so unboxing a `null` is not modelled. Labels are unbounded integers rather than 32-bit ones.
- `null` `X` or `Y` lists: the constructor accepts them in Java, and `distances` then throws a `NullPointerException` (at `X.size()`, or at `Y.get(0)` for a non-empty `X`). The model's corpus and labels are sequences, so this error is not modelled.
- BuffUtils.FindFirst: Java returns the matching element itself, so a matching `null` element comes back as `null`, the same value as no match. The model returns `Some(null)` there and `None` only for no match or `null` data, so it tells apart two cases that Java's caller cannot.
- BuffUtils.Sum: a `null` list and `null` elements (both throw in Java) are not modelled; the input is a sequence of `int32`.
- BuffUtils.IndexOf: the children of a `ParserRuleContext` are a sequence of possibly-`null` references; the parse-tree classes are not part of this model.
- `variance`, `varianceFloats` and `sumFloats`: floating-point numerics.
- `JavaLeaveOneOut`: a command-line driver that reads a corpus from disk and prints results; it is pure I/O.
