/**
 * The kNN classifier of `kNNClassifier.java`: a corpus of feature vectors `X` with
 * labels `Y`, and a distance metric that concrete subclasses supply (here a function
 * value given to the constructor). A query walks `distances`, `kNN`, `votes` and
 * `classify`.
 */
module Classifier {
  import opened Wrappers
  import opened Neighbors
  import opened Voting

  /** The threshold the two-argument `votes` and `classify` pass on. */
  const DefaultThreshold: real := 1.0

  class KnnClassifier {
    /** The corpus feature vectors. */
    const X: seq<seq<int>>
    /** The corpus labels, parallel to `X`. */
    const Y: seq<int>
    /** Which features are categorical; stored for the metric, not read by the classifier. */
    const categorical: seq<bool>
    /** The abstract `distance(int[] A, int[] B)` of a concrete subclass. */
    const distance: (seq<int>, seq<int>) -> real
    /** Debug switch; its console output is not modelled. */
    var dumpVotes: bool

    constructor (X: seq<seq<int>>, Y: seq<int>, categorical: seq<bool>,
                 distance: (seq<int>, seq<int>) -> real)
      ensures this.X == X && this.Y == Y && this.categorical == categorical
      ensures this.distance == distance && !dumpVotes
    {
      this.X := X;
      this.Y := Y;
      this.categorical := categorical;
      this.distance := distance;
      dumpVotes := false;
    }

    /** The neighbour list `distances` builds; `Y.get(i)` throws when `Y` is shorter than `X`. */
    function NeighborList(unknown: seq<int>): Result<seq<Neighbor>> {
      if |Y| < |X| then Err(IndexOutOfBounds)
      else Ok(seq(|X|, i requires 0 <= i < |X| => Neighbor(Y[i], distance(X[i], unknown), i)))
    }

    /** What `kNN` returns: the sorted neighbour list cut (or `null`-padded) to `k` entries. */
    function NearestNeighbors(k: int, unknown: seq<int>): Result<seq<Option<Neighbor>>> {
      match NeighborList(unknown)
      case Err(e) => Err(e)
      case Ok(ns) => if k < 0 then Err(IllegalArgument) else Ok(Padded(StableSort(ns), k))
    }

    /** The full neighbour list after the sort in `kNN`, before it is cut to `k`. */
    function SortedNeighbors(unknown: seq<int>): seq<Neighbor>
      requires |X| <= |Y|
    {
      StableSort(NeighborList(unknown).value)
    }

    /** What `votes` returns: the tally of the walk over `kNN`'s result. */
    function VoteTally(k: int, unknown: seq<int>, distanceThreshold: real): Result<multiset<int>> {
      match NearestNeighbors(k, unknown)
      case Err(e) => Err(e)
      case Ok(nbrs) => Tally(nbrs, distanceThreshold)
    }

    /** The ballots of the walk of `votes` over `kNN`'s result, in walk order. */
    function VoteBallots(k: int, unknown: seq<int>, distanceThreshold: real): Result<seq<int>> {
      match NearestNeighbors(k, unknown)
      case Err(e) => Err(e)
      case Ok(nbrs) => Ballots(nbrs, distanceThreshold)
    }

    /** `distances`: one neighbour per corpus row, in row order; `k` is not used. */
    method Distances(k: int, unknown: seq<int>) returns (r: Result<array<Neighbor>>)
      ensures r.Err? <==> |Y| < |X|
      ensures r.Err? ==> r.error == IndexOutOfBounds
      ensures r.Ok? ==> fresh(r.value) && r.value.Length == |X|
      ensures r.Ok? ==> forall i :: 0 <= i < |X| ==>
                r.value[i] == Neighbor(Y[i], distance(X[i], unknown), i)
    {
      var n := |X|;
      var distances := new Neighbor[n];
      for i := 0 to n
        invariant i <= |Y|
        invariant forall m :: 0 <= m < i ==> distances[m] == Neighbor(Y[m], distance(X[m], unknown), m)
      {
        if i >= |Y| {
          return Err(IndexOutOfBounds);
        }
        distances[i] := Neighbor(Y[i], distance(X[i], unknown), i);
      }
      return Ok(distances);
    }

    /** `kNN`: sort the neighbours by distance (stably) and copy out the first `k`. */
    method Knn(k: int, unknown: seq<int>) returns (r: Result<array<Option<Neighbor>>>)
      ensures r.Err? ==> NearestNeighbors(k, unknown) == Err(r.error)
      ensures r.Ok? ==> fresh(r.value) && NearestNeighbors(k, unknown) == Ok(r.value[..])
    {
      var d := Distances(k, unknown);
      if d.Err? {
        return Err(d.error);
      }
      var distances := d.value;
      assert distances[..] == NeighborList(unknown).value;
      SortByDistance(distances);
      r := CopyOfRange(distances, k);
    }

    /**
     * `votes(k, unknown, distanceThreshold)`: the bag of votes of the walk over `kNN`.
     * Its counts are `VoteTally`, and its keys come in the order of the walk's ballots.
     */
    method VotesWithThreshold(k: int, unknown: seq<int>, distanceThreshold: real)
      returns (r: Result<HashBag>)
      ensures r.Err? ==> VoteTally(k, unknown, distanceThreshold) == Err(r.error)
      ensures r.Err? ==> VoteBallots(k, unknown, distanceThreshold) == Err(r.error)
      ensures r.Ok? ==> VoteTally(k, unknown, distanceThreshold) == Ok(r.value.counts)
      ensures r.Ok? ==>
                VoteBallots(k, unknown, distanceThreshold).Ok? &&
                r.value == BagOf(VoteBallots(k, unknown, distanceThreshold).value)
      ensures r.Ok? ==> WellFormed(r.value)
    {
      var nn := Knn(k, unknown);
      if nn.Err? {
        VoteTallyOfBallots(k, unknown, distanceThreshold);
        return Err(nn.error);
      }
      var kNN := nn.value;
      r := CountVotes(kNN, k, distanceThreshold);
      WalkOfKnn(k, unknown, distanceThreshold, kNN[..], Ballots(kNN[..], distanceThreshold));
      if r.Ok? {
        BagOfCounts(Ballots(kNN[..], distanceThreshold).value);
      }
    }

    /** `votes(k, unknown)`: the default threshold. */
    method Votes(k: int, unknown: seq<int>) returns (r: Result<HashBag>)
      ensures r.Err? ==> VoteTally(k, unknown, DefaultThreshold) == Err(r.error)
      ensures r.Ok? ==> VoteTally(k, unknown, DefaultThreshold) == Ok(r.value.counts)
      ensures r.Ok? ==>
                VoteBallots(k, unknown, DefaultThreshold).Ok? &&
                r.value == BagOf(VoteBallots(k, unknown, DefaultThreshold).value)
      ensures r.Ok? ==> WellFormed(r.value)
    {
      r := VotesWithThreshold(k, unknown, DefaultThreshold);
    }

    /**
     * `classify(k, unknown, distanceThreshold)`: scans the bag's keys, keeping the
     * first one whose count beats the best so far; `0` when nobody voted. With the
     * keys in first-vote order, a tie goes to the category that was voted for first.
     */
    method ClassifyWithThreshold(k: int, unknown: seq<int>, distanceThreshold: real)
      returns (r: Result<int>)
      ensures VoteTally(k, unknown, distanceThreshold).Err? ==>
                r == Err(VoteTally(k, unknown, distanceThreshold).error)
      ensures VoteTally(k, unknown, distanceThreshold).Ok? ==>
                r.Ok? && IsClassification(VoteTally(k, unknown, distanceThreshold).value, r.value)
      ensures VoteBallots(k, unknown, distanceThreshold).Ok? &&
              |VoteBallots(k, unknown, distanceThreshold).value| != 0 ==>
                r.Ok? && FirstMostVoted(BagOf(VoteBallots(k, unknown, distanceThreshold).value), r.value)
    {
      var tally := VotesWithThreshold(k, unknown, distanceThreshold);
      if tally.Err? {
        return Err(tally.error);
      }
      var votes := tally.value;
      var category := MostVoted(votes);
      return Ok(category);
    }

    /** `classify(k, unknown)`: the default threshold. */
    method Classify(k: int, unknown: seq<int>) returns (r: Result<int>)
      ensures VoteTally(k, unknown, DefaultThreshold).Err? ==>
                r == Err(VoteTally(k, unknown, DefaultThreshold).error)
      ensures VoteTally(k, unknown, DefaultThreshold).Ok? ==>
                r.Ok? && IsClassification(VoteTally(k, unknown, DefaultThreshold).value, r.value)
      ensures VoteBallots(k, unknown, DefaultThreshold).Ok? &&
              |VoteBallots(k, unknown, DefaultThreshold).value| != 0 ==>
                r.Ok? && FirstMostVoted(BagOf(VoteBallots(k, unknown, DefaultThreshold).value), r.value)
    {
      r := ClassifyWithThreshold(k, unknown, DefaultThreshold);
    }

    /** The tally of `votes` is the multiset of its ballots, and the two fail together. */
    lemma VoteTallyOfBallots(k: int, unknown: seq<int>, distanceThreshold: real)
      ensures VoteTally(k, unknown, distanceThreshold).Err? <==> VoteBallots(k, unknown, distanceThreshold).Err?
      ensures VoteBallots(k, unknown, distanceThreshold).Err? ==>
                VoteTally(k, unknown, distanceThreshold).error == VoteBallots(k, unknown, distanceThreshold).error
      ensures VoteBallots(k, unknown, distanceThreshold).Ok? ==>
                VoteTally(k, unknown, distanceThreshold) == Ok(multiset(VoteBallots(k, unknown, distanceThreshold).value))
    {
      if NearestNeighbors(k, unknown).Ok? {
        TallyOfBallots(NearestNeighbors(k, unknown).value, distanceThreshold);
      }
    }

    /** A walk `w` over `kNN`'s result `all` is what `VoteBallots` and `VoteTally` describe. */
    lemma WalkOfKnn(k: int, unknown: seq<int>, distanceThreshold: real,
                    all: seq<Option<Neighbor>>, w: Result<seq<int>>)
      requires NearestNeighbors(k, unknown) == Ok(all)
      requires Ballots(all, distanceThreshold) == w
      ensures VoteBallots(k, unknown, distanceThreshold) == w
      ensures w.Err? ==> VoteTally(k, unknown, distanceThreshold) == Err(w.error)
      ensures w.Ok? ==> VoteTally(k, unknown, distanceThreshold) == Ok(multiset(w.value))
    {
      TallyOfBallots(all, distanceThreshold);
    }

    /**
     * After the sort in `kNN`: one neighbour per corpus row, ascending by distance,
     * every distance class in its original order, so ties come in ascending row order.
     */
    lemma SortedNeighborsOrder(unknown: seq<int>)
      requires |X| <= |Y|
      ensures |SortedNeighbors(unknown)| == |X|
      ensures multiset(SortedNeighbors(unknown)) == multiset(NeighborList(unknown).value)
      ensures SortedByDistance(SortedNeighbors(unknown))
      ensures forall v :: AtDistance(SortedNeighbors(unknown), v) == AtDistance(NeighborList(unknown).value, v)
      ensures TiesByIndex(SortedNeighbors(unknown))
    {
      var ns := NeighborList(unknown).value;
      StableSortSortedPermutation(ns);
      forall v ensures AtDistance(StableSort(ns), v) == AtDistance(ns, v) {
        StableSortIsStable(ns, v);
      }
      assert IndicesAscending(ns);
      StableSortTiesByIndex(ns);
    }

    /**
     * The shape of `kNN`'s result: `distances` fails first when `Y` is short, then a
     * negative `k` is refused; otherwise exactly `k` entries, the first `min(k, n)`
     * sorted neighbours followed by `null` padding.
     */
    lemma NearestNeighborsShape(k: int, unknown: seq<int>)
      ensures |Y| < |X| ==> NearestNeighbors(k, unknown) == Err(IndexOutOfBounds)
      ensures |X| <= |Y| && k < 0 ==> NearestNeighbors(k, unknown) == Err(IllegalArgument)
      ensures |X| <= |Y| && 0 <= k ==>
                && NearestNeighbors(k, unknown).Ok?
                && |NearestNeighbors(k, unknown).value| == k
                && (forall i :: 0 <= i < k && i < |X| ==>
                      NearestNeighbors(k, unknown).value[i] == Some(SortedNeighbors(unknown)[i]))
                && (forall i :: |X| <= i < k ==> NearestNeighbors(k, unknown).value[i] == None)
    {
      if |X| <= |Y| {
        SortedNeighborsOrder(unknown);
      }
    }

    /** `votes` casts at most `k` votes. */
    lemma VotesAtMostK(k: int, unknown: seq<int>, distanceThreshold: real)
      requires VoteTally(k, unknown, distanceThreshold).Ok?
      ensures |VoteTally(k, unknown, distanceThreshold).value| <= k
    {
    }

    /**
     * For `0 <= k <= n`, the votes are the labels of the `k` nearest neighbours that lie
     * within the threshold: breaking at the first far neighbour loses nothing.
     */
    lemma VotesOfNearest(k: int, unknown: seq<int>, distanceThreshold: real)
      requires |X| <= |Y| && 0 <= k <= |X|
      ensures VoteTally(k, unknown, distanceThreshold) ==
                Ok(Within(SortedNeighbors(unknown)[..k], distanceThreshold))
    {
      SortedNeighborsOrder(unknown);
      TallyOfSortedPrefix(SortedNeighbors(unknown), k, distanceThreshold);
    }

    /**
     * For `k > n`, `votes` walks into the `null` padding, and throws, exactly when every
     * corpus row is within the threshold; otherwise every row within it votes.
     */
    lemma VotesPastCorpus(k: int, unknown: seq<int>, distanceThreshold: real)
      requires |X| <= |Y| && k > |X|
      ensures VoteTally(k, unknown, distanceThreshold).Err? <==>
                forall i :: 0 <= i < |X| ==> distance(X[i], unknown) <= distanceThreshold
      ensures VoteTally(k, unknown, distanceThreshold).Err? ==>
                VoteTally(k, unknown, distanceThreshold).error == NullPointer
      ensures VoteTally(k, unknown, distanceThreshold).Ok? ==>
                VoteTally(k, unknown, distanceThreshold).value ==
                  Within(SortedNeighbors(unknown), distanceThreshold)
    {
      var ns := NeighborList(unknown).value;
      var sorted := SortedNeighbors(unknown);
      SortedNeighborsOrder(unknown);
      TallyOfPaddedList(sorted, k, distanceThreshold);
      assert forall i :: 0 <= i < |X| ==> ns[i].distance == distance(X[i], unknown);
      if AllWithin(ns, distanceThreshold) {
        AllWithinPermuted(ns, sorted, distanceThreshold);
      }
      if AllWithin(sorted, distanceThreshold) {
        AllWithinPermuted(sorted, ns, distanceThreshold);
      }
    }

    /** Raising the threshold never takes a vote away from any category. */
    lemma ThresholdMonotone(k: int, unknown: seq<int>, low: real, high: real)
      requires low <= high
      requires VoteTally(k, unknown, high).Ok?
      ensures VoteTally(k, unknown, low).Ok?
      ensures forall c :: VoteTally(k, unknown, low).value[c] <= VoteTally(k, unknown, high).value[c]
    {
      TallyMonotone(NearestNeighbors(k, unknown).value, low, high);
    }

    /**
     * No quorum: with `k == 0`, or with a nearest neighbour beyond the threshold, the
     * tally is empty, so `classify` answers `0`.
     */
    lemma NoQuorum(k: int, unknown: seq<int>, distanceThreshold: real)
      requires |X| <= |Y| && 0 <= k
      requires k == 0 || (0 < |X| && SortedNeighbors(unknown)[0].distance > distanceThreshold)
      ensures VoteTally(k, unknown, distanceThreshold) == Ok(multiset{})
    {
      SortedNeighborsOrder(unknown);
      var nbrs := NearestNeighbors(k, unknown).value;
      if k > 0 {
        assert nbrs[0] == Some(SortedNeighbors(unknown)[0]);
      }
    }

    /** With `k == 1`, a nearest neighbour within the threshold gets the single vote. */
    lemma NearestVote(unknown: seq<int>, distanceThreshold: real)
      requires |X| <= |Y| && 0 < |X|
      requires SortedNeighbors(unknown)[0].distance <= distanceThreshold
      ensures VoteTally(1, unknown, distanceThreshold) == Ok(multiset{SortedNeighbors(unknown)[0].category})
    {
      VotesOfNearest(1, unknown, distanceThreshold);
      var nearest := SortedNeighbors(unknown)[..1];
      assert nearest[1..] == [];
      assert Within(nearest, distanceThreshold) == multiset{nearest[0].category} + multiset{};
      assert multiset{nearest[0].category} + multiset{} == multiset{nearest[0].category};
    }

    /**
     * A corpus whose labels all equal `c` can only ever be classified as `c`, or as the
     * default `0` when no neighbour qualifies.
     */
    lemma UnanimousCorpus(k: int, unknown: seq<int>, distanceThreshold: real, c: int, winner: int)
      requires VoteTally(k, unknown, distanceThreshold).Ok?
      requires forall i :: 0 <= i < |X| ==> Y[i] == c
      requires IsClassification(VoteTally(k, unknown, distanceThreshold).value, winner)
      ensures winner == c || (winner == 0 && |VoteTally(k, unknown, distanceThreshold).value| == 0)
    {
      var m := VoteTally(k, unknown, distanceThreshold).value;
      if |m| != 0 {
        var nbrs := NearestNeighbors(k, unknown).value;
        var ns := NeighborList(unknown).value;
        SortedNeighborsOrder(unknown);
        assert CastBy(nbrs, winner);
        var i :| 0 <= i < |nbrs| && nbrs[i].Some? && nbrs[i].value.category == winner;
        assert nbrs[i].value in multiset(ns);
        var j :| 0 <= j < |ns| && ns[j] == nbrs[i].value;
      }
    }
  }
}
