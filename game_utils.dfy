/** Construction of the host-owned starting state. */
module GameUtils {
  import opened Types
  import opened Reducer

  /**
   * The state a host creates for a new session: the host is the only
   * player, there is no issue, no vote and no round.
   */
  function CreateInitialGameState(gameId: string, hostId: string, hostName: string): (s: GameState)
    ensures s.gameId == gameId && s.hostId == hostId
    ensures s.players == [Player(hostId, hostName, true)]
    ensures s.currentIssue == None && s.votes == [] && s.issues == []
    ensures !s.votingInProgress && !s.votesRevealed
    ensures IdsUnique(s) && RevealInvariant(s)
    ensures HasKey(s.players, PlayerKey, hostId)
  {
    var host := Player(hostId, hostName, true);
    assert host in [host];
    GameState(gameId, hostId, [host], None, [], false, false, [])
  }

  // ---------------------------------------------------------------------
  // Average and median of the numeric votes (exact rationals stand in
  // for JavaScript's doubles)
  // ---------------------------------------------------------------------

  function Sum(xs: seq<int>): int {
    if xs == [] then 0 else xs[0] + Sum(xs[1..])
  }

  /** `Math.round`: the nearest integer, halves rounded up. */
  function Round(x: real): (k: int)
    ensures x - 0.5 < k as real <= x + 0.5
  {
    (x + 0.5).Floor
  }

  /** The mean rounded to one decimal place; 0 for no votes. */
  function Average(xs: seq<int>): real {
    if xs == [] then 0.0
    else (Round((Sum(xs) as real / |xs| as real) * 10.0) as real) / 10.0
  }

  lemma {:induction false} SumBounds(xs: seq<int>, lo: int, hi: int)
    requires forall i :: 0 <= i < |xs| ==> lo <= xs[i] <= hi
    ensures |xs| * lo <= Sum(xs) <= |xs| * hi
  {
    if xs != [] {
      SumBounds(xs[1..], lo, hi);
      assert |xs| * lo == (|xs| - 1) * lo + lo;
      assert |xs| * hi == (|xs| - 1) * hi + hi;
    }
  }

  lemma MeanBounds(sum: int, n: int, lo: int, hi: int)
    requires n > 0 && n * lo <= sum <= n * hi
    ensures lo as real <= sum as real / n as real <= hi as real
  {
    var m := sum as real / n as real;
    assert m * n as real == sum as real;
    assert (n * lo) as real == n as real * lo as real;
    assert (n * hi) as real == n as real * hi as real;
  }

  /** An average of votes lying between `lo` and `hi` lies between them too, rounding included. */
  lemma AverageWithinBounds(xs: seq<int>, lo: int, hi: int)
    requires xs != []
    requires forall i :: 0 <= i < |xs| ==> lo <= xs[i] <= hi
    ensures lo as real <= Average(xs) <= hi as real
  {
    SumBounds(xs, lo, hi);
    var m := Sum(xs) as real / |xs| as real;
    MeanBounds(Sum(xs), |xs|, lo, hi);
    var k := Round(m * 10.0);
    assert (10 * lo) as real <= m * 10.0 <= (10 * hi) as real;
    assert 10 * lo <= k <= 10 * hi;
  }

  predicate SortedInts(s: seq<int>) {
    forall i, j :: 0 <= i < j < |s| ==> s[i] <= s[j]
  }

  function InsertInt(x: int, s: seq<int>): (r: seq<int>)
    ensures multiset(r) == multiset(s) + multiset{x}
  {
    if s == [] then [x]
    else if x <= s[0] then [x] + s
    else
      assert s == [s[0]] + s[1..];
      [s[0]] + InsertInt(x, s[1..])
  }

  lemma {:induction false} InsertIntSorted(x: int, s: seq<int>)
    requires SortedInts(s)
    ensures SortedInts(InsertInt(x, s))
  {
    if s != [] && x > s[0] {
      var rest := InsertInt(x, s[1..]);
      InsertIntSorted(x, s[1..]);
      var r := [s[0]] + rest;
      forall i, j | 0 <= i < j < |r| ensures r[i] <= r[j] {
        assert r[j] == rest[j - 1] && rest[j - 1] in multiset(rest);
        if i > 0 {
          assert r[i] == rest[i - 1];
        } else if rest[j - 1] != x {
          assert rest[j - 1] in multiset(s[1..]);
          assert rest[j - 1] in s[1..];
        }
      }
    }
  }

  /** The numeric sort `(a, b) => a - b`: ascending, and a permutation of its input. */
  function SortInts(xs: seq<int>): (r: seq<int>)
    ensures multiset(r) == multiset(xs)
    ensures SortedInts(r)
  {
    if xs == [] then []
    else
      assert xs == [xs[0]] + xs[1..];
      InsertIntSorted(xs[0], SortInts(xs[1..]));
      InsertInt(xs[0], SortInts(xs[1..]))
  }

  /** The middle vote, or the mean of the two middle votes; 0 for no votes. */
  function Median(xs: seq<int>): real {
    if xs == [] then 0.0
    else
      var s := SortInts(xs);
      assert |s| == |multiset(s)| == |xs|;
      var mid := |s| / 2;
      if |s| % 2 == 0 then (s[mid - 1] + s[mid]) as real / 2.0
      else s[mid] as real
  }

  /**
   * The median lies between two of the votes, and is one of them when the
   * number of votes is odd.
   */
  lemma MedianBetweenVotes(xs: seq<int>)
    requires xs != []
    ensures exists i, j :: 0 <= i < |xs| && 0 <= j < |xs|
                           && xs[i] as real <= Median(xs) <= xs[j] as real
    ensures |xs| % 2 == 1 ==> exists k :: 0 <= k < |xs| && Median(xs) == xs[k] as real
  {
    var s := SortInts(xs);
    assert |s| == |multiset(s)| == |xs|;
    var mid := |s| / 2;
    var lo := if |s| % 2 == 0 then s[mid - 1] else s[mid];
    var hi := s[mid];
    assert lo <= hi;
    assert lo as real <= Median(xs) <= hi as real;
    assert lo in multiset(xs) && hi in multiset(xs);
    var i :| 0 <= i < |xs| && xs[i] == lo;
    var j :| 0 <= j < |xs| && xs[j] == hi;
    if |xs| % 2 == 1 {
      assert Median(xs) == xs[j] as real;
    }
  }
}
