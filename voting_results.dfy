/**
 * The results panel shown once votes are revealed: the numeric votes, the
 * tally of votes per card, the largest bucket and the display order of the
 * buckets.
 */
module VotingResults {
  import opened Types
  import opened Reducer
  import opened Sync
  import GameUtils

  // ---------------------------------------------------------------------
  // Numeric votes
  // ---------------------------------------------------------------------

  /** The numeric vote values, in vote order. */
  function NumericVotes(votes: seq<Vote>): (r: seq<int>)
    ensures |r| <= |votes|
    ensures forall n :: n in r <==> exists i :: 0 <= i < |votes| && votes[i].value == Num(n)
  {
    if votes == [] then []
    else
      var rest := NumericVotes(votes[1..]);
      assert forall i :: 0 < i < |votes| ==> votes[i] == votes[1..][i - 1];
      match votes[0].value
      case Num(n) => [n] + rest
      case _ => rest
  }

  /** The numeric values keep the order of the votes they come from. */
  lemma {:induction false} NumericVotesAppend(a: seq<Vote>, b: seq<Vote>)
    ensures NumericVotes(a + b) == NumericVotes(a) + NumericVotes(b)
  {
    if a == [] {
      assert a + b == b;
    } else {
      assert (a + b)[0] == a[0];
      assert (a + b)[1..] == a[1..] + b;
      NumericVotesAppend(a[1..], b);
    }
  }

  /** The average and the median shown; both 0 when no vote is numeric. */
  function Statistics(votes: seq<Vote>): (r: (real, real))
    ensures (forall i :: 0 <= i < |votes| ==> !votes[i].value.Num?) ==> r == (0.0, 0.0)
  {
    var numeric := NumericVotes(votes);
    if |numeric| > 0 then
      assert numeric[0] in numeric;
      (GameUtils.Average(numeric), GameUtils.Median(numeric))
    else (0.0, 0.0)
  }

  /**
   * When every numeric vote lies between `lo` and `hi` and there is one,
   * the average and the median shown lie between them too.
   */
  lemma StatisticsWithinVotes(votes: seq<Vote>, lo: int, hi: int)
    requires exists i :: 0 <= i < |votes| && votes[i].value.Num?
    requires forall i :: 0 <= i < |votes| && votes[i].value.Num? ==> lo <= votes[i].value.n <= hi
    ensures lo as real <= Statistics(votes).0 <= hi as real
    ensures lo as real <= Statistics(votes).1 <= hi as real
  {
    var numeric := NumericVotes(votes);
    var w :| 0 <= w < |votes| && votes[w].value.Num?;
    assert votes[w].value == Num(votes[w].value.n);
    assert votes[w].value.n in numeric;
    forall k | 0 <= k < |numeric| ensures lo <= numeric[k] <= hi {
      assert numeric[k] in numeric;
      var i :| 0 <= i < |votes| && votes[i].value == Num(numeric[k]);
    }
    GameUtils.AverageWithinBounds(numeric, lo, hi);
    GameUtils.MedianBetweenVotes(numeric);
  }

  // ---------------------------------------------------------------------
  // Decimal text of integers: String(n) and Number(s) for integer values
  // ---------------------------------------------------------------------

  predicate IsDigit(c: char) { '0' <= c <= '9' }

  predicate AllDigits(s: string) { forall i :: 0 <= i < |s| ==> IsDigit(s[i]) }

  function Digit(d: nat): (c: char)
    requires d < 10
    ensures IsDigit(c) && (c as int) - ('0' as int) == d
  {
    (('0' as int) + d) as char
  }

  /** The decimal digits of `n`, without leading zeros. */
  function NatToDecimal(n: nat): (s: string)
    ensures |s| >= 1 && AllDigits(s)
    ensures s[0] == '0' ==> n == 0
    decreases n
  {
    if n < 10 then [Digit(n)] else NatToDecimal(n / 10) + [Digit(n % 10)]
  }

  /** `String(n)` for an integer `n`. */
  function IntToDecimal(n: int): string {
    if n < 0 then "-" + NatToDecimal(-n) else NatToDecimal(n)
  }

  function ParseDigits(s: string): nat
    requires AllDigits(s)
  {
    if s == [] then 0
    else ParseDigits(s[..|s| - 1]) * 10 + ((s[|s| - 1] as int) - ('0' as int))
  }

  /**
   * `Number(s)` on a decimal integer, optionally negative; every other text
   * is `None`, standing for NaN.
   */
  function ParseNumber(s: string): Option<int> {
    if |s| > 0 && AllDigits(s) then Some(ParseDigits(s) as int)
    else if |s| > 1 && s[0] == '-' && AllDigits(s[1..]) then Some(-(ParseDigits(s[1..]) as int))
    else None
  }

  lemma {:induction false} ParseNatToDecimal(n: nat)
    ensures ParseDigits(NatToDecimal(n)) == n
    decreases n
  {
    var s := NatToDecimal(n);
    if n < 10 {
      assert s[..|s| - 1] == [];
    } else {
      assert s[..|s| - 1] == NatToDecimal(n / 10);
      ParseNatToDecimal(n / 10);
    }
  }

  /** Reading back the decimal text of an integer gives the integer. */
  lemma ParseIntToDecimal(n: int)
    ensures ParseNumber(IntToDecimal(n)) == Some(n)
  {
    if n < 0 {
      var d := NatToDecimal(-n);
      var s := "-" + d;
      assert s == IntToDecimal(n);
      assert !IsDigit(s[0]);
      assert s[1..] == d;
      ParseNatToDecimal(-n);
      assert ParseNumber(s) == Some(-(ParseDigits(d) as int));
    } else {
      ParseNatToDecimal(n);
    }
  }

  // ---------------------------------------------------------------------
  // The tally
  // ---------------------------------------------------------------------

  /** The tally key of a vote value: "?" for null, otherwise its text. */
  function TallyKey(v: VoteValue): (k: string)
    ensures v == Unknown ==> k == "?"
    ensures v.Str? ==> k == v.s
    ensures v.Num? ==> k == IntToDecimal(v.n) && ParseNumber(k) == Some(v.n)
  {
    match v
    case Unknown => "?"
    case Str(s) => s  // the coffee card's text is its own key
    case Num(n) => ParseIntToDecimal(n); IntToDecimal(n)
  }

  /** One entry of the tally: a key and how many votes carry it. */
  datatype Bucket = Bucket(key: string, count: nat)

  function BucketKey(b: Bucket): string { b.key }

  /** The count recorded for `k`, or 0 when there is no bucket for it. */
  function CountOf(bs: seq<Bucket>, k: string): nat {
    if bs == [] then 0 else if bs[0].key == k then bs[0].count else CountOf(bs[1..], k)
  }

  /** The sum of all counts. */
  function Total(bs: seq<Bucket>): nat {
    if bs == [] then 0 else bs[0].count + Total(bs[1..])
  }

  /** How many of `votes` have tally key `k`. */
  function KeyCount(votes: seq<Vote>, k: string): nat {
    if votes == [] then 0
    else KeyCount(votes[..|votes| - 1], k) + (if TallyKey(votes[|votes| - 1].value) == k then 1 else 0)
  }

  /** One vote with key `k` counted: its bucket grows, or a new bucket is appended. */
  function Bump(bs: seq<Bucket>, k: string): (r: seq<Bucket>)
    ensures forall x :: CountOf(r, x) == CountOf(bs, x) + (if x == k then 1 else 0)
    ensures Total(r) == Total(bs) + 1
    ensures forall b :: b in r ==> b in bs || (b.key == k && b.count >= 1)
  {
    if bs == [] then
      var r := [Bucket(k, 1)];
      assert r[0] in r;
      r
    else if bs[0].key == k then
      var r := [bs[0].(count := bs[0].count + 1)] + bs[1..];
      assert r[1..] == bs[1..];
      assert r[0] in r && bs[0] in bs;
      assert forall b :: b in bs[1..] ==> b in bs && b in r;
      r
    else
      var rest := Bump(bs[1..], k);
      var r := [bs[0]] + rest;
      assert r[1..] == rest;
      assert r[0] in r && bs[0] in bs;
      assert forall b :: b in bs[1..] ==> b in bs;
      assert forall b :: b in rest ==> b in r;
      r
  }

  lemma {:induction false} BumpKeepsUnique(bs: seq<Bucket>, k: string)
    requires UniqueKeys(bs, BucketKey)
    ensures UniqueKeys(Bump(bs, k), BucketKey)
  {
    if bs != [] {
      var tail := bs[1..];
      assert forall i, j :: 0 <= i < j < |tail| ==> tail[i] == bs[i + 1] && tail[j] == bs[j + 1];
      if bs[0].key == k {
        var r := Bump(bs, k);
        assert forall i :: 0 <= i < |r| ==> r[i].key == bs[i].key;
      } else {
        BumpKeepsUnique(tail, k);
        assert !HasKey(tail, BucketKey, bs[0].key) by {
          forall y | y in tail ensures y.key != bs[0].key {
            var j :| 0 <= j < |tail| && tail[j] == y;
            assert bs[j + 1] == y;
          }
        }
        assert !HasKey(Bump(tail, k), BucketKey, bs[0].key);
        ConsUnique(bs[0], Bump(tail, k), BucketKey);
      }
    }
  }

  /** The tally of `votes`, built one vote at a time in vote order. */
  function Tally(votes: seq<Vote>): seq<Bucket> {
    if votes == [] then []
    else Bump(Tally(votes[..|votes| - 1]), TallyKey(votes[|votes| - 1].value))
  }

  lemma CountOfUnique(bs: seq<Bucket>, b: Bucket)
    requires UniqueKeys(bs, BucketKey)
    requires b in bs
    ensures CountOf(bs, b.key) == b.count
  {
    if bs[0] != b {
      var tail := bs[1..];
      assert forall i, j :: 0 <= i < j < |tail| ==> tail[i] == bs[i + 1] && tail[j] == bs[j + 1];
      var j :| 0 <= j < |bs| && bs[j] == b;
      assert BucketKey(bs[0]) != BucketKey(bs[j]);
      CountOfUnique(tail, b);
    }
  }

  lemma CountOfPositive(bs: seq<Bucket>, k: string)
    requires CountOf(bs, k) > 0
    ensures HasKey(bs, BucketKey, k)
  {
    if bs[0].key != k {
      CountOfPositive(bs[1..], k);
    } else {
      assert bs[0] in bs;
    }
  }

  /**
   * The tally has one bucket per distinct key, each holding the number of
   * votes with that key, at least one; together they count every vote.
   */
  lemma {:induction false} TallyCounts(votes: seq<Vote>)
    ensures UniqueKeys(Tally(votes), BucketKey)
    ensures forall x :: CountOf(Tally(votes), x) == KeyCount(votes, x)
    ensures forall b :: b in Tally(votes) ==> b.count >= 1
    ensures Total(Tally(votes)) == |votes|
  {
    if votes != [] {
      var prefix := votes[..|votes| - 1];
      TallyCounts(prefix);
      BumpKeepsUnique(Tally(prefix), TallyKey(votes[|votes| - 1].value));
    }
  }

  /** Every bucket counts exactly the votes with its key, and every such key has a bucket. */
  lemma TallyBuckets(votes: seq<Vote>)
    ensures forall b :: b in Tally(votes) ==> 1 <= b.count == KeyCount(votes, b.key)
    ensures forall x :: KeyCount(votes, x) > 0 ==> HasKey(Tally(votes), BucketKey, x)
  {
    var t := Tally(votes);
    TallyCounts(votes);
    forall b | b in t ensures 1 <= b.count == KeyCount(votes, b.key) {
      CountOfUnique(t, b);
    }
    forall x | KeyCount(votes, x) > 0 ensures HasKey(t, BucketKey, x) {
      CountOfPositive(t, x);
    }
  }

  /** The dictionary of counts, filled by one pass over the votes. */
  method CountVotes(votes: seq<Vote>) returns (buckets: seq<Bucket>)
    ensures buckets == Tally(votes)
    ensures UniqueKeys(buckets, BucketKey)
    ensures forall b :: b in buckets ==> 1 <= b.count == KeyCount(votes, b.key)
    ensures forall x :: KeyCount(votes, x) > 0 ==> HasKey(buckets, BucketKey, x)
    ensures Total(buckets) == |votes|
  {
    buckets := [];
    for i := 0 to |votes|
      invariant buckets == Tally(votes[..i])
    {
      assert votes[..i + 1][..i] == votes[..i];
      buckets := Bump(buckets, TallyKey(votes[i].value));
    }
    assert votes[..|votes|] == votes;
    TallyCounts(votes);
    TallyBuckets(votes);
  }

  // ---------------------------------------------------------------------
  // The largest bucket
  // ---------------------------------------------------------------------

  /** The largest count, or 0 when there is no bucket. */
  function MaxCount(bs: seq<Bucket>): (m: nat)
    ensures forall b :: b in bs ==> b.count <= m
    ensures m == 0 || exists b :: b in bs && b.count == m
  {
    if bs == [] then 0
    else
      var rest := MaxCount(bs[1..]);
      assert forall b :: b in bs ==> b == bs[0] || b in bs[1..];
      if bs[0].count >= rest then bs[0].count else rest
  }

  /** The largest bucket of a tally is 0 exactly when there are no votes, and never exceeds them. */
  lemma MaxCountOfTally(votes: seq<Vote>)
    ensures MaxCount(Tally(votes)) == 0 <==> votes == []
    ensures MaxCount(Tally(votes)) <= |votes|
  {
    var t := Tally(votes);
    TallyCounts(votes);
    if votes != [] {
      assert Total(t) > 0;
      assert t[0] in t;
    }
    var m := MaxCount(t);
    if m > 0 {
      var b :| b in t && b.count == m;
      TotalBoundsCount(t, b);
    }
  }

  lemma TotalBoundsCount(bs: seq<Bucket>, b: Bucket)
    requires b in bs
    ensures b.count <= Total(bs)
  {
    if bs[0] != b {
      TotalBoundsCount(bs[1..], b);
    }
  }

  // ---------------------------------------------------------------------
  // Display order of the buckets
  // ---------------------------------------------------------------------

  /**
   * The sort comparator on keys: "?" goes last, the coffee card just before
   * it, and the rest by numeric value. A NaN difference counts as equal.
   */
  function Compare(a: string, b: string): int {
    if a == "?" then 1
    else if b == "?" then -1
    else if a == Coffee then 1
    else if b == Coffee then -1
    else match (ParseNumber(a), ParseNumber(b))
      case (Some(x), Some(y)) => x - y
      case _ => 0
  }

  /** Inserts `x` after every bucket that does not compare greater than it. */
  function Insert(x: Bucket, s: seq<Bucket>): (r: seq<Bucket>)
    ensures multiset(r) == multiset(s) + multiset{x}
  {
    if s == [] then [x]
    else if Compare(x.key, s[0].key) < 0 then [x] + s
    else
      assert s == [s[0]] + s[1..];
      [s[0]] + Insert(x, s[1..])
  }

  /** A stable sort of the buckets by `Compare`. */
  function SortBuckets(bs: seq<Bucket>): (r: seq<Bucket>)
    ensures multiset(r) == multiset(bs)
  {
    if bs == [] then []
    else
      assert bs == bs[..|bs| - 1] + [bs[|bs| - 1]];
      Insert(bs[|bs| - 1], SortBuckets(bs[..|bs| - 1]))
  }

  /** The keys a deck card can produce: "?", the coffee card, or a decimal number. */
  predicate DeckKey(k: string) {
    k == "?" || k == Coffee || ParseNumber(k).Some?
  }

  /** Display group of a key: numbers, then the coffee card, then "?". */
  function Rank(k: string): int {
    if k == "?" then 2 else if k == Coffee then 1 else 0
  }

  /** `a` may be shown before `b`. */
  predicate Before(a: string, b: string)
    requires DeckKey(a) && DeckKey(b)
  {
    Rank(a) < Rank(b)
    || (Rank(a) == Rank(b) && (Rank(a) > 0 || ParseNumber(a).value <= ParseNumber(b).value))
  }

  predicate DeckKeys(bs: seq<Bucket>) {
    forall b :: b in bs ==> DeckKey(b.key)
  }

  /** Numeric keys in ascending order, then the coffee card, then "?". */
  predicate InDisplayOrder(bs: seq<Bucket>)
    requires DeckKeys(bs)
  {
    forall i, j :: 0 <= i < j < |bs| ==> Before(bs[i].key, bs[j].key)
  }

  /** On deck keys, `Compare` agrees with `Before`, which is total. */
  lemma CompareAgreesWithBefore(a: string, b: string)
    requires DeckKey(a) && DeckKey(b)
    ensures Compare(a, b) < 0 ==> Before(a, b)
    ensures Compare(a, b) >= 0 ==> Before(b, a)
  {
  }

  lemma BeforeTransitive(a: string, b: string, c: string)
    requires DeckKey(a) && DeckKey(b) && DeckKey(c)
    requires Before(a, b) && Before(b, c)
    ensures Before(a, c)
  {
  }

  lemma InsertMembers(x: Bucket, s: seq<Bucket>)
    ensures forall b :: b in Insert(x, s) ==> b == x || b in s
  {
    var r := Insert(x, s);
    forall b | b in r ensures b == x || b in s {
      assert b in multiset(r);
    }
  }

  lemma {:induction false} InsertInOrder(x: Bucket, s: seq<Bucket>)
    requires DeckKeys(s) && DeckKey(x.key)
    requires InDisplayOrder(s)
    ensures DeckKeys(Insert(x, s))
    ensures InDisplayOrder(Insert(x, s))
  {
    InsertMembers(x, s);
    if s != [] {
      CompareAgreesWithBefore(x.key, s[0].key);
      if Compare(x.key, s[0].key) < 0 {
        InsertFront(x, s);
      } else {
        var tail := s[1..];
        assert forall b :: b in tail ==> b in s;
        InsertInOrder(x, tail);
        InsertMembers(x, tail);
        HeadBeforeTail(s);
        assert s[0] in s;
        ConsInOrder(s[0], Insert(x, tail));
      }
    }
  }

  lemma InsertFront(x: Bucket, s: seq<Bucket>)
    requires DeckKeys(s) && DeckKey(x.key)
    requires InDisplayOrder(s)
    requires s != [] && Before(x.key, s[0].key)
    ensures DeckKeys([x] + s)
    ensures InDisplayOrder([x] + s)
  {
    var r := [x] + s;
    forall i, j | 0 <= i < j < |r| ensures Before(r[i].key, r[j].key) {
      assert r[j] == s[j - 1] && s[j - 1] in s;
      if i == 0 {
        if j > 1 {
          assert s[0] in s;
          BeforeTransitive(x.key, s[0].key, s[j - 1].key);
        }
      } else {
        assert r[i] == s[i - 1];
      }
    }
  }

  lemma HeadBeforeTail(s: seq<Bucket>)
    requires DeckKeys(s) && InDisplayOrder(s) && s != []
    ensures forall b :: b in s[1..] ==> Before(s[0].key, b.key)
  {
    forall b | b in s[1..] ensures Before(s[0].key, b.key) {
      var k :| 0 <= k < |s[1..]| && s[1..][k] == b;
      assert s[k + 1] == b;
    }
  }

  /** A head that may be shown before every bucket of an ordered tail extends the order. */
  lemma ConsInOrder(h: Bucket, rest: seq<Bucket>)
    requires DeckKey(h.key) && DeckKeys(rest) && InDisplayOrder(rest)
    requires forall b :: b in rest ==> Before(h.key, b.key)
    ensures DeckKeys([h] + rest)
    ensures InDisplayOrder([h] + rest)
  {
    var r := [h] + rest;
    forall i, j | 0 <= i < j < |r| ensures Before(r[i].key, r[j].key) {
      assert r[j] == rest[j - 1] && rest[j - 1] in rest;
      if i > 0 {
        assert r[i] == rest[i - 1];
      }
    }
  }

  /** On deck keys the sort yields numbers ascending, then the coffee card, then "?". */
  lemma {:induction false} SortBucketsInOrder(bs: seq<Bucket>)
    requires DeckKeys(bs)
    ensures DeckKeys(SortBuckets(bs))
    ensures InDisplayOrder(SortBuckets(bs))
  {
    if bs != [] {
      var init := bs[..|bs| - 1];
      assert forall b :: b in init ==> b in bs;
      assert bs[|bs| - 1] in bs;
      SortBucketsInOrder(init);
      InsertInOrder(bs[|bs| - 1], SortBuckets(init));
    }
  }

  /** The vote values the deck produces: numbers, "?" (as null) and the coffee card. */
  predicate DeckValue(x: VoteValue) {
    x.Num? || x == Unknown || x == Str(Coffee)
  }

  /** Every card of the deck is voted as a deck value. */
  lemma DeckCardsAreDeckValues(c: Card)
    requires c in Deck
    ensures DeckValue(CardVote(c))
  {
  }

  /** Deck values have deck keys. */
  lemma DeckValueKey(x: VoteValue)
    requires DeckValue(x)
    ensures DeckKey(TallyKey(x))
  {
  }

  /**
   * The property names a plain JavaScript object inherits from
   * `Object.prototype`; a tally object indexed by one of them does not
   * behave as a fresh counter.
   */
  const InheritedNames: set<string> := {
    "constructor", "__defineGetter__", "__defineSetter__", "hasOwnProperty",
    "__lookupGetter__", "__lookupSetter__", "isPrototypeOf", "propertyIsEnumerable",
    "toString", "valueOf", "__proto__", "toLocaleString"}

  /** A deck card's tally key is never an inherited property name, so the deck's votes are counted as in a dictionary. */
  lemma DeckKeyNotInherited(x: VoteValue)
    requires DeckValue(x)
    ensures TallyKey(x) !in InheritedNames
  {
    var k := TallyKey(x);
    if x.Num? {
      assert k[0] == '-' || IsDigit(k[0]);
    } else {
      assert k == "?" || k == Coffee;
    }
    forall name | name in InheritedNames ensures name[0] == '_' || 'a' <= name[0] <= 'z' {
    }
  }

  /** The keys of a tally are keys of its votes. */
  lemma {:induction false} TallyKeysFromVotes(votes: seq<Vote>)
    ensures forall b :: b in Tally(votes) ==> exists v :: v in votes && TallyKey(v.value) == b.key
  {
    if votes != [] {
      var prefix := votes[..|votes| - 1];
      var last := votes[|votes| - 1];
      TallyKeysFromVotes(prefix);
      assert last in votes;
      assert forall v :: v in prefix ==> v in votes;
    }
  }

  /**
   * When every vote carries a deck value, no bucket key is an inherited
   * property name, so the source's plain-object tally agrees with `Tally`.
   */
  lemma DeckTallyKeysNotInherited(votes: seq<Vote>)
    requires forall v :: v in votes ==> DeckValue(v.value)
    ensures forall b :: b in Tally(votes) ==> b.key !in InheritedNames
  {
    TallyKeysFromVotes(votes);
    forall b | b in Tally(votes) ensures b.key !in InheritedNames {
      var v :| v in votes && TallyKey(v.value) == b.key;
      DeckKeyNotInherited(v.value);
    }
  }

  /**
   * When every vote carries a deck value, the buckets are shown with the
   * numbers ascending, then the coffee card, then "?", and none is lost.
   */
  lemma ResultsInDisplayOrder(votes: seq<Vote>)
    requires forall v :: v in votes ==> DeckValue(v.value)
    ensures DeckKeys(SortBuckets(Tally(votes)))
    ensures InDisplayOrder(SortBuckets(Tally(votes)))
    ensures multiset(SortBuckets(Tally(votes))) == multiset(Tally(votes))
  {
    var t := Tally(votes);
    TallyKeysFromVotes(votes);
    forall v | v in votes ensures DeckKey(TallyKey(v.value)) {
      DeckValueKey(v.value);
    }
    SortBucketsInOrder(t);
  }
}
