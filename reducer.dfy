/**
 * The event reducer of the synchronisation hook: how one `GameEvent` is
 * folded onto the local `GameState`, and the invariants that folding keeps.
 */
module Reducer {
  import opened Types

  // ---------------------------------------------------------------------
  // Keyed sequences: the players (keyed by id) and the votes (keyed by the
  // voter's id) are both filtered and searched by a string key.
  // ---------------------------------------------------------------------

  /** Some element of `s` has key `k`. */
  predicate HasKey<T(==,!new)>(s: seq<T>, key: T -> string, k: string) {
    exists x :: x in s && key(x) == k
  }

  /** No two elements of `s` share a key. */
  predicate UniqueKeys<T(==,!new)>(s: seq<T>, key: T -> string) {
    forall i, j :: 0 <= i < j < |s| ==> key(s[i]) != key(s[j])
  }

  /** The elements of `s` whose key is not `k` (the source's `filter`). */
  function Without<T(==,!new)>(s: seq<T>, key: T -> string, k: string): (r: seq<T>)
    ensures forall x :: x in r <==> x in s && key(x) != k
    ensures |r| <= |s|
  {
    if s == [] then []
    else (if key(s[0]) == k then [] else [s[0]]) + Without(s[1..], key, k)
  }

  /** Filtering distributes over concatenation: the survivors keep their order. */
  lemma {:induction false} WithoutAppend<T(!new)>(a: seq<T>, b: seq<T>, key: T -> string, k: string)
    ensures Without(a + b, key, k) == Without(a, key, k) + Without(b, key, k)
  {
    if a == [] {
      assert a + b == b;
    } else {
      assert (a + b)[0] == a[0];
      assert (a + b)[1..] == a[1..] + b;
      WithoutAppend(a[1..], b, key, k);
    }
  }

  /** Filtering out a key that no element carries changes nothing. */
  lemma {:induction false} WithoutAbsent<T(!new)>(s: seq<T>, key: T -> string, k: string)
    requires !HasKey(s, key, k)
    ensures Without(s, key, k) == s
  {
    if s != [] {
      assert s[0] in s;
      WithoutAbsent(s[1..], key, k);
    }
  }

  lemma ConsUnique<T(!new)>(x: T, t: seq<T>, key: T -> string)
    requires UniqueKeys(t, key)
    requires !HasKey(t, key, key(x))
    ensures UniqueKeys([x] + t, key)
  {
    var s := [x] + t;
    forall i, j | 0 <= i < j < |s| ensures key(s[i]) != key(s[j]) {
      assert s[j] == t[j - 1] && t[j - 1] in t;
      if i > 0 {
        assert s[i] == t[i - 1];
      }
    }
  }

  lemma SnocUnique<T(!new)>(t: seq<T>, x: T, key: T -> string)
    requires UniqueKeys(t, key)
    requires !HasKey(t, key, key(x))
    ensures UniqueKeys(t + [x], key)
  {
    var s := t + [x];
    forall i, j | 0 <= i < j < |s| ensures key(s[i]) != key(s[j]) {
      assert s[i] == t[i] && t[i] in t;
      if j < |t| {
        assert s[j] == t[j];
      }
    }
  }

  /** Filtering keeps keys unique. */
  lemma {:induction false} WithoutKeepsUnique<T(!new)>(s: seq<T>, key: T -> string, k: string)
    requires UniqueKeys(s, key)
    ensures UniqueKeys(Without(s, key, k), key)
  {
    if s != [] {
      var tail := s[1..];
      assert forall i, j :: 0 <= i < j < |tail| ==> tail[i] == s[i + 1] && tail[j] == s[j + 1];
      WithoutKeepsUnique(tail, key, k);
      var rest := Without(tail, key, k);
      if key(s[0]) != k {
        forall y | y in rest ensures key(y) != key(s[0]) {
          var j :| 0 <= j < |tail| && tail[j] == y;
          assert s[j + 1] == y;
        }
        ConsUnique(s[0], rest, key);
      }
    }
  }

  // ---------------------------------------------------------------------
  // Issue estimates
  // ---------------------------------------------------------------------

  /** Sets the estimate of every issue whose id is `id` (the source's `map`). */
  function SetEstimate(issues: seq<Issue>, id: string, est: int): (r: seq<Issue>)
    ensures |r| == |issues|
    ensures forall i :: 0 <= i < |r| ==>
      && r[i].id == issues[i].id
      && r[i].title == issues[i].title
      && r[i].description == issues[i].description
      && r[i].estimate == (if issues[i].id == id then Some(est) else issues[i].estimate)
  {
    if issues == [] then []
    else
      var head := if issues[0].id == id then issues[0].(estimate := Some(est)) else issues[0];
      [head] + SetEstimate(issues[1..], id, est)
  }

  /** Estimating an issue id that is not in the list is a no-op. */
  lemma SetEstimateUnknownId(issues: seq<Issue>, id: string, est: int)
    requires forall i :: 0 <= i < |issues| ==> issues[i].id != id
    ensures SetEstimate(issues, id, est) == issues
  {
    var r := SetEstimate(issues, id, est);
    assert forall i :: 0 <= i < |r| ==> r[i] == issues[i];
  }

  // ---------------------------------------------------------------------
  // The reducer
  // ---------------------------------------------------------------------

  /**
   * The outcome of folding one event: `Kept` where the source returns the
   * previous state as it is (a duplicate join), `Replaced` where it builds
   * a new state, which is also what makes the host publish a snapshot.
   */
  datatype Step = Kept | Replaced(next: GameState)

  function Apply(prev: GameState, e: GameEvent): (o: Step)
    ensures o.Kept? <==> e.PlayerJoined? && HasKey(prev.players, PlayerKey, e.player.id)
    ensures o.Replaced? ==> o.next.gameId == prev.gameId && o.next.hostId == prev.hostId
  {
    match e
    case PlayerJoined(p) =>
      if HasKey(prev.players, PlayerKey, p.id) then Kept
      else Replaced(prev.(players := prev.players + [p]))
    case PlayerLeft(id) =>
      Replaced(prev.(players := Without(prev.players, PlayerKey, id),
                     votes := Without(prev.votes, VoterKey, id)))
    case VoteSubmitted(v) =>
      Replaced(prev.(votes := Without(prev.votes, VoterKey, v.playerId) + [v]))
    case VotesRevealed(vs) =>
      Replaced(prev.(votes := vs, votesRevealed := true))
    case VotingStarted(issue) =>
      Replaced(prev.(currentIssue := Some(issue), votes := [],
                     votingInProgress := true, votesRevealed := false))
    case VotingReset =>
      Replaced(prev.(votes := [], votingInProgress := false, votesRevealed := false))
    case IssueAdded(issue) =>
      Replaced(prev.(issues := prev.issues + [issue]))
    case IssueSelected(issue) =>
      Replaced(prev.(currentIssue := Some(issue), votes := [],
                     votingInProgress := false, votesRevealed := false))
    case IssueEstimated(id, est) =>
      Replaced(prev.(issues := SetEstimate(prev.issues, id, est)))
  }

  /** The local state after the event, whichever way it went. */
  function Next(prev: GameState, e: GameEvent): (s: GameState)
    ensures s.gameId == prev.gameId && s.hostId == prev.hostId
  {
    match Apply(prev, e)
    case Kept => prev
    case Replaced(n) => n
  }

  /** The state after a run of events delivered in order. */
  function Replay(s: GameState, es: seq<GameEvent>): GameState
    decreases |es|
  {
    if es == [] then s else Replay(Next(s, es[0]), es[1..])
  }

  // ---------------------------------------------------------------------
  // Invariants
  // ---------------------------------------------------------------------

  /** Player ids are unique and every player has at most one vote. */
  predicate IdsUnique(s: GameState) {
    UniqueKeys(s.players, PlayerKey) && UniqueKeys(s.votes, VoterKey)
  }

  /** Votes can only be revealed during a round. */
  predicate RevealInvariant(s: GameState) {
    s.votesRevealed ==> s.votingInProgress
  }

  /** A revealed vote list carries at most one vote per player. */
  predicate EventWellFormed(e: GameEvent) {
    e.VotesRevealed? ==> UniqueKeys(e.votes, VoterKey)
  }

  // ---------------------------------------------------------------------
  // Properties of single events
  // ---------------------------------------------------------------------

  /** A join appends the player at the end when its id is new, and otherwise changes nothing. */
  lemma JoinAppendsOnlyWhenAbsent(s: GameState, p: Player)
    ensures HasKey(s.players, PlayerKey, p.id) ==> Next(s, PlayerJoined(p)) == s
    ensures !HasKey(s.players, PlayerKey, p.id) ==>
      Next(s, PlayerJoined(p)) == s.(players := s.players + [p])
  {
  }

  /** Delivering the same join twice is the same as delivering it once. */
  lemma JoinIdempotent(s: GameState, p: Player)
    ensures Next(Next(s, PlayerJoined(p)), PlayerJoined(p)) == Next(s, PlayerJoined(p))
  {
    var once := Next(s, PlayerJoined(p));
    if !HasKey(s.players, PlayerKey, p.id) {
      assert p in once.players;
    }
  }

  /**
   * A leave removes every player and every vote with that id, keeps all
   * others, and touches nothing else; an unknown id changes nothing.
   */
  lemma LeaveRemovesPlayerAndVotes(s: GameState, id: string)
    ensures var n := Next(s, PlayerLeft(id));
      && (forall p :: p in n.players <==> p in s.players && p.id != id)
      && (forall v :: v in n.votes <==> v in s.votes && v.playerId != id)
      && n.players == Without(s.players, PlayerKey, id)
      && n.votes == Without(s.votes, VoterKey, id)
      && n.(players := s.players, votes := s.votes) == s
    ensures !HasKey(s.players, PlayerKey, id) && !HasKey(s.votes, VoterKey, id) ==>
      Next(s, PlayerLeft(id)) == s
  {
    if !HasKey(s.players, PlayerKey, id) && !HasKey(s.votes, VoterKey, id) {
      WithoutAbsent(s.players, PlayerKey, id);
      WithoutAbsent(s.votes, VoterKey, id);
    }
  }

  /**
   * A submitted vote becomes the last vote and the only one of its player;
   * the votes of every other player are unchanged, and nothing else is.
   */
  lemma VoteReplacesPrevious(s: GameState, v: Vote)
    ensures var n := Next(s, VoteSubmitted(v));
      && n.votes == Without(s.votes, VoterKey, v.playerId) + [v]
      && |n.votes| > 0
      && n.votes[|n.votes| - 1] == v
      && (forall i :: 0 <= i < |n.votes| - 1 ==> n.votes[i].playerId != v.playerId)
      && (forall w: Vote :: w.playerId != v.playerId ==> (w in n.votes <==> w in s.votes))
      && n.(votes := s.votes) == s
  {
    var n := Next(s, VoteSubmitted(v));
    var rest := Without(s.votes, VoterKey, v.playerId);
    assert n.votes == rest + [v];
    forall i | 0 <= i < |n.votes| - 1 ensures n.votes[i].playerId != v.playerId {
      assert n.votes[i] == rest[i] && rest[i] in rest;
    }
  }

  /** Last write wins: a second vote of the same player overrides the first entirely. */
  lemma LastVoteWins(s: GameState, v1: Vote, v2: Vote)
    requires v1.playerId == v2.playerId
    ensures Next(Next(s, VoteSubmitted(v1)), VoteSubmitted(v2)) == Next(s, VoteSubmitted(v2))
  {
    var k := v1.playerId;
    var rest := Without(s.votes, VoterKey, k);
    WithoutAppend(rest, [v1], VoterKey, k);
    WithoutAbsent(rest, VoterKey, k);
    assert Without([v1], VoterKey, k) == [];
  }

  /** Votes of two different players commute as a set. */
  lemma VotesCommute(s: GameState, v1: Vote, v2: Vote)
    requires v1.playerId != v2.playerId
    ensures forall w: Vote ::
      w in Next(Next(s, VoteSubmitted(v1)), VoteSubmitted(v2)).votes <==>
      w in Next(Next(s, VoteSubmitted(v2)), VoteSubmitted(v1)).votes
  {
  }

  /** Starting a round, selecting an issue and resetting clear the votes and set the flags. */
  lemma RoundEvents(s: GameState, issue: Issue)
    ensures Next(s, VotingStarted(issue)) == s.(currentIssue := Some(issue), votes := [],
                                               votingInProgress := true, votesRevealed := false)
    ensures Next(s, IssueSelected(issue)) == s.(currentIssue := Some(issue), votes := [],
                                               votingInProgress := false, votesRevealed := false)
    ensures var n := Next(s, VotingReset);
      n.votes == [] && !n.votingInProgress && !n.votesRevealed
      && n.currentIssue == s.currentIssue && n.issues == s.issues && n.players == s.players
  {
  }

  /**
   * Revealing replaces the votes wholesale, sets `votesRevealed`, and leaves
   * everything else, `votingInProgress` included, as it was.
   */
  lemma RevealKeepsRoundFlag(s: GameState, vs: seq<Vote>)
    ensures Next(s, VotesRevealed(vs)) == s.(votes := vs, votesRevealed := true)
    ensures var n := Next(s, VotesRevealed(vs));
      n.votes == vs && n.votesRevealed && n.votingInProgress == s.votingInProgress
  {
  }

  /** Adding an issue appends it; estimating changes estimates of matching ids only. */
  lemma IssueEvents(s: GameState, issue: Issue, id: string, est: int)
    ensures Next(s, IssueAdded(issue)) == s.(issues := s.issues + [issue])
    ensures var n := Next(s, IssueEstimated(id, est));
      && n.(issues := s.issues) == s
      && |n.issues| == |s.issues|
      && (forall i :: 0 <= i < |n.issues| ==>
            n.issues[i] == if s.issues[i].id == id then s.issues[i].(estimate := Some(est)) else s.issues[i])
    ensures (forall i :: 0 <= i < |s.issues| ==> s.issues[i].id != id) ==>
      Next(s, IssueEstimated(id, est)) == s
  {
    if forall i :: 0 <= i < |s.issues| ==> s.issues[i].id != id {
      SetEstimateUnknownId(s.issues, id, est);
    }
  }

  /** Every event keeps player ids and voters unique. */
  lemma NextKeepsIdsUnique(s: GameState, e: GameEvent)
    requires IdsUnique(s)
    requires EventWellFormed(e)
    ensures IdsUnique(Next(s, e))
  {
    match e
    case PlayerJoined(p) =>
      if !HasKey(s.players, PlayerKey, p.id) {
        SnocUnique(s.players, p, PlayerKey);
      }
    case PlayerLeft(id) =>
      WithoutKeepsUnique(s.players, PlayerKey, id);
      WithoutKeepsUnique(s.votes, VoterKey, id);
    case VoteSubmitted(v) =>
      var rest := Without(s.votes, VoterKey, v.playerId);
      WithoutKeepsUnique(s.votes, VoterKey, v.playerId);
      SnocUnique(rest, v, VoterKey);
    case VotesRevealed(_) =>
    case VotingStarted(_) =>
    case VotingReset =>
    case IssueAdded(_) =>
    case IssueSelected(_) =>
    case IssueEstimated(_, _) =>
  }

  /**
   * Every event keeps the reveal invariant, provided a reveal happens only
   * during a round; the reducer itself does not check this.
   */
  lemma NextKeepsRevealInvariant(s: GameState, e: GameEvent)
    requires RevealInvariant(s)
    requires e.VotesRevealed? ==> s.votingInProgress
    ensures RevealInvariant(Next(s, e))
  {
  }

  /** A reveal outside a round always breaks the reveal invariant. */
  lemma RevealOutsideRoundBreaksInvariant(s: GameState, vs: seq<Vote>)
    requires !s.votingInProgress
    ensures !RevealInvariant(Next(s, VotesRevealed(vs)))
  {
  }

  // ---------------------------------------------------------------------
  // Properties of runs of events
  // ---------------------------------------------------------------------

  /** No run of events changes the session id or the host. */
  lemma {:induction false} ReplayKeepsAuthority(s: GameState, es: seq<GameEvent>)
    ensures Replay(s, es).gameId == s.gameId
    ensures Replay(s, es).hostId == s.hostId
    decreases |es|
  {
    if es != [] {
      ReplayKeepsAuthority(Next(s, es[0]), es[1..]);
    }
  }

  /** A run of well-formed events keeps player ids and voters unique. */
  lemma {:induction false} ReplayKeepsIdsUnique(s: GameState, es: seq<GameEvent>)
    requires IdsUnique(s)
    requires forall i :: 0 <= i < |es| ==> EventWellFormed(es[i])
    ensures IdsUnique(Replay(s, es))
    decreases |es|
  {
    if es != [] {
      NextKeepsIdsUnique(s, es[0]);
      ReplayKeepsIdsUnique(Next(s, es[0]), es[1..]);
    }
  }

  /** Without a state there is nothing to fold onto, whatever the event. */
  function Reduce(prev: Option<GameState>, e: GameEvent): (r: Option<GameState>)
    ensures r.None? <==> prev.None?
    ensures prev.Some? ==> r.value.hostId == prev.value.hostId
  {
    match prev
    case None => None
    case Some(s) => Some(Next(s, e))
  }
}
