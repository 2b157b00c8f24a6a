/**
 * The room screen's rules: which state it shows, what the local player has
 * voted, and when the host's controls issue a command.
 */
module GameRoom {
  import opened Types
  import opened Reducer
  import opened Sync
  import opened GameUtils
  import VotingResults

  /** A route parameter counts only when present and non-empty, as in a JavaScript condition. */
  predicate Present(s: Option<string>) {
    s.Some? && s.value != ""
  }

  /**
   * The state the room works with: the synchronised state when there is
   * one; otherwise, for a host with a session id, a fresh initial state.
   */
  function EffectiveGameState(received: Option<GameState>, isHost: bool, gameId: Option<string>,
                              playerId: string, playerName: string): (r: Option<GameState>)
    ensures received.Some? ==> r == received
    ensures received.None? ==> (r.Some? <==> isHost && Present(gameId))
    ensures received.None? && r.Some? ==>
      && r.value.gameId == gameId.value
      && r.value.hostId == playerId
      && r.value.players == [Player(playerId, playerName, true)]
      && r.value.votes == [] && r.value.issues == [] && r.value.currentIssue == None
      && !r.value.votingInProgress && !r.value.votesRevealed
      && IdsUnique(r.value) && RevealInvariant(r.value)
  {
    if received.Some? then received
    else if isHost && Present(gameId) then Some(CreateInitialGameState(gameId.value, playerId, playerName))
    else None
  }

  // ---------------------------------------------------------------------
  // The local player's vote
  // ---------------------------------------------------------------------

  /** The value of the first vote by `playerId`, or `Unknown` (null) when there is none. */
  function FirstVoteValue(votes: seq<Vote>, playerId: string): (v: VoteValue)
    ensures !HasKey(votes, VoterKey, playerId) ==> v == Unknown
    ensures HasKey(votes, VoterKey, playerId) ==>
      exists i :: 0 <= i < |votes| && votes[i].playerId == playerId && v == votes[i].value
        && forall j :: 0 <= j < i ==> votes[j].playerId != playerId
  {
    if votes == [] then Unknown
    else if votes[0].playerId == playerId then
      assert votes[0] in votes;
      votes[0].value
    else
      var v := FirstVoteValue(votes[1..], playerId);
      assert forall w :: w in votes[1..] ==> w in votes;
      assert forall i :: 0 < i < |votes| ==> votes[i] == votes[1..][i - 1];
      assert HasKey(votes, VoterKey, playerId) ==> HasKey(votes[1..], VoterKey, playerId);
      v
  }

  /** The local player has a vote in the current round. */
  predicate HasVoted(s: GameState, playerId: string) {
    HasKey(s.votes, VoterKey, playerId)
  }

  /** The local player's vote: null without a vote, else the value of that player's first vote. */
  function CurrentVote(s: GameState, playerId: string): (v: VoteValue)
    ensures !HasVoted(s, playerId) ==> v == Unknown
    ensures HasVoted(s, playerId) ==>
      exists i :: 0 <= i < |s.votes| && s.votes[i].playerId == playerId && v == s.votes[i].value
        && forall j :: 0 <= j < i ==> s.votes[j].playerId != playerId
  {
    FirstVoteValue(s.votes, playerId)
  }

  /** A round is running, there are players, and there are as many votes as players. */
  predicate AllPlayersVoted(s: GameState) {
    s.votingInProgress && |s.players| > 0 && |s.votes| == |s.players|
  }

  /** Every vote belongs to a listed player. */
  predicate VotersArePlayers(s: GameState) {
    forall v :: v in s.votes ==> HasKey(s.players, PlayerKey, v.playerId)
  }

  function Keys<T(==,!new)>(s: seq<T>, key: T -> string): (ks: set<string>)
    ensures forall k :: k in ks <==> exists x :: x in s && key(x) == k
  {
    set x | x in s :: key(x)
  }

  lemma {:induction false} UniqueKeysCount<T(!new)>(s: seq<T>, key: T -> string)
    requires UniqueKeys(s, key)
    ensures |Keys(s, key)| == |s|
  {
    if s != [] {
      var tail := s[1..];
      assert UniqueKeys(tail, key) by {
        forall i, j | 0 <= i < j < |tail| ensures key(tail[i]) != key(tail[j]) {
          assert tail[i] == s[i + 1] && tail[j] == s[j + 1];
        }
      }
      UniqueKeysCount(tail, key);
      assert key(s[0]) !in Keys(tail, key);
      assert s == [s[0]] + tail;
      assert Keys(s, key) == {key(s[0])} + Keys(tail, key);
    }
  }

  lemma {:induction false} SubsetSize(a: set<string>, b: set<string>)
    requires a <= b
    ensures |a| <= |b|
    decreases |a|
  {
    if a != {} {
      var x :| x in a;
      SubsetSize(a - {x}, b - {x});
    }
  }

  lemma SubsetSameSize(a: set<string>, b: set<string>)
    requires a <= b && |a| == |b|
    ensures a == b
  {
    if a != b {
      var x :| x in b && x !in a;
      SubsetSize(a, b - {x});
    }
  }

  /**
   * When every vote is a listed player's and ids are unique, "as many votes
   * as players" during a round means exactly that every player has voted.
   */
  lemma AllPlayersVotedMeansEveryoneVoted(s: GameState)
    requires IdsUnique(s) && VotersArePlayers(s)
    requires s.votingInProgress && |s.players| > 0
    ensures AllPlayersVoted(s) <==> forall p :: p in s.players ==> HasVoted(s, p.id)
  {
    var voters := Keys(s.votes, VoterKey);
    var ids := Keys(s.players, PlayerKey);
    UniqueKeysCount(s.votes, VoterKey);
    UniqueKeysCount(s.players, PlayerKey);
    assert voters <= ids;
    if |s.votes| == |s.players| {
      SubsetSameSize(voters, ids);
      forall p | p in s.players ensures HasVoted(s, p.id) {
        assert p.id in ids;
      }
    }
    if forall p :: p in s.players ==> HasVoted(s, p.id) {
      assert ids <= voters;
      SubsetSize(ids, voters);
      SubsetSize(voters, ids);
    }
  }

  lemma {:induction false} FirstVoteValueOfLast(votes: seq<Vote>, v: Vote)
    requires !HasKey(votes, VoterKey, v.playerId)
    ensures FirstVoteValue(votes + [v], v.playerId) == v.value
  {
    if votes == [] {
      assert votes + [v] == [v];
    } else {
      assert votes[0] in votes;
      assert (votes + [v])[1..] == votes[1..] + [v];
      assert forall w :: w in votes[1..] ==> w in votes;
      FirstVoteValueOfLast(votes[1..], v);
    }
  }

  /** Once a player's vote is folded in, the room shows that player as voted, with that value. */
  lemma SubmittedVoteIsCurrent(s: GameState, v: Vote)
    ensures HasVoted(Next(s, VoteSubmitted(v)), v.playerId)
    ensures CurrentVote(Next(s, VoteSubmitted(v)), v.playerId) == v.value
  {
    var n := Next(s, VoteSubmitted(v));
    var rest := Without(s.votes, VoterKey, v.playerId);
    assert n.votes == rest + [v];
    assert n.votes[|n.votes| - 1] == v;
    assert v in n.votes;
    FirstVoteValueOfLast(rest, v);
  }

  /** Once a player has left, the room shows no vote for that player. */
  lemma LeftPlayerHasNoVote(s: GameState, id: string)
    ensures !HasVoted(Next(s, PlayerLeft(id)), id)
    ensures CurrentVote(Next(s, PlayerLeft(id)), id) == Unknown
  {
    var n := Next(s, PlayerLeft(id));
    assert forall i :: 0 <= i < |n.votes| ==> n.votes[i] in n.votes;
  }

  // ---------------------------------------------------------------------
  // Host controls
  // ---------------------------------------------------------------------

  /** The reveal buttons are shown to the host during a round, before the reveal. */
  predicate RevealButtonsShown(isHost: bool, s: GameState) {
    s.votingInProgress && isHost && !s.votesRevealed
  }

  /** "Reveal Votes" is enabled once everyone has voted. */
  predicate RevealVotesEnabled(isHost: bool, s: GameState) {
    RevealButtonsShown(isHost, s) && AllPlayersVoted(s)
  }

  /** "Reveal Now" is enabled once the local player has voted. */
  predicate RevealNowEnabled(isHost: bool, s: GameState, playerId: string) {
    RevealButtonsShown(isHost, s) && HasVoted(s, playerId)
  }

  /** The reveal handler asks for a reveal only on the host's screen. */
  function HandleRevealVotes(isHost: bool): (c: Option<Command>)
    ensures c.Some? <==> isHost
    ensures c.Some? ==> c.value == RevealVotesCall
  {
    if isHost then Some(RevealVotesCall) else None
  }

  /** The reset handler asks for a reset only on the host's screen. */
  function HandleResetVoting(isHost: bool): (c: Option<Command>)
    ensures c.Some? <==> isHost
    ensures c.Some? ==> c.value == ResetVotingCall
  {
    if isHost then Some(ResetVotingCall) else None
  }

  /**
   * "Save Estimate": for the host, with a current issue, revealed votes and
   * at least one numeric vote, it resets the round; it never records an
   * estimate.
   */
  function HandleEstimateIssue(isHost: bool, s: GameState): (c: Option<Command>)
    ensures c.Some? <==> isHost && s.currentIssue.Some? && s.votesRevealed
                         && exists i :: 0 <= i < |s.votes| && s.votes[i].value.Num?
    ensures c.Some? ==> c.value == ResetVotingCall
  {
    if isHost && s.currentIssue.Some? && s.votesRevealed then
      var numeric := VotingResults.NumericVotes(s.votes);
      if |numeric| > 0 then
        assert exists i :: 0 <= i < |s.votes| && s.votes[i].value.Num? by {
          assert numeric[0] in numeric;
          var i :| 0 <= i < |s.votes| && s.votes[i].value == Num(numeric[0]);
          assert s.votes[i].value.Num?;
        }
        Some(ResetVotingCall)
      else
        assert forall i :: 0 <= i < |s.votes| && s.votes[i].value.Num? ==> s.votes[i].value.n in numeric;
        None
    else None
  }

  /**
   * A reveal from either enabled button, once folded, keeps the reveal
   * invariant and one vote per player, and reveals every vote cast.
   */
  lemma RevealFromButtonsKeepsInvariants(isHost: bool, s: GameState, playerId: string)
    requires IdsUnique(s)
    requires RevealVotesEnabled(isHost, s) || RevealNowEnabled(isHost, s, playerId)
    ensures HandleRevealVotes(isHost) == Some(RevealVotesCall)
    ensures var n := Next(s, VotesRevealed(MarkRevealed(s.votes)));
      && RevealInvariant(n) && IdsUnique(n) && n.votesRevealed
      && |n.votes| == |s.votes| > 0
      && forall i :: 0 <= i < |n.votes| ==> n.votes[i].revealed
  {
    MarkRevealedKeepsVoters(s.votes);
  }
}
