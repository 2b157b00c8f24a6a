/**
 * One client of the synchronisation hook: its local state, what it
 * publishes on the shared channel, and how it reacts to what arrives.
 *
 * Publishing is modelled as appending to `outbox`; a delivery from the
 * channel is a call of one of the `On...` methods.
 */
module Sync {
  import opened Types
  import opened Reducer

  /** A card as the voting UI passes it: a number or a string. */
  datatype Card = NumberCard(n: int) | TextCard(s: string)

  const Coffee: string := "\U{2615}"

  /** The deck offered to voters, in display order. */
  const Deck: seq<Card> := [
    NumberCard(1), NumberCard(2), NumberCard(3), NumberCard(5), NumberCard(8),
    NumberCard(13), NumberCard(21), NumberCard(34), NumberCard(55), NumberCard(89),
    TextCard("?"), TextCard(Coffee)]

  /** The value a card is voted as: "?" travels as null, everything else as it is. */
  function CardVote(c: Card): (v: VoteValue)
    ensures v == Unknown <==> c == TextCard("?")
    ensures c.NumberCard? ==> v == Num(c.n)
    ensures c.TextCard? && c.s != "?" ==> v == Str(c.s)
  {
    match c
    case NumberCard(n) => Num(n)
    case TextCard(s) => if s == "?" then Unknown else Str(s)
  }

  /** The votes with every `revealed` flag set, in the same order. */
  function MarkRevealed(vs: seq<Vote>): (r: seq<Vote>)
    ensures |r| == |vs|
    ensures forall i :: 0 <= i < |r| ==>
      && r[i].playerId == vs[i].playerId
      && r[i].playerName == vs[i].playerName
      && r[i].value == vs[i].value
      && r[i].revealed
  {
    if vs == [] then [] else [vs[0].(revealed := true)] + MarkRevealed(vs[1..])
  }

  /** Marking votes revealed keeps one vote per player. */
  lemma MarkRevealedKeepsVoters(vs: seq<Vote>)
    requires UniqueKeys(vs, VoterKey)
    ensures UniqueKeys(MarkRevealed(vs), VoterKey)
  {
    var r := MarkRevealed(vs);
    forall i, j | 0 <= i < j < |r| ensures VoterKey(r[i]) != VoterKey(r[j]) {
      assert VoterKey(vs[i]) != VoterKey(vs[j]);
    }
  }

  /** A call of one of the commands the hook offers to the UI. */
  datatype Command =
    | SubmitVoteCall(card: Card)
    | RevealVotesCall
    | StartVotingCall(issue: Issue)
    | ResetVotingCall
    | AddIssueCall(issue: Issue)
    | SelectIssueCall(issue: Issue)
    | EstimateIssueCall(issueId: string, estimate: int)

  /** The three kinds of message on the channel. */
  datatype Message =
    | Snapshot(state: GameState)       // "game-state"
    | Event(event: GameEvent)          // "game-event"
    | StateRequest(playerId: string)   // "request-state"

  class SyncClient {
    const playerId: string
    const playerName: string
    /** Whether the channel handle has been stored; commands are dropped until it is. */
    var hasChannel: bool
    var state: Option<GameState>
    var outbox: seq<Message>

    /** The local state, when there is one, has unique player ids and voters. */
    ghost predicate Consistent()
      reads this
    {
      state.Some? ==> IdsUnique(state.value)
    }

    constructor (playerId: string, playerName: string)
      ensures this.playerId == playerId && this.playerName == playerName
      ensures !hasChannel && state == None && outbox == []
    {
      this.playerId := playerId;
      this.playerName := playerName;
      hasChannel := false;
      state := None;
      outbox := [];
    }

    /** The channel is stored and a snapshot is requested once. */
    method Attach()
      modifies this`hasChannel, this`outbox
      ensures hasChannel
      ensures outbox == old(outbox) + [StateRequest(playerId)]
    {
      hasChannel := true;
      outbox := outbox + [StateRequest(playerId)];
    }

    /**
     * A "game-event" delivery. Without local state nothing changes, except
     * that a join makes the client ask for a snapshot. With local state the
     * event is folded, and a client that is the host publishes the new state.
     */
    method OnGameEvent(e: GameEvent)
      modifies this`state, this`outbox
      ensures old(state).None? ==> state == None
      ensures old(state).None? ==>
        outbox == old(outbox) + (if e.PlayerJoined? && hasChannel then [StateRequest(playerId)] else [])
      ensures state == Reduce(old(state), e)
      ensures old(state).Some? ==> state == Some(Next(old(state).value, e))
      ensures old(state).Some? ==>
        var o := Apply(old(state).value, e);
        outbox == old(outbox) + (if o.Replaced? && hasChannel && o.next.hostId == playerId
                                 then [Snapshot(o.next)] else [])
      ensures old(Consistent()) && EventWellFormed(e) ==> Consistent()
    {
      match state
      case None =>
        if e.PlayerJoined? && hasChannel {
          outbox := outbox + [StateRequest(playerId)];
        }
      case Some(prev) =>
        var o := Apply(prev, e);
        if o.Replaced? {
          state := Some(o.next);
          if hasChannel && o.next.hostId == playerId {
            outbox := outbox + [Snapshot(o.next)];
          }
        }
        if IdsUnique(prev) && EventWellFormed(e) {
          NextKeepsIdsUnique(prev, e);
        }
    }

    /** A "game-state" delivery replaces the local state wholesale. */
    method OnGameState(s: GameState)
      modifies this`state
      ensures state == Some(s)
    {
      state := Some(s);
    }

    /** A "request-state" delivery is answered by the host only, with its current state. */
    method OnStateRequest()
      modifies this`outbox
      ensures outbox == old(outbox) +
        (if state.Some? && state.value.hostId == playerId then [Snapshot(state.value)] else [])
    {
      if state.Some? && state.value.hostId == playerId {
        outbox := outbox + [Snapshot(state.value)];
      }
    }

    /**
     * After entering presence, a host missing from its own player list adds
     * itself at the end and publishes the result; in every other case
     * nothing happens.
     */
    method OnPresenceEntered()
      modifies this`state, this`outbox
      ensures
        if old(state).Some? && old(state).value.hostId == playerId
           && !HasKey(old(state).value.players, PlayerKey, playerId)
        then
          var s := old(state).value.(players := old(state).value.players + [Player(playerId, playerName, true)]);
          state == Some(s) && outbox == old(outbox) + [Snapshot(s)]
        else
          state == old(state) && outbox == old(outbox)
      ensures state.Some? && state.value.hostId == playerId ==>
        HasKey(state.value.players, PlayerKey, playerId)
      ensures old(Consistent()) ==> Consistent()
    {
      if state.Some? && state.value.hostId == playerId {
        var cur := state.value;
        if !HasKey(cur.players, PlayerKey, playerId) {
          var me := Player(playerId, playerName, true);
          var s := cur.(players := cur.players + [me]);
          assert me in s.players;
          if UniqueKeys(cur.players, PlayerKey) {
            SnocUnique(cur.players, me, PlayerKey);
          }
          state := Some(s);
          outbox := outbox + [Snapshot(s)];
        }
      }
    }

    /** Votes with the given card, as long as there is a channel and a state. */
    method SubmitVote(card: Card)
      modifies this`outbox
      ensures outbox == old(outbox) +
        (if hasChannel && state.Some?
         then [Event(VoteSubmitted(Vote(playerId, playerName, CardVote(card), false)))]
         else [])
    {
      if !hasChannel || state.None? {
        return;
      }
      var vote := Vote(playerId, playerName, CardVote(card), false);
      outbox := outbox + [Event(VoteSubmitted(vote))];
    }

    /** Publishes the current votes, all marked revealed. */
    method RevealVotes()
      modifies this`outbox
      ensures outbox == old(outbox) +
        (if hasChannel && state.Some?
         then [Event(VotesRevealed(MarkRevealed(state.value.votes)))]
         else [])
    {
      if !hasChannel || state.None? {
        return;
      }
      outbox := outbox + [Event(VotesRevealed(MarkRevealed(state.value.votes)))];
    }

    /** Publishes one event when there is a channel; the local state waits for its echo. */
    method PublishEvent(e: GameEvent)
      modifies this`outbox
      ensures outbox == old(outbox) + (if hasChannel then [Event(e)] else [])
    {
      if !hasChannel {
        return;
      }
      outbox := outbox + [Event(e)];
    }

    method StartVoting(issue: Issue)
      modifies this`outbox
      ensures outbox == old(outbox) + (if hasChannel then [Event(VotingStarted(issue))] else [])
    {
      PublishEvent(VotingStarted(issue));
    }

    method ResetVoting()
      modifies this`outbox
      ensures outbox == old(outbox) + (if hasChannel then [Event(VotingReset)] else [])
    {
      PublishEvent(VotingReset);
    }

    method AddIssue(issue: Issue)
      modifies this`outbox
      ensures outbox == old(outbox) + (if hasChannel then [Event(IssueAdded(issue))] else [])
    {
      PublishEvent(IssueAdded(issue));
    }

    method SelectIssue(issue: Issue)
      modifies this`outbox
      ensures outbox == old(outbox) + (if hasChannel then [Event(IssueSelected(issue))] else [])
    {
      PublishEvent(IssueSelected(issue));
    }

    method EstimateIssue(issueId: string, estimate: int)
      modifies this`outbox
      ensures outbox == old(outbox) + (if hasChannel then [Event(IssueEstimated(issueId, estimate))] else [])
    {
      PublishEvent(IssueEstimated(issueId, estimate));
    }

    /** With a channel, adopts the given state locally and publishes it as the snapshot. */
    method UpdateGameState(s: GameState)
      modifies this`state, this`outbox
      ensures hasChannel ==> state == Some(s) && outbox == old(outbox) + [Snapshot(s)]
      ensures !hasChannel ==> state == old(state) && outbox == old(outbox)
    {
      if !hasChannel {
        return;
      }
      state := Some(s);
      outbox := outbox + [Snapshot(s)];
    }
  }
}
