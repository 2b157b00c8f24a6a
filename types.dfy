/**
 * The entities of a planning-poker session, as they travel over the channel.
 *
 * `GameState.hostId` and `Player.isHost` are not declared by the original
 * type definitions, but the hook and the components read and write both, so
 * they are part of this model.
 */
module Types {

  datatype Option<+T> = None | Some(value: T)

  /** A participant; `isHost` is set on the host's own entry only. */
  datatype Player = Player(id: string, name: string, isHost: bool)

  /**
   * The value of a vote: a number card, a text card (such as the coffee
   * card), or `Unknown`, which is how the "?" card and JSON `null` travel.
   */
  datatype VoteValue = Num(n: int) | Str(s: string) | Unknown

  datatype Vote = Vote(playerId: string, playerName: string, value: VoteValue, revealed: bool)

  /** An issue to estimate; `description` and `estimate` may be absent. */
  datatype Issue = Issue(id: string, title: string, description: Option<string>, estimate: Option<int>)

  /** The replicated session state. */
  datatype GameState = GameState(
    gameId: string,
    hostId: string,
    players: seq<Player>,
    currentIssue: Option<Issue>,
    votes: seq<Vote>,
    votingInProgress: bool,
    votesRevealed: bool,
    issues: seq<Issue>)

  /** The closed vocabulary of incremental changes. */
  datatype GameEvent =
    | PlayerJoined(player: Player)
    | PlayerLeft(playerId: string)
    | VoteSubmitted(vote: Vote)
    | VotesRevealed(votes: seq<Vote>)
    | VotingStarted(issue: Issue)
    | VotingReset
    | IssueAdded(issue: Issue)
    | IssueSelected(issue: Issue)
    | IssueEstimated(issueId: string, estimate: int)

  function PlayerKey(p: Player): string { p.id }

  function VoterKey(v: Vote): string { v.playerId }
}
