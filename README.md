# Planning-poker session core in Dafny

This project models the core of a planning-poker web application.

One player hosts a session. Other players join through a shared real-time channel and vote with cards from a Fibonacci deck. The host reveals the votes, resets the round and manages a list of issues to estimate.

Every client keeps its own copy of the session state, a `GameState`. It folds each `GameEvent` that arrives on the channel into that copy. The host also republishes the whole state as a snapshot after every event for which the reducer builds a new state. That is every event except a join of a player already present, even when the new state equals the old one.

The model covers:

- **`Types`** (`types.dfy`): players, votes, issues, the session state and the nine events.
  - `GameState.hostId` and `Player.isHost` are included although `src/types.ts` does not declare them. The code reads and writes both, and the model follows the code.
- **`Reducer`** (`reducer.dfy`): the event reducer of the synchronisation hook as pure functions.
  - `Apply` returns either `Kept` (the reducer returned the previous state) or `Replaced` with the new state.
  - `Next` is the resulting state, and `Replay` folds a sequence of events.
  - Also proved: the properties of each event, the preservation of unique player ids and unique voters, and the reveal invariant ("votes revealed only during a round"). The reveal invariant holds only when a reveal is issued during a round.
- **`GameUtils`** (`game_utils.dfy`):
  - the host's initial state;
  - the average (rounded to one decimal place) and the median of the numeric votes, over exact rationals.
- **`Sync`** (`sync_client.dfy`): one client of the hook, as the class `SyncClient`.
  - Its fields are the optional local state, whether a channel handle is held, and an `outbox`. Each message published on the channel is appended to the outbox.
  - Inbound messages are method calls: `OnGameEvent`, `OnGameState`, `OnStateRequest` and `OnPresenceEntered`.
  - The UI commands are methods: `SubmitVote`, `RevealVotes`, `StartVoting`, `ResetVoting`, `AddIssue`, `SelectIssue`, `EstimateIssue` and `UpdateGameState`.
- **`VotingResults`** (`voting_results.dfy`): the results panel.
  - The numeric votes, and the average and median shown (0 when no vote is numeric).
  - The tally of votes per card key, as a loop (`CountVotes`) proved against a fold (`Tally`).
  - The largest bucket.
  - The display order of the buckets, modelled as a stable insertion sort with the source's comparator. It is proved to put numbers ascending, then the coffee card, then "?".
- **`GameRoom`** (`game_room.dfy`): the room screen's rules.
  - The effective state (received or freshly created for the host).
  - The local player's current vote, whether that player has voted, and whether everybody has voted.
  - The host-only reveal, reset and "save estimate" handlers, and the enabling of the reveal buttons.
- **`IssueManager`** (`issue_manager.dfy`): the add-issue form, as the class `IssueForm`, and the host-only selection and "Start Voting" controls.
  - JavaScript's `trim` is modelled with its exact whitespace set.

## Model

| member | source | states |
|---|---|---|
| Reducer.Without | src/hooks/useAbly.ts:58-59 | the filter keeps exactly the elements whose key differs from the given one, and never grows |
| Reducer.WithoutAppend | src/hooks/useAbly.ts:58-59 | filtering distributes over concatenation, so the filter keeps the original order |
| Reducer.WithoutAbsent | src/hooks/useAbly.ts:55-61 | filtering out a key that does not occur changes nothing |
| Reducer.ConsUnique | src/hooks/useAbly.ts:45-54 | prepending an element whose key is absent keeps keys unique |
| Reducer.SnocUnique | src/hooks/useAbly.ts:50-53 | appending an element whose key is absent keeps keys unique (join and host self-add) |
| Reducer.WithoutKeepsUnique | src/hooks/useAbly.ts:55-70 | filtering keeps keys unique |
| Reducer.SetEstimate | src/hooks/useAbly.ts:110-119 | same length and order; each issue with the given id gets exactly that estimate; every other field and every other issue is unchanged |
| Reducer.SetEstimateUnknownId | src/hooks/useAbly.ts:110-119 | estimating an id that no issue has is a no-op |
| Reducer.Apply | src/hooks/useAbly.ts:44-122 | the reducer keeps the previous state exactly when a join names a player already present; every new state keeps `gameId` and `hostId` |
| Reducer.Next | src/hooks/useAbly.ts:42-135 | no event changes the session id or the host id |
| Reducer.JoinAppendsOnlyWhenAbsent | src/hooks/useAbly.ts:45-54 | a join of a present id leaves the state unchanged; otherwise the player is appended at the end and nothing else changes |
| Reducer.JoinIdempotent | src/hooks/useAbly.ts:45-54 | delivering the same join twice equals delivering it once |
| Reducer.LeaveRemovesPlayerAndVotes | src/hooks/useAbly.ts:55-61 | a leave removes every player and vote with that id and keeps all others, in order; no other field changes; an unknown id is a no-op |
| Reducer.VoteReplacesPrevious | src/hooks/useAbly.ts:62-70 | the new votes are the old votes without that player's, in their original order, followed by the new vote; so the new vote is last and the only one of its player, and other players' votes are unchanged; no other field changes |
| Reducer.LastVoteWins | src/hooks/useAbly.ts:62-70 | two votes by the same player leave the state the second alone would |
| Reducer.VotesCommute | src/hooks/useAbly.ts:62-70 | votes by two different players give the same set of votes in either order |
| Reducer.RoundEvents | src/hooks/useAbly.ts:78-109 | start sets the issue, clears the votes and sets the round running and unrevealed; select does the same with the round stopped; reset clears the votes and both flags and keeps the issue, issues and players |
| Reducer.RevealKeepsRoundFlag | src/hooks/useAbly.ts:71-77 | the new state is the old one with the votes replaced and `votesRevealed` set; players, the current issue, the issues and `votingInProgress` are as they were |
| Reducer.IssueEvents | src/hooks/useAbly.ts:95-100 | adding appends one issue; estimating changes only the estimates of matching issues, and an unknown id is a no-op |
| Reducer.NextKeepsIdsUnique | src/hooks/useAbly.ts:44-122 | every event keeps player ids and voters unique (a reveal must carry unique voters) |
| Reducer.NextKeepsRevealInvariant | src/hooks/useAbly.ts:71-109 | "revealed implies round running" is preserved by every event, provided a reveal arrives during a round |
| Reducer.RevealOutsideRoundBreaksInvariant | src/hooks/useAbly.ts:71-77 | a reveal outside a round breaks that invariant, so the reducer alone does not enforce it |
| Reducer.Replay | src/hooks/useAbly.ts:168-171 | definition, no ensures: the events delivered in order, folded one at a time with `Next`; its properties are ReplayKeepsAuthority and ReplayKeepsIdsUnique |
| Reducer.ReplayKeepsAuthority | src/hooks/useAbly.ts:25-137 | any sequence of events keeps the session id and the host id |
| Reducer.ReplayKeepsIdsUnique | src/hooks/useAbly.ts:25-137 | any sequence of well-formed events keeps player ids and voters unique |
| Reducer.Reduce | src/hooks/useAbly.ts:26-40 | without a state every event leaves the state absent; with one, the host id is kept; `SyncClient.OnGameEvent` states its new state as this function |
| GameUtils.CreateInitialGameState | src/utils/gameUtils.ts:11-32 | the given ids; the host as the only player with `isHost`; no issue, votes or issues; both flags false; hence unique ids, the reveal invariant, and the host already listed |
| GameUtils.Average | src/utils/gameUtils.ts:34-38 | definition, no ensures: 0 for no votes, else the mean scaled by 10, rounded and divided by 10; its property is AverageWithinBounds |
| GameUtils.Median | src/utils/gameUtils.ts:40-47 | definition, no ensures: 0 for no votes, else the middle of the sorted votes or the mean of the two middle ones; its property is MedianBetweenVotes |
| GameUtils.Round | src/utils/gameUtils.ts:37 | `Math.round` is within one half of its argument |
| GameUtils.SumBounds | src/utils/gameUtils.ts:36 | the sum of n values between lo and hi lies between n·lo and n·hi |
| GameUtils.MeanBounds | src/utils/gameUtils.ts:37 | the mean of such values lies between lo and hi |
| GameUtils.AverageWithinBounds | src/utils/gameUtils.ts:34-38 | the rounded average of votes between lo and hi lies between lo and hi |
| GameUtils.InsertInt | src/utils/gameUtils.ts:42 | inserting adds exactly one element |
| GameUtils.InsertIntSorted | src/utils/gameUtils.ts:42 | inserting into a sorted sequence keeps it sorted |
| GameUtils.SortInts | src/utils/gameUtils.ts:42 | the numeric sort is ascending and a permutation of its input |
| GameUtils.MedianBetweenVotes | src/utils/gameUtils.ts:40-47 | the median lies between two of the votes, and equals one of them when their number is odd |
| Sync.CardVote | src/hooks/useAbly.ts:296-301 | "?" is voted as null; numbers and every other string are kept |
| Sync.MarkRevealed | src/hooks/useAbly.ts:315-318 | same length and order, same ids, names and values, all marked revealed |
| Sync.MarkRevealedKeepsVoters | src/hooks/useAbly.ts:315-318 | marking votes revealed keeps voters unique |
| Sync.SyncClient.constructor | src/hooks/useAbly.ts:19-21 | no channel, no state, nothing published |
| Sync.SyncClient.Attach | src/hooks/useAbly.ts:274-281 | the channel is stored and exactly one state request is published |
| Sync.SyncClient.OnGameEvent | src/hooks/useAbly.ts:25-137 | without a state: the state stays absent, and only a join publishes, once, a state request when a channel exists. The new state is `Reduce` of the old state and the event. With a state, a snapshot is published iff the reducer built a new state (every event except a join of a present id), a channel exists and the new state's host is this player. Unique ids are preserved when the event is well formed (a reveal carries at most one vote per player) |
| Sync.SyncClient.OnGameState | src/hooks/useAbly.ts:161-165 | a snapshot replaces the local state wholesale |
| Sync.SyncClient.OnStateRequest | src/hooks/useAbly.ts:174-183 | answered with the current state iff there is one and this player is its host; otherwise nothing |
| Sync.SyncClient.OnPresenceEntered | src/hooks/useAbly.ts:189-213 | a host missing from its own players is appended at the end and the result published; in every other case nothing changes; afterwards a host is listed, and unique ids are preserved |
| Sync.SyncClient.SubmitVote | src/hooks/useAbly.ts:291-309 | with a channel and a state, publishes one unrevealed vote of this player with the card's value; otherwise nothing |
| Sync.SyncClient.RevealVotes | src/hooks/useAbly.ts:311-324 | with a channel and a state, publishes the current votes marked revealed; otherwise nothing |
| Sync.SyncClient.PublishEvent | src/hooks/useAbly.ts:326-374 | publishes the event iff a channel is held |
| Sync.SyncClient.StartVoting | src/hooks/useAbly.ts:326-334 | publishes a round start for the issue iff a channel is held |
| Sync.SyncClient.ResetVoting | src/hooks/useAbly.ts:336-343 | publishes a reset iff a channel is held |
| Sync.SyncClient.AddIssue | src/hooks/useAbly.ts:345-353 | publishes the new issue iff a channel is held |
| Sync.SyncClient.SelectIssue | src/hooks/useAbly.ts:355-363 | publishes the selection iff a channel is held |
| Sync.SyncClient.EstimateIssue | src/hooks/useAbly.ts:365-374 | publishes the estimate iff a channel is held |
| Sync.SyncClient.UpdateGameState | src/hooks/useAbly.ts:376-383 | with a channel, adopts the state and publishes it; without one, nothing changes |
| VotingResults.NumericVotes | src/components/VotingResults.tsx:9-11 | exactly the values of the numeric votes, never more than the votes |
| VotingResults.NumericVotesAppend | src/components/VotingResults.tsx:9-11 | the filter distributes over concatenation, so vote order is kept |
| VotingResults.Statistics | src/components/VotingResults.tsx:13-14 | average and median are both 0 when no vote is numeric |
| VotingResults.StatisticsWithinVotes | src/components/VotingResults.tsx:13-14 | when there is a numeric vote, the average and the median shown lie within any bounds of the numeric votes |
| VotingResults.Digit | src/components/VotingResults.tsx:23 | the digit character has the given value |
| VotingResults.NatToDecimal | src/components/VotingResults.tsx:23 | `String` of a natural number is a non-empty string of digits with no leading zero (it starts with '0' only for 0) |
| VotingResults.ParseNatToDecimal | src/components/VotingResults.tsx:23 | reading the digits back gives the number |
| VotingResults.IntToDecimal | src/components/VotingResults.tsx:23 | definition, no ensures: `String` of an integer, a minus sign before the digits of a negative one; its property is ParseIntToDecimal |
| VotingResults.ParseNumber | src/components/VotingResults.tsx:70 | definition, no ensures: `Number` of a digit string, possibly after a minus sign, and none (NaN) for anything else; its property is ParseIntToDecimal |
| VotingResults.ParseIntToDecimal | src/components/VotingResults.tsx:23 | `Number(String(n)) == n` for every integer n |
| VotingResults.TallyKey | src/components/VotingResults.tsx:18-23 | null is keyed "?", a string by itself, a number by its `String` text (canonical decimal), which `Number` reads back as that number |
| VotingResults.Bump | src/components/VotingResults.tsx:24 | the count of that key rises by one and no other count changes; the total rises by one |
| VotingResults.BumpKeepsUnique | src/components/VotingResults.tsx:24 | the dictionary keeps one entry per key |
| VotingResults.CountOfUnique | src/components/VotingResults.tsx:16-25 | with unique keys an entry's count is the count of its key |
| VotingResults.CountOfPositive | src/components/VotingResults.tsx:16-25 | a key with a positive count has an entry |
| VotingResults.Tally | src/components/VotingResults.tsx:16-25 | definition, no ensures: the votes counted one at a time in vote order with `Bump`; its properties are TallyCounts and TallyBuckets, and CountVotes is the loop proved equal to it |
| VotingResults.TallyCounts | src/components/VotingResults.tsx:16-25 | one entry per key; each key's count is the number of votes with that key; every count is at least 1; the counts sum to the number of votes |
| VotingResults.TallyBuckets | src/components/VotingResults.tsx:16-25 | each entry counts its key's votes, and every key of a vote has an entry |
| VotingResults.CountVotes | src/components/VotingResults.tsx:16-25 | the loop builds the tally: unique keys, exact counts of at least 1, every vote's key present, counts summing to the number of votes |
| VotingResults.MaxCount | src/components/VotingResults.tsx:27 | an upper bound of every count that is attained, or 0 |
| VotingResults.MaxCountOfTally | src/components/VotingResults.tsx:27 | the largest count is 0 exactly when there are no votes, and at most the number of votes |
| VotingResults.TotalBoundsCount | src/components/VotingResults.tsx:16-27 | no count exceeds the total |
| VotingResults.Insert | src/components/VotingResults.tsx:64-71 | inserting adds exactly one entry |
| VotingResults.SortBuckets | src/components/VotingResults.tsx:64-71 | the sort is a permutation of the entries |
| VotingResults.Compare | src/components/VotingResults.tsx:65-70 | definition, no ensures: the comparator with `Number` as modelled by ParseNumber, "?" last, the coffee card before it, and otherwise the difference of the numbers, a NaN difference counting as 0; its property is CompareAgreesWithBefore |
| VotingResults.CompareAgreesWithBefore | src/components/VotingResults.tsx:65-70 | on deck keys the comparator agrees with the display order, which is total |
| VotingResults.BeforeTransitive | src/components/VotingResults.tsx:65-70 | the display order is transitive |
| VotingResults.InsertMembers | src/components/VotingResults.tsx:64-71 | inserting adds no entry other than the inserted one |
| VotingResults.InsertInOrder | src/components/VotingResults.tsx:64-71 | inserting into an ordered sequence keeps it ordered |
| VotingResults.InsertFront | src/components/VotingResults.tsx:64-71 | an entry before the head may go in front |
| VotingResults.HeadBeforeTail | src/components/VotingResults.tsx:64-71 | in an ordered sequence the head comes before every later entry |
| VotingResults.ConsInOrder | src/components/VotingResults.tsx:64-71 | a head before every entry of an ordered tail keeps the order |
| VotingResults.SortBucketsInOrder | src/components/VotingResults.tsx:64-71 | on deck keys, the sorted buckets are in display order |
| VotingResults.DeckCardsAreDeckValues | src/hooks/useAbly.ts:11 | every card of the deck votes as a number, null or the coffee card |
| VotingResults.DeckValueKey | src/components/VotingResults.tsx:18-23 | such values have deck keys |
| VotingResults.DeckKeyNotInherited | src/components/VotingResults.tsx:18-24 | a deck value's key is never a property name a plain object inherits from `Object.prototype` |
| VotingResults.DeckTallyKeysNotInherited | src/components/VotingResults.tsx:16-25 | for deck votes, no bucket key of the tally is such an inherited name |
| VotingResults.TallyKeysFromVotes | src/components/VotingResults.tsx:16-25 | every tally key is the key of some vote |
| VotingResults.ResultsInDisplayOrder | src/components/VotingResults.tsx:64-71 | for deck votes, the buckets are shown with numbers ascending, then the coffee card, then "?", none lost |
| GameRoom.EffectiveGameState | src/components/GameRoom.tsx:61-65 | the received state when present; else a fresh initial state exactly for a host with a non-empty session id, carrying that id and the host as only player, with no votes, issues or current issue and no round running or revealed; else none |
| GameRoom.HasVoted | src/components/GameRoom.tsx:168-170 | definition, no ensures: some vote carries the player's id |
| GameRoom.CurrentVote | src/components/GameRoom.tsx:165-167 | null when the player has not voted; otherwise the value of the first vote with the player's id |
| GameRoom.AllPlayersVoted | src/components/GameRoom.tsx:171-174 | definition, no ensures: a round is running, there are players, and the vote count equals the player count; its meaning is AllPlayersVotedMeansEveryoneVoted |
| GameRoom.AllPlayersVotedMeansEveryoneVoted | src/components/GameRoom.tsx:171-174 | during a round with players, unique ids and only listed players voting, the counts are equal exactly when every player has voted |
| GameRoom.UniqueKeysCount | src/components/GameRoom.tsx:171-174 | with unique keys, there are as many distinct keys as elements |
| GameRoom.FirstVoteValue | src/components/GameRoom.tsx:165-167 | null when the player has no vote; else the value of the first vote with that player's id |
| GameRoom.FirstVoteValueOfLast | src/components/GameRoom.tsx:165-167 | a vote appended after no vote of its player is the one found |
| GameRoom.SubmittedVoteIsCurrent | src/components/GameRoom.tsx:165-170 | after a vote is folded in, that player has voted and the current vote is its value |
| GameRoom.LeftPlayerHasNoVote | src/components/GameRoom.tsx:165-170 | after a player leaves, that player has not voted and the current vote is null |
| GameRoom.HandleRevealVotes | src/components/GameRoom.tsx:176-180 | asks for a reveal iff the player is the host |
| GameRoom.HandleResetVoting | src/components/GameRoom.tsx:182-186 | asks for a reset iff the player is the host |
| GameRoom.HandleEstimateIssue | src/components/GameRoom.tsx:188-206 | resets iff host, an issue is current, votes are revealed and some vote is numeric; never records an estimate |
| GameRoom.RevealVotesEnabled | src/components/GameRoom.tsx:300-338 | definition, no ensures: the host sees "Reveal Votes" during an unrevealed round, enabled once all players have voted |
| GameRoom.RevealNowEnabled | src/components/GameRoom.tsx:300-338 | definition, no ensures: the host sees "Reveal Now" during an unrevealed round, enabled once the local player has voted |
| GameRoom.RevealFromButtonsKeepsInvariants | src/components/GameRoom.tsx:320-338 | when either reveal button is enabled, the handler asks for a reveal, and the reveal keeps the reveal invariant and unique ids and marks every vote revealed |
| IssueManager.TrimStart | src/components/IssueManager.tsx:26 | a suffix of the input whose removed prefix is all white space and which starts with a non-space |
| IssueManager.TrimEnd | src/components/IssueManager.tsx:26 | a prefix of the input whose removed suffix is all white space and which ends with a non-space |
| IssueManager.Trim | src/components/IssueManager.tsx:26-31 | a slice with only white space removed on both sides, starting and ending with a non-space |
| IssueManager.TrimEmptyIffBlank | src/components/IssueManager.tsx:26 | trimming gives "" exactly when the string is all white space |
| IssueManager.NewIssue | src/components/IssueManager.tsx:25-32 | no issue exactly when the title is blank; otherwise the trimmed, non-empty title, the trimmed description or none when blank, and no estimate |
| IssueManager.IssueForm.constructor | src/components/IssueManager.tsx:21-23 | the form starts empty and hidden |
| IssueManager.IssueForm.ToggleForm | src/components/IssueManager.tsx:46 | the button flips the form's visibility |
| IssueManager.IssueForm.HandleAddIssue | src/components/IssueManager.tsx:25-38 | a blank title adds nothing and changes no field; otherwise the new issue is handed on and the form is cleared and hidden |
| IssueManager.StartVotingOffered | src/components/IssueManager.tsx:123-133 | definition, no ensures: the button is shown to the host on the issue whose id is the current issue's; its property is SelectionOffersStartVoting |
| IssueManager.ClickIssue | src/components/IssueManager.tsx:99 | clicking selects the issue iff the player is the host |
| IssueManager.SelectionOffersStartVoting | src/components/IssueManager.tsx:123-133 | after the host's selection, "Start Voting" is offered on exactly the issues with the selected id |

## Left out

- Transport: the client construction, API key check, subscriptions, presence `enter`/`leave`/`get` and the cleanup (src/hooks/useAbly.ts:139-159, 185-271, 283-289).
  - The model has no channel: publishes are appends to `outbox`, and deliveries are calls of the `On...` methods.
  - The presence `enter` continuation is `OnPresenceEntered`.
  - The joins and leaves that presence turns into events are not modelled as such.
- Convergence across several clients is not modelled.
  - The channel gives no global order and the code has no tie-break between two hosts.
  - Only one client's handlers are modelled.
- React state and the `gameStateRef` ref are one field, `state`.
  - The hook writes both together (src/hooks/useAbly.ts:126, 133, 163-164, 208-209, 380-381). Render timing and `startTransition` are not modelled.
  - `submitVote` and `revealVotes` read the React `gameState`. The game-event handler folds onto the React state passed to the `setGameState` updater (src/hooks/useAbly.ts:26). Only the request-state and presence handlers read `gameStateRef` (src/hooks/useAbly.ts:178, 192). Merging the two ignores a render-lag window in which they differ.
- Timers are not modelled: the 10 s connection timeout and the delayed host initialisation (src/components/GameRoom.tsx). No retransmission is invented.
- Random ids (src/utils/gameUtils.ts:3-9, src/components/IssueManager.tsx:29): `IssueForm.HandleAddIssue` takes the new id as a parameter.
- GameUtils.Average: JavaScript doubles are modelled as exact rationals (`real`), so IEEE rounding of the division, of the scaled mean and of the final `/ 10` is not captured.
- GameUtils.Median: exact rational halving instead of a double, for the same reason.
- The percentages and bar widths of the results panel (src/components/VotingResults.tsx:83, 89) are not modelled. They are floating point presentation.
- Vote values and estimates are integers.
  - The deck holds only integers, and a non-integer number cannot be voted.
  - `String(n)` is modelled as plain decimal notation, which is what JavaScript produces for integers below 10^21.
  - `Number(s)` is modelled for decimal digit strings, possibly after a minus sign. Anything else reads as NaN, and a NaN difference compares as equal (0).
- VotingResults.ParseNumber: JavaScript's `Number` also reads "" and blank text as 0, and accepts surrounding white space, a leading '+', fractions, exponents ("1e1"), hexadecimal, binary and octal prefixes ("0x10") and "Infinity". The model reads all of these as NaN. Keys of deck votes never take these forms.
- VotingResults.Compare: on a key that JavaScript's `Number` reads but ParseNumber does not (such as "+5" or "1e1"), the source can return a non-zero difference where the model returns 0. The two agree on deck keys.
- VotingResults.Bump: the model counts into a true dictionary. The source's tally is a plain object (src/components/VotingResults.tsx:16, 24). A vote keyed "__proto__" is dropped there, because the assignment to `__proto__` is ignored. A vote keyed by another inherited name ("constructor", "toString", "valueOf", "hasOwnProperty" and the other `Object.prototype` properties) stores a string in place of a count. Only string votes outside the deck can carry such keys (DeckKeyNotInherited, DeckTallyKeysNotInherited).
- VotingResults.Tally: built with Bump, so it has the same gap for votes keyed by inherited names.
- VotingResults.TallyCounts: exact counts hold for the dictionary model only. For votes keyed by inherited names the source's counts differ, as under VotingResults.Bump.
- VotingResults.TallyBuckets: same gap as VotingResults.Bump; a "__proto__" vote has no entry in the source.
- VotingResults.CountVotes: the loop is proved equal to Tally, with the same gap for votes keyed by inherited names.
- VotingResults.MaxCountOfTally: when an inherited name holds a string in the source's object, `Math.max` there yields NaN. The model always has a whole-number maximum.
- VotingResults.SortBuckets: the entries are sorted in insertion order of their first vote. `Object.entries` lists keys that are array indices (non-negative integers) first, in ascending order. That changes only the input order of a stable sort, and the display-order result for deck votes is the same.
- VotingResults.ResultsInDisplayOrder: proved only for votes with deck values (numbers, null and the coffee card). A string key that reads as NaN compares as equal to every number, and the comparator is then not a consistent order. A string key that `Number` reads as a number (such as "+5", "1e1" or " 7 ") is ordered among the numbers by the source but compares as equal by the model.
- The reducer's `default` branch (src/hooks/useAbly.ts:120-121) is not modelled: the event type is a closed union, so no unknown event can be expressed.
- Not modelled: rendering, the QR code, clipboard, `localStorage`, routing, `LandingPage.tsx` and `VotingCards.tsx`. They are presentation and navigation.
