# Team tracker: verified model of the game-tracking core

This project is a Dafny model of the core of a football team-management web app. A coach keeps a roster of players and a list of games. During a game the coach runs the match clock, moves players between the field, the bench and the inactive list, and records goals and substitutions. Afterwards the app shows a match summary, season statistics and a schedule.

The model covers five parts of the app:

- **The team store** (`store.dfy`, with the pure mirror updates in `clock.dfy`, `roster.dfy` and `errors.dfy`). The store is the in-memory mirror of the backend: the team id, the players, the games and the saved lineups. It is a class, `Store.TeamStore`, with one method per context operation. Each method first consults the backend outcome, which is given as an `Option<Thrown>` parameter for each call, where `None` means the call succeeded. The method then updates the mirror exactly as the source does. Every method's `ensures` gives its whole new state as a function of the old state. The clock operations also keep a class invariant, `ClockConsistent`: a running game has a start instant, and a stopped game has none and no running playtimers. Backend errors are classified by `Errors.ParseSupabaseError`.
- **The game page** (`gamepage.dfy`, module `GameRules`). It covers clock status, lineup reconciliation against the roster, the lineup partition and per-player goal and assist counts. It also covers the timer and score click dispatch, with the finished-game confirmation gate (`ConfirmGate`) and the score dialogs (`ScoreControls`), which are classes over their mutable UI state. Planned substitutions are `SubPlanner`, and the clock read-out is `formatTimer`.
- **The match summary** (`summary.dfy`, module `Summary`). It covers minute labels with stoppage time, the event order with the full-time marker, score at a time, and the timeline that pairs substitutions and aligns away events to the right.
- **The team page** (`teampage.dfy`, module `Stats`). It covers season statistics per player, the season and competition filters, the competitions offered, upcoming and previous games, and win, loss and draw.
- **The schedule** (`schedule.dfy`, module `Schedule`). It covers the split into ongoing, upcoming and previous games, and the text shown in the middle of each row.

Two modules are shared by the others:

- `domain.dfy` holds the records: Game, LineupEntry, GameEvent, Player and SavedLineup. It also holds the clock-status predicates and `Math.round` on milliseconds.
- `sorting.dfy` holds a stable insertion sort that stands for `Array.prototype.sort`, and a lexicographic string order that stands for `localeCompare`.

The model makes these representation choices:

- Instants are integers in milliseconds. A game's date and time are one integer, `DateTime`, with a missing time counted as 0.
- A `null` lineup is the empty sequence. Every consumer treats the two alike; `GameRules.ReconcileNullLikeEmpty` proves this for reconciliation.
- JavaScript truthiness is written out, for example `HasInstant` for `!game.timerStartTime`. Integer rounding and JavaScript's truncating `%` are written out too (`Domain.RoundSeconds`, `Summary.JsRem`).

Where the documented behaviour and the code disagree, the model follows the code:

- `startGameTimer` accepts a game that is already running and refuses only a finished one.
- `swapPlayers` reports success whenever both players exist, even when an update failed (see Findings).
- `renderTimeline` pairs a substitution with any partner, processed or not (see Findings); the rendering methods run that search as written.
- `markGameAsFinished` clears the playtimers in memory without adding the running interval to the playtime (`Clock.FinishDoesNotFoldPlaytime`).
- An empty stored lineup `[]` is truthy, so reconciliation keeps it as stored and then adds every roster player.
- The team page counts goals with strict id equality, while the game page tallies use truthiness. `Stats.ScoredAgreesWithTally` shows they agree for non-empty ids.
- In `calculatePlayerStats` the outer test that the location is field, bench or inactive always holds, because a location is always one of the three. Attendance is the inner test: not inactive, or some playtime.

## Model

| member | source | states |
|---|---|---|
| Domain.RoundSeconds | src/context/TeamContext.tsx:253 | `Math.round(ms / 1000)`: the result is the whole number of seconds nearest to `ms` milliseconds, halves rounded up, and never negative for a non-negative interval |
| Domain.RoundSecondsMonotone | src/context/TeamContext.tsx:253 | a longer interval never rounds to fewer seconds |
| Domain.ClockStatusExclusive | src/pages/GamePage.tsx:147-150 | running, paused and not started exclude each other |
| Domain.ClockStatusCovers | src/pages/SchedulePage.tsx:26-28 | a stopped, unfinished game with non-negative elapsed time is paused or not started |
| Domain.FindGame | src/context/TeamContext.tsx:239 | `games.find` by id: the index of the first game with the id, or None when no game has it |
| Domain.FindEntry | src/pages/TeamPage.tsx:54 | `lineup.find` by player id: the first matching entry, or None when there is none |
| Domain.FindPlayer | src/context/TeamContext.tsx:322 | `players.find` by id: the first matching player, or None when there is none |
| Domain.FilterMultiset | src/context/TeamContext.tsx:178 | `filter` keeps every kept element as many times as it occurs and drops the rest |
| Errors.Issued | src/context/TeamContext.tsx:244 | a call that is made only when its condition holds fails only then |
| Errors.FirstFailure | src/context/TeamContext.tsx:240-247 | awaited calls stop at the first failure: None exactly when no call fails, otherwise the earliest failure |
| Errors.Attempt | src/context/TeamContext.tsx:240-247 | a try block around backend calls succeeds exactly when no call fails, and otherwise returns the classified message of the first failure |
| Errors.Lower | src/context/TeamContext.tsx:63 | `toLowerCase` on ASCII: same length, each letter lowered, everything else kept |
| Errors.LowerIdempotent | src/context/TeamContext.tsx:63 | lowering twice is lowering once |
| Errors.ContainsIffWindow | src/context/TeamContext.tsx:45 | `includes` holds exactly when some window of the text equals the needle |
| Errors.NetworkTestIgnoresCase | src/context/TeamContext.tsx:63 | the network test gives the same answer for a message and its lower-cased form |
| Errors.ParseSupabaseError | src/context/TeamContext.tsx:40-71 | every branch of the classifier: the duplicate-lineup and generic unique-violation messages for 23505, the foreign-key, permission and not-found messages, the database message or its fallback, the network message, the error's own message or the unexpected-error fallback, the unknown-error message; the message is never empty |
| Errors.OwnErrorsKeepTheirMessage | src/context/TeamContext.tsx:60-66 | an Error with a non-empty, non-network message reaches the UI with that message |
| Errors.Trim | src/context/TeamContext.tsx:346 | `trim`: the result has no surrounding whitespace, and it is empty exactly when the input is all whitespace. Whitespace is the ECMAScript WhiteSpace and LineTerminator set, including the Unicode space separators |
| Errors.TrimStripsUnicodeSpaces | src/context/TeamContext.tsx:346 | ideographic, Ogham, en-quad to hair, narrow no-break and medium mathematical spaces and the line separator are trimmed |
| Clock.MapEntries | src/context/TeamContext.tsx:278 | `lineup.map(f)`: same length, entry by entry |
| Clock.UpdateWhere | src/context/TeamContext.tsx:245 | `games.map(g => g.id === id ? f(g) : g)`: games with the id get `f`, the others are unchanged |
| Clock.CreateDefaultLineup | src/pages/GamePage.tsx:39-41 | one bench default entry for each roster player, in roster order, and the lineup ids are the roster ids |
| Clock.StartGame | src/context/TeamContext.tsx:241-245 | start sets the clock running from `now` and keeps the elapsed time. Every field entry's playtimer starts at `now`. On a fresh start, starters are the entries that are not inactive, and field entries record their initial position. Otherwise flags and initial positions are kept, and nothing else changes |
| Clock.StoppedElapsed | src/context/TeamContext.tsx:253 | the committed elapsed time is the stored one plus the running interval rounded to seconds, and it does not shrink |
| Clock.StopGame | src/context/TeamContext.tsx:255-259 | stop stops the clock, clears the start instant and stores the new elapsed time. Each entry with a running playtimer gets its rounded interval added and its playtimer cleared. Every other entry and field is unchanged |
| Clock.FinalElapsed | src/context/TeamContext.tsx:267-270 | finish folds the running interval into the elapsed time only when the clock runs with a start instant |
| Clock.FinishGame | src/context/TeamContext.tsx:277-278 | finish marks the game finished and stopped, with the final elapsed time; every playtimer is cleared and nothing else changes |
| Clock.FinishIdempotent | src/context/TeamContext.tsx:264-279 | a second finish at any later instant changes nothing |
| Clock.FinishDoesNotFoldPlaytime | src/context/TeamContext.tsx:272-278 | in memory, finishing a running game leaves a field player's playtime unchanged, while a stop at the same instant credits the interval |
| Clock.ResetGame | src/context/TeamContext.tsx:289-292 | reset gives the new lineup, no events, a 0-0 score and a stopped, zeroed, unfinished, not-started clock; the game's identity and details are kept |
| Clock.EventSeconds | src/context/TeamContext.tsx:306 | an event's game second is the elapsed time plus the running interval when the clock runs, otherwise the stored elapsed time |
| Clock.MovedEntry | src/context/TeamContext.tsx:302-305 | the moved row takes the target location, and a position only on the field. Its playtimer is folded when the declared source is field or inactive. It restarts at `now` only on the field of a running game. A running playtimer kept on the field is untouched. The sub-on and sub-off counters count bench-to-field and field-to-bench moves of an active game |
| Clock.SubstitutionEvent | src/context/TeamContext.tsx:305-306 | a move records an event exactly when the game is active and the move is bench to field or field to bench. The event is on the user's side, at the move's game second, and names only the player coming in or only the player going out |
| Clock.MoveInGame | src/context/TeamContext.tsx:309 | each entry of the moved player takes the moved row, keeping its own starter flag and initial position; other entries are unchanged, and the substitution event, if any, is appended |
| Clock.ScoresAfterAdd | src/context/TeamContext.tsx:395 | a goal raises only its own side's score by one; a substitution changes no score |
| Clock.AddEvent | src/context/TeamContext.tsx:396 | the event is appended and the scores are stored; nothing else changes |
| Clock.LatestMatching | src/context/TeamContext.tsx:405-407 | the event removed is one of that side and type with the latest timestamp, the last of those on a tie; None exactly when no such event exists |
| Clock.ScoresAfterRemove | src/context/TeamContext.tsx:410 | removing a goal lowers its side's score by one, floored at 0; a substitution changes no score |
| Clock.RemoveId | src/context/TeamContext.tsx:411 | `events.filter(ev => ev.id !== id)`: exactly the events with another id |
| Clock.RemoveIdGoalCount | src/context/TeamContext.tsx:411 | with distinct ids, removing a goal's id removes exactly one goal of its side |
| Clock.RemoveEvent | src/context/TeamContext.tsx:411 | the event's id is filtered out, the scores are stored and nothing else changes |
| Clock.StartKeepsClockConsistent | src/context/TeamContext.tsx:241-245 | start keeps the invariant: a playtimer runs exactly for field entries of a running game, and a start instant exists exactly while running |
| Clock.StopKeepsClockConsistent | src/context/TeamContext.tsx:255-259 | stop keeps that invariant |
| Clock.FinishMakesClockConsistent | src/context/TeamContext.tsx:277-278 | finish establishes it from any state |
| Clock.ResetMakesClockConsistent | src/context/TeamContext.tsx:287-292 | reset establishes it from any state |
| Clock.MoveKeepsClockConsistent | src/context/TeamContext.tsx:301-309 | a move keeps it, whatever source location the caller declares |
| Clock.AddEventKeepsScoreInSync | src/context/TeamContext.tsx:393-396 | adding an event keeps each stored score equal to that side's goal count |
| Clock.RemoveEventKeepsScoreInSync | src/context/TeamContext.tsx:405-411 | removing the fetched event keeps the scores equal to the goal counts, when event ids are distinct and the fetched id is that of the latest matching event in memory |
| Clock.RemoveUnmirroredGoalBreaksSync | src/context/TeamContext.tsx:405-411 | if the fetched id is not an event in memory, nothing is filtered out but the score still drops, so scores and goal counts disagree |
| Clock.MoveKeepsStarterFlags | src/context/TeamContext.tsx:309 | a move never changes a starter flag or an initial position |
| Clock.AddThenRemoveGoal | src/context/TeamContext.tsx:389-414 | adding a goal with a fresh id and the latest timestamp of its side, then removing that side's last goal, gives back the original game |
| Clock.StartStopCredit | src/context/TeamContext.tsx:237-262 | start at t0 then stop at t1 credits round((t1-t0)/1000) seconds to the game clock and to every field player, and none to anyone else |
| Clock.FirstHalfScenario | src/context/TeamContext.tsx:237-312 | fresh game: start, player to the bench after 30 s, stop after 90 s. The player has 30 s of playtime, is a starter, and the clock shows 90 s |
| Clock.ResetScenario | src/context/TeamContext.tsx:283-295 | a reset game has one bench default entry per roster player, no events, a zeroed clock and a 0-0 score |
| Clock.RemoveLaterGoalScenario | src/context/TeamContext.tsx:401-414 | of two home goals the later-stamped one is removed, and the home score drops by one |
| Roster.SortRoster | src/context/TeamContext.tsx:165 | the roster sorted by first name, a permutation of its input |
| Roster.SortGames | src/context/TeamContext.tsx:194 | the game list sorted newest date first, a permutation of its input |
| Roster.SameRosterIds | src/context/TeamContext.tsx:165 | sorting never changes the set of player ids |
| Roster.RosterAfterAdd | src/context/TeamContext.tsx:150 | the new player joins the roster, nobody else changes, and the result is sorted by first name |
| Roster.OrElse | src/context/TeamContext.tsx:162 | an update field that is present replaces the current value, an absent one keeps it |
| Roster.ApplyPlayerUpdate | src/context/TeamContext.tsx:165 | `{ ...p, ...updates }` keeps the id, and an empty update changes nothing |
| Roster.MapRoster | src/context/TeamContext.tsx:165 | only the player with the id is updated |
| Roster.RosterAfterUpdate | src/context/TeamContext.tsx:165 | the roster after an update is sorted and a permutation of the mapped roster; the ids are unchanged and every other player is kept |
| Roster.RosterAfterDelete | src/context/TeamContext.tsx:178 | exactly the players with another id remain, each as often as before |
| Roster.LineupsAfterDeletePlayer | src/context/TeamContext.tsx:179 | every saved lineup keeps its id and name and loses exactly the deleted player's slots |
| Roster.RosterAfterReset | src/context/TeamContext.tsx:382 | every player is on the bench without a position, and nothing else changes |
| Roster.SlotsOf | src/context/TeamContext.tsx:348 | the saved lineup holds each player's id, location and position, in roster order |
| Roster.LineupsAfterSave | src/context/TeamContext.tsx:351 | the saved lineup replaces any lineup with its name and every other lineup is kept; the list is sorted by name |
| Roster.FindLineup | src/context/TeamContext.tsx:359 | the first saved lineup with the id, or None when there is none |
| Roster.SlotFor | src/context/TeamContext.tsx:360 | `new Map(slots)` lookup: the last slot for the id, None exactly when there is none |
| Roster.LoadedPlayer | src/context/TeamContext.tsx:363 | a loaded player takes the saved slot's location and position, or goes to the bench without a position when the lineup has no slot; nothing else changes |
| Roster.MapLoaded | src/context/TeamContext.tsx:363 | every player is loaded, in order |
| Roster.RosterAfterLoad | src/context/TeamContext.tsx:363 | the loaded roster is sorted with the same ids |
| Roster.SlotForUnique | src/context/TeamContext.tsx:360 | a slot whose id is unique is the one found |
| Roster.LoadAfterSave | src/context/TeamContext.tsx:345-366 | loading a lineup just saved from a roster with distinct ids gives back the same players |
| Roster.NewGame | src/context/TeamContext.tsx:191-193 | with the returned row assumed to hold the table's defaults (see Left out), a created game has not started, its clock state is consistent, its score is in sync, and it carries the given details |
| Roster.GamesAfterAdd | src/context/TeamContext.tsx:194 | the new game joins the list, newest first |
| Roster.ApplyGameUpdate | src/context/TeamContext.tsx:214 | an update never changes the id, lineup or events |
| Roster.GamesAfterUpdate | src/context/TeamContext.tsx:214 | the list stays sorted newest first with the same length; the updated game is in it and every other game is kept |
| Roster.GamesAfterDelete | src/context/TeamContext.tsx:227 | exactly the games with another id remain, each as often as before |
| Sorting.SortBy | src/pages/SchedulePage.tsx:48-50 | `Array.prototype.sort` with a comparator: the result is a permutation of the input, of the same length |
| Sorting.SortBySorted | src/pages/TeamPage.tsx:117 | for a strict order the sorted sequence has no element strictly before one to its left, and keeps the input's elements |
| Sorting.SortByKeepsSorted | src/components/GameSummary.tsx:44-50 | the sort is stable: an already ordered sequence comes out unchanged |
| Sorting.StrLtStrictOrder | src/pages/TeamPage.tsx:102 | the stand-in for `localeCompare` is irreflexive, transitive and total on distinct strings, so name sorts are well defined |
| Store.Found | src/context/TeamContext.tsx:239 | the game found by id is in the list and carries that id |
| Store.SwapOutcome | src/context/TeamContext.tsx:325-337 | the intended swap outcome: success exactly when both updates succeed, otherwise the first failure |
| Store.SwapOutcomeAsWritten | src/context/TeamContext.tsx:325-337 | as written the swap always reports success, because `updatePlayer` resolves with its error and never rejects |
| Store.SwapHidesFailure | src/context/TeamContext.tsx:325-337 | a swap whose first update failed: success as written, that failure as intended |
| Store.TeamStore.constructor | src/context/TeamContext.tsx:76-81 | the store holds the fetched team id, roster, games and saved lineups |
| Store.TeamStore.StartGameTimer | src/context/TeamContext.tsx:237-248 | no team, or an unknown or finished game, is refused with its message. Otherwise the outcome is that of the game update, the lineup fetch and the field-row upsert, which is made only when a field entry exists. A failure changes nothing. On success every game with the id is started at `now`, nothing else changes, and the clock invariant is kept |
| Store.TeamStore.StopGameTimer | src/context/TeamContext.tsx:250-262 | no team, or a game that is not running, is refused. Otherwise the outcome is that of the three calls, with the upsert made only for clocked rows. A failure changes nothing. On success the games are stopped with the elapsed time computed from the game found, and the invariant is kept |
| Store.TeamStore.MarkGameAsFinished | src/context/TeamContext.tsx:264-281 | no team, or an unknown game, is refused. Otherwise the outcome is that of the fetch, the conditional upsert and the game update. A failure changes nothing. On success the games are finished with the final elapsed time, and the invariant is established |
| Store.TeamStore.ResetGameLineup | src/context/TeamContext.tsx:283-295 | no team is refused; a backend failure returns its message and changes nothing. On success the bench default lineup of the roster is returned, and every game with the id is reset to it |
| Store.TeamStore.MovePlayerInGame | src/context/TeamContext.tsx:297-312 | no team, an unknown game, a failed fetch and a missing lineup row each fail with their message; otherwise the outcome is the row update's. A failure changes nothing. On success the games with the id take the moved row and the substitution event, both computed from the game found and the fetched row |
| Store.MoveRow | src/context/TeamContext.tsx:302-306 | the row and the substitution event computed from the fetched row are `MovedEntry` and `SubstitutionEvent` of the game and the move |
| Store.TeamStore.AddGameEvent | src/context/TeamContext.tsx:389-399 | no team or an unknown game is refused, and a failed insert changes nothing. On success the event is appended with the backend's id and timestamp, and a goal raises its side's score; score-update failures are not reported |
| Store.TeamStore.RemoveLastGameEvent | src/context/TeamContext.tsx:401-414 | no team or an unknown game is refused; the delete is issued exactly when the query returns a row. No row is a success that changes nothing. Otherwise the event with the returned id is filtered out in memory and a goal lowers its side's score, floored at 0 |
| Store.TeamStore.AddPlayer | src/context/TeamContext.tsx:145-156 | no team is refused and a failed insert changes nothing; on success the new bench player joins the sorted roster |
| Store.TeamStore.UpdatePlayer | src/context/TeamContext.tsx:158-171 | no team is refused and a failed update changes nothing; on success the roster is `RosterAfterUpdate` |
| Store.TeamStore.DeletePlayer | src/context/TeamContext.tsx:173-185 | on success the player leaves the roster and every saved lineup; game lineups keep their entries |
| Store.TeamStore.MovePlayer | src/context/TeamContext.tsx:316-319 | exactly an `updatePlayer` of the location and the possibly undefined position |
| Store.TeamStore.SwapPlayers | src/context/TeamContext.tsx:321-343 | an unknown player is refused and changes nothing. Otherwise each of the two updates applies exactly when it succeeds, and the swap reports success as written, even when an update failed or no team is loaded (see Findings) |
| Store.TeamStore.AddGame | src/context/TeamContext.tsx:187-205 | no team or a failed insert changes nothing. Otherwise the new game joins the list newest first, and the result is its id, or the lineup-insert failure with the game already added |
| Store.TeamStore.UpdateGame | src/context/TeamContext.tsx:207-220 | on success the list is `GamesAfterUpdate`; a failure changes nothing |
| Store.TeamStore.DeleteGame | src/context/TeamContext.tsx:222-233 | on success exactly the games with another id remain; a failure changes nothing |
| Store.TeamStore.SaveLineup | src/context/TeamContext.tsx:345-354 | no team or a blank name is refused. On success the roster's slots are saved under the trimmed name, replacing any lineup with that name |
| Store.TeamStore.LoadLineup | src/context/TeamContext.tsx:356-366 | no team or an unknown saved lineup fails with its message, and a failure changes nothing. On success the roster is loaded from the lineup's slots and sorted |
| Store.TeamStore.DeleteLineup | src/context/TeamContext.tsx:368-375 | no team is refused and a failed delete changes nothing. On success the saved lineups are `LineupsAfterDelete`: exactly those with another id remain, each as often as before and in order |
| Roster.LineupsAfterDelete | src/context/TeamContext.tsx:372 | exactly the lineups with another id remain, with their multiplicity, and a list sorted by name stays sorted |
| Roster.FilterKeepsSorted | src/context/TeamContext.tsx:372 | `filter` keeps a sorted list sorted |
| Store.TeamStore.ResetLineup | src/context/TeamContext.tsx:377-385 | on success every roster player is on the bench without a position |
| GameRules.Decimal | src/pages/GamePage.tsx:22 | `String(n)`: a non-empty string of digits without a leading zero |
| GameRules.DecimalRoundTrip | src/pages/GamePage.tsx:22 | reading `String(n)` back gives `n` |
| GameRules.PadStart2 | src/pages/GamePage.tsx:22 | `padStart(2, '0')`: at least two characters, with the same value |
| GameRules.Field2 | src/pages/GamePage.tsx:22 | a padded field has at least two digits, exactly two below 100, and denotes its number |
| GameRules.FormatTimerAsWritten | src/pages/GamePage.tsx:19-23 | `formatTimer` as written: minutes, a colon, then the seconds remainder rounded on its own |
| GameRules.FormatTimer | src/pages/GamePage.tsx:19-23 | the corrected read-out: "mm:ss" of the time rounded to whole seconds |
| GameRules.ReadClockOf | src/pages/GamePage.tsx:22 | a read-out with two seconds digits reads back as minutes times 60 plus seconds |
| GameRules.FormatTimerRoundTrip | src/pages/GamePage.tsx:19-23 | the corrected read-out's seconds field is below 60, and it reads back as the time rounded to seconds |
| GameRules.FormatTimerAsWrittenShowsSixty | src/pages/GamePage.tsx:20-21 | at 59.5 s the read-out as written is "00:60", and the corrected one is "01:00" |
| GameRules.FormatTimerAgreesOnWholeSeconds | src/pages/GamePage.tsx:19-23 | on whole seconds the two read-outs agree |
| GameRules.InitialLineup | src/pages/GamePage.tsx:134 | the stored lineup when there is one (an empty array counts), bench defaults otherwise |
| GameRules.KeptEntries | src/pages/GamePage.tsx:137 | exactly the stored entries of roster players |
| GameRules.MissingPlayers | src/pages/GamePage.tsx:137 | exactly the roster players the stored lineup does not mention |
| GameRules.KeptIds | src/pages/GamePage.tsx:137 | the kept ids are the stored ids that are roster ids |
| GameRules.MissingIds | src/pages/GamePage.tsx:137 | the missing ids are the roster ids the lineup lacks |
| GameRules.Reconcile | src/pages/GamePage.tsx:132-144 | the reconciled lineup has exactly the roster's ids; a stored entry is kept as it was, and every other entry is a bench default |
| GameRules.ReconcileNullLikeEmpty | src/pages/GamePage.tsx:134 | a null lineup and an empty one both reconcile to the bench defaults in roster order |
| GameRules.ReconcileIdempotent | src/pages/GamePage.tsx:132-144 | reconciling a reconciled lineup changes nothing |
| GameRules.ReconcileSettles | src/pages/GamePage.tsx:133 | with distinct ids and a non-empty roster the result has one entry per roster player, so the effect's condition no longer holds |
| GameRules.LookupPlayer | src/pages/GamePage.tsx:233 | `playerMap.get`: a player found is a roster player with that id |
| GameRules.LookupRosterId | src/pages/GamePage.tsx:233 | every roster id is found in the map |
| GameRules.ByNameStrict | src/pages/GamePage.tsx:245 | `sortByName` is a strict order |
| GameRules.PlayersOf | src/pages/GamePage.tsx:239 | the scorer dialog holds the roster player of each field entry, in order |
| GameRules.PartitionOf | src/pages/GamePage.tsx:245-247 | the bench, inactive and bench-starter lists are sorted by first name, and so is the dialog list |
| GameRules.CollectGroups | src/pages/GamePage.tsx:235-244 | the pass over the lineup produces exactly each group's entries of roster players, in lineup order, and the field players for the dialog |
| GameRules.PushByLocation | src/pages/GamePage.tsx:237-241 | one pass of the lineup loop: an entry of a roster player joins the list of its location, and a field entry's player joins the dialog list, which stays the players of the field list |
| GameRules.PushStarter | src/pages/GamePage.tsx:237-242 | one pass of the lineup loop: a starter of a roster player joins the starters when it has an initial position, the bench starters otherwise |
| GameRules.Partition | src/pages/GamePage.tsx:234-248 | the page's partition equals `PartitionOf` |
| GameRules.LocationsSplitLineup | src/pages/GamePage.tsx:239-241 | every entry of a roster player lands in exactly one of the field, bench and inactive lists |
| GameRules.StartersSplitLineup | src/pages/GamePage.tsx:242 | every starter of a roster player lands in exactly one of the two starter lists |
| GameRules.PartitionCovers | src/pages/GamePage.tsx:234-248 | the three location lists together are the entries of roster players, and the two starter lists their starters. The dialog lists the field players, and each list holds only its location |
| GameRules.PartitionLocations | src/pages/GamePage.tsx:239-241 | the field, inactive and bench lists each hold only entries of that location |
| GameRules.GoalsBy | src/pages/GamePage.tsx:252 | goal events naming the player as scorer, at most the number of events |
| GameRules.AssistsBy | src/pages/GamePage.tsx:252 | goal events naming the player as assister |
| GameRules.PlayerEventCounts | src/pages/GamePage.tsx:250-254 | a tally for every roster player and every player the events credit, no others, each equal to that player's goals and assists |
| GameRules.CreditEvent | src/pages/GamePage.tsx:252 | one pass of the event loop: a goal credits its truthy scorer with a goal and its truthy assister with an assist, starting from zero for an id not yet counted |
| GameRules.GoalsByAppend | src/pages/GamePage.tsx:252 | tallies add up over concatenated event lists |
| GameRules.TallyCountsGoalsOnly | src/pages/GamePage.tsx:252 | substitutions credit nobody, and no player's tally exceeds the number of goals |
| GameRules.ConfirmGate.constructor | src/pages/GamePage.tsx:86-87 | no action waits and the dialog is closed |
| GameRules.ConfirmGate.Request | src/pages/GamePage.tsx:200 | on a finished game the action waits and the dialog opens; otherwise it runs at once |
| GameRules.ConfirmGate.Confirm | src/pages/GamePage.tsx:201 | the waiting action, if any, runs once, and the dialog closes |
| GameRules.ConfirmGate.Cancel | src/pages/GamePage.tsx:202 | the waiting action is dropped without running |
| GameRules.TimerClick | src/pages/GamePage.tsx:206 | nothing happens without a game, on a finished game or while busy. A running clock stops. Otherwise it starts, unless a not-yet-due game asks first and the answer is no |
| GameRules.AnswerMattersOnlyWhenAsked | src/pages/GamePage.tsx:206 | the answer changes the command exactly when the question is asked |
| GameRules.TimerCommandsAccepted | src/pages/GamePage.tsx:206 | a start is for a game the store accepts, and a stop with a start instant is for a running game |
| GameRules.AssistCandidates | src/pages/GamePage.tsx:214 | the assister choices are the field players other than the scorer |
| GameRules.ScoreControls.constructor | src/pages/GamePage.tsx:99-104 | every dialog is closed and nothing is selected |
| GameRules.ScoreControls.ScoreClick | src/pages/GamePage.tsx:210 | refused without a game, on a finished game or while busy. The user's side opens the scorer dialog; the opponent's goal is recorded at once without a scorer |
| GameRules.ScoreControls.SelectScorer | src/pages/GamePage.tsx:211 | the scorer is chosen and the assister dialog replaces the scorer dialog |
| GameRules.ScoreControls.DismissGoalDialog | src/pages/GamePage.tsx:212-213 | cancel or close records the goal without a scorer and closes the dialog, unless refused |
| GameRules.ScoreControls.FinishAssistDialog | src/pages/GamePage.tsx:214-215 | choosing an assister, or cancelling, records the goal with the chosen scorer and clears the selection, unless refused |
| GameRules.ScoreControls.CloseAssistDialog | src/pages/GamePage.tsx:425 | the close button only hides the assister dialog: no goal is recorded, and the scorer, side and decrement state are kept |
| GameRules.ScoreControls.AskDecrement | src/pages/GamePage.tsx:218-220 | a long press or context menu asks to confirm removing that side's latest goal, unless refused |
| GameRules.ScoreControls.ConfirmDecrement | src/pages/GamePage.tsx:221 | confirming requests that side's goal removal when possible; the dialog closes either way |
| GameRules.ScoreControls.CancelDecrement | src/pages/GamePage.tsx:222 | cancelling closes the dialog and forgets the side |
| GameRules.OpponentGoalScores | src/pages/GamePage.tsx:210 | an opponent goal raises only the opponent's score |
| GameRules.FirstTargeting | src/pages/GamePage.tsx:228 | the first plan on a target, or None |
| GameRules.RemoveAtKeepsValid | src/pages/GamePage.tsx:228 | dropping a plan keeps the plans valid |
| GameRules.WithoutBench | src/pages/GamePage.tsx:228 | `Map.delete`: exactly the other bench players' plans remain, still valid |
| GameRules.PlanDropValid | src/pages/GamePage.tsx:228 | after a drop each bench player has at most one plan and each target at most one. The new plan is last, and every other plan was there before with another bench player and target |
| GameRules.ClearTarget | src/pages/GamePage.tsx:228 | deleting the plan aimed at the drop target leaves valid plans valid, and no remaining plan aims at the target |
| GameRules.AnyDropsValid | src/pages/GamePage.tsx:228 | after any sequence of drops the plans are valid, and the latest drop is among them |
| GameRules.Incoming | src/pages/GamePage.tsx:256 | the map has exactly the targeted field players as keys |
| GameRules.IncomingOfValid | src/pages/GamePage.tsx:256 | with valid plans each target shows its plan's bench player |
| GameRules.ConfirmMoves | src/pages/GamePage.tsx:230 | for each plan in order: the target goes field to bench, then the bench player takes the field at the target's position |
| GameRules.ConfirmMatchesIncoming | src/pages/GamePage.tsx:230 | each confirmed swap takes off the player the page showed the incoming player on |
| GameRules.FirstError | src/pages/GamePage.tsx:230 | the first error result, None exactly when no move failed |
| GameRules.SubPlanner.constructor | src/pages/GamePage.tsx:97-98 | not planning, no plans |
| GameRules.SubPlanner.Toggle | src/pages/GamePage.tsx:227 | refused with an alert on a finished game; otherwise flips the mode and clears the plans |
| GameRules.SubPlanner.PlanDropOn | src/pages/GamePage.tsx:228 | the plans become `PlanDrop` of the old ones, and the plans stay valid |
| GameRules.SubPlanner.Cancel | src/pages/GamePage.tsx:229 | leaves the mode and clears the plans |
| GameRules.SubPlanner.Confirm | src/pages/GamePage.tsx:230 | issues every plan's moves and reports the first error. The plans are cleared and the mode left only when no move failed; refused without a game or while busy |
| Summary.JsRem | src/components/GameSummary.tsx:22 | JavaScript `%`: the remainder has the sign of the dividend |
| Summary.CeilDiv | src/components/GameSummary.tsx:26 | `Math.ceil(a / n)`: the least integer at or above the quotient |
| Summary.MinuteOf | src/components/GameSummary.tsx:20-35 | a plain minute is at least 1 and a stoppage extra at least 1 |
| Summary.FormatMinute | src/components/GameSummary.tsx:20-35 | the label built from `MinuteOf` ends in a quote, and it holds a `+` exactly for stoppage time |
| Summary.FormatMinuteRoundTrip | src/components/GameSummary.tsx:20-35 | reading the label back gives its minute: `m'` for a plain minute, `base+k'` for stoppage time |
| Summary.FirstHalfMinutes | src/components/GameSummary.tsx:33-34 | before 45 minutes the label is the minute in progress; minute 0 and negative times show 1 |
| Summary.FullTimeStoppage | src/components/GameSummary.tsx:25-28 | after 90 minutes an inexact second shows 90+k, where 90+k is the minute in progress |
| Summary.HalfTimeStoppage | src/components/GameSummary.tsx:29-32 | in minutes 45 to 49 an inexact second shows 45+k |
| Summary.PlainMinutes | src/components/GameSummary.tsx:34 | exact minute boundaries, and minutes 50 to 89, show the plain minute in progress |
| Summary.MinuteLabels | src/components/GameSummary.tsx:20-35 | second 0 shows "1'" and second 5430 shows "90+1'" |
| Summary.ItemBeforeStrict | src/components/GameSummary.tsx:44-50 | the comparator of the sorted events is a strict order |
| Summary.SortedEvents | src/components/GameSummary.tsx:41-51 | the summary list is sorted by game second, then timestamp, with events before the marker at a tie; it is a permutation of the events plus one full-time marker at the elapsed time |
| Summary.OneMarker | src/components/GameSummary.tsx:42-43 | the list holds exactly one marker at the elapsed time and every event as often as the game has it |
| Summary.GoalsUntil | src/components/GameSummary.tsx:56-57 | goals of one side at or before a second, at most the number of events |
| Summary.ScoreAtTime | src/components/GameSummary.tsx:53-61 | the loop's home and away counts are each side's goals at or before the second |
| Summary.GoalsUntilMonotone | src/components/GameSummary.tsx:53-61 | the score as of a later second is at least the earlier one |
| Summary.GoalsUntilIgnoresSubstitutions | src/components/GameSummary.tsx:56 | substitutions never change the score |
| Summary.GoalsUntilAll | src/components/GameSummary.tsx:53-61 | once every event is at or before the second, the score counts all goals |
| Summary.ScoreAtEndIsStoredScore | src/components/GameSummary.tsx:63 | for a game whose stored scores agree with its goals, the score after the last event is the full-time score |
| Summary.AlignRight | src/components/GameSummary.tsx:95-100 | a row aligns right exactly when its event is the away team's |
| Summary.PairFrom | src/components/GameSummary.tsx:124-127 | `find` over the later items: the index returned is the first later item that completes the event (same second, same team, an "out" for an "in" or the reverse), and when processed events are skipped, the first such item not yet processed. None exactly when no later item qualifies |
| Summary.Step | src/components/GameSummary.tsx:72-201 | one pass of the loop only adds processed ids |
| Summary.FindPair | src/components/GameSummary.tsx:124-127 | the loop's pair search equals `PairFrom`: as written when the skip flag is off, skipping processed events when it is on |
| Summary.RenderItem | src/components/GameSummary.tsx:72-201 | one pass of the loop body equals `Step` with the same skip flag |
| Summary.RenderTimeline | src/components/GameSummary.tsx:68-205 | `renderTimeline` as written: the rendered rows are `TimelineAsWritten` |
| Summary.RenderCorrectedTimeline | src/components/GameSummary.tsx:68-205 | the same loop, skipping processed partners, renders the corrected `Timeline`, which shows each event once |
| Summary.RenderItems | src/components/GameSummary.tsx:72-201 | the loop over the sorted items yields the timeline from its start with nothing processed, for either skip flag |
| Summary.RenderStep | src/components/GameSummary.tsx:72-201 | one pass keeps the rows rendered so far followed by the rest of the timeline equal to the whole timeline |
| Summary.SortedIdsDistinct | src/components/GameSummary.tsx:41-51 | sorting keeps the events' ids distinct |
| Summary.StepIds | src/components/GameSummary.tsx:72-201 | a pass adds at most one row, whose ids were not processed before and are processed after |
| Summary.TimelineFromIdsOnce | src/components/GameSummary.tsx:68-205 | from any point of the corrected loop and whatever was processed before it, every id appears in at most one row and none was processed before |
| Summary.TimelineShowsEachEventOnce | src/components/GameSummary.tsx:68-205 | with distinct event ids, each event is shown in at most one row of the corrected timeline |
| Summary.OnlyUserSubstitutionsShown | src/components/GameSummary.tsx:129-168 | every substitution row, as written or corrected, is of the user's team |
| Summary.AwayEventsAlignRight | src/components/GameSummary.tsx:95-100 | every substitution row right-aligns exactly the away team's events |
| Summary.TimelineAsWrittenShowsEventTwice | src/components/GameSummary.tsx:124-150 | as written, for two "out" then two "in" events of one second, the second "out" pairs again with the first "in". That event is then shown twice, and the second "in" stands alone |
| Summary.TimelinePairsTwoSwaps | src/components/GameSummary.tsx:124-150 | corrected, the same events form two pairs, and every event is shown once |
| Stats.EntryIn | src/pages/TeamPage.tsx:54 | the player's first lineup entry; None exactly when the lineup has no entry for the player |
| Stats.ScoredIn | src/pages/TeamPage.tsx:76 | goal events whose scorer is exactly the player |
| Stats.AssistedIn | src/pages/TeamPage.tsx:77 | goal events whose assister is exactly the player |
| Stats.StatsStep | src/pages/TeamPage.tsx:52-81 | one more game adds exactly its playtime, its attendance, played and start flags, and its goals and assists |
| Stats.TallyEvents | src/pages/TeamPage.tsx:74-80 | the inner loop counts exactly the player's goals and assists in the game |
| Stats.CalculatePlayerStats | src/pages/TeamPage.tsx:41-84 | the loop's statistics are `StatsOf`: playtime summed over entries; attended, played and started counted per game; goals and assists over every game; cards 0 |
| Stats.TallyEntry | src/pages/TeamPage.tsx:53-71 | a game adds the player's playtime, and counts once each toward attended, played and started when the player's entry qualifies |
| Stats.StatsBounds | src/pages/TeamPage.tsx:61-70 | games played ≤ games attended ≤ games counted, and starts ≤ games counted |
| Stats.StatsWithoutEntries | src/pages/TeamPage.tsx:52-83 | a player in no lineup gets only the goals and assists the events credit |
| Stats.ScoredAgreesWithTally | src/pages/TeamPage.tsx:74-80 | for a non-empty id, the page's strict scorer test counts what the game page's truthy tallies count |
| Stats.PlayerStatsMap | src/pages/TeamPage.tsx:152-158 | a statistics entry for exactly the roster ids, each `StatsOf` that player |
| Stats.StatsGames | src/pages/TeamPage.tsx:131-138 | exactly the finished games matching the season and competition, where an empty selection matches all |
| Stats.StatsGamesUnfiltered | src/pages/TeamPage.tsx:131-138 | with nothing selected the statistics cover every finished game |
| Stats.NarrowerSelection | src/pages/TeamPage.tsx:131-138 | narrowing the selection never adds games |
| Stats.CollectCompetitions | src/pages/TeamPage.tsx:142-147 | exactly the trimmed, non-empty competitions of the season's games, each once |
| Stats.AddCompetition | src/pages/TeamPage.tsx:143-147 | one pass of the loop keeps the found list exactly the offered competitions seen so far, each once |
| Stats.AvailableCompetitions | src/pages/TeamPage.tsx:140-149 | none without a season; otherwise exactly the offered competitions, strictly increasing |
| Stats.SortedDistinct | src/pages/TeamPage.tsx:148 | sorting a list without repeats keeps its elements and makes it strictly increasing |
| Stats.KeptCompetition | src/pages/TeamPage.tsx:150 | the selection is kept when it is still offered, otherwise cleared |
| Stats.StatsFilter.constructor | src/pages/TeamPage.tsx:96-97 | both pickers start empty |
| Stats.StatsFilter.SelectSeason | src/pages/TeamPage.tsx:164 | choosing a season clears the competition |
| Stats.StatsFilter.SelectCompetition | src/pages/TeamPage.tsx:165 | choosing a competition keeps the season |
| Stats.StatsFilter.DropStaleCompetition | src/pages/TeamPage.tsx:150 | afterwards the competition is empty or offered for the season, and it is either unchanged or cleared. It is kept when a game of the selected season offers it, and cleared when no season is selected |
| Stats.GameOrders | src/pages/TeamPage.tsx:117-124 | both date orders are strict orders |
| Stats.UpcomingGames | src/pages/TeamPage.tsx:108-119 | exactly the unfinished, not running games dated at or after now, soonest first |
| Stats.NextGame | src/pages/TeamPage.tsx:127 | None exactly when nothing is upcoming; otherwise an upcoming game no later than any other |
| Stats.PreviousGames | src/pages/TeamPage.tsx:121-126 | exactly the finished games, newest first |
| Stats.SoonestFirst | src/pages/TeamPage.tsx:117 | sorting by kick-off ascending keeps the same games as often as before, soonest first |
| Stats.LatestFirst | src/pages/TeamPage.tsx:124 | sorting by kick-off descending keeps the same games as often as before, newest first |
| Stats.LastFive | src/pages/TeamPage.tsx:128 | the first min(5, n) previous games, all finished |
| Stats.Reversed | src/pages/TeamPage.tsx:129 | `[...s].reverse()` |
| Stats.LastFiveStripAscending | src/pages/TeamPage.tsx:129 | the strip shows the last five oldest to newest |
| Stats.ResultOf | src/pages/TeamPage.tsx:174 | win, loss or draw exactly as the user's score is above, below or equal to the opponent's |
| Stats.ResultFromOtherSide | src/pages/TeamPage.tsx:174 | switching home and away flips a win into a loss and a loss into a win; the user's and the opponent's scores add up to all the goals |
| Stats.ResultColour | src/pages/SchedulePage.tsx:119-129 | green exactly for a win and red exactly for a loss |
| Schedule.CategoryOf | src/pages/SchedulePage.tsx:23-43 | ongoing exactly when running or paused; upcoming exactly when not started and dated at or after now; previous otherwise |
| Schedule.RunningIsOngoing | src/pages/SchedulePage.tsx:26-35 | a running game is ongoing even when flagged finished |
| Schedule.PreviousGamesAre | src/pages/SchedulePage.tsx:23-43 | a game is previous exactly when it is stopped and either finished, or never started and dated before now |
| Schedule.CategoryList | src/pages/SchedulePage.tsx:45-50 | exactly the games of the category, a permutation of their filter, oldest first |
| Schedule.Bucket | src/pages/SchedulePage.tsx:23-43 | the loop pushes every game onto its category's list, in order |
| Schedule.Categorize | src/pages/SchedulePage.tsx:16-54 | the three lists are each category's games, sorted oldest first |
| Schedule.CategoriesPartition | src/pages/SchedulePage.tsx:16-54 | the three lists together are the games, and every game is in exactly one list |
| Schedule.MiddleText | src/pages/SchedulePage.tsx:131-152 | an ongoing row shows the live score. A finished previous row shows the score badge. Both are in the result colour. An upcoming row with a time shows the kick-off. "vs" is shown exactly for an unfinished previous game or an upcoming one without a time |
| Schedule.ScheduleRows | src/pages/SchedulePage.tsx:131-152 | a stopped finished game shows its final score, a running game its live score, and a past game that never started "vs" |
| Schedule.ScoreColours | src/pages/SchedulePage.tsx:119-129 | a score is green exactly for a win, red exactly for a loss and grey exactly for a draw |

## Left out

- Backend I/O: the Supabase queries, upserts and deletes, authentication, and fetching the team's data. Each call is modelled only by its outcome, an `Option<Thrown>` parameter. Rows the backend returns (new ids, timestamps, the fetched lineup row) are parameters too. `.single()` is folded into the outcome of the call it belongs to.
- Data that lives only in the database is not modelled. Memory is assumed to mirror the rows that start, stop and finish read back. The rows inserted by a reset are assumed to come back in roster order.
- Roster.NewGame: `addGame` takes a new game's score and clock fields from the row the database returns. The model assumes that row comes back with the table's defaults: 0-0, stopped, no start instant, zero elapsed, unfinished. The not-started, clock-consistent and score-in-sync guarantees rest on that assumption.
- `fetchTeamData`, `clearTeamData`, `setTeamName`, `setTeamLogo`, `updateHistoryFromGames` and the most-recent-season and most-recent-competition history helpers are left out: they do backend loads or keep UI history, and none of them is a game-tracking rule.
- Concurrency is left out. Operations run one after another, and the busy flag is a plain guard.
- `Promise.all` and `Promise.allSettled` are left out, except for how `swapPlayers` reports its outcome (see Findings).
- Store.TeamStore.MovePlayerInGame: the second `Date.now()` taken while the substitution event is built is modelled as the same `now`.
- Per-second display intervals and fractional display seconds are left out. The clock and playtime shown are a parameter `shown`.
- Floating-point values are left out: elapsed time is integer milliseconds, rounded with `Math.round`.
- Drag-and-drop geometry is left out: measuring the field, the percentage hit-test and long-press timing are pixel and timer mechanics.
- Parsing date strings and locale formatting (`formatDate`, `formatTime`, `formatPlayTime`) are left out. Dates are abstract ordered integers. `localeCompare` and the default array sort are a lexicographic order on characters.
- Sorting in place is modelled as `Sorting.SortBy` on sequences. Aliasing of the sorted array is not captured.
- Locations outside field, bench and inactive cannot occur in the model, because `Location` is an enum. Reconciliation's fallback to the bench for other strings therefore has no counterpart.
- Scores are always numbers, so the schedule's test that a score is present always holds.
- Yellow and red cards are always 0, as in the source, and are not stored.
- The timeline rows carry event ids and kinds, not player names.
- The page wrappers `handleAsyncAction` and `handleGoBack`, and the menu and delete handlers, are left out: they only forward to store operations and navigation.
- The team page's name-sorted player list and the schedule's scroll-into-view effect are left out: they are presentation.
- Console logging is left out.
- GameRules.ScoreControls.ScoreClick requires that the assist dialog is closed. In the app that dialog is modal, so the score buttons cannot be clicked while it is open.
- GameRules.ScoreControls.SelectScorer, GameRules.ScoreControls.DismissGoalDialog, GameRules.ScoreControls.FinishAssistDialog and GameRules.ScoreControls.CloseAssistDialog require that their dialog is open. Their buttons are rendered only then.
- Errors.Lower: lowers the ASCII letters only. `toLowerCase` applies the full Unicode case mapping, and the model has no case tables. The messages it is applied to are compared with ASCII phrases.
- Clock.LatestMatching: stands for the database's newest-first query only when the database mirrors memory. On a timestamp tie it picks the last in the list, while the database order is unspecified. Store.TeamStore.RemoveLastGameEvent therefore takes the returned row's id as a parameter. Clock.RemoveEventKeepsScoreInSync assumes that id is the latest matching one, and Clock.RemoveUnmirroredGoalBreaksSync shows what happens when it is not in memory.

## Findings

| source | as written | input that shows it | evidently intended | confidence | as-written member | corrected member |
|---|---|---|---|---|---|---|
| src/context/TeamContext.tsx:325-337 | `swapPlayers` looks through the results of `Promise.allSettled` for rejections. `updatePlayer` catches its own errors and resolves with them, so nothing is ever rejected and the swap always reports success. | a swap whose first `updatePlayer` call fails | report the first failing update | not executed | Store.SwapHidesFailure | Store.SwapOutcome |
| src/components/GameSummary.tsx:124-127 | when looking for the partner of a substitution, the search does not skip events already processed, so one event can be paired twice | four user substitutions in the same second, stored in the order out a, out b, in x, in y: four drags in that order, or a confirmed two-swap plan whose moves in x and out b share a millisecond. Event in x is shown twice and in y is shown alone | each event is shown once, paired with an unprocessed partner | not executed | Summary.TimelineAsWrittenShowsEventTwice | Summary.TimelinePairsTwoSwaps |
| src/pages/GamePage.tsx:19-23 | `formatTimer` rounds the seconds remainder by itself | 59 500 ms shows "00:60" | round the whole time first, then split it into minutes and seconds ("01:00") | not executed | GameRules.FormatTimerAsWrittenShowsSixty | GameRules.FormatTimerRoundTrip |
