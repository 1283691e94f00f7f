/** The team store: the in-memory mirror of one team's roster, games and
    saved lineups, and the operations the pages call on it. Every operation
    first awaits its backend calls and then replaces the mirror's lists.
    Each backend call is an input to the operation: the failure it throws,
    if any, and, where the result matters, the data it returns (the ids the
    backend assigns, the lineup row it reads). The current instant is an
    input as well. */
module Store {
  import opened Domain
  import opened Errors
  import opened Clock
  import opened Roster

  const NoTeamMessage := "No team loaded."
  const StartRefusedMessage := "Game not found or already finished."
  const StopRefusedMessage := "Game not found or timer not running."
  const GameNotFoundMessage := "Game not found."
  const PlayersNotFoundMessage := "One or both players not found."
  const SaveRefusedMessage := "Team ID missing or name is empty."
  const LineupStateNotFound := "Player lineup state not found"
  const SavedLineupNotFound := "Saved lineup not found locally."

  datatype Result<T> = Ok(value: T) | Err(message: string)

  /** The game `games.find(g => g.id === id)` returns. */
  function Found(games: seq<Game>, id: string): (g: Game)
    requires FindGame(games, id).Some?
    ensures g in games && g.id == id
  {
    games[FindGame(games, id).value]
  }

  // Preconditions the store checks before any backend call.

  predicate CanStart(teamId: string, games: seq<Game>, id: string) {
    teamId != "" && FindGame(games, id).Some? && !Found(games, id).isExplicitlyFinished
  }

  predicate CanStop(teamId: string, games: seq<Game>, id: string) {
    teamId != "" && FindGame(games, id).Some?
    && Found(games, id).timerStatus == Running && HasInstant(Found(games, id).timerStartTime)
  }

  predicate HasGame(teamId: string, games: seq<Game>, id: string) {
    teamId != "" && FindGame(games, id).Some?
  }

  /** Some entry is on the field (the start upserts those rows). */
  predicate HasFieldEntry(lineup: seq<LineupEntry>) {
    exists k :: 0 <= k < |lineup| && lineup[k].location == Field
  }

  /** Some field or inactive entry has a playtimer (a stop upserts those
      rows). */
  predicate HasClockedEntry(lineup: seq<LineupEntry>) {
    exists k :: 0 <= k < |lineup| && (lineup[k].location == Field || lineup[k].location == Inactive)
                && lineup[k].playtimerStartTime.Some?
  }

  /** The rows a finish upserts exist: clocked field/inactive rows when the
      game runs, otherwise any row with a playtimer. */
  predicate FinishUpserts(g: Game) {
    if g.timerStatus == Running && HasInstant(g.timerStartTime) then HasClockedEntry(g.lineup)
    else exists k :: 0 <= k < |g.lineup| && g.lineup[k].playtimerStartTime.Some?
  }

  /** The outcome `swapPlayers` evidently means to report for its two
      player updates: the first failure, if any. */
  function SwapOutcome(first: Outcome, second: Outcome): (r: Outcome)
    ensures r.Success? <==> first.Success? && second.Success?
    ensures first.Failure? ==> r == first
    ensures first.Success? ==> r == second
  {
    if first.Failure? then first else second
  }

  /** The outcome `swapPlayers` as written reports: it looks for a rejected
      promise, but `updatePlayer` never rejects (it resolves with its error),
      so the swap always reports success. */
  function SwapOutcomeAsWritten(first: Outcome, second: Outcome): (r: Outcome)
    ensures r == Success
  {
    var rejected: seq<Option<Thrown>> := [None, None];
    Attempt(rejected)
  }

  /** A swap whose first update failed is reported as a success as written
      and as that failure by SwapOutcome. */
  lemma SwapHidesFailure(m: string)
    ensures SwapOutcomeAsWritten(Failure(m), Success) == Success
    ensures SwapOutcome(Failure(m), Success) == Failure(m)
  {
  }

  /** The row and the substitution event `movePlayerInGame` computes from
      the fetched row: playtime folded when leaving the field (or the
      inactive list) with a running playtimer, a fresh playtimer on the
      field while the game runs, and a sub count and event in an active
      game. */
  method MoveRow(game: Game, current: LineupEntry, playerId: string, source: Location, target: Location,
                 newPosition: Option<Pos>, now: int, eventId: string)
    returns (moved: LineupEntry, event: Option<GameEvent>)
    ensures moved == MovedEntry(game, current, source, target, newPosition, now)
    ensures event == SubstitutionEvent(game, playerId, source, target, now, eventId)
  {
    var playtime := current.playtimeSeconds;
    var start := current.playtimerStartTime;
    var subOn := current.subbedOnCount;
    var subOff := current.subbedOffCount;
    event := None;
    if (source == Field || source == Inactive) && HasInstant(current.playtimerStartTime) {
      playtime := current.playtimeSeconds + RoundSeconds(now - current.playtimerStartTime.value);
      start := None;
    }
    if target == Field && game.timerStatus == Running && start.None? {
      start := Some(now);
    } else if target != Field {
      start := None;
    }
    if game.timerStatus == Running || (game.timerStatus == Stopped && game.timerElapsedSeconds > 0) {
      var seconds := game.timerElapsedSeconds;
      if game.timerStatus == Running && HasInstant(game.timerStartTime) {
        seconds := seconds + RoundSeconds(now - game.timerStartTime.value);
      }
      if source == Bench && target == Field {
        subOn := subOn + 1;
        event := Some(GameEvent(eventId, Substitution, UserSide(game), None, None, Some(playerId), None, now, seconds));
      } else if source == Field && target == Bench {
        subOff := subOff + 1;
        event := Some(GameEvent(eventId, Substitution, UserSide(game), None, None, None, Some(playerId), now, seconds));
      }
    }
    moved := current.(location := target, position := if target == Field then newPosition else None,
                        playtimeSeconds := playtime, playtimerStartTime := start,
                        subbedOnCount := subOn, subbedOffCount := subOff);
  }

  class TeamStore {
    /** The loaded team's id; "" when no team is loaded. */
    var teamId: string
    var players: seq<Player>
    var games: seq<Game>
    var savedLineups: seq<SavedLineup>

    /** The store as the initial fetch fills it. */
    constructor (teamId: string, players: seq<Player>, games: seq<Game>, savedLineups: seq<SavedLineup>)
      ensures this.teamId == teamId && this.players == players
      ensures this.games == games && this.savedLineups == savedLineups
    {
      this.teamId := teamId;
      this.players := players;
      this.games := games;
      this.savedLineups := savedLineups;
    }

    /** Every game's clock and playtimers agree (see ClockConsistent). */
    ghost predicate ClocksConsistent()
      reads this
    {
      forall k :: 0 <= k < |games| ==> ClockConsistent(games[k])
    }

    // -------------------------------------------------------------------
    // Game clock

    method StartGameTimer(gameId: string, now: int, gameUpdate: Option<Thrown>,
                          lineupFetch: Option<Thrown>, lineupUpsert: Option<Thrown>) returns (r: Outcome)
      modifies this
      ensures old(teamId) == "" ==> r == Failure(NoTeamMessage)
      ensures old(teamId) != "" && !old(CanStart(teamId, games, gameId)) ==> r == Failure(StartRefusedMessage)
      ensures old(CanStart(teamId, games, gameId)) ==>
                r == Attempt([gameUpdate, lineupFetch,
                              Issued(HasFieldEntry(old(Found(games, gameId)).lineup), lineupUpsert)])
      ensures r.Failure? ==> unchanged(this)
      ensures r.Success? ==> && games == UpdateWhere(old(games), gameId, g => StartGame(g, now))
                             && teamId == old(teamId) && players == old(players)
                             && savedLineups == old(savedLineups)
      ensures r.Success? && old(ClocksConsistent()) && now != 0 ==> ClocksConsistent()
    {
      if teamId == "" {
        return Failure(NoTeamMessage);
      }
      if !CanStart(teamId, games, gameId) {
        return Failure(StartRefusedMessage);
      }
      var game := Found(games, gameId);
      r := Attempt([gameUpdate, lineupFetch, Issued(HasFieldEntry(game.lineup), lineupUpsert)]);
      if r.Success? {
        ghost var before := games;
        games := UpdateWhere(games, gameId, g => StartGame(g, now));
        forall k | 0 <= k < |games| && now != 0 && ClockConsistent(before[k]) ensures ClockConsistent(games[k]) {
          if before[k].id == gameId {
            StartKeepsClockConsistent(before[k], now);
          }
        }
      }
    }

    method StopGameTimer(gameId: string, now: int, gameUpdate: Option<Thrown>,
                         lineupFetch: Option<Thrown>, lineupUpsert: Option<Thrown>) returns (r: Outcome)
      modifies this
      ensures old(teamId) == "" ==> r == Failure(NoTeamMessage)
      ensures old(teamId) != "" && !old(CanStop(teamId, games, gameId)) ==> r == Failure(StopRefusedMessage)
      ensures old(CanStop(teamId, games, gameId)) ==>
                r == Attempt([gameUpdate, lineupFetch,
                              Issued(HasClockedEntry(old(Found(games, gameId)).lineup), lineupUpsert)])
      ensures r.Failure? ==> unchanged(this)
      ensures r.Success? ==> && old(CanStop(teamId, games, gameId))
                             && (var newElapsed := StoppedElapsed(old(Found(games, gameId)), now);
                                 games == UpdateWhere(old(games), gameId, g => StopGame(g, now, newElapsed)))
                             && teamId == old(teamId) && players == old(players)
                             && savedLineups == old(savedLineups)
      ensures r.Success? && old(ClocksConsistent()) ==> ClocksConsistent()
    {
      if teamId == "" {
        return Failure(NoTeamMessage);
      }
      if !CanStop(teamId, games, gameId) {
        return Failure(StopRefusedMessage);
      }
      var game := Found(games, gameId);
      var newElapsed := StoppedElapsed(game, now);
      r := Attempt([gameUpdate, lineupFetch, Issued(HasClockedEntry(game.lineup), lineupUpsert)]);
      if r.Success? {
        ghost var before := games;
        games := UpdateWhere(games, gameId, g => StopGame(g, now, newElapsed));
        forall k | 0 <= k < |games| && ClockConsistent(before[k]) ensures ClockConsistent(games[k]) {
          if before[k].id == gameId {
            StopKeepsClockConsistent(before[k], now, newElapsed);
          }
        }
      }
    }

    method MarkGameAsFinished(gameId: string, now: int, lineupFetch: Option<Thrown>,
                              lineupUpsert: Option<Thrown>, gameUpdate: Option<Thrown>) returns (r: Outcome)
      modifies this
      ensures old(teamId) == "" ==> r == Failure(NoTeamMessage)
      ensures old(teamId) != "" && !old(HasGame(teamId, games, gameId)) ==> r == Failure(GameNotFoundMessage)
      ensures old(HasGame(teamId, games, gameId)) ==>
                r == Attempt([lineupFetch, Issued(FinishUpserts(old(Found(games, gameId))), lineupUpsert), gameUpdate])
      ensures r.Failure? ==> unchanged(this)
      ensures r.Success? ==> && old(HasGame(teamId, games, gameId))
                             && (var finalElapsed := FinalElapsed(old(Found(games, gameId)), now);
                                 games == UpdateWhere(old(games), gameId, g => FinishGame(g, finalElapsed)))
                             && teamId == old(teamId) && players == old(players)
                             && savedLineups == old(savedLineups)
      ensures r.Success? && old(ClocksConsistent()) ==> ClocksConsistent()
    {
      if teamId == "" {
        return Failure(NoTeamMessage);
      }
      if !HasGame(teamId, games, gameId) {
        return Failure(GameNotFoundMessage);
      }
      var game := Found(games, gameId);
      var finalElapsed := game.timerElapsedSeconds;
      if game.timerStatus == Running && HasInstant(game.timerStartTime) {
        finalElapsed := StoppedElapsed(game, now);
      }
      assert finalElapsed == FinalElapsed(game, now);
      r := Attempt([lineupFetch, Issued(FinishUpserts(game), lineupUpsert), gameUpdate]);
      if r.Success? {
        ghost var before := games;
        games := UpdateWhere(games, gameId, g => FinishGame(g, finalElapsed));
        forall k | 0 <= k < |games| && ClockConsistent(before[k]) ensures ClockConsistent(games[k]) {
          if before[k].id == gameId {
            FinishMakesClockConsistent(before[k], finalElapsed);
          }
        }
      }
    }

    /** Resets a game to a bench-default lineup of the current roster. The
        game is not looked up: an unknown id changes nothing in memory. */
    method ResetGameLineup(gameId: string, backend: Option<Thrown>) returns (r: Result<seq<LineupEntry>>)
      modifies this
      ensures old(teamId) == "" ==> r == Err(NoTeamMessage)
      ensures old(teamId) != "" && backend.Some? ==> r == Err(ParseSupabaseError(backend.value))
      ensures r.Err? ==> unchanged(this)
      ensures old(teamId) != "" && backend.None? ==>
                && r == Ok(CreateDefaultLineup(old(players)))
                && games == UpdateWhere(old(games), gameId, g => ResetGame(g, CreateDefaultLineup(old(players))))
                && teamId == old(teamId) && players == old(players) && savedLineups == old(savedLineups)
      ensures r.Ok? && old(ClocksConsistent()) ==> ClocksConsistent()
    {
      if teamId == "" {
        return Err(NoTeamMessage);
      }
      if backend.Some? {
        return Err(ParseSupabaseError(backend.value));
      }
      var lineup := CreateDefaultLineup(players);
      games := UpdateWhere(games, gameId, g => ResetGame(g, lineup));
      forall k | 0 <= k < |games| && ClockConsistent(old(games)[k]) ensures ClockConsistent(games[k]) {
        if old(games)[k].id == gameId {
          ResetMakesClockConsistent(old(games)[k], players);
        }
      }
      r := Ok(lineup);
    }

    /** Moves a player within a game's lineup. `row` is the player's lineup
        row as the backend returns it (None when there is none); the
        declared `source` is trusted. */
    method MovePlayerInGame(gameId: string, playerId: string, source: Location, target: Location,
                            newPosition: Option<Pos>, now: int, eventId: string,
                            lineupFetch: Option<Thrown>, row: Option<LineupEntry>,
                            lineupUpdate: Option<Thrown>) returns (r: Outcome)
      modifies this
      ensures old(teamId) == "" ==> r == Failure(NoTeamMessage)
      ensures old(teamId) != "" && !old(HasGame(teamId, games, gameId)) ==> r == Failure(GameNotFoundMessage)
      ensures old(HasGame(teamId, games, gameId)) && lineupFetch.Some? ==>
                r == Failure(ParseSupabaseError(lineupFetch.value))
      ensures old(HasGame(teamId, games, gameId)) && lineupFetch.None? && row.None? ==>
                r == Failure(ParseSupabaseError(JsError(LineupStateNotFound)))
      ensures old(HasGame(teamId, games, gameId)) && lineupFetch.None? && row.Some? ==>
                r == Attempt([lineupUpdate])
      ensures r.Failure? ==> unchanged(this)
      ensures r.Success? ==>
                && row.Some? && old(HasGame(teamId, games, gameId))
                && teamId == old(teamId) && players == old(players) && savedLineups == old(savedLineups)
                && (var game := old(Found(games, gameId));
                    var moved := MovedEntry(game, row.value, source, target, newPosition, now);
                    var event := SubstitutionEvent(game, playerId, source, target, now, eventId);
                    games == UpdateWhere(old(games), gameId, g => MoveInGame(g, playerId, moved, event)))
    {
      if teamId == "" {
        return Failure(NoTeamMessage);
      }
      if !HasGame(teamId, games, gameId) {
        return Failure(GameNotFoundMessage);
      }
      var game := Found(games, gameId);
      if lineupFetch.Some? {
        return Failure(ParseSupabaseError(lineupFetch.value));
      }
      if row.None? {
        return Failure(ParseSupabaseError(JsError(LineupStateNotFound)));
      }
      var moved, event := MoveRow(game, row.value, playerId, source, target, newPosition, now, eventId);
      if lineupUpdate.Some? {
        return Failure(ParseSupabaseError(lineupUpdate.value));
      }
      games := UpdateWhere(games, gameId, g => MoveInGame(g, playerId, moved, event));
      r := Success;
    }

    // -------------------------------------------------------------------
    // Game events

    /** Records an event; `eventId` and `timestamp` are what the backend
        returns for the inserted row. A failing score update is ignored. */
    method AddGameEvent(gameId: string, kind: EventKind, team: Side, scorer: Option<string>,
                        assist: Option<string>, playerIn: Option<string>, playerOut: Option<string>,
                        gameSeconds: int, eventId: string, timestamp: int,
                        insert: Option<Thrown>) returns (r: Outcome)
      modifies this
      ensures old(teamId) == "" ==> r == Failure(NoTeamMessage)
      ensures old(teamId) != "" && !old(HasGame(teamId, games, gameId)) ==> r == Failure(GameNotFoundMessage)
      ensures old(HasGame(teamId, games, gameId)) ==> r == Attempt([insert])
      ensures r.Failure? ==> unchanged(this)
      ensures r.Success? ==>
                && old(HasGame(teamId, games, gameId))
                && teamId == old(teamId) && players == old(players) && savedLineups == old(savedLineups)
                && (var ev := GameEvent(eventId, kind, team, scorer, assist, playerIn, playerOut, timestamp, gameSeconds);
                    var scores := ScoresAfterAdd(old(Found(games, gameId)), kind, team);
                    games == UpdateWhere(old(games), gameId, g => AddEvent(g, ev, scores)))
    {
      if teamId == "" {
        return Failure(NoTeamMessage);
      }
      if !HasGame(teamId, games, gameId) {
        return Failure(GameNotFoundMessage);
      }
      var game := Found(games, gameId);
      if insert.Some? {
        return Failure(ParseSupabaseError(insert.value));
      }
      var ev := GameEvent(eventId, kind, team, scorer, assist, playerIn, playerOut, timestamp, gameSeconds);
      var scores := ScoresAfterAdd(game, kind, team);
      games := UpdateWhere(games, gameId, g => AddEvent(g, ev, scores));
      r := Success;
    }

    /** Deletes the latest event of `team` and `kind`. `fetched` is the id
        of the row the backend's newest-first query returns, if any; no row
        is a success that changes nothing. The delete and the in-memory
        filter go by that id. A failing score update is ignored. */
    method RemoveLastGameEvent(gameId: string, team: Side, kind: EventKind,
                               fetch: Option<Thrown>, fetched: Option<string>,
                               delete: Option<Thrown>) returns (r: Outcome)
      modifies this
      ensures old(teamId) == "" ==> r == Failure(NoTeamMessage)
      ensures old(teamId) != "" && !old(HasGame(teamId, games, gameId)) ==> r == Failure(GameNotFoundMessage)
      ensures old(HasGame(teamId, games, gameId)) ==> r == Attempt([fetch, Issued(fetched.Some?, delete)])
      ensures r.Failure? ==> unchanged(this)
      ensures r.Success? ==> old(HasGame(teamId, games, gameId))
      ensures r.Success? && fetched.None? ==> unchanged(this)
      ensures r.Success? && fetched.Some? ==>
                && teamId == old(teamId) && players == old(players) && savedLineups == old(savedLineups)
                && (var scores := ScoresAfterRemove(old(Found(games, gameId)), kind, team);
                    games == UpdateWhere(old(games), gameId, g => RemoveEvent(g, fetched.value, scores)))
    {
      if teamId == "" {
        return Failure(NoTeamMessage);
      }
      if !HasGame(teamId, games, gameId) {
        return Failure(GameNotFoundMessage);
      }
      var game := Found(games, gameId);
      r := Attempt([fetch, Issued(fetched.Some?, delete)]);
      if r.Success? && fetched.Some? {
        var scores := ScoresAfterRemove(game, kind, team);
        games := UpdateWhere(games, gameId, g => RemoveEvent(g, fetched.value, scores));
      }
    }

    // -------------------------------------------------------------------
    // Roster

    /** Adds a player; `playerId` is the id the backend assigns. */
    method AddPlayer(firstName: string, lastName: string, number: string, playerId: string,
                     insert: Option<Thrown>) returns (r: Outcome)
      modifies this
      ensures old(teamId) == "" ==> r == Failure(NoTeamMessage)
      ensures old(teamId) != "" ==> r == Attempt([insert])
      ensures r.Failure? ==> unchanged(this)
      ensures r.Success? ==> && players == RosterAfterAdd(old(players), NewPlayer(playerId, firstName, lastName, number))
                             && teamId == old(teamId) && games == old(games) && savedLineups == old(savedLineups)
    {
      if teamId == "" {
        return Failure(NoTeamMessage);
      }
      if insert.Some? {
        return Failure(ParseSupabaseError(insert.value));
      }
      players := RosterAfterAdd(players, NewPlayer(playerId, firstName, lastName, number));
      r := Success;
    }

    method UpdatePlayer(playerId: string, u: PlayerUpdate, update: Option<Thrown>) returns (r: Outcome)
      modifies this
      ensures old(teamId) == "" ==> r == Failure(NoTeamMessage)
      ensures old(teamId) != "" ==> r == Attempt([update])
      ensures players == if r.Success? then RosterAfterUpdate(old(players), playerId, u) else old(players)
      ensures teamId == old(teamId) && games == old(games) && savedLineups == old(savedLineups)
    {
      if teamId == "" {
        return Failure(NoTeamMessage);
      }
      if update.Some? {
        return Failure(ParseSupabaseError(update.value));
      }
      players := RosterAfterUpdate(players, playerId, u);
      r := Success;
    }

    /** Removes a player from the roster and from every saved lineup; game
        lineups keep the player's entries. */
    method DeletePlayer(playerId: string, delete: Option<Thrown>) returns (r: Outcome)
      modifies this
      ensures old(teamId) == "" ==> r == Failure(NoTeamMessage)
      ensures old(teamId) != "" ==> r == Attempt([delete])
      ensures r.Failure? ==> unchanged(this)
      ensures r.Success? ==> && players == RosterAfterDelete(old(players), playerId)
                             && savedLineups == LineupsAfterDeletePlayer(old(savedLineups), playerId)
                             && teamId == old(teamId) && games == old(games)
    {
      if teamId == "" {
        return Failure(NoTeamMessage);
      }
      if delete.Some? {
        return Failure(ParseSupabaseError(delete.value));
      }
      players := RosterAfterDelete(players, playerId);
      savedLineups := LineupsAfterDeletePlayer(savedLineups, playerId);
      r := Success;
    }

    /** `movePlayer`: an `updatePlayer` of the location and the (possibly
        undefined) position. */
    method MovePlayer(playerId: string, target: Location, position: Option<Pos>, update: Option<Thrown>)
      returns (r: Outcome)
      modifies this
      ensures old(teamId) == "" ==> r == Failure(NoTeamMessage)
      ensures old(teamId) != "" ==> r == Attempt([update])
      ensures players == if r.Success? then RosterAfterUpdate(old(players), playerId,
                                                              PlayerUpdate(None, None, None, Some(target), Some(position)))
                         else old(players)
      ensures teamId == old(teamId) && games == old(games) && savedLineups == old(savedLineups)
    {
      r := UpdatePlayer(playerId, PlayerUpdate(None, None, None, Some(target), Some(position)), update);
    }

    /** Swaps two roster players' locations and positions with two
        independent updates, each applied when it succeeds. As written, the
        swap then reports success even when an update failed (see
        `SwapHidesFailure`). */
    method SwapPlayers(player1Id: string, player2Id: string, update1: Option<Thrown>, update2: Option<Thrown>)
      returns (r: Outcome)
      modifies this
      ensures FindPlayer(old(players), player1Id).None? || FindPlayer(old(players), player2Id).None? ==>
                r == Failure(PlayersNotFoundMessage) && unchanged(this)
      ensures FindPlayer(old(players), player1Id).Some? && FindPlayer(old(players), player2Id).Some? ==>
                var p1 := old(players)[FindPlayer(old(players), player1Id).value];
                var p2 := old(players)[FindPlayer(old(players), player2Id).value];
                var u1 := PlayerUpdate(None, None, None, Some(p2.location), Some(p2.position));
                var u2 := PlayerUpdate(None, None, None, Some(p1.location), Some(p1.position));
                var ok1 := old(teamId) != "" && update1.None?;
                var ok2 := old(teamId) != "" && update2.None?;
                var mid := if ok1 then RosterAfterUpdate(old(players), p1.id, u1) else old(players);
                && players == (if ok2 then RosterAfterUpdate(mid, p2.id, u2) else mid)
                && r == Success
                && teamId == old(teamId) && games == old(games) && savedLineups == old(savedLineups)
    {
      var i1 := FindPlayer(players, player1Id);
      var i2 := FindPlayer(players, player2Id);
      if i1.None? || i2.None? {
        return Failure(PlayersNotFoundMessage);
      }
      var p1 := players[i1.value];
      var p2 := players[i2.value];
      var first := UpdatePlayer(p1.id, PlayerUpdate(None, None, None, Some(p2.location), Some(p2.position)), update1);
      var second := UpdatePlayer(p2.id, PlayerUpdate(None, None, None, Some(p1.location), Some(p1.position)), update2);
      r := SwapOutcomeAsWritten(first, second);
    }

    // -------------------------------------------------------------------
    // Games

    /** Creates a game; `gameId` is the id the backend assigns. The mirror
        takes the game before the default lineup rows are inserted, so a
        failing lineup insert is reported with the game already added. */
    method AddGame(opponent: string, date: int, time: Option<int>, location: Side, season: string,
                   competition: string, gameId: string, insert: Option<Thrown>,
                   lineupInsert: Option<Thrown>) returns (r: Result<string>)
      modifies this
      ensures old(teamId) == "" ==> r == Err(NoTeamMessage) && unchanged(this)
      ensures old(teamId) != "" && insert.Some? ==> r == Err(ParseSupabaseError(insert.value)) && unchanged(this)
      ensures old(teamId) != "" && insert.None? ==>
                && games == GamesAfterAdd(old(games), NewGame(gameId, opponent, date, time, location, season, competition))
                && r == (if lineupInsert.Some? then Err(ParseSupabaseError(lineupInsert.value)) else Ok(gameId))
                && teamId == old(teamId) && players == old(players) && savedLineups == old(savedLineups)
    {
      if teamId == "" {
        return Err(NoTeamMessage);
      }
      if insert.Some? {
        return Err(ParseSupabaseError(insert.value));
      }
      games := GamesAfterAdd(games, NewGame(gameId, opponent, date, time, location, season, competition));
      if lineupInsert.Some? {
        return Err(ParseSupabaseError(lineupInsert.value));
      }
      r := Ok(gameId);
    }

    method UpdateGame(gameId: string, u: GameUpdate, update: Option<Thrown>) returns (r: Outcome)
      modifies this
      ensures old(teamId) == "" ==> r == Failure(NoTeamMessage)
      ensures old(teamId) != "" ==> r == Attempt([update])
      ensures r.Failure? ==> unchanged(this)
      ensures r.Success? ==> && games == GamesAfterUpdate(old(games), gameId, u)
                             && teamId == old(teamId) && players == old(players) && savedLineups == old(savedLineups)
    {
      if teamId == "" {
        return Failure(NoTeamMessage);
      }
      if update.Some? {
        return Failure(ParseSupabaseError(update.value));
      }
      games := GamesAfterUpdate(games, gameId, u);
      r := Success;
    }

    method DeleteGame(gameId: string, delete: Option<Thrown>) returns (r: Outcome)
      modifies this
      ensures old(teamId) == "" ==> r == Failure(NoTeamMessage)
      ensures old(teamId) != "" ==> r == Attempt([delete])
      ensures r.Failure? ==> unchanged(this)
      ensures r.Success? ==> && games == GamesAfterDelete(old(games), gameId)
                             && teamId == old(teamId) && players == old(players) && savedLineups == old(savedLineups)
    {
      if teamId == "" {
        return Failure(NoTeamMessage);
      }
      if delete.Some? {
        return Failure(ParseSupabaseError(delete.value));
      }
      games := GamesAfterDelete(games, gameId);
      r := Success;
    }

    // -------------------------------------------------------------------
    // Saved lineups

    /** Saves the roster's slots under the trimmed name; `lineupId` is the
        id of the row the upsert returns. */
    method SaveLineup(name: string, lineupId: string, upsert: Option<Thrown>) returns (r: Outcome)
      modifies this
      ensures old(teamId) == "" || Trim(name) == "" ==> r == Failure(SaveRefusedMessage)
      ensures old(teamId) != "" && Trim(name) != "" ==> r == Attempt([upsert])
      ensures r.Failure? ==> unchanged(this)
      ensures r.Success? ==>
                && savedLineups == LineupsAfterSave(old(savedLineups), SavedLineup(lineupId, Trim(name), SlotsOf(old(players))))
                && teamId == old(teamId) && players == old(players) && games == old(games)
    {
      var trimmed := Trim(name);
      if teamId == "" || trimmed == "" {
        r := Failure(SaveRefusedMessage);
      } else {
        r := Attempt([upsert]);
        if r.Success? {
          savedLineups := LineupsAfterSave(savedLineups, SavedLineup(lineupId, trimmed, SlotsOf(players)));
        }
      }
    }

    /** Applies a saved lineup to the roster (success is `true` in the
        source). */
    method LoadLineup(lineupId: string, upsert: Option<Thrown>) returns (r: Outcome)
      modifies this
      ensures old(teamId) == "" ==> r == Failure(NoTeamMessage)
      ensures old(teamId) != "" && FindLineup(old(savedLineups), lineupId).None? ==>
                r == Failure(ParseSupabaseError(JsError(SavedLineupNotFound)))
      ensures old(teamId) != "" && FindLineup(old(savedLineups), lineupId).Some? ==> r == Attempt([upsert])
      ensures r.Failure? ==> unchanged(this)
      ensures r.Success? ==>
                && FindLineup(old(savedLineups), lineupId).Some?
                && players == RosterAfterLoad(old(players), old(savedLineups)[FindLineup(old(savedLineups), lineupId).value].players)
                && teamId == old(teamId) && games == old(games) && savedLineups == old(savedLineups)
    {
      if teamId == "" {
        return Failure(NoTeamMessage);
      }
      var k := 0;
      while k < |savedLineups| && savedLineups[k].id != lineupId
        invariant 0 <= k <= |savedLineups|
        invariant forall j :: 0 <= j < k ==> savedLineups[j].id != lineupId
      {
        k := k + 1;
      }
      if k == |savedLineups| {
        return Failure(ParseSupabaseError(JsError(SavedLineupNotFound)));
      }
      if upsert.Some? {
        return Failure(ParseSupabaseError(upsert.value));
      }
      players := RosterAfterLoad(players, savedLineups[k].players);
      r := Success;
    }

    method DeleteLineup(lineupId: string, delete: Option<Thrown>) returns (r: Outcome)
      modifies this
      ensures old(teamId) == "" ==> r == Failure(NoTeamMessage)
      ensures old(teamId) != "" ==> r == Attempt([delete])
      ensures r.Failure? ==> unchanged(this)
      ensures r.Success? ==>
                && savedLineups == LineupsAfterDelete(old(savedLineups), lineupId)
                && (forall l :: l in savedLineups <==> l in old(savedLineups) && l.id != lineupId)
                && teamId == old(teamId) && players == old(players) && games == old(games)
    {
      if teamId == "" {
        return Failure(NoTeamMessage);
      }
      if delete.Some? {
        return Failure(ParseSupabaseError(delete.value));
      }
      savedLineups := LineupsAfterDelete(savedLineups, lineupId);
      r := Success;
    }

    /** Puts the whole roster on the bench. */
    method ResetLineup(upsert: Option<Thrown>) returns (r: Outcome)
      modifies this
      ensures old(teamId) == "" ==> r == Failure(NoTeamMessage)
      ensures old(teamId) != "" ==> r == Attempt([upsert])
      ensures r.Failure? ==> unchanged(this)
      ensures r.Success? ==> && players == RosterAfterReset(old(players))
                             && teamId == old(teamId) && games == old(games) && savedLineups == old(savedLineups)
    {
      if teamId == "" {
        return Failure(NoTeamMessage);
      }
      if upsert.Some? {
        return Failure(ParseSupabaseError(upsert.value));
      }
      players := RosterAfterReset(players);
      r := Success;
    }
  }
}
