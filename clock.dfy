/** The deterministic part of each game operation of the team store: the
    update it applies to one game in the in-memory mirror, once every
    backend call has succeeded. The store applies these to every game with
    the requested id; the values read from "the" game (the new elapsed
    time, the scores, the lineup row of the moved player) are computed once
    from the first such game. */
module Clock {
  import opened Domain

  /** JavaScript truthiness of a nullable instant: null and 0 are false. */
  predicate HasInstant(t: Option<int>) {
    t.Some? && t.value != 0
  }

  /** `games.map(g => g.id === id ? f(g) : g)`. */
  function UpdateWhere(gs: seq<Game>, id: string, f: Game -> Game): (r: seq<Game>)
    ensures |r| == |gs|
    ensures forall i :: 0 <= i < |gs| && gs[i].id == id ==> r[i] == f(gs[i])
    ensures forall i :: 0 <= i < |gs| && gs[i].id != id ==> r[i] == gs[i]
  {
    if |gs| == 0 then []
    else [if gs[0].id == id then f(gs[0]) else gs[0]] + UpdateWhere(gs[1..], id, f)
  }

  /** `lineup.map(f)`. */
  function MapEntries(l: seq<LineupEntry>, f: LineupEntry -> LineupEntry): (r: seq<LineupEntry>)
    ensures |r| == |l|
    ensures forall i :: 0 <= i < |l| ==> r[i] == f(l[i])
  {
    if |l| == 0 then [] else [f(l[0])] + MapEntries(l[1..], f)
  }

  /** The bench-default entry every roster player gets in a new or reset
      lineup. */
  function DefaultEntry(id: string): LineupEntry {
    LineupEntry(id, Bench, None, None, 0, None, false, 0, 0)
  }

  /** One bench-default entry per roster player, in roster order. */
  function CreateDefaultLineup(players: seq<Player>): (r: seq<LineupEntry>)
    ensures |r| == |players|
    ensures forall i :: 0 <= i < |players| ==> r[i] == DefaultEntry(players[i].id)
    ensures LineupIds(r) == RosterIds(players)
  {
    if |players| == 0 then []
    else [DefaultEntry(players[0].id)] + CreateDefaultLineup(players[1..])
  }

  // ---------------------------------------------------------------------
  // The clock invariant

  /** A lineup entry's playtimer runs exactly when the entry is on the
      field and its game's clock is running. */
  predicate EntryClockConsistent(p: LineupEntry, status: TimerStatus) {
    && (p.playtimerStartTime.Some? <==> p.location == Field && status == Running)
    && (p.playtimerStartTime.Some? ==> HasInstant(p.playtimerStartTime))
  }

  /** The game has a start instant exactly when its clock runs, and every
      lineup entry's playtimer follows the game clock. */
  predicate ClockConsistent(g: Game) {
    && (g.timerStatus == Running <==> g.timerStartTime.Some?)
    && (g.timerStartTime.Some? ==> HasInstant(g.timerStartTime))
    && forall i :: 0 <= i < |g.lineup| ==> EntryClockConsistent(g.lineup[i], g.timerStatus)
  }

  // ---------------------------------------------------------------------
  // Start

  /** The clock has never run: no elapsed time and no start instant. */
  predicate IsFreshStart(g: Game) {
    g.timerElapsedSeconds == 0 && !HasInstant(g.timerStartTime)
  }

  function StartEntry(p: LineupEntry, firstStart: bool, now: int): LineupEntry {
    p.(playtimerStartTime := if p.location == Field then Some(now) else p.playtimerStartTime,
       isStarter := if firstStart then p.location == Field || p.location == Bench else p.isStarter,
       initialPosition := if firstStart && p.location == Field then p.position else p.initialPosition)
  }

  /** The mirror update of `startGameTimer`. */
  function StartGame(g: Game, now: int): (r: Game)
    ensures r.timerStatus == Running && r.timerStartTime == Some(now)
    ensures r.timerElapsedSeconds == g.timerElapsedSeconds
    ensures r.(timerStatus := g.timerStatus, timerStartTime := g.timerStartTime, lineup := g.lineup) == g
    ensures |r.lineup| == |g.lineup|
    ensures forall i :: 0 <= i < |g.lineup| && g.lineup[i].location == Field ==>
              r.lineup[i].playtimerStartTime == Some(now)
    ensures forall i :: 0 <= i < |g.lineup| && g.lineup[i].location != Field ==>
              r.lineup[i].playtimerStartTime == g.lineup[i].playtimerStartTime
    ensures IsFreshStart(g) ==> forall i :: 0 <= i < |g.lineup| ==>
              && r.lineup[i].isStarter == (g.lineup[i].location != Inactive)
              && r.lineup[i].initialPosition ==
                   (if g.lineup[i].location == Field then g.lineup[i].position else g.lineup[i].initialPosition)
    ensures !IsFreshStart(g) ==> forall i :: 0 <= i < |g.lineup| ==>
              && r.lineup[i].isStarter == g.lineup[i].isStarter
              && r.lineup[i].initialPosition == g.lineup[i].initialPosition
    ensures forall i :: 0 <= i < |g.lineup| ==>
              r.lineup[i].(playtimerStartTime := g.lineup[i].playtimerStartTime,
                           isStarter := g.lineup[i].isStarter,
                           initialPosition := g.lineup[i].initialPosition) == g.lineup[i]
  {
    var firstStart := IsFreshStart(g);
    g.(timerStatus := Running, timerStartTime := Some(now),
       lineup := MapEntries(g.lineup, p => StartEntry(p, firstStart, now)))
  }

  // ---------------------------------------------------------------------
  // Stop

  /** The playtimer of this entry is folded by a stop. */
  predicate StopFolds(p: LineupEntry) {
    (p.location == Field || p.location == Inactive) && HasInstant(p.playtimerStartTime)
  }

  function StopEntry(p: LineupEntry, now: int): LineupEntry {
    if StopFolds(p) then
      p.(playtimeSeconds := p.playtimeSeconds + RoundSeconds(now - p.playtimerStartTime.value),
         playtimerStartTime := None)
    else p
  }

  /** The elapsed time a stop commits: the running interval, rounded to
      seconds, added to the stored elapsed time. */
  function StoppedElapsed(g: Game, now: int): (r: int)
    requires HasInstant(g.timerStartTime)
    ensures now >= g.timerStartTime.value ==> r >= g.timerElapsedSeconds
    ensures 1000 * (r - g.timerElapsedSeconds) <= now - g.timerStartTime.value + 500
              < 1000 * (r - g.timerElapsedSeconds) + 1000
  {
    g.timerElapsedSeconds + RoundSeconds(now - g.timerStartTime.value)
  }

  /** The mirror update of `stopGameTimer`, given the elapsed time computed
      from the game that was found. */
  function StopGame(g: Game, now: int, newElapsed: int): (r: Game)
    ensures r.timerStatus == Stopped && r.timerStartTime == None && r.timerElapsedSeconds == newElapsed
    ensures r.(timerStatus := g.timerStatus, timerStartTime := g.timerStartTime,
               timerElapsedSeconds := g.timerElapsedSeconds, lineup := g.lineup) == g
    ensures |r.lineup| == |g.lineup|
    ensures forall i :: 0 <= i < |g.lineup| && StopFolds(g.lineup[i]) ==>
              && r.lineup[i].playtimeSeconds ==
                   g.lineup[i].playtimeSeconds + RoundSeconds(now - g.lineup[i].playtimerStartTime.value)
              && r.lineup[i].playtimerStartTime == None
              && r.lineup[i].(playtimeSeconds := g.lineup[i].playtimeSeconds,
                              playtimerStartTime := g.lineup[i].playtimerStartTime) == g.lineup[i]
    ensures forall i :: 0 <= i < |g.lineup| && !StopFolds(g.lineup[i]) ==> r.lineup[i] == g.lineup[i]
  {
    g.(timerStatus := Stopped, timerStartTime := None, timerElapsedSeconds := newElapsed,
       lineup := MapEntries(g.lineup, p => StopEntry(p, now)))
  }

  // ---------------------------------------------------------------------
  // Finish

  /** The elapsed time a finish commits: folded only if the clock runs. */
  function FinalElapsed(g: Game, now: int): (r: int)
    ensures g.timerStatus == Running && HasInstant(g.timerStartTime) ==> r == StoppedElapsed(g, now)
    ensures !(g.timerStatus == Running && HasInstant(g.timerStartTime)) ==> r == g.timerElapsedSeconds
  {
    if g.timerStatus == Running && HasInstant(g.timerStartTime) then StoppedElapsed(g, now)
    else g.timerElapsedSeconds
  }

  /** The mirror update of `markGameAsFinished`: every playtimer is nulled,
      and no playtime is folded (the database rows are folded, the mirror
      is not). */
  function FinishGame(g: Game, finalElapsed: int): (r: Game)
    ensures r.isExplicitlyFinished && r.timerStatus == Stopped && r.timerStartTime == None
    ensures r.timerElapsedSeconds == finalElapsed
    ensures r.(timerStatus := g.timerStatus, timerStartTime := g.timerStartTime,
               timerElapsedSeconds := g.timerElapsedSeconds,
               isExplicitlyFinished := g.isExplicitlyFinished, lineup := g.lineup) == g
    ensures |r.lineup| == |g.lineup|
    ensures forall i :: 0 <= i < |g.lineup| ==>
              r.lineup[i] == g.lineup[i].(playtimerStartTime := None)
  {
    g.(timerStatus := Stopped, timerStartTime := None, timerElapsedSeconds := finalElapsed,
       isExplicitlyFinished := true,
       lineup := MapEntries(g.lineup, (p: LineupEntry) => p.(playtimerStartTime := None)))
  }

  /** A second finish, at any later instant, changes nothing. */
  lemma {:induction false} FinishIdempotent(g: Game, now: int, later: int)
    ensures var f := FinishGame(g, FinalElapsed(g, now));
            FinishGame(f, FinalElapsed(f, later)) == f
  {
    var f := FinishGame(g, FinalElapsed(g, now));
    var f2 := FinishGame(f, FinalElapsed(f, later));
    assert f2.lineup == f.lineup;
  }

  /** A finish of a running game leaves a field player's playtime where it
      was, where a stop at the same instant credits the running interval. */
  lemma FinishDoesNotFoldPlaytime(g: Game, now: int, i: nat)
    requires ClockConsistent(g) && g.timerStatus == Running
    requires i < |g.lineup| && g.lineup[i].location == Field
    requires now >= g.lineup[i].playtimerStartTime.value + 500
    ensures FinishGame(g, FinalElapsed(g, now)).lineup[i].playtimeSeconds == g.lineup[i].playtimeSeconds
    ensures StopGame(g, now, FinalElapsed(g, now)).lineup[i].playtimeSeconds > g.lineup[i].playtimeSeconds
  {
    assert EntryClockConsistent(g.lineup[i], g.timerStatus);
  }

  // ---------------------------------------------------------------------
  // Reset

  /** The mirror update of `resetGameLineup`: the new lineup, a zeroed
      clock, no events and a 0-0 score. */
  function ResetGame(g: Game, lineup: seq<LineupEntry>): (r: Game)
    ensures r.lineup == lineup && r.events == []
    ensures r.homeScore == 0 && r.awayScore == 0
    ensures r.timerStatus == Stopped && r.timerStartTime == None && r.timerElapsedSeconds == 0
    ensures !r.isExplicitlyFinished && IsNotStarted(r)
    ensures r.id == g.id && r.opponent == g.opponent && r.date == g.date && r.time == g.time
    ensures r.location == g.location && r.season == g.season && r.competition == g.competition
  {
    g.(lineup := lineup, timerElapsedSeconds := 0, timerStartTime := None, timerStatus := Stopped,
       isExplicitlyFinished := false, homeScore := 0, awayScore := 0, events := [])
  }

  // ---------------------------------------------------------------------
  // Move

  /** Substitutions are recorded while the clock runs, or is stopped after
      having run (this includes a finished game). */
  predicate IsGameActive(g: Game) {
    g.timerStatus == Running || (g.timerStatus == Stopped && g.timerElapsedSeconds > 0)
  }

  /** The game-clock second of an event recorded at `now`. */
  function EventSeconds(g: Game, now: int): (r: int)
    ensures g.timerStatus == Running && HasInstant(g.timerStartTime) ==> r == StoppedElapsed(g, now)
    ensures !(g.timerStatus == Running && HasInstant(g.timerStartTime)) ==> r == g.timerElapsedSeconds
  {
    FinalElapsed(g, now)
  }

  /** A move folds the row's playtimer when the declared source is field or
      inactive and the playtimer is set. */
  predicate MoveFolds(row: LineupEntry, source: Location) {
    (source == Field || source == Inactive) && HasInstant(row.playtimerStartTime)
  }

  /** The new state of the moved player's lineup row, computed from the row
      and the game that was found. The declared source location is trusted:
      the row's actual location is never consulted. */
  function MovedEntry(g: Game, row: LineupEntry, source: Location, target: Location,
                      newPosition: Option<Pos>, now: int): (r: LineupEntry)
    ensures r.location == target
    ensures r.position == (if target == Field then newPosition else None)
    ensures MoveFolds(row, source) ==>
              r.playtimeSeconds == row.playtimeSeconds + RoundSeconds(now - row.playtimerStartTime.value)
    ensures !MoveFolds(row, source) ==> r.playtimeSeconds == row.playtimeSeconds
    ensures target != Field ==> r.playtimerStartTime == None
    ensures (target == Field && g.timerStatus == Running && (MoveFolds(row, source) || row.playtimerStartTime.None?))
              ==> r.playtimerStartTime == Some(now)
    ensures (target == Field && !MoveFolds(row, source) && row.playtimerStartTime.Some?)
              ==> r.playtimerStartTime == row.playtimerStartTime
    ensures (target == Field && g.timerStatus != Running && (MoveFolds(row, source) || row.playtimerStartTime.None?))
              ==> r.playtimerStartTime == None
    ensures r.subbedOnCount == row.subbedOnCount +
              (if IsGameActive(g) && source == Bench && target == Field then 1 else 0)
    ensures r.subbedOffCount == row.subbedOffCount +
              (if IsGameActive(g) && source == Field && target == Bench then 1 else 0)
    ensures r.id == row.id && r.isStarter == row.isStarter && r.initialPosition == row.initialPosition
  {
    var folds := MoveFolds(row, source);
    var playtime := if folds then row.playtimeSeconds + RoundSeconds(now - row.playtimerStartTime.value)
                    else row.playtimeSeconds;
    var start1 := if folds then None else row.playtimerStartTime;
    var start2 := if target == Field && g.timerStatus == Running && start1.None? then Some(now)
                  else if target != Field then None
                  else start1;
    var subOn := row.subbedOnCount + (if IsGameActive(g) && source == Bench && target == Field then 1 else 0);
    var subOff := row.subbedOffCount + (if IsGameActive(g) && source == Field && target == Bench then 1 else 0);
    row.(location := target, position := if target == Field then newPosition else None,
         playtimeSeconds := playtime, playtimerStartTime := start2,
         subbedOnCount := subOn, subbedOffCount := subOff)
  }

  /** The single-sided substitution event a move records, if any: bench to
      field records the player coming in, field to bench the player going
      out, both on the user's side and only while the game is active. */
  function SubstitutionEvent(g: Game, playerId: string, source: Location, target: Location,
                             now: int, eventId: string): (r: Option<GameEvent>)
    ensures r.Some? <==> IsGameActive(g) && ((source == Bench && target == Field) || (source == Field && target == Bench))
    ensures r.Some? ==> && r.value.id == eventId && r.value.kind == Substitution
                        && r.value.team == UserSide(g) && r.value.timestamp == now
                        && r.value.gameSeconds == EventSeconds(g, now)
                        && r.value.scorerPlayerId == None && r.value.assistPlayerId == None
    ensures r.Some? && target == Field ==> r.value.playerInId == Some(playerId) && r.value.playerOutId == None
    ensures r.Some? && target == Bench ==> r.value.playerOutId == Some(playerId) && r.value.playerInId == None
  {
    if !IsGameActive(g) then None
    else if source == Bench && target == Field then
      Some(GameEvent(eventId, Substitution, UserSide(g), None, None, Some(playerId), None, now, EventSeconds(g, now)))
    else if source == Field && target == Bench then
      Some(GameEvent(eventId, Substitution, UserSide(g), None, None, None, Some(playerId), now, EventSeconds(g, now)))
    else None
  }

  function MoveEntry(p: LineupEntry, playerId: string, moved: LineupEntry): LineupEntry {
    if p.id == playerId then
      p.(location := moved.location, position := moved.position, playtimeSeconds := moved.playtimeSeconds,
         playtimerStartTime := moved.playtimerStartTime, subbedOnCount := moved.subbedOnCount,
         subbedOffCount := moved.subbedOffCount)
    else p
  }

  /** The mirror update of `movePlayerInGame`: every entry of the player
      takes the moved row's location, position, playtime, playtimer and
      counts (keeping its own starter flag and initial position), and the
      substitution event, if any, is appended. */
  function MoveInGame(g: Game, playerId: string, moved: LineupEntry, event: Option<GameEvent>): (r: Game)
    ensures r.(lineup := g.lineup, events := g.events) == g
    ensures r.events == g.events + (if event.Some? then [event.value] else [])
    ensures |r.lineup| == |g.lineup|
    ensures forall i :: 0 <= i < |g.lineup| && g.lineup[i].id != playerId ==> r.lineup[i] == g.lineup[i]
    ensures forall i :: 0 <= i < |g.lineup| && g.lineup[i].id == playerId ==>
              r.lineup[i] == moved.(id := g.lineup[i].id, isStarter := g.lineup[i].isStarter,
                                    initialPosition := g.lineup[i].initialPosition)
  {
    g.(lineup := MapEntries(g.lineup, p => MoveEntry(p, playerId, moved)),
       events := g.events + (if event.Some? then [event.value] else []))
  }

  // ---------------------------------------------------------------------
  // Events

  /** Goals of one side in an event list. */
  function GoalCount(events: seq<GameEvent>, side: Side): (r: nat)
    ensures r <= |events|
  {
    if |events| == 0 then 0
    else (if events[0].kind == Goal && events[0].team == side then 1 else 0) + GoalCount(events[1..], side)
  }

  lemma {:induction false} GoalCountAppend(a: seq<GameEvent>, b: seq<GameEvent>, side: Side)
    ensures GoalCount(a + b, side) == GoalCount(a, side) + GoalCount(b, side)
  {
    if |a| == 0 {
      assert a + b == b;
    } else {
      assert (a + b)[1..] == a[1..] + b;
      GoalCountAppend(a[1..], b, side);
    }
  }

  /** The stored scores agree with the goal events. */
  predicate ScoreInSync(g: Game) {
    g.homeScore == GoalCount(g.events, Home) && g.awayScore == GoalCount(g.events, Away)
  }

  /** The scores stored after adding an event of `kind` for `team` to the
      game that was found: a goal raises only its side's score by one. */
  function ScoresAfterAdd(g: Game, kind: EventKind, team: Side): (r: (int, int))
    ensures kind == Goal && team == Home ==> r == (g.homeScore + 1, g.awayScore)
    ensures kind == Goal && team == Away ==> r == (g.homeScore, g.awayScore + 1)
    ensures kind == Substitution ==> r == (g.homeScore, g.awayScore)
  {
    if kind == Goal then
      (if team == Home then g.homeScore + 1 else g.homeScore,
       if team == Away then g.awayScore + 1 else g.awayScore)
    else (g.homeScore, g.awayScore)
  }

  /** The mirror update of `addGameEvent`. */
  function AddEvent(g: Game, ev: GameEvent, scores: (int, int)): (r: Game)
    ensures r.events == g.events + [ev]
    ensures r.homeScore == scores.0 && r.awayScore == scores.1
    ensures r.(homeScore := g.homeScore, awayScore := g.awayScore, events := g.events) == g
  {
    g.(homeScore := scores.0, awayScore := scores.1, events := g.events + [ev])
  }

  /** Index of the event `removeLastGameEvent` deletes: among the events of
      `team` and `kind`, one with the latest wall-clock timestamp (the last
      such one in the list when several tie). */
  function LatestMatching(events: seq<GameEvent>, team: Side, kind: EventKind): (r: Option<nat>)
    ensures r.None? <==> forall k :: 0 <= k < |events| ==> !(events[k].team == team && events[k].kind == kind)
    ensures r.Some? ==> r.value < |events| && events[r.value].team == team && events[r.value].kind == kind
    ensures r.Some? ==> forall k :: 0 <= k < |events| && events[k].team == team && events[k].kind == kind ==>
                          events[k].timestamp <= events[r.value].timestamp
    ensures r.Some? ==> forall k :: r.value < k < |events| && events[k].team == team && events[k].kind == kind ==>
                          events[k].timestamp < events[r.value].timestamp
  {
    if |events| == 0 then None
    else
      var last := events[|events| - 1];
      var rest := LatestMatching(events[..|events| - 1], team, kind);
      if last.team == team && last.kind == kind then
        if rest.None? || events[rest.value].timestamp <= last.timestamp then Some(|events| - 1) else rest
      else rest
  }

  /** The scores stored after removing an event of `kind` for `team` from
      the game that was found: a goal lowers its side's score by one,
      floored at zero. */
  function ScoresAfterRemove(g: Game, kind: EventKind, team: Side): (r: (int, int))
    ensures kind == Goal && team == Home ==> r == (if g.homeScore >= 1 then g.homeScore - 1 else 0, g.awayScore)
    ensures kind == Goal && team == Away ==> r == (g.homeScore, if g.awayScore >= 1 then g.awayScore - 1 else 0)
    ensures kind == Substitution ==> r == (g.homeScore, g.awayScore)
  {
    if kind == Goal then
      (if team == Home then Max0(g.homeScore - 1) else g.homeScore,
       if team == Away then Max0(g.awayScore - 1) else g.awayScore)
    else (g.homeScore, g.awayScore)
  }

  /** `Math.max(0, x)`. */
  function Max0(x: int): (r: int)
    ensures r >= 0 && r >= x && (r == 0 || r == x)
  {
    if x > 0 then x else 0
  }

  /** `events.filter(ev => ev.id !== id)`. */
  function RemoveId(events: seq<GameEvent>, id: string): (r: seq<GameEvent>)
    ensures |r| <= |events|
    ensures forall k :: 0 <= k < |r| ==> r[k].id != id
    ensures forall e :: e in r <==> e in events && e.id != id
  {
    if |events| == 0 then []
    else if events[0].id == id then RemoveId(events[1..], id)
    else [events[0]] + RemoveId(events[1..], id)
  }

  lemma {:induction false} RemoveAbsentId(events: seq<GameEvent>, id: string)
    requires forall k :: 0 <= k < |events| ==> events[k].id != id
    ensures RemoveId(events, id) == events
  {
    if |events| > 0 {
      RemoveAbsentId(events[1..], id);
      assert events == [events[0]] + events[1..];
    }
  }

  lemma {:induction false} RemoveIdAppend(a: seq<GameEvent>, b: seq<GameEvent>, id: string)
    ensures RemoveId(a + b, id) == RemoveId(a, id) + RemoveId(b, id)
  {
    if |a| == 0 {
      assert a + b == b;
    } else {
      assert (a + b)[1..] == a[1..] + b;
      RemoveIdAppend(a[1..], b, id);
    }
  }

  /** With distinct ids, removing the id of the event at `i` removes exactly
      that event. */
  lemma RemoveIdAt(events: seq<GameEvent>, i: nat)
    requires DistinctEventIds(events) && i < |events|
    ensures RemoveId(events, events[i].id) == events[..i] + events[i + 1..]
  {
    IdUniqueAt(events, i);
    RemoveUniqueIdAt(events, i);
  }

  lemma RemoveUniqueIdAt(events: seq<GameEvent>, i: nat)
    requires i < |events|
    requires forall k :: 0 <= k < |events| && k != i ==> events[k].id != events[i].id
    ensures RemoveId(events, events[i].id) == events[..i] + events[i + 1..]
  {
    var id := events[i].id;
    RemoveIdAbsentAround(events, i);
    RemoveIdSkip(events, i);
    assert events == events[..i] + events[i..];
    RemoveIdAppend(events[..i], events[i..], id);
  }

  lemma RemoveIdAbsentAround(events: seq<GameEvent>, i: nat)
    requires i < |events|
    requires forall k :: 0 <= k < |events| && k != i ==> events[k].id != events[i].id
    ensures RemoveId(events[..i], events[i].id) == events[..i]
    ensures RemoveId(events[i + 1..], events[i].id) == events[i + 1..]
  {
    var id, pre, post := events[i].id, events[..i], events[i + 1..];
    forall k | 0 <= k < |pre| ensures pre[k].id != id {
      assert pre[k] == events[k];
    }
    RemoveAbsentId(pre, id);
    forall k | 0 <= k < |post| ensures post[k].id != id {
      assert post[k] == events[i + 1 + k];
    }
    RemoveAbsentId(post, id);
  }

  lemma RemoveIdSkip(events: seq<GameEvent>, i: nat)
    requires i < |events|
    ensures RemoveId(events[i..], events[i].id) == RemoveId(events[i + 1..], events[i].id)
  {
    assert events[i..][0] == events[i] && events[i..][1..] == events[i + 1..];
  }

  /** With distinct ids, no other event shares the id of the event at `i`. */
  lemma IdUniqueAt(events: seq<GameEvent>, i: nat)
    requires DistinctEventIds(events) && i < |events|
    ensures forall k :: 0 <= k < |events| && k != i ==> events[k].id != events[i].id
  {
  }

  /** The goals of `side` are those before `i`, the one at `i`, and those after. */
  lemma GoalCountAt(events: seq<GameEvent>, i: nat, side: Side)
    requires i < |events|
    ensures GoalCount(events, side) == GoalCount(events[..i], side)
              + (if events[i].kind == Goal && events[i].team == side then 1 else 0)
              + GoalCount(events[i + 1..], side)
  {
    var pre, e, post := events[..i], events[i], events[i + 1..];
    assert events == (pre + [e]) + post;
    GoalCountAppend(pre + [e], post, side);
    GoalCountAppend(pre, [e], side);
    assert GoalCount([e], side) == (if e.kind == Goal && e.team == side then 1 else 0) + GoalCount([], side);
  }

  /** With distinct ids, removing the id of a goal of `side` removes exactly
      one goal of that side. */
  lemma RemoveIdGoalCount(events: seq<GameEvent>, i: nat, side: Side)
    requires DistinctEventIds(events) && i < |events|
    ensures GoalCount(RemoveId(events, events[i].id), side) ==
              GoalCount(events, side) - (if events[i].kind == Goal && events[i].team == side then 1 else 0)
  {
    RemoveIdAt(events, i);
    GoalCountAt(events, i, side);
    GoalCountAppend(events[..i], events[i + 1..], side);
  }

  /** The mirror update of `removeLastGameEvent`. */
  function RemoveEvent(g: Game, eventId: string, scores: (int, int)): (r: Game)
    ensures r.events == RemoveId(g.events, eventId)
    ensures r.homeScore == scores.0 && r.awayScore == scores.1
    ensures r.(homeScore := g.homeScore, awayScore := g.awayScore, events := g.events) == g
  {
    g.(homeScore := scores.0, awayScore := scores.1, events := RemoveId(g.events, eventId))
  }

  // ---------------------------------------------------------------------
  // Invariants the operations keep

  lemma StartKeepsClockConsistent(g: Game, now: int)
    requires ClockConsistent(g) && now != 0
    ensures ClockConsistent(StartGame(g, now))
  {
    var r := StartGame(g, now);
    forall i | 0 <= i < |r.lineup| ensures EntryClockConsistent(r.lineup[i], r.timerStatus) {
      assert EntryClockConsistent(g.lineup[i], g.timerStatus);
    }
  }

  lemma StopKeepsClockConsistent(g: Game, now: int, newElapsed: int)
    requires ClockConsistent(g)
    ensures ClockConsistent(StopGame(g, now, newElapsed))
  {
    var r := StopGame(g, now, newElapsed);
    forall i | 0 <= i < |r.lineup| ensures EntryClockConsistent(r.lineup[i], r.timerStatus) {
      assert EntryClockConsistent(g.lineup[i], g.timerStatus);
    }
  }

  lemma FinishMakesClockConsistent(g: Game, finalElapsed: int)
    ensures ClockConsistent(FinishGame(g, finalElapsed))
  {
  }

  lemma ResetMakesClockConsistent(g: Game, players: seq<Player>)
    ensures ClockConsistent(ResetGame(g, CreateDefaultLineup(players)))
  {
  }

  /** A move keeps the invariant, whatever source location the caller
      declares. */
  lemma MoveKeepsClockConsistent(g: Game, playerId: string, source: Location, target: Location,
                                 newPosition: Option<Pos>, now: int, eventId: string)
    requires ClockConsistent(g) && now != 0
    requires FindEntry(g.lineup, playerId).Some?
    ensures var row := g.lineup[FindEntry(g.lineup, playerId).value];
            ClockConsistent(MoveInGame(g, playerId, MovedEntry(g, row, source, target, newPosition, now),
                                       SubstitutionEvent(g, playerId, source, target, now, eventId)))
  {
    var row := g.lineup[FindEntry(g.lineup, playerId).value];
    assert EntryClockConsistent(row, g.timerStatus);
    var moved := MovedEntry(g, row, source, target, newPosition, now);
    assert EntryClockConsistent(moved, g.timerStatus);
    var r := MoveInGame(g, playerId, moved, SubstitutionEvent(g, playerId, source, target, now, eventId));
    forall i | 0 <= i < |r.lineup| ensures EntryClockConsistent(r.lineup[i], r.timerStatus) {
      assert EntryClockConsistent(g.lineup[i], g.timerStatus);
    }
  }

  /** Adding an event keeps the stored score in step with the goals. */
  lemma AddEventKeepsScoreInSync(g: Game, ev: GameEvent)
    requires ScoreInSync(g)
    ensures ScoreInSync(AddEvent(g, ev, ScoresAfterAdd(g, ev.kind, ev.team)))
  {
    GoalCountAppend(g.events, [ev], Home);
    GoalCountAppend(g.events, [ev], Away);
  }

  /** Removing the event the backend returns keeps the stored score in step
      with the goals when that event is memory's latest matching one and
      event ids are distinct. */
  lemma RemoveEventKeepsScoreInSync(g: Game, team: Side, kind: EventKind, fetched: string)
    requires ScoreInSync(g) && DistinctEventIds(g.events)
    requires LatestMatching(g.events, team, kind).Some?
    requires g.events[LatestMatching(g.events, team, kind).value].id == fetched
    ensures ScoreInSync(RemoveEvent(g, fetched, ScoresAfterRemove(g, kind, team)))
  {
    var i := LatestMatching(g.events, team, kind).value;
    RemoveIdGoalCount(g.events, i, Home);
    RemoveIdGoalCount(g.events, i, Away);
  }

  /** When the backend returns a goal that memory does not hold, the events
      stay as they are while the score drops, so score and goals part. */
  lemma RemoveUnmirroredGoalBreaksSync(g: Game, team: Side, fetched: string)
    requires ScoreInSync(g)
    requires fetched !in EventIds(g.events)
    requires GoalCount(g.events, team) > 0
    ensures !ScoreInSync(RemoveEvent(g, fetched, ScoresAfterRemove(g, Goal, team)))
  {
    RemoveAbsentId(g.events, fetched);
  }

  /** A move leaves the starter flags of every entry as they were. */
  lemma MoveKeepsStarterFlags(g: Game, playerId: string, moved: LineupEntry, event: Option<GameEvent>)
    ensures var r := MoveInGame(g, playerId, moved, event);
            forall i :: 0 <= i < |g.lineup| ==>
              r.lineup[i].isStarter == g.lineup[i].isStarter
              && r.lineup[i].initialPosition == g.lineup[i].initialPosition
  {
  }

  /** Adding a goal with a fresh id and a timestamp no earlier than any
      goal of its side, then removing that side's last goal, gives back the
      events and scores (for a non-negative score). */
  lemma {:induction false} AddThenRemoveGoal(g: Game, ev: GameEvent)
    requires ev.kind == Goal && g.homeScore >= 0 && g.awayScore >= 0
    requires ev.id !in EventIds(g.events)
    requires forall k :: 0 <= k < |g.events| && g.events[k].team == ev.team && g.events[k].kind == Goal ==>
               g.events[k].timestamp <= ev.timestamp
    ensures var a := AddEvent(g, ev, ScoresAfterAdd(g, ev.kind, ev.team));
            var i := LatestMatching(a.events, ev.team, Goal);
            && i == Some(|g.events|)
            && RemoveEvent(a, a.events[i.value].id, ScoresAfterRemove(a, Goal, ev.team)) == g
  {
    var a := AddEvent(g, ev, ScoresAfterAdd(g, ev.kind, ev.team));
    assert a.events[..|a.events| - 1] == g.events;
    RemoveIdAppend(g.events, [ev], ev.id);
    RemoveAbsentId(g.events, ev.id);
    assert RemoveId([ev], ev.id) == [];
    assert RemoveId(a.events, ev.id) == g.events;
  }

  // ---------------------------------------------------------------------
  // Playtime and elapsed time across start/stop

  /** A start at `t0` followed by a stop at `t1` credits the interval,
      rounded to seconds, to the game clock and to every field player, and
      leaves every other player's playtime alone. */
  lemma StartStopCredit(g: Game, t0: int, t1: int)
    requires ClockConsistent(g) && g.timerStatus == Stopped && t0 != 0
    ensures var s := StartGame(g, t0);
            var e := StopGame(s, t1, StoppedElapsed(s, t1));
            && e.timerElapsedSeconds == g.timerElapsedSeconds + RoundSeconds(t1 - t0)
            && ClockConsistent(e)
            && |e.lineup| == |g.lineup|
            && (forall i :: 0 <= i < |g.lineup| && g.lineup[i].location == Field ==>
                  e.lineup[i].playtimeSeconds == g.lineup[i].playtimeSeconds + RoundSeconds(t1 - t0))
            && (forall i :: 0 <= i < |g.lineup| && g.lineup[i].location != Field ==>
                  e.lineup[i].playtimeSeconds == g.lineup[i].playtimeSeconds)
  {
    var s := StartGame(g, t0);
    StartKeepsClockConsistent(g, t0);
    StopKeepsClockConsistent(s, t1, StoppedElapsed(s, t1));
    forall i | 0 <= i < |g.lineup| && g.lineup[i].location != Field
      ensures !StopFolds(s.lineup[i])
    {
      assert EntryClockConsistent(g.lineup[i], g.timerStatus);
    }
  }

  /** The clock scenario of a fresh game: start at `t0` with player `i` on
      the field, move the player to the bench 30 s later, stop 90 s after
      the start. The player has 30 s of playtime, no running playtimer, is a
      starter, and the game clock shows 90 s. */
  lemma {:induction false} FirstHalfScenario(g: Game, i: nat, t0: int, eventId: string)
    requires ClockConsistent(g) && IsNotStarted(g) && t0 > 0
    requires i < |g.lineup| && g.lineup[i].location == Field && g.lineup[i].playtimeSeconds == 0
    requires forall k :: 0 <= k < |g.lineup| && k != i ==> g.lineup[k].id != g.lineup[i].id
    ensures var p := g.lineup[i].id;
            var s := StartGame(g, t0);
            var row := s.lineup[FindEntry(s.lineup, p).value];
            var m := MoveInGame(s, p, MovedEntry(s, row, Field, Bench, None, t0 + 30000),
                                SubstitutionEvent(s, p, Field, Bench, t0 + 30000, eventId));
            var e := StopGame(m, t0 + 90000, StoppedElapsed(m, t0 + 90000));
            && e.lineup[i].playtimeSeconds == 30
            && e.lineup[i].playtimerStartTime == None
            && e.lineup[i].isStarter
            && e.lineup[i].location == Bench
            && e.timerElapsedSeconds == 90
            && e.timerStatus == Stopped && e.timerStartTime == None
  {
    var p := g.lineup[i].id;
    var s := StartGame(g, t0);
    assert FindEntry(s.lineup, p) == Some(i);
    var row := s.lineup[i];
    assert row.playtimerStartTime == Some(t0);
    var moved := MovedEntry(s, row, Field, Bench, None, t0 + 30000);
    assert moved.playtimeSeconds == 30 && moved.playtimerStartTime == None;
    var m := MoveInGame(s, p, moved, SubstitutionEvent(s, p, Field, Bench, t0 + 30000, eventId));
    assert m.lineup[i].playtimeSeconds == 30 && m.lineup[i].isStarter;
    assert !StopFolds(m.lineup[i]);
  }

  /** The reset scenario: a game reset against a roster gets one
      bench-default entry per player, no events, a zeroed clock and a 0-0
      score, however it was before. */
  lemma ResetScenario(g: Game, players: seq<Player>)
    ensures var r := ResetGame(g, CreateDefaultLineup(players));
            && |r.lineup| == |players| && r.events == []
            && (forall k :: 0 <= k < |players| ==>
                  && r.lineup[k].id == players[k].id && r.lineup[k].location == Bench
                  && !r.lineup[k].isStarter && r.lineup[k].playtimeSeconds == 0
                  && r.lineup[k].subbedOnCount == 0 && r.lineup[k].subbedOffCount == 0)
            && r.timerElapsedSeconds == 0 && r.homeScore == 0 && r.awayScore == 0
            && !r.isExplicitlyFinished
  {
  }

  /** The goal-removal scenario: with two home goals, the later-stamped one
      is removed and the home score drops by one. */
  lemma {:induction false} RemoveLaterGoalScenario(g: Game, e1: GameEvent, e2: GameEvent)
    requires g.events == [e1, e2] && e1.id != e2.id
    requires e1.kind == Goal && e2.kind == Goal && e1.team == Home && e2.team == Home
    requires e1.timestamp < e2.timestamp && g.homeScore == 2
    ensures LatestMatching(g.events, Home, Goal) == Some(1)
    ensures var r := RemoveEvent(g, e2.id, ScoresAfterRemove(g, Goal, Home));
            r.events == [e1] && r.homeScore == 1 && r.awayScore == g.awayScore
  {
    assert g.events[..1] == [e1];
    assert RemoveId([e2], e2.id) == [];
    assert g.events == [e1] + [e2];
    RemoveIdAppend([e1], [e2], e2.id);
    assert RemoveId([e1], e2.id) == [e1];
  }
}
