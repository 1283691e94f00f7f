/** The entities of the team-tracking application and the arithmetic and
    status rules that every other module shares. Identifiers are opaque
    strings, instants are integer milliseconds, dates are abstract ordered
    integers, and field positions are abstract coordinates (only equality of
    positions matters to the logic). */
module Domain {

  datatype Option<T> = None | Some(value: T)

  /** Where a player stands: the roster knows bench and field, a game's
      lineup also knows inactive. */
  datatype Location = Field | Bench | Inactive

  /** A side of the match; also the user's team's home/away flag. */
  datatype Side = Home | Away

  datatype EventKind = Goal | Substitution

  datatype TimerStatus = Running | Stopped

  /** A field coordinate (percentages of the field bounds in the app). */
  datatype Pos = Pos(x: int, y: int)

  datatype Player = Player(
    id: string,
    firstName: string,
    lastName: string,
    number: string,
    location: Location,
    position: Option<Pos>)

  /** One player's state in one game. */
  datatype LineupEntry = LineupEntry(
    id: string,
    location: Location,
    position: Option<Pos>,
    initialPosition: Option<Pos>,
    playtimeSeconds: int,
    playtimerStartTime: Option<int>,
    isStarter: bool,
    subbedOnCount: int,
    subbedOffCount: int)

  datatype GameEvent = GameEvent(
    id: string,
    kind: EventKind,
    team: Side,
    scorerPlayerId: Option<string>,
    assistPlayerId: Option<string>,
    playerInId: Option<string>,
    playerOutId: Option<string>,
    timestamp: int,
    gameSeconds: int)

  /** A game as the in-memory mirror holds it. `time` is None when the game
      has no kick-off time; `season` and `competition` are "" when unset;
      a null lineup is the empty sequence. */
  datatype Game = Game(
    id: string,
    opponent: string,
    date: int,
    time: Option<int>,
    location: Side,
    season: string,
    competition: string,
    homeScore: int,
    awayScore: int,
    timerStatus: TimerStatus,
    timerStartTime: Option<int>,
    timerElapsedSeconds: int,
    isExplicitlyFinished: bool,
    lineup: seq<LineupEntry>,
    events: seq<GameEvent>)

  /** One player's slot in a saved (game-independent) lineup. */
  datatype LineupSlot = LineupSlot(id: string, location: Location, position: Option<Pos>)

  datatype SavedLineup = SavedLineup(id: string, name: string, players: seq<LineupSlot>)

  /** `Math.round(ms / 1000)`: seconds rounded half up, for every integer
      `ms` (Dafny's division by a positive constant rounds down). */
  function RoundSeconds(ms: int): (r: int)
    ensures 1000 * r <= ms + 500 < 1000 * r + 1000
    ensures ms >= 0 ==> r >= 0
  {
    (ms + 500) / 1000
  }

  lemma RoundSecondsMonotone(a: int, b: int)
    requires a <= b
    ensures RoundSeconds(a) <= RoundSeconds(b)
  {
  }

  /** Kick-off instant: the date at midnight plus the time of day, or
      midnight when the game has no time. */
  function DateTime(g: Game): int {
    g.date + (if g.time.Some? then g.time.value else 0)
  }

  /** The user's side for a game (the game's home/away flag). */
  function UserSide(g: Game): Side {
    g.location
  }

  // Clock status of a game, as the game page and the schedule derive it.

  predicate IsRunning(g: Game) {
    g.timerStatus == Running
  }

  predicate IsPaused(g: Game) {
    g.timerStatus == Stopped && g.timerElapsedSeconds > 0 && !g.isExplicitlyFinished
  }

  predicate IsNotStarted(g: Game) {
    g.timerStatus == Stopped && g.timerElapsedSeconds == 0 && !g.isExplicitlyFinished
  }

  /** At most one of running / paused / not-started holds. */
  lemma ClockStatusExclusive(g: Game)
    ensures !(IsRunning(g) && IsPaused(g))
    ensures !(IsRunning(g) && IsNotStarted(g))
    ensures !(IsPaused(g) && IsNotStarted(g))
  {
  }

  /** A stopped, unfinished game with non-negative elapsed time is exactly
      one of paused or not started. */
  lemma ClockStatusCovers(g: Game)
    requires g.timerStatus == Stopped && !g.isExplicitlyFinished && g.timerElapsedSeconds >= 0
    ensures IsPaused(g) || IsNotStarted(g)
  {
  }

  /** Index of the first game with id `id` (Array.prototype.find). */
  function FindGame(games: seq<Game>, id: string): (r: Option<nat>)
    ensures r.Some? ==> r.value < |games| && games[r.value].id == id
    ensures r.Some? ==> forall k :: 0 <= k < r.value ==> games[k].id != id
    ensures r.None? ==> forall k :: 0 <= k < |games| ==> games[k].id != id
  {
    if |games| == 0 then None
    else if games[0].id == id then Some(0)
    else match FindGame(games[1..], id)
      case None => None
      case Some(k) => Some(k + 1)
  }

  /** Index of the first lineup entry for player `id`. */
  function FindEntry(lineup: seq<LineupEntry>, id: string): (r: Option<nat>)
    ensures r.Some? ==> r.value < |lineup| && lineup[r.value].id == id
    ensures r.Some? ==> forall k :: 0 <= k < r.value ==> lineup[k].id != id
    ensures r.None? ==> forall k :: 0 <= k < |lineup| ==> lineup[k].id != id
  {
    if |lineup| == 0 then None
    else if lineup[0].id == id then Some(0)
    else match FindEntry(lineup[1..], id)
      case None => None
      case Some(k) => Some(k + 1)
  }

  /** Index of the first roster player with id `id`. */
  function FindPlayer(players: seq<Player>, id: string): (r: Option<nat>)
    ensures r.Some? ==> r.value < |players| && players[r.value].id == id
    ensures r.Some? ==> forall k :: 0 <= k < r.value ==> players[k].id != id
    ensures r.None? ==> forall k :: 0 <= k < |players| ==> players[k].id != id
  {
    if |players| == 0 then None
    else if players[0].id == id then Some(0)
    else match FindPlayer(players[1..], id)
      case None => None
      case Some(k) => Some(k + 1)
  }

  function RosterIds(players: seq<Player>): (r: set<string>)
    ensures forall id :: id in r <==> exists k :: 0 <= k < |players| && players[k].id == id
  {
    set k | 0 <= k < |players| :: players[k].id
  }

  /** The ids of a roster prefix extended by one player. */
  lemma RosterIdsSnoc(players: seq<Player>, i: nat)
    requires i < |players|
    ensures RosterIds(players[..i + 1]) == RosterIds(players[..i]) + {players[i].id}
  {
    assert forall k :: 0 <= k < i ==> players[..i + 1][k] == players[..i][k];
  }

  function LineupIds(lineup: seq<LineupEntry>): (r: set<string>)
    ensures forall id :: id in r <==> exists k :: 0 <= k < |lineup| && lineup[k].id == id
  {
    set k | 0 <= k < |lineup| :: lineup[k].id
  }

  lemma LineupIdsAppend(a: seq<LineupEntry>, b: seq<LineupEntry>)
    ensures LineupIds(a + b) == LineupIds(a) + LineupIds(b)
  {
    forall id | id in LineupIds(b) ensures id in LineupIds(a + b) {
      var j :| 0 <= j < |b| && b[j].id == id;
      assert (a + b)[|a| + j] == b[j];
    }
    forall id | id in LineupIds(a) ensures id in LineupIds(a + b) {
      var j :| 0 <= j < |a| && a[j].id == id;
      assert (a + b)[j] == a[j];
    }
  }

  function EventIds(events: seq<GameEvent>): (r: set<string>)
    ensures forall id :: id in r <==> exists k :: 0 <= k < |events| && events[k].id == id
  {
    set k | 0 <= k < |events| :: events[k].id
  }

  /** No two events of a game share an id (ids are database keys). */
  predicate DistinctEventIds(events: seq<GameEvent>) {
    forall i, j :: 0 <= i < j < |events| ==> events[i].id != events[j].id
  }

  /** `s.filter(keep)`: the elements kept, in their order. */
  function Filter<T(!new)>(s: seq<T>, keep: T -> bool): (r: seq<T>)
    ensures |r| <= |s|
    ensures forall x :: x in r <==> x in s && keep(x)
    ensures forall k :: 0 <= k < |r| ==> keep(r[k])
  {
    if |s| == 0 then []
    else if keep(s[0]) then [s[0]] + Filter(s[1..], keep)
    else Filter(s[1..], keep)
  }

  /** Filtering keeps each kept element as often as it occurs, and drops
      every other element. */
  lemma {:induction false} FilterMultiset<T(!new)>(s: seq<T>, keep: T -> bool)
    ensures forall x :: multiset(Filter(s, keep))[x] == if keep(x) then multiset(s)[x] else 0
  {
    if |s| > 0 {
      FilterMultiset(s[1..], keep);
      assert s == [s[0]] + s[1..];
    }
  }

  /** Filtering keeps everything when everything is kept. */
  lemma {:induction false} FilterAll<T(!new)>(s: seq<T>, keep: T -> bool)
    requires forall k :: 0 <= k < |s| ==> keep(s[k])
    ensures Filter(s, keep) == s
  {
    if |s| > 0 {
      FilterAll(s[1..], keep);
      assert s == [s[0]] + s[1..];
    }
  }

  lemma {:induction false} FilterAppend<T(!new)>(a: seq<T>, b: seq<T>, keep: T -> bool)
    ensures Filter(a + b, keep) == Filter(a, keep) + Filter(b, keep)
  {
    if |a| == 0 {
      assert a + b == b;
    } else {
      assert (a + b)[1..] == a[1..] + b;
      FilterAppend(a[1..], b, keep);
    }
  }
  /** Filtering keeps nothing when nothing is kept. */
  lemma {:induction false} FilterNone<T(!new)>(s: seq<T>, keep: T -> bool)
    requires forall k :: 0 <= k < |s| ==> !keep(s[k])
    ensures Filter(s, keep) == []
  {
    if |s| > 0 {
      FilterNone(s[1..], keep);
    }
  }

  /** Filtering a sequence extended by one element. */
  lemma FilterSnoc<T(!new)>(s: seq<T>, x: T, keep: T -> bool)
    ensures Filter(s + [x], keep) == Filter(s, keep) + (if keep(x) then [x] else [])
  {
    FilterAppend(s, [x], keep);
  }
}
