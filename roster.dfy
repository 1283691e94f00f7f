/** The roster, game-list and saved-lineup updates of the team store, as
    pure functions of the lists they replace. The roster is kept sorted by
    first name, the game list newest first, the saved lineups by name. */
module Roster {
  import opened Domain
  import opened Sorting
  import opened Clock

  /** `a.firstName.localeCompare(b.firstName) < 0`. */
  predicate PlayerBefore(a: Player, b: Player) {
    StrLt(a.firstName, b.firstName)
  }

  /** `new Date(b.date) - new Date(a.date) < 0`: `a` is the newer game. */
  predicate NewerGame(a: Game, b: Game) {
    a.date > b.date
  }

  /** `a.name.localeCompare(b.name) < 0`. */
  predicate LineupNameBefore(a: SavedLineup, b: SavedLineup) {
    StrLt(a.name, b.name)
  }

  lemma PlayerBeforeStrict()
    ensures StrictOrder(PlayerBefore)
  {
    StrLtStrictOrder();
  }

  lemma LineupNameBeforeStrict()
    ensures StrictOrder(LineupNameBefore)
  {
    StrLtStrictOrder();
  }

  /** The roster sorted by first name (ties keep their order). */
  function SortRoster(players: seq<Player>): (r: seq<Player>)
    ensures SortedBy(r, PlayerBefore)
    ensures multiset(r) == multiset(players)
  {
    PlayerBeforeStrict();
    SortBySorted(players, PlayerBefore);
    SortBy(players, PlayerBefore)
  }

  /** The game list sorted newest first (ties keep their order). */
  function SortGames(games: seq<Game>): (r: seq<Game>)
    ensures SortedBy(r, NewerGame)
    ensures multiset(r) == multiset(games)
  {
    SortBySorted(games, NewerGame);
    SortBy(games, NewerGame)
  }

  /** Two sequences with the same multiset carry the same player ids. */
  lemma SameRosterIds(a: seq<Player>, b: seq<Player>)
    requires multiset(a) == multiset(b)
    ensures RosterIds(a) == RosterIds(b)
  {
    forall id | id in RosterIds(a) ensures id in RosterIds(b) {
      var k :| 0 <= k < |a| && a[k].id == id;
      assert a[k] in multiset(b);
    }
    forall id | id in RosterIds(b) ensures id in RosterIds(a) {
      var k :| 0 <= k < |b| && b[k].id == id;
      assert b[k] in multiset(a);
    }
  }

  // ---------------------------------------------------------------------
  // Players

  /** A new roster player: on the bench, without a position. */
  function NewPlayer(id: string, firstName: string, lastName: string, number: string): Player {
    Player(id, firstName, lastName, number, Bench, None)
  }

  /** The roster after `addPlayer`: the new player joins, sorted. */
  function RosterAfterAdd(players: seq<Player>, p: Player): (r: seq<Player>)
    ensures SortedBy(r, PlayerBefore)
    ensures multiset(r) == multiset(players) + multiset{p}
    ensures RosterIds(r) == RosterIds(players) + {p.id}
  {
    var r := SortRoster(players + [p]);
    SameRosterIds(r, players + [p]);
    assert RosterIds(players + [p]) == RosterIds(players) + {p.id} by {
      assert forall k :: 0 <= k < |players| ==> (players + [p])[k] == players[k];
      assert (players + [p])[|players|] == p;
    }
    r
  }

  /** The fields `updatePlayer` may change. The position is doubly
      optional: `Some(None)` is a key present with an undefined value, which
      the spread in the mirror update copies over the old position. */
  datatype PlayerUpdate = PlayerUpdate(
    firstName: Option<string>,
    lastName: Option<string>,
    number: Option<string>,
    location: Option<Location>,
    position: Option<Option<Pos>>)

  /** The updated value of a field: the update's when it has one. */
  function OrElse<T>(update: Option<T>, current: T): (r: T)
    ensures update.None? ==> r == current
    ensures update.Some? ==> r == update.value
  {
    if update.Some? then update.value else current
  }

  /** `{ ...p, ...updates }`. */
  function ApplyPlayerUpdate(p: Player, u: PlayerUpdate): (r: Player)
    ensures r.id == p.id
    ensures u == PlayerUpdate(None, None, None, None, None) ==> r == p
  {
    Player(p.id, OrElse(u.firstName, p.firstName), OrElse(u.lastName, p.lastName),
           OrElse(u.number, p.number), OrElse(u.location, p.location), OrElse(u.position, p.position))
  }

  /** `players.map(p => p.id === id ? { ...p, ...updates } : p)`. */
  function MapRoster(players: seq<Player>, id: string, u: PlayerUpdate): (r: seq<Player>)
    ensures |r| == |players|
    ensures forall k :: 0 <= k < |players| && players[k].id == id ==> r[k] == ApplyPlayerUpdate(players[k], u)
    ensures forall k :: 0 <= k < |players| && players[k].id != id ==> r[k] == players[k]
  {
    if |players| == 0 then []
    else [if players[0].id == id then ApplyPlayerUpdate(players[0], u) else players[0]]
         + MapRoster(players[1..], id, u)
  }

  /** The roster after `updatePlayer`: the player with that id is updated,
      everyone else kept, the ids unchanged, the result sorted. */
  function RosterAfterUpdate(players: seq<Player>, id: string, u: PlayerUpdate): (r: seq<Player>)
    ensures SortedBy(r, PlayerBefore)
    ensures |r| == |players|
    ensures multiset(r) == multiset(MapRoster(players, id, u))
    ensures RosterIds(r) == RosterIds(players)
    ensures forall q :: q in r && q.id != id ==> q in players
  {
    var m := MapRoster(players, id, u);
    var r := SortRoster(m);
    SameRosterIds(r, m);
    assert RosterIds(m) == RosterIds(players) by {
      assert forall k :: 0 <= k < |players| ==> m[k].id == players[k].id;
    }
    assert |r| == |m| by {
      assert |multiset(r)| == |multiset(m)|;
    }
    forall q | q in r && q.id != id ensures q in players {
      assert q in multiset(m);
      var k :| 0 <= k < |m| && m[k] == q;
      assert players[k] == q;
    }
    r
  }

  /** The roster after `deletePlayer`. */
  function RosterAfterDelete(players: seq<Player>, id: string): (r: seq<Player>)
    ensures forall q :: q in r <==> q in players && q.id != id
    ensures RosterIds(r) == RosterIds(players) - {id}
    ensures forall q :: multiset(r)[q] == if q.id != id then multiset(players)[q] else 0
  {
    var r := Filter(players, (p: Player) => p.id != id);
    FilterMultiset(players, (p: Player) => p.id != id);
    assert RosterIds(r) == RosterIds(players) - {id} by {
      forall x | x in RosterIds(players) - {id} ensures x in RosterIds(r) {
        var k :| 0 <= k < |players| && players[k].id == x;
        assert players[k] in r;
      }
    }
    r
  }

  /** Every saved lineup after `deletePlayer`: the player's slots are gone,
      the lineups themselves (ids, names, order) stay. */
  function LineupsAfterDeletePlayer(lineups: seq<SavedLineup>, id: string): (r: seq<SavedLineup>)
    ensures |r| == |lineups|
    ensures forall k :: 0 <= k < |r| ==>
              && r[k].id == lineups[k].id && r[k].name == lineups[k].name
              && (forall s :: s in r[k].players <==> s in lineups[k].players && s.id != id)
  {
    if |lineups| == 0 then []
    else [lineups[0].(players := Filter(lineups[0].players, (s: LineupSlot) => s.id != id))]
         + LineupsAfterDeletePlayer(lineups[1..], id)
  }

  /** The roster after `resetLineup`: everyone on the bench without a
      position, in the same order. */
  function RosterAfterReset(players: seq<Player>): (r: seq<Player>)
    ensures |r| == |players|
    ensures forall k :: 0 <= k < |r| ==>
              r[k].location == Bench && r[k].position == None
              && r[k].(location := players[k].location, position := players[k].position) == players[k]
  {
    if |players| == 0 then []
    else [players[0].(location := Bench, position := None)] + RosterAfterReset(players[1..])
  }

  // ---------------------------------------------------------------------
  // Saved lineups

  /** The roster's current slots, saved by `saveLineup`. */
  function SlotsOf(players: seq<Player>): (r: seq<LineupSlot>)
    ensures |r| == |players|
    ensures forall k :: 0 <= k < |r| ==>
              r[k] == LineupSlot(players[k].id, players[k].location, players[k].position)
  {
    if |players| == 0 then []
    else [LineupSlot(players[0].id, players[0].location, players[0].position)] + SlotsOf(players[1..])
  }

  /** The saved lineups after `saveLineup` stored `saved`: the lineup of
      that name is replaced (or added), every other one kept, sorted by
      name. */
  function LineupsAfterSave(lineups: seq<SavedLineup>, saved: SavedLineup): (r: seq<SavedLineup>)
    ensures SortedBy(r, LineupNameBefore)
    ensures saved in r
    ensures forall l :: l in r <==> l == saved || (l in lineups && l.name != saved.name)
    ensures forall l :: l in r && l.name == saved.name ==> l == saved
  {
    var kept := Filter(lineups, (l: SavedLineup) => l.name != saved.name);
    LineupNameBeforeStrict();
    SortBySorted(kept + [saved], LineupNameBefore);
    var r := SortBy(kept + [saved], LineupNameBefore);
    assert forall l :: l in r <==> l in kept + [saved] by {
      forall l ensures l in r <==> l in kept + [saved] {
        assert l in r <==> l in multiset(r);
        assert l in kept + [saved] <==> l in multiset(kept + [saved]);
      }
    }
    r
  }

  /** Index of the first saved lineup with id `id`. */
  function FindLineup(lineups: seq<SavedLineup>, id: string): (r: Option<nat>)
    ensures r.Some? ==> r.value < |lineups| && lineups[r.value].id == id
    ensures r.Some? ==> forall k :: 0 <= k < r.value ==> lineups[k].id != id
    ensures r.None? ==> forall k :: 0 <= k < |lineups| ==> lineups[k].id != id
  {
    if |lineups| == 0 then None
    else if lineups[0].id == id then Some(0)
    else match FindLineup(lineups[1..], id)
      case None => None
      case Some(k) => Some(k + 1)
  }

  /** The slot a saved lineup holds for a player: the last one with that id
      (a `Map` built from the slots keeps the last duplicate). */
  function SlotFor(slots: seq<LineupSlot>, id: string): (r: Option<LineupSlot>)
    ensures r.None? <==> forall k :: 0 <= k < |slots| ==> slots[k].id != id
    ensures r.Some? ==> exists k :: 0 <= k < |slots| && slots[k] == r.value && r.value.id == id
                                   && forall j :: k < j < |slots| ==> slots[j].id != id
  {
    if |slots| == 0 then None
    else if slots[|slots| - 1].id == id then Some(slots[|slots| - 1])
    else SlotFor(slots[..|slots| - 1], id)
  }

  /** A player after `loadLineup`: the saved slot's location and position,
      or the bench without a position when the lineup has no slot for them. */
  function LoadedPlayer(p: Player, slots: seq<LineupSlot>): (r: Player)
    ensures r.(location := p.location, position := p.position) == p
    ensures SlotFor(slots, p.id).Some? ==>
              r.location == SlotFor(slots, p.id).value.location && r.position == SlotFor(slots, p.id).value.position
    ensures SlotFor(slots, p.id).None? ==> r.location == Bench && r.position == None
  {
    match SlotFor(slots, p.id)
    case Some(s) => p.(location := s.location, position := s.position)
    case None => p.(location := Bench, position := None)
  }

  function MapLoaded(players: seq<Player>, slots: seq<LineupSlot>): (r: seq<Player>)
    ensures |r| == |players|
    ensures forall k :: 0 <= k < |players| ==> r[k] == LoadedPlayer(players[k], slots)
  {
    if |players| == 0 then [] else [LoadedPlayer(players[0], slots)] + MapLoaded(players[1..], slots)
  }

  /** The roster after `loadLineup`: every player loaded, sorted. */
  function RosterAfterLoad(players: seq<Player>, slots: seq<LineupSlot>): (r: seq<Player>)
    ensures SortedBy(r, PlayerBefore)
    ensures multiset(r) == multiset(MapLoaded(players, slots))
    ensures RosterIds(r) == RosterIds(players)
  {
    var m := MapLoaded(players, slots);
    var r := SortRoster(m);
    SameRosterIds(r, m);
    assert RosterIds(m) == RosterIds(players) by {
      assert forall k :: 0 <= k < |players| ==> m[k].id == players[k].id;
    }
    r
  }

  /** A slot whose id no other slot has is the one found for that id. */
  lemma SlotForUnique(slots: seq<LineupSlot>, k: nat)
    requires k < |slots|
    requires forall j :: 0 <= j < |slots| && j != k ==> slots[j].id != slots[k].id
    ensures SlotFor(slots, slots[k].id) == Some(slots[k])
  {
  }

  /** Loading a lineup just saved from a roster gives every player back
      their location and position. */
  lemma LoadAfterSave(players: seq<Player>)
    requires forall i, j :: 0 <= i < j < |players| ==> players[i].id != players[j].id
    ensures multiset(RosterAfterLoad(players, SlotsOf(players))) == multiset(players)
  {
    var slots := SlotsOf(players);
    var m := MapLoaded(players, slots);
    forall k | 0 <= k < |players| ensures m[k] == players[k] {
      assert slots[k].id == players[k].id;
      SlotForUnique(slots, k);
    }
    assert m == players;
  }

  /** The saved lineups after `deleteLineup`: exactly the lineups with
      another id remain, each as often as before and in the same order,
      so a list sorted by name stays sorted. */
  function LineupsAfterDelete(lineups: seq<SavedLineup>, id: string): (r: seq<SavedLineup>)
    ensures forall l :: l in r <==> l in lineups && l.id != id
    ensures forall l :: multiset(r)[l] == if l.id != id then multiset(lineups)[l] else 0
    ensures SortedBy(lineups, LineupNameBefore) ==> SortedBy(r, LineupNameBefore)
  {
    var keep := (l: SavedLineup) => l.id != id;
    FilterMultiset(lineups, keep);
    if SortedBy(lineups, LineupNameBefore) then
      FilterKeepsSorted(lineups, keep, LineupNameBefore);
      Filter(lineups, keep)
    else Filter(lineups, keep)
  }

  /** Filtering keeps the order of what it keeps. */
  lemma {:induction false} FilterKeepsSorted<T(!new)>(s: seq<T>, keep: T -> bool, lt: (T, T) -> bool)
    requires SortedBy(s, lt)
    ensures SortedBy(Filter(s, keep), lt)
  {
    if |s| > 0 {
      var tail := s[1..];
      assert SortedBy(tail, lt) by {
        forall i, j | 0 <= i < j < |tail| ensures !lt(tail[j], tail[i]) {
          assert tail[j] == s[j + 1] && tail[i] == s[i + 1];
        }
      }
      FilterKeepsSorted(tail, keep, lt);
      if keep(s[0]) {
        var t := Filter(tail, keep);
        var r := [s[0]] + t;
        forall i, j | 0 <= i < j < |r| ensures !lt(r[j], r[i]) {
          assert r[j] == t[j - 1];
          if i == 0 {
            assert t[j - 1] in tail;
            var k :| 0 <= k < |tail| && tail[k] == t[j - 1];
            assert s[k + 1] == r[j];
          } else {
            assert r[i] == t[i - 1];
          }
        }
      }
    }
  }

  // ---------------------------------------------------------------------
  // Games

  /** A game as the backend is assumed to return it from the insert: the
      table's defaults, so not started, 0-0, no events; the mirror holds
      no lineup for it yet. */
  function NewGame(id: string, opponent: string, date: int, time: Option<int>, location: Side,
                   season: string, competition: string): (r: Game)
    ensures IsNotStarted(r) && ClockConsistent(r) && ScoreInSync(r)
    ensures r.id == id && r.date == date && r.time == time && r.location == location
    ensures r.season == season && r.competition == competition && r.opponent == opponent
  {
    Game(id, opponent, date, time, location, season, competition, 0, 0, Stopped, None, 0, false, [], [])
  }

  /** The game list after `addGame`: the new game joins, newest first. */
  function GamesAfterAdd(games: seq<Game>, g: Game): (r: seq<Game>)
    ensures SortedBy(r, NewerGame)
    ensures multiset(r) == multiset(games) + multiset{g}
  {
    SortGames(games + [g])
  }

  /** The fields `updateGame` may change (not the id, lineup or events).
      `time` and `timerStartTime` are doubly optional like a player's
      position. */
  datatype GameUpdate = GameUpdate(
    opponent: Option<string>,
    date: Option<int>,
    time: Option<Option<int>>,
    location: Option<Side>,
    season: Option<string>,
    competition: Option<string>,
    homeScore: Option<int>,
    awayScore: Option<int>,
    timerStatus: Option<TimerStatus>,
    timerStartTime: Option<Option<int>>,
    timerElapsedSeconds: Option<int>,
    isExplicitlyFinished: Option<bool>)

  /** `{ ...g, ...updates }`. */
  function ApplyGameUpdate(g: Game, u: GameUpdate): (r: Game)
    ensures r.id == g.id && r.lineup == g.lineup && r.events == g.events
  {
    Game(g.id, OrElse(u.opponent, g.opponent), OrElse(u.date, g.date), OrElse(u.time, g.time),
         OrElse(u.location, g.location), OrElse(u.season, g.season), OrElse(u.competition, g.competition),
         OrElse(u.homeScore, g.homeScore), OrElse(u.awayScore, g.awayScore),
         OrElse(u.timerStatus, g.timerStatus), OrElse(u.timerStartTime, g.timerStartTime),
         OrElse(u.timerElapsedSeconds, g.timerElapsedSeconds),
         OrElse(u.isExplicitlyFinished, g.isExplicitlyFinished), g.lineup, g.events)
  }

  /** The game list after `updateGame`: the game with that id is updated,
      the rest kept, newest first. */
  function GamesAfterUpdate(games: seq<Game>, id: string, u: GameUpdate): (r: seq<Game>)
    ensures SortedBy(r, NewerGame)
    ensures |r| == |games|
    ensures forall q :: q in r && q.id != id ==> q in games
    ensures forall k :: 0 <= k < |games| && games[k].id == id ==> ApplyGameUpdate(games[k], u) in r
  {
    var m := UpdateWhere(games, id, g => ApplyGameUpdate(g, u));
    var r := SortGames(m);
    assert |r| == |m| by {
      assert |multiset(r)| == |multiset(m)|;
    }
    forall q | q in r && q.id != id ensures q in games {
      assert q in multiset(m);
      var k :| 0 <= k < |m| && m[k] == q;
      assert games[k] == q;
    }
    forall k | 0 <= k < |games| && games[k].id == id ensures ApplyGameUpdate(games[k], u) in r {
      assert m[k] in multiset(r);
    }
    r
  }

  /** The game list after `deleteGame`. */
  function GamesAfterDelete(games: seq<Game>, id: string): (r: seq<Game>)
    ensures forall q :: q in r <==> q in games && q.id != id
    ensures forall q :: multiset(r)[q] == if q.id != id then multiset(games)[q] else 0
  {
    FilterMultiset(games, (g: Game) => g.id != id);
    Filter(games, (g: Game) => g.id != id)
  }
}
