/** The team page's season statistics: per-player playtime, attendance,
    games played, starts, goals and assists over the finished games that
    match the season and competition selection; the competitions offered
    for a season; the upcoming and previous games; and the win/loss rule
    of a finished game. */
module Stats {
  import opened Domain
  import opened Sorting
  import opened Errors
  import opened GameRules

  // ---------------------------------------------------------------------
  // Per-player statistics

  datatype PlayerStats = PlayerStats(pt: int, ga: nat, gp: nat, s: nat, g: nat, a: nat, yc: nat, rc: nat)

  /** The player's entry in a game's lineup (the first one with that id). */
  function EntryIn(game: Game, id: string): (r: Option<LineupEntry>)
    ensures r.Some? ==> r.value in game.lineup && r.value.id == id
    ensures r.None? <==> id !in LineupIds(game.lineup)
  {
    match FindEntry(game.lineup, id)
    case None => None
    case Some(k) => Some(game.lineup[k])
  }

  /** Attended: the player has an entry that is not inactive or that has
      playtime. (Every location is one of field, bench and inactive, so the
      source's outer location test always holds.) */
  predicate AttendedIn(game: Game, id: string) {
    var e := EntryIn(game, id);
    e.Some? && (e.value.location != Inactive || e.value.playtimeSeconds > 0)
  }

  predicate PlayedIn(game: Game, id: string) {
    var e := EntryIn(game, id);
    e.Some? && e.value.playtimeSeconds > 0
  }

  predicate StartedIn(game: Game, id: string) {
    var e := EntryIn(game, id);
    e.Some? && e.value.isStarter
  }

  function Attends(id: string): Game -> bool {
    (game: Game) => AttendedIn(game, id)
  }

  function Plays(id: string): Game -> bool {
    (game: Game) => PlayedIn(game, id)
  }

  function Starts(id: string): Game -> bool {
    (game: Game) => StartedIn(game, id)
  }

  /** Games attended, played and started. */
  function AttendedGames(games: seq<Game>, id: string): nat {
    |Filter(games, Attends(id))|
  }

  function PlayedGames(games: seq<Game>, id: string): nat {
    |Filter(games, Plays(id))|
  }

  function StartedGames(games: seq<Game>, id: string): nat {
    |Filter(games, Starts(id))|
  }

  /** Playtime summed over the games in which the player has an entry. */
  function Playtime(games: seq<Game>, id: string): int {
    if |games| == 0 then 0
    else
      var e := EntryIn(games[|games| - 1], id);
      Playtime(games[..|games| - 1], id) + (if e.Some? then e.value.playtimeSeconds else 0)
  }

  /** Goal events whose scorer is exactly `id` (strict equality: an event
      without a scorer names nobody). */
  function ScoredIn(events: seq<GameEvent>, id: string): (r: nat)
    ensures r <= |events|
  {
    if |events| == 0 then 0
    else
      var e := events[|events| - 1];
      ScoredIn(events[..|events| - 1], id) + (if e.kind == Goal && e.scorerPlayerId == Some(id) then 1 else 0)
  }

  function AssistedIn(events: seq<GameEvent>, id: string): (r: nat)
    ensures r <= |events|
  {
    if |events| == 0 then 0
    else
      var e := events[|events| - 1];
      AssistedIn(events[..|events| - 1], id) + (if e.kind == Goal && e.assistPlayerId == Some(id) then 1 else 0)
  }

  /** Goals over all the games, whether or not the player has an entry. */
  function Goals(games: seq<Game>, id: string): nat {
    if |games| == 0 then 0 else Goals(games[..|games| - 1], id) + ScoredIn(games[|games| - 1].events, id)
  }

  function Assists(games: seq<Game>, id: string): nat {
    if |games| == 0 then 0 else Assists(games[..|games| - 1], id) + AssistedIn(games[|games| - 1].events, id)
  }

  /** The statistics the page promises, field by field. Cards are not
      tracked and stay 0. */
  function StatsOf(id: string, games: seq<Game>): PlayerStats {
    PlayerStats(Playtime(games, id), AttendedGames(games, id), PlayedGames(games, id),
                StartedGames(games, id), Goals(games, id), Assists(games, id), 0, 0)
  }

  /** The counts after one more game: each grows by what that game adds. */
  lemma StatsStep(id: string, front: seq<Game>, game: Game)
    ensures var e := EntryIn(game, id);
      && Playtime(front + [game], id) == Playtime(front, id) + (if e.Some? then e.value.playtimeSeconds else 0)
      && AttendedGames(front + [game], id) == AttendedGames(front, id) + (if AttendedIn(game, id) then 1 else 0)
      && PlayedGames(front + [game], id) == PlayedGames(front, id) + (if PlayedIn(game, id) then 1 else 0)
      && StartedGames(front + [game], id) == StartedGames(front, id) + (if StartedIn(game, id) then 1 else 0)
      && Goals(front + [game], id) == Goals(front, id) + ScoredIn(game.events, id)
      && Assists(front + [game], id) == Assists(front, id) + AssistedIn(game.events, id)
  {
    assert (front + [game])[..|front|] == front;
    FilterSnoc(front, game, Attends(id));
    FilterSnoc(front, game, Plays(id));
    FilterSnoc(front, game, Starts(id));
  }

  /** The inner loop of `calculatePlayerStats` over one game's events. */
  method TallyEvents(events: seq<GameEvent>, id: string) returns (g: nat, a: nat)
    ensures g == ScoredIn(events, id) && a == AssistedIn(events, id)
  {
    g, a := 0, 0;
    var j := 0;
    while j < |events|
      invariant 0 <= j <= |events|
      invariant g == ScoredIn(events[..j], id) && a == AssistedIn(events[..j], id)
    {
      var event := events[j];
      assert events[..j + 1][..j] == events[..j];
      if event.kind == Goal {
        if event.scorerPlayerId == Some(id) {
          g := g + 1;
        }
        if event.assistPlayerId == Some(id) {
          a := a + 1;
        }
      }
      j := j + 1;
    }
    assert events[..j] == events;
  }

  /** The lineup part of one pass of `calculatePlayerStats`: an entry of
      the player adds its attendance, playtime, games played and start. */
  method TallyEntry(game: Game, id: string, pt: int, ga: nat, gp: nat, s: nat)
    returns (pt': int, ga': nat, gp': nat, s': nat)
    ensures var e := EntryIn(game, id);
      && pt' == pt + (if e.Some? then e.value.playtimeSeconds else 0)
      && ga' == ga + (if AttendedIn(game, id) then 1 else 0)
      && gp' == gp + (if PlayedIn(game, id) then 1 else 0)
      && s' == s + (if StartedIn(game, id) then 1 else 0)
  {
    pt', ga', gp', s' := pt, ga, gp, s;
    var state := EntryIn(game, id);
    if state.Some? {
      var e := state.value;
      if e.location != Inactive || e.playtimeSeconds > 0 {
        ga' := ga' + 1;
      }
      pt' := pt' + e.playtimeSeconds;
      if e.playtimeSeconds > 0 {
        gp' := gp' + 1;
      }
      if e.isStarter {
        s' := s' + 1;
      }
    }
  }

  /** `calculatePlayerStats`: one pass over the games, and for each one
      over its events. */
  method CalculatePlayerStats(id: string, games: seq<Game>) returns (st: PlayerStats)
    ensures st == StatsOf(id, games)
  {
    var pt, ga, gp, s, g, a := 0, 0, 0, 0, 0, 0;
    var i := 0;
    while i < |games|
      invariant 0 <= i <= |games|
      invariant pt == Playtime(games[..i], id)
      invariant ga == AttendedGames(games[..i], id)
      invariant gp == PlayedGames(games[..i], id)
      invariant s == StartedGames(games[..i], id)
      invariant g == Goals(games[..i], id) && a == Assists(games[..i], id)
    {
      var game := games[i];
      assert games[..i + 1] == games[..i] + [game];
      StatsStep(id, games[..i], game);
      pt, ga, gp, s := TallyEntry(game, id, pt, ga, gp, s);
      var dg, da := TallyEvents(game.events, id);
      g, a := g + dg, a + da;
      i := i + 1;
    }
    assert games[..i] == games;
    st := PlayerStats(pt, ga, gp, s, g, a, 0, 0);
  }

  lemma {:induction false} FilterImplied<T(!new)>(s: seq<T>, p: T -> bool, q: T -> bool)
    requires forall x :: p(x) ==> q(x)
    ensures |Filter(s, p)| <= |Filter(s, q)|
  {
    if |s| > 0 {
      FilterImplied(s[1..], p, q);
    }
  }

  /** Games played never exceed games attended, which never exceed the
      games counted; starts never exceed the games counted. */
  lemma StatsBounds(id: string, games: seq<Game>)
    ensures StatsOf(id, games).gp <= StatsOf(id, games).ga <= |games|
    ensures StatsOf(id, games).s <= |games|
  {
    FilterImplied(games, Plays(id), Attends(id));
  }

  /** A player who is in no lineup still has the goals and assists the
      events credit to them, and nothing else. */
  lemma {:induction false} StatsWithoutEntries(id: string, games: seq<Game>)
    requires forall k :: 0 <= k < |games| ==> id !in LineupIds(games[k].lineup)
    ensures StatsOf(id, games) == PlayerStats(0, 0, 0, 0, Goals(games, id), Assists(games, id), 0, 0)
  {
    if |games| > 0 {
      var front := games[..|games| - 1];
      StatsWithoutEntries(id, front);
      var last := games[|games| - 1];
      assert games == front + [last];
      FilterSnoc(front, last, Attends(id));
      FilterSnoc(front, last, Plays(id));
      FilterSnoc(front, last, Starts(id));
    }
  }

  /** The page counts a player's goals as the game page's tallies do, for
      any non-empty player id. */
  lemma {:induction false} ScoredAgreesWithTally(events: seq<GameEvent>, id: string)
    requires id != ""
    ensures ScoredIn(events, id) == GoalsBy(events, id)
    ensures AssistedIn(events, id) == AssistsBy(events, id)
  {
    if |events| > 0 {
      ScoredAgreesWithTally(events[..|events| - 1], id);
    }
  }

  /** `playerStatsMap`: the statistics of every roster player. */
  method PlayerStatsMap(players: seq<Player>, games: seq<Game>) returns (m: map<string, PlayerStats>)
    ensures m.Keys == RosterIds(players)
    ensures forall id :: id in m ==> m[id] == StatsOf(id, games)
  {
    m := map[];
    var i := 0;
    while i < |players|
      invariant 0 <= i <= |players|
      invariant m.Keys == RosterIds(players[..i])
      invariant forall id :: id in m ==> m[id] == StatsOf(id, games)
    {
      var st := CalculatePlayerStats(players[i].id, games);
      m := m[players[i].id := st];
      RosterIdsSnoc(players, i);
      i := i + 1;
    }
    assert players[..i] == players;
  }

  // ---------------------------------------------------------------------
  // Game selection for the statistics

  /** An empty selection matches every value. */
  predicate Selects(selected: string, value: string) {
    selected == "" || value == selected
  }

  function StatsKeep(season: string, competition: string): Game -> bool {
    (game: Game) => game.isExplicitlyFinished && Selects(season, game.season) && Selects(competition, game.competition)
  }

  /** `filteredGamesForStats`. */
  function StatsGames(games: seq<Game>, season: string, competition: string): (r: seq<Game>)
    ensures forall game :: game in r <==> (game in games && game.isExplicitlyFinished
              && (season == "" || game.season == season) && (competition == "" || game.competition == competition))
  {
    Filter(games, StatsKeep(season, competition))
  }

  /** With nothing selected the statistics cover every finished game. */
  lemma StatsGamesUnfiltered(games: seq<Game>)
    ensures StatsGames(games, "", "") == Filter(games, (game: Game) => game.isExplicitlyFinished)
  {
    FilterSame(games, StatsKeep("", ""), (game: Game) => game.isExplicitlyFinished);
  }

  lemma {:induction false} FilterSame<T(!new)>(s: seq<T>, p: T -> bool, q: T -> bool)
    requires forall x :: p(x) == q(x)
    ensures Filter(s, p) == Filter(s, q)
  {
    if |s| > 0 {
      FilterSame(s[1..], p, q);
    }
  }

  /** Narrowing the selection narrows the games. */
  lemma NarrowerSelection(games: seq<Game>, season: string, competition: string)
    ensures |StatsGames(games, season, competition)| <= |StatsGames(games, season, "")| <= |StatsGames(games, "", "")|
  {
    FilterImplied(games, StatsKeep(season, competition), StatsKeep(season, ""));
    FilterImplied(games, StatsKeep(season, ""), StatsKeep("", ""));
  }

  // ---------------------------------------------------------------------
  // Competitions of a season

  /** A competition a game offers for `season`: trimmed and non-empty. */
  predicate Offers(game: Game, season: string, c: string) {
    game.season == season && game.competition != "" && Trim(game.competition) != "" && c == Trim(game.competition)
  }

  /** One pass of the `availableCompetitions` loop: game `i`'s trimmed
      competition joins the set unless it is already there. */
  method AddCompetition(games: seq<Game>, season: string, i: nat, found: seq<string>) returns (found': seq<string>)
    requires i < |games|
    requires forall c :: c in found <==> exists k :: 0 <= k < i && Offers(games[k], season, c)
    requires forall p, q :: 0 <= p < q < |found| ==> found[p] != found[q]
    ensures forall c :: c in found' <==> exists k :: 0 <= k < i + 1 && Offers(games[k], season, c)
    ensures forall p, q :: 0 <= p < q < |found'| ==> found'[p] != found'[q]
  {
    found' := found;
    var game := games[i];
    if game.season == season && game.competition != "" && Trim(game.competition) != "" {
      var c := Trim(game.competition);
      if c !in found {
        found' := found + [c];
      }
      assert Offers(game, season, c);
    }
  }

  /** The loop of `availableCompetitions`: the offered competitions,
      each once, in first-seen order (a JavaScript Set's order). */
  method CollectCompetitions(games: seq<Game>, season: string) returns (found: seq<string>)
    ensures forall c :: c in found <==> exists k :: 0 <= k < |games| && Offers(games[k], season, c)
    ensures forall p, q :: 0 <= p < q < |found| ==> found[p] != found[q]
  {
    found := [];
    var i := 0;
    while i < |games|
      invariant 0 <= i <= |games|
      invariant forall c :: c in found <==> exists k :: 0 <= k < i && Offers(games[k], season, c)
      invariant forall p, q :: 0 <= p < q < |found| ==> found[p] != found[q]
    {
      found := AddCompetition(games, season, i, found);
      i := i + 1;
    }
  }

  /** `availableCompetitions`: empty without a season, otherwise the
      offered competitions sorted. */
  method AvailableCompetitions(games: seq<Game>, season: string) returns (r: seq<string>)
    ensures season == "" ==> r == []
    ensures season != "" ==> forall c :: c in r <==> exists k :: 0 <= k < |games| && Offers(games[k], season, c)
    ensures forall i, j :: 0 <= i < j < |r| ==> StrLt(r[i], r[j])
  {
    if season == "" {
      return [];
    }
    var found := CollectCompetitions(games, season);
    r := SortBy(found, StrLt);
    SortedDistinct(found, r);
  }

  /** Sorting a list without repeats gives a strictly increasing list with
      the same elements. */
  lemma SortedDistinct(found: seq<string>, r: seq<string>)
    requires forall p, q :: 0 <= p < q < |found| ==> found[p] != found[q]
    requires r == SortBy(found, StrLt)
    ensures forall c :: c in r <==> c in found
    ensures forall i, j :: 0 <= i < j < |r| ==> StrLt(r[i], r[j])
  {
    StrLtStrictOrder();
    SortBySorted(found, StrLt);
    forall c ensures c in r <==> c in found {
      assert c in r <==> c in multiset(r);
    }
    DistinctSortedIsStrict(found, r);
  }

  /** Sorting a list without repeats gives a strictly increasing list. */
  lemma DistinctSortedIsStrict(found: seq<string>, r: seq<string>)
    requires forall p, q :: 0 <= p < q < |found| ==> found[p] != found[q]
    requires multiset(r) == multiset(found) && SortedBy(r, StrLt)
    ensures forall i, j :: 0 <= i < j < |r| ==> StrLt(r[i], r[j])
  {
    forall i, j | 0 <= i < j < |r| ensures StrLt(r[i], r[j]) {
      if r[i] == r[j] {
        assert multiset(r)[r[i]] >= 2 by {
          assert r == r[..j] + [r[j]] + r[j + 1..];
          assert r[i] in r[..j];
        }
        DistinctCountOne(found, r[i]);
      }
      StrLtTotal(r[i], r[j]);
    }
  }

  lemma {:induction false} DistinctCountOne(s: seq<string>, x: string)
    requires forall p, q :: 0 <= p < q < |s| ==> s[p] != s[q]
    ensures multiset(s)[x] <= 1
  {
    if |s| > 0 {
      DistinctCountOne(s[1..], x);
      assert s == [s[0]] + s[1..];
      if s[0] == x {
        assert x !in s[1..];
      }
    }
  }

  /** The competition kept after the selection changes: a selection no
      longer offered is cleared. */
  function KeptCompetition(selected: string, available: seq<string>): (r: string)
    ensures r == "" || r in available
    ensures r == selected || r == ""
    ensures selected in available ==> r == selected
  {
    if selected != "" && selected !in available then "" else selected
  }

  /** The season and competition pickers. */
  class StatsFilter {
    var season: string
    var competition: string

    constructor()
      ensures season == "" && competition == ""
    {
      season := "";
      competition := "";
    }

    /** Choosing a season clears the competition. */
    method SelectSeason(v: string)
      modifies this
      ensures season == v && competition == ""
    {
      season := v;
      competition := "";
    }

    method SelectCompetition(v: string)
      modifies this
      ensures season == old(season) && competition == v
    {
      competition := v;
    }

    /** The effect that runs when the offered competitions change. */
    method DropStaleCompetition(games: seq<Game>)
      modifies this
      ensures season == old(season)
      ensures competition == "" || exists k :: 0 <= k < |games| && Offers(games[k], season, competition)
      ensures competition == old(competition) || competition == ""
      ensures season != "" && (exists k :: 0 <= k < |games| && Offers(games[k], season, old(competition)))
              ==> competition == old(competition)
      ensures old(competition) == "" || season == "" ==> competition == ""
    {
      var available := AvailableCompetitions(games, season);
      competition := KeptCompetition(competition, available);
    }
  }

  // ---------------------------------------------------------------------
  // Upcoming and previous games

  predicate EarlierGame(a: Game, b: Game) {
    DateTime(a) < DateTime(b)
  }

  predicate LaterGame(a: Game, b: Game) {
    DateTime(a) > DateTime(b)
  }

  lemma GameOrders()
    ensures StrictOrder(EarlierGame) && StrictOrder(LaterGame)
  {
  }

  function UpcomingKeep(now: int): Game -> bool {
    (game: Game) => !game.isExplicitlyFinished && DateTime(game) >= now && game.timerStatus != Running
  }

  /** The games sorted by kick-off, soonest first (stable). */
  function SoonestFirst(games: seq<Game>): (r: seq<Game>)
    ensures multiset(r) == multiset(games)
    ensures forall game :: game in r <==> game in games
    ensures forall i, j :: 0 <= i < j < |r| ==> DateTime(r[i]) <= DateTime(r[j])
  {
    GameOrders();
    SortBySorted(games, EarlierGame);
    var r := SortBy(games, EarlierGame);
    assert forall game :: game in r <==> game in multiset(games);
    r
  }

  /** The games sorted by kick-off, newest first (stable). */
  function LatestFirst(games: seq<Game>): (r: seq<Game>)
    ensures multiset(r) == multiset(games)
    ensures forall game :: game in r <==> game in games
    ensures forall i, j :: 0 <= i < j < |r| ==> DateTime(r[i]) >= DateTime(r[j])
  {
    GameOrders();
    SortBySorted(games, LaterGame);
    var r := SortBy(games, LaterGame);
    assert forall game :: game in r <==> game in multiset(games);
    r
  }

  /** The team page's upcoming games, soonest first. */
  function UpcomingGames(games: seq<Game>, now: int): (r: seq<Game>)
    ensures forall game :: game in r <==> (game in games && !game.isExplicitlyFinished
              && DateTime(game) >= now && game.timerStatus != Running)
    ensures multiset(r) == multiset(Filter(games, UpcomingKeep(now)))
    ensures forall i, j :: 0 <= i < j < |r| ==> DateTime(r[i]) <= DateTime(r[j])
  {
    SoonestFirst(Filter(games, UpcomingKeep(now)))
  }

  /** The next game: the soonest upcoming one. */
  function NextGame(games: seq<Game>, now: int): (r: Option<Game>)
    ensures r.None? <==> forall game :: game in games ==> !UpcomingKeep(now)(game)
    ensures r.Some? ==> r.value in games && UpcomingKeep(now)(r.value)
    ensures r.Some? ==> forall game :: game in games && UpcomingKeep(now)(game) ==> DateTime(r.value) <= DateTime(game)
  {
    var up := UpcomingGames(games, now);
    if |up| == 0 then None
    else
      assert forall game :: game in up ==> DateTime(up[0]) <= DateTime(game);
      Some(up[0])
  }

  function Finished(): Game -> bool {
    (game: Game) => game.isExplicitlyFinished
  }

  /** The finished games, newest first. */
  function PreviousGames(games: seq<Game>): (r: seq<Game>)
    ensures forall game :: game in r <==> game in games && game.isExplicitlyFinished
    ensures multiset(r) == multiset(Filter(games, Finished()))
    ensures forall i, j :: 0 <= i < j < |r| ==> DateTime(r[i]) >= DateTime(r[j])
  {
    LatestFirst(Filter(games, Finished()))
  }

  /** The last five games, newest first. */
  function LastFive(games: seq<Game>): (r: seq<Game>)
    ensures |r| == (if |PreviousGames(games)| < 5 then |PreviousGames(games)| else 5)
    ensures r == PreviousGames(games)[..|r|]
    ensures forall game :: game in r ==> game.isExplicitlyFinished
  {
    var prev := PreviousGames(games);
    prev[..if |prev| < 5 then |prev| else 5]
  }

  /** `[...s].reverse()`: the strip shows the five oldest-to-newest. */
  function Reversed<T>(s: seq<T>): (r: seq<T>)
    ensures |r| == |s|
    ensures forall i :: 0 <= i < |s| ==> r[i] == s[|s| - 1 - i]
  {
    if |s| == 0 then [] else Reversed(s[1..]) + [s[0]]
  }

  lemma LastFiveStripAscending(games: seq<Game>)
    ensures forall i, j :: 0 <= i < j < |Reversed(LastFive(games))|
              ==> DateTime(Reversed(LastFive(games))[i]) <= DateTime(Reversed(LastFive(games))[j])
  {
  }

  // ---------------------------------------------------------------------
  // Results

  datatype MatchResult = Win | Loss | Draw

  /** The user's goals and the opponent's goals, by the home/away flag. */
  function UserScore(game: Game): int {
    if game.location == Home then game.homeScore else game.awayScore
  }

  function OpponentScore(game: Game): int {
    if game.location == Home then game.awayScore else game.homeScore
  }

  function ResultOf(game: Game): (r: MatchResult)
    ensures r == Win <==> UserScore(game) > OpponentScore(game)
    ensures r == Loss <==> UserScore(game) < OpponentScore(game)
    ensures r == Draw <==> UserScore(game) == OpponentScore(game)
  {
    if UserScore(game) > OpponentScore(game) then Win
    else if UserScore(game) < OpponentScore(game) then Loss
    else Draw
  }

  function Flip(s: Side): Side {
    if s == Home then Away else Home
  }

  function Flipped(r: MatchResult): MatchResult {
    match r
    case Win => Loss
    case Loss => Win
    case Draw => Draw
  }

  /** The same scoreline seen from the other side: a win becomes a loss,
      and the two scores still share out all the goals. */
  lemma ResultFromOtherSide(game: Game)
    ensures ResultOf(game.(location := Flip(game.location))) == Flipped(ResultOf(game))
    ensures UserScore(game) + OpponentScore(game) == game.homeScore + game.awayScore
  {
  }

  /** The colour of a score: green for a win, red for a loss, grey
      otherwise. */
  datatype Colour = Green | Red | Grey

  function ResultColour(game: Game): (r: Colour)
    ensures r == Green <==> UserScore(game) > OpponentScore(game)
    ensures r == Red <==> UserScore(game) < OpponentScore(game)
  {
    match ResultOf(game)
    case Win => Green
    case Loss => Red
    case Draw => Grey
  }
}
