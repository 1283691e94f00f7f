/** The schedule page: every game goes into ongoing, upcoming or previous,
    each list sorted by kick-off, and each row shows a live score, a final
    score badge, the kick-off time or "vs". */
module Schedule {
  import opened Domain
  import opened Sorting
  import opened Stats

  datatype Category = Ongoing | Upcoming | Previous

  /** The category of one game: running or paused games are ongoing,
      not-started games from `now` on are upcoming, the rest previous. */
  function CategoryOf(game: Game, now: int): (r: Category)
    ensures r == Ongoing <==> IsRunning(game) || IsPaused(game)
    ensures r == Upcoming <==> IsNotStarted(game) && DateTime(game) >= now
  {
    if IsRunning(game) || IsPaused(game) then Ongoing
    else if IsNotStarted(game) && DateTime(game) >= now then Upcoming
    else Previous
  }

  /** A running game is ongoing even when it is flagged finished. */
  lemma RunningIsOngoing(game: Game, now: int)
    requires game.timerStatus == Running
    ensures CategoryOf(game, now) == Ongoing
  {
  }

  /** With a non-negative elapsed time, a game is previous exactly when it
      is stopped and either finished or never started and dated before
      `now`. */
  lemma PreviousGamesAre(game: Game, now: int)
    requires game.timerElapsedSeconds >= 0
    ensures CategoryOf(game, now) == Previous
        <==> game.timerStatus == Stopped
             && (game.isExplicitlyFinished || (game.timerElapsedSeconds == 0 && DateTime(game) < now))
  {
  }

  function InCategory(now: int, c: Category): Game -> bool {
    (game: Game) => CategoryOf(game, now) == c
  }

  /** The games of one category, oldest first. */
  function CategoryList(games: seq<Game>, now: int, c: Category): (r: seq<Game>)
    ensures forall game :: game in r <==> (game in games && CategoryOf(game, now) == c)
    ensures multiset(r) == multiset(Filter(games, InCategory(now, c)))
    ensures forall i, j :: 0 <= i < j < |r| ==> DateTime(r[i]) <= DateTime(r[j])
  {
    SoonestFirst(Filter(games, InCategory(now, c)))
  }

  /** The games of category `c`, in their order. */
  function Bucketed(games: seq<Game>, now: int, c: Category): seq<Game> {
    Filter(games, InCategory(now, c))
  }

  /** Pushing one more game grows exactly its category's list. */
  lemma BucketSnoc(games: seq<Game>, i: nat, now: int, c: Category)
    requires i < |games|
    ensures Bucketed(games[..i + 1], now, c)
         == Bucketed(games[..i], now, c) + (if CategoryOf(games[i], now) == c then [games[i]] else [])
  {
    assert games[..i + 1] == games[..i] + [games[i]];
    FilterSnoc(games[..i], games[i], InCategory(now, c));
  }

  /** The categorisation loop: each game is pushed to the list of its
      category (the source's if-chain is `CategoryOf`). */
  method Bucket(games: seq<Game>, now: int) returns (ongoing: seq<Game>, upcoming: seq<Game>, previous: seq<Game>)
    ensures ongoing == Bucketed(games, now, Ongoing)
    ensures upcoming == Bucketed(games, now, Upcoming)
    ensures previous == Bucketed(games, now, Previous)
  {
    ongoing, upcoming, previous := [], [], [];
    var i := 0;
    while i < |games|
      invariant 0 <= i <= |games|
      invariant ongoing == Bucketed(games[..i], now, Ongoing)
      invariant upcoming == Bucketed(games[..i], now, Upcoming)
      invariant previous == Bucketed(games[..i], now, Previous)
    {
      var game := games[i];
      BucketSnoc(games, i, now, Ongoing);
      BucketSnoc(games, i, now, Upcoming);
      BucketSnoc(games, i, now, Previous);
      match CategoryOf(game, now) {
        case Ongoing =>
          ongoing := ongoing + [game];
        case Upcoming =>
          upcoming := upcoming + [game];
        case Previous =>
          previous := previous + [game];
      }
      i := i + 1;
    }
    assert games[..i] == games;
  }

  /** The categorisation: the three lists, each then sorted by kick-off. */
  method Categorize(games: seq<Game>, now: int) returns (ongoing: seq<Game>, upcoming: seq<Game>, previous: seq<Game>)
    ensures ongoing == CategoryList(games, now, Ongoing)
    ensures upcoming == CategoryList(games, now, Upcoming)
    ensures previous == CategoryList(games, now, Previous)
  {
    ongoing, upcoming, previous := Bucket(games, now);
    ongoing := SoonestFirst(ongoing);
    upcoming := SoonestFirst(upcoming);
    previous := SoonestFirst(previous);
  }

  /** A category's games, unfolded once from the front. */
  lemma BucketCons(games: seq<Game>, now: int, c: Category)
    requires |games| > 0
    ensures multiset(Bucketed(games, now, c))
            == (if CategoryOf(games[0], now) == c then multiset{games[0]} else multiset{}) + multiset(Bucketed(games[1..], now, c))
  {
  }

  /** The first game of a list, split off in its multiset. */
  lemma MultisetCons(games: seq<Game>)
    requires |games| > 0
    ensures multiset(games) == multiset{games[0]} + multiset(games[1..])
  {
    assert games == [games[0]] + games[1..];
  }

  /** One inductive step of the partition: adding the first game back adds
      it to exactly one of the three lists. */
  lemma PartitionStep(games: seq<Game>, now: int)
    requires |games| > 0
    requires multiset(Bucketed(games[1..], now, Ongoing)) + multiset(Bucketed(games[1..], now, Upcoming))
             + multiset(Bucketed(games[1..], now, Previous)) == multiset(games[1..])
    ensures multiset(Bucketed(games, now, Ongoing)) + multiset(Bucketed(games, now, Upcoming))
            + multiset(Bucketed(games, now, Previous)) == multiset(games)
  {
    BucketCons(games, now, Ongoing);
    BucketCons(games, now, Upcoming);
    BucketCons(games, now, Previous);
    MultisetCons(games);
  }

  lemma {:induction false} FilterPartition(games: seq<Game>, now: int)
    ensures multiset(Bucketed(games, now, Ongoing)) + multiset(Bucketed(games, now, Upcoming))
            + multiset(Bucketed(games, now, Previous)) == multiset(games)
  {
    if |games| > 0 {
      FilterPartition(games[1..], now);
      PartitionStep(games, now);
    }
  }

  /** Every game lands in exactly one of the three lists, as often as it
      occurs among the games. */
  lemma CategoriesPartition(games: seq<Game>, now: int)
    ensures multiset(CategoryList(games, now, Ongoing)) + multiset(CategoryList(games, now, Upcoming))
            + multiset(CategoryList(games, now, Previous)) == multiset(games)
    ensures forall game :: game in games ==>
              var o, u, p := game in CategoryList(games, now, Ongoing), game in CategoryList(games, now, Upcoming),
                             game in CategoryList(games, now, Previous);
              (o || u || p) && !(o && u) && !(o && p) && !(u && p)
  {
    FilterPartition(games, now);
  }

  // ---------------------------------------------------------------------
  // Rows

  /** What a row shows between the two teams. */
  datatype Middle =
    | LiveScore(home: int, away: int, colour: Colour)
    | ScoreBadge(home: int, away: int, colour: Colour)
    | KickOff(time: int)
    | Versus

  /** The middle of a row for a game listed under `status`. Scores are
      always numbers here, so the source's "score available" test holds. */
  function MiddleText(game: Game, status: Category): (r: Middle)
    ensures status == Ongoing ==> r.LiveScore? && r.home == game.homeScore && r.away == game.awayScore
    ensures status == Previous && game.isExplicitlyFinished ==> r.ScoreBadge? && r.home == game.homeScore && r.away == game.awayScore
    ensures (r.LiveScore? || r.ScoreBadge?) ==> r.colour == ResultColour(game)
    ensures status == Upcoming && game.time.Some? ==> r == KickOff(game.time.value)
    ensures r == Versus <==> (status == Previous && !game.isExplicitlyFinished) || (status == Upcoming && game.time.None?)
  {
    if status == Ongoing then LiveScore(game.homeScore, game.awayScore, ResultColour(game))
    else if status == Previous && game.isExplicitlyFinished then ScoreBadge(game.homeScore, game.awayScore, ResultColour(game))
    else if status == Upcoming && game.time.Some? then KickOff(game.time.value)
    else
      assert status == Previous || status == Upcoming;
      Versus
  }

  /** On the schedule a finished game that is not running shows its final
      score; a game still running shows its live score even when flagged
      finished; a past game that never started shows "vs". */
  lemma ScheduleRows(game: Game, now: int)
    requires game.timerElapsedSeconds >= 0
    ensures (game.timerStatus == Stopped && game.isExplicitlyFinished)
              ==> MiddleText(game, CategoryOf(game, now)).ScoreBadge?
    ensures game.timerStatus == Running ==> MiddleText(game, CategoryOf(game, now)).LiveScore?
    ensures IsNotStarted(game) && DateTime(game) < now ==> MiddleText(game, CategoryOf(game, now)) == Versus
  {
    PreviousGamesAre(game, now);
  }

  /** A winning score is green and a losing one red, live or final. */
  lemma ScoreColours(game: Game, status: Category)
    requires status == Ongoing || (status == Previous && game.isExplicitlyFinished)
    ensures MiddleText(game, status).colour == Green <==> ResultOf(game) == Win
    ensures MiddleText(game, status).colour == Red <==> ResultOf(game) == Loss
    ensures MiddleText(game, status).colour == Grey <==> ResultOf(game) == Draw
  {
  }
}
