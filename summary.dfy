/** The match summary of a game: minute labels with stoppage time, the
    event list with its full-time marker in time order, the score as of a
    given second, and the timeline rows, in which a substitution's "in" and
    "out" events are paired into one row. */
module Summary {
  import opened Domain
  import opened Sorting
  import opened Clock
  import opened GameRules

  // ---------------------------------------------------------------------
  // Minute labels

  /** JavaScript's `%` (the remainder has the sign of the dividend). */
  function JsRem(a: int, n: int): (r: int)
    requires n > 0
    ensures a >= 0 ==> r == a % n
    ensures a < 0 ==> -n < r <= 0
  {
    if a >= 0 then a % n else -((-a) % n)
  }

  /** `Math.ceil(a / n)`. */
  function CeilDiv(a: int, n: int): (r: int)
    requires n > 0
    ensures n * (r - 1) < a <= n * r
  {
    -((-a) / n)
  }

  /** A minute label: a plain minute `m'`, or stoppage `base+extra'`. */
  datatype MinuteLabel = Plain(minute: int) | Stoppage(base: int, extra: int)

  /** `formatMinute`, on whole game seconds: stoppage time after 90
      minutes, a rough half-time stoppage in minutes 45 to 49, otherwise
      the minute in progress (at least 1). */
  function MinuteOf(s: int): (r: MinuteLabel)
    ensures r.Plain? ==> r.minute >= 1
    ensures r.Stoppage? ==> r.extra >= 1
  {
    var minute := s / 60;
    var extra := JsRem(s, 60);
    if minute >= 90 && extra > 0 then Stoppage(90, CeilDiv(s - 90 * 60, 60))
    else if minute >= 45 && minute < 50 && extra > 0 && CeilDiv(s - 45 * 60, 60) > 0 then
      Stoppage(45, CeilDiv(s - 45 * 60, 60))
    else Plain(if minute + 1 > 1 then minute + 1 else 1)
  }

  /** The label as text: `m'` or `base+extra'`. */
  function FormatMinute(s: int): (r: string)
    ensures |r| >= 2 && r[|r| - 1] == '\''
    ensures PlusFrom(r, 0).None? <==> MinuteOf(s).Plain?
  {
    match MinuteOf(s)
    case Plain(m) =>
      NoPlusInDigits(Decimal(m) + "'", 0);
      Decimal(m) + "'"
    case Stoppage(b, k) =>
      var t := Decimal(b) + "+" + Decimal(k) + "'";
      assert t[|Decimal(b)|] == '+';
      Decimal(b) + "+" + Decimal(k) + "'"
  }

  /** The first `+` at or after index `k`. */
  function PlusFrom(t: string, k: nat): (r: Option<nat>)
    ensures r.Some? ==> k <= r.value < |t| && t[r.value] == '+'
    ensures r.Some? ==> forall p :: k <= p < r.value ==> t[p] != '+'
    ensures r.None? <==> forall p :: k <= p < |t| ==> t[p] != '+'
    decreases |t| - k
  {
    if k >= |t| then None else if t[k] == '+' then Some(k) else PlusFrom(t, k + 1)
  }

  lemma NoPlusInDigits(t: string, k: nat)
    requires forall p :: 0 <= p < |t| ==> t[p] != '+'
    ensures PlusFrom(t, k).None?
  {
  }

  /** Reads a minute label back: the text before a `+` and between it and
      the closing quote, or the text before the quote. */
  function ReadMinuteLabel(t: string): MinuteLabel
    requires |t| >= 1
  {
    match PlusFrom(t, 0)
    case None => Plain(DecimalValue(t[..|t| - 1]))
    case Some(p) =>
      if p + 1 <= |t| - 1 then Stoppage(DecimalValue(t[..p]), DecimalValue(t[p + 1..|t| - 1]))
      else Stoppage(DecimalValue(t[..p]), 0)
  }

  /** Reading the label back gives the minute it was built from. */
  lemma FormatMinuteRoundTrip(s: int)
    ensures ReadMinuteLabel(FormatMinute(s)) == MinuteOf(s)
  {
    var t := FormatMinute(s);
    match MinuteOf(s)
    case Plain(m) =>
      assert t[..|t| - 1] == Decimal(m);
      DecimalRoundTrip(m);
    case Stoppage(b, k) =>
      var db, dk := Decimal(b), Decimal(k);
      assert t == db + "+" + dk + "'";
      assert t[|db|] == '+';
      assert PlusFrom(t, 0) == Some(|db|);
      assert t[..|db|] == db;
      assert t[|db| + 1..|t| - 1] == dk;
      DecimalRoundTrip(b);
      DecimalRoundTrip(k);
  }

  /** The first three quarters of an hour read as the minute in progress,
      and minute 0 and negative times as 1. */
  lemma FirstHalfMinutes(s: int)
    requires s < 2700
    ensures MinuteOf(s) == Plain(if s >= 0 then s / 60 + 1 else 1)
  {
  }

  /** After 90 minutes, an inexact second is stoppage time 90+k with k the
      minute in progress minus 90, so base plus extra is the plain minute
      the label replaces. */
  lemma FullTimeStoppage(s: int)
    requires s >= 5400 && s % 60 != 0
    ensures MinuteOf(s) == Stoppage(90, s / 60 - 89)
    ensures MinuteOf(s).base + MinuteOf(s).extra == s / 60 + 1
  {
    var q, r := s / 60, s % 60;
    assert s - 5400 == 60 * (q - 90) + r;
    assert 0 < r < 60;
    assert CeilDiv(s - 5400, 60) == q - 89;
  }

  /** In minutes 45 to 49 an inexact second is half-time stoppage 45+k. */
  lemma HalfTimeStoppage(s: int)
    requires 2700 <= s < 3000 && s % 60 != 0
    ensures MinuteOf(s) == Stoppage(45, s / 60 - 44)
  {
    var q, r := s / 60, s % 60;
    assert s - 2700 == 60 * (q - 45) + r;
    assert CeilDiv(s - 2700, 60) == q - 44;
  }

  /** Exact minute boundaries and minutes 50 to 89 read as plain minutes. */
  lemma PlainMinutes(s: int)
    requires s >= 0 && (s % 60 == 0 || 3000 <= s < 5400)
    ensures MinuteOf(s) == Plain(s / 60 + 1)
  {
  }

  lemma MinuteLabels()
    ensures FormatMinute(0) == "1'"
    ensures FormatMinute(5430) == "90+1'"
  {
    assert MinuteOf(5430) == Stoppage(90, 1) by {
      FullTimeStoppage(5430);
    }
    assert Decimal(1) == "1";
    assert Decimal(9) == "9" && Decimal(0) == "0";
    assert Decimal(90) == "90";
  }

  // ---------------------------------------------------------------------
  // Events in time order

  /** An entry of the summary: an event, or the full-time marker. */
  datatype Item = Ev(event: GameEvent) | FullTime(seconds: int)

  function ItemSeconds(x: Item): int {
    match x
    case Ev(e) => e.gameSeconds
    case FullTime(s) => s
  }

  /** The comparator of `sortedEvents` as "strictly before": earlier game
      second first; on the same second events by timestamp, and events
      before the marker. */
  predicate ItemBefore(a: Item, b: Item) {
    || ItemSeconds(a) < ItemSeconds(b)
    || (&& ItemSeconds(a) == ItemSeconds(b)
        && ((a.Ev? && b.Ev? && a.event.timestamp < b.event.timestamp) || (a.Ev? && b.FullTime?)))
  }

  lemma ItemBeforeStrict()
    ensures StrictOrder(ItemBefore)
  {
  }

  function Wrap(events: seq<GameEvent>): (r: seq<Item>)
    ensures |r| == |events|
    ensures forall k :: 0 <= k < |events| ==> r[k] == Ev(events[k])
  {
    if |events| == 0 then [] else [Ev(events[0])] + Wrap(events[1..])
  }

  /** `sortedEvents`: the events and one full-time marker at the elapsed
      time, sorted. */
  function SortedEvents(g: Game): (r: seq<Item>)
    ensures SortedBy(r, ItemBefore)
    ensures multiset(r) == multiset(Wrap(g.events)) + multiset{FullTime(g.timerElapsedSeconds)}
  {
    var items := Wrap(g.events) + [FullTime(g.timerElapsedSeconds)];
    ItemBeforeStrict();
    SortBySorted(items, ItemBefore);
    SortBy(items, ItemBefore)
  }

  /** The sorted list holds exactly one marker, every event once per
      occurrence, and nothing else. */
  lemma OneMarker(g: Game)
    ensures multiset(SortedEvents(g))[FullTime(g.timerElapsedSeconds)] == 1
    ensures forall k :: 0 <= k < |SortedEvents(g)| && SortedEvents(g)[k].FullTime?
              ==> SortedEvents(g)[k] == FullTime(g.timerElapsedSeconds)
    ensures forall e :: multiset(SortedEvents(g))[Ev(e)] == multiset(g.events)[e]
  {
    var w := Wrap(g.events);
    var r := SortedEvents(g);
    assert forall x :: x in w ==> x.Ev?;
    assert FullTime(g.timerElapsedSeconds) !in multiset(w);
    forall k | 0 <= k < |r| && r[k].FullTime? ensures r[k] == FullTime(g.timerElapsedSeconds) {
      assert r[k] in multiset(r);
    }
    forall e ensures multiset(r)[Ev(e)] == multiset(g.events)[e] {
      WrapCount(g.events, e);
    }
  }

  lemma {:induction false} WrapCount(events: seq<GameEvent>, e: GameEvent)
    ensures multiset(Wrap(events))[Ev(e)] == multiset(events)[e]
  {
    if |events| > 0 {
      WrapCount(events[1..], e);
      assert events == [events[0]] + events[1..];
    }
  }

  // ---------------------------------------------------------------------
  // Score as of a game second

  /** Goals of `side` at or before second `t`. */
  function GoalsUntil(events: seq<GameEvent>, side: Side, t: int): (r: nat)
    ensures r <= |events|
  {
    if |events| == 0 then 0
    else
      var e := events[|events| - 1];
      GoalsUntil(events[..|events| - 1], side, t) + (if e.kind == Goal && e.gameSeconds <= t && e.team == side then 1 else 0)
  }

  /** `calculateScoreAtTime`. */
  method ScoreAtTime(events: seq<GameEvent>, t: int) returns (home: nat, away: nat)
    ensures home == GoalsUntil(events, Home, t) && away == GoalsUntil(events, Away, t)
  {
    home, away := 0, 0;
    var i := 0;
    while i < |events|
      invariant 0 <= i <= |events|
      invariant home == GoalsUntil(events[..i], Home, t) && away == GoalsUntil(events[..i], Away, t)
    {
      var e := events[i];
      assert events[..i + 1][..i] == events[..i];
      if e.kind == Goal && e.gameSeconds <= t {
        if e.team == Home {
          home := home + 1;
        } else {
          away := away + 1;
        }
      }
      i := i + 1;
    }
    assert events[..i] == events;
  }

  /** The score as of a later second is at least the earlier one. */
  lemma {:induction false} GoalsUntilMonotone(events: seq<GameEvent>, side: Side, t1: int, t2: int)
    requires t1 <= t2
    ensures GoalsUntil(events, side, t1) <= GoalsUntil(events, side, t2)
  {
    if |events| > 0 {
      GoalsUntilMonotone(events[..|events| - 1], side, t1, t2);
    }
  }

  /** Substitutions do not change the score. */
  lemma GoalsUntilIgnoresSubstitutions(events: seq<GameEvent>, sub: GameEvent, side: Side, t: int)
    requires sub.kind == Substitution
    ensures GoalsUntil(events + [sub], side, t) == GoalsUntil(events, side, t)
  {
    assert (events + [sub])[..|events|] == events;
  }

  /** Once every event lies at or before `t`, the score as of `t` is the
      score of all goals, so for a game whose stored scores agree with its
      events it is the full-time score. */
  lemma {:induction false} GoalsUntilAll(events: seq<GameEvent>, side: Side, t: int)
    requires forall k :: 0 <= k < |events| ==> events[k].gameSeconds <= t
    ensures GoalsUntil(events, side, t) == GoalCount(events, side)
  {
    if |events| > 0 {
      var front, last := events[..|events| - 1], events[|events| - 1];
      GoalsUntilAll(front, side, t);
      assert events == front + [last];
      GoalCountAppend(front, [last], side);
    }
  }

  lemma ScoreAtEndIsStoredScore(g: Game, t: int)
    requires ScoreInSync(g)
    requires forall k :: 0 <= k < |g.events| ==> g.events[k].gameSeconds <= t
    ensures GoalsUntil(g.events, Home, t) == g.homeScore && GoalsUntil(g.events, Away, t) == g.awayScore
  {
    GoalsUntilAll(g.events, Home, t);
    GoalsUntilAll(g.events, Away, t);
  }

  // ---------------------------------------------------------------------
  // Timeline

  /** A row is right-aligned for a user event when the user plays away and
      for an opponent event when the user plays at home. */
  function AlignRight(user: Side, team: Side): (r: bool)
    ensures r <==> team == Away
  {
    var userEvent := team == user;
    (userEvent && user == Away) || (!userEvent && user == Home)
  }

  /** A rendered row. Players are shown by id (the name lookup is
      presentation). */
  datatype Row =
    | FullTimeRow(home: int, away: int)
    | GoalRow(id: string, userGoal: bool, scorer: Option<string>, assist: Option<string>,
              home: int, away: int, alignRight: bool, minute: string)
    | PairRow(first: string, second: string, team: Side, playerIn: Option<string>, playerOut: Option<string>,
              alignRight: bool, minute: string)
    | SingleRow(id: string, team: Side, isIn: bool, player: Option<string>, alignRight: bool, minute: string)

  /** The event ids a row stands for. */
  function RowIds(row: Row): seq<string> {
    match row
    case FullTimeRow(_, _) => []
    case GoalRow(id, _, _, _, _, _, _, _) => [id]
    case PairRow(a, b, _, _, _, _, _) => [a, b]
    case SingleRow(id, _, _, _, _, _) => [id]
  }

  function AllIds(rows: seq<Row>): seq<string> {
    if |rows| == 0 then [] else RowIds(rows[0]) + AllIds(rows[1..])
  }

  /** Item `j` completes the substitution at item `i`: a substitution
      event of the same second and team, with "out" for an "in" or "in"
      for an "out". */
  predicate Completes(x: Item, y: Item) {
    && x.Ev? && y.Ev? && y.event.kind == Substitution
    && y.event.gameSeconds == x.event.gameSeconds && y.event.team == x.event.team
    && ((Truthy(x.event.playerInId) && Truthy(y.event.playerOutId))
        || (Truthy(x.event.playerOutId) && Truthy(y.event.playerInId)))
  }

  /** The pair search from index `j` on: the first completing item, and,
      when `skipProcessed`, only among events not yet processed. As
      written the search does not skip processed events. */
  function PairFrom(items: seq<Item>, i: nat, j: nat, processed: set<string>, skipProcessed: bool): (r: Option<nat>)
    requires i < |items|
    ensures r.Some? ==> j <= r.value < |items| && Completes(items[i], items[r.value])
    ensures r.Some? && skipProcessed ==> items[r.value].event.id !in processed
    ensures r.None? <==> forall k :: j <= k < |items| ==>
              !(Completes(items[i], items[k]) && !(skipProcessed && items[k].event.id in processed))
    ensures r.Some? ==> forall k :: j <= k < r.value ==>
              !(Completes(items[i], items[k]) && !(skipProcessed && items[k].event.id in processed))
    decreases |items| - j
  {
    if j >= |items| then None
    else if Completes(items[i], items[j]) && !(skipProcessed && items[j].event.id in processed) then Some(j)
    else PairFrom(items, i, j + 1, processed, skipProcessed)
  }

  /** The rows item `i` adds and the processed ids after it. */
  function Step(g: Game, items: seq<Item>, i: nat, processed: set<string>, skipProcessed: bool)
    : (r: (seq<Row>, set<string>))
    requires i < |items|
    ensures processed <= r.1
  {
    match items[i]
    case FullTime(_) => ([FullTimeRow(g.homeScore, g.awayScore)], processed)
    case Ev(e) =>
      if e.id in processed then ([], processed)
      else
        var user := e.team == UserSide(g);
        var right := AlignRight(UserSide(g), e.team);
        var minute := FormatMinute(e.gameSeconds);
        if e.kind == Goal then
          var row := GoalRow(e.id, user, if user then e.scorerPlayerId else None,
                             if user && Truthy(e.assistPlayerId) then e.assistPlayerId else None,
                             GoalsUntil(g.events, Home, e.gameSeconds), GoalsUntil(g.events, Away, e.gameSeconds),
                             right, minute);
          ([row], processed + {e.id})
        else match PairFrom(items, i, i + 1, processed, skipProcessed)
          case Some(j) =>
            var p := items[j].event;
            var inEvent := if Truthy(e.playerInId) then e else p;
            var outEvent := if Truthy(e.playerOutId) then e else p;
            if user then
              ([PairRow(e.id, p.id, e.team, inEvent.playerInId, outEvent.playerOutId, right, minute)], processed + {e.id, p.id})
            else ([], processed + {e.id, p.id})
          case None =>
            if user then
              var isIn := Truthy(e.playerInId);
              ([SingleRow(e.id, e.team, isIn, if isIn then e.playerInId else e.playerOutId, right, minute)], processed + {e.id})
            else ([], processed + {e.id})
  }

  /** The rows of items `i..` given the ids processed so far. */
  function TimelineFrom(g: Game, items: seq<Item>, i: nat, processed: set<string>, skipProcessed: bool): seq<Row>
    requires i <= |items|
    decreases |items| - i
  {
    if i == |items| then []
    else
      var st := Step(g, items, i, processed, skipProcessed);
      st.0 + TimelineFrom(g, items, i + 1, st.1, skipProcessed)
  }

  /** `renderTimeline` as written. */
  function TimelineAsWritten(g: Game): seq<Row> {
    TimelineFrom(g, SortedEvents(g), 0, {}, false)
  }

  /** The timeline as evidently intended: the pair search skips processed
      events. */
  function Timeline(g: Game): seq<Row> {
    TimelineFrom(g, SortedEvents(g), 0, {}, true)
  }

  /** The pair search of the rendering loop: the first later item that
      completes item `i`, skipping processed events only when
      `skipProcessed` (as written it does not). */
  method FindPair(items: seq<Item>, i: nat, processed: set<string>, skipProcessed: bool) returns (r: Option<nat>)
    requires i < |items|
    ensures r == PairFrom(items, i, i + 1, processed, skipProcessed)
  {
    var j := i + 1;
    while j < |items|
      invariant i + 1 <= j <= |items| || (j == i + 1 && j > |items|)
      invariant PairFrom(items, i, i + 1, processed, skipProcessed) == PairFrom(items, i, j, processed, skipProcessed)
      decreases |items| - j
    {
      var y := items[j];
      if y.Ev? && Completes(items[i], y) && !(skipProcessed && y.event.id in processed) {
        return Some(j);
      }
      j := j + 1;
    }
    r := None;
  }

  /** One pass of the rendering loop's body: the rows item `i` adds and
      the processed ids after it. */
  method RenderItem(g: Game, items: seq<Item>, i: nat, processed: set<string>, skipProcessed: bool)
    returns (added: seq<Row>, after: set<string>)
    requires i < |items|
    ensures (added, after) == Step(g, items, i, processed, skipProcessed)
  {
    added, after := [], processed;
    match items[i]
    case FullTime(_) =>
      added := [FullTimeRow(g.homeScore, g.awayScore)];
    case Ev(e) =>
      if e.id !in processed {
        var user := e.team == UserSide(g);
        var right := AlignRight(UserSide(g), e.team);
        var minute := FormatMinute(e.gameSeconds);
        if e.kind == Goal {
          var home, away := ScoreAtTime(g.events, e.gameSeconds);
          added := [GoalRow(e.id, user, if user then e.scorerPlayerId else None,
                            if user && Truthy(e.assistPlayerId) then e.assistPlayerId else None,
                            home, away, right, minute)];
          after := processed + {e.id};
        } else {
          var pair := FindPair(items, i, processed, skipProcessed);
          if pair.Some? {
            var p := items[pair.value].event;
            var inEvent := if Truthy(e.playerInId) then e else p;
            var outEvent := if Truthy(e.playerOutId) then e else p;
            if user {
              added := [PairRow(e.id, p.id, e.team, inEvent.playerInId, outEvent.playerOutId, right, minute)];
            }
            after := processed + {e.id, p.id};
          } else {
            if user {
              var isIn := Truthy(e.playerInId);
              added := [SingleRow(e.id, e.team, isIn, if isIn then e.playerInId else e.playerOutId, right, minute)];
            }
            after := processed + {e.id};
          }
        }
      }
  }

  /** The rendering loop over a list of items: walks them in order,
      skipping processed events, and pushes the rows. */
  method RenderItems(g: Game, items: seq<Item>, skipProcessed: bool) returns (rows: seq<Row>)
    ensures rows == TimelineFrom(g, items, 0, {}, skipProcessed)
  {
    var processed: set<string> := {};
    rows := [];
    var i := 0;
    while i < |items|
      invariant 0 <= i <= |items|
      invariant rows + TimelineFrom(g, items, i, processed, skipProcessed) == TimelineFrom(g, items, 0, {}, skipProcessed)
    {
      var added, after := RenderItem(g, items, i, processed, skipProcessed);
      RenderStep(g, items, i, processed, skipProcessed, rows, added, after);
      rows, processed := rows + added, after;
      i := i + 1;
    }
  }

  /** The rendering loop's invariant survives one pass. */
  lemma RenderStep(g: Game, items: seq<Item>, i: nat, processed: set<string>, skip: bool,
                   rows: seq<Row>, added: seq<Row>, after: set<string>)
    requires i < |items|
    requires rows + TimelineFrom(g, items, i, processed, skip) == TimelineFrom(g, items, 0, {}, skip)
    requires (added, after) == Step(g, items, i, processed, skip)
    ensures (rows + added) + TimelineFrom(g, items, i + 1, after, skip) == TimelineFrom(g, items, 0, {}, skip)
  {
    var rest := TimelineFrom(g, items, i + 1, after, skip);
    TimelineFromStep(g, items, i, processed, skip, added, after, rest);
    assert rows + (added + rest) == (rows + added) + rest;
  }

  /** `renderTimeline` as written: the rendering loop over the sorted
      items, with a pair search that does not skip processed events. */
  method RenderTimeline(g: Game) returns (rows: seq<Row>)
    ensures rows == TimelineAsWritten(g)
  {
    var items := SortedEvents(g);
    rows := RenderItems(g, items, false);
    TimelinesFromSorted(g, items);
  }

  /** The rendering loop with the corrected pair search. */
  method RenderCorrectedTimeline(g: Game) returns (rows: seq<Row>)
    ensures rows == Timeline(g)
  {
    var items := SortedEvents(g);
    rows := RenderItems(g, items, true);
    TimelinesFromSorted(g, items);
  }

  // ---------------------------------------------------------------------
  // Timeline properties

  /** No two events of the item list share an id. */
  predicate ItemIdsDistinct(items: seq<Item>) {
    forall i, j :: 0 <= i < j < |items| && items[i].Ev? && items[j].Ev? ==> items[i].event.id != items[j].event.id
  }

  predicate NoDuplicates(s: seq<string>) {
    forall i, j :: 0 <= i < j < |s| ==> s[i] != s[j]
  }

  lemma {:induction false} TwoIndicesCount<T>(s: seq<T>, i: nat, j: nat)
    requires i < j < |s| && s[i] == s[j]
    ensures multiset(s)[s[i]] >= 2
  {
    assert s == s[..j] + [s[j]] + s[j + 1..];
    assert s[i] in s[..j];
  }

  lemma {:induction false} CountTwoIndices<T>(s: seq<T>, x: T)
    requires multiset(s)[x] >= 2
    ensures exists i, j :: 0 <= i < j < |s| && s[i] == x && s[j] == x
  {
    var i :| 0 <= i < |s| && s[i] == x;
    assert s == s[..i] + [s[i]] + s[i + 1..];
    if x in s[i + 1..] {
      var k :| 0 <= k < |s[i + 1..]| && s[i + 1..][k] == x;
      assert s[i + 1 + k] == x;
    } else {
      assert multiset(s[..i])[x] >= 1;
      var k :| 0 <= k < i && s[..i][k] == x;
      assert s[k] == x;
    }
  }

  /** Sorting keeps the events' ids distinct. */
  lemma SortedIdsDistinct(g: Game)
    requires DistinctEventIds(g.events)
    ensures ItemIdsDistinct(SortedEvents(g))
  {
    var r := SortedEvents(g);
    forall i, j | 0 <= i < j < |r| && r[i].Ev? && r[j].Ev?
      ensures r[i].event.id != r[j].event.id
    {
      var a, b := r[i].event, r[j].event;
      assert r[i] in multiset(r) && r[j] in multiset(r);
      OneMarker(g);
      if a == b {
        TwoIndicesCount(r, i, j);
        CountTwoIndices(g.events, a);
      } else {
        assert a in multiset(g.events) && b in multiset(g.events);
        var ka :| 0 <= ka < |g.events| && g.events[ka] == a;
        var kb :| 0 <= kb < |g.events| && g.events[kb] == b;
        assert ka != kb;
      }
    }
  }

  lemma AllIdsCons(row: Row, rest: seq<Row>)
    ensures AllIds([row] + rest) == RowIds(row) + AllIds(rest)
  {
    assert ([row] + rest)[1..] == rest;
  }

  /** A step stands for ids that were not processed before and that it
      marks processed, each once, when the pair search skips processed
      events. */
  lemma StepIds(g: Game, items: seq<Item>, i: nat, processed: set<string>)
    requires i < |items| && ItemIdsDistinct(items)
    ensures var st := Step(g, items, i, processed, true);
      && |st.0| <= 1
      && NoDuplicates(AllIds(st.0))
      && forall x :: x in AllIds(st.0) ==> x !in processed && x in st.1
  {
    var st := Step(g, items, i, processed, true);
    if |st.0| == 1 {
      AllIdsCons(st.0[0], []);
      assert st.0 == [st.0[0]] + [];
    }
  }

  lemma {:induction false} AllIdsAppend(a: seq<Row>, b: seq<Row>)
    ensures AllIds(a + b) == AllIds(a) + AllIds(b)
  {
    if |a| > 0 {
      AllIdsAppend(a[1..], b);
      assert (a + b)[0] == a[0];
      assert (a + b)[1..] == a[1..] + b;
    } else {
      assert a + b == b;
    }
  }

  /** Joining a step's rows to the rows after it keeps ids unique when the
      step's ids are new and the later ones are not among those processed
      after the step. */
  lemma JoinIds(a: seq<Row>, b: seq<Row>, before: set<string>, after: set<string>)
    requires NoDuplicates(AllIds(a)) && NoDuplicates(AllIds(b))
    requires forall x :: x in AllIds(a) ==> x !in before && x in after
    requires forall x :: x in AllIds(b) ==> x !in after
    requires before <= after
    ensures NoDuplicates(AllIds(a + b))
    ensures forall x :: x in AllIds(a + b) ==> x !in before
  {
    AllIdsAppend(a, b);
    var u, v := AllIds(a), AllIds(b);
    forall p, q | 0 <= p < q < |u + v| ensures (u + v)[p] != (u + v)[q] {
      if q < |u| {
      } else if p < |u| {
        assert (u + v)[p] in u && (u + v)[q] == v[q - |u|];
      } else {
        assert (u + v)[p] == v[p - |u|] && (u + v)[q] == v[q - |u|];
      }
    }
  }

  /** The corrected timeline from item `i` shows each id at most once and no
      id already processed. */
  predicate IdsOnceFrom(g: Game, items: seq<Item>, i: nat, processed: set<string>)
    requires i <= |items|
  {
    var rows := TimelineFrom(g, items, i, processed, true);
    NoDuplicates(AllIds(rows)) && forall x :: x in AllIds(rows) ==> x !in processed
  }

  /** In the corrected timeline every event id appears in at most one row,
      and none that was processed before. */
  lemma {:induction false} TimelineFromIdsOnce(g: Game, items: seq<Item>, i: nat)
    requires i <= |items| && ItemIdsDistinct(items)
    ensures forall processed :: IdsOnceFrom(g, items, i, processed)
    decreases |items| - i
  {
    if i < |items| {
      TimelineFromIdsOnce(g, items, i + 1);
      forall processed ensures IdsOnceFrom(g, items, i, processed) {
        IdsOnceStep(g, items, i, processed);
      }
    }
  }

  /** The inductive step of `TimelineFromIdsOnce`. */
  lemma IdsOnceStep(g: Game, items: seq<Item>, i: nat, processed: set<string>)
    requires i < |items| && ItemIdsDistinct(items)
    requires IdsOnceFrom(g, items, i + 1, Step(g, items, i, processed, true).1)
    ensures IdsOnceFrom(g, items, i, processed)
  {
    var st := Step(g, items, i, processed, true);
    var rest := TimelineFrom(g, items, i + 1, st.1, true);
    assert TimelineFrom(g, items, i, processed, true) == st.0 + rest;
    StepIds(g, items, i, processed);
    JoinIds(st.0, rest, processed, st.1);
  }

  /** Each event of a game with distinct event ids is shown in at most one
      row of the corrected timeline. */
  lemma TimelineShowsEachEventOnce(g: Game)
    requires DistinctEventIds(g.events)
    ensures NoDuplicates(AllIds(Timeline(g)))
  {
    SortedIdsDistinct(g);
    TimelineFromIdsOnce(g, SortedEvents(g), 0);
    assert IdsOnceFrom(g, SortedEvents(g), 0, {});
  }

  /** Opponent substitutions are never shown: every substitution row, as
      written or corrected, is of the user's team. */
  lemma {:induction false} OnlyUserSubstitutionsShown(g: Game, items: seq<Item>, i: nat, processed: set<string>, skip: bool)
    requires i <= |items|
    ensures forall row :: row in TimelineFrom(g, items, i, processed, skip) && (row.PairRow? || row.SingleRow?)
              ==> row.team == UserSide(g)
    decreases |items| - i
  {
    if i < |items| {
      var st := Step(g, items, i, processed, skip);
      OnlyUserSubstitutionsShown(g, items, i + 1, st.1, skip);
    }
  }

  /** Every row right-aligns exactly the away team's events. */
  lemma {:induction false} AwayEventsAlignRight(g: Game, items: seq<Item>, i: nat, processed: set<string>, skip: bool)
    requires i <= |items|
    ensures forall row :: row in TimelineFrom(g, items, i, processed, skip) && (row.PairRow? || row.SingleRow?)
              ==> row.alignRight == (row.team == Away)
    decreases |items| - i
  {
    if i < |items| {
      var st := Step(g, items, i, processed, skip);
      AwayEventsAlignRight(g, items, i + 1, st.1, skip);
    }
  }

  // The counterexample: four substitutions of the user's team in one game
  // second, stored as out a, out b, in x, in y with increasing stamps. Four
  // drags in that order give it. A confirmed two-swap plan moves out a,
  // in x, out b, in y and stamps each move when it starts, so it gives
  // this order only when in x and out b share a millisecond and the tie
  // falls that way.

  const OutA := GameEvent("e1", Substitution, Home, None, None, None, Some("a"), 1, 600)
  const OutB := GameEvent("e2", Substitution, Home, None, None, None, Some("b"), 2, 600)
  const InX := GameEvent("e3", Substitution, Home, None, None, Some("x"), None, 3, 600)
  const InY := GameEvent("e4", Substitution, Home, None, None, Some("y"), None, 4, 600)
  const TwoSwaps := Game("g", "Rivals", 0, None, Home, "", "", 0, 0, Stopped, None, 1200, false, [],
                         [OutA, OutB, InX, InY])
  const TwoSwapItems := [Ev(OutA), Ev(OutB), Ev(InX), Ev(InY), FullTime(1200)]

  lemma TwoSwapsSorted()
    ensures SortedEvents(TwoSwaps) == TwoSwapItems
  {
    var items := TwoSwapItems;
    assert Wrap(TwoSwaps.events) + [FullTime(1200)] == items;
    assert SortedBy(items, ItemBefore);
    SortByKeepsSorted(items, ItemBefore);
  }

  const SubMinute := FormatMinute(600)
  const PairAX := PairRow("e1", "e3", Home, Some("x"), Some("a"), false, SubMinute)
  const PairBX := PairRow("e2", "e3", Home, Some("x"), Some("b"), false, SubMinute)
  const PairBY := PairRow("e2", "e4", Home, Some("y"), Some("b"), false, SubMinute)
  const AloneY := SingleRow("e4", Home, true, Some("y"), false, SubMinute)

  // One lemma per loop step of the counterexample.

  lemma TwoSwapsFirst(skip: bool)
    ensures Step(TwoSwaps, TwoSwapItems, 0, {}, skip) == ([PairAX], {"e1", "e3"})
  {
    var items := TwoSwapItems;
    assert items[0] == Ev(OutA);
    assert PairFrom(items, 0, 1, {}, skip) == Some(2);
    assert !Truthy(OutA.playerInId) && Truthy(OutA.playerOutId);
    var st := Step(TwoSwaps, items, 0, {}, skip);
    assert st.0 == [PairRow("e1", InX.id, Home, InX.playerInId, OutA.playerOutId, false, SubMinute)];
    assert st.1 == {} + {"e1", "e3"};
    assert st.0 == [PairAX];
    assert st.1 == {"e1", "e3"};
  }

  lemma TwoSwapsSecondAsWritten()
    ensures Step(TwoSwaps, TwoSwapItems, 1, {"e1", "e3"}, false) == ([PairBX], {"e1", "e2", "e3"})
  {
    var items := TwoSwapItems;
    var p := {"e1", "e3"};
    assert items[1] == Ev(OutB) && "e2" !in p;
    assert PairFrom(items, 1, 2, p, false) == Some(2);
    assert !Truthy(OutB.playerInId) && Truthy(OutB.playerOutId);
    var st := Step(TwoSwaps, items, 1, p, false);
    assert st.0 == [PairRow("e2", InX.id, Home, InX.playerInId, OutB.playerOutId, false, SubMinute)];
    assert st.1 == p + {"e2", "e3"};
    assert st.0 == [PairBX];
    assert st.1 == {"e1", "e2", "e3"};
  }

  lemma TwoSwapsSecond()
    ensures Step(TwoSwaps, TwoSwapItems, 1, {"e1", "e3"}, true) == ([PairBY], {"e1", "e2", "e3", "e4"})
  {
    var items := TwoSwapItems;
    var p := {"e1", "e3"};
    assert items[1] == Ev(OutB) && "e2" !in p;
    assert "e3" in p && "e4" !in p;
    assert PairFrom(items, 1, 3, p, true) == Some(3);
    assert PairFrom(items, 1, 2, p, true) == Some(3);
    assert !Truthy(OutB.playerInId) && Truthy(OutB.playerOutId);
    var st := Step(TwoSwaps, items, 1, p, true);
    assert st.0 == [PairRow("e2", InY.id, Home, InY.playerInId, OutB.playerOutId, false, SubMinute)];
    assert st.1 == p + {"e2", "e4"};
    assert st.0 == [PairBY];
    assert st.1 == {"e1", "e2", "e3", "e4"};
  }

  lemma TwoSwapsProcessed(i: nat, p: set<string>, skip: bool)
    requires 0 <= i < 4 && TwoSwapItems[i].event.id in p
    ensures Step(TwoSwaps, TwoSwapItems, i, p, skip) == ([], p)
  {
  }

  lemma TwoSwapsFourthAsWritten()
    ensures Step(TwoSwaps, TwoSwapItems, 3, {"e1", "e2", "e3"}, false) == ([AloneY], {"e1", "e2", "e3", "e4"})
  {
    var items := TwoSwapItems;
    var p := {"e1", "e2", "e3"};
    assert items[3] == Ev(InY) && "e4" !in p;
    assert PairFrom(items, 3, 5, p, false) == None;
    assert PairFrom(items, 3, 4, p, false) == None;
    assert Truthy(InY.playerInId);
    var st := Step(TwoSwaps, items, 3, p, false);
    assert st.0 == [SingleRow("e4", Home, true, InY.playerInId, false, SubMinute)];
    assert st.1 == p + {"e4"};
    assert st.0 == [AloneY];
    assert st.1 == {"e1", "e2", "e3", "e4"};
  }

  /** The rows from item `i` on, for the processed set the loop has then. */
  lemma TwoSwapsRest(skip: bool, p: set<string>)
    ensures TimelineFrom(TwoSwaps, TwoSwapItems, 4, p, skip) == [FullTimeRow(0, 0)]
  {
    assert TimelineFrom(TwoSwaps, TwoSwapItems, 5, p, skip) == [];
  }

  /** One unfolding of the timeline loop. */
  lemma TimelineFromStep(g: Game, items: seq<Item>, i: nat, p: set<string>, skip: bool,
                         rows: seq<Row>, after: set<string>, rest: seq<Row>)
    requires i < |items|
    requires Step(g, items, i, p, skip) == (rows, after)
    requires TimelineFrom(g, items, i + 1, after, skip) == rest
    ensures TimelineFrom(g, items, i, p, skip) == rows + rest
  {
  }

  lemma TwoSwapsDistinct()
    ensures DistinctEventIds(TwoSwaps.events)
  {
    var ev := TwoSwaps.events;
    assert ev[0].id == "e1" && ev[1].id == "e2" && ev[2].id == "e3" && ev[3].id == "e4";
    assert |ev| == 4;
  }

  /** As written, the second "out" pairs with the already paired "in" of
      x, so x's event is shown twice and y's "in" stands alone. */
  lemma TimelineAsWrittenShowsEventTwice(g: Game)
    requires g == TwoSwaps
    ensures TimelineAsWritten(g) == [PairAX, PairBX, AloneY, FullTimeRow(0, 0)]
    ensures !NoDuplicates(AllIds(TimelineAsWritten(g)))
  {
    TimelineAsWrittenTwoSwaps(g);
    LeadingPairsShareId(TimelineAsWritten(g));
  }

  /** Both timelines walk the sorted items from the start. */
  lemma TimelinesFromSorted(g: Game, items: seq<Item>)
    requires SortedEvents(g) == items
    ensures TimelineAsWritten(g) == TimelineFrom(g, items, 0, {}, false)
    ensures Timeline(g) == TimelineFrom(g, items, 0, {}, true)
  {
  }

  lemma TimelineAsWrittenTwoSwaps(g: Game)
    requires g == TwoSwaps
    ensures TimelineAsWritten(g) == [PairAX, PairBX, AloneY, FullTimeRow(0, 0)]
  {
    TwoSwapsAsWrittenFromStart(g);
    TwoSwapsSorted();
    TimelinesFromSorted(g, TwoSwapItems);
  }

  lemma TwoSwapsAsWrittenFromStart(g: Game)
    requires g == TwoSwaps
    ensures TimelineFrom(g, TwoSwapItems, 0, {}, false) == [PairAX, PairBX, AloneY, FullTimeRow(0, 0)]
  {
    var items := TwoSwapItems;
    var rest := [PairBX, AloneY, FullTimeRow(0, 0)];
    TwoSwapsAsWrittenFromSecond(g);
    TwoSwapsFirst(false);
    TimelineFromStep(g, items, 0, {}, false, [PairAX], {"e1", "e3"}, rest);
    assert [PairAX] + rest == [PairAX, PairBX, AloneY, FullTimeRow(0, 0)];
  }

  lemma TwoSwapsAsWrittenFromSecond(g: Game)
    requires g == TwoSwaps
    ensures TimelineFrom(g, TwoSwapItems, 1, {"e1", "e3"}, false) == [PairBX, AloneY, FullTimeRow(0, 0)]
  {
    var items := TwoSwapItems;
    var p3 := {"e1", "e2", "e3"};
    var p4 := {"e1", "e2", "e3", "e4"};
    var ft := [FullTimeRow(0, 0)];
    TwoSwapsRest(false, p4);
    TwoSwapsFourthAsWritten();
    TimelineFromStep(g, items, 3, p3, false, [AloneY], p4, ft);
    TwoSwapsProcessed(2, p3, false);
    TimelineFromStep(g, items, 2, p3, false, [], p3, [AloneY] + ft);
    TwoSwapsSecondAsWritten();
    TimelineFromStep(g, items, 1, {"e1", "e3"}, false, [PairBX], p3, [] + ([AloneY] + ft));
    assert [PairBX] + ([] + ([AloneY] + ft)) == [PairBX, AloneY, FullTimeRow(0, 0)];
  }

  /** Two leading pair rows with the same second event repeat its id. */
  lemma LeadingPairsShareId(rows: seq<Row>)
    requires |rows| >= 2 && rows[0].PairRow? && rows[1].PairRow? && rows[0].second == rows[1].second
    ensures !NoDuplicates(AllIds(rows))
  {
    AllIdsCons(rows[0], rows[1..]);
    assert rows == [rows[0]] + rows[1..];
    assert rows[1..] == [rows[1]] + rows[2..];
    AllIdsCons(rows[1], rows[2..]);
    assert AllIds(rows)[1] == rows[0].second && AllIds(rows)[3] == rows[1].second;
  }

  lemma TwoSwapsFromSecond(g: Game)
    requires g == TwoSwaps
    ensures TimelineFrom(g, TwoSwapItems, 1, {"e1", "e3"}, true) == [PairBY, FullTimeRow(0, 0)]
  {
    var items := TwoSwapItems;
    var p := {"e1", "e2", "e3", "e4"};
    var ft := [FullTimeRow(0, 0)];
    TwoSwapsRest(true, p);
    TwoSwapsProcessed(3, p, true);
    TimelineFromStep(g, items, 3, p, true, [], p, ft);
    TwoSwapsProcessed(2, p, true);
    TimelineFromStep(g, items, 2, p, true, [], p, [] + ft);
    TwoSwapsSecond();
    TimelineFromStep(g, items, 1, {"e1", "e3"}, true, [PairBY], p, [] + ([] + ft));
    assert [PairBY] + ([] + ([] + ft)) == [PairBY, FullTimeRow(0, 0)];
  }

  lemma TimelineTwoSwaps(g: Game)
    requires g == TwoSwaps
    ensures Timeline(g) == [PairAX, PairBY, FullTimeRow(0, 0)]
  {
    TwoSwapsFromStart(g);
    TwoSwapsSorted();
    TimelinesFromSorted(g, TwoSwapItems);
  }

  lemma TwoSwapsFromStart(g: Game)
    requires g == TwoSwaps
    ensures TimelineFrom(g, TwoSwapItems, 0, {}, true) == [PairAX, PairBY, FullTimeRow(0, 0)]
  {
    var items := TwoSwapItems;
    var rest := [PairBY, FullTimeRow(0, 0)];
    TwoSwapsFromSecond(g);
    TwoSwapsFirst(true);
    TimelineFromStep(g, items, 0, {}, true, [PairAX], {"e1", "e3"}, rest);
    assert [PairAX] + rest == [PairAX, PairBY, FullTimeRow(0, 0)];
  }

  /** Corrected, the second "out" pairs with y's "in", and every event is
      shown once. */
  lemma TimelinePairsTwoSwaps(g: Game)
    requires g == TwoSwaps
    ensures Timeline(g) == [PairAX, PairBY, FullTimeRow(0, 0)]
    ensures NoDuplicates(AllIds(Timeline(g)))
  {
    TimelineTwoSwaps(g);
    TwoSwapsDistinct();
    TimelineShowsEachEventOnce(g);
  }
}
