/** The rules of the live game page: the clock read-out, the local lineup
    reconciled against the roster, the lineup partition and the per-player
    goal tallies it renders, the confirmation asked before editing a
    finished game, the timer and score controls, and the planned
    substitutions. */
module GameRules {
  import opened Domain
  import opened Sorting
  import opened Errors
  import opened Clock
  import opened Roster
  import opened Store

  // ---------------------------------------------------------------------
  // Clock read-out ("mm:ss")

  function DigitChar(d: nat): (c: char)
    requires d < 10
    ensures '0' <= c <= '9'
  {
    ('0' as int + d) as char
  }

  function DigitValue(c: char): int {
    c as int - '0' as int
  }

  /** `String(n)` for a natural number. */
  function Decimal(n: nat): (r: string)
    ensures |r| >= 1
    ensures forall i :: 0 <= i < |r| ==> '0' <= r[i] <= '9'
    ensures |r| > 1 ==> r[0] != '0'
    decreases n
  {
    if n < 10 then [DigitChar(n)] else Decimal(n / 10) + [DigitChar(n % 10)]
  }

  /** The number a string of decimal digits denotes. */
  function DecimalValue(s: string): int {
    if |s| == 0 then 0 else DecimalValue(s[..|s| - 1]) * 10 + DigitValue(s[|s| - 1])
  }

  lemma {:induction false} DecimalRoundTrip(n: nat)
    ensures DecimalValue(Decimal(n)) == n
    decreases n
  {
    if n >= 10 {
      DecimalRoundTrip(n / 10);
      var s := Decimal(n);
      assert s[..|s| - 1] == Decimal(n / 10);
    }
  }

  lemma {:induction false} LeadingZeroValue(s: string)
    ensures DecimalValue(['0'] + s) == DecimalValue(s)
  {
    if |s| > 0 {
      assert (['0'] + s)[..|s|] == ['0'] + s[..|s| - 1];
      LeadingZeroValue(s[..|s| - 1]);
    }
  }

  /** `padStart(2, '0')`. */
  function PadStart2(s: string): (r: string)
    ensures |s| >= 2 ==> r == s
    ensures |s| < 2 ==> |r| == 2
    ensures DecimalValue(r) == DecimalValue(s)
    decreases 2 - |s|
  {
    if |s| >= 2 then s
    else
      LeadingZeroValue(s);
      PadStart2(['0'] + s)
  }

  /** A two-digit (or longer) field of the read-out and its value. */
  function Field2(n: nat): (r: string)
    ensures |r| >= 2
    ensures n < 100 ==> |r| == 2
    ensures DecimalValue(r) == n
  {
    DecimalRoundTrip(n);
    PadStart2(Decimal(n))
  }

  /** Reads a read-out back: the minutes before the colon, the two seconds
      digits after it. */
  function ReadClock(s: string): int
    requires |s| >= 3
  {
    DecimalValue(s[..|s| - 3]) * 60 + DecimalValue(s[|s| - 2..])
  }

  /** `formatTimer` as written, for a display time of `ms` milliseconds
      (the page passes elapsed seconds plus the running interval divided
      by 1000): whole minutes, then the remainder seconds rounded on their
      own. */
  function FormatTimerAsWritten(ms: nat): (r: string)
    ensures |r| >= 5 && r[|r| - 3] == ':'
  {
    Field2(ms / 60000) + ":" + Field2(RoundSeconds(ms % 60000))
  }

  /** The read-out as evidently intended: the time is rounded to whole
      seconds first and only then split into minutes and seconds. */
  function FormatTimer(ms: nat): (r: string)
    ensures |r| >= 5 && r[|r| - 3] == ':'
  {
    var t := RoundSeconds(ms);
    Field2(t / 60) + ":" + Field2(t % 60)
  }

  /** A read-out with a two-digit seconds field reads back as minutes
      times sixty plus seconds. */
  lemma ReadClockOf(m: string, sec: string)
    requires |sec| == 2
    ensures ReadClock(m + ":" + sec) == DecimalValue(m) * 60 + DecimalValue(sec)
  {
    var r := m + ":" + sec;
    assert r[..|r| - 3] == m;
    assert r[|r| - 2..] == sec;
  }

  /** The seconds field of the intended read-out is below 60 and the
      read-out denotes the rounded time. */
  lemma FormatTimerRoundTrip(ms: nat)
    ensures DecimalValue(FormatTimer(ms)[|FormatTimer(ms)| - 2..]) < 60
    ensures ReadClock(FormatTimer(ms)) == RoundSeconds(ms)
  {
    var t := RoundSeconds(ms);
    var m, sec := Field2(t / 60), Field2(t % 60);
    ReadClockOf(m, sec);
    var r := m + ":" + sec;
    assert r[|r| - 2..] == sec;
  }

  /** As written, the seconds field reads 60 once the remainder reaches
      59.5 seconds: 59.5 seconds show as "00:60". */
  lemma FormatTimerAsWrittenShowsSixty(ms: nat)
    requires ms == 59500
    ensures FormatTimerAsWritten(ms) == "00:60"
    ensures FormatTimer(ms) == "01:00"
  {
    assert ms / 60000 == 0 && ms % 60000 == ms;
    assert RoundSeconds(ms) == 60;
    Field2Values();
    var z, one, sixty := Field2(0), Field2(1), Field2(60);
    assert FormatTimerAsWritten(ms) == z + ":" + sixty;
    assert FormatTimer(ms) == one + ":" + z;
    assert z + ":" + sixty == "00:60";
    assert one + ":" + z == "01:00";
  }

  lemma Field2Values()
    ensures Field2(0) == "00" && Field2(1) == "01" && Field2(60) == "60"
  {
    assert Decimal(0) == "0";
    assert Decimal(6) == "6";
    assert Decimal(60) == "60";
    assert Decimal(1) == "1";
  }

  /** On whole seconds the two read-outs agree. */
  lemma FormatTimerAgreesOnWholeSeconds(t: nat)
    ensures FormatTimerAsWritten(1000 * t) == FormatTimer(1000 * t)
  {
    var q, s := t / 60, t % 60;
    assert 1000 * t == 60000 * q + 1000 * s;
    assert (1000 * t) / 60000 == q;
    assert (1000 * t) % 60000 == 1000 * s;
    assert RoundSeconds(1000 * s) == s;
    assert RoundSeconds(1000 * t) == t;
  }

  // ---------------------------------------------------------------------
  // Lineup reconciliation

  /** The lineup the page starts from: the stored one when there is one
      (an empty array counts as present), bench defaults otherwise. */
  function InitialLineup(stored: Option<seq<LineupEntry>>, players: seq<Player>): (r: seq<LineupEntry>)
    ensures stored.None? ==> r == CreateDefaultLineup(players)
    ensures stored.Some? ==> r == stored.value
  {
    if stored.Some? then stored.value else CreateDefaultLineup(players)
  }

  /** The stored entries of roster players, in their order. */
  function KeptEntries(initial: seq<LineupEntry>, players: seq<Player>): (r: seq<LineupEntry>)
    ensures forall e :: e in r <==> e in initial && e.id in RosterIds(players)
  {
    Filter(initial, (e: LineupEntry) => e.id in RosterIds(players))
  }

  /** The roster players the stored lineup does not mention, in roster
      order. */
  function MissingPlayers(initial: seq<LineupEntry>, players: seq<Player>): (r: seq<Player>)
    ensures forall p :: p in r <==> p in players && p.id !in LineupIds(initial)
  {
    Filter(players, (p: Player) => p.id !in LineupIds(initial))
  }

  lemma KeptAll(initial: seq<LineupEntry>, players: seq<Player>)
    requires forall k :: 0 <= k < |initial| ==> initial[k].id in RosterIds(players)
    ensures KeptEntries(initial, players) == initial
  {
    FilterAll(initial, (e: LineupEntry) => e.id in RosterIds(players));
  }

  lemma MissingNone(initial: seq<LineupEntry>, players: seq<Player>)
    requires forall k :: 0 <= k < |players| ==> players[k].id in LineupIds(initial)
    ensures MissingPlayers(initial, players) == []
  {
    FilterNone(players, (p: Player) => p.id !in LineupIds(initial));
  }

  lemma MissingAll(players: seq<Player>)
    ensures MissingPlayers([], players) == players
  {
    FilterAll(players, (p: Player) => p.id !in LineupIds([]));
  }

  lemma KeptIds(initial: seq<LineupEntry>, players: seq<Player>)
    ensures LineupIds(KeptEntries(initial, players)) == LineupIds(initial) * RosterIds(players)
  {
    var kept := KeptEntries(initial, players);
    forall id | id in LineupIds(initial) * RosterIds(players) ensures id in LineupIds(kept) {
      var k :| 0 <= k < |initial| && initial[k].id == id;
      assert initial[k] in kept;
    }
    forall id | id in LineupIds(kept) ensures id in LineupIds(initial) * RosterIds(players) {
      var k :| 0 <= k < |kept| && kept[k].id == id;
      assert kept[k] in initial;
    }
  }

  lemma MissingIds(initial: seq<LineupEntry>, players: seq<Player>)
    ensures RosterIds(MissingPlayers(initial, players)) == RosterIds(players) - LineupIds(initial)
  {
    var missing := MissingPlayers(initial, players);
    forall id | id in RosterIds(players) - LineupIds(initial) ensures id in RosterIds(missing) {
      var k :| 0 <= k < |players| && players[k].id == id;
      assert players[k] in missing;
    }
    forall id | id in RosterIds(missing) ensures id in RosterIds(players) - LineupIds(initial) {
      var k :| 0 <= k < |missing| && missing[k].id == id;
      assert missing[k] in players;
    }
  }

  /** The entries added for missing players are bench defaults of ids the
      stored lineup does not mention. */
  lemma AddedAreDefaults(initial: seq<LineupEntry>, players: seq<Player>)
    ensures forall e :: e in CreateDefaultLineup(MissingPlayers(initial, players))
              ==> e == DefaultEntry(e.id) && e.id !in LineupIds(initial)
  {
    var added := CreateDefaultLineup(MissingPlayers(initial, players));
    forall e | e in added ensures e == DefaultEntry(e.id) && e.id !in LineupIds(initial) {
      var k :| 0 <= k < |added| && added[k] == e;
      assert MissingPlayers(initial, players)[k] in MissingPlayers(initial, players);
    }
  }

  /** The reconciled lineup: the stored entries of roster players, in their
      order, then a bench-default entry for every roster player the lineup
      does not mention, in roster order. */
  function Reconcile(stored: Option<seq<LineupEntry>>, players: seq<Player>): (r: seq<LineupEntry>)
    ensures LineupIds(r) == RosterIds(players)
    ensures forall e :: e in r && e.id in LineupIds(InitialLineup(stored, players)) ==> e in InitialLineup(stored, players)
    ensures forall e :: e in r && e.id !in LineupIds(InitialLineup(stored, players)) ==> e == DefaultEntry(e.id)
  {
    var initial := InitialLineup(stored, players);
    var kept := KeptEntries(initial, players);
    var added := CreateDefaultLineup(MissingPlayers(initial, players));
    KeptIds(initial, players);
    MissingIds(initial, players);
    LineupIdsAppend(kept, added);
    AddedAreDefaults(initial, players);
    kept + added
  }

  /** The reconciliation effect fires when the local lineup is empty or its
      length differs from the roster's. */
  predicate NeedsReconcile(local: seq<LineupEntry>, players: seq<Player>) {
    |local| == 0 || |local| != |players|
  }

  /** A null stored lineup and an empty one reconcile alike: one bench
      default per roster player, in roster order. */
  lemma ReconcileNullLikeEmpty(players: seq<Player>)
    ensures Reconcile(None, players) == CreateDefaultLineup(players)
    ensures Reconcile(Some([]), players) == CreateDefaultLineup(players)
  {
    var d := CreateDefaultLineup(players);
    KeptAll(d, players);
    MissingNone(d, players);
    MissingAll(players);
  }

  /** Reconciling a reconciled lineup changes nothing. */
  lemma ReconcileIdempotent(stored: Option<seq<LineupEntry>>, players: seq<Player>)
    ensures Reconcile(Some(Reconcile(stored, players)), players) == Reconcile(stored, players)
  {
    var r := Reconcile(stored, players);
    KeptAll(r, players);
    MissingNone(r, players);
  }

  predicate DistinctEntryIds(l: seq<LineupEntry>) {
    forall i, j :: 0 <= i < j < |l| ==> l[i].id != l[j].id
  }

  predicate DistinctPlayerIds(players: seq<Player>) {
    forall i, j :: 0 <= i < j < |players| ==> players[i].id != players[j].id
  }

  lemma {:induction false} DistinctEntryCount(l: seq<LineupEntry>)
    requires DistinctEntryIds(l)
    ensures |LineupIds(l)| == |l|
  {
    if |l| > 0 {
      DistinctEntryCount(l[1..]);
      assert LineupIds(l) == {l[0].id} + LineupIds(l[1..]);
      assert l[0].id !in LineupIds(l[1..]);
    }
  }

  lemma {:induction false} DistinctPlayerCount(players: seq<Player>)
    requires DistinctPlayerIds(players)
    ensures |RosterIds(players)| == |players|
  {
    if |players| > 0 {
      DistinctPlayerCount(players[1..]);
      assert RosterIds(players) == {players[0].id} + RosterIds(players[1..]);
      assert players[0].id !in RosterIds(players[1..]);
    }
  }

  lemma {:induction false} FilterDistinctEntries(l: seq<LineupEntry>, keep: LineupEntry -> bool)
    requires DistinctEntryIds(l)
    ensures DistinctEntryIds(Filter(l, keep))
  {
    if |l| > 0 {
      FilterDistinctEntries(l[1..], keep);
      var rest := Filter(l[1..], keep);
      if keep(l[0]) {
        forall j | 0 <= j < |rest| ensures rest[j].id != l[0].id {
          assert rest[j] in l[1..];
        }
      }
    }
  }

  lemma {:induction false} FilterDistinctPlayers(players: seq<Player>, keep: Player -> bool)
    requires DistinctPlayerIds(players)
    ensures DistinctPlayerIds(Filter(players, keep))
  {
    if |players| > 0 {
      FilterDistinctPlayers(players[1..], keep);
      var rest := Filter(players[1..], keep);
      if keep(players[0]) {
        forall j | 0 <= j < |rest| ensures rest[j].id != players[0].id {
          assert rest[j] in players[1..];
        }
      }
    }
  }

  lemma CardSplit<T>(a: set<T>, b: set<T>)
    ensures |a * b| + |b - a| == |b|
  {
    assert b == (a * b) + (b - a);
    assert (a * b) * (b - a) == {};
  }

  /** With a non-empty roster of distinct ids and a stored lineup of
      distinct ids, the reconciled lineup has one entry per roster player,
      so the effect does not fire again. */
  lemma ReconcileSettles(stored: Option<seq<LineupEntry>>, players: seq<Player>)
    requires |players| > 0 && DistinctPlayerIds(players)
    requires stored.Some? ==> DistinctEntryIds(stored.value)
    ensures |Reconcile(stored, players)| == |players|
    ensures !NeedsReconcile(Reconcile(stored, players), players)
  {
    if stored.None? {
      ReconcileNullLikeEmpty(players);
    } else {
      var initial := stored.value;
      var kept := KeptEntries(initial, players);
      var missing := MissingPlayers(initial, players);
      assert Reconcile(stored, players) == kept + CreateDefaultLineup(missing);
      FilterDistinctEntries(initial, (e: LineupEntry) => e.id in RosterIds(players));
      DistinctEntryCount(kept);
      KeptIds(initial, players);
      assert |kept| == |LineupIds(initial) * RosterIds(players)|;
      FilterDistinctPlayers(players, (p: Player) => p.id !in LineupIds(initial));
      DistinctPlayerCount(missing);
      MissingIds(initial, players);
      assert |missing| == |RosterIds(players) - LineupIds(initial)|;
      DistinctPlayerCount(players);
      CardSplit(LineupIds(initial), RosterIds(players));
    }
  }
  // ---------------------------------------------------------------------
  // Lineup partition

  /** `playerMap.get(id)`: the map is built from the roster in order, so a
      repeated id resolves to its last player. */
  function LookupPlayer(players: seq<Player>, id: string): (r: Option<Player>)
    ensures r.Some? ==> r.value in players && r.value.id == id
    decreases |players|
  {
    if |players| == 0 then None
    else if players[|players| - 1].id == id then Some(players[|players| - 1])
    else LookupPlayer(players[..|players| - 1], id)
  }

  /** Every roster id resolves. */
  lemma {:induction false} LookupRosterId(players: seq<Player>, k: nat)
    requires k < |players|
    ensures LookupPlayer(players, players[k].id).Some?
    decreases |players|
  {
    var n := |players| - 1;
    if players[n].id != players[k].id {
      assert k < n;
      LookupRosterId(players[..n], k);
    }
  }

  /** `playerMap.get(id)?.firstName ?? ''`. */
  function NameOf(players: seq<Player>, id: string): string {
    match LookupPlayer(players, id)
    case Some(p) => p.firstName
    case None => ""
  }

  /** `sortByName`: lineup entries compared by their players' first names. */
  function ByName(players: seq<Player>): (LineupEntry, LineupEntry) -> bool {
    (a: LineupEntry, b: LineupEntry) => StrLt(NameOf(players, a.id), NameOf(players, b.id))
  }

  lemma ByNameStrict(players: seq<Player>)
    ensures StrictOrder(ByName(players))
  {
    var lt := ByName(players);
    forall a ensures !lt(a, a) {
      StrLtIrreflexive(NameOf(players, a.id));
    }
    forall a, b, c | lt(a, b) && lt(b, c) ensures lt(a, c) {
      StrLtTransitive(NameOf(players, a.id), NameOf(players, b.id), NameOf(players, c.id));
    }
  }

  /** The lists the partition builds. */
  datatype Group = FieldGroup | InactiveGroup | BenchGroup | StarterGroup | BenchStarterGroup

  /** An entry of a roster player belongs to the field, inactive or bench
      list by its location (anything but field and inactive is bench), and
      a starter to the starters when it has an initial position, to the
      bench starters otherwise. Entries of unknown players are skipped. */
  predicate InGroup(players: seq<Player>, group: Group, e: LineupEntry) {
    && LookupPlayer(players, e.id).Some?
    && match group
       case FieldGroup => e.location == Field
       case InactiveGroup => e.location == Inactive
       case BenchGroup => e.location != Field && e.location != Inactive
       case StarterGroup => e.isStarter && e.initialPosition.Some?
       case BenchStarterGroup => e.isStarter && e.initialPosition.None?
  }

  function Member(players: seq<Player>, group: Group): LineupEntry -> bool {
    (e: LineupEntry) => InGroup(players, group, e)
  }

  /** The entries of one group, in lineup order. */
  function GroupOf(lineup: seq<LineupEntry>, players: seq<Player>, group: Group): seq<LineupEntry> {
    Filter(lineup, Member(players, group))
  }

  /** The roster players of a list of entries, in order; entries of
      players not on the roster contribute nothing. */
  function PlayersOf(players: seq<Player>, entries: seq<LineupEntry>): (r: seq<Player>)
    ensures |r| <= |entries|
    ensures (forall k :: 0 <= k < |entries| ==> LookupPlayer(players, entries[k].id).Some?) ==>
              |r| == |entries|
              && (forall k :: 0 <= k < |entries| ==> r[k] == LookupPlayer(players, entries[k].id).value)
              && (forall k :: 0 <= k < |entries| ==> r[k].id == entries[k].id)
  {
    if |entries| == 0 then []
    else
      var last := LookupPlayer(players, entries[|entries| - 1].id);
      var init := entries[..|entries| - 1];
      assert forall k :: 0 <= k < |init| ==> init[k] == entries[k];
      PlayersOf(players, init) + (if last.Some? then [last.value] else [])
  }

  datatype LineupPartition = LineupPartition(
    field: seq<LineupEntry>,
    bench: seq<LineupEntry>,
    inactive: seq<LineupEntry>,
    fieldDialog: seq<Player>,
    starters: seq<LineupEntry>,
    benchStarters: seq<LineupEntry>)

  /** What the page renders from a lineup: the field list in lineup order,
      the bench, inactive and bench-starter lists sorted by first name, the
      field players for the scorer dialog sorted by first name, and the
      placed starters in lineup order. */
  function PartitionOf(lineup: seq<LineupEntry>, players: seq<Player>): (r: LineupPartition)
    ensures SortedBy(r.bench, ByName(players)) && SortedBy(r.inactive, ByName(players))
    ensures SortedBy(r.benchStarters, ByName(players)) && SortedBy(r.fieldDialog, PlayerBefore)
  {
    var field := GroupOf(lineup, players, FieldGroup);
    ByNameStrict(players);
    PlayerBeforeStrict();
    SortBySorted(GroupOf(lineup, players, BenchGroup), ByName(players));
    SortBySorted(GroupOf(lineup, players, InactiveGroup), ByName(players));
    SortBySorted(GroupOf(lineup, players, BenchStarterGroup), ByName(players));
    SortBySorted(PlayersOf(players, field), PlayerBefore);
    LineupPartition(
      field,
      SortBy(GroupOf(lineup, players, BenchGroup), ByName(players)),
      SortBy(GroupOf(lineup, players, InactiveGroup), ByName(players)),
      SortBy(PlayersOf(players, field), PlayerBefore),
      GroupOf(lineup, players, StarterGroup),
      SortBy(GroupOf(lineup, players, BenchStarterGroup), ByName(players)))
  }

  /** A group of a lineup extended by one entry. */
  lemma GroupSnoc(lineup: seq<LineupEntry>, i: nat, players: seq<Player>, group: Group)
    requires i < |lineup|
    ensures GroupOf(lineup[..i + 1], players, group)
            == GroupOf(lineup[..i], players, group) + (if InGroup(players, group, lineup[i]) then [lineup[i]] else [])
  {
    assert lineup[..i + 1] == lineup[..i] + [lineup[i]];
    FilterSnoc(lineup[..i], lineup[i], Member(players, group));
  }

  lemma PlayersOfSnoc(players: seq<Player>, entries: seq<LineupEntry>, e: LineupEntry)
    requires LookupPlayer(players, e.id).Some?
    ensures PlayersOf(players, entries + [e]) == PlayersOf(players, entries) + [LookupPlayer(players, e.id).value]
  {
    assert (entries + [e])[..|entries|] == entries;
  }

  /** Entry `i` pushed onto the field, inactive or bench list by its
      location when its player is on the roster; a field entry's player
      also joins the scorer dialog. */
  method PushByLocation(lineup: seq<LineupEntry>, i: nat, players: seq<Player>, field: seq<LineupEntry>,
                        bench: seq<LineupEntry>, inactive: seq<LineupEntry>, fieldDialog: seq<Player>)
    returns (field': seq<LineupEntry>, bench': seq<LineupEntry>, inactive': seq<LineupEntry>, fieldDialog': seq<Player>)
    requires i < |lineup|
    requires field == GroupOf(lineup[..i], players, FieldGroup)
    requires bench == GroupOf(lineup[..i], players, BenchGroup)
    requires inactive == GroupOf(lineup[..i], players, InactiveGroup)
    requires fieldDialog == PlayersOf(players, field)
    ensures field' == GroupOf(lineup[..i + 1], players, FieldGroup)
    ensures bench' == GroupOf(lineup[..i + 1], players, BenchGroup)
    ensures inactive' == GroupOf(lineup[..i + 1], players, InactiveGroup)
    ensures fieldDialog' == PlayersOf(players, field')
  {
    var e := lineup[i];
    GroupSnoc(lineup, i, players, FieldGroup);
    GroupSnoc(lineup, i, players, BenchGroup);
    GroupSnoc(lineup, i, players, InactiveGroup);
    field', bench', inactive', fieldDialog' := field, bench, inactive, fieldDialog;
    var player := LookupPlayer(players, e.id);
    if player.Some? {
      if e.location == Field {
        PlayersOfSnoc(players, field, e);
        field' := field + [e];
        fieldDialog' := fieldDialog + [player.value];
      } else if e.location == Inactive {
        inactive' := inactive + [e];
      } else {
        bench' := bench + [e];
      }
    }
  }

  /** Entry `i`, when it is a starter of a roster player, pushed onto the
      starters when it has an initial position, onto the bench starters
      otherwise. */
  method PushStarter(lineup: seq<LineupEntry>, i: nat, players: seq<Player>,
                     starters: seq<LineupEntry>, benchStarters: seq<LineupEntry>)
    returns (starters': seq<LineupEntry>, benchStarters': seq<LineupEntry>)
    requires i < |lineup|
    requires starters == GroupOf(lineup[..i], players, StarterGroup)
    requires benchStarters == GroupOf(lineup[..i], players, BenchStarterGroup)
    ensures starters' == GroupOf(lineup[..i + 1], players, StarterGroup)
    ensures benchStarters' == GroupOf(lineup[..i + 1], players, BenchStarterGroup)
  {
    var e := lineup[i];
    GroupSnoc(lineup, i, players, StarterGroup);
    GroupSnoc(lineup, i, players, BenchStarterGroup);
    starters', benchStarters' := starters, benchStarters;
    if LookupPlayer(players, e.id).Some? && e.isStarter {
      if e.initialPosition.Some? {
        starters' := starters + [e];
      } else {
        benchStarters' := benchStarters + [e];
      }
    }
  }

  /** The pass over the lineup: each entry of a roster player is pushed
      onto the field, inactive or bench list by location, and a starter
      onto the starters or bench starters by initial position; the field
      players are collected for the scorer dialog. */
  method CollectGroups(lineup: seq<LineupEntry>, players: seq<Player>)
    returns (field: seq<LineupEntry>, bench: seq<LineupEntry>, inactive: seq<LineupEntry>,
             fieldDialog: seq<Player>, starters: seq<LineupEntry>, benchStarters: seq<LineupEntry>)
    ensures field == GroupOf(lineup, players, FieldGroup)
    ensures bench == GroupOf(lineup, players, BenchGroup)
    ensures inactive == GroupOf(lineup, players, InactiveGroup)
    ensures starters == GroupOf(lineup, players, StarterGroup)
    ensures benchStarters == GroupOf(lineup, players, BenchStarterGroup)
    ensures fieldDialog == PlayersOf(players, field)
  {
    field, bench, inactive, fieldDialog, starters, benchStarters := [], [], [], [], [], [];
    var i := 0;
    while i < |lineup|
      invariant 0 <= i <= |lineup|
      invariant field == GroupOf(lineup[..i], players, FieldGroup)
      invariant bench == GroupOf(lineup[..i], players, BenchGroup)
      invariant inactive == GroupOf(lineup[..i], players, InactiveGroup)
      invariant starters == GroupOf(lineup[..i], players, StarterGroup)
      invariant benchStarters == GroupOf(lineup[..i], players, BenchStarterGroup)
      invariant fieldDialog == PlayersOf(players, field)
    {
      field, bench, inactive, fieldDialog := PushByLocation(lineup, i, players, field, bench, inactive, fieldDialog);
      starters, benchStarters := PushStarter(lineup, i, players, starters, benchStarters);
      i := i + 1;
    }
    assert lineup[..i] == lineup;
  }

  /** The partition of the page: the pass, then the sorts by first name. */
  method Partition(lineup: seq<LineupEntry>, players: seq<Player>) returns (r: LineupPartition)
    ensures r == PartitionOf(lineup, players)
  {
    var field, bench, inactive, fieldDialog, starters, benchStarters := CollectGroups(lineup, players);
    bench := SortBy(bench, ByName(players));
    inactive := SortBy(inactive, ByName(players));
    fieldDialog := SortBy(fieldDialog, PlayerBefore);
    benchStarters := SortBy(benchStarters, ByName(players));
    r := LineupPartition(field, bench, inactive, fieldDialog, starters, benchStarters);
  }

  /** The entries of roster players. */
  function KnownEntries(lineup: seq<LineupEntry>, players: seq<Player>): seq<LineupEntry> {
    Filter(lineup, KnownKeep(players))
  }

  function KnownKeep(players: seq<Player>): LineupEntry -> bool {
    (e: LineupEntry) => LookupPlayer(players, e.id).Some?
  }

  /** The starters of roster players. */
  function KnownStarters(lineup: seq<LineupEntry>, players: seq<Player>): seq<LineupEntry> {
    Filter(lineup, StarterKeep(players))
  }

  predicate IsKnownStarter(players: seq<Player>, e: LineupEntry) {
    LookupPlayer(players, e.id).Some? && e.isStarter
  }

  function StarterKeep(players: seq<Player>): LineupEntry -> bool {
    (e: LineupEntry) => IsKnownStarter(players, e)
  }

  /** The multiset of a filtered sequence, unfolded once from the front. */
  lemma FilterConsMultiset<T(!new)>(s: seq<T>, keep: T -> bool)
    requires |s| > 0
    ensures multiset(Filter(s, keep)) == (if keep(s[0]) then multiset{s[0]} else multiset{}) + multiset(Filter(s[1..], keep))
  {
  }

  /** Every entry of a roster player lands in exactly one of the field,
      bench and inactive lists (counted with repetition). */
  lemma {:induction false} LocationsSplitLineup(lineup: seq<LineupEntry>, players: seq<Player>)
    ensures multiset(GroupOf(lineup, players, FieldGroup)) + multiset(GroupOf(lineup, players, BenchGroup))
            + multiset(GroupOf(lineup, players, InactiveGroup)) == multiset(KnownEntries(lineup, players))
  {
    if |lineup| > 0 {
      LocationsSplitLineup(lineup[1..], players);
      FilterConsMultiset(lineup, Member(players, FieldGroup));
      FilterConsMultiset(lineup, Member(players, BenchGroup));
      FilterConsMultiset(lineup, Member(players, InactiveGroup));
      FilterConsMultiset(lineup, KnownKeep(players));
    }
  }

  /** Every starter of a roster player lands in exactly one of the two
      starter lists (counted with repetition). */
  lemma {:induction false} StartersSplitLineup(lineup: seq<LineupEntry>, players: seq<Player>)
    ensures multiset(GroupOf(lineup, players, StarterGroup)) + multiset(GroupOf(lineup, players, BenchStarterGroup))
            == multiset(KnownStarters(lineup, players))
  {
    if |lineup| > 0 {
      StartersSplitLineup(lineup[1..], players);
      FilterConsMultiset(lineup, Member(players, StarterGroup));
      FilterConsMultiset(lineup, Member(players, BenchStarterGroup));
      FilterConsMultiset(lineup, StarterKeep(players));
      StarterHead(players, lineup[0]);
    }
  }

  /** One entry is a starter of exactly one of the two starter lists, or of
      neither when it is not a roster player's starter. */
  lemma StarterHead(players: seq<Player>, e: LineupEntry)
    ensures (if Member(players, StarterGroup)(e) then multiset{e} else multiset{})
            + (if Member(players, BenchStarterGroup)(e) then multiset{e} else multiset{})
            == (if StarterKeep(players)(e) then multiset{e} else multiset{})
  {
  }

  /** Each location list of the partition holds only entries of its
      location. */
  lemma PartitionLocations(lineup: seq<LineupEntry>, players: seq<Player>)
    ensures forall e :: e in PartitionOf(lineup, players).field ==> e.location == Field
    ensures forall e :: e in PartitionOf(lineup, players).inactive ==> e.location == Inactive
    ensures forall e :: e in PartitionOf(lineup, players).bench ==> e.location == Bench
  {
    var r := PartitionOf(lineup, players);
    assert r.inactive == SortBy(GroupOf(lineup, players, InactiveGroup), ByName(players));
    assert r.bench == SortBy(GroupOf(lineup, players, BenchGroup), ByName(players));
    forall e | e in r.inactive ensures e.location == Inactive {
      SortedGroupIn(lineup, players, InactiveGroup, e);
    }
    forall e | e in r.bench ensures e.location == Bench {
      SortedGroupIn(lineup, players, BenchGroup, e);
    }
  }

  /** An entry of a sorted group belongs to the group. */
  lemma SortedGroupIn(lineup: seq<LineupEntry>, players: seq<Player>, group: Group, e: LineupEntry)
    requires e in SortBy(GroupOf(lineup, players, group), ByName(players))
    ensures InGroup(players, group, e)
  {
    var g := GroupOf(lineup, players, group);
    assert e in multiset(SortBy(g, ByName(players)));
    assert e in g;
    assert Member(players, group)(e);
  }

  /** The three location lists together hold every entry of a roster
      player once, the two starter lists every such starter once, the
      scorer dialog lists the field players, and each list holds only
      entries of its location. */
  lemma PartitionCovers(lineup: seq<LineupEntry>, players: seq<Player>)
    ensures var r := PartitionOf(lineup, players);
            && multiset(r.field) + multiset(r.bench) + multiset(r.inactive) == multiset(KnownEntries(lineup, players))
            && multiset(r.starters) + multiset(r.benchStarters) == multiset(KnownStarters(lineup, players))
            && multiset(r.fieldDialog) == multiset(PlayersOf(players, r.field))
    ensures forall e :: e in PartitionOf(lineup, players).field ==> e.location == Field
    ensures forall e :: e in PartitionOf(lineup, players).inactive ==> e.location == Inactive
    ensures forall e :: e in PartitionOf(lineup, players).bench ==> e.location == Bench
  {
    LocationsSplitLineup(lineup, players);
    StartersSplitLineup(lineup, players);
    PartitionLocations(lineup, players);
  }

  // ---------------------------------------------------------------------
  // Goals and assists per player

  datatype Tally = Tally(goals: nat, assists: nat)

  /** A truthy player id equal to `id`. */
  predicate Names(o: Option<string>, id: string) {
    o.Some? && o.value != "" && o.value == id
  }

  /** Goal events naming `id` as scorer. */
  function GoalsBy(events: seq<GameEvent>, id: string): (r: nat)
    ensures r <= |events|
  {
    if |events| == 0 then 0
    else
      var e := events[|events| - 1];
      GoalsBy(events[..|events| - 1], id) + (if e.kind == Goal && Names(e.scorerPlayerId, id) then 1 else 0)
  }

  /** Goal events naming `id` as assister. */
  function AssistsBy(events: seq<GameEvent>, id: string): (r: nat)
    ensures r <= |events|
  {
    if |events| == 0 then 0
    else
      var e := events[|events| - 1];
      AssistsBy(events[..|events| - 1], id) + (if e.kind == Goal && Names(e.assistPlayerId, id) then 1 else 0)
  }

  /** The tallies are those of `events` for the roster and for every player
      the events credit. */
  ghost predicate TalliesOf(counts: map<string, Tally>, players: seq<Player>, events: seq<GameEvent>) {
    && (forall id :: id in counts <==> id in RosterIds(players) || GoalsBy(events, id) > 0 || AssistsBy(events, id) > 0)
    && (forall id :: id in counts ==> counts[id] == Tally(GoalsBy(events, id), AssistsBy(events, id)))
  }

  /** `counts.get(id) || { goals: 0, assists: 0 }`. */
  function TallyOf(counts: map<string, Tally>, id: string): Tally {
    if id in counts then counts[id] else Tally(0, 0)
  }

  /** Crediting one event: its truthy scorer gains a goal, then its truthy
      assister an assist. */
  function Credit(counts: map<string, Tally>, e: GameEvent): map<string, Tally> {
    if e.kind != Goal then counts
    else
      var c := if e.scorerPlayerId.Some? && e.scorerPlayerId.value != ""
               then counts[e.scorerPlayerId.value := TallyOf(counts, e.scorerPlayerId.value).(goals := TallyOf(counts, e.scorerPlayerId.value).goals + 1)]
               else counts;
      if e.assistPlayerId.Some? && e.assistPlayerId.value != ""
      then c[e.assistPlayerId.value := TallyOf(c, e.assistPlayerId.value).(assists := TallyOf(c, e.assistPlayerId.value).assists + 1)]
      else c
  }

  /** What crediting one event does to one player's tally. */
  lemma CreditAt(counts: map<string, Tally>, e: GameEvent, id: string)
    ensures id in Credit(counts, e)
            <==> id in counts || (e.kind == Goal && (Names(e.scorerPlayerId, id) || Names(e.assistPlayerId, id)))
    ensures TallyOf(Credit(counts, e), id)
            == Tally(TallyOf(counts, id).goals + (if e.kind == Goal && Names(e.scorerPlayerId, id) then 1 else 0),
                     TallyOf(counts, id).assists + (if e.kind == Goal && Names(e.assistPlayerId, id) then 1 else 0))
  {
  }

  /** The counts of a prefix extended by one event. */
  lemma CountsSnoc(events: seq<GameEvent>, i: nat, id: string)
    requires i < |events|
    ensures GoalsBy(events[..i + 1], id)
            == GoalsBy(events[..i], id) + (if events[i].kind == Goal && Names(events[i].scorerPlayerId, id) then 1 else 0)
    ensures AssistsBy(events[..i + 1], id)
            == AssistsBy(events[..i], id) + (if events[i].kind == Goal && Names(events[i].assistPlayerId, id) then 1 else 0)
  {
    assert events[..i + 1][..i] == events[..i];
  }

  lemma CreditStep(counts: map<string, Tally>, players: seq<Player>, events: seq<GameEvent>, i: nat)
    requires i < |events|
    requires TalliesOf(counts, players, events[..i])
    ensures TalliesOf(Credit(counts, events[i]), players, events[..i + 1])
  {
    var c := Credit(counts, events[i]);
    forall id
      ensures id in c <==> id in RosterIds(players) || GoalsBy(events[..i + 1], id) > 0 || AssistsBy(events[..i + 1], id) > 0
      ensures id in c ==> c[id] == Tally(GoalsBy(events[..i + 1], id), AssistsBy(events[..i + 1], id))
    {
      CreditAt(counts, events[i], id);
      CountsSnoc(events, i, id);
      assert id in counts ==> counts[id] == Tally(GoalsBy(events[..i], id), AssistsBy(events[..i], id));
    }
  }

  /** One pass of the event loop: a goal credits its truthy scorer, then
      its truthy assister. */
  method CreditEvent(counts: map<string, Tally>, e: GameEvent) returns (counts': map<string, Tally>)
    ensures counts' == Credit(counts, e)
  {
    counts' := counts;
    if e.kind == Goal {
      if e.scorerPlayerId.Some? && e.scorerPlayerId.value != "" {
        var s := e.scorerPlayerId.value;
        var current := if s in counts' then counts'[s] else Tally(0, 0);
        counts' := counts'[s := current.(goals := current.goals + 1)];
      }
      if e.assistPlayerId.Some? && e.assistPlayerId.value != "" {
        var a := e.assistPlayerId.value;
        var current := if a in counts' then counts'[a] else Tally(0, 0);
        counts' := counts'[a := current.(assists := current.assists + 1)];
      }
    }
  }

  /** `playerEventCounts`: a zero tally for every roster player, then one
      goal per goal event for its scorer and one assist for its assister
      (a player outside the roster gets a tally of its own). */
  method PlayerEventCounts(players: seq<Player>, events: seq<GameEvent>) returns (counts: map<string, Tally>)
    ensures forall id :: id in counts <==> id in RosterIds(players) || GoalsBy(events, id) > 0 || AssistsBy(events, id) > 0
    ensures forall id :: id in counts ==> counts[id] == Tally(GoalsBy(events, id), AssistsBy(events, id))
  {
    counts := map[];
    var j := 0;
    while j < |players|
      invariant 0 <= j <= |players|
      invariant forall id :: id in counts <==> id in RosterIds(players[..j])
      invariant forall id :: id in counts ==> counts[id] == Tally(0, 0)
    {
      RosterIdsSnoc(players, j);
      counts := counts[players[j].id := Tally(0, 0)];
      j := j + 1;
    }
    assert players[..j] == players;
    assert TalliesOf(counts, players, events[..0]);
    var i := 0;
    while i < |events|
      invariant 0 <= i <= |events|
      invariant TalliesOf(counts, players, events[..i])
    {
      ghost var before := counts;
      counts := CreditEvent(counts, events[i]);
      CreditStep(before, players, events, i);
      i := i + 1;
    }
    assert events[..i] == events;
  }

  lemma {:induction false} GoalsByAppend(a: seq<GameEvent>, b: seq<GameEvent>, id: string)
    ensures GoalsBy(a + b, id) == GoalsBy(a, id) + GoalsBy(b, id)
    ensures AssistsBy(a + b, id) == AssistsBy(a, id) + AssistsBy(b, id)
    decreases |b|
  {
    if |b| == 0 {
      assert a + b == a;
    } else {
      assert (a + b)[..|a + b| - 1] == a + b[..|b| - 1];
      GoalsByAppend(a, b[..|b| - 1], id);
    }
  }

  /** Substitution events credit nobody: a player's tally counts only goal
      events, and never more than the goals of both sides together. */
  lemma {:induction false} TallyCountsGoalsOnly(events: seq<GameEvent>, sub: GameEvent, id: string)
    requires sub.kind == Substitution
    ensures GoalsBy(events + [sub], id) == GoalsBy(events, id)
    ensures AssistsBy(events + [sub], id) == AssistsBy(events, id)
    ensures GoalsBy(events, id) <= GoalCount(events, Home) + GoalCount(events, Away)
    ensures AssistsBy(events, id) <= GoalCount(events, Home) + GoalCount(events, Away)
    decreases |events|
  {
    assert (events + [sub])[..|events|] == events;
    if |events| > 0 {
      var front, last := events[..|events| - 1], events[|events| - 1];
      TallyCountsGoalsOnly(front, sub, id);
      assert events == front + [last];
      GoalCountAppend(front, [last], Home);
      GoalCountAppend(front, [last], Away);
    }
  }
  // ---------------------------------------------------------------------
  // Confirmation before editing a finished game

  /** `confirmAction` and its dialog: on a finished game an action waits
      for the user's answer, otherwise it runs at once. `ran` logs the
      actions that ran, in order. */
  class ConfirmGate<A> {
    var pending: Option<A>
    var dialogOpen: bool
    var ran: seq<A>

    /** The dialog is open exactly while an action waits. */
    ghost predicate Valid()
      reads this
    {
      dialogOpen <==> pending.Some?
    }

    constructor ()
      ensures Valid() && pending == None && !dialogOpen && ran == []
    {
      pending := None;
      dialogOpen := false;
      ran := [];
    }

    method Request(action: A, finished: bool)
      requires Valid()
      modifies this
      ensures Valid()
      ensures finished ==> pending == Some(action) && dialogOpen && ran == old(ran)
      ensures !finished ==> ran == old(ran) + [action] && pending == old(pending) && dialogOpen == old(dialogOpen)
    {
      if finished {
        pending := Some(action);
        dialogOpen := true;
      } else {
        ran := ran + [action];
      }
    }

    /** `handleConfirmEditFinished`: runs the waiting action, if any. */
    method Confirm()
      requires Valid()
      modifies this
      ensures Valid() && pending == None && !dialogOpen
      ensures ran == old(ran) + (if old(pending).Some? then [old(pending).value] else [])
    {
      if pending.Some? {
        ran := ran + [pending.value];
      }
      dialogOpen := false;
      pending := None;
    }

    /** `handleCancelEditFinished`: drops the waiting action. */
    method Cancel()
      requires Valid()
      modifies this
      ensures Valid() && pending == None && !dialogOpen && ran == old(ran)
    {
      dialogOpen := false;
      pending := None;
    }
  }

  // ---------------------------------------------------------------------
  // Timer and score controls

  datatype TimerCommand = NoTimerCommand | StopCommand | StartCommand

  /** A game whose kick-off is still ahead and that never ran asks before
      it is started. */
  predicate AsksBeforeStart(g: Game, now: int) {
    DateTime(g) > now && g.timerElapsedSeconds == 0 && !HasInstant(g.timerStartTime)
  }

  /** `handleTimerClick`: nothing without a game, on a finished game or
      while an action is in flight; a running clock stops; otherwise the
      clock starts, unless the game asks first and `answer` (the reply to
      the question) is no. */
  function TimerClick(game: Option<Game>, busy: bool, now: int, answer: bool): (r: TimerCommand)
    ensures r == StopCommand <==> game.Some? && !game.value.isExplicitlyFinished && !busy && IsRunning(game.value)
    ensures r == StartCommand <==> && game.Some? && !game.value.isExplicitlyFinished && !busy
                                   && !IsRunning(game.value) && (!AsksBeforeStart(game.value, now) || answer)
  {
    if game.None? || game.value.isExplicitlyFinished || busy then NoTimerCommand
    else if IsRunning(game.value) then StopCommand
    else if !AsksBeforeStart(game.value, now) || answer then StartCommand
    else NoTimerCommand
  }

  /** The answer to the question matters only when the question is asked. */
  lemma AnswerMattersOnlyWhenAsked(game: Option<Game>, busy: bool, now: int)
    ensures TimerClick(game, busy, now, true) != TimerClick(game, busy, now, false)
            <==> && game.Some? && !game.value.isExplicitlyFinished && !busy
                 && !IsRunning(game.value) && AsksBeforeStart(game.value, now)
  {
  }

  /** The commands the timer sends are ones the store accepts: a start for
      a game of the store (the store refuses only finished games), a stop
      for a running game with a start instant. */
  lemma TimerCommandsAccepted(teamId: string, games: seq<Game>, id: string, busy: bool, now: int, answer: bool)
    requires teamId != "" && FindGame(games, id).Some?
    ensures TimerClick(Some(Found(games, id)), busy, now, answer) == StartCommand ==> CanStart(teamId, games, id)
    ensures (TimerClick(Some(Found(games, id)), busy, now, answer) == StopCommand && HasInstant(Found(games, id).timerStartTime))
            ==> CanStop(teamId, games, id)
  {
  }

  /** A goal the page asks the store to record. */
  datatype GoalRequest = GoalRequest(team: Side, scorer: Option<string>, assist: Option<string>, gameSeconds: int)

  /** A truthy id. */
  predicate Truthy(o: Option<string>) {
    o.Some? && o.value != ""
  }

  /** `fieldPlayersForDialog.filter(p => p.id !== selectedScorerId)`. */
  function AssistCandidates(fieldDialog: seq<Player>, scorer: Option<string>): (r: seq<Player>)
    ensures forall p :: p in r <==> p in fieldDialog && !(scorer.Some? && p.id == scorer.value)
    ensures scorer.None? ==> r == fieldDialog
  {
    var keep := (p: Player) => !(scorer.Some? && p.id == scorer.value);
    if scorer.None? then FilterAll(fieldDialog, keep); Filter(fieldDialog, keep)
    else Filter(fieldDialog, keep)
  }

  /** The state of the score controls: the goal dialogs (scorer, then
      assister) for the user's team, and the confirmation of a score
      decrement. Each handler returns the store call it issues, if any;
      `shown` is the displayed game time rounded to seconds. */
  class ScoreControls {
    var goalTeam: Option<Side>
    var scorer: Option<string>
    var goalDialogOpen: bool
    var assistDialogOpen: bool
    var decrementTeam: Option<Side>
    var decrementOpen: bool

    ghost predicate Valid()
      reads this
    {
      && (goalDialogOpen ==> goalTeam.Some?)
      && (assistDialogOpen ==> goalTeam.Some? && scorer.Some?)
      && !(goalDialogOpen && assistDialogOpen)
      && (decrementOpen ==> decrementTeam.Some?)
    }

    constructor ()
      ensures Valid()
      ensures goalTeam == None && scorer == None && !goalDialogOpen && !assistDialogOpen
      ensures decrementTeam == None && !decrementOpen
    {
      goalTeam, scorer := None, None;
      goalDialogOpen, assistDialogOpen := false, false;
      decrementTeam, decrementOpen := None, false;
    }

    /** `handleScoreClick`: a goal of the user's team opens the scorer
        dialog; an opponent goal is recorded at once without a scorer. The
        score buttons lie under the modal assister dialog while it shows. */
    method ScoreClick(game: Option<Game>, busy: bool, team: Side, shown: int) returns (call: Option<GoalRequest>)
      requires Valid() && !assistDialogOpen
      modifies this
      ensures Valid()
      ensures (game.None? || game.value.isExplicitlyFinished || busy) ==> call == None && unchanged(this)
      ensures (game.Some? && !game.value.isExplicitlyFinished && !busy && team == UserSide(game.value))
              ==> call == None && goalTeam == Some(team) && goalDialogOpen
                  && scorer == old(scorer) && assistDialogOpen == old(assistDialogOpen)
                  && decrementTeam == old(decrementTeam) && decrementOpen == old(decrementOpen)
      ensures (game.Some? && !game.value.isExplicitlyFinished && !busy && team != UserSide(game.value))
              ==> call == Some(GoalRequest(team, None, None, shown)) && unchanged(this)
    {
      call := None;
      if game.None? || game.value.isExplicitlyFinished || busy {
        return;
      }
      if team == UserSide(game.value) {
        goalTeam := Some(team);
        goalDialogOpen := true;
      } else {
        call := Some(GoalRequest(team, None, None, shown));
      }
    }

    /** `handleSelectScorer`, called from the open scorer dialog. */
    method SelectScorer(playerId: string)
      requires Valid() && goalDialogOpen
      modifies this
      ensures Valid()
      ensures scorer == Some(playerId) && !goalDialogOpen && assistDialogOpen
      ensures goalTeam == old(goalTeam) && decrementTeam == old(decrementTeam) && decrementOpen == old(decrementOpen)
    {
      scorer := Some(playerId);
      goalDialogOpen := false;
      assistDialogOpen := true;
    }

    /** `handleCancelGoalDialog` and `handleCloseGoalDialog`, called from
        the open scorer dialog: the goal is recorded without a scorer. */
    method DismissGoalDialog(hasGame: bool, busy: bool, shown: int) returns (call: Option<GoalRequest>)
      requires Valid() && goalDialogOpen
      modifies this
      ensures Valid()
      ensures (!hasGame || old(goalTeam).None? || busy) ==> call == None && unchanged(this)
      ensures (hasGame && old(goalTeam).Some? && !busy)
              ==> && call == Some(GoalRequest(old(goalTeam).value, None, None, shown))
                  && !goalDialogOpen && goalTeam == None
                  && scorer == old(scorer) && assistDialogOpen == old(assistDialogOpen)
                  && decrementTeam == old(decrementTeam) && decrementOpen == old(decrementOpen)
    {
      call := None;
      if !hasGame || goalTeam.None? || busy {
        return;
      }
      call := Some(GoalRequest(goalTeam.value, None, None, shown));
      goalDialogOpen := false;
      goalTeam := None;
    }

    /** `handleSelectAssister` (`assister` is Some) and
        `handleCancelAssistDialog` (None), called from the open assister
        dialog: the goal is recorded with the chosen scorer. */
    method FinishAssistDialog(hasGame: bool, busy: bool, assister: Option<string>, shown: int)
      returns (call: Option<GoalRequest>)
      requires Valid() && assistDialogOpen
      modifies this
      ensures Valid()
      ensures (!hasGame || old(goalTeam).None? || !Truthy(old(scorer)) || busy) ==> call == None && unchanged(this)
      ensures (hasGame && old(goalTeam).Some? && Truthy(old(scorer)) && !busy)
              ==> && call == Some(GoalRequest(old(goalTeam).value, old(scorer), assister, shown))
                  && !assistDialogOpen && scorer == None && goalTeam == None
                  && goalDialogOpen == old(goalDialogOpen)
                  && decrementTeam == old(decrementTeam) && decrementOpen == old(decrementOpen)
    {
      call := None;
      if !hasGame || goalTeam.None? || !Truthy(scorer) || busy {
        return;
      }
      call := Some(GoalRequest(goalTeam.value, scorer, assister, shown));
      assistDialogOpen := false;
      scorer := None;
      goalTeam := None;
    }

    /** The assister dialog's close button: it only hides the dialog. No
        goal is recorded, and the chosen scorer and side stay selected. */
    method CloseAssistDialog()
      requires Valid() && assistDialogOpen
      modifies this
      ensures Valid()
      ensures !assistDialogOpen
      ensures goalTeam == old(goalTeam) && scorer == old(scorer) && goalDialogOpen == old(goalDialogOpen)
      ensures decrementTeam == old(decrementTeam) && decrementOpen == old(decrementOpen)
    {
      assistDialogOpen := false;
    }

    /** A completed long press on a score, or its context menu: asks to
        confirm removing that side's latest goal. */
    method AskDecrement(game: Option<Game>, busy: bool, team: Side)
      requires Valid()
      modifies this
      ensures Valid()
      ensures (game.None? || game.value.isExplicitlyFinished || busy) ==> unchanged(this)
      ensures (game.Some? && !game.value.isExplicitlyFinished && !busy)
              ==> && decrementTeam == Some(team) && decrementOpen
                  && goalTeam == old(goalTeam) && scorer == old(scorer)
                  && goalDialogOpen == old(goalDialogOpen) && assistDialogOpen == old(assistDialogOpen)
    {
      if game.None? || game.value.isExplicitlyFinished || busy {
        return;
      }
      decrementTeam := Some(team);
      decrementOpen := true;
    }

    /** `handleConfirmDecrementScore`: removes the side's latest goal when
        possible; the dialog closes either way. Returns the side whose goal
        removal is requested. */
    method ConfirmDecrement(hasGame: bool, busy: bool) returns (call: Option<Side>)
      requires Valid()
      modifies this
      ensures Valid()
      ensures call == (if hasGame && !busy then old(decrementTeam) else None)
      ensures !decrementOpen && decrementTeam == None
      ensures goalTeam == old(goalTeam) && scorer == old(scorer)
      ensures goalDialogOpen == old(goalDialogOpen) && assistDialogOpen == old(assistDialogOpen)
    {
      call := None;
      if hasGame && decrementTeam.Some? && !busy {
        call := decrementTeam;
      }
      decrementOpen := false;
      decrementTeam := None;
    }

    /** `handleCancelDecrementScore`. */
    method CancelDecrement()
      requires Valid()
      modifies this
      ensures Valid()
      ensures !decrementOpen && decrementTeam == None
      ensures goalTeam == old(goalTeam) && scorer == old(scorer)
      ensures goalDialogOpen == old(goalDialogOpen) && assistDialogOpen == old(assistDialogOpen)
    {
      decrementOpen := false;
      decrementTeam := None;
    }
  }

  /** A goal recorded by the opponent button raises the opponent's score
      by one in the store and leaves the user's side alone. */
  lemma OpponentGoalScores(g: Game, team: Side, shown: int)
    requires team != UserSide(g)
    ensures var sc := ScoresAfterAdd(g, Goal, team);
            && (if UserSide(g) == Home then sc == (g.homeScore, g.awayScore + 1)
                else sc == (g.homeScore + 1, g.awayScore))
  {
  }
  // ---------------------------------------------------------------------
  // Planned substitutions

  /** One plan of the planning mode: bench player `bench` replaces field
      player `target` at `position`. The plans are a JavaScript Map keyed
      by the bench player, kept here in its insertion order. */
  datatype PlannedSwap = PlannedSwap(bench: string, target: string, position: Option<Pos>)

  /** A `movePlayerInGame` call. */
  datatype MoveRequest = MoveRequest(playerId: string, source: Location, target: Location, position: Option<Pos>)

  /** Each bench player has at most one plan and no two plans target the
      same field player. */
  predicate PlanValid(plans: seq<PlannedSwap>) {
    forall i, j :: 0 <= i < j < |plans| ==> plans[i].bench != plans[j].bench && plans[i].target != plans[j].target
  }

  /** Index of the first plan targeting `target`. */
  function FirstTargeting(plans: seq<PlannedSwap>, target: string): (r: Option<nat>)
    ensures r.Some? ==> r.value < |plans| && plans[r.value].target == target
    ensures r.Some? ==> forall k :: 0 <= k < r.value ==> plans[k].target != target
    ensures r.None? ==> forall k :: 0 <= k < |plans| ==> plans[k].target != target
  {
    if |plans| == 0 then None
    else if plans[0].target == target then Some(0)
    else match FirstTargeting(plans[1..], target)
      case None => None
      case Some(k) => Some(k + 1)
  }

  /** Removing one plan keeps the plans valid. */
  lemma RemoveAtKeepsValid(plans: seq<PlannedSwap>, k: nat)
    requires k < |plans| && PlanValid(plans)
    ensures PlanValid(plans[..k] + plans[k + 1..])
    ensures forall x :: x in plans[..k] + plans[k + 1..] ==> x in plans
  {
    var r := plans[..k] + plans[k + 1..];
    forall i, j | 0 <= i < j < |r| ensures r[i].bench != r[j].bench && r[i].target != r[j].target {
      var i', j' := if i < k then i else i + 1, if j < k then j else j + 1;
      assert r[i] == plans[i'] && r[j] == plans[j'];
    }
  }

  /** `newMap.delete(key)`. */
  function WithoutBench(plans: seq<PlannedSwap>, bench: string): (r: seq<PlannedSwap>)
    ensures forall x :: x in r <==> x in plans && x.bench != bench
    ensures PlanValid(plans) ==> PlanValid(r)
  {
    if |plans| == 0 then []
    else if plans[0].bench == bench then WithoutBench(plans[1..], bench)
    else [plans[0]] + WithoutBench(plans[1..], bench)
  }

  /** The first step of `handlePlanDrop`: the plan whose field player is
      the drop target, if any, is deleted by its bench key. With valid
      plans, no plan on the target remains. */
  function ClearTarget(plans: seq<PlannedSwap>, target: string): (r: seq<PlannedSwap>)
    ensures PlanValid(plans) ==> PlanValid(r) && forall x :: x in r ==> x in plans && x.target != target
  {
    match FirstTargeting(plans, target)
    case None => plans
    case Some(k) =>
      var r := WithoutBench(plans, plans[k].bench);
      assert PlanValid(plans) ==> forall x :: x in r ==> x in plans && x.target != target by {
        if PlanValid(plans) {
          forall x | x in r ensures x in plans && x.target != target {
            var j :| 0 <= j < |plans| && plans[j] == x;
            assert j != k;
          }
        }
      }
      r
  }

  /** `handlePlanDrop`: the plan that targets the same field player is
      dropped, then the dragged player's own plan, and the new plan goes
      last. */
  function PlanDrop(plans: seq<PlannedSwap>, dragged: string, target: string, position: Option<Pos>): seq<PlannedSwap>
  {
    WithoutBench(ClearTarget(plans, target), dragged) + [PlannedSwap(dragged, target, position)]
  }

  /** A drop keeps the plans valid; the new plan is the only one of the
      dragged player and the only one on its target, and every other plan
      was there before. */
  lemma PlanDropValid(plans: seq<PlannedSwap>, dragged: string, target: string, position: Option<Pos>)
    requires PlanValid(plans)
    ensures var r := PlanDrop(plans, dragged, target, position);
            && PlanValid(r)
            && r[|r| - 1] == PlannedSwap(dragged, target, position)
            && (forall k :: 0 <= k < |r| - 1 ==> r[k] in plans && r[k].bench != dragged && r[k].target != target)
  {
    var cleared := ClearTarget(plans, target);
    var w := WithoutBench(cleared, dragged);
    var r := w + [PlannedSwap(dragged, target, position)];
    forall k | 0 <= k < |w| ensures w[k] in plans && w[k].bench != dragged && w[k].target != target {
      assert w[k] in w;
    }
  }

  /** The plans after a sequence of drops onto an empty plan. */
  datatype Drop = Drop(dragged: string, target: string, position: Option<Pos>)

  function PlansAfter(drops: seq<Drop>): seq<PlannedSwap> {
    if |drops| == 0 then []
    else
      var d := drops[|drops| - 1];
      PlanDrop(PlansAfter(drops[..|drops| - 1]), d.dragged, d.target, d.position)
  }

  /** After any sequence of drops each bench player has at most one plan
      and no two plans share a target; the latest drop on a target is the
      plan for it. */
  lemma {:induction false} AnyDropsValid(drops: seq<Drop>)
    ensures PlanValid(PlansAfter(drops))
    ensures |drops| > 0 ==> var d := drops[|drops| - 1];
            exists k :: 0 <= k < |PlansAfter(drops)| && PlansAfter(drops)[k] == PlannedSwap(d.dragged, d.target, d.position)
  {
    if |drops| > 0 {
      var d := drops[|drops| - 1];
      AnyDropsValid(drops[..|drops| - 1]);
      PlanDropValid(PlansAfter(drops[..|drops| - 1]), d.dragged, d.target, d.position);
      var r := PlansAfter(drops);
      assert r[|r| - 1] == PlannedSwap(d.dragged, d.target, d.position);
    }
  }

  /** `fieldPlayerIdToIncomingBenchPlayerId`: field player to the bench
      player planned to replace them (a later plan overwrites). */
  function Incoming(plans: seq<PlannedSwap>): (m: map<string, string>)
    ensures forall t :: t in m <==> exists k :: 0 <= k < |plans| && plans[k].target == t
  {
    if |plans| == 0 then map[]
    else
      var front := plans[..|plans| - 1];
      var last := plans[|plans| - 1];
      assert forall k :: 0 <= k < |front| ==> front[k] == plans[k];
      Incoming(front)[last.target := last.bench]
  }

  /** With valid plans the map shows each plan's bench player on its
      target. */
  lemma {:induction false} IncomingOfValid(plans: seq<PlannedSwap>, k: nat)
    requires PlanValid(plans) && k < |plans|
    ensures plans[k].target in Incoming(plans) && Incoming(plans)[plans[k].target] == plans[k].bench
  {
    var n := |plans| - 1;
    if k < n {
      var front := plans[..n];
      assert PlanValid(front) by {
        forall i, j | 0 <= i < j < |front| ensures front[i].bench != front[j].bench && front[i].target != front[j].target {
          assert front[i] == plans[i] && front[j] == plans[j];
        }
      }
      assert front[k] == plans[k];
      IncomingOfValid(front, k);
    }
  }

  /** The moves `handleConfirmPlan` issues: for each plan in order the
      target leaves the field for the bench, then the bench player takes
      the field at the target's position. */
  function ConfirmMoves(plans: seq<PlannedSwap>): (r: seq<MoveRequest>)
    ensures |r| == 2 * |plans|
    ensures forall k :: 0 <= k < |plans| ==> r[2 * k] == MoveRequest(plans[k].target, Field, Bench, None)
    ensures forall k :: 0 <= k < |plans| ==> r[2 * k + 1] == MoveRequest(plans[k].bench, Bench, Field, plans[k].position)
  {
    if |plans| == 0 then []
    else
      var front := plans[..|plans| - 1];
      var p := plans[|plans| - 1];
      var r := ConfirmMoves(front) + [MoveRequest(p.target, Field, Bench, None), MoveRequest(p.bench, Bench, Field, p.position)];
      assert forall k :: 0 <= k < |front| ==> front[k] == plans[k];
      r
  }

  /** The field player each confirmed move takes off is the one the page
      showed the incoming bench player on. */
  lemma ConfirmMatchesIncoming(plans: seq<PlannedSwap>, k: nat)
    requires PlanValid(plans) && k < |plans|
    ensures var moves := ConfirmMoves(plans);
            && moves[2 * k].playerId in Incoming(plans)
            && Incoming(plans)[moves[2 * k].playerId] == moves[2 * k + 1].playerId
  {
    IncomingOfValid(plans, k);
  }

  /** `results.find(r => r instanceof Error)`. */
  function FirstError(results: seq<Option<string>>): (r: Option<string>)
    ensures r.None? <==> forall k :: 0 <= k < |results| ==> results[k].None?
    ensures r.Some? ==> exists k :: 0 <= k < |results| && results[k] == r
  {
    if |results| == 0 then None
    else if results[0].Some? then results[0]
    else FirstError(results[1..])
  }

  /** The planning mode and its plans. */
  class SubPlanner {
    var planning: bool
    var plans: seq<PlannedSwap>

    ghost predicate Valid()
      reads this
    {
      PlanValid(plans)
    }

    constructor ()
      ensures Valid() && !planning && plans == []
    {
      planning := false;
      plans := [];
    }

    /** `handleTogglePlanningMode`: refused (with an alert) on a finished
        game; otherwise flips the mode and clears the plans. */
    method Toggle(finished: bool) returns (alerted: bool)
      requires Valid()
      modifies this
      ensures Valid()
      ensures alerted == finished
      ensures finished ==> unchanged(this)
      ensures !finished ==> planning == !old(planning) && plans == []
    {
      alerted := finished;
      if finished {
        return;
      }
      planning := !planning;
      plans := [];
    }

    /** `handlePlanDrop`. */
    method PlanDropOn(dragged: string, target: string, position: Option<Pos>)
      requires Valid()
      modifies this
      ensures Valid()
      ensures plans == PlanDrop(old(plans), dragged, target, position) && planning == old(planning)
    {
      PlanDropValid(plans, dragged, target, position);
      plans := PlanDrop(plans, dragged, target, position);
    }

    /** `handleCancelPlan`. */
    method Cancel()
      requires Valid()
      modifies this
      ensures Valid() && !planning && plans == []
    {
      planning := false;
      plans := [];
    }

    /** `handleConfirmPlan`: issues the moves of every plan; `results` are
        the errors the moves return, in issue order. The plans are cleared
        and the mode left only when no move failed. */
    method Confirm(hasGame: bool, busy: bool, results: seq<Option<string>>)
      returns (moves: seq<MoveRequest>, error: Option<string>)
      requires Valid()
      requires |results| == 2 * |plans|
      modifies this
      ensures Valid()
      ensures (!hasGame || busy) ==> moves == [] && error == None && unchanged(this)
      ensures hasGame && !busy ==> moves == ConfirmMoves(old(plans)) && error == FirstError(results)
      ensures hasGame && !busy && error.None? ==> !planning && plans == []
      ensures hasGame && !busy && error.Some? ==> unchanged(this)
    {
      moves, error := [], None;
      if !hasGame || busy {
        return;
      }
      var i := 0;
      while i < |plans|
        invariant 0 <= i <= |plans|
        invariant moves == ConfirmMoves(plans[..i])
      {
        var p := plans[i];
        assert plans[..i + 1][..i] == plans[..i];
        moves := moves + [MoveRequest(p.target, Field, Bench, None), MoveRequest(p.bench, Bench, Field, p.position)];
        i := i + 1;
      }
      assert plans[..i] == plans;
      error := FirstError(results);
      if error.None? {
        planning := false;
        plans := [];
      }
    }
  }
}
