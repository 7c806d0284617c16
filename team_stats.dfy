/**
 * calculate_team_stats: the games table turned into one snapshot per (team, date) by a
 * window-function query. Every final game gives a home and an away event; the events
 * of one (team, season) partition, ordered by date, feed cumulative counters over the
 * default RANGE frame (every row dated on or before the current one), a 10-row mean of
 * points for and against and a 5-row win count over ROWS frames; DISTINCT ON keeps one
 * row per (team, date), and the team_stats table is emptied and refilled.
 *
 * SQL leaves the order of same-date rows inside a partition open; the model fixes it:
 * the events are stably sorted by date from their UNION ALL order (all home events in
 * scan order, then all away events).
 */
module TeamStats {
  import opened Common
  import opened ProcessGames

  /** A row of game_results: one team's view of one final game. */
  datatype Event = Event(
    season: string,
    date: int,
    teamId: int,
    points: int,
    oppPoints: int,
    won: bool,
    isHome: bool)

  function DateOf(e: Event): int {
    e.date
  }

  predicate IsFinal(g: Game) {
    g.gameStatus == "final"
  }

  /** The home side of a game: its points, the away points against, won when it is the winner. */
  function HomeEvent(g: Game): Event {
    Event(g.season, g.gameDate, g.homeTeamId, g.homeScore, g.awayScore, g.winnerId == Some(g.homeTeamId), true)
  }

  /** The away side of a game, mirroring the home side. */
  function AwayEvent(g: Game): Event {
    Event(g.season, g.gameDate, g.awayTeamId, g.awayScore, g.homeScore, g.winnerId == Some(g.awayTeamId), false)
  }

  function HomeEvents(games: seq<Game>): seq<Event> {
    if games == [] then [] else HomeEvents(games[..|games| - 1]) + [HomeEvent(games[|games| - 1])]
  }

  function AwayEvents(games: seq<Game>): seq<Event> {
    if games == [] then [] else AwayEvents(games[..|games| - 1]) + [AwayEvent(games[|games| - 1])]
  }

  /** game_results: the home events of the final games, UNION ALL their away events. */
  function GameResults(scan: seq<Game>): seq<Event> {
    var finals := Filter(scan, IsFinal);
    HomeEvents(finals) + AwayEvents(finals)
  }

  lemma {:induction false} HomeEventsShape(games: seq<Game>)
    ensures |HomeEvents(games)| == |games|
    ensures forall i :: 0 <= i < |games| ==> HomeEvents(games)[i] == HomeEvent(games[i])
    decreases |games|
  {
    if games != [] {
      var init := games[..|games| - 1];
      HomeEventsShape(init);
      forall i | 0 <= i < |games| ensures HomeEvents(games)[i] == HomeEvent(games[i]) {
        if i < |init| {
          assert games[i] == init[i];
        }
      }
    }
  }

  lemma {:induction false} AwayEventsShape(games: seq<Game>)
    ensures |AwayEvents(games)| == |games|
    ensures forall i :: 0 <= i < |games| ==> AwayEvents(games)[i] == AwayEvent(games[i])
    decreases |games|
  {
    if games != [] {
      var init := games[..|games| - 1];
      AwayEventsShape(init);
      forall i | 0 <= i < |games| ensures AwayEvents(games)[i] == AwayEvent(games[i]) {
        if i < |init| {
          assert games[i] == init[i];
        }
      }
    }
  }

  /** Both side lists hold one event per game, in game order. */
  lemma SideEventsShape(games: seq<Game>)
    ensures |HomeEvents(games)| == |games| && |AwayEvents(games)| == |games|
    ensures forall i :: 0 <= i < |games| ==> HomeEvents(games)[i] == HomeEvent(games[i])
    ensures forall i :: 0 <= i < |games| ==> AwayEvents(games)[i] == AwayEvent(games[i])
  {
    HomeEventsShape(games);
    AwayEventsShape(games);
  }

  /**
   * Each final game yields exactly two events, at positions i and |finals| + i: its home
   * view and the mirrored away view.
   */
  lemma GameResultsShape(scan: seq<Game>)
    ensures var finals := Filter(scan, IsFinal);
      && |GameResults(scan)| == 2 * |finals|
      && forall i :: 0 <= i < |finals| ==>
           var h := GameResults(scan)[i];
           var a := GameResults(scan)[|finals| + i];
           && h.teamId == finals[i].homeTeamId && a.teamId == finals[i].awayTeamId
           && h.points == a.oppPoints == finals[i].homeScore
           && a.points == h.oppPoints == finals[i].awayScore
           && h.isHome && !a.isHome
           && h.date == a.date == finals[i].gameDate && h.season == a.season == finals[i].season
  {
    SideEventsShape(Filter(scan, IsFinal));
  }

  /** No event comes from anything but a final game of the scan. */
  lemma GameResultsOrigin(scan: seq<Game>, e: Event)
    requires e in GameResults(scan)
    ensures exists g :: g in scan && IsFinal(g) && (e == HomeEvent(g) || e == AwayEvent(g))
  {
    var finals := Filter(scan, IsFinal);
    SideEventsShape(finals);
    var k :| 0 <= k < |GameResults(scan)| && GameResults(scan)[k] == e;
    var g := if k < |finals| then finals[k] else finals[k - |finals|];
    FilterMembers(scan, IsFinal, g);
  }

  /**
   * In a consistent game between two different teams, each side won exactly when it
   * scored more; a tie is won by neither, so both count it as a loss.
   */
  lemma EventOutcome(g: Game)
    requires Consistent(g) && g.homeTeamId != g.awayTeamId
    ensures HomeEvent(g).won <==> g.homeScore > g.awayScore
    ensures AwayEvent(g).won <==> g.awayScore > g.homeScore
    ensures g.homeScore == g.awayScore ==> !HomeEvent(g).won && !AwayEvent(g).won
  {
  }

  // ---------------------------------------------------------------------------------
  // Cumulative counters: the default RANGE frame
  // ---------------------------------------------------------------------------------

  /** games_played, wins, and the home and away games and wins. */
  datatype Counters = Counters(games: int, wins: int, homeGames: int, homeWins: int, awayGames: int, awayWins: int)

  const NoGames := Counters(0, 0, 0, 0, 0, 0)

  /** What one event adds to each counter. */
  function Tally(e: Event): Counters {
    var w := if e.won then 1 else 0;
    if e.isHome then Counters(1, w, 1, w, 0, 0) else Counters(1, w, 0, 0, 1, w)
  }

  function Plus(a: Counters, b: Counters): Counters {
    Counters(a.games + b.games, a.wins + b.wins, a.homeGames + b.homeGames, a.homeWins + b.homeWins,
             a.awayGames + b.awayGames, a.awayWins + b.awayWins)
  }

  /** The counters over every event of p dated on or before d. */
  function CountThrough(p: seq<Event>, d: int): Counters
    decreases |p|
  {
    if p == [] then NoGames
    else
      var c := CountThrough(p[..|p| - 1], d);
      if p[|p| - 1].date <= d then Plus(c, Tally(p[|p| - 1])) else c
  }

  /** The counters over every event of q. */
  function Total(q: seq<Event>): Counters
    decreases |q|
  {
    if q == [] then NoGames else Plus(Total(q[..|q| - 1]), Tally(q[|q| - 1]))
  }

  /** The counters agree with each other: home and away split the games and the wins. */
  predicate Balanced(c: Counters) {
    && 0 <= c.wins <= c.games
    && c.homeGames + c.awayGames == c.games
    && c.homeWins + c.awayWins == c.wins
    && 0 <= c.homeWins <= c.homeGames
    && 0 <= c.awayWins <= c.awayGames
  }

  lemma {:induction false} CountThroughBalanced(p: seq<Event>, d: int)
    ensures Balanced(CountThrough(p, d))
    decreases |p|
  {
    if p != [] {
      CountThroughBalanced(p[..|p| - 1], d);
    }
  }

  /** Events after the first n that are all dated after d do not count. */
  lemma {:induction false} CountThroughIgnoresLater(p: seq<Event>, n: nat, d: int)
    requires n <= |p|
    requires forall j :: n <= j < |p| ==> p[j].date > d
    ensures CountThrough(p, d) == CountThrough(p[..n], d)
    decreases |p|
  {
    if |p| > n {
      var pre := p[..|p| - 1];
      assert pre[..n] == p[..n];
      CountThroughIgnoresLater(pre, n, d);
    } else {
      assert p[..n] == p;
    }
  }

  /** Events all dated on or before d all count. */
  lemma {:induction false} CountThroughEarlier(q: seq<Event>, d: int)
    requires forall j :: 0 <= j < |q| ==> q[j].date <= d
    ensures CountThrough(q, d) == Total(q)
    ensures Total(q).games == |q|
    decreases |q|
  {
    if q != [] {
      CountThroughEarlier(q[..|q| - 1], d);
    }
  }

  /** Counting through a later date never counts less, and counts more once an event falls between. */
  lemma {:induction false} CountThroughGrows(p: seq<Event>, d1: int, d2: int)
    requires d1 <= d2
    ensures CountThrough(p, d1).games <= CountThrough(p, d2).games
    ensures (exists j :: 0 <= j < |p| && d1 < p[j].date <= d2) ==>
              CountThrough(p, d1).games < CountThrough(p, d2).games
    decreases |p|
  {
    if p != [] {
      var pre := p[..|p| - 1];
      CountThroughGrows(pre, d1, d2);
      if exists j :: 0 <= j < |p| && d1 < p[j].date <= d2 {
        var j :| 0 <= j < |p| && d1 < p[j].date <= d2;
        if j < |p| - 1 {
          assert pre[j] == p[j];
        }
      }
    }
  }

  // ---------------------------------------------------------------------------------
  // Trailing ROWS frames and the snapshot row
  // ---------------------------------------------------------------------------------

  /** ROWS BETWEEN k - 1 PRECEDING AND CURRENT ROW, for the n-th row (1-based) of p. */
  function Frame(p: seq<Event>, n: nat, k: nat): (w: seq<Event>)
    requires n <= |p|
    ensures |w| == Min(k, n)
  {
    p[n - Min(k, n)..n]
  }

  function SumPoints(w: seq<Event>): int {
    if w == [] then 0 else SumPoints(w[..|w| - 1]) + w[|w| - 1].points
  }

  function SumOppPoints(w: seq<Event>): int {
    if w == [] then 0 else SumOppPoints(w[..|w| - 1]) + w[|w| - 1].oppPoints
  }

  function WinsIn(w: seq<Event>): int {
    if w == [] then 0 else WinsIn(w[..|w| - 1]) + (if w[|w| - 1].won then 1 else 0)
  }

  lemma {:induction false} WinsInBounds(w: seq<Event>)
    ensures 0 <= WinsIn(w) <= |w|
    decreases |w|
  {
    if w != [] {
      WinsInBounds(w[..|w| - 1]);
    }
  }

  /** AVG over a non-empty frame, exactly. */
  function Mean(sum: int, count: int): real
    requires count > 0
  {
    sum as real / count as real
  }

  /** A win-loss text: the two counts joined by '-'. */
  function RecordText(w: int, l: int): string {
    IntToString(w) + "-" + IntToString(l)
  }

  /** A row of the team_stats table. */
  datatype StatRow = StatRow(
    teamId: int,
    statDate: int,
    season: string,
    gamesPlayed: int,
    wins: int,
    losses: int,
    winPct: real,
    avgPoints: real,
    avgOppPoints: real,
    pointDiff: real,
    homeRecord: string,
    awayRecord: string,
    last5Record: string)

  /** CASE WHEN games_played > 0 THEN ROUND(wins / games_played, 3) ELSE 0. */
  function WinPct(c: Counters): real {
    if c.games > 0 then RoundTo(c.wins as real / c.games as real, 3) else 0.0
  }

  /** home_record: the home wins, and the home games minus them. */
  function HomeRecord(c: Counters): string {
    RecordText(c.homeWins, c.homeGames - c.homeWins)
  }

  /** away_record: the away wins, and the away games minus them. */
  function AwayRecord(c: Counters): string {
    RecordText(c.awayWins, c.awayGames - c.awayWins)
  }

  /** last_5_record: the wins among the last five rows, and LEAST(5, games_played) minus them. */
  function LastFiveRecord(wins: int, games: int): string {
    RecordText(wins, Min(5, games) - wins)
  }

  /** AVG(points) - AVG(opp_points) over a frame, before rounding. */
  function Margin(w: seq<Event>): real
    requires |w| > 0
  {
    Mean(SumPoints(w), |w|) - Mean(SumOppPoints(w), |w|)
  }

  /** The values the SELECT computes for one row from its frames, rounded and rendered. */
  function Present(e: Event, c: Counters, w10: seq<Event>, w5: seq<Event>): StatRow
    requires |w10| > 0
  {
    var avgPoints := Mean(SumPoints(w10), |w10|);
    var avgOppPoints := Mean(SumOppPoints(w10), |w10|);
    StatRow(
      e.teamId, e.date, e.season, c.games, c.wins, c.games - c.wins, WinPct(c),
      RoundTo(avgPoints, 1), RoundTo(avgOppPoints, 1), RoundTo(Margin(w10), 1),
      HomeRecord(c), AwayRecord(c),
      LastFiveRecord(WinsIn(w5), c.games))
  }

  /** The row of the n-th event (1-based) of the date-ordered partition p. */
  function RowFor(p: seq<Event>, n: nat): StatRow
    requires 1 <= n <= |p|
  {
    Present(p[n - 1], CountThrough(p, p[n - 1].date), Frame(p, n, 10), Frame(p, n, 5))
  }

  /** The counted columns of the n-th row, as read off its counters and its last-5 frame. */
  lemma RowForCounts(p: seq<Event>, n: nat)
    requires 1 <= n <= |p|
    ensures var c := CountThrough(p, p[n - 1].date); var r := RowFor(p, n);
      && r.gamesPlayed == c.games && r.wins == c.wins && r.losses == c.games - c.wins
      && r.winPct == WinPct(c)
      && r.homeRecord == HomeRecord(c) && r.awayRecord == AwayRecord(c)
      && r.last5Record == LastFiveRecord(WinsIn(Frame(p, n, 5)), c.games)
  {
  }

  /** In digits, a dash, then anything, the first dash is the one after the digits. */
  lemma DashAfterDigits(x: string, y: string, i: nat)
    requires forall k :: 0 <= k < |x| ==> IsDigit(x[k])
    requires i <= |x|
    ensures (x + "-" + y)[i] == '-' <==> i == |x|
  {
  }

  /** The record text determines both of its counts. */
  lemma RecordTextInjective(w1: int, l1: int, w2: int, l2: int)
    requires w1 >= 0 && l1 >= 0 && w2 >= 0 && l2 >= 0
    requires RecordText(w1, l1) == RecordText(w2, l2)
    ensures w1 == w2 && l1 == l2
  {
    NatToStringRoundTrip(w1);
    NatToStringRoundTrip(w2);
    assert RecordText(w1, l1) == NatToString(w1) + "-" + NatToString(l1);
    assert RecordText(w2, l2) == NatToString(w2) + "-" + NatToString(l2);
    SplitAtDash(NatToString(w1), NatToString(l1), NatToString(w2), NatToString(l2));
    NatToStringInjective(w1, w2);
    NatToStringInjective(l1, l2);
  }

  /** Two digit strings each followed by a dash split a text at the same place. */
  lemma SplitAtDash(x1: string, y1: string, x2: string, y2: string)
    requires forall k :: 0 <= k < |x1| ==> IsDigit(x1[k])
    requires forall k :: 0 <= k < |x2| ==> IsDigit(x2[k])
    requires x1 + "-" + y1 == x2 + "-" + y2
    ensures x1 == x2 && y1 == y2
  {
    var s := x1 + "-" + y1;
    if |x1| < |x2| {
      DashAfterDigits(x1, y1, |x1|);
      DashAfterDigits(x2, y2, |x1|);
      assert false;
    } else if |x2| < |x1| {
      DashAfterDigits(x2, y2, |x2|);
      DashAfterDigits(x1, y1, |x2|);
      assert false;
    }
    assert x1 == s[..|x1|] == x2;
    assert y1 == s[|x1| + 1..] == y2;
  }

  /** The last row of its date: the next row, if any, is dated later. */
  predicate EndOfDate(p: seq<Event>, n: nat)
    requires 1 <= n <= |p|
  {
    n == |p| || p[n].date != p[n - 1].date
  }

  /** Counting a prefix never counts more than counting the whole. */
  lemma {:induction false} CountThroughPrefix(p: seq<Event>, n: nat, d: int)
    requires n <= |p|
    ensures CountThrough(p[..n], d).games <= CountThrough(p, d).games
    decreases |p|
  {
    if |p| > n {
      var pre := p[..|p| - 1];
      assert pre[..n] == p[..n];
      CountThroughPrefix(pre, n, d);
    } else {
      assert p[..n] == p;
    }
  }

  /**
   * In a date-ordered partition the n-th row counts at least its n rows; the last row of
   * its date counts exactly the rows up to it.
   */
  lemma RowForGames(p: seq<Event>, n: nat)
    requires SortedBy(p, DateOf) && 1 <= n <= |p|
    ensures CountThrough(p, p[n - 1].date).games >= n
    ensures EndOfDate(p, n) ==> CountThrough(p, p[n - 1].date) == Total(p[..n])
    ensures EndOfDate(p, n) ==> CountThrough(p, p[n - 1].date).games == n
  {
    var d := p[n - 1].date;
    var q := p[..n];
    DatesUpTo(p, n);
    CountThroughEarlier(q, d);
    CountThroughPrefix(p, n, d);
    if EndOfDate(p, n) {
      if n < |p| {
        DatesAfter(p, n);
        CountThroughIgnoresLater(p, n, d);
      } else {
        assert q == p;
      }
    }
  }

  /** In a date-ordered partition no row up to the n-th is dated after it. */
  lemma DatesUpTo(p: seq<Event>, n: nat)
    requires SortedBy(p, DateOf) && 1 <= n <= |p|
    ensures forall j :: 0 <= j < |p[..n]| ==> p[..n][j].date <= p[n - 1].date
  {
    forall j | 0 <= j < |p[..n]| ensures p[..n][j].date <= p[n - 1].date {
      assert DateOf(p[j]) <= DateOf(p[n - 1]);
    }
  }

  /** In a date-ordered partition every row after the last of a date is dated later. */
  lemma DatesAfter(p: seq<Event>, n: nat)
    requires SortedBy(p, DateOf) && 1 <= n < |p| && p[n].date != p[n - 1].date
    ensures forall j :: n <= j < |p| ==> p[j].date > p[n - 1].date
  {
    assert DateOf(p[n - 1]) <= DateOf(p[n]);
    forall j | n <= j < |p| ensures p[j].date > p[n - 1].date {
      if j > n {
        assert DateOf(p[n]) <= DateOf(p[j]);
      }
    }
  }

  /**
   * Every row of a date-ordered partition: games_played = wins + losses with no negative
   * count, at least as many games as rows so far; the home and away records split the
   * games and the wins.
   */
  lemma RowForBalanced(p: seq<Event>, n: nat)
    requires SortedBy(p, DateOf) && 1 <= n <= |p|
    ensures var r := RowFor(p, n);
      && r.gamesPlayed == r.wins + r.losses
      && r.gamesPlayed >= n && 0 <= r.wins && 0 <= r.losses
    ensures var r := RowFor(p, n);
      exists hw, hl, aw, al ::
        && 0 <= hw && 0 <= hl && 0 <= aw && 0 <= al
        && r.homeRecord == RecordText(hw, hl) && r.awayRecord == RecordText(aw, al)
        && hw + aw == r.wins && hw + hl + aw + al == r.gamesPlayed
  {
    var c := CountThrough(p, p[n - 1].date);
    CountThroughBalanced(p, p[n - 1].date);
    RowForGames(p, n);
    RowForCounts(p, n);
    var r := RowFor(p, n);
    RecordsSplit(c, r.homeRecord, r.awayRecord, r.wins, r.gamesPlayed);
  }

  /** The home and away records of balanced counters split the wins and the games. */
  lemma RecordsSplit(c: Counters, home: string, away: string, wins: int, games: int)
    requires Balanced(c) && home == HomeRecord(c) && away == AwayRecord(c)
    requires wins == c.wins && games == c.games
    ensures exists hw, hl, aw, al ::
      && 0 <= hw && 0 <= hl && 0 <= aw && 0 <= al
      && home == RecordText(hw, hl) && away == RecordText(aw, al)
      && hw + aw == wins && hw + hl + aw + al == games
  {
    var hw, hl := c.homeWins, c.homeGames - c.homeWins;
    var aw, al := c.awayWins, c.awayGames - c.awayWins;
    assert home == RecordText(hw, hl) && away == RecordText(aw, al);
  }

  /**
   * avg_points and avg_opp_points of the n-th row are the means over rows max(1, n - 9)
   * to n, each rounded to one place; all rows so far while n <= 10.
   */
  lemma RowForAverages(p: seq<Event>, n: nat)
    requires 1 <= n <= |p|
    ensures var w := p[n - Min(10, n)..n];
      && |w| == Min(10, n)
      && RowFor(p, n).avgPoints == RoundTo(Mean(SumPoints(w), |w|), 1)
      && RowFor(p, n).avgOppPoints == RoundTo(Mean(SumOppPoints(w), |w|), 1)
    ensures n <= 10 ==> RowFor(p, n).avgPoints == RoundTo(Mean(SumPoints(p[..n]), n), 1)
    ensures var w := p[n - Min(10, n)..n];
      -0.05 <= RowFor(p, n).avgPoints - Mean(SumPoints(w), |w|) <= 0.05
  {
    var w := p[n - Min(10, n)..n];
    RowForMeans(p, n);
    if n <= 10 {
      assert w == p[..n];
    }
    TenthsError(Mean(SumPoints(w), |w|));
  }

  /**
   * The averaged columns of the n-th row, as read off its last-10 frame: point_diff is
   * rounded from the difference of the two unrounded averages.
   */
  lemma RowForMeans(p: seq<Event>, n: nat)
    requires 1 <= n <= |p|
    ensures var w := Frame(p, n, 10);
      && RowFor(p, n).avgPoints == RoundTo(Mean(SumPoints(w), |w|), 1)
      && RowFor(p, n).avgOppPoints == RoundTo(Mean(SumOppPoints(w), |w|), 1)
      && RowFor(p, n).pointDiff == RoundTo(Margin(w), 1)
  {
  }

  /** The difference of a frame's two averages is its mean point margin. */
  lemma MarginMean(w: seq<Event>)
    requires |w| > 0
    ensures Margin(w) == Mean(SumPoints(w) - SumOppPoints(w), |w|)
  {
    MeanDifference(SumPoints(w), SumOppPoints(w), |w|);
  }

  /** The difference of two means over one count is the mean of the differences. */
  lemma MeanDifference(a: int, b: int, count: int)
    requires count > 0
    ensures Mean(a, count) - Mean(b, count) == Mean(a - b, count)
  {
  }

  /** Rounding to one place moves a value by at most 0.05. */
  lemma TenthsError(x: real)
    ensures -0.05 <= RoundTo(x, 1) - x <= 0.05
  {
    RoundToError(x, 1);
    assert Scale(1) == 10.0;
  }

  /**
   * last_5_record is w-(min(5, games_played) - w) for the wins w among rows max(1, n - 4)
   * to n, 0 <= w <= min(5, games_played); on the last row of a date, min(5,
   * games_played) is the number of rows in that window.
   */
  lemma RowForLastFive(p: seq<Event>, n: nat)
    requires SortedBy(p, DateOf) && 1 <= n <= |p|
    ensures var r := RowFor(p, n); var w := WinsIn(p[n - Min(5, n)..n]);
      && r.last5Record == LastFiveRecord(w, r.gamesPlayed)
      && 0 <= w <= Min(5, r.gamesPlayed)
    ensures EndOfDate(p, n) ==> Min(5, RowFor(p, n).gamesPlayed) == |p[n - Min(5, n)..n]|
  {
    RowForCounts(p, n);
    RowForGames(p, n);
    WinsInBounds(p[n - Min(5, n)..n]);
  }

  lemma WinPctBounds(c: Counters)
    requires Balanced(c) && c.games > 0
    ensures 0.0 <= WinPct(c) <= 1.0
    ensures -0.0005 <= WinPct(c) - c.wins as real / c.games as real <= 0.0005
  {
    var x := c.wins as real / c.games as real;
    UnitFraction(c.wins, c.games);
    RoundToUnitInterval(x, 3);
    ThousandthsError(x);
  }

  /** A count out of a positive total is a fraction in [0, 1]. */
  lemma UnitFraction(part: int, total: int)
    requires 0 <= part <= total && total > 0
    ensures 0.0 <= part as real / total as real <= 1.0
  {
    DivideByPositive(0.0, part as real, total as real);
    DivideByPositive(part as real, total as real, total as real);
  }

  /** Rounding to three places moves a value by at most 0.0005. */
  lemma ThousandthsError(x: real)
    ensures -0.0005 <= RoundTo(x, 3) - x <= 0.0005
  {
    RoundToError(x, 3);
    assert Scale(3) == 1000.0;
  }

  /** win_pct lies in [0, 1] and within half a thousandth of wins / games_played. */
  lemma RowForWinPct(p: seq<Event>, n: nat)
    requires SortedBy(p, DateOf) && 1 <= n <= |p|
    ensures var r := RowFor(p, n);
      && 0.0 <= r.winPct <= 1.0
      && r.gamesPlayed > 0
      && -0.0005 <= r.winPct - r.wins as real / r.gamesPlayed as real <= 0.0005
  {
    var c := CountThrough(p, p[n - 1].date);
    CountThroughBalanced(p, p[n - 1].date);
    RowForGames(p, n);
    RowForCounts(p, n);
    WinPctBounds(c);
  }

  /**
   * games_played rises strictly from one date to a later one of the same partition, and
   * rows of one date share their counters.
   */
  lemma RowForIncreases(p: seq<Event>, n1: nat, n2: nat)
    requires 1 <= n1 <= |p| && 1 <= n2 <= |p|
    ensures p[n1 - 1].date < p[n2 - 1].date ==> RowFor(p, n1).gamesPlayed < RowFor(p, n2).gamesPlayed
    ensures p[n1 - 1].date == p[n2 - 1].date ==>
              RowFor(p, n1).gamesPlayed == RowFor(p, n2).gamesPlayed
              && RowFor(p, n1).wins == RowFor(p, n2).wins
              && RowFor(p, n1).homeRecord == RowFor(p, n2).homeRecord
              && RowFor(p, n1).awayRecord == RowFor(p, n2).awayRecord
  {
    if p[n1 - 1].date < p[n2 - 1].date {
      CountThroughGrows(p, p[n1 - 1].date, p[n2 - 1].date);
    }
  }

  // ---------------------------------------------------------------------------------
  // Partitions, the SELECT's rows and DISTINCT ON
  // ---------------------------------------------------------------------------------

  /** PARTITION BY team_id, season: the events of one team in one season. */
  function InPartition(teamId: int, season: string): Event -> bool {
    (e: Event) => e.teamId == teamId && e.season == season
  }

  /** game_results in window order: by date, same-date rows in their UNION ALL order. */
  function Ordered(scan: seq<Game>): seq<Event> {
    SortBy(GameResults(scan), DateOf)
  }

  /** One window partition in window order. */
  function Partition(scan: seq<Game>, teamId: int, season: string): seq<Event> {
    Filter(Ordered(scan), InPartition(teamId, season))
  }

  /**
   * A partition is date-ordered and holds exactly the team's events of that season; it is
   * the date order of those events alone, so no other team or season affects it.
   */
  lemma PartitionSpec(scan: seq<Game>, teamId: int, season: string)
    ensures SortedBy(Partition(scan, teamId, season), DateOf)
    ensures multiset(Partition(scan, teamId, season))
            == multiset(Filter(GameResults(scan), InPartition(teamId, season)))
    ensures Partition(scan, teamId, season)
            == SortBy(Filter(GameResults(scan), InPartition(teamId, season)), DateOf)
  {
    var P := InPartition(teamId, season);
    SortBySorted(GameResults(scan), DateOf);
    FilterKeepsSorted(Ordered(scan), DateOf, P);
    FilterSortBy(GameResults(scan), DateOf, P);
    SortBySorted(Filter(GameResults(scan), P), DateOf);
  }

  /** Two game scans with the same events for a team and season give it the same partition. */
  lemma PartitionIsolated(scan1: seq<Game>, scan2: seq<Game>, teamId: int, season: string)
    requires Filter(GameResults(scan1), InPartition(teamId, season))
             == Filter(GameResults(scan2), InPartition(teamId, season))
    ensures Partition(scan1, teamId, season) == Partition(scan2, teamId, season)
  {
    PartitionSpec(scan1, teamId, season);
    PartitionSpec(scan2, teamId, season);
  }

  /** The row the SELECT computes for the k-th event of the ordered game_results o. */
  function Candidate(o: seq<Event>, k: nat): StatRow
    requires k < |o|
  {
    var P := InPartition(o[k].teamId, o[k].season);
    FilterPosition(o, k, P);
    RowFor(Filter(o, P), |Filter(o[..k + 1], P)|)
  }

  /** The rows of team_game_stats, one per event, in window order. */
  function Candidates(scan: seq<Game>): seq<StatRow> {
    var o := Ordered(scan);
    seq(|o|, k requires 0 <= k < |o| => Candidate(o, k))
  }

  function KeyOf(r: StatRow): (int, int) {
    (r.teamId, r.statDate)
  }

  /**
   * DISTINCT ON (team_id, stat_date) ... WHERE games_played > 0 ORDER BY games_played
   * DESC, over the rows in order: a row replaces the kept one of its key unless that one
   * has more games played.
   */
  function Select(rows: seq<StatRow>): map<(int, int), StatRow>
    decreases |rows|
  {
    if rows == [] then map[]
    else
      var kept := Select(rows[..|rows| - 1]);
      var r := rows[|rows| - 1];
      if r.gamesPlayed <= 0 then kept
      else if KeyOf(r) in kept && kept[KeyOf(r)].gamesPlayed > r.gamesPlayed then kept
      else kept[KeyOf(r) := r]
  }

  /**
   * A key is kept exactly when some row with games played has it; the kept row is one of
   * the rows, under its own key, and has the most games played among the rows of its key.
   */
  lemma SelectSpec(rows: seq<StatRow>, key: (int, int))
    ensures key in Select(rows) <==>
              exists i :: 0 <= i < |rows| && KeyOf(rows[i]) == key && rows[i].gamesPlayed > 0
    ensures key in Select(rows) ==>
              && KeyOf(Select(rows)[key]) == key
              && Select(rows)[key].gamesPlayed > 0
              && (exists i :: 0 <= i < |rows| && rows[i] == Select(rows)[key])
              && (forall i :: 0 <= i < |rows| && KeyOf(rows[i]) == key ==>
                    rows[i].gamesPlayed <= Select(rows)[key].gamesPlayed)
  {
    SelectKeys(rows, key);
    SelectKept(rows, key);
  }

  lemma {:induction false} SelectKeys(rows: seq<StatRow>, key: (int, int))
    ensures key in Select(rows) <==>
              exists i :: 0 <= i < |rows| && KeyOf(rows[i]) == key && rows[i].gamesPlayed > 0
    decreases |rows|
  {
    if rows != [] {
      var pre := rows[..|rows| - 1];
      SelectKeys(pre, key);
      var last := |rows| - 1;
      if key in Select(pre) {
        var i :| 0 <= i < |pre| && KeyOf(pre[i]) == key && pre[i].gamesPlayed > 0;
        assert rows[i] == pre[i];
      }
      if exists i :: 0 <= i < |rows| && KeyOf(rows[i]) == key && rows[i].gamesPlayed > 0 {
        var i :| 0 <= i < |rows| && KeyOf(rows[i]) == key && rows[i].gamesPlayed > 0;
        if i < last {
          assert pre[i] == rows[i];
        }
      }
    }
  }

  lemma {:induction false} SelectKept(rows: seq<StatRow>, key: (int, int))
    ensures key in Select(rows) ==>
              && KeyOf(Select(rows)[key]) == key
              && Select(rows)[key].gamesPlayed > 0
              && (exists i :: 0 <= i < |rows| && rows[i] == Select(rows)[key])
              && (forall i :: 0 <= i < |rows| && KeyOf(rows[i]) == key ==>
                    rows[i].gamesPlayed <= Select(rows)[key].gamesPlayed)
    decreases |rows|
  {
    if rows != [] {
      var pre := rows[..|rows| - 1];
      SelectKept(pre, key);
      SelectKeys(pre, key);
      var last := |rows| - 1;
      forall i | 0 <= i < last ensures rows[i] == pre[i] { }
      if key in Select(pre) {
        var j :| 0 <= j < |pre| && pre[j] == Select(pre)[key];
        assert rows[j] == Select(pre)[key];
      }
    }
  }

  /** The team_stats table the statement leaves behind. */
  function TeamStatsOf(scan: seq<Game>): map<(int, int), StatRow> {
    Select(Candidates(scan))
  }

  /**
   * The k-th row of team_game_stats is the row of the k-th ordered event within its own
   * partition.
   */
  lemma CandidateRow(scan: seq<Game>, k: nat)
    requires k < |Ordered(scan)|
    ensures var o := Ordered(scan);
      var p := Partition(scan, o[k].teamId, o[k].season);
      var n := |Filter(o[..k + 1], InPartition(o[k].teamId, o[k].season))|;
      && |Candidates(scan)| == |o|
      && 1 <= n <= |p| && p[n - 1] == o[k]
      && Candidates(scan)[k] == RowFor(p, n)
  {
    var o := Ordered(scan);
    var P := InPartition(o[k].teamId, o[k].season);
    FilterPosition(o, k, P);
    assert Candidates(scan)[k] == Candidate(o, k);
  }

  /** The k-th row of team_game_stats has the k-th ordered event's team, date and season, and a game. */
  lemma CandidateKey(scan: seq<Game>, k: nat)
    requires k < |Ordered(scan)|
    ensures var o := Ordered(scan);
      && |Candidates(scan)| == |o|
      && Candidates(scan)[k].teamId == o[k].teamId
      && Candidates(scan)[k].statDate == o[k].date
      && Candidates(scan)[k].season == o[k].season
      && Candidates(scan)[k].gamesPlayed >= 1
  {
    var o := Ordered(scan);
    CandidateRow(scan, k);
    var p := Partition(scan, o[k].teamId, o[k].season);
    var n := |Filter(o[..k + 1], InPartition(o[k].teamId, o[k].season))|;
    RowForKey(p, n);
    RowForPlayed(p, n);
  }

  /** Every row counts at least its own game. */
  lemma RowForPlayed(p: seq<Event>, n: nat)
    requires 1 <= n <= |p|
    ensures RowFor(p, n).gamesPlayed >= 1
  {
    var d := p[n - 1].date;
    CountThroughBalanced(p, d - 1);
    CountThroughGrows(p, d - 1, d);
    RowForCounts(p, n);
  }

  /** The events of the ordered game_results are those of game_results. */
  lemma OrderedMembers(scan: seq<Game>, e: Event)
    ensures e in Ordered(scan) <==> e in GameResults(scan)
  {
    SortBySorted(GameResults(scan), DateOf);
    assert e in Ordered(scan) <==> e in multiset(Ordered(scan));
  }

  /**
   * team_stats has a row for (team, date) exactly when a final game on that date involved
   * the team, at home or away.
   */
  lemma TeamStatsKeys(scan: seq<Game>, teamId: int, date: int)
    ensures (teamId, date) in TeamStatsOf(scan) <==>
              exists g :: g in scan && IsFinal(g) && g.gameDate == date
                          && (g.homeTeamId == teamId || g.awayTeamId == teamId)
  {
    if (teamId, date) in TeamStatsOf(scan) {
      KeyHasGame(scan, (teamId, date));
    }
    if exists g :: g in scan && IsFinal(g) && g.gameDate == date
                   && (g.homeTeamId == teamId || g.awayTeamId == teamId) {
      var g :| g in scan && IsFinal(g) && g.gameDate == date
               && (g.homeTeamId == teamId || g.awayTeamId == teamId);
      GameHasKey(scan, g, teamId);
    }
  }

  lemma KeyHasGame(scan: seq<Game>, key: (int, int))
    requires key in TeamStatsOf(scan)
    ensures exists g :: g in scan && IsFinal(g) && g.gameDate == key.1
                        && (g.homeTeamId == key.0 || g.awayTeamId == key.0)
  {
    var e := KeyHasEvent(scan, key);
    var g := EventHasGame(scan, e);
  }

  /** A stored key comes from an event of game_results with that team and date. */
  lemma KeyHasEvent(scan: seq<Game>, key: (int, int)) returns (e: Event)
    requires key in TeamStatsOf(scan)
    ensures e in GameResults(scan) && e.teamId == key.0 && e.date == key.1
  {
    var cands := Candidates(scan);
    SelectSpec(cands, key);
    var i :| 0 <= i < |cands| && KeyOf(cands[i]) == key && cands[i].gamesPlayed > 0;
    CandidateKey(scan, i);
    e := Ordered(scan)[i];
    OrderedMembers(scan, e);
  }

  /** An event of game_results comes from a final game on its date involving its team. */
  lemma EventHasGame(scan: seq<Game>, e: Event) returns (g: Game)
    requires e in GameResults(scan)
    ensures g in scan && IsFinal(g) && g.gameDate == e.date
    ensures g.homeTeamId == e.teamId || g.awayTeamId == e.teamId
  {
    GameResultsOrigin(scan, e);
    g :| g in scan && IsFinal(g) && (e == HomeEvent(g) || e == AwayEvent(g));
  }

  /** A final game gives each of its teams an event on its date. */
  lemma GameHasEvent(scan: seq<Game>, g: Game, teamId: int) returns (e: Event)
    requires g in scan && IsFinal(g) && (g.homeTeamId == teamId || g.awayTeamId == teamId)
    ensures e in GameResults(scan) && e.teamId == teamId && e.date == g.gameDate
  {
    var finals := Filter(scan, IsFinal);
    FilterMembers(scan, IsFinal, g);
    var j :| 0 <= j < |finals| && finals[j] == g;
    SideEventsShape(finals);
    if g.homeTeamId == teamId {
      e := GameResults(scan)[j];
      assert e == HomeEvent(g);
    } else {
      e := GameResults(scan)[|finals| + j];
      assert e == AwayEvent(g);
    }
  }

  lemma GameHasKey(scan: seq<Game>, g: Game, teamId: int)
    requires g in scan && IsFinal(g) && (g.homeTeamId == teamId || g.awayTeamId == teamId)
    ensures (teamId, g.gameDate) in TeamStatsOf(scan)
  {
    var e := GameHasEvent(scan, g, teamId);
    var o := Ordered(scan);
    OrderedMembers(scan, e);
    var i :| 0 <= i < |o| && o[i] == e;
    CandidateKey(scan, i);
    SelectSpec(Candidates(scan), (teamId, g.gameDate));
  }

  /**
   * A stored row is the SELECT's row for one of the team's events on its date, in the
   * partition of its season: games_played = wins + losses >= 1, win_pct in [0, 1], and
   * the counters are those of the team's games of that season through that date.
   */
  lemma TeamStatsRows(scan: seq<Game>, key: (int, int))
    requires key in TeamStatsOf(scan)
    ensures var r := TeamStatsOf(scan)[key];
      var p := Partition(scan, key.0, r.season);
      && KeyOf(r) == key
      && (exists n :: 1 <= n <= |p| && p[n - 1].date == key.1 && r == RowFor(p, n))
      && r.gamesPlayed == r.wins + r.losses && r.gamesPlayed >= 1
      && 0 <= r.wins && 0 <= r.losses
      && 0.0 <= r.winPct <= 1.0
      && r.gamesPlayed == CountThrough(p, key.1).games
      && r.wins == CountThrough(p, key.1).wins
  {
    var cands := Candidates(scan);
    SelectSpec(cands, key);
    var r := TeamStatsOf(scan)[key];
    var i :| 0 <= i < |cands| && cands[i] == r;
    CandidateKey(scan, i);
    CandidateRow(scan, i);
    var o := Ordered(scan);
    var p := Partition(scan, key.0, r.season);
    var n := |Filter(o[..i + 1], InPartition(o[i].teamId, o[i].season))|;
    PartitionSpec(scan, key.0, r.season);
    RowForBalanced(p, n);
    RowForWinPct(p, n);
  }

  /** The stored row of a key has the most games played among the SELECT's rows of that key. */
  lemma TeamStatsMostGames(scan: seq<Game>, k: nat)
    requires k < |Candidates(scan)|
    ensures KeyOf(Candidates(scan)[k]) in TeamStatsOf(scan)
    ensures Candidates(scan)[k].gamesPlayed <= TeamStatsOf(scan)[KeyOf(Candidates(scan)[k])].gamesPlayed
  {
    var cands := Candidates(scan);
    CandidateKey(scan, k);
    SelectSpec(cands, KeyOf(cands[k]));
  }

  // ---------------------------------------------------------------------------------
  // One pass over a partition with sliding windows
  // ---------------------------------------------------------------------------------

  /** The positions (1-based) among the first m of p that end their date, in order. */
  function DateEnds(p: seq<Event>, m: nat): (ends: seq<nat>)
    requires m <= |p|
    ensures forall i :: 0 <= i < |ends| ==> 1 <= ends[i] <= m
  {
    if m == 0 then [] else DateEnds(p, m - 1) + (if EndOfDate(p, m) then [m] else [])
  }

  /** The rows of the given positions of p, in their order. */
  function RowsAt(p: seq<Event>, ends: seq<nat>): seq<StatRow>
    requires forall i :: 0 <= i < |ends| ==> 1 <= ends[i] <= |p|
  {
    seq(|ends|, i requires 0 <= i < |ends| => RowFor(p, ends[i]))
  }

  /** The rows of the date ends among the first m events of p. */
  function DateRowsUpTo(p: seq<Event>, m: nat): seq<StatRow>
    requires m <= |p|
  {
    RowsAt(p, DateEnds(p, m))
  }

  /** The rows the per-date selection keeps in a partition: one per date, its last event's. */
  function DateRows(p: seq<Event>): seq<StatRow> {
    DateRowsUpTo(p, |p|)
  }

  /** One more position adds its row at the end. */
  lemma RowsAtPush(p: seq<Event>, ends: seq<nat>, m: nat)
    requires forall i :: 0 <= i < |ends| ==> 1 <= ends[i] <= |p|
    requires 1 <= m <= |p|
    ensures RowsAt(p, ends + [m]) == RowsAt(p, ends) + [RowFor(p, m)]
  {
    var a, b := RowsAt(p, ends + [m]), RowsAt(p, ends) + [RowFor(p, m)];
    forall i | 0 <= i < |a| ensures a[i] == b[i] {
      if i < |ends| {
        assert (ends + [m])[i] == ends[i];
      }
    }
  }

  /** One more event adds its row exactly when it ends its date. */
  lemma DateRowsStep(p: seq<Event>, n: nat)
    requires n < |p|
    ensures EndOfDate(p, n + 1) ==> DateRowsUpTo(p, n + 1) == DateRowsUpTo(p, n) + [RowFor(p, n + 1)]
    ensures !EndOfDate(p, n + 1) ==> DateRowsUpTo(p, n + 1) == DateRowsUpTo(p, n)
  {
    if EndOfDate(p, n + 1) {
      assert DateEnds(p, n + 1) == DateEnds(p, n) + [n + 1];
      RowsAtPush(p, DateEnds(p, n), n + 1);
    } else {
      assert DateEnds(p, n + 1) == DateEnds(p, n);
    }
  }

  /** A row carries its event's team, date and season. */
  lemma RowForKey(p: seq<Event>, n: nat)
    requires 1 <= n <= |p|
    ensures RowFor(p, n).teamId == p[n - 1].teamId
    ensures RowFor(p, n).statDate == p[n - 1].date
    ensures RowFor(p, n).season == p[n - 1].season
  {
  }

  /** The kept positions are exactly the ends of dates, in increasing order. */
  lemma {:induction false} DateEndsMembers(p: seq<Event>, m: nat)
    requires m <= |p|
    ensures forall n :: n in DateEnds(p, m) <==> 1 <= n <= m && EndOfDate(p, n)
    ensures forall i, j :: 0 <= i < j < |DateEnds(p, m)| ==> DateEnds(p, m)[i] < DateEnds(p, m)[j]
    decreases m
  {
    if m > 0 {
      DateEndsMembers(p, m - 1);
      var e := DateEnds(p, m - 1);
      var ends := DateEnds(p, m);
      if EndOfDate(p, m) {
        assert ends == e + [m];
        forall i, j | 0 <= i < j < |ends| ensures ends[i] < ends[j] {
          assert ends[i] == e[i];
          if j < |e| {
            assert ends[j] == e[j];
          }
        }
      } else {
        assert ends == e;
      }
    }
  }

  /** After the end of a date, a date-ordered partition only has later dates. */
  lemma LaterDate(p: seq<Event>, a: nat, b: nat)
    requires SortedBy(p, DateOf) && 1 <= a < b <= |p| && EndOfDate(p, a)
    ensures p[a - 1].date < p[b - 1].date
  {
    assert DateOf(p[a - 1]) <= DateOf(p[a]);
    if a < b - 1 {
      assert DateOf(p[a]) <= DateOf(p[b - 1]);
    }
  }

  /** The kept rows are those of the last events of their dates. */
  lemma DateRowsMembers(p: seq<Event>)
    ensures forall r :: r in DateRows(p) <==>
              exists n :: 1 <= n <= |p| && EndOfDate(p, n) && r == RowFor(p, n)
  {
    var ends := DateEnds(p, |p|);
    var rows := DateRows(p);
    DateEndsMembers(p, |p|);
    forall r | r in rows ensures exists n :: 1 <= n <= |p| && EndOfDate(p, n) && r == RowFor(p, n) {
      var i :| 0 <= i < |rows| && rows[i] == r;
      assert ends[i] in ends;
    }
    forall n | 1 <= n <= |p| && EndOfDate(p, n) ensures RowFor(p, n) in rows {
      assert n in ends;
      var i :| 0 <= i < |ends| && ends[i] == n;
      assert rows[i] == RowFor(p, n);
    }
  }

  /** In a date-ordered partition the kept rows' dates strictly increase: one row per date. */
  lemma DateRowsIncreasing(p: seq<Event>)
    requires SortedBy(p, DateOf)
    ensures forall i, j :: 0 <= i < j < |DateRows(p)| ==> DateRows(p)[i].statDate < DateRows(p)[j].statDate
  {
    var ends := DateEnds(p, |p|);
    var rows := DateRows(p);
    DateEndsMembers(p, |p|);
    forall i, j | 0 <= i < j < |rows| ensures rows[i].statDate < rows[j].statDate {
      var a, b := ends[i], ends[j];
      assert a in ends && a < b;
      RowForKey(p, a);
      RowForKey(p, b);
      LaterDate(p, a, b);
    }
  }

  /**
   * The row DISTINCT ON keeps for a key is a row of that key with no later row of the key
   * having as many games played: among equals, the last one wins.
   */
  lemma {:induction false} SelectLast(rows: seq<StatRow>, key: (int, int))
    requires key in Select(rows)
    ensures exists i :: 0 <= i < |rows| && rows[i] == Select(rows)[key] && KeyOf(rows[i]) == key
              && forall j :: i < j < |rows| && KeyOf(rows[j]) == key ==> rows[j].gamesPlayed < rows[i].gamesPlayed
    decreases |rows|
  {
    var pre := rows[..|rows| - 1];
    var last := |rows| - 1;
    var r := rows[last];
    var kept := Select(pre);
    forall m | 0 <= m < last ensures rows[m] == pre[m] { }
    if r.gamesPlayed > 0 && KeyOf(r) == key
       && !(KeyOf(r) in kept && kept[KeyOf(r)].gamesPlayed > r.gamesPlayed) {
      assert rows[last] == Select(rows)[key];
    } else {
      assert key in kept && Select(rows)[key] == kept[key];
      SelectLast(pre, key);
      SelectKept(pre, key);
      var i :| 0 <= i < |pre| && pre[i] == kept[key] && KeyOf(pre[i]) == key
                && forall j :: i < j < |pre| && KeyOf(pre[j]) == key ==> pre[j].gamesPlayed < pre[i].gamesPlayed;
      assert rows[i] == pre[i];
    }
  }

  /** An event of a partition is an event of game_results of that team and season. */
  lemma PartitionMember(scan: seq<Game>, teamId: int, season: string, e: Event)
    requires e in Partition(scan, teamId, season)
    ensures e in GameResults(scan) && e.teamId == teamId && e.season == season
  {
    PartitionSpec(scan, teamId, season);
    assert e in multiset(Partition(scan, teamId, season));
    FilterMembers(GameResults(scan), InPartition(teamId, season), e);
  }

  /**
   * The stored row of a key is the row of the last event of that date in its team's
   * partition for the row's season: one of the partition's per-date rows.
   */
  lemma TeamStatsDateRows(scan: seq<Game>, key: (int, int))
    requires key in TeamStatsOf(scan)
    ensures var r := TeamStatsOf(scan)[key];
      var p := Partition(scan, key.0, r.season);
      exists n :: 1 <= n <= |p| && EndOfDate(p, n) && p[n - 1].date == key.1 && r == RowFor(p, n)
    ensures TeamStatsOf(scan)[key] in DateRows(Partition(scan, key.0, TeamStatsOf(scan)[key].season))
  {
    var cands := Candidates(scan);
    var o := Ordered(scan);
    var r := TeamStatsOf(scan)[key];
    SelectLast(cands, key);
    var i :| 0 <= i < |cands| && cands[i] == r && KeyOf(cands[i]) == key
              && forall j :: i < j < |cands| && KeyOf(cands[j]) == key ==> cands[j].gamesPlayed < cands[i].gamesPlayed;
    CandidateKey(scan, i);
    CandidateRow(scan, i);
    var P := InPartition(o[i].teamId, o[i].season);
    var p := Partition(scan, key.0, r.season);
    assert p == Filter(o, P);
    var n := |Filter(o[..i + 1], P)|;
    if !EndOfDate(p, n) {
      var k := LaterSameDateCandidate(scan, i);
      assert false;
    }
    DateRowsMembers(p);
  }

  /**
   * An event that is not the last of its date in its partition is followed by a
   * candidate of the same key with as many games played (the RANGE frame's peers).
   */
  lemma LaterSameDateCandidate(scan: seq<Game>, i: nat) returns (k: nat)
    requires i < |Ordered(scan)|
    requires var o := Ordered(scan);
      var P := InPartition(o[i].teamId, o[i].season);
      var n := |Filter(o[..i + 1], P)|;
      1 <= n <= |Filter(o, P)| && !EndOfDate(Filter(o, P), n)
    ensures i < k < |Candidates(scan)|
    ensures KeyOf(Candidates(scan)[k]) == KeyOf(Candidates(scan)[i])
    ensures Candidates(scan)[k].gamesPlayed == Candidates(scan)[i].gamesPlayed
  {
    var o := Ordered(scan);
    var P := InPartition(o[i].teamId, o[i].season);
    var p := Filter(o, P);
    var n := |Filter(o[..i + 1], P)|;
    CandidateRow(scan, i);
    CandidateKey(scan, i);
    k := FilterNext(o, i, P);
    assert o[k].teamId == o[i].teamId && o[k].season == o[i].season;
    assert o[k].date == o[i].date;
    CandidateRow(scan, k);
    CandidateKey(scan, k);
    var n2 := |Filter(o[..k + 1], P)|;
    RowForIncreases(p, n, n2);
  }

  /** A per-date row of a partition is the row of one of its date ends. */
  lemma DateRowPosition(p: seq<Event>, r: StatRow) returns (n: nat)
    requires r in DateRows(p)
    ensures 1 <= n <= |p| && EndOfDate(p, n) && r == RowFor(p, n)
  {
    DateRowsMembers(p);
    n :| 1 <= n <= |p| && EndOfDate(p, n) && r == RowFor(p, n);
  }

  /** Two ends of the same date in a date-ordered partition are the same position. */
  lemma SameDateEnd(p: seq<Event>, a: nat, b: nat)
    requires SortedBy(p, DateOf)
    requires 1 <= a <= |p| && EndOfDate(p, a)
    requires 1 <= b <= |p| && EndOfDate(p, b)
    requires p[a - 1].date == p[b - 1].date
    ensures a == b
  {
    if a < b {
      LaterDate(p, a, b);
    } else if b < a {
      LaterDate(p, b, a);
    }
  }

  /** The row of an event of a partition is stored under the team and the event's date. */
  lemma PartitionRowKey(scan: seq<Game>, teamId: int, season: string, n: nat)
    requires 1 <= n <= |Partition(scan, teamId, season)|
    ensures var p := Partition(scan, teamId, season);
      && KeyOf(RowFor(p, n)) == (teamId, p[n - 1].date)
      && RowFor(p, n).season == season
      && KeyOf(RowFor(p, n)) in TeamStatsOf(scan)
  {
    var p := Partition(scan, teamId, season);
    RowForKey(p, n);
    PartitionMember(scan, teamId, season, p[n - 1]);
    var g := EventHasGame(scan, p[n - 1]);
    GameHasKey(scan, g, teamId);
  }

  /**
   * Conversely, every per-date row of a partition is the stored row of its key, provided
   * the team has no event of another season on that date.
   */
  lemma DateRowsInTeamStats(scan: seq<Game>, teamId: int, season: string, r: StatRow)
    requires r in DateRows(Partition(scan, teamId, season))
    requires forall e :: e in GameResults(scan) && e.teamId == teamId && e.date == r.statDate ==> e.season == season
    ensures KeyOf(r) in TeamStatsOf(scan) && TeamStatsOf(scan)[KeyOf(r)] == r
  {
    var p := Partition(scan, teamId, season);
    var n := DateRowPosition(p, r);
    PartitionRowKey(scan, teamId, season, n);
    var key := KeyOf(r);
    TeamStatsDateRows(scan, key);
    var r2 := TeamStatsOf(scan)[key];
    var p2 := Partition(scan, teamId, r2.season);
    var n2 :| 1 <= n2 <= |p2| && EndOfDate(p2, n2) && p2[n2 - 1].date == key.1 && r2 == RowFor(p2, n2);
    PartitionRowKey(scan, teamId, r2.season, n2);
    PartitionMember(scan, teamId, r2.season, p2[n2 - 1]);
    assert r2.season == season;
    PartitionSpec(scan, teamId, season);
    SameDateEnd(p, n, n2);
  }

  /** The next row's frame: the current one with the next event, less its oldest when full. */
  lemma FrameStep(p: seq<Event>, n: nat, k: nat)
    requires n < |p| && k >= 1
    ensures Frame(p, n + 1, k)
            == (if |Frame(p, n, k)| == k then Frame(p, n, k)[1..] else Frame(p, n, k)) + [p[n]]
  {
  }

  /** One more event: the running counters and both windows move on by it. */
  lemma RollStep(p: seq<Event>, n: nat)
    requires n < |p|
    ensures Total(p[..n + 1]) == Plus(Total(p[..n]), Tally(p[n]))
    ensures Frame(p, n + 1, 10)
            == (if |Frame(p, n, 10)| == 10 then Frame(p, n, 10)[1..] else Frame(p, n, 10)) + [p[n]]
    ensures Frame(p, n + 1, 5)
            == (if |Frame(p, n, 5)| == 5 then Frame(p, n, 5)[1..] else Frame(p, n, 5)) + [p[n]]
  {
    assert p[..n + 1][..n] == p[..n];
    FrameStep(p, n, 10);
    FrameStep(p, n, 5);
  }

  /** The running state of one pass: the counters so far and the last 10 and last 5 events. */
  datatype Rolling = Rolling(counts: Counters, last10: seq<Event>, last5: seq<Event>)

  /** The running state after the first n events of p. */
  function RollingAt(p: seq<Event>, n: nat): Rolling
    requires n <= |p|
  {
    Rolling(Total(p[..n]), Frame(p, n, 10), Frame(p, n, 5))
  }

  /**
   * Takes the (n+1)-th event of p into the running counters and into the windows of the
   * last 10 and last 5 events, dropping the oldest of a full window.
   */
  method Advance(p: seq<Event>, n: nat, st: Rolling) returns (next: Rolling)
    requires n < |p| && st == RollingAt(p, n)
    ensures next == RollingAt(p, n + 1)
  {
    var e := p[n];
    RollStep(p, n);
    next := Rolling(
      Plus(st.counts, Tally(e)),
      (if |st.last10| == 10 then st.last10[1..] else st.last10) + [e],
      (if |st.last5| == 5 then st.last5[1..] else st.last5) + [e]);
  }

  /**
   * After the n-th event: at the end of its date, the running state gives that event's row,
   * which is appended to the rows so far.
   */
  method Collect(p: seq<Event>, n: nat, st: Rolling, out: seq<StatRow>) returns (next: seq<StatRow>)
    requires SortedBy(p, DateOf) && 1 <= n <= |p| && st == RollingAt(p, n)
    requires out == DateRowsUpTo(p, n - 1)
    ensures next == DateRowsUpTo(p, n)
  {
    DateRowsStep(p, n - 1);
    if EndOfDate(p, n) {
      RowForGames(p, n);
      next := out + [Present(p[n - 1], st.counts, st.last10, st.last5)];
    } else {
      next := out;
    }
  }

  /**
   * The statement's rows for one date-ordered partition, computed in one pass with running
   * counters and windows of the last 10 and last 5 events, one row per date.
   */
  method RollPartition(p: seq<Event>) returns (out: seq<StatRow>)
    requires SortedBy(p, DateOf)
    ensures out == DateRows(p)
  {
    assert p[..0] == [];
    out := [];
    var st := Rolling(NoGames, [], []);
    var n := 0;
    while n < |p|
      invariant 0 <= n <= |p|
      invariant st == RollingAt(p, n)
      invariant out == DateRowsUpTo(p, n)
    {
      st := Advance(p, n, st);
      out := Collect(p, n + 1, st, out);
      n := n + 1;
    }
  }

  // ---------------------------------------------------------------------------------
  // The table
  // ---------------------------------------------------------------------------------

  /** The team_stats table, keyed by (team_id, stat_date). */
  class TeamStatsTable {
    var rows: map<(int, int), StatRow>

    constructor ()
      ensures rows == map[]
    {
      rows := map[];
    }

    /**
     * calculate_team_stats: empties the table, then inserts the rows DISTINCT ON keeps,
     * and reports how many rows the INSERT wrote. The old contents play no part.
     */
    method CalculateTeamStats(scan: seq<Game>) returns (inserted: nat)
      modifies this
      ensures rows == TeamStatsOf(scan)
      ensures inserted == |rows|
    {
      rows := map[];
      InsertDistinct(Candidates(scan));
      inserted := |rows|;
    }

    /**
     * INSERT ... SELECT DISTINCT ON (team_id, stat_date) into the emptied table: each row
     * with games played takes its key unless the row already there has more games.
     */
    method InsertDistinct(cands: seq<StatRow>)
      requires rows == map[]
      modifies this
      ensures rows == Select(cands)
    {
      var i := 0;
      while i < |cands|
        invariant 0 <= i <= |cands|
        invariant rows == Select(cands[..i])
      {
        var r := cands[i];
        assert cands[..i + 1][..i] == cands[..i];
        if r.gamesPlayed > 0 && !(KeyOf(r) in rows && rows[KeyOf(r)].gamesPlayed > r.gamesPlayed) {
          rows := rows[KeyOf(r) := r];
        }
        i := i + 1;
      }
      assert cands[..i] == cands;
    }
  }

  /**
   * Three games of one team in one season: a home win 100-90, an away loss 95-100 and a
   * home win 110-105 give, on the third date, 3 games, 2-1, 0.667, 101.7 for, 98.3
   * against, +3.3, 2-0 at home, 0-1 away and 2-1 over the last five.
   */
  lemma ThreeGameSnapshot(p: seq<Event>)
    requires p == [Event("2023-24", 1, 7, 100, 90, true, true),
                   Event("2023-24", 2, 7, 95, 100, false, false),
                   Event("2023-24", 3, 7, 110, 105, true, true)]
    ensures RowFor(p, 3) == StatRow(7, 3, "2023-24", 3, 2, 1, 0.667, 101.7, 98.3, 3.3, "2-0", "0-1", "2-1")
  {
    var e := p[2];
    assert e == Event("2023-24", 3, 7, 110, 105, true, true);
    var c := CountThrough(p, e.date);
    ScenarioCounts(p);
    ScenarioSums(p);
    RowForShort(p);
    ScenarioPresent(e, c, p);
  }

  /** With at most five rows, the last row's frames are the whole partition. */
  lemma RowForShort(p: seq<Event>)
    requires 1 <= |p| <= 5
    ensures RowFor(p, |p|) == Present(p[|p| - 1], CountThrough(p, p[|p| - 1].date), p, p)
  {
    assert p[..|p|] == p;
  }

  /** The counters of a partition whose last event is a home win dated on or before d. */
  lemma CountHomeWin(p: seq<Event>, d: int)
    requires |p| > 0 && p[|p| - 1].date <= d && p[|p| - 1].won && p[|p| - 1].isHome
    ensures var c, b := CountThrough(p, d), CountThrough(p[..|p| - 1], d);
      && c.games == b.games + 1 && c.wins == b.wins + 1 && c.homeGames == b.homeGames + 1
      && c.homeWins == b.homeWins + 1 && c.awayGames == b.awayGames && c.awayWins == b.awayWins
  {
  }

  /** The counters of a partition whose last event is an away loss dated on or before d. */
  lemma CountAwayLoss(p: seq<Event>, d: int)
    requires |p| > 0 && p[|p| - 1].date <= d && !p[|p| - 1].won && !p[|p| - 1].isHome
    ensures var c, b := CountThrough(p, d), CountThrough(p[..|p| - 1], d);
      && c.games == b.games + 1 && c.wins == b.wins && c.homeGames == b.homeGames
      && c.homeWins == b.homeWins && c.awayGames == b.awayGames + 1 && c.awayWins == b.awayWins
  {
  }

  lemma ScenarioFirst(q: seq<Event>)
    requires |q| == 1 && q[0].date <= 3 && q[0].won && q[0].isHome
    ensures var c := CountThrough(q, 3);
      c.games == 1 && c.wins == 1 && c.homeGames == 1 && c.homeWins == 1 && c.awayGames == 0 && c.awayWins == 0
  {
    CountHomeWin(q, 3);
  }

  lemma ScenarioSecond(q: seq<Event>)
    requires |q| == 2 && q[0].date <= 3 && q[0].won && q[0].isHome
    requires q[1].date <= 3 && !q[1].won && !q[1].isHome
    ensures var c := CountThrough(q, 3);
      c.games == 2 && c.wins == 1 && c.homeGames == 1 && c.homeWins == 1 && c.awayGames == 1 && c.awayWins == 0
  {
    CountAwayLoss(q, 3);
    ScenarioFirst(q[..1]);
  }

  lemma ScenarioThird(p: seq<Event>)
    requires |p| == 3 && p[0].date <= 3 && p[0].won && p[0].isHome
    requires p[1].date <= 3 && !p[1].won && !p[1].isHome
    requires p[2].date <= 3 && p[2].won && p[2].isHome
    ensures var c := CountThrough(p, 3);
      c.games == 3 && c.wins == 2 && c.homeGames == 2 && c.homeWins == 2 && c.awayGames == 1 && c.awayWins == 0
  {
    CountHomeWin(p, 3);
    ScenarioSecond(p[..2]);
  }

  lemma ScenarioCounts(p: seq<Event>)
    requires p == [Event("2023-24", 1, 7, 100, 90, true, true),
                   Event("2023-24", 2, 7, 95, 100, false, false),
                   Event("2023-24", 3, 7, 110, 105, true, true)]
    ensures CountThrough(p, 3) == Counters(3, 2, 2, 2, 1, 0)
  {
    ScenarioThird(p);
  }

  lemma ScenarioSums(p: seq<Event>)
    requires p == [Event("2023-24", 1, 7, 100, 90, true, true),
                   Event("2023-24", 2, 7, 95, 100, false, false),
                   Event("2023-24", 3, 7, 110, 105, true, true)]
    ensures SumPoints(p) == 305 && SumOppPoints(p) == 295 && WinsIn(p) == 2
    ensures p[..3] == p && Frame(p, 3, 10) == p && Frame(p, 3, 5) == p
  {
    assert p[..3] == p;
    assert p[..2] == [p[0], p[1]] && p[..2][..1] == [p[0]];
    assert SumPoints(p[..2][..1]) == 100 && SumOppPoints(p[..2][..1]) == 90 && WinsIn(p[..2][..1]) == 1;
    assert SumPoints(p[..2]) == 195 && SumOppPoints(p[..2]) == 190 && WinsIn(p[..2]) == 1;
  }

  lemma ScenarioPresent(e: Event, c: Counters, w: seq<Event>)
    requires e == Event("2023-24", 3, 7, 110, 105, true, true)
    requires c == Counters(3, 2, 2, 2, 1, 0)
    requires |w| == 3 && SumPoints(w) == 305 && SumOppPoints(w) == 295 && WinsIn(w) == 2
    ensures Present(e, c, w, w)
            == StatRow(7, 3, "2023-24", 3, 2, 1, 0.667, 101.7, 98.3, 3.3, "2-0", "0-1", "2-1")
  {
    ScenarioRounding();
    ScenarioTexts();
    var r := Present(e, c, w, w);
    assert r.winPct == 0.667;
    assert r.avgPoints == 101.7 && r.avgOppPoints == 98.3 && r.pointDiff == 3.3;
    assert r.homeRecord == "2-0" && r.awayRecord == "0-1" && r.last5Record == "2-1";
  }

  lemma ScenarioTexts()
    ensures RecordText(2, 0) == "2-0" && RecordText(0, 1) == "0-1" && RecordText(2, 1) == "2-1"
  {
    assert IntToString(2) == "2" && IntToString(1) == "1" && IntToString(0) == "0";
  }

  lemma ScenarioRounding()
    ensures WinPct(Counters(3, 2, 2, 2, 1, 0)) == 0.667
    ensures RoundTo(Mean(305, 3), 1) == 101.7
    ensures RoundTo(Mean(295, 3), 1) == 98.3
    ensures RoundTo(Mean(305, 3) - Mean(295, 3), 1) == 3.3
  {
    assert Scale(3) == 1000.0 && Scale(1) == 10.0;
    assert (2.0 / 3.0 * 1000.0 + 0.5).Floor == 667;
    assert (305.0 / 3.0 * 10.0 + 0.5).Floor == 1017;
    assert (295.0 / 3.0 * 10.0 + 0.5).Floor == 983;
    assert ((305.0 / 3.0 - 295.0 / 3.0) * 10.0 + 0.5).Floor == 33;
  }
}
