/**
 * The ingestion entry points: fetch games or team statistics, store them, and report a
 * result dictionary. The remote fetches and the clock enter as parameters; the database
 * is a DatabaseConnection whose tables the entry points change. Every exception inside
 * an entry point is caught and reported as an unsuccessful result.
 */
module Ingest {
  import opened Common
  import opened ApiClient
  import opened Database

  // ---------------------------------------------------------------------------------
  // Instants and the season tables of ingest_historical_games
  // ---------------------------------------------------------------------------------

  const SecondsPerDay: int := 86400

  /** Days from 1970-01-01 to the given Gregorian date (proleptic calendar). */
  function CivilDay(y: int, m: int, d: int): int
    requires 1 <= m <= 12 && 1 <= d <= 31
  {
    var y' := if m <= 2 then y - 1 else y;
    var era := y' / 400;
    var yoe := y' - era * 400;
    var mp := if m > 2 then m - 3 else m + 9;
    var doy := (153 * mp + 2) / 5 + d - 1;
    var doe := yoe * 365 + yoe / 4 - yoe / 100 + doy;
    era * 146097 + doe - 719468
  }

  /** datetime(y, m, d): midnight of that date, in seconds since 1970-01-01 00:00. */
  function Midnight(y: int, m: int, d: int): int
    requires 1 <= m <= 12 && 1 <= d <= 31
  {
    CivilDay(y, m, d) * SecondsPerDay
  }

  /** A (start_dt, end_dt) pair. */
  datatype DateRange = DateRange(start: int, end: int)

  /** season_end_dates, used when only `days` is given. */
  function SeasonEndDate(season: string): Option<int> {
    if season == "2023-24" then Some(Midnight(2024, 4, 14))
    else if season == "2022-23" then Some(Midnight(2023, 4, 9))
    else if season == "2021-22" then Some(Midnight(2022, 4, 10))
    else if season == "2020-21" then Some(Midnight(2021, 5, 16))
    else None
  }

  /** season_dates, used when neither explicit dates nor `days` are given. */
  function SeasonDates(season: string): Option<DateRange> {
    if season == "2023-24" then Some(DateRange(Midnight(2023, 10, 24), Midnight(2024, 4, 14)))
    else if season == "2022-23" then Some(DateRange(Midnight(2022, 10, 18), Midnight(2023, 4, 9)))
    else if season == "2021-22" then Some(DateRange(Midnight(2021, 10, 19), Midnight(2022, 4, 10)))
    else if season == "2020-21" then Some(DateRange(Midnight(2020, 12, 22), Midnight(2021, 5, 16)))
    else None
  }

  /**
   * The two tables know the same seasons, give each the same last day, and each known
   * season starts before it ends.
   */
  lemma SeasonTablesAgree(season: string)
    ensures SeasonEndDate(season).Some? <==> SeasonDates(season).Some?
    ensures SeasonDates(season).Some? ==>
              && SeasonEndDate(season).value == SeasonDates(season).value.end
              && SeasonDates(season).value.start < SeasonDates(season).value.end
  {
    SeasonDays2023();
    SeasonDays2022();
    SeasonDays2021();
    SeasonDays2020();
  }

  /** The day numbers of the table dates, season by season. */
  lemma SeasonDays2023()
    ensures CivilDay(2023, 10, 24) == 19654 && CivilDay(2024, 4, 14) == 19827
  {
    assert 2023 / 400 == 5 && 2024 / 400 == 5;
    assert (153 * 7 + 2) / 5 == 214 && (153 * 1 + 2) / 5 == 31;
    assert 23 / 4 == 5 && 23 / 100 == 0 && 24 / 4 == 6 && 24 / 100 == 0;
  }

  lemma SeasonDays2022()
    ensures CivilDay(2022, 10, 18) == 19283 && CivilDay(2023, 4, 9) == 19456
  {
    assert 2022 / 400 == 5 && 2023 / 400 == 5;
    assert (153 * 7 + 2) / 5 == 214 && (153 * 1 + 2) / 5 == 31;
    assert 22 / 4 == 5 && 22 / 100 == 0 && 23 / 4 == 5 && 23 / 100 == 0;
  }

  lemma SeasonDays2021()
    ensures CivilDay(2021, 10, 19) == 18919 && CivilDay(2022, 4, 10) == 19092
  {
    assert 2021 / 400 == 5 && 2022 / 400 == 5;
    assert (153 * 7 + 2) / 5 == 214 && (153 * 1 + 2) / 5 == 31;
    assert 21 / 4 == 5 && 21 / 100 == 0 && 22 / 4 == 5 && 22 / 100 == 0;
  }

  lemma SeasonDays2020()
    ensures CivilDay(2020, 12, 22) == 18618 && CivilDay(2021, 5, 16) == 18763
  {
    assert 2020 / 400 == 5 && 2021 / 400 == 5;
    assert (153 * 9 + 2) / 5 == 275 && (153 * 2 + 2) / 5 == 61;
    assert 20 / 4 == 5 && 20 / 100 == 0 && 21 / 4 == 5 && 21 / 100 == 0;
  }

  /**
   * The date-range choice of ingest_historical_games. An empty string stands for a
   * missing date and 0 for a missing `days`, as both are false in Python; `parse` is
   * strptime with '%Y-%m-%d', a Failure carrying the message of the ValueError it raises;
   * `now` is datetime.now().
   */
  function ResolveDateRange(season: string, startDate: string, endDate: string, days: int,
                            now: int, parse: string -> Result<int>): Result<DateRange>
  {
    if startDate != "" && endDate != "" then
      match (parse(startDate), parse(endDate))
      case (Failure(error), _) => Failure(error)
      case (_, Failure(error)) => Failure(error)
      case (Success(s), Success(e)) => Success(DateRange(s, e))
    else if days != 0 then
      var end := if SeasonEndDate(season).Some? then SeasonEndDate(season).value else now;
      Success(DateRange(end - days * SecondsPerDay, end))
    else if SeasonDates(season).Some? then
      Success(SeasonDates(season).value)
    else
      Success(DateRange(now - 30 * SecondsPerDay, now))
  }

  /**
   * Explicit dates are used exactly when both are given, whatever `days` says; only an
   * unparsable explicit date makes the choice fail.
   */
  lemma ExplicitDatesWin(season: string, startDate: string, endDate: string, days: int,
                         now: int, parse: string -> Result<int>)
    ensures var r := ResolveDateRange(season, startDate, endDate, days, now, parse);
      r.Failure? <==> startDate != "" && endDate != "" && (parse(startDate).Failure? || parse(endDate).Failure?)
    ensures var r := ResolveDateRange(season, startDate, endDate, days, now, parse);
      startDate != "" && endDate != "" && parse(startDate).Failure? ==> r == Failure(parse(startDate).error)
    ensures var r := ResolveDateRange(season, startDate, endDate, days, now, parse);
      startDate != "" && endDate != "" && parse(startDate).Success? && parse(endDate).Failure? ==>
        r == Failure(parse(endDate).error)
    ensures var r := ResolveDateRange(season, startDate, endDate, days, now, parse);
      startDate != "" && endDate != "" && parse(startDate).Success? && parse(endDate).Success? ==>
        r == Success(DateRange(parse(startDate).value, parse(endDate).value))
  {
  }

  /**
   * Without both explicit dates, a non-zero `days` gives a window of that many days that
   * ends at the season's last day, or now for a season the table does not know.
   */
  lemma DaysWindow(season: string, startDate: string, endDate: string, days: int,
                   now: int, parse: string -> Result<int>)
    requires startDate == "" || endDate == ""
    requires days != 0
    ensures var r := ResolveDateRange(season, startDate, endDate, days, now, parse);
      && r.Success?
      && r.value.end - r.value.start == days * SecondsPerDay
      && (SeasonDates(season).Some? ==> r.value.end == SeasonDates(season).value.end)
      && (SeasonDates(season).None? ==> r.value.end == now)
  {
    SeasonTablesAgree(season);
  }

  /**
   * With neither explicit dates nor `days`, a known season spans its whole table range
   * and an unknown one the 30 days up to now.
   */
  lemma DefaultRange(season: string, startDate: string, endDate: string,
                     now: int, parse: string -> Result<int>)
    requires startDate == "" || endDate == ""
    ensures var r := ResolveDateRange(season, startDate, endDate, 0, now, parse);
      && r.Success?
      && (SeasonDates(season).Some? ==> r.value == SeasonDates(season).value && r.value.start < r.value.end)
      && (SeasonDates(season).None? ==> r.value == DateRange(now - 30 * SecondsPerDay, now))
  {
    SeasonTablesAgree(season);
  }

  // ---------------------------------------------------------------------------------
  // Result dictionaries
  // ---------------------------------------------------------------------------------

  /**
   * The success flag, the error text of a failure, and the fetched and inserted counts
   * (games or team stats). duration_seconds is left out.
   */
  datatype Outcome = Outcome(success: bool, error: Option<string>, fetched: nat, inserted: nat)

  /** The dictionary of an exception caught by an entry point. */
  function Failed(error: string): Outcome {
    Outcome(false, Some(error), 0, 0)
  }

  /** The result of ingest_historical_games: the outcome, its season and, after an insert, its range. */
  datatype SeasonOutcome = SeasonOutcome(season: string, outcome: Outcome, dateRange: Option<DateRange>)

  /**
   * What storing the fetch result leaves in raw_games (`before`, then `after`) and reports:
   * an exception from the fetch is reported and nothing is stored; an empty fetch is a
   * success with nothing fetched or inserted; otherwise the games are upserted in batches,
   * and either all are stored and counted or the batch error is reported and the table
   * rolls back.
   */
  predicate StoredGames(before: map<string, RawGameRow>, fetched: Result<seq<GameDict>>, now: int,
                        r: Outcome, after: map<string, RawGameRow>)
  {
    && (fetched.Failure? ==> r == Failed(fetched.error) && after == before)
    && (fetched == Success([]) ==> r == Outcome(true, None, 0, 0) && after == before)
    && (fetched.Success? && fetched.value != [] ==>
          var run := RunBatches(before, ValuesOf(fetched.value), now);
          && (run.Success? ==> r == Outcome(true, None, |fetched.value|, |fetched.value|) && after == run.value)
          && (run.Failure? ==> r == Failed(run.error) && after == before))
  }

  /** A store succeeds exactly when the fetch does and the batched upsert, if any, does; a failure stores nothing. */
  lemma StoredGamesSuccess(before: map<string, RawGameRow>, fetched: Result<seq<GameDict>>, now: int,
                           r: Outcome, after: map<string, RawGameRow>)
    requires StoredGames(before, fetched, now, r, after)
    ensures r.success <==> fetched.Success? && (fetched.value == [] || RunBatches(before, ValuesOf(fetched.value), now).Success?)
    ensures !r.success ==> after == before && r.fetched == r.inserted == 0
  {
  }

  /**
   * A non-empty fetch of distinct games is stored in full: every game is counted, and
   * raw_games becomes the upsert of the fetched games one after another.
   */
  lemma StoredDistinctGames(before: map<string, RawGameRow>, games: seq<GameDict>, now: int,
                            r: Outcome, after: map<string, RawGameRow>)
    requires games != [] && DistinctIds(ValuesOf(games))
    requires StoredGames(before, Success(games), now, r, after)
    ensures r == Outcome(true, None, |games|, |games|)
    ensures after == UpsertAll(before, ValuesOf(games), now)
  {
    RunBatchesDistinct(before, ValuesOf(games), now);
  }

  /**
   * The shared tail of the game entry points: an exception from the fetch is reported, an
   * empty fetch is a success with nothing fetched or inserted, and otherwise the games are
   * upserted and counted.
   */
  method StoreGames(db: DatabaseConnection, fetched: Result<seq<GameDict>>, now: int)
    returns (r: Outcome)
    modifies db
    ensures StoredGames(old(db.rawGames), fetched, now, r, db.rawGames)
    ensures fetched.Success? && fetched.value != [] ==>
              (r.success <==> RunBatches(old(db.rawGames), ValuesOf(fetched.value), now).Success?)
    ensures db.rawTeamStats == old(db.rawTeamStats) && db.teams == old(db.teams)
  {
    if fetched.Failure? {
      return Failed(fetched.error);
    }
    var games := fetched.value;
    if games == [] {
      return Outcome(true, None, 0, 0);
    }
    var inserted := db.InsertRawGames(games, now);
    if inserted.Failure? {
      return Failed(inserted.error);
    }
    r := Outcome(true, None, |games|, inserted.value);
  }

  /** ingest_recent_games: `fetched` is what fetch_recent_games returned or raised. */
  method IngestRecentGames(db: DatabaseConnection, fetched: Result<seq<GameDict>>, now: int)
    returns (r: Outcome)
    modifies db
    ensures fetched.Success? && fetched.value == [] ==> r == Outcome(true, None, 0, 0)
    ensures fetched.Failure? ==> r == Failed(fetched.error)
    ensures r.success ==> fetched.Success? && r.fetched == r.inserted == |fetched.value|
    ensures !r.success ==> db.rawGames == old(db.rawGames)
    ensures StoredGames(old(db.rawGames), fetched, now, r, db.rawGames)
    ensures db.rawTeamStats == old(db.rawTeamStats) && db.teams == old(db.teams)
  {
    r := StoreGames(db, fetched, now);
  }

  /**
   * ingest_historical_games. `fetch` is fetch_games_by_date_range on a client set to the
   * season: the games it returns, or the exception it raises.
   */
  method IngestHistoricalGames(db: DatabaseConnection, season: string, startDate: string, endDate: string,
                               days: int, now: int, parse: string -> Result<int>,
                               fetch: (string, DateRange) -> Result<seq<GameDict>>)
    returns (r: SeasonOutcome)
    modifies db
    ensures r.season == season
    ensures var range := ResolveDateRange(season, startDate, endDate, days, now, parse);
      && (range.Failure? ==> r.outcome == Failed(range.error) && db.rawGames == old(db.rawGames))
      && (range.Success? && fetch(season, range.value) == Success([]) ==>
            r.outcome == Outcome(true, None, 0, 0) && r.dateRange == None)
      && (r.outcome.success && r.outcome.fetched > 0 ==> r.dateRange == Some(range.value))
      && (r.outcome.success ==> range.Success? && fetch(season, range.value).Success?
                                && r.outcome.fetched == r.outcome.inserted == |fetch(season, range.value).value|)
    ensures !r.outcome.success ==> db.rawGames == old(db.rawGames)
    ensures var range := ResolveDateRange(season, startDate, endDate, days, now, parse);
      && (range.Failure? ==> r.dateRange == None)
      && (range.Success? ==>
            && StoredGames(old(db.rawGames), fetch(season, range.value), now, r.outcome, db.rawGames)
            && r.dateRange == (if r.outcome.success && r.outcome.fetched > 0 then Some(range.value) else None))
    ensures db.rawTeamStats == old(db.rawTeamStats) && db.teams == old(db.teams)
  {
    var range := ResolveDateRange(season, startDate, endDate, days, now, parse);
    if range.Failure? {
      return SeasonOutcome(season, Failed(range.error), None);
    }
    var fetched := fetch(season, range.value);
    var outcome := StoreGames(db, fetched, now);
    if outcome.success && outcome.fetched > 0 {
      r := SeasonOutcome(season, outcome, Some(range.value));
    } else {
      r := SeasonOutcome(season, outcome, None);
    }
  }

  // ---------------------------------------------------------------------------------
  // ingest_multiple_seasons
  // ---------------------------------------------------------------------------------

  /** total_games: the games inserted by the successful seasons. */
  function SuccessfulTotal(results: seq<SeasonOutcome>): nat {
    if results == [] then 0
    else
      var last := results[|results| - 1].outcome;
      SuccessfulTotal(results[..|results| - 1]) + (if last.success then last.inserted else 0)
  }

  /** overall_success: no season failed. */
  predicate AllSucceeded(results: seq<SeasonOutcome>) {
    forall i :: 0 <= i < |results| ==> results[i].outcome.success
  }

  /** The fold over a concatenation is the sum of the folds. */
  lemma {:induction false} SuccessfulTotalAppend(a: seq<SeasonOutcome>, b: seq<SeasonOutcome>)
    ensures SuccessfulTotal(a + b) == SuccessfulTotal(a) + SuccessfulTotal(b)
    decreases |b|
  {
    if b != [] {
      var init := b[..|b| - 1];
      assert (a + b)[..|a + b| - 1] == a + init;
      assert (a + b)[|a + b| - 1] == b[|b| - 1];
      SuccessfulTotalAppend(a, init);
    } else {
      assert a + b == a;
    }
  }

  /** Failed seasons add nothing: the total is the inserted count summed over successes only. */
  lemma {:induction false} SuccessfulTotalBound(results: seq<SeasonOutcome>)
    ensures SuccessfulTotal(results) <= InsertedTotal(results)
    ensures AllSucceeded(results) ==> SuccessfulTotal(results) == InsertedTotal(results)
    ensures (forall i :: 0 <= i < |results| ==> !results[i].outcome.success) ==> SuccessfulTotal(results) == 0
    decreases |results|
  {
    if results != [] {
      var init := results[..|results| - 1];
      SuccessfulTotalBound(init);
      forall i | 0 <= i < |init| ensures init[i] == results[i] { }
    }
  }

  /** The inserted counts of all seasons, successful or not. */
  function InsertedTotal(results: seq<SeasonOutcome>): nat {
    if results == [] then 0
    else InsertedTotal(results[..|results| - 1]) + results[|results| - 1].outcome.inserted
  }

  /**
   * ingest_multiple_seasons: each season with the default date range, in order; the
   * results in input order, overall success exactly when every season succeeded, and the
   * total over the successful seasons.
   */
  method IngestMultipleSeasons(db: DatabaseConnection, seasons: seq<string>, now: int,
                               parse: string -> Result<int>,
                               fetch: (string, DateRange) -> Result<seq<GameDict>>)
    returns (success: bool, totalGames: nat, results: seq<SeasonOutcome>)
    modifies db
    ensures |results| == |seasons|
    ensures forall i :: 0 <= i < |seasons| ==> results[i].season == seasons[i]
    ensures success <==> AllSucceeded(results)
    ensures totalGames == SuccessfulTotal(results)
    ensures db.rawTeamStats == old(db.rawTeamStats) && db.teams == old(db.teams)
  {
    results := [];
    totalGames := 0;
    success := true;
    for k := 0 to |seasons|
      invariant |results| == k
      invariant forall i :: 0 <= i < k ==> results[i].season == seasons[i]
      invariant success <==> AllSucceeded(results)
      invariant totalGames == SuccessfulTotal(results)
      invariant db.rawTeamStats == old(db.rawTeamStats) && db.teams == old(db.teams)
    {
      var result := IngestHistoricalGames(db, seasons[k], "", "", 0, now, parse, fetch);
      assert (results + [result])[..k] == results;
      results := results + [result];
      if result.outcome.success {
        totalGames := totalGames + result.outcome.inserted;
      } else {
        success := false;
      }
    }
  }

  // ---------------------------------------------------------------------------------
  // ingest_team_stats and run_full_ingestion
  // ---------------------------------------------------------------------------------

  const NoTeamsError: string := "No teams in database"

  /** datetime.now().date() as a day number. */
  function Today(now: int): int {
    now / SecondsPerDay
  }

  /**
   * What ingest_team_stats leaves in raw_team_stats (`before`, then `after`) and reports:
   * no active team is a failure; otherwise the stats of the active teams are converted,
   * a conversion error is reported with nothing stored, and converted stats are appended
   * and counted.
   */
  predicate StoredStats(teams: seq<TeamRecord>, before: seq<TeamStat>, frame: Option<seq<TeamRow>>, now: int,
                        r: Outcome, after: seq<TeamStat>)
  {
    var ids := ActiveTeamIds(teams);
    && (ids == [] ==> r == Failed(NoTeamsError) && after == before)
    && (ids != [] ==>
          var stats := FetchTeamStats(frame, ids, Today(now));
          && (stats.Failure? ==> r == Failed(stats.error) && after == before)
          && (stats.Success? ==> r == Outcome(true, None, |stats.value|, |stats.value|) && after == before + stats.value))
  }

  /**
   * ingest_team_stats: `frame` is the LeagueDashTeamStats frame, None when every attempt
   * failed. No active team is a failure; no stats is a success with nothing stored.
   */
  method IngestTeamStats(db: DatabaseConnection, frame: Option<seq<TeamRow>>, now: int)
    returns (r: Outcome)
    modifies db
    ensures StoredStats(old(db.teams), old(db.rawTeamStats), frame, now, r, db.rawTeamStats)
    ensures db.rawGames == old(db.rawGames) && db.teams == old(db.teams)
  {
    var teamIds := db.GetTeamIds();
    if teamIds == [] {
      return Failed(NoTeamsError);
    }
    var stats := FetchTeamStats(frame, teamIds, Today(now));
    if stats.Failure? {
      return Failed(stats.error);
    }
    if stats.value == [] {
      return Outcome(true, None, 0, 0);
    }
    var inserted := db.InsertRawTeamStats(stats.value);
    r := Outcome(true, None, |stats.value|, inserted);
  }

  /** The combined dictionary of run_full_ingestion; the timestamp is left out. */
  datatype FullOutcome = FullOutcome(success: bool, games: Outcome, teamStats: Outcome)

  /** run_full_ingestion: recent games, then team stats; success exactly when both succeed. */
  method RunFullIngestion(db: DatabaseConnection, fetched: Result<seq<GameDict>>,
                          frame: Option<seq<TeamRow>>, now: int)
    returns (r: FullOutcome)
    modifies db
    ensures r.success <==> r.games.success && r.teamStats.success
    ensures ActiveTeamIds(old(db.teams)) == [] ==> !r.success && r.teamStats == Failed(NoTeamsError)
    ensures fetched.Failure? ==> !r.success && r.games == Failed(fetched.error)
    ensures !r.games.success ==> db.rawGames == old(db.rawGames)
    ensures !r.teamStats.success ==> db.rawTeamStats == old(db.rawTeamStats)
    ensures StoredGames(old(db.rawGames), fetched, now, r.games, db.rawGames)
    ensures StoredStats(old(db.teams), old(db.rawTeamStats), frame, now, r.teamStats, db.rawTeamStats)
    ensures db.teams == old(db.teams)
  {
    var games := IngestRecentGames(db, fetched, now);
    var teamStats := IngestTeamStats(db, frame, now);
    r := FullOutcome(games.success && teamStats.success, games, teamStats);
  }
}
