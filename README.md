# Basketball data pipeline: a Dafny model of the ingestion and ETL core

This project models the core of a small basketball data pipeline. The pipeline has
two halves.

- **Ingestion** turns NBA API results into rows of `raw_games` and `raw_team_stats`.
  - `clean_json_data` replaces NaN and infinite floats with null.
  - `_process_games_dataframe` pairs the two team lines of each game into one game record.
  - `fetch_team_stats` keeps the requested teams and converts their cells.
  - `DatabaseConnection` upserts raw games in batches of 100, appends team stats, and lists the active team ids.
  - The entry points `ingest_recent_games`, `ingest_team_stats`, `ingest_historical_games`, `ingest_multiple_seasons` and `run_full_ingestion` tie these together. Each returns a result dictionary.
- **ETL** derives the clean tables.
  - `process_raw_games` upserts one `games` row per final, fully scored raw game. The row has a winner, an absolute point differential and a total score.
  - `calculate_team_stats` clears `team_stats` and rebuilds it with one window query.
    - It splits each final game into a home event and an away event.
    - It runs cumulative counters and 10-game and 5-game windows per (team, season), ordered by date.
    - It keeps one row per (team, date), the one with the most games played.

Modules, one per source file:

| file | module | models |
|---|---|---|
| `common.dfy` | `Common` | Option/Result, the decimal text of integers (`||` in SQL), PostgreSQL `ROUND` on numerics, filtering and a stable sort |
| `api_client.dfy` | `ApiClient` | `clean_json_data`, `_process_games_dataframe`, `fetch_team_stats` |
| `database.dfy` | `Database` | `insert_raw_games`, `insert_raw_team_stats`, `get_team_ids` (class `DatabaseConnection`) |
| `process_games.dfy` | `ProcessGames` | the `process_raw_games` statement (class `GamesTable`) |
| `team_stats.dfy` | `TeamStats` | the `calculate_team_stats` statement (class `TeamStatsTable`) |
| `ingest.dfy` | `Ingest` | the five ingestion entry points and their date ranges |

The SQL statements are modelled as functions from table contents to table contents:
- a table keyed by a unique column is a `map`;
- the `games` table read by the window query is a sequence, in the order the scan returns its rows.

The Python code that changes state step by step is modelled as methods on the classes that own the tables:
- the loops over rows in `_process_games_dataframe`;
- the batching loop of `insert_raw_games`;
- the season loop of `ingest_multiple_seasons`.

Dates are day numbers and timestamps are seconds, both integers.

Two behaviours of the code may not be what a reader expects. The model follows the code in both:
- **A tied game.** One might expect a tie to count as neither a win nor a loss. `calculate_team_stats.py:49,62` gives neither team `won = 1`, and `losses` is `games_played - wins` (lines 75-76). So a tie counts as a loss for both teams. The model does the same, and `TeamStats.EventOutcome` proves that neither side of a tie is marked won.
- **Two games for a team on one date.** One might expect the snapshot after the later game of the date. The code keeps the row with the most games played. Because the counters use PostgreSQL's default RANGE frame, same-date peers have equal counters. The model keeps the last candidate among the rows with the most games played. `TeamStats.SelectLast` proves this rule, and `TeamStats.TeamStatsDateRows` proves its consequence: the stored row is the one of the last event of that date in its partition. `TeamStats.DateRowsInTeamStats` proves the converse.

## Model

| member | source | states |
|---|---|---|
| Common.IntToString | src/etl/calculate_team_stats.py:123-125 | The text of an integer is never empty. It is the digits of a non-negative number, and '-' followed by the digits of its magnitude for a negative one. |
| Common.NatToStringRoundTrip | src/etl/calculate_team_stats.py:123-125 | The text of a count consists only of digits, has a leading '0' only for zero, and reads back to the same number. |
| Common.NatToStringInjective | src/etl/calculate_team_stats.py:123-125 | Different counts give different texts. |
| Common.RoundToError | src/etl/calculate_team_stats.py:119-122 | ROUND to p places moves a value by at most half a unit in the p-th place. |
| Common.RoundToIsSymmetric | src/etl/calculate_team_stats.py:119-122 | ROUND rounds halves away from zero: rounding -x gives minus the rounding of x. |
| Common.RoundToUnitInterval | src/etl/calculate_team_stats.py:119 | ROUND keeps a fraction between 0 and 1 within [0, 1]. |
| Common.FilterMembers | src/etl/calculate_team_stats.py:52-65 | A filtered sequence holds exactly the elements that satisfy the condition. |
| Common.FilterAppend | src/etl/calculate_team_stats.py:54 | Filtering distributes over concatenation, as WHERE does over UNION ALL. |
| Common.SortBySorted | src/etl/calculate_team_stats.py:73-104 | The ORDER BY game_date sort is ordered by date and is a permutation of its input. |
| Common.FilterSortBy | src/etl/calculate_team_stats.py:73-104 | Taking a PARTITION BY slice of the sorted events gives the same sequence as sorting that slice alone. |
| ApiClient.CleanDict | src/ingestion/nba_api_client.py:34-47 | The cleaned dictionary has the same keys in the same order, and each value is that key's value cleaned. |
| ApiClient.DictSet | src/ingestion/nba_api_client.py:161 | Setting a key of raw_data makes a lookup of that key give the new value and leaves every other key's lookup as it was. |
| ApiClient.CleanValue | src/ingestion/nba_api_client.py:36-46 | A NaN or infinite float becomes null. A value that is not a float, dict or list is kept. |
| ApiClient.CleanItems | src/ingestion/nba_api_client.py:44 | A list keeps its length, and every item that is not a dict is kept unchanged. |
| ApiClient.CleanDictIsClean | src/ingestion/nba_api_client.py:34-47 | After cleaning, no float at a dictionary level is NaN or infinite, and this holds recursively through nested dicts and dicts inside lists. |
| ApiClient.CleanValueIsClean | src/ingestion/nba_api_client.py:36-46 | A cleaned value is clean in the same sense. |
| ApiClient.CleanItemsIsClean | src/ingestion/nba_api_client.py:44 | Every dict inside a cleaned list is clean. |
| ApiClient.CleanDictKeepsClean | src/ingestion/nba_api_client.py:34-47 | Cleaning leaves an already clean dictionary unchanged. |
| ApiClient.CleanValueKeepsClean | src/ingestion/nba_api_client.py:36-46 | Cleaning leaves an already clean value unchanged. |
| ApiClient.CleanItemsKeepsClean | src/ingestion/nba_api_client.py:44 | Cleaning leaves an already clean list unchanged. |
| ApiClient.CleanDictFixedPoints | src/ingestion/nba_api_client.py:34-47 | A dictionary is left unchanged by cleaning if and only if it is clean. |
| ApiClient.CleanDictIdempotent | src/ingestion/nba_api_client.py:34-47 | Cleaning twice gives the same result as cleaning once. |
| ApiClient.NaNInsideListSurvives | src/ingestion/nba_api_client.py:43-44 | A NaN directly inside a list, or inside a nested list, is not replaced. Only dict items are cleaned. |
| ApiClient.Trunc | src/ingestion/nba_api_client.py:155 | int() of a float truncates toward zero: the integer part, never past the value away from zero. |
| ApiClient.IntCell | src/ingestion/nba_api_client.py:204-205 | A missing or NaN cell gives None. An infinite cell raises. A finite cell gives its truncated value. |
| ApiClient.FloatCell | src/ingestion/nba_api_client.py:206-213 | A cell is present exactly when it is not missing or NaN, and it is then never NaN. |
| ApiClient.PairRowsFailureSticks | src/ingestion/nba_api_client.py:134-161 | Once a row raises, the whole pairing raises, whatever rows follow. |
| ApiClient.PairStepMatches | src/ingestion/nba_api_client.py:143-161 | One more row that does not raise keeps games_dict equal to its row-by-row description. That description is: the first row's date and status, the last home and away sides, and one raw_data entry per team, holding the cleaned dict of that team's last row. |
| ApiClient.PairStepOrder | src/ingestion/nba_api_client.py:143-150 | The insertion order of games_dict holds each game id once, and exactly the ids in the dict. |
| ApiClient.PairStepFails | src/ingestion/nba_api_client.py:153-158 | One loop iteration raises exactly when the row's PTS is infinite. |
| ApiClient.PairRowsFails | src/ingestion/nba_api_client.py:134-161 | The loop raises if and only if some row's PTS is infinite. |
| ApiClient.PairRowsMatches | src/ingestion/nba_api_client.py:132-161 | The loop raises if and only if some row's PTS is infinite. Otherwise games_dict holds exactly the games that have rows, each as the row-by-row description says. |
| ApiClient.CompleteRecordsMembers | src/ingestion/nba_api_client.py:164-167 | The final comprehension keeps exactly the records of listed ids that have both a home and an away team. |
| ApiClient.CompleteRecordsDistinct | src/ingestion/nba_api_client.py:164-167 | The kept records have distinct game ids, all of them listed. |
| ApiClient.CompleteRecordsShape | src/ingestion/nba_api_client.py:164-167 | The kept records are exactly the complete records of the listed ids, each game once. |
| ApiClient.PairingOutput | src/ingestion/nba_api_client.py:164-170 | Every output game is complete and matches its rows. Every game with both a home and an away row is in the output. |
| ApiClient.PairedGamesShape | src/ingestion/nba_api_client.py:132-170 | _process_games_dataframe raises if and only if some PTS is infinite. Otherwise it returns each game that has both sides exactly once, with the date and status of its first row and the last home and away lines. |
| ApiClient.ProcessGamesDataframe | src/ingestion/nba_api_client.py:132-170 | The loop over the rows and the final comprehension compute the pairing that PairedGamesShape describes. |
| ApiClient.AddGameRow | src/ingestion/nba_api_client.py:135-161 | One loop iteration updates games_dict and its order as one pairing step. |
| ApiClient.CollectComplete | src/ingestion/nba_api_client.py:164-167 | The filtering loop returns the complete records in insertion order. |
| ApiClient.ConvertTeamRow | src/ingestion/nba_api_client.py:199-215 | A converted stat keeps the team id, has no game id, is dated today, and carries W and L as their cells convert. Conversion raises exactly when W or L is infinite. |
| ApiClient.RequestedRows | src/ingestion/nba_api_client.py:196 | The isin filter keeps exactly the frame rows whose team was requested. |
| ApiClient.ConvertTeamRows | src/ingestion/nba_api_client.py:198-216 | Conversion gives one stat per kept row, in order and with the same team ids. It raises exactly when some kept row raises. |
| ApiClient.FetchTeamStatsFilters | src/ingestion/nba_api_client.py:191-216 | Only requested teams come back. Each requested row of the frame gives a stat, and there are as many stats as requested rows. |
| ApiClient.StatsFollowRows | src/ingestion/nba_api_client.py:196-216 | Stats that follow the kept rows one for one carry only requested teams and cover every kept row. |
| Database.BatchesPartition | src/ingestion/database.py:112-118 | The batches concatenate back to the values. Each batch holds 1 to 100 values, and every batch except the last holds exactly 100. |
| Database.UpsertAllAppend | src/ingestion/database.py:115-118 | Upserting a+b equals upserting a and then b, so batching does not change the outcome. |
| Database.RunBatchesFails | src/ingestion/database.py:87-118 | The batched insert fails if and only if some batch contains one game_id twice. The error is then PostgreSQL's "cannot affect row a second time". |
| Database.RunBatchesDistinct | src/ingestion/database.py:112-118 | With distinct game ids, the batched insert gives the same table as upserting every value in turn. |
| Database.UpsertAllEffect | src/ingestion/database.py:87-108 | After the upsert, a game id is present exactly when it was stored or inserted. An untouched row is unchanged. A touched row has the last occurrence's scores, status and raw data and is stamped now. It keeps the stored date, season and teams, or the first occurrence's for a new row. |
| Database.ActiveIdsMembers | src/ingestion/database.py:188 | The query returns exactly the ids of active teams. |
| Database.ActiveTeamIdsSpec | src/ingestion/database.py:188 | The ids come back ordered by team_id, as a permutation of the active teams' ids, and are exactly those ids. |
| Database.ReportedRowcountExact | src/ingestion/database.py:173-176 | The row count that execute_values leaves equals the number of rows sent if and only if they fit in one page of 100. |
| Database.ReportedRowcountUndercounts | src/ingestion/database.py:173-176 | For 101 stats the reported count is 1. |
| Database.DatabaseConnection.constructor | src/ingestion/database.py:66-195 | The connection starts with the given raw_games, raw_team_stats and teams contents. |
| Database.DatabaseConnection.InsertRawGames | src/ingestion/database.py:66-127 | No games returns 0 and changes nothing. Otherwise the batched upsert either succeeds, returning the number of games and the new table, or fails with its error and leaves raw_games as it was. Nothing else changes. |
| Database.DatabaseConnection.InsertRawTeamStats | src/ingestion/database.py:129-179 | The stats are appended to raw_team_stats, and the number of stats inserted is returned (the corrected count). Nothing else changes. |
| Database.DatabaseConnection.GetTeamIds | src/ingestion/database.py:181-195 | Returns the active team ids, ordered by team_id, as a permutation of the active teams' ids. |
| ProcessGames.DeriveConsistent | src/etl/process_games.py:48-54 | A derived row is consistent, with these properties. The winner is the team with the higher score, and there is no winner exactly when the scores are equal. The point differential is non-negative and zero exactly for a tie. The total is the sum of the two scores. |
| ProcessGames.ProcessAllKeys | src/etl/process_games.py:35-67 | After the statement, games holds the stored ids and the ids of final, fully scored raw games, and no others. |
| ProcessGames.ProcessAllEffect | src/etl/process_games.py:35-67 | A game without a qualifying raw row is unchanged. A qualifying one gets the raw scores, their winner, differential and total, and processed_at = now. It keeps its stored date, season, teams and status if it existed; otherwise it takes the raw row's values and status 'final'. |
| ProcessGames.ProcessAllKeepsConsistent | src/etl/process_games.py:48-66 | If the stored games are consistent and name the same teams as their raw rows, every row stays consistent, and the teams still agree. |
| ProcessGames.ProcessAllIdempotent | src/etl/process_games.py:60-66 | Running the statement twice on the same raw rows gives the same table as one run at the later time. |
| ProcessGames.ProcessAllRerun | src/etl/process_games.py:60-66 | A second run keeps the same ids and changes only processed_at on qualifying rows. |
| ProcessGames.GamesTable.constructor | src/etl/process_games.py:32-34 | The table starts with the given games. |
| ProcessGames.GamesTable.ProcessRawGames | src/etl/process_games.py:34-71 | The games table becomes the statement's result. The reported row count is the number of qualifying raw games. |
| TeamStats.GameResultsShape | src/etl/calculate_team_stats.py:41-66 | game_results holds two events per final game: home events first, then away events. The home event has the home team, home points and away points, and the away event mirrors it, with the same date and season. |
| TeamStats.GameResultsOrigin | src/etl/calculate_team_stats.py:41-66 | Every event is the home or the away event of a final game of the scan. |
| TeamStats.EventOutcome | src/etl/calculate_team_stats.py:49-62 | For a consistent game, a side is marked won exactly when it scored more. In a tie neither side is marked won. |
| TeamStats.CountThroughBalanced | src/etl/calculate_team_stats.py:73-98 | The cumulative counters split cleanly: home plus away games equal games, home plus away wins equal wins, and no count of wins exceeds its games. |
| TeamStats.CountThroughIgnoresLater | src/etl/calculate_team_stats.py:73-98 | The counters at a date ignore every event dated after it. This is the RANGE frame up to the current peer group. |
| TeamStats.CountThroughEarlier | src/etl/calculate_team_stats.py:73-98 | When all events are at or before the date, the counters are the totals and games_played is their number. |
| TeamStats.CountThroughGrows | src/etl/calculate_team_stats.py:73 | games_played never decreases with the date, and it strictly grows when an event falls in between. |
| TeamStats.Frame | src/etl/calculate_team_stats.py:77-104 | A ROWS n PRECEDING frame holds min(k, rows so far) rows. |
| TeamStats.WinsInBounds | src/etl/calculate_team_stats.py:100-104 | The wins in a frame are between 0 and its length. |
| TeamStats.RowForCounts | src/etl/calculate_team_stats.py:73-125 | A snapshot row takes games_played, wins, losses, win_pct and the home and away records from the counters at its date. last_5_record comes from the wins in the 5-row frame. |
| TeamStats.RecordTextInjective | src/etl/calculate_team_stats.py:123-125 | A "w-l" record text determines w and l. |
| TeamStats.RowForGames | src/etl/calculate_team_stats.py:73 | games_played is at least the event's position in its partition. At the last event of a date it equals that position. |
| TeamStats.RowForBalanced | src/etl/calculate_team_stats.py:73-124 | games_played = wins + losses, both non-negative. The home and away record texts split wins and games between them. |
| TeamStats.RowForAverages | src/etl/calculate_team_stats.py:77-122 | avg_points and avg_opp_points are the means over the last min(10, n) rows, rounded to one place. Early in a season this is the mean over all rows so far. |
| TeamStats.RowForMeans | src/etl/calculate_team_stats.py:77-122 | The averages are the rounded means of the 10-row frame. point_diff is the difference of the unrounded means, rounded. |
| TeamStats.MarginMean | src/etl/calculate_team_stats.py:122 | The unrounded difference AVG(points) - AVG(opp_points) over a frame is the frame's mean point margin, so point_diff is that margin rounded to one place. |
| TeamStats.MeanDifference | src/etl/calculate_team_stats.py:122 | The difference of two averages over one frame is the average of the differences. |
| TeamStats.TenthsError | src/etl/calculate_team_stats.py:120-122 | Rounding to one place is off by at most 0.05. |
| TeamStats.RowForLastFive | src/etl/calculate_team_stats.py:100-125 | last_5_record is "w-(min(5,games_played)-w)" with 0 <= w <= min(5, games_played). At the end of a date its frame has min(5, games_played) rows. |
| TeamStats.WinPctBounds | src/etl/calculate_team_stats.py:119 | win_pct lies in [0, 1] and within 0.0005 of wins/games. |
| TeamStats.ThousandthsError | src/etl/calculate_team_stats.py:119 | Rounding to three places is off by at most 0.0005. |
| TeamStats.RowForWinPct | src/etl/calculate_team_stats.py:119-127 | Every snapshot has games_played > 0, and its win_pct lies in [0, 1] within 0.0005 of wins/games_played. |
| TeamStats.RowForIncreases | src/etl/calculate_team_stats.py:73-98 | A later date has strictly more games played. Events on the same date share games_played, wins and both records. |
| TeamStats.PartitionSpec | src/etl/calculate_team_stats.py:73-104 | A (team, season) partition is ordered by date, holds that team's events of that season, and equals the date-sorted slice of game_results. |
| TeamStats.PartitionIsolated | src/etl/calculate_team_stats.py:73-104 | A partition depends only on its own events: other teams and other seasons never affect it. |
| TeamStats.SelectKeys | src/etl/calculate_team_stats.py:112-127 | DISTINCT ON keeps a (team_id, stat_date) key exactly when some candidate with games_played > 0 has it. |
| TeamStats.SelectKept | src/etl/calculate_team_stats.py:112-128 | The kept row is one of the candidates for its key, has games_played > 0, and has the most games played among them. |
| TeamStats.SelectSpec | src/etl/calculate_team_stats.py:112-128 | Both properties of DISTINCT ON together. |
| TeamStats.CandidateRow | src/etl/calculate_team_stats.py:67-104 | The k-th candidate row is the snapshot of its event's (team, season) partition at that event's position. |
| TeamStats.CandidateKey | src/etl/calculate_team_stats.py:67-104 | A candidate carries its event's team, date and season, and has games_played >= 1. |
| TeamStats.RowForPlayed | src/etl/calculate_team_stats.py:73-127 | Every snapshot has games_played >= 1, so the WHERE drops none. |
| TeamStats.OrderedMembers | src/etl/calculate_team_stats.py:73 | Sorting by date loses and adds no event. |
| TeamStats.TeamStatsKeys | src/etl/calculate_team_stats.py:41-128 | team_stats has a row for (team, date) if and only if the team played a final game on that date. |
| TeamStats.KeyHasGame | src/etl/calculate_team_stats.py:41-128 | Every key of team_stats comes from a final game of that team on that date. |
| TeamStats.KeyHasEvent | src/etl/calculate_team_stats.py:41-128 | Every key of team_stats comes from an event of game_results. |
| TeamStats.EventHasGame | src/etl/calculate_team_stats.py:41-66 | Every event comes from a final game of its team on its date. |
| TeamStats.GameHasEvent | src/etl/calculate_team_stats.py:41-66 | Every final game yields an event for each of its teams. |
| TeamStats.GameHasKey | src/etl/calculate_team_stats.py:41-128 | Every final game yields a team_stats row for each of its teams on its date. |
| TeamStats.TeamStatsRows | src/etl/calculate_team_stats.py:67-128 | Every row of team_stats is the snapshot of its team's season partition at an event of that date. Its games_played and wins are the counters through that date. games_played = wins + losses >= 1, and 0 <= win_pct <= 1. |
| TeamStats.SelectLast | src/etl/calculate_team_stats.py:112-128 | The row DISTINCT ON keeps for a key is a candidate of that key, and every later candidate of the key has fewer games played. |
| TeamStats.PartitionMember | src/etl/calculate_team_stats.py:73-104 | An event of a (team, season) partition is an event of game_results of that team and season. |
| TeamStats.TeamStatsDateRows | src/etl/calculate_team_stats.py:67-128 | The stored row of a key is the snapshot at the last event of that date in its team's partition for the row's season. So it is one of that partition's per-date rows, the rows the one-pass computation emits. |
| TeamStats.DateRowsInTeamStats | src/etl/calculate_team_stats.py:67-128 | Every per-date row of a partition is the stored row of its key, provided the team has no event of another season on that date. |
| TeamStats.LaterSameDateCandidate | src/etl/calculate_team_stats.py:73-98 | An event followed by another event of the same date in its partition is followed by a candidate row of the same key with as many games played, because the counters' default frame takes in the whole date. |
| TeamStats.PartitionRowKey | src/etl/calculate_team_stats.py:112-114 | The row of an event of a partition carries the team, the event's date and the season, and its key is in team_stats. |
| TeamStats.TeamStatsMostGames | src/etl/calculate_team_stats.py:112-128 | Every candidate's key is in team_stats, and no candidate has more games played than the row kept for its key. |
| TeamStats.DateEnds | src/etl/calculate_team_stats.py:112-128 | The positions that end a date lie within the prefix. |
| TeamStats.DateRowsStep | src/etl/calculate_team_stats.py:112-128 | Scanning one more event adds its snapshot exactly when it ends its date. |
| TeamStats.RowForKey | src/etl/calculate_team_stats.py:112-114 | A snapshot carries its event's team, date and season. |
| TeamStats.DateEndsMembers | src/etl/calculate_team_stats.py:112-128 | The date ends are exactly the positions whose next event has a different date, in increasing order. |
| TeamStats.LaterDate | src/etl/calculate_team_stats.py:128 | In a date-ordered partition, any event after the end of a date has a later date. |
| TeamStats.DateRowsMembers | src/etl/calculate_team_stats.py:112-128 | One row per date of a partition: exactly the snapshots at the ends of dates. |
| TeamStats.DateRowsIncreasing | src/etl/calculate_team_stats.py:112-128 | A partition's per-date rows have strictly increasing stat_date, so (team_id, stat_date) is unique. |
| TeamStats.Advance | src/etl/calculate_team_stats.py:73-104 | One step of the running window state moves the counters and both frames one event forward. |
| TeamStats.Collect | src/etl/calculate_team_stats.py:112-128 | After each event, the emitted rows are the per-date rows so far. |
| TeamStats.RollPartition | src/etl/calculate_team_stats.py:67-128 | One pass with running counters and frames over a date-ordered partition emits exactly its per-date rows. |
| TeamStats.TeamStatsTable.constructor | src/etl/calculate_team_stats.py:35 | team_stats starts empty. |
| TeamStats.TeamStatsTable.CalculateTeamStats | src/etl/calculate_team_stats.py:35-140 | After the DELETE and the INSERT ... SELECT, team_stats is exactly the per-key snapshots. The reported count is the number of rows. |
| TeamStats.TeamStatsTable.InsertDistinct | src/etl/calculate_team_stats.py:107-139 | Inserting the ordered candidates into the emptied table leaves the DISTINCT ON selection. |
| TeamStats.ThreeGameSnapshot | src/etl/calculate_team_stats.py:67-125 | Take a home win 100-90, an away loss 95-100 and a home win 110-105. The third snapshot is 3 games, 2-1, win_pct 0.667, averages 101.7 and 98.3, point_diff 3.3, home "2-0", away "0-1", last five "2-1". |
| TeamStats.RowForShort | src/etl/calculate_team_stats.py:77-104 | With at most five events so far, both frames are the whole partition prefix. |
| TeamStats.ScenarioRounding | src/etl/calculate_team_stats.py:119-122 | 2/3 rounds to 0.667. 305/3 rounds to 101.7, 295/3 to 98.3, and their difference to 3.3. |
| TeamStats.ScenarioTexts | src/etl/calculate_team_stats.py:123-125 | The record texts of 2 and 0, 0 and 1, and 2 and 1 are "2-0", "0-1" and "2-1". |
| Ingest.SeasonTablesAgree | src/ingestion/ingest_data.py:171-187 | The two season tables know the same four seasons and agree on each end date. Every known season starts before it ends. |
| Ingest.SeasonDays2023 | src/ingestion/ingest_data.py:182 | 2023-10-24 and 2024-04-14 are days 19654 and 19827 after 1970-01-01. |
| Ingest.SeasonDays2022 | src/ingestion/ingest_data.py:183 | 2022-10-18 and 2023-04-09 are days 19283 and 19456. |
| Ingest.SeasonDays2021 | src/ingestion/ingest_data.py:184 | 2021-10-19 and 2022-04-10 are days 18919 and 19092. |
| Ingest.SeasonDays2020 | src/ingestion/ingest_data.py:185 | 2020-12-22 and 2021-05-16 are days 18618 and 18763. |
| Ingest.ExplicitDatesWin | src/ingestion/ingest_data.py:165-168 | The date choice fails exactly when both dates are given and one does not parse. The error is the start date's strptime message when the start date fails, else the end date's. Two parsable dates are used as given, whatever `days` says. |
| Ingest.DaysWindow | src/ingestion/ingest_data.py:169-178 | Without both dates, a non-zero `days` gives a window of exactly that many days. It ends at the season's last day, or now for an unknown season. |
| Ingest.DefaultRange | src/ingestion/ingest_data.py:179-187 | With neither dates nor `days`, a known season gives its table range (start before end), and an unknown one gives the 30 days up to now. |
| Ingest.StoreGames | src/ingestion/ingest_data.py:193-228 | A fetch error is a failure with its message and no change. No games is a success with zero counts. Otherwise the batched upsert decides: on success both counts are the number of games and raw_games is the upserted table; on failure its error is reported and raw_games is unchanged. |
| Ingest.IngestRecentGames | src/ingestion/ingest_data.py:38-76 | Stores as `StoreGames` does: a fetch error is a failure with its message, no games is a success with zero counts, and otherwise a successful batched upsert makes raw_games the upserted table and reports fetched = inserted = the number of games, while a failed one is reported and stores nothing. |
| Ingest.IngestHistoricalGames | src/ingestion/ingest_data.py:159-228 | The result names its season. A bad explicit date is a failure with strptime's message and stores nothing. Otherwise the games fetched for the chosen range are stored as `StoreGames` does, and the date range is reported exactly on a success with games. |
| Ingest.StoredGamesSuccess | src/ingestion/ingest_data.py:191-228 | A game ingestion succeeds exactly when the fetch succeeds and the fetch is empty or the batched upsert succeeds. A failure stores nothing and reports zero counts. |
| Ingest.StoredDistinctGames | src/ingestion/ingest_data.py:203-218 | A non-empty fetch of distinct games is stored in full: both counts are the number of games, and raw_games is the upsert of the fetched games one after another. |
| Ingest.SuccessfulTotalAppend | src/ingestion/ingest_data.py:257-258 | The running total over a+b is the total over a plus the total over b. |
| Ingest.SuccessfulTotalBound | src/ingestion/ingest_data.py:257-262 | total_games counts only successful seasons. It equals the sum of all inserted counts when every season succeeds, and it is 0 when none does. |
| Ingest.IngestMultipleSeasons | src/ingestion/ingest_data.py:245-273 | One result per season, in input order. Overall success exactly when every season succeeded, and total_games is the sum over the successful seasons. |
| Ingest.IngestTeamStats | src/ingestion/ingest_data.py:89-135 | No active team is a failure with "No teams in database". A conversion error is a failure that stores nothing. Otherwise the requested stats are appended and both counts are their number. |
| Ingest.RunFullIngestion | src/ingestion/ingest_data.py:287-294 | Overall success exactly when both parts succeed. The games part stores and reports as `IngestRecentGames` does, and the team-stats part as `IngestTeamStats` does on the teams and raw_team_stats of before the run. |

## Left out

- Network calls, retries and sleeps, logging, `duration_seconds`, `timestamp` and `datetime.now()` are left out. Each fetch is a parameter: the games a call returns, or the message of the exception it raises. Every `now` in one call is a single parameter, including the default range that reads the clock twice.
- `datetime.strptime` is a `parse` parameter. A `Failure` stands for the ValueError it raises and carries its message, which the entry point reports unchanged. The messages themselves ("time data ... does not match format ...", "day is out of range for month", "unconverted data remains: ...") are not generated by the model.
- A missing `start_date`, `end_date` or `days` is the empty string or 0. Python treats both as false, so they behave the same as None.
- Time zones are left out: the stat date of team stats is `now` divided by 86400.
- `pd.to_datetime`, `str()` and `int()` of the identifier columns are taken as already applied. Rows carry a day number, a game id string and an integer team id.
- The shape of cleaned floats inside `raw_data` is kept. The JSON encoding itself (psycopg2 `Json`) is left out.
- `processed_at` and `ingested_at` on a fresh insert are taken to default to the current time. The table definitions are not part of this model.
- The order of rows that PostgreSQL's sort leaves open (same-date events of one team) and the row DISTINCT ON keeps among equal games_played are fixed in the model. Events are sorted stably: by date, then by the scan order of `games`, with home events before away events. DISTINCT ON keeps the last candidate in that order. Among same-date peers every candidate has the same counters (RANGE frame), but the ROWS-frame averages can differ.
- The summary queries after each statement (AVG, COUNT, MIN and MAX for the log) only feed logging and are left out.
- Exceptions raised by the database other than the duplicate-key one are left out. Each modelled exception path becomes `Failure(message)`, and the caller's rollback becomes "the table is unchanged".
- `execute_values` paging inside `insert_raw_games` is not modelled beyond one statement per batch, because a batch of 100 fills one page of 100.
- The unused configuration constants in the two `config.py` files are left out.
- Ingest.IngestTeamStats: reports stats_inserted as the number of stats appended. This is the corrected count from the Findings row; the code as written reports `Database.ReportedRowcount` of it (1 for 101 stats). `RunFullIngestion` inherits this count.
- Ingest.IngestTeamStats: with no active team the source's result dictionary has no stats_fetched or stats_inserted keys. The model's `Outcome` always carries both counts and sets them to 0 there.
- Ingest.IngestMultipleSeasons: states the order, the seasons and the totals of the per-season results. Each result's own content is stated once, by `IngestHistoricalGames` for a single call, rather than repeated in the loop's contract.

## Findings

| source | as written | input that shows it | evidently intended | confidence | as-written member | corrected member |
|---|---|---|---|---|---|---|
| src/ingestion/database.py:173-176 | `insert_raw_team_stats` returns `cursor.rowcount` after `execute_values`, which sends the rows in pages of 100 (its default page size). The row count is that of the last page's statement only. | 101 stats: all 101 rows are inserted, but the method returns 1 | return the number of rows inserted, 101 | not executed | Database.ReportedRowcountUndercounts | Database.DatabaseConnection.InsertRawTeamStats |
