/**
 * The ingestion layer's writes to PostgreSQL: the batched upsert of paired games into
 * raw_games, the append of team-stat records to raw_team_stats, and the read of the
 * active team ids. The tables are fields of the connection; a transaction that raises
 * is rolled back by the caller's `with` block, which the methods fold in.
 */
module Database {
  import opened Common
  import opened ApiClient

  /** Rows per INSERT statement in insert_raw_games. */
  const BatchSize: nat := 100

  /** execute_values' default page size: rows per statement it sends. */
  const PageSize: nat := 100

  /** PostgreSQL's error for an upsert statement naming the same key twice. */
  const DuplicateKeyError: string := "ON CONFLICT DO UPDATE command cannot affect row a second time"

  /**
   * A game dictionary handed to insert_raw_games. The keys read with `.get` may be
   * absent: a missing score and a None score alike give NULL.
   */
  datatype GameDict = GameDict(
    gameId: string,
    gameDate: int,
    season: string,
    homeTeamId: int,
    awayTeamId: int,
    homeScore: Option<int>,
    awayScore: Option<int>,
    gameStatus: Option<string>,
    rawData: Option<seq<Field>>)

  /** The dictionary the stats client yields for a paired game. */
  function RecordDict(g: GameRecord): GameDict
    requires IsComplete(g)
  {
    GameDict(g.gameId, g.gameDate, g.season, g.home.value.teamId, g.away.value.teamId,
             g.home.value.score, g.away.value.score, Some(g.gameStatus), Some(g.rawData))
  }

  /** One VALUES tuple of the raw_games insert. */
  datatype RawValues = RawValues(
    gameId: string,
    gameDate: int,
    season: string,
    homeTeamId: int,
    awayTeamId: int,
    homeScore: Option<int>,
    awayScore: Option<int>,
    gameStatus: string,
    rawData: seq<Field>)

  /** A stored raw_games row: its columns and when it was last written. */
  datatype RawGameRow = RawGameRow(values: RawValues, ingestedAt: int)

  /** A missing game_status becomes 'scheduled' and missing raw_data an empty object. */
  function ToValues(g: GameDict): RawValues {
    RawValues(g.gameId, g.gameDate, g.season, g.homeTeamId, g.awayTeamId,
              g.homeScore, g.awayScore,
              if g.gameStatus.Some? then g.gameStatus.value else "scheduled",
              if g.rawData.Some? then g.rawData.value else [])
  }

  function ValuesOf(games: seq<GameDict>): (vs: seq<RawValues>)
    ensures |vs| == |games|
    ensures forall i :: 0 <= i < |games| ==> vs[i] == ToValues(games[i])
  {
    seq(|games|, i requires 0 <= i < |games| => ToValues(games[i]))
  }

  /** The columns an upsert conflict leaves as stored. */
  predicate SameIdentity(a: RawValues, b: RawValues) {
    a.gameId == b.gameId && a.gameDate == b.gameDate && a.season == b.season
    && a.homeTeamId == b.homeTeamId && a.awayTeamId == b.awayTeamId
  }

  /** The columns an upsert conflict overwrites. */
  predicate SameResult(a: RawValues, b: RawValues) {
    a.homeScore == b.homeScore && a.awayScore == b.awayScore
    && a.gameStatus == b.gameStatus && a.rawData == b.rawData
  }

  /**
   * One row of INSERT ... ON CONFLICT (game_id) DO UPDATE: a new key is inserted; an
   * existing one gets the new scores, status and raw data and a fresh ingested_at.
   */
  function Upsert(table: map<string, RawGameRow>, v: RawValues, now: int): map<string, RawGameRow> {
    if v.gameId in table then
      var stored := table[v.gameId].values;
      table[v.gameId := RawGameRow(stored.(homeScore := v.homeScore, awayScore := v.awayScore,
                                           gameStatus := v.gameStatus, rawData := v.rawData), now)]
    else
      table[v.gameId := RawGameRow(v, now)]
  }

  /** The rows of vs upserted one after another. */
  function UpsertAll(table: map<string, RawGameRow>, vs: seq<RawValues>, now: int): map<string, RawGameRow>
    decreases |vs|
  {
    if vs == [] then table else Upsert(UpsertAll(table, vs[..|vs| - 1], now), vs[|vs| - 1], now)
  }

  predicate DistinctIds(vs: seq<RawValues>) {
    forall i, j :: 0 <= i < j < |vs| ==> vs[i].gameId != vs[j].gameId
  }

  /** One INSERT statement: PostgreSQL refuses a statement that upserts a key twice. */
  function Statement(table: map<string, RawGameRow>, batch: seq<RawValues>, now: int)
    : Result<map<string, RawGameRow>>
  {
    if DistinctIds(batch) then Success(UpsertAll(table, batch, now)) else Failure(DuplicateKeyError)
  }

  /** The slices values[i:i+100] for i in range(0, len(values), 100). */
  function Batches<T>(vs: seq<T>): seq<seq<T>>
    decreases |vs|
  {
    if vs == [] then [] else [vs[..Min(BatchSize, |vs|)]] + Batches(vs[Min(BatchSize, |vs|)..])
  }

  function Concat<T>(ss: seq<seq<T>>): seq<T> {
    if ss == [] then [] else ss[0] + Concat(ss[1..])
  }

  /** The statements of insert_raw_games in order, stopping at the first that raises. */
  function RunBatches(table: map<string, RawGameRow>, vs: seq<RawValues>, now: int)
    : Result<map<string, RawGameRow>>
    decreases |vs|
  {
    if vs == [] then Success(table)
    else
      var n := Min(BatchSize, |vs|);
      match Statement(table, vs[..n], now)
      case Failure(e) => Failure(e)
      case Success(next) => RunBatches(next, vs[n..], now)
  }

  /** The slices cover the input exactly once, in order; each holds 1 to 100 rows, and only the last may hold fewer than 100. */
  lemma {:induction false} BatchesPartition<T>(vs: seq<T>)
    ensures Concat(Batches(vs)) == vs
    ensures forall k :: 0 <= k < |Batches(vs)| ==> 1 <= |Batches(vs)[k]| <= BatchSize
    ensures forall k :: 0 <= k < |Batches(vs)| - 1 ==> |Batches(vs)[k]| == BatchSize
    decreases |vs|
  {
    if vs != [] {
      var n := Min(BatchSize, |vs|);
      BatchesPartition(vs[n..]);
      var bs := Batches(vs);
      assert bs == [vs[..n]] + Batches(vs[n..]);
      assert bs[1..] == Batches(vs[n..]);
      assert vs == vs[..n] + vs[n..];
      if |vs| > BatchSize {
        assert vs[n..] != [];
      }
    }
  }

  /** Upserting a concatenation is upserting its parts in turn. */
  lemma {:induction false} UpsertAllAppend(table: map<string, RawGameRow>, a: seq<RawValues>, b: seq<RawValues>, now: int)
    ensures UpsertAll(table, a + b, now) == UpsertAll(UpsertAll(table, a, now), b, now)
    decreases |b|
  {
    if b == [] {
      assert a + b == a;
    } else {
      var b' := b[..|b| - 1];
      UpsertAllAppend(table, a, b', now);
      assert (a + b)[..|a + b| - 1] == a + b';
    }
  }

  /** The batched run fails exactly when some slice names a game twice. */
  lemma {:induction false} RunBatchesFails(table: map<string, RawGameRow>, vs: seq<RawValues>, now: int)
    ensures RunBatches(table, vs, now).Failure?
            <==> exists k :: 0 <= k < |Batches(vs)| && !DistinctIds(Batches(vs)[k])
    ensures RunBatches(table, vs, now).Failure? ==> RunBatches(table, vs, now).error == DuplicateKeyError
    decreases |vs|
  {
    if vs != [] {
      var n := Min(BatchSize, |vs|);
      var bs := Batches(vs);
      assert bs == [vs[..n]] + Batches(vs[n..]);
      if DistinctIds(vs[..n]) {
        RunBatchesFails(UpsertAll(table, vs[..n], now), vs[n..], now);
        if exists k :: 0 <= k < |bs| && !DistinctIds(bs[k]) {
          var k :| 0 <= k < |bs| && !DistinctIds(bs[k]);
          assert k > 0 && bs[k] == Batches(vs[n..])[k - 1];
        }
        if exists k :: 0 <= k < |Batches(vs[n..])| && !DistinctIds(Batches(vs[n..])[k]) {
          var k :| 0 <= k < |Batches(vs[n..])| && !DistinctIds(Batches(vs[n..])[k]);
          assert bs[k + 1] == Batches(vs[n..])[k];
        }
      } else {
        assert bs[0] == vs[..n];
      }
    }
  }

  /** When no game repeats, the batched run succeeds and equals one upsert per game in order. */
  lemma {:induction false} RunBatchesDistinct(table: map<string, RawGameRow>, vs: seq<RawValues>, now: int)
    requires DistinctIds(vs)
    ensures RunBatches(table, vs, now) == Success(UpsertAll(table, vs, now))
    decreases |vs|
  {
    if vs != [] {
      var n := Min(BatchSize, |vs|);
      DistinctSplit(vs, n);
      var head, rest := vs[..n], vs[n..];
      assert Statement(table, head, now) == Success(UpsertAll(table, head, now));
      RunBatchesDistinct(UpsertAll(table, head, now), rest, now);
      UpsertAllAppend(table, head, rest, now);
      assert head + rest == vs;
    }
  }

  /** Both parts of a list without repeated game ids are without repeated game ids. */
  lemma DistinctSplit(vs: seq<RawValues>, n: nat)
    requires DistinctIds(vs) && n <= |vs|
    ensures DistinctIds(vs[..n]) && DistinctIds(vs[n..])
  {
    forall i, j | 0 <= i < j < |vs[n..]| ensures vs[n..][i].gameId != vs[n..][j].gameId {
      assert vs[n..][i] == vs[n + i] && vs[n..][j] == vs[n + j];
    }
  }

  /** Index of the first value carrying id, or -1 when none does. */
  function FirstIndex(vs: seq<RawValues>, id: string): (k: int)
    ensures -1 <= k < |vs|
    ensures k >= 0 ==> vs[k].gameId == id
    ensures forall j :: 0 <= j < |vs| && (k < 0 || j < k) ==> vs[j].gameId != id
    decreases |vs|
  {
    if vs == [] then -1
    else
      var k := FirstIndex(vs[..|vs| - 1], id);
      if k >= 0 then k else if vs[|vs| - 1].gameId == id then |vs| - 1 else -1
  }

  /** Index of the last value carrying id, or -1 when none does. */
  function LastIndex(vs: seq<RawValues>, id: string): (k: int)
    ensures -1 <= k < |vs|
    ensures k >= 0 ==> vs[k].gameId == id
    ensures forall j :: k < j < |vs| ==> vs[j].gameId != id
    decreases |vs|
  {
    if vs == [] then -1
    else if vs[|vs| - 1].gameId == id then |vs| - 1
    else LastIndex(vs[..|vs| - 1], id)
  }

  /**
   * What a run of upserts leaves under one key: untouched when no value names it;
   * otherwise the last value's scores, status and raw data, written now, under the
   * stored date, season and teams, or the first value's when the key was new.
   */
  lemma {:induction false} UpsertAllEffect(table: map<string, RawGameRow>, vs: seq<RawValues>, now: int, id: string)
    ensures id in UpsertAll(table, vs, now) <==> id in table || LastIndex(vs, id) >= 0
    ensures LastIndex(vs, id) < 0 && id in table ==> UpsertAll(table, vs, now)[id] == table[id]
    ensures LastIndex(vs, id) >= 0 ==>
              UpsertAll(table, vs, now)[id].ingestedAt == now
              && SameResult(UpsertAll(table, vs, now)[id].values, vs[LastIndex(vs, id)])
    ensures LastIndex(vs, id) >= 0 && id in table ==>
              SameIdentity(UpsertAll(table, vs, now)[id].values, table[id].values)
    ensures LastIndex(vs, id) >= 0 && id !in table ==>
              SameIdentity(UpsertAll(table, vs, now)[id].values, vs[FirstIndex(vs, id)])
    decreases |vs|
  {
    if vs != [] {
      var pre := vs[..|vs| - 1];
      var v := vs[|vs| - 1];
      UpsertAllEffect(table, pre, now, id);
      assert LastIndex(vs, id) >= 0 ==> LastIndex(pre, id) >= 0 || v.gameId == id;
      if LastIndex(pre, id) >= 0 {
        assert FirstIndex(vs, id) == FirstIndex(pre, id);
      }
    }
  }

  /** A team's row in the teams table, as far as get_team_ids reads it. */
  datatype TeamRecord = TeamRecord(teamId: int, isActive: bool)

  /** The ids of active teams, in table order. */
  function ActiveIds(teams: seq<TeamRecord>): seq<int> {
    if teams == [] then []
    else (if teams[0].isActive then [teams[0].teamId] else []) + ActiveIds(teams[1..])
  }

  /** SELECT team_id FROM teams WHERE is_active = TRUE ORDER BY team_id. */
  function ActiveTeamIds(teams: seq<TeamRecord>): seq<int> {
    SortBy(ActiveIds(teams), (id: int) => id)
  }

  lemma {:induction false} ActiveIdsMembers(teams: seq<TeamRecord>, id: int)
    ensures id in ActiveIds(teams) <==> exists t :: t in teams && t.isActive && t.teamId == id
    decreases |teams|
  {
    if teams != [] {
      ActiveIdsMembers(teams[1..], id);
      assert teams == [teams[0]] + teams[1..];
      if exists t :: t in teams && t.isActive && t.teamId == id {
        var t :| t in teams && t.isActive && t.teamId == id;
        assert t == teams[0] || t in teams[1..];
      }
    }
  }

  /** get_team_ids returns exactly the active ids, in ascending order, each as often as stored. */
  lemma ActiveTeamIdsSpec(teams: seq<TeamRecord>)
    ensures forall i, j :: 0 <= i < j < |ActiveTeamIds(teams)| ==> ActiveTeamIds(teams)[i] <= ActiveTeamIds(teams)[j]
    ensures multiset(ActiveTeamIds(teams)) == multiset(ActiveIds(teams))
    ensures forall id :: id in ActiveTeamIds(teams) <==> exists t :: t in teams && t.isActive && t.teamId == id
  {
    var key := (id: int) => id;
    var r := ActiveTeamIds(teams);
    SortBySorted(ActiveIds(teams), key);
    assert SortedBy(r, key);
    forall i, j | 0 <= i < j < |r| ensures r[i] <= r[j] {
      assert key(r[i]) <= key(r[j]);
    }
    forall id ensures id in r <==> exists t :: t in teams && t.isActive && t.teamId == id {
      ActiveIdsMembers(teams, id);
      assert id in r <==> id in multiset(r);
      assert id in ActiveIds(teams) <==> id in multiset(ActiveIds(teams));
    }
  }

  /**
   * cursor.rowcount after execute_values sends n rows in pages of 100: the row count
   * of the last page's statement only.
   */
  function ReportedRowcount(n: nat): nat {
    if n == 0 then 0 else (n - 1) % PageSize + 1
  }

  /** The reported count is right exactly while everything fits in one page. */
  lemma ReportedRowcountExact(n: nat)
    ensures ReportedRowcount(n) == n <==> n <= PageSize
  {
  }

  /** 101 stats are inserted but 1 is reported. */
  lemma ReportedRowcountUndercounts()
    ensures ReportedRowcount(101) == 1
  {
  }

  class DatabaseConnection {
    var rawGames: map<string, RawGameRow>
    var rawTeamStats: seq<TeamStat>
    var teams: seq<TeamRecord>

    constructor (rawGames: map<string, RawGameRow>, rawTeamStats: seq<TeamStat>, teams: seq<TeamRecord>)
      ensures this.rawGames == rawGames && this.rawTeamStats == rawTeamStats && this.teams == teams
    {
      this.rawGames := rawGames;
      this.rawTeamStats := rawTeamStats;
      this.teams := teams;
    }

    /**
     * insert_raw_games inside its transaction: nothing for no games; otherwise one
     * statement per slice of 100, counting each slice's length. A statement that raises
     * rolls the whole transaction back.
     */
    method InsertRawGames(games: seq<GameDict>, now: int) returns (r: Result<nat>)
      modifies this
      ensures games == [] ==> r == Success(0) && rawGames == old(rawGames)
      ensures var run := RunBatches(old(rawGames), ValuesOf(games), now);
                (r.Success? <==> run.Success?)
                && (r.Success? ==> r.value == |games| && rawGames == run.value)
                && (r.Failure? ==> r.error == run.error && rawGames == old(rawGames))
      ensures rawTeamStats == old(rawTeamStats) && teams == old(teams)
    {
      if games == [] {
        return Success(0);
      }
      var values := ValuesOf(games);
      var saved := rawGames;
      var total := 0;
      var i := 0;
      while i < |values|
        invariant 0 <= i <= |values| && total == i
        invariant RunBatches(rawGames, values[i..], now) == RunBatches(saved, values, now)
        invariant rawTeamStats == old(rawTeamStats) && teams == old(teams)
        decreases |values| - i
      {
        var rest := values[i..];
        var n := Min(BatchSize, |rest|);
        var batch := rest[..n];
        assert values[i + n..] == rest[n..];
        var st := Statement(rawGames, batch, now);
        if st.Failure? {
          rawGames := saved;
          return Failure(st.error);
        }
        rawGames := st.value;
        total := total + |batch|;
        i := i + |batch|;
      }
      assert values[i..] == [];
      return Success(total);
    }

    /** insert_raw_team_stats: nothing for no stats; otherwise every stat appended, no conflict handling. */
    method InsertRawTeamStats(stats: seq<TeamStat>) returns (count: nat)
      modifies this
      ensures rawTeamStats == old(rawTeamStats) + stats
      ensures count == |stats|
      ensures rawGames == old(rawGames) && teams == old(teams)
    {
      if stats == [] {
        return 0;
      }
      rawTeamStats := rawTeamStats + stats;
      count := |stats|;
    }

    /** get_team_ids. */
    method GetTeamIds() returns (ids: seq<int>)
      ensures ids == ActiveTeamIds(teams)
      ensures forall i, j :: 0 <= i < j < |ids| ==> ids[i] <= ids[j]
      ensures forall id :: id in ids <==> exists t :: t in teams && t.isActive && t.teamId == id
      ensures multiset(ids) == multiset(ActiveIds(teams))
    {
      ids := ActiveTeamIds(teams);
      ActiveTeamIdsSpec(teams);
    }
  }
}
