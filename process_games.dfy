/**
 * process_raw_games: one INSERT ... SELECT ... ON CONFLICT statement that turns the
 * final, fully scored raw_games rows into games rows with a winner, an absolute point
 * differential and a total score, keyed by game_id.
 */
module ProcessGames {
  import opened Common
  import opened Database

  /** A row of the games table. */
  datatype Game = Game(
    gameId: string,
    gameDate: int,
    season: string,
    homeTeamId: int,
    awayTeamId: int,
    homeScore: int,
    awayScore: int,
    winnerId: Option<int>,
    pointDifferential: int,
    totalScore: int,
    gameStatus: string,
    processedAt: int)

  /** WHERE both scores are not null and the status is 'final'. */
  predicate Qualifies(v: RawValues) {
    v.homeScore.Some? && v.awayScore.Some? && v.gameStatus == "final"
  }

  /** The game ids of the raw rows the statement selects. */
  function QualifyingIds(raw: map<string, RawGameRow>): set<string> {
    set id | id in raw && Qualifies(raw[id].values)
  }

  /** CASE home > away THEN home id, away > home THEN away id, ELSE NULL. */
  function Winner(homeId: int, awayId: int, home: int, away: int): Option<int> {
    if home > away then Some(homeId) else if away > home then Some(awayId) else None
  }

  function Abs(x: int): int {
    if x < 0 then -x else x
  }

  /** The selected row for a qualifying raw row, as inserted for a new game_id. */
  function Derive(id: string, v: RawValues, now: int): Game
    requires Qualifies(v)
  {
    var h := v.homeScore.value;
    var a := v.awayScore.value;
    Game(id, v.gameDate, v.season, v.homeTeamId, v.awayTeamId, h, a,
         Winner(v.homeTeamId, v.awayTeamId, h, a), Abs(h - a), h + a, v.gameStatus, now)
  }

  /** DO UPDATE SET: the derived scores and figures over the stored date, season, teams and status. */
  function Refresh(stored: Game, derived: Game): Game {
    stored.(homeScore := derived.homeScore, awayScore := derived.awayScore,
            winnerId := derived.winnerId, pointDifferential := derived.pointDifferential,
            totalScore := derived.totalScore, processedAt := derived.processedAt)
  }

  /** The games table after the statement. */
  function ProcessAll(games: map<string, Game>, raw: map<string, RawGameRow>, now: int): map<string, Game> {
    map id | id in games.Keys + QualifyingIds(raw) ::
      if id in QualifyingIds(raw) then
        (if id in games then Refresh(games[id], Derive(id, raw[id].values, now))
         else Derive(id, raw[id].values, now))
      else games[id]
  }

  /** The derived columns agree with the scores and team ids of a games row. */
  predicate Consistent(g: Game) {
    && (g.winnerId == Some(g.homeTeamId) || g.winnerId == Some(g.awayTeamId) || g.winnerId == None)
    && (g.homeScore > g.awayScore ==> g.winnerId == Some(g.homeTeamId))
    && (g.awayScore > g.homeScore ==> g.winnerId == Some(g.awayTeamId))
    && (g.winnerId == None <==> g.homeScore == g.awayScore)
    && g.pointDifferential >= 0
    && (g.pointDifferential == 0 <==> g.homeScore == g.awayScore)
    && (g.pointDifferential == g.homeScore - g.awayScore || g.pointDifferential == g.awayScore - g.homeScore)
    && g.totalScore == g.homeScore + g.awayScore
  }

  /** A stored game and its raw row name the same teams. */
  predicate Aligned(games: map<string, Game>, raw: map<string, RawGameRow>) {
    forall id :: id in games && id in raw ==>
      games[id].homeTeamId == raw[id].values.homeTeamId && games[id].awayTeamId == raw[id].values.awayTeamId
  }

  /** A derived row is consistent. */
  lemma DeriveConsistent(id: string, v: RawValues, now: int)
    requires Qualifies(v)
    ensures Consistent(Derive(id, v, now))
  {
  }

  /** The table holds the stored games and the qualifying raw games, and no others. */
  lemma ProcessAllKeys(games: map<string, Game>, raw: map<string, RawGameRow>, now: int)
    ensures ProcessAll(games, raw, now).Keys == games.Keys + QualifyingIds(raw)
  {
  }

  /**
   * A game without a qualifying raw row is left as it was; a qualifying one gets the raw
   * scores and their figures, written now, over the stored date, season, teams and
   * status when it existed.
   */
  lemma ProcessAllEffect(games: map<string, Game>, raw: map<string, RawGameRow>, now: int, id: string)
    requires id in ProcessAll(games, raw, now)
    ensures id !in QualifyingIds(raw) ==> id in games && ProcessAll(games, raw, now)[id] == games[id]
    ensures id in QualifyingIds(raw) ==>
              var g := ProcessAll(games, raw, now)[id];
              var v := raw[id].values;
              && g.homeScore == v.homeScore.value && g.awayScore == v.awayScore.value
              && g.totalScore == g.homeScore + g.awayScore
              && g.pointDifferential == Abs(g.homeScore - g.awayScore)
              && g.winnerId == Winner(v.homeTeamId, v.awayTeamId, g.homeScore, g.awayScore)
              && g.processedAt == now
              && (id in games ==>
                    g.gameDate == games[id].gameDate && g.season == games[id].season
                    && g.homeTeamId == games[id].homeTeamId && g.awayTeamId == games[id].awayTeamId
                    && g.gameStatus == games[id].gameStatus)
              && (id !in games ==>
                    g.gameDate == v.gameDate && g.season == v.season && g.homeTeamId == v.homeTeamId
                    && g.awayTeamId == v.awayTeamId && g.gameStatus == "final")
  {
  }

  /**
   * Given stored games that agree with their raw rows on the teams, every row of a
   * consistent table stays consistent, and the agreement is kept.
   */
  lemma ProcessAllKeepsConsistent(games: map<string, Game>, raw: map<string, RawGameRow>, now: int)
    requires Aligned(games, raw)
    requires forall id :: id in games ==> Consistent(games[id])
    ensures forall id :: id in ProcessAll(games, raw, now) ==> Consistent(ProcessAll(games, raw, now)[id])
    ensures Aligned(ProcessAll(games, raw, now), raw)
  {
    var r := ProcessAll(games, raw, now);
    forall id | id in r ensures Consistent(r[id]) {
      if id in QualifyingIds(raw) {
        DeriveConsistent(id, raw[id].values, now);
      }
    }
  }

  /** Running the statement again with the same raw rows gives what one run at the later time gives. */
  lemma ProcessAllIdempotent(games: map<string, Game>, raw: map<string, RawGameRow>, t1: int, t2: int)
    ensures ProcessAll(ProcessAll(games, raw, t1), raw, t2) == ProcessAll(games, raw, t2)
  {
    var once := ProcessAll(games, raw, t1);
    var twice := ProcessAll(once, raw, t2);
    var direct := ProcessAll(games, raw, t2);
    assert twice.Keys == direct.Keys;
    forall id | id in twice ensures twice[id] == direct[id] {
      if id in QualifyingIds(raw) {
        assert id in once;
      }
    }
  }

  /** A second run rewrites processed_at and nothing else. */
  lemma ProcessAllRerun(games: map<string, Game>, raw: map<string, RawGameRow>, t1: int, t2: int)
    ensures ProcessAll(ProcessAll(games, raw, t1), raw, t2).Keys == ProcessAll(games, raw, t1).Keys
    ensures forall id :: id in ProcessAll(games, raw, t1) && id !in QualifyingIds(raw) ==>
              ProcessAll(ProcessAll(games, raw, t1), raw, t2)[id] == ProcessAll(games, raw, t1)[id]
    ensures forall id :: id in QualifyingIds(raw) ==>
              ProcessAll(ProcessAll(games, raw, t1), raw, t2)[id]
              == ProcessAll(games, raw, t1)[id].(processedAt := t2)
  {
    var once := ProcessAll(games, raw, t1);
    var twice := ProcessAll(once, raw, t2);
    forall id | id in QualifyingIds(raw) ensures twice[id] == once[id].(processedAt := t2) {
      assert id in once;
    }
  }

  /** The games table process_raw_games writes to. */
  class GamesTable {
    var games: map<string, Game>

    constructor (games: map<string, Game>)
      ensures this.games == games
    {
      this.games := games;
    }

    /**
     * process_raw_games: runs the statement over the raw_games rows and reports its row
     * count, one per qualifying raw row whether inserted or updated.
     */
    method ProcessRawGames(raw: map<string, RawGameRow>, now: int) returns (processed: nat)
      modifies this
      ensures games == ProcessAll(old(games), raw, now)
      ensures processed == |QualifyingIds(raw)|
    {
      games := ProcessAll(games, raw, now);
      processed := |QualifyingIds(raw)|;
    }
  }
}
