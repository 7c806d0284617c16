/**
 * The stats-feed client's data shaping (src/ingestion/nba_api_client.py): scrubbing
 * non-finite floats out of row dictionaries, pairing the feed's one-row-per-team game
 * rows into one record per game, and keeping only the requested teams' season stats.
 * The remote calls themselves are not modelled: the rows they return are parameters.
 */
module ApiClient {
  import opened Common

  /** A Python float: finite, NaN, or an infinity. */
  datatype Float = Finite(r: real) | NaN | PosInf | NegInf

  /** math.isnan(f) or math.isinf(f). */
  predicate IsNanOrInf(f: Float) {
    !f.Finite?
  }

  /** A value inside a row dictionary, as pandas' to_dict() produces it. */
  datatype Json =
    | JNull
    | JBool(b: bool)
    | JInt(i: int)
    | JFloat(f: Float)
    | JString(s: string)
    | JList(items: seq<Json>)
    | JDict(fields: seq<Field>)

  /** One key of a dictionary; a dictionary is its fields in insertion order. */
  datatype Field = Field(key: string, value: Json)

  function Keys(fields: seq<Field>): seq<string> {
    if fields == [] then [] else [fields[0].key] + Keys(fields[1..])
  }

  // ---------------------------------------------------------------------------------
  // clean_json_data
  // ---------------------------------------------------------------------------------

  /** clean_json_data: the dictionary with every NaN or infinite float replaced by None. */
  function CleanDict(fields: seq<Field>): (r: seq<Field>)
    ensures Keys(r) == Keys(fields)
    ensures |r| == |fields|
    ensures forall i :: 0 <= i < |r| ==> r[i].key == fields[i].key && r[i].value == CleanValue(fields[i].value)
    decreases fields
  {
    if fields == [] then []
    else [Field(fields[0].key, CleanValue(fields[0].value))] + CleanDict(fields[1..])
  }

  /** How one dictionary value is cleaned. */
  function CleanValue(v: Json): (r: Json)
    ensures v.JFloat? && IsNanOrInf(v.f) ==> r == JNull
    ensures !v.JDict? && !v.JList? && !(v.JFloat? && IsNanOrInf(v.f)) ==> r == v
    decreases v
  {
    match v
    case JFloat(f) => if IsNanOrInf(f) then JNull else v
    case JDict(fs) => JDict(CleanDict(fs))
    case JList(items) => JList(CleanItems(items))
    case _ => v
  }

  /** Inside a list only dictionaries are cleaned; every other item is kept as it is. */
  function CleanItems(items: seq<Json>): (r: seq<Json>)
    ensures |r| == |items|
    ensures forall i :: 0 <= i < |items| && !items[i].JDict? ==> r[i] == items[i]
    decreases items
  {
    if items == [] then []
    else
      var first := if items[0].JDict? then JDict(CleanDict(items[0].fields)) else items[0];
      [first] + CleanItems(items[1..])
  }

  /**
   * What clean_json_data guarantees of its result: no NaN or infinite float is left as a
   * dictionary value, at any depth reached through dictionaries and through dictionaries
   * held directly in lists.
   */
  predicate CleanDictionary(fields: seq<Field>)
    decreases fields
  {
    forall i :: 0 <= i < |fields| ==> CleanEntry(fields[i].value)
  }

  predicate CleanEntry(v: Json)
    decreases v
  {
    match v
    case JFloat(f) => !IsNanOrInf(f)
    case JDict(fs) => CleanDictionary(fs)
    case JList(items) => CleanList(items)
    case _ => true
  }

  predicate CleanList(items: seq<Json>)
    decreases items
  {
    forall i :: 0 <= i < |items| ==> (items[i].JDict? ==> CleanDictionary(items[i].fields))
  }

  /** The result of clean_json_data is clean. */
  lemma {:induction false} CleanDictIsClean(fields: seq<Field>)
    ensures CleanDictionary(CleanDict(fields))
    decreases fields
  {
    if fields != [] {
      CleanValueIsClean(fields[0].value);
      CleanDictIsClean(fields[1..]);
      var r := CleanDict(fields);
      assert r == [Field(fields[0].key, CleanValue(fields[0].value))] + CleanDict(fields[1..]);
      forall i | 0 <= i < |r| ensures CleanEntry(r[i].value) {
        if i > 0 {
          assert r[i] == CleanDict(fields[1..])[i - 1];
        }
      }
    }
  }

  lemma {:induction false} CleanValueIsClean(v: Json)
    ensures CleanEntry(CleanValue(v))
    decreases v
  {
    match v
    case JDict(fs) => CleanDictIsClean(fs);
    case JList(items) => CleanItemsIsClean(items);
    case _ =>
  }

  lemma {:induction false} CleanItemsIsClean(items: seq<Json>)
    ensures CleanList(CleanItems(items))
    decreases items
  {
    if items != [] {
      CleanItemsIsClean(items[1..]);
      if items[0].JDict? {
        CleanDictIsClean(items[0].fields);
      }
      var r := CleanItems(items);
      forall i | 0 <= i < |r| && r[i].JDict? ensures CleanDictionary(r[i].fields) {
        if i > 0 {
          assert r[i] == CleanItems(items[1..])[i - 1];
        }
      }
    }
  }

  /** A dictionary that is already clean is returned unchanged. */
  lemma {:induction false} CleanDictKeepsClean(fields: seq<Field>)
    requires CleanDictionary(fields)
    ensures CleanDict(fields) == fields
    decreases fields
  {
    if fields != [] {
      assert CleanEntry(fields[0].value);
      CleanValueKeepsClean(fields[0].value);
      assert CleanDictionary(fields[1..]) by {
        forall i | 0 <= i < |fields| - 1 ensures CleanEntry(fields[1..][i].value) {
          assert fields[1..][i] == fields[i + 1];
        }
      }
      CleanDictKeepsClean(fields[1..]);
    }
  }

  lemma {:induction false} CleanValueKeepsClean(v: Json)
    requires CleanEntry(v)
    ensures CleanValue(v) == v
    decreases v
  {
    match v
    case JDict(fs) => CleanDictKeepsClean(fs);
    case JList(items) => CleanItemsKeepsClean(items);
    case _ =>
  }

  lemma {:induction false} CleanItemsKeepsClean(items: seq<Json>)
    requires CleanList(items)
    ensures CleanItems(items) == items
    decreases items
  {
    if items != [] {
      if items[0].JDict? {
        CleanDictKeepsClean(items[0].fields);
      }
      assert CleanList(items[1..]) by {
        forall i | 0 <= i < |items| - 1 && items[1..][i].JDict?
          ensures CleanDictionary(items[1..][i].fields)
        {
          assert items[1..][i] == items[i + 1];
        }
      }
      CleanItemsKeepsClean(items[1..]);
    }
  }

  /** A dictionary is a fixed point of clean_json_data exactly when it is clean. */
  lemma CleanDictFixedPoints(fields: seq<Field>)
    ensures CleanDict(fields) == fields <==> CleanDictionary(fields)
  {
    if CleanDictionary(fields) {
      CleanDictKeepsClean(fields);
    } else if CleanDict(fields) == fields {
      CleanDictIsClean(fields);
      assert false;
    }
  }

  /** Cleaning twice is cleaning once. */
  lemma CleanDictIdempotent(fields: seq<Field>)
    ensures CleanDict(CleanDict(fields)) == CleanDict(fields)
  {
    CleanDictIsClean(fields);
    CleanDictKeepsClean(CleanDict(fields));
  }

  /** A NaN nested in a list (not in a dictionary of that list) survives cleaning. */
  lemma NaNInsideListSurvives()
    ensures var d := [Field("PTS_LIST", JList([JFloat(NaN), JList([JFloat(PosInf)])]))];
      CleanDict(d) == d && !CleanEntry(JFloat(NaN))
  {
    var items := [JFloat(NaN), JList([JFloat(PosInf)])];
    assert CleanItems(items) == items;
  }

  // ---------------------------------------------------------------------------------
  // Cells of a feed row and their Python conversions
  // ---------------------------------------------------------------------------------

  /** A numeric cell of a feed row: absent or None, or a float (pandas stores NaN here). */
  datatype Cell = Missing | Num(f: Float)

  /** Python truth value of row.get(column): None and 0.0 are false; NaN is true. */
  predicate Truthy(c: Cell) {
    match c
    case Missing => false
    case Num(f) => !(f.Finite? && f.r == 0.0)
  }

  /** pd.notna(row.get(column)): neither None nor NaN (infinities count as present). */
  predicate NotNa(c: Cell) {
    c.Num? && !c.f.NaN?
  }

  /** Python int(x) of a finite float: truncation toward zero. */
  function Trunc(x: real): (n: int)
    ensures x >= 0.0 ==> 0 <= n && n as real <= x < n as real + 1.0
    ensures x < 0.0 ==> n <= 0 && n as real - 1.0 < x <= n as real
  {
    if x >= 0.0 then x.Floor else -((-x).Floor)
  }

  /** int(row[column]) if pd.notna(row.get(column)) else None; int() of an infinity raises. */
  function IntCell(c: Cell): (r: Result<Option<int>>)
    ensures r.Failure? <==> c.Num? && (c.f.PosInf? || c.f.NegInf?)
    ensures r.Success? ==> (r.value.Some? <==> NotNa(c))
    ensures c.Num? && c.f.Finite? ==> r == Success(Some(Trunc(c.f.r)))
  {
    if !NotNa(c) then Success(None)
    else match c.f
      case Finite(x) => Success(Some(Trunc(x)))
      case _ => Failure("cannot convert float infinity to integer")
  }

  /** float(row[column]) if pd.notna(row.get(column)) else None. */
  function FloatCell(c: Cell): (r: Option<Float>)
    ensures r.Some? <==> NotNa(c)
    ensures r.Some? ==> !r.value.NaN?
  {
    if NotNa(c) then Some(c.f) else None
  }

  // ---------------------------------------------------------------------------------
  // _process_games_dataframe
  // ---------------------------------------------------------------------------------

  /** A LeagueGameFinder row: one team's line of one game, already parsed. */
  datatype GameRow = GameRow(
    gameId: string,
    gameDate: int,        // day number
    teamId: int,
    matchup: string,      // "LAL vs. BOS" at home, "LAL @ BOS" away
    pts: Cell,
    fields: seq<Field>)   // row.to_dict()

  /** The team of a row played at home exactly when its matchup has no '@'. */
  predicate IsHomeRow(row: GameRow) {
    '@' !in row.matchup
  }

  /** One side of a paired game: home_team_id with home_team_score, or the away pair. */
  datatype Side = Side(teamId: int, score: Option<int>)

  /** A game record built by pairing; a side is None while no row has filled it. */
  datatype GameRecord = GameRecord(
    gameId: string,
    gameDate: int,
    season: string,
    gameStatus: string,
    home: Option<Side>,
    away: Option<Side>,
    rawData: seq<Field>)

  predicate IsComplete(g: GameRecord) {
    g.home.Some? && g.away.Some?
  }

  /** The status a game gets from the first row seen for it. */
  function RowStatus(row: GameRow): string {
    if Truthy(row.pts) then "final" else "scheduled"
  }

  /** The score a row gives its side, when int() of its PTS does not raise. */
  function RowScore(row: GameRow): Option<int> {
    match IntCell(row.pts)
    case Success(s) => s
    case Failure(_) => None
  }

  function RowSide(row: GameRow): Side {
    Side(row.teamId, RowScore(row))
  }

  /** raw_data key of a row: "team_{team_id}". */
  function RawKey(teamId: int): string {
    "team_" + IntToString(teamId)
  }

  /** d.get(key): the value of the first field with that key. */
  function Lookup(fields: seq<Field>, key: string): Option<Json> {
    if fields == [] then None
    else if fields[0].key == key then Some(fields[0].value)
    else Lookup(fields[1..], key)
  }

  /** Assigning d[key] = value on a Python dict: replace in place, or append a new key. */
  function DictSet(fields: seq<Field>, key: string, value: Json): (r: seq<Field>)
    ensures key in Keys(r)
    ensures forall k :: k in Keys(r) <==> k in Keys(fields) || k == key
    ensures Lookup(r, key) == Some(value)
    ensures forall k :: k != key ==> Lookup(r, k) == Lookup(fields, k)
  {
    if fields == [] then [Field(key, value)]
    else if fields[0].key == key then [Field(key, value)] + fields[1..]
    else [fields[0]] + DictSet(fields[1..], key, value)
  }

  /** games_dict: the ids in insertion order and the record of each. */
  datatype Pairing = Pairing(order: seq<string>, games: map<string, GameRecord>)

  /** One iteration of the loop over the frame's rows. */
  function PairStep(acc: Pairing, row: GameRow, season: string): Result<Pairing> {
    var started :=
      if row.gameId in acc.games then acc
      else Pairing(acc.order + [row.gameId],
                   acc.games[row.gameId := GameRecord(row.gameId, row.gameDate, season,
                                                      RowStatus(row), None, None, [])]);
    match IntCell(row.pts)
    case Failure(e) => Failure(e)
    case Success(score) =>
      var g := started.games[row.gameId];
      var side := Side(row.teamId, score);
      var placed := if IsHomeRow(row) then g.(home := Some(side)) else g.(away := Some(side));
      var g' := placed.(rawData := DictSet(placed.rawData, RawKey(row.teamId),
                                           JDict(CleanDict(row.fields))));
      Success(Pairing(started.order, started.games[row.gameId := g']))
  }

  /** The loop over all rows, as a left fold. */
  function PairRows(rows: seq<GameRow>, season: string): Result<Pairing>
    decreases |rows|
  {
    if rows == [] then Success(Pairing([], map[]))
    else match PairRows(rows[..|rows| - 1], season)
      case Failure(e) => Failure(e)
      case Success(acc) => PairStep(acc, rows[|rows| - 1], season)
  }

  /** An exception raised at some row ends the whole call with that exception. */
  lemma {:induction false} PairRowsFailureSticks(rows: seq<GameRow>, k: nat, season: string)
    requires k <= |rows|
    requires PairRows(rows[..k], season).Failure?
    ensures PairRows(rows, season) == PairRows(rows[..k], season)
    decreases |rows|
  {
    if k < |rows| {
      var pre := rows[..|rows| - 1];
      assert pre[..k] == rows[..k];
      PairRowsFailureSticks(pre, k, season);
    } else {
      assert rows[..k] == rows;
    }
  }

  /** The closing comprehension: the complete records, in first-seen order. */
  function CompleteRecords(order: seq<string>, games: map<string, GameRecord>): seq<GameRecord>
    decreases |order|
  {
    if order == [] then []
    else
      var id := order[|order| - 1];
      CompleteRecords(order[..|order| - 1], games)
        + (if id in games && IsComplete(games[id]) then [games[id]] else [])
  }

  /** What _process_games_dataframe returns (or the exception it raises). */
  function PairedGames(rows: seq<GameRow>, season: string): Result<seq<GameRecord>> {
    match PairRows(rows, season)
    case Failure(e) => Failure(e)
    case Success(acc) => Success(CompleteRecords(acc.order, acc.games))
  }

  // What the pairing promises, stated over the rows directly.

  /** Some row of `rows` belongs to game `id`. */
  predicate HasGame(rows: seq<GameRow>, id: string)
    decreases |rows|
  {
    rows != [] && (rows[|rows| - 1].gameId == id || HasGame(rows[..|rows| - 1], id))
  }

  /** The first row of a game decides its date and status. */
  function FirstRow(rows: seq<GameRow>, id: string): (row: GameRow)
    requires HasGame(rows, id)
    ensures row.gameId == id
    decreases |rows|
  {
    var pre := rows[..|rows| - 1];
    if HasGame(pre, id) then FirstRow(pre, id) else rows[|rows| - 1]
  }

  /** The side filled by the last home (or away) row of a game, if there is one. */
  function LastSide(rows: seq<GameRow>, id: string, home: bool): Option<Side>
    decreases |rows|
  {
    if rows == [] then None
    else
      var row := rows[|rows| - 1];
      if row.gameId == id && IsHomeRow(row) == home then Some(RowSide(row))
      else LastSide(rows[..|rows| - 1], id, home)
  }

  /** The raw_data keys a game collects: one per team that had a row for it. */
  function RawKeys(rows: seq<GameRow>, id: string): set<string>
    decreases |rows|
  {
    if rows == [] then {}
    else
      var row := rows[|rows| - 1];
      RawKeys(rows[..|rows| - 1], id) + (if row.gameId == id then {RawKey(row.teamId)} else {})
  }

  /** The raw_data value stored under key k for game `id`: the cleaned row of the last row with that key. */
  function RawValue(rows: seq<GameRow>, id: string, k: string): Option<Json>
    decreases |rows|
  {
    if rows == [] then None
    else
      var row := rows[|rows| - 1];
      if row.gameId == id && RawKey(row.teamId) == k then Some(JDict(CleanDict(row.fields)))
      else RawValue(rows[..|rows| - 1], id, k)
  }

  /** int() raises on this row's PTS: an infinite value. */
  predicate RaisesOnPts(row: GameRow) {
    row.pts.Num? && (row.pts.f.PosInf? || row.pts.f.NegInf?)
  }

  predicate NoDuplicates(ids: seq<string>) {
    forall i, j :: 0 <= i < j < |ids| ==> ids[i] != ids[j]
  }

  /** The record pairing builds for game `id` from `rows`. */
  ghost predicate RecordMatches(g: GameRecord, rows: seq<GameRow>, id: string, season: string)
    requires HasGame(rows, id)
  {
    && g.gameId == id
    && g.season == season
    && g.gameDate == FirstRow(rows, id).gameDate
    && g.gameStatus == RowStatus(FirstRow(rows, id))
    && g.home == LastSide(rows, id, true)
    && g.away == LastSide(rows, id, false)
    && (forall k :: k in Keys(g.rawData) <==> k in RawKeys(rows, id))
    && (forall k :: Lookup(g.rawData, k) == RawValue(rows, id, k))
  }

  /** games_dict after the loop over `rows`, described row by row. */
  ghost predicate PairingMatches(acc: Pairing, rows: seq<GameRow>, season: string) {
    && NoDuplicates(acc.order)
    && (forall id :: id in acc.order <==> id in acc.games)
    && (forall id :: id in acc.games <==> HasGame(rows, id))
    && (forall id :: id in acc.games ==> RecordMatches(acc.games[id], rows, id, season))
  }

  /** A game without rows has no sides and no raw_data keys. */
  lemma {:induction false} AbsentGame(rows: seq<GameRow>, id: string)
    requires !HasGame(rows, id)
    ensures LastSide(rows, id, true) == None && LastSide(rows, id, false) == None
    ensures RawKeys(rows, id) == {}
    ensures forall k :: RawValue(rows, id, k) == None
    decreases |rows|
  {
    if rows != [] {
      AbsentGame(rows[..|rows| - 1], id);
    }
  }

  lemma PairStepMatches(acc: Pairing, rows: seq<GameRow>, row: GameRow, season: string)
    requires PairingMatches(acc, rows, season)
    requires !RaisesOnPts(row)
    ensures PairStep(acc, row, season).Success?
    ensures PairingMatches(PairStep(acc, row, season).value, rows + [row], season)
  {
    var rows' := rows + [row];
    PairStepOrder(acc, row, season);
    var acc' := PairStep(acc, row, season).value;
    forall id
      ensures id in acc'.games <==> HasGame(rows', id)
      ensures id in acc'.games ==> RecordMatches(acc'.games[id], rows', id, season)
    {
      if id == row.gameId {
        PairStepSame(acc, rows, row, season);
      } else {
        PairStepOther(acc, rows, row, season, id);
      }
    }
  }

  /** The step lists a game once, on its first row, and keeps the list and the dictionary in step. */
  lemma PairStepOrder(acc: Pairing, row: GameRow, season: string)
    requires NoDuplicates(acc.order) && forall id :: id in acc.order <==> id in acc.games
    requires !RaisesOnPts(row)
    ensures PairStep(acc, row, season).Success?
    ensures var acc' := PairStep(acc, row, season).value;
      && NoDuplicates(acc'.order)
      && (forall id :: id in acc'.order <==> id in acc'.games)
  {
  }

  /** The step leaves the record of its row's game as the rows so far describe it. */
  lemma PairStepSame(acc: Pairing, rows: seq<GameRow>, row: GameRow, season: string)
    requires row.gameId in acc.games <==> HasGame(rows, row.gameId)
    requires row.gameId in acc.games ==> RecordMatches(acc.games[row.gameId], rows, row.gameId, season)
    requires !RaisesOnPts(row)
    ensures PairStep(acc, row, season).Success?
    ensures var acc' := PairStep(acc, row, season).value;
      && row.gameId in acc'.games && HasGame(rows + [row], row.gameId)
      && RecordMatches(acc'.games[row.gameId], rows + [row], row.gameId, season)
  {
    var id := row.gameId;
    RowsAppendSame(rows, row);
    assert RowSide(row) == Side(row.teamId, IntCell(row.pts).value);
    if id !in acc.games {
      AbsentGame(rows, id);
    }
  }

  /** The step leaves the record of every other game as it was. */
  lemma PairStepOther(acc: Pairing, rows: seq<GameRow>, row: GameRow, season: string, id: string)
    requires id in acc.games <==> HasGame(rows, id)
    requires id in acc.games ==> RecordMatches(acc.games[id], rows, id, season)
    requires !RaisesOnPts(row) && id != row.gameId
    ensures PairStep(acc, row, season).Success?
    ensures var acc' := PairStep(acc, row, season).value;
      && (id in acc'.games <==> HasGame(rows + [row], id))
      && (id in acc'.games ==> RecordMatches(acc'.games[id], rows + [row], id, season))
  {
    RowsAppendOther(rows, row, id);
  }

  /** A row of another game leaves a game's rows-derived facts as they were. */
  lemma RowsAppendOther(rows: seq<GameRow>, row: GameRow, id: string)
    requires row.gameId != id
    ensures HasGame(rows + [row], id) == HasGame(rows, id)
    ensures HasGame(rows, id) ==> FirstRow(rows + [row], id) == FirstRow(rows, id)
    ensures LastSide(rows + [row], id, true) == LastSide(rows, id, true)
    ensures LastSide(rows + [row], id, false) == LastSide(rows, id, false)
    ensures RawKeys(rows + [row], id) == RawKeys(rows, id)
    ensures forall k :: RawValue(rows + [row], id, k) == RawValue(rows, id, k)
  {
    assert (rows + [row])[..|rows|] == rows;
  }

  /** A row of its own game: the game exists, its side is this row's, its team's key is collected. */
  lemma RowsAppendSame(rows: seq<GameRow>, row: GameRow)
    ensures var id := row.gameId;
      && HasGame(rows + [row], id)
      && FirstRow(rows + [row], id) == (if HasGame(rows, id) then FirstRow(rows, id) else row)
      && LastSide(rows + [row], id, IsHomeRow(row)) == Some(RowSide(row))
      && LastSide(rows + [row], id, !IsHomeRow(row)) == LastSide(rows, id, !IsHomeRow(row))
      && RawKeys(rows + [row], id) == RawKeys(rows, id) + {RawKey(row.teamId)}
      && RawValue(rows + [row], id, RawKey(row.teamId)) == Some(JDict(CleanDict(row.fields)))
      && forall k :: k != RawKey(row.teamId) ==> RawValue(rows + [row], id, k) == RawValue(rows, id, k)
  {
    assert (rows + [row])[..|rows|] == rows;
  }

  /** Unless some row's PTS is infinite, pairing succeeds and builds exactly these records. */
  lemma {:induction false} PairRowsMatches(rows: seq<GameRow>, season: string)
    ensures PairRows(rows, season).Failure? <==> exists j :: 0 <= j < |rows| && RaisesOnPts(rows[j])
    ensures PairRows(rows, season).Success? ==> PairingMatches(PairRows(rows, season).value, rows, season)
    decreases |rows|
  {
    PairRowsFails(rows, season);
    if rows != [] {
      var pre := rows[..|rows| - 1];
      var last := rows[|rows| - 1];
      PairRowsMatches(pre, season);
      if PairRows(pre, season).Success? {
        PairStepFails(PairRows(pre, season).value, last, season);
        if !RaisesOnPts(last) {
          PairStepMatchesLast(PairRows(pre, season).value, rows, pre, season);
        }
      }
    }
  }

  /** PairStepMatches, for the last row of rows and the rows before it. */
  lemma PairStepMatchesLast(acc: Pairing, rows: seq<GameRow>, pre: seq<GameRow>, season: string)
    requires rows != [] && pre == rows[..|rows| - 1]
    requires PairingMatches(acc, pre, season)
    requires !RaisesOnPts(rows[|rows| - 1])
    ensures PairStep(acc, rows[|rows| - 1], season).Success?
    ensures PairingMatches(PairStep(acc, rows[|rows| - 1], season).value, rows, season)
  {
    LastSplit(rows, pre);
    PairStepMatches(acc, pre, rows[|rows| - 1], season);
  }

  /** A non-empty sequence is the rows before its last, then its last. */
  lemma LastSplit(rows: seq<GameRow>, pre: seq<GameRow>)
    requires rows != [] && pre == rows[..|rows| - 1]
    ensures rows == pre + [rows[|rows| - 1]]
  {
  }

  /** The loop raises if and only if some row's PTS is infinite. */
  lemma {:induction false} PairRowsFails(rows: seq<GameRow>, season: string)
    ensures PairRows(rows, season).Failure? <==> exists j :: 0 <= j < |rows| && RaisesOnPts(rows[j])
    decreases |rows|
  {
    if rows != [] {
      var pre := rows[..|rows| - 1];
      var last := rows[|rows| - 1];
      PairRowsFails(pre, season);
      if PairRows(pre, season).Success? {
        PairStepFails(PairRows(pre, season).value, last, season);
      }
      SomeRaisesLast(rows, pre);
    }
  }

  /** One step raises exactly on a row whose PTS is infinite. */
  lemma PairStepFails(acc: Pairing, row: GameRow, season: string)
    ensures PairStep(acc, row, season).Failure? <==> RaisesOnPts(row)
  {
  }

  /** Some row has an infinite PTS iff some row before the last has or the last has. */
  lemma SomeRaisesLast(rows: seq<GameRow>, pre: seq<GameRow>)
    requires rows != [] && pre == rows[..|rows| - 1]
    ensures (exists j :: 0 <= j < |rows| && RaisesOnPts(rows[j]))
            <==> (exists j :: 0 <= j < |pre| && RaisesOnPts(pre[j])) || RaisesOnPts(rows[|rows| - 1])
  {
    if exists j :: 0 <= j < |pre| && RaisesOnPts(pre[j]) {
      var j :| 0 <= j < |pre| && RaisesOnPts(pre[j]);
      assert rows[j] == pre[j];
    }
    if exists j :: 0 <= j < |rows| && RaisesOnPts(rows[j]) {
      var j :| 0 <= j < |rows| && RaisesOnPts(rows[j]);
      if j < |pre| {
        assert pre[j] == rows[j];
      }
    }
  }


  /** The closing comprehension keeps exactly the complete records of listed ids, once each. */
  lemma CompleteRecordsShape(order: seq<string>, games: map<string, GameRecord>)
    requires NoDuplicates(order)
    requires forall id :: id in order ==> id in games && games[id].gameId == id
    ensures forall g :: g in CompleteRecords(order, games) <==>
              exists id :: id in order && g == games[id] && IsComplete(g)
    ensures forall i, j :: 0 <= i < j < |CompleteRecords(order, games)| ==>
              CompleteRecords(order, games)[i].gameId != CompleteRecords(order, games)[j].gameId
    ensures forall i :: 0 <= i < |CompleteRecords(order, games)| ==> CompleteRecords(order, games)[i].gameId in order
  {
    CompleteRecordsMembers(order, games);
    CompleteRecordsDistinct(order, games);
  }

  /** The kept records are the complete records of the listed ids. */
  lemma {:induction false} CompleteRecordsMembers(order: seq<string>, games: map<string, GameRecord>)
    ensures forall g :: g in CompleteRecords(order, games) <==>
              exists id :: id in order && id in games && g == games[id] && IsComplete(g)
    decreases |order|
  {
    if order != [] {
      var pre := order[..|order| - 1];
      var id := order[|order| - 1];
      CompleteRecordsMembers(pre, games);
      forall x | x in order ensures x in pre || x == id {
        var i :| 0 <= i < |order| && order[i] == x;
        if i < |pre| {
          assert pre[i] == x;
        }
      }
      forall x | x in pre ensures x in order {
        var i :| 0 <= i < |pre| && pre[i] == x;
        assert order[i] == x;
      }
      var before := CompleteRecords(pre, games);
      var last := if id in games && IsComplete(games[id]) then [games[id]] else [];
      var out := CompleteRecords(order, games);
      assert out == before + last;
      forall g ensures g in out <==> exists x :: x in order && x in games && g == games[x] && IsComplete(g) {
        if g in out && g !in before {
          assert g in last && id in order;
        }
        if exists x :: x in order && x in games && g == games[x] && IsComplete(g) {
          var x :| x in order && x in games && g == games[x] && IsComplete(g);
          if x != id {
            assert x in pre;
          }
        }
      }
    }
  }

  /** Each kept record's id is listed, and no id is kept twice. */
  lemma {:induction false} CompleteRecordsDistinct(order: seq<string>, games: map<string, GameRecord>)
    requires NoDuplicates(order)
    requires forall id :: id in order ==> id in games && games[id].gameId == id
    ensures forall i, j :: 0 <= i < j < |CompleteRecords(order, games)| ==>
              CompleteRecords(order, games)[i].gameId != CompleteRecords(order, games)[j].gameId
    ensures forall i :: 0 <= i < |CompleteRecords(order, games)| ==> CompleteRecords(order, games)[i].gameId in order
    decreases |order|
  {
    if order != [] {
      var pre := order[..|order| - 1];
      var id := order[|order| - 1];
      forall x | x in pre ensures x in order {
        var i :| 0 <= i < |pre| && pre[i] == x;
        assert order[i] == x;
      }
      CompleteRecordsDistinct(pre, games);
      assert id !in pre;
      var before := CompleteRecords(pre, games);
      var out := CompleteRecords(order, games);
      if id in games && IsComplete(games[id]) {
        assert out == before + [games[id]];
        assert id == order[|order| - 1];
        forall i | 0 <= i < |out| ensures out[i].gameId in order {
          if i < |before| {
            assert out[i] == before[i] && before[i].gameId in pre;
          }
        }
        forall i, j | 0 <= i < j < |out| ensures out[i].gameId != out[j].gameId {
          assert out[i] == before[i] && before[i].gameId in pre;
          if j < |before| {
            assert out[j] == before[j];
          }
        }
      } else {
        assert out == before;
      }
    }
  }

  /**
   * The pairing's output: one record per game id, each with both sides, the season the
   * client is set to, the status of the game's first row, each side taken from the last
   * row of that side, and one raw_data entry per team row of the game. It holds exactly
   * the games that had both a home row and an away row. It raises exactly when some
   * row's PTS is infinite.
   */
  lemma PairedGamesShape(rows: seq<GameRow>, season: string)
    ensures PairedGames(rows, season).Failure? <==> exists j :: 0 <= j < |rows| && RaisesOnPts(rows[j])
    ensures PairedGames(rows, season).Success? ==>
      var out := PairedGames(rows, season).value;
      && (forall i, j :: 0 <= i < j < |out| ==> out[i].gameId != out[j].gameId)
      && (forall i :: 0 <= i < |out| ==>
            && IsComplete(out[i])
            && HasGame(rows, out[i].gameId)
            && RecordMatches(out[i], rows, out[i].gameId, season))
      && (forall id :: HasGame(rows, id) && LastSide(rows, id, true).Some? && LastSide(rows, id, false).Some?
            ==> exists i :: 0 <= i < |out| && out[i].gameId == id)
  {
    PairRowsMatches(rows, season);
    if PairRows(rows, season).Success? {
      var acc := PairRows(rows, season).value;
      assert PairedGames(rows, season).value == CompleteRecords(acc.order, acc.games);
      PairingOutput(acc, rows, season);
    }
  }

  /** The closing comprehension over a pairing that matches the rows. */
  lemma PairingOutput(acc: Pairing, rows: seq<GameRow>, season: string)
    requires PairingMatches(acc, rows, season)
    ensures var out := CompleteRecords(acc.order, acc.games);
      && (forall i, j :: 0 <= i < j < |out| ==> out[i].gameId != out[j].gameId)
      && (forall i :: 0 <= i < |out| ==>
            && IsComplete(out[i])
            && HasGame(rows, out[i].gameId)
            && RecordMatches(out[i], rows, out[i].gameId, season))
      && (forall id :: HasGame(rows, id) && LastSide(rows, id, true).Some? && LastSide(rows, id, false).Some?
            ==> exists i :: 0 <= i < |out| && out[i].gameId == id)
  {
    forall id | id in acc.order ensures id in acc.games && acc.games[id].gameId == id {
      assert RecordMatches(acc.games[id], rows, id, season);
    }
    CompleteRecordsShape(acc.order, acc.games);
    var out := CompleteRecords(acc.order, acc.games);
    forall i | 0 <= i < |out|
      ensures IsComplete(out[i]) && HasGame(rows, out[i].gameId)
      ensures RecordMatches(out[i], rows, out[i].gameId, season)
    {
      assert out[i] in out;
      var id :| id in acc.order && out[i] == acc.games[id] && IsComplete(out[i]);
      assert RecordMatches(acc.games[id], rows, id, season);
    }
    forall id | HasGame(rows, id) && LastSide(rows, id, true).Some? && LastSide(rows, id, false).Some?
      ensures exists i :: 0 <= i < |out| && out[i].gameId == id
    {
      assert RecordMatches(acc.games[id], rows, id, season);
      assert acc.games[id] in out;
    }
  }

  /**
   * NBAApiClient._process_games_dataframe; `currentSeason` is the client's
   * current_season attribute.
   */
  method ProcessGamesDataframe(rows: seq<GameRow>, currentSeason: string)
    returns (r: Result<seq<GameRecord>>)
    ensures r == PairedGames(rows, currentSeason)
  {
    var order: seq<string> := [];
    var gamesDict: map<string, GameRecord> := map[];
    var i := 0;
    while i < |rows|
      invariant 0 <= i <= |rows|
      invariant PairRows(rows[..i], currentSeason) == Success(Pairing(order, gamesDict))
    {
      assert rows[..i + 1][..i] == rows[..i];
      var step := AddGameRow(order, gamesDict, rows[i], currentSeason);
      match step {
        case Failure(e) =>
          PairRowsFailureSticks(rows, i + 1, currentSeason);
          return Failure(e);
        case Success(acc) =>
          order, gamesDict := acc.order, acc.games;
      }
      i := i + 1;
    }
    assert rows[..i] == rows;
    var complete := CollectComplete(order, gamesDict);
    return Success(complete);
  }

  /** One pass of the row loop: opens the game on its first row, then files the row's side. */
  method AddGameRow(order: seq<string>, gamesDict: map<string, GameRecord>, row: GameRow, season: string)
    returns (r: Result<Pairing>)
    ensures r == PairStep(Pairing(order, gamesDict), row, season)
  {
    var ids, games := order, gamesDict;
    if row.gameId !in games {
      ids := ids + [row.gameId];
      games := games[row.gameId := GameRecord(row.gameId, row.gameDate, season,
                                              RowStatus(row), None, None, [])];
    }
    var score;
    match IntCell(row.pts) {
      case Failure(e) =>
        return Failure(e);
      case Success(s) =>
        score := s;
    }
    var game := games[row.gameId];
    if IsHomeRow(row) {
      game := game.(home := Some(Side(row.teamId, score)));
    } else {
      game := game.(away := Some(Side(row.teamId, score)));
    }
    game := game.(rawData := DictSet(game.rawData, RawKey(row.teamId),
                                     JDict(CleanDict(row.fields))));
    return Success(Pairing(ids, games[row.gameId := game]));
  }

  /** The closing comprehension as a loop over the first-seen order. */
  method CollectComplete(order: seq<string>, gamesDict: map<string, GameRecord>)
    returns (complete: seq<GameRecord>)
    ensures complete == CompleteRecords(order, gamesDict)
  {
    complete := [];
    var j := 0;
    while j < |order|
      invariant 0 <= j <= |order|
      invariant complete == CompleteRecords(order[..j], gamesDict)
    {
      assert order[..j + 1][..j] == order[..j];
      var id := order[j];
      if id in gamesDict && IsComplete(gamesDict[id]) {
        complete := complete + [gamesDict[id]];
      }
      j := j + 1;
    }
    assert order[..j] == order;
  }

  // ---------------------------------------------------------------------------------
  // fetch_team_stats
  // ---------------------------------------------------------------------------------

  /** A LeagueDashTeamStats row (per-game season averages of one team). */
  datatype TeamRow = TeamRow(
    teamId: int,
    w: Cell, l: Cell, wPct: Cell, pts: Cell, oppPts: Cell,
    fgPct: Cell, fg3Pct: Cell, ftPct: Cell, reb: Cell, ast: Cell,
    fields: seq<Field>)

  /** A team-stat record as the client hands it to the raw_team_stats insert. */
  datatype TeamStat = TeamStat(
    teamId: int,
    gameId: Option<string>,   // always None: season stats are not game-specific
    statDate: int,            // the day the stats were fetched
    wins: Option<int>,
    losses: Option<int>,
    winPct: Option<Float>,
    pointsPerGame: Option<Float>,
    oppPointsPerGame: Option<Float>,
    fieldGoalPct: Option<Float>,
    threePointPct: Option<Float>,
    freeThrowPct: Option<Float>,
    reboundsPerGame: Option<Float>,
    assistsPerGame: Option<Float>,
    rawData: seq<Field>)

  /** The stat dictionary built for one kept row; int() of an infinite W or L raises. */
  function ConvertTeamRow(row: TeamRow, today: int): (r: Result<TeamStat>)
    ensures r.Success? ==> r.value.teamId == row.teamId && r.value.gameId == None && r.value.statDate == today
    ensures r.Failure? <==> IntCell(row.w).Failure? || IntCell(row.l).Failure?
    ensures r.Success? ==> r.value.wins == IntCell(row.w).value && r.value.losses == IntCell(row.l).value
  {
    match (IntCell(row.w), IntCell(row.l))
    case (Success(wins), Success(losses)) =>
      Success(TeamStat(row.teamId, None, today, wins, losses,
                       FloatCell(row.wPct), FloatCell(row.pts), FloatCell(row.oppPts),
                       FloatCell(row.fgPct), FloatCell(row.fg3Pct), FloatCell(row.ftPct),
                       FloatCell(row.reb), FloatCell(row.ast), CleanDict(row.fields)))
    case (Failure(e), _) => Failure(e)
    case (_, Failure(e)) => Failure(e)
  }

  /** df[df['TEAM_ID'].isin(team_ids)]: the rows of requested teams, in frame order. */
  function RequestedRows(rows: seq<TeamRow>, teamIds: seq<int>): (r: seq<TeamRow>)
    ensures |r| <= |rows|
    ensures forall i :: 0 <= i < |r| ==> r[i] in rows && r[i].teamId in teamIds
    ensures forall row :: row in rows && row.teamId in teamIds ==> row in r
  {
    if rows == [] then []
    else (if rows[0].teamId in teamIds then [rows[0]] else []) + RequestedRows(rows[1..], teamIds)
  }

  /** The loop building one stat per kept row, in order. */
  function ConvertTeamRows(rows: seq<TeamRow>, today: int): (r: Result<seq<TeamStat>>)
    ensures r.Success? ==> |r.value| == |rows|
    ensures r.Success? ==> forall i :: 0 <= i < |rows| ==> r.value[i].teamId == rows[i].teamId
    ensures r.Failure? <==> exists i :: 0 <= i < |rows| && ConvertTeamRow(rows[i], today).Failure?
  {
    if rows == [] then Success([])
    else match (ConvertTeamRow(rows[0], today), ConvertTeamRows(rows[1..], today))
      case (Success(stat), Success(rest)) => Success([stat] + rest)
      case (Failure(e), _) => Failure(e)
      case (_, Failure(e)) => Failure(e)
  }

  /**
   * fetch_team_stats after the remote call: `frame` is None when every attempt failed.
   * No frame or an empty one gives no stats.
   */
  function FetchTeamStats(frame: Option<seq<TeamRow>>, teamIds: seq<int>, today: int)
    : Result<seq<TeamStat>>
  {
    if frame.None? || frame.value == [] then Success([])
    else ConvertTeamRows(RequestedRows(frame.value, teamIds), today)
  }

  /** Only requested teams come back, one stat per matching row of the frame. */
  lemma FetchTeamStatsFilters(frame: Option<seq<TeamRow>>, teamIds: seq<int>, today: int)
    ensures var r := FetchTeamStats(frame, teamIds, today);
      r.Success? ==> forall i :: 0 <= i < |r.value| ==> r.value[i].teamId in teamIds
    ensures var r := FetchTeamStats(frame, teamIds, today);
      r.Success? && frame.Some? ==>
        |r.value| == |RequestedRows(frame.value, teamIds)|
        && forall row :: row in frame.value && row.teamId in teamIds ==>
             exists i :: 0 <= i < |r.value| && r.value[i].teamId == row.teamId
  {
    var r := FetchTeamStats(frame, teamIds, today);
    if r.Success? && frame.Some? && frame.value != [] {
      var kept := RequestedRows(frame.value, teamIds);
      assert r == ConvertTeamRows(kept, today);
      StatsFollowRows(kept, r.value, teamIds);
    }
  }

  /** Stats that follow the kept rows one for one carry requested teams and cover every kept row. */
  lemma StatsFollowRows(kept: seq<TeamRow>, stats: seq<TeamStat>, teamIds: seq<int>)
    requires |stats| == |kept|
    requires forall i :: 0 <= i < |kept| ==> stats[i].teamId == kept[i].teamId
    requires forall i :: 0 <= i < |kept| ==> kept[i].teamId in teamIds
    ensures forall i :: 0 <= i < |stats| ==> stats[i].teamId in teamIds
    ensures forall row :: row in kept ==> exists i :: 0 <= i < |stats| && stats[i].teamId == row.teamId
  {
    forall row | row in kept ensures exists i :: 0 <= i < |stats| && stats[i].teamId == row.teamId {
      var i :| 0 <= i < |kept| && kept[i] == row;
      assert stats[i].teamId == row.teamId;
    }
  }
}
