/**
 * The shared team progress table: the rows of the progress CSV file
 * (Team, Mission, Score, Hint, Last_Update), the row updates the pages make,
 * and the file itself with its load / save / create-if-missing operations.
 */
module Progress {
  import opened Wrappers

  /** The `HH:MM:SS` text of the wall clock at a write, passed in by the caller. */
  type Timestamp = string

  /** One row of the progress table. */
  datatype TeamRecord = TeamRecord(team: string, mission: int, score: int, hint: string, lastUpdate: Timestamp)

  /** The header of the progress file, in order. */
  const Columns: seq<string> := ["Team", "Mission", "Score", "Hint", "Last_Update"]

  /** The three ways the pages rewrite the rows of a team that is already in the table. */
  datatype Change =
    | SetProgress(mission: int, score: int, hint: string)  // update_progress on a known team
    | SetHint(hint: string)                                 // the administrator's hint push
    | SetScoreMission(score: int, mission: int)             // the administrator's manual adjustment

  /** The row `r` after `c` was written to it at time `now`: which columns each change
      writes, and that every other column (the team name above all) keeps its value. */
  function Apply(c: Change, r: TeamRecord, now: Timestamp): (r': TeamRecord)
    ensures r'.team == r.team && r'.lastUpdate == now
    ensures c.SetProgress? ==> r'.mission == c.mission && r'.score == c.score && r'.hint == c.hint
    ensures c.SetHint? ==> r'.mission == r.mission && r'.score == r.score && r'.hint == c.hint
    ensures c.SetScoreMission? ==> r'.mission == c.mission && r'.score == c.score && r'.hint == r.hint
  {
    match c
    case SetProgress(m, s, h) => r.(mission := m, score := s, hint := h, lastUpdate := now)
    case SetHint(h) => r.(hint := h, lastUpdate := now)
    case SetScoreMission(s, m) => r.(score := s, mission := m, lastUpdate := now)
  }

  /** The team names in the table (`df["Team"].values` as a set). */
  function Teams(rows: seq<TeamRecord>): set<string> {
    set i | 0 <= i < |rows| :: rows[i].team
  }

  /** At most one row per team. */
  predicate UniqueTeams(rows: seq<TeamRecord>) {
    forall i, j :: 0 <= i < |rows| && 0 <= j < |rows| && rows[i].team == rows[j].team ==> i == j
  }

  /** Every mission is one of 1..4 and no score is negative. */
  predicate InRange(rows: seq<TeamRecord>) {
    forall i :: 0 <= i < |rows| ==> 1 <= rows[i].mission <= 4 && rows[i].score >= 0
  }

  /** Row `i` is the first row of `team`. */
  predicate FirstRowAt(rows: seq<TeamRecord>, team: string, i: int) {
    0 <= i < |rows| && rows[i].team == team && forall j :: 0 <= j < i ==> rows[j].team != team
  }

  /** The first row of `team`, as the pages read it (`df.loc[df["Team"] == team, col].values[0]`). */
  function Lookup(rows: seq<TeamRecord>, team: string): (r: Option<TeamRecord>)
    ensures r.None? <==> team !in Teams(rows)
    ensures r.Some? ==> r.value.team == team && r.value in rows
    ensures r.Some? ==> exists i :: FirstRowAt(rows, team, i) && rows[i] == r.value
  {
    if rows == [] then None
    else if rows[0].team == team then
      assert FirstRowAt(rows, team, 0);
      Some(rows[0])
    else
      var r := Lookup(rows[1..], team);
      assert r.Some? ==> exists i :: FirstRowAt(rows, team, i) && rows[i] == r.value by {
        if r.Some? {
          var k :| FirstRowAt(rows[1..], team, k) && rows[1..][k] == r.value;
          assert FirstRowAt(rows, team, k + 1);
        }
      }
      assert Teams(rows) == {rows[0].team} + Teams(rows[1..]) by {
        forall t | t in Teams(rows) ensures t in {rows[0].team} + Teams(rows[1..]) {
          var i :| 0 <= i < |rows| && rows[i].team == t;
          if i > 0 { assert rows[1..][i - 1].team == t; }
        }
      }
      r
  }

  /** `df.loc[df["Team"] == team, ...] = ...`: every row of `team` gets `c`, the others stay. */
  function Overwrite(rows: seq<TeamRecord>, team: string, c: Change, now: Timestamp): (r: seq<TeamRecord>)
    ensures |r| == |rows|
    ensures forall i :: 0 <= i < |rows| ==> r[i] == if rows[i].team == team then Apply(c, rows[i], now) else rows[i]
  {
    if rows == [] then []
    else [if rows[0].team == team then Apply(c, rows[0], now) else rows[0]] + Overwrite(rows[1..], team, c, now)
  }

  /** Overwriting never renames a row, so the set of teams and uniqueness are kept. */
  lemma OverwriteKeepsTeams(rows: seq<TeamRecord>, team: string, c: Change, now: Timestamp)
    ensures Teams(Overwrite(rows, team, c, now)) == Teams(rows)
    ensures UniqueTeams(rows) ==> UniqueTeams(Overwrite(rows, team, c, now))
  {
    var r := Overwrite(rows, team, c, now);
    assert forall i :: 0 <= i < |rows| ==> r[i].team == rows[i].team;
  }

  /** Reading any team after an overwrite: the written team reads the changed row,
      every other team reads what it read before. */
  lemma {:induction false} LookupOverwrite(rows: seq<TeamRecord>, team: string, c: Change, now: Timestamp, t: string)
    ensures Lookup(Overwrite(rows, team, c, now), t) ==
      if t == team && Lookup(rows, t).Some? then Some(Apply(c, Lookup(rows, t).value, now)) else Lookup(rows, t)
  {
    if rows != [] {
      var r := Overwrite(rows, team, c, now);
      assert r[1..] == Overwrite(rows[1..], team, c, now);
      LookupOverwrite(rows[1..], team, c, now, t);
    }
  }

  /** Reading any team after a row is appended at the end. */
  lemma {:induction false} LookupAppend(rows: seq<TeamRecord>, rec: TeamRecord, t: string)
    ensures Lookup(rows + [rec], t) ==
      if t in Teams(rows) then Lookup(rows, t) else if t == rec.team then Some(rec) else None
  {
    if rows != [] {
      assert (rows + [rec])[1..] == rows[1..] + [rec];
      LookupAppend(rows[1..], rec, t);
      if t !in Teams(rows) {
        assert Lookup(rows, t).None?;
      }
    }
  }

  /** In a table with one row per team, reading a team gives its row. */
  lemma {:induction false} LookupUnique(rows: seq<TeamRecord>, i: int)
    requires UniqueTeams(rows) && 0 <= i < |rows|
    ensures Lookup(rows, rows[i].team) == Some(rows[i])
  {
    if i > 0 {
      assert rows[0].team != rows[i].team;
      assert UniqueTeams(rows[1..]) by {
        forall a, b | 0 <= a < |rows| - 1 && 0 <= b < |rows| - 1 && rows[1..][a].team == rows[1..][b].team
          ensures a == b
        {
          assert rows[a + 1].team == rows[b + 1].team;
        }
      }
      LookupUnique(rows[1..], i - 1);
    }
  }

  /** The overwrite branch of `update_progress`, read back as a keyed store. */
  lemma OverwriteAsWrite(rows: seq<TeamRecord>, team: string, mission: int, score: int, hint: string, now: Timestamp)
    requires team in Teams(rows)
    ensures var r := Overwrite(rows, team, SetProgress(mission, score, hint), now);
      && Teams(r) == Teams(rows)
      && Lookup(r, team) == Some(TeamRecord(team, mission, score, hint, now))
      && (forall t :: t != team ==> Lookup(r, t) == Lookup(rows, t))
      && (UniqueTeams(rows) ==> UniqueTeams(r))
  {
    var c := SetProgress(mission, score, hint);
    OverwriteKeepsTeams(rows, team, c, now);
    LookupOverwrite(rows, team, c, now, team);
    forall t | t != team ensures Lookup(Overwrite(rows, team, c, now), t) == Lookup(rows, t) {
      LookupOverwrite(rows, team, c, now, t);
    }
  }

  lemma TeamsAppend(rows: seq<TeamRecord>, rec: TeamRecord)
    ensures Teams(rows + [rec]) == Teams(rows) + {rec.team}
  {
    var r := rows + [rec];
    assert r[|rows|].team == rec.team;
    forall x | x in Teams(r) ensures x in Teams(rows) + {rec.team} {
      var i :| 0 <= i < |r| && r[i].team == x;
      if i < |rows| { assert rows[i].team == x; }
    }
    forall x | x in Teams(rows) ensures x in Teams(r) {
      var i :| 0 <= i < |rows| && rows[i].team == x;
      assert r[i].team == x;
    }
  }

  lemma UniqueAppend(rows: seq<TeamRecord>, rec: TeamRecord)
    requires rec.team !in Teams(rows) && UniqueTeams(rows)
    ensures UniqueTeams(rows + [rec])
  {
    var r := rows + [rec];
    assert forall i :: 0 <= i < |rows| ==> rows[i].team in Teams(rows);
    assert forall i, j :: 0 <= i < |r| && 0 <= j < |r| && r[i].team == r[j].team ==> i == j;
  }

  /** The append branch of `update_progress`, read back as a keyed store. */
  lemma AppendAsWrite(rows: seq<TeamRecord>, rec: TeamRecord)
    requires rec.team !in Teams(rows)
    ensures Teams(rows + [rec]) == Teams(rows) + {rec.team}
    ensures Lookup(rows + [rec], rec.team) == Some(rec)
    ensures forall t :: t != rec.team ==> Lookup(rows + [rec], t) == Lookup(rows, t)
    ensures UniqueTeams(rows) ==> UniqueTeams(rows + [rec])
  {
    TeamsAppend(rows, rec);
    forall t ensures Lookup(rows + [rec], t) == if t in Teams(rows) then Lookup(rows, t) else if t == rec.team then Some(rec) else None {
      LookupAppend(rows, rec, t);
    }
    if UniqueTeams(rows) {
      UniqueAppend(rows, rec);
    }
  }

  /** `update_progress`: overwrite the team's rows if it has any, else append one row at
      the end. Every row of another team keeps its place. Read back as a keyed store it
      is a plain write of `team`: the team reads the new values, every other team reads
      what it read before, and one-row-per-team is kept. */
  function Upsert(rows: seq<TeamRecord>, team: string, mission: int, score: int, hint: string, now: Timestamp)
    : (r: seq<TeamRecord>)
    ensures Teams(r) == Teams(rows) + {team}
    ensures |r| == if team in Teams(rows) then |rows| else |rows| + 1
    ensures team !in Teams(rows) ==> r == rows + [TeamRecord(team, mission, score, hint, now)]
    ensures forall i :: 0 <= i < |rows| && rows[i].team != team ==> r[i] == rows[i]
    ensures forall i :: 0 <= i < |rows| && rows[i].team == team ==> r[i] == TeamRecord(team, mission, score, hint, now)
    ensures Lookup(r, team) == Some(TeamRecord(team, mission, score, hint, now))
    ensures forall t :: t != team ==> Lookup(r, t) == Lookup(rows, t)
    ensures UniqueTeams(rows) ==> UniqueTeams(r)
  {
    if team in Teams(rows) then
      OverwriteAsWrite(rows, team, mission, score, hint, now);
      Overwrite(rows, team, SetProgress(mission, score, hint), now)
    else
      AppendAsWrite(rows, TeamRecord(team, mission, score, hint, now));
      rows + [TeamRecord(team, mission, score, hint, now)]
  }

  /** After an upsert the table holds a row with exactly the written values, and every
      row of that team carries them: with one row per team, exactly one such row. */
  lemma UpsertWritesEveryRowOfTeam(rows: seq<TeamRecord>, team: string, mission: int, score: int, hint: string, now: Timestamp)
    ensures var r := Upsert(rows, team, mission, score, hint, now);
      TeamRecord(team, mission, score, hint, now) in r
      && forall i :: 0 <= i < |r| && r[i].team == team ==> r[i] == TeamRecord(team, mission, score, hint, now)
  {
  }

  /** Each row after an upsert is an old row or the written one. */
  lemma UpsertRowsFrom(rows: seq<TeamRecord>, team: string, mission: int, score: int, hint: string, now: Timestamp)
    ensures forall x :: x in Upsert(rows, team, mission, score, hint, now) ==>
      x in rows || x == TeamRecord(team, mission, score, hint, now)
  {
  }

  /** The progress table loaded into memory (a DataFrame), which a page changes in place
      before saving it back. */
  class Frame {
    var columns: seq<string>
    var rows: seq<TeamRecord>

    constructor (columns: seq<string>, rows: seq<TeamRecord>)
      ensures this.columns == columns && this.rows == rows
    {
      this.columns := columns;
      this.rows := rows;
    }

    /** `df.loc[df["Team"] == team, <columns of c>] = <values of c>`. */
    method OverwriteWhere(team: string, c: Change, now: Timestamp)
      modifies this
      ensures columns == old(columns)
      ensures rows == Overwrite(old(rows), team, c, now)
    {
      ghost var before := rows;
      var i := 0;
      while i < |rows|
        invariant 0 <= i <= |rows| == |before|
        invariant columns == old(columns)
        invariant forall k :: 0 <= k < i ==>
          rows[k] == if before[k].team == team then Apply(c, before[k], now) else before[k]
        invariant forall k :: i <= k < |rows| ==> rows[k] == before[k]
      {
        if rows[i].team == team {
          rows := rows[i := Apply(c, rows[i], now)];
        }
        i := i + 1;
      }
    }
  }

  /** The progress CSV file: absent, or holding a header and rows. */
  class ProgressStore {
    var present: bool
    var columns: seq<string>
    var rows: seq<TeamRecord>

    /** A store whose file does not exist yet. */
    constructor Missing()
      ensures !present && columns == [] && rows == []
    {
      present, columns, rows := false, [], [];
    }

    /** A store whose file already holds `rows` under `columns`. */
    constructor Holding(columns: seq<string>, rows: seq<TeamRecord>)
      ensures present && this.columns == columns && this.rows == rows
    {
      present := true;
      this.columns, this.rows := columns, rows;
    }

    /** What every page does at start-up: a missing file is created holding only
        the five-column header; an existing file is left as it is. */
    method EnsureFile()
      modifies this
      ensures present
      ensures old(present) ==> columns == old(columns) && rows == old(rows)
      ensures !old(present) ==> columns == Columns && rows == []
    {
      if !present {
        var init := new Frame(Columns, []);
        Save(init);
      }
    }

    /** `load_progress()`: a fresh in-memory copy of the file (the file must exist). */
    method Load() returns (f: Frame)
      requires present
      ensures fresh(f) && f.columns == columns && f.rows == rows
    {
      f := new Frame(columns, rows);
    }

    /** `save_progress(df)`: the file becomes exactly `f`, whatever it held before,
        so a later Load yields `f` again. */
    method Save(f: Frame)
      modifies this
      ensures present && columns == f.columns && rows == f.rows
    {
      present := true;
      columns, rows := f.columns, f.rows;
    }
  }
}
