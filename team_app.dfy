/**
 * The team page (one run of it per interaction): the team types its name, is
 * resumed or created in the progress table, and may submit an answer to its
 * current mission. The same page is served standalone and inside the combined app.
 */
module TeamApp {
  import opened Wrappers
  import opened PyText
  import opened Progress
  import opened Missions

  /** `update_progress(team, mission, score, hint)`: load, overwrite the team's rows in
      place or append a new row, save. */
  method UpdateProgress(store: ProgressStore, team: string, mission: int, score: int, hint: string, now: Timestamp)
    requires store.present
    modifies store
    ensures store.present && store.columns == old(store.columns)
    ensures store.rows == Upsert(old(store.rows), team, mission, score, hint, now)
  {
    var df := store.Load();
    if team in Teams(df.rows) {
      df.OverwriteWhere(team, SetProgress(mission, score, hint), now);
    } else {
      var newRow := TeamRecord(team, mission, score, hint, now);
      df := new Frame(df.columns, df.rows + [newRow]);
    }
    store.Save(df);
  }

  /** The rows the file holds once start-up has created it if it was missing. */
  function StartRows(present: bool, rows: seq<TeamRecord>): seq<TeamRecord> {
    if present then rows else []
  }

  /** The mission and score a team resumes with: those of its first row, or 1 and 0. */
  function Resume(rows: seq<TeamRecord>, name: string): (int, int) {
    match Lookup(rows, name)
    case Some(r) => (r.mission, r.score)
    case None => (1, 0)
  }

  /** The table once a non-blank name has joined: unchanged for a known team, one new
      row (mission 1, score 0, no hint) for a new one. */
  function AfterJoin(rows: seq<TeamRecord>, name: string, now: Timestamp): seq<TeamRecord> {
    if name in Teams(rows) then rows else Upsert(rows, name, 1, 0, "", now)
  }

  /** The table after the mission's button was pressed with `pressed`, or not pressed,
      by a team holding `mission` and `score`: only an accepted answer writes. */
  function AfterSubmit(rows: seq<TeamRecord>, name: string, mission: int, score: int,
                       pressed: Option<Submission>, now: Timestamp): seq<TeamRecord> {
    match pressed
    case None => rows
    case Some(input) =>
      match Step(mission, score, input)
      case Rejected => rows
      case Accepted(m, s, h) => Upsert(rows, name, m, s, h, now)
  }

  /** The table after one run of the page for the stripped name `name`. */
  function AfterVisit(rows: seq<TeamRecord>, name: string, pressed: Option<Submission>, now: Timestamp): seq<TeamRecord> {
    if name == [] then rows
    else AfterSubmit(AfterJoin(rows, name, now), name, Resume(rows, name).0, Resume(rows, name).1, pressed, now)
  }

  /** The mission dispatch of one button press: the locals `score` and `current_mission`
      advance branch by branch and a validated answer is written with update_progress.
      It does what the pure Step prescribes: a rejected answer writes nothing, an
      accepted one writes Step's mission, score and hint. */
  method SubmitMission(store: ProgressStore, teamName: string, mission: int, score: int, input: Submission, now: Timestamp)
    returns (newScore: int)
    requires store.present
    modifies store
    ensures store.present && store.columns == old(store.columns)
    ensures store.rows == AfterSubmit(old(store.rows), teamName, mission, score, Some(input), now)
    ensures newScore == if Step(mission, score, input).Accepted? then Step(mission, score, input).score else score
    ensures Lookup(old(store.rows), teamName).Some? && Lookup(old(store.rows), teamName).value.score == score ==>
      Lookup(store.rows, teamName).Some? && Lookup(store.rows, teamName).value.score == newScore
  {
    newScore := score;
    var currentMission := mission;
    if currentMission == 1 {
      if input.Text? && Mission1Accepts(input.text) {
        newScore := newScore + 30;
        currentMission := 2;
        var hint := GetHint(currentMission, newScore);
        UpdateProgress(store, teamName, currentMission, newScore, hint, now);
      }
    } else if currentMission == 2 {
      if input.Text? && Mission2Accepts(input.text) {
        newScore := newScore + 25;
        currentMission := 3;
        var hint := GetHint(currentMission, newScore);
        UpdateProgress(store, teamName, currentMission, newScore, hint, now);
      }
    } else if currentMission == 3 {
      if input.Year? && Mission3Accepts(input.year) {
        newScore := newScore + 25;
        currentMission := 4;
        var hint := GetHint(currentMission, newScore);
        UpdateProgress(store, teamName, currentMission, newScore, hint, now);
      }
    } else if currentMission == 4 {
      if input.Text? && Mission4Accepts(input.text) {
        newScore := newScore + 40;
        var hint := CompletionHint;
        UpdateProgress(store, teamName, currentMission, newScore, hint, now);
      }
    }
  }

  /** The start of a run for a non-blank name: a known team resumes the mission and score
      of its first row, a new team is written with mission 1, score 0 and no hint. */
  method Join(store: ProgressStore, teamName: string, now: Timestamp) returns (mission: int, score: int)
    requires store.present
    modifies store
    ensures store.present && store.columns == old(store.columns)
    ensures store.rows == AfterJoin(old(store.rows), teamName, now)
    ensures (mission, score) == Resume(old(store.rows), teamName)
    ensures Lookup(store.rows, teamName).Some? && Lookup(store.rows, teamName).value.score == score
  {
    var progress := store.Load();
    if teamName in Teams(progress.rows) {
      var first := Lookup(progress.rows, teamName).value;
      mission, score := first.mission, first.score;
    } else {
      mission, score := 1, 0;
      UpdateProgress(store, teamName, mission, score, "", now);
    }
  }

  /** What the page shows: nothing past the name box for a blank name, else the mission
      header, the score and the team's current hint. */
  datatype Screen = Stopped | Shown(mission: int, score: int, hint: string)

  /** One run of the team page. */
  method Visit(store: ProgressStore, typedName: string, pressed: Option<Submission>, now: Timestamp)
    returns (screen: Screen)
    modifies store
    ensures store.present
    ensures store.columns == if old(store.present) then old(store.columns) else Columns
    ensures store.rows == AfterVisit(StartRows(old(store.present), old(store.rows)), Strip(typedName), pressed, now)
    ensures screen.Stopped? <==> Strip(typedName) == []
    ensures Strip(typedName) == [] ==> store.rows == StartRows(old(store.present), old(store.rows))
    ensures screen.Shown? ==> screen.mission == Resume(StartRows(old(store.present), old(store.rows)), Strip(typedName)).0
    ensures screen.Shown? ==> Lookup(store.rows, Strip(typedName)).Some?
    ensures screen.Shown? ==> screen.score == Lookup(store.rows, Strip(typedName)).value.score
    ensures screen.Shown? ==> screen.hint == Lookup(store.rows, Strip(typedName)).value.hint
  {
    store.EnsureFile();
    var teamName := Strip(typedName);
    if teamName == [] {
      return Stopped;
    }
    var currentMission, score := Join(store, teamName, now);
    var header := currentMission;

    if pressed.Some? {
      score := SubmitMission(store, teamName, currentMission, score, pressed.value, now);
    }

    var df := store.Load();
    var teamData := Lookup(df.rows, teamName);
    screen := Shown(header, score, teamData.value.hint);
  }

  /** A run for one team leaves every other team's row as it was. */
  lemma AfterVisitOthersUntouched(rows: seq<TeamRecord>, name: string, pressed: Option<Submission>, now: Timestamp, t: string)
    requires t != name
    ensures Lookup(AfterVisit(rows, name, pressed, now), t) == Lookup(rows, t)
  {
  }

  /** A run for one team leaves every row of every other team in its place: the rows
      already there keep their positions and only the team's own rows, or one appended
      row, change. */
  lemma AfterVisitOtherRowsInPlace(rows: seq<TeamRecord>, name: string, pressed: Option<Submission>, now: Timestamp)
    ensures |AfterVisit(rows, name, pressed, now)| >= |rows|
    ensures forall i :: 0 <= i < |rows| && rows[i].team != name ==> AfterVisit(rows, name, pressed, now)[i] == rows[i]
  {
  }

  /** A run keeps one row per team. */
  lemma AfterVisitKeepsUnique(rows: seq<TeamRecord>, name: string, pressed: Option<Submission>, now: Timestamp)
    requires UniqueTeams(rows)
    ensures UniqueTeams(AfterVisit(rows, name, pressed, now))
  {
  }

  /** A new non-blank name that submits nothing gets one row at the end: mission 1, score 0, no hint. */
  lemma AfterVisitJoinsNewTeam(rows: seq<TeamRecord>, name: string, now: Timestamp)
    requires name != [] && name !in Teams(rows)
    ensures AfterVisit(rows, name, None, now) == rows + [TeamRecord(name, 1, 0, "", now)]
  {
  }

  /** A known team whose answer is rejected, or that presses nothing, leaves the table as it was. */
  lemma AfterVisitRejectedWritesNothing(rows: seq<TeamRecord>, name: string, pressed: Option<Submission>, now: Timestamp)
    requires name in Teams(rows)
    requires pressed.Some? ==> Step(Resume(rows, name).0, Resume(rows, name).1, pressed.value).Rejected?
    ensures AfterVisit(rows, name, pressed, now) == rows
  {
  }

  lemma SubmitNeverRegresses(rows: seq<TeamRecord>, name: string, first: TeamRecord, pressed: Option<Submission>, now: Timestamp)
    requires Lookup(rows, name) == Some(first)
    ensures var r := AfterSubmit(rows, name, first.mission, first.score, pressed, now);
      Lookup(r, name).Some? && Lookup(r, name).value.mission >= first.mission && Lookup(r, name).value.score >= first.score
  {
    if pressed.Some? {
      var o := Step(first.mission, first.score, pressed.value);
      if o.Accepted? {
        assert AfterSubmit(rows, name, first.mission, first.score, pressed, now) == Upsert(rows, name, o.mission, o.score, o.hint, now);
      }
    }
  }

  /** Through its own page a team's mission and score never go down. */
  lemma AfterVisitNeverRegresses(rows: seq<TeamRecord>, name: string, pressed: Option<Submission>, now: Timestamp)
    requires name in Teams(rows)
    ensures Lookup(AfterVisit(rows, name, pressed, now), name).Some?
    ensures Lookup(AfterVisit(rows, name, pressed, now), name).value.mission >= Lookup(rows, name).value.mission
    ensures Lookup(AfterVisit(rows, name, pressed, now), name).value.score >= Lookup(rows, name).value.score
  {
    assert AfterJoin(rows, name, now) == rows;
    SubmitNeverRegresses(rows, name, Lookup(rows, name).value, pressed, now);
  }

  lemma UpsertKeepsInRange(rows: seq<TeamRecord>, team: string, mission: int, score: int, hint: string, now: Timestamp)
    requires InRange(rows) && 1 <= mission <= 4 && score >= 0
    ensures InRange(Upsert(rows, team, mission, score, hint, now))
  {
    var r := Upsert(rows, team, mission, score, hint, now);
    UpsertRowsFrom(rows, team, mission, score, hint, now);
    forall i | 0 <= i < |r| ensures 1 <= r[i].mission <= 4 && r[i].score >= 0 {
      assert r[i] in r;
    }
  }

  lemma AfterJoinKeepsInRange(rows: seq<TeamRecord>, name: string, now: Timestamp)
    requires InRange(rows)
    ensures InRange(AfterJoin(rows, name, now))
  {
    if name !in Teams(rows) {
      UpsertKeepsInRange(rows, name, 1, 0, "", now);
    }
  }

  lemma AfterSubmitKeepsInRange(rows: seq<TeamRecord>, name: string, mission: int, score: int,
                                pressed: Option<Submission>, now: Timestamp)
    requires InRange(rows) && 1 <= mission <= 4 && score >= 0
    ensures InRange(AfterSubmit(rows, name, mission, score, pressed, now))
  {
    if pressed.Some? && Step(mission, score, pressed.value).Accepted? {
      var o := Step(mission, score, pressed.value);
      UpsertKeepsInRange(rows, name, o.mission, o.score, o.hint, now);
    }
  }

  /** A run keeps every mission in 1..4 and every score non-negative. */
  lemma AfterVisitKeepsInRange(rows: seq<TeamRecord>, name: string, pressed: Option<Submission>, now: Timestamp)
    requires InRange(rows)
    ensures InRange(AfterVisit(rows, name, pressed, now))
  {
    if name != [] {
      AfterJoinKeepsInRange(rows, name, now);
      assert 1 <= Resume(rows, name).0 <= 4 && Resume(rows, name).1 >= 0 by {
        if Lookup(rows, name).Some? {
          var k :| 0 <= k < |rows| && rows[k] == Lookup(rows, name).value;
        }
      }
      AfterSubmitKeepsInRange(AfterJoin(rows, name, now), name, Resume(rows, name).0, Resume(rows, name).1, pressed, now);
    }
  }

  /** Every row holds a state the team could have reached by its own answers. */
  predicate AllReachable(rows: seq<TeamRecord>) {
    forall i :: 0 <= i < |rows| ==> Reachable(rows[i].mission, rows[i].score)
  }

  lemma UpsertKeepsReachable(rows: seq<TeamRecord>, team: string, mission: int, score: int, hint: string, now: Timestamp)
    requires AllReachable(rows) && Reachable(mission, score)
    ensures AllReachable(Upsert(rows, team, mission, score, hint, now))
  {
    var r := Upsert(rows, team, mission, score, hint, now);
    UpsertRowsFrom(rows, team, mission, score, hint, now);
    forall i | 0 <= i < |r| ensures Reachable(r[i].mission, r[i].score) {
      assert r[i] in r;
    }
  }

  lemma AfterJoinKeepsReachable(rows: seq<TeamRecord>, name: string, now: Timestamp)
    requires AllReachable(rows)
    ensures AllReachable(AfterJoin(rows, name, now))
  {
    if name !in Teams(rows) {
      UpsertKeepsReachable(rows, name, 1, 0, "", now);
    }
  }

  lemma AfterSubmitKeepsReachable(rows: seq<TeamRecord>, name: string, mission: int, score: int,
                                  pressed: Option<Submission>, now: Timestamp)
    requires AllReachable(rows) && Reachable(mission, score)
    ensures AllReachable(AfterSubmit(rows, name, mission, score, pressed, now))
  {
    if pressed.Some? && Step(mission, score, pressed.value).Accepted? {
      var o := Step(mission, score, pressed.value);
      StepKeepsReachable(mission, score, pressed.value);
      UpsertKeepsReachable(rows, name, o.mission, o.score, o.hint, now);
    }
  }

  /** Without administrator changes, every score in the table is one the game awards:
      a run keeps every row reachable. */
  lemma AfterVisitKeepsReachable(rows: seq<TeamRecord>, name: string, pressed: Option<Submission>, now: Timestamp)
    requires AllReachable(rows)
    ensures AllReachable(AfterVisit(rows, name, pressed, now))
  {
    if name != [] {
      AfterJoinKeepsReachable(rows, name, now);
      assert Reachable(Resume(rows, name).0, Resume(rows, name).1) by {
        if Lookup(rows, name).Some? {
          var k :| 0 <= k < |rows| && rows[k] == Lookup(rows, name).value;
        }
      }
      AfterSubmitKeepsReachable(AfterJoin(rows, name, now), name, Resume(rows, name).0, Resume(rows, name).1, pressed, now);
    }
  }
}
