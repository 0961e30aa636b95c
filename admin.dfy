/**
 * The administrator page: push a hint to a team, set a team's score and mission
 * by hand, or reset the whole progress table. The hint push and the adjustment
 * edit the loaded table in place and save it back over the file; the reset saves
 * an empty table with the five columns without loading anything.
 */
module Admin {
  import opened Progress

  /** "Send the hint": every row of `team` gets the hint and the time of the push;
      missions, scores, team names and all other rows stay as they were. */
  method SendHint(store: ProgressStore, team: string, hint: string, now: Timestamp)
    requires store.present
    modifies store
    ensures store.present && store.columns == old(store.columns)
    ensures store.rows == Overwrite(old(store.rows), team, SetHint(hint), now)
    ensures |store.rows| == |old(store.rows)| && Teams(store.rows) == Teams(old(store.rows))
    ensures forall i :: 0 <= i < |store.rows| ==>
      store.rows[i].team == old(store.rows)[i].team
      && store.rows[i].mission == old(store.rows)[i].mission
      && store.rows[i].score == old(store.rows)[i].score
    ensures forall i :: 0 <= i < |store.rows| && old(store.rows)[i].team == team ==>
      store.rows[i].hint == hint && store.rows[i].lastUpdate == now
    ensures forall i :: 0 <= i < |store.rows| && old(store.rows)[i].team != team ==>
      store.rows[i] == old(store.rows)[i]
    ensures UniqueTeams(old(store.rows)) ==> UniqueTeams(store.rows)
  {
    var progress := store.Load();
    progress.OverwriteWhere(team, SetHint(hint), now);
    store.Save(progress);
    OverwriteKeepsTeams(old(store.rows), team, SetHint(hint), now);
  }

  /** "Update the information": every row of `team` gets the new score, mission and time;
      the hint, team names and all other rows stay. Unlike a team's own answers this
      may lower the mission or the score. The form only lets through a score of at
      least 0 and a mission in 1..4. */
  method AdjustProgress(store: ProgressStore, team: string, newScore: int, newMission: int, now: Timestamp)
    requires store.present
    requires newScore >= 0 && 1 <= newMission <= 4
    modifies store
    ensures store.present && store.columns == old(store.columns)
    ensures store.rows == Overwrite(old(store.rows), team, SetScoreMission(newScore, newMission), now)
    ensures |store.rows| == |old(store.rows)| && Teams(store.rows) == Teams(old(store.rows))
    ensures forall i :: 0 <= i < |store.rows| ==>
      store.rows[i].team == old(store.rows)[i].team && store.rows[i].hint == old(store.rows)[i].hint
    ensures forall i :: 0 <= i < |store.rows| && old(store.rows)[i].team == team ==>
      store.rows[i].score == newScore && store.rows[i].mission == newMission && store.rows[i].lastUpdate == now
    ensures forall i :: 0 <= i < |store.rows| && old(store.rows)[i].team != team ==>
      store.rows[i] == old(store.rows)[i]
    ensures UniqueTeams(old(store.rows)) ==> UniqueTeams(store.rows)
    ensures InRange(old(store.rows)) ==> InRange(store.rows)
  {
    var progress := store.Load();
    progress.OverwriteWhere(team, SetScoreMission(newScore, newMission), now);
    store.Save(progress);
    OverwriteKeepsTeams(old(store.rows), team, SetScoreMission(newScore, newMission), now);
  }

  /** A hand adjustment can send a team back: its row then reads the lower values. */
  lemma AdjustCanLowerProgress(rows: seq<TeamRecord>, i: int, newScore: int, newMission: int, now: Timestamp)
    requires UniqueTeams(rows) && 0 <= i < |rows|
    requires newScore < rows[i].score && newMission < rows[i].mission
    ensures var after := Lookup(Overwrite(rows, rows[i].team, SetScoreMission(newScore, newMission), now), rows[i].team);
      after.Some? && after.value.score < rows[i].score && after.value.mission < rows[i].mission
  {
    LookupUnique(rows, i);
    LookupOverwrite(rows, rows[i].team, SetScoreMission(newScore, newMission), now, rows[i].team);
  }

  /** "Reset the progress file": the file holds only the five-column header, whatever it
      held before (so resetting twice is the same as resetting once). */
  method ResetAll(store: ProgressStore)
    modifies store
    ensures store.present && store.columns == Columns && store.rows == []
  {
    var empty := new Frame(Columns, []);
    store.Save(empty);
  }
}
