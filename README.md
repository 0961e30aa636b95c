# Sauver Gaïa: team progress store and mission engine

"Opération Sauver Gaïa" is a classroom escape game written as three Streamlit pages:
a climate dashboard with a team space (`app.py`), a standalone team page
(`gaia_team_app.py`) and an administrator page (`gaia_admin_dashboard.py`). All pages
share one progress table, a CSV file with the columns Team, Mission, Score, Hint and
Last_Update. This project models in Dafny:

- that table, and how each page changes it;
- the four-stage mission engine of the team page;
- the automatic hint;
- the dashboard's region/year row filter;
- the combined app's page selection.

Modules, one per component:

- `Wrappers` (`wrappers.dfy`): `Option`.
- `PyText` (`pytext.dfy`): the Python string builtins the answer checks use: `lower()`,
  `strip()` and substring search. They are modelled on ASCII only.
- `Progress` (`progress.dfy`): the `TeamRecord` row and the pure table operations.
  - `Overwrite` is `df.loc[df["Team"] == team, cols] = vals`.
  - `Upsert` is `update_progress`.
  - `Lookup` is the first row of a team.
  - Class `Frame` is a loaded DataFrame, which the pages change in place.
  - Class `ProgressStore` is the CSV file. It may be absent. It has the operations
    create-if-missing, `load_progress` and `save_progress`.
- `Missions` (`missions.dfy`): `get_hint`, the four acceptance predicates, and the pure
  transition `Step(mission, score, submission)`. `Step` returns the new mission, score
  and hint, or `Rejected`. The module also has the transition table and a
  reachable-state invariant.
- `TeamApp` (`team_app.dfy`): `update_progress` and one run of the team page.
  - `Join` resumes or creates the team.
  - `SubmitMission` is the mission dispatch. It updates the locals `score` and
    `current_mission` branch by branch.
  - `Visit` is the whole run.
  - All three are proved against the pure specification `AfterVisit`, which is built
    from `AfterJoin` and `AfterSubmit`.
- `Admin` (`admin.dfy`): hint push, manual score/mission adjustment and reset. The hint
  push and the adjustment load the table, change the frame in place and save it. The
  reset builds an empty five-column frame without loading and saves it.
- `Dashboard` (`dashboard.dfy`): the row filter of the climate dashboard.
- `App` (`app.dfy`): the session's page choice, and one run of the combined app.

`app.py` lines 162-276 repeat the team logic of `gaia_team_app.py` lines 23-189. The two
differ in display calls, and in `if team_name:` where the standalone page uses
`st.stop()`. The `TeamApp` and `Missions` members model the logic both copies share, and
`App.Run` runs `TeamApp.Visit` on its team page. Rows below cite either copy. Only the
`app.py` copy can run, though. `gaia_team_app.py` is not valid Python: the mission-box
literals at lines 153 and 166 are delimited by single quotes and contain an apostrophe
(`l'anomalie`, `d'ici`), which ends the literal early.

Three details of the code that the model follows:

- Writes to a team use a boolean mask, so they rewrite every row of that team. Reads
  use the first matching row. The table therefore has "exactly one row per team" only
  when it held at most one row per team before. `Upsert`'s contract states the write
  row by row: each row of the team is rewritten in its place, each other row is kept.
- Mission 2 lowercases the answer but does not strip it.
- The year slider's default window is 2030..2050, not the dataset's first to last
  year. `FilterWholeDataset` is stated for a window that spans the whole dataset.

## Model

| member | source | states |
|---|---|---|
| PyText.Lower | gaia_team_app.py:130 | `lower()`: same length; each ASCII capital is replaced by its small letter and every other character is kept |
| PyText.TrimStart | gaia_team_app.py:106 | leading half of `strip()`: a suffix of the input; everything cut off is whitespace; the result does not start with whitespace |
| PyText.TrimEnd | gaia_team_app.py:106 | trailing half of `strip()`: a prefix of the input; everything cut off is whitespace; the result does not end with whitespace |
| PyText.Strip | gaia_team_app.py:106 | `str.strip()`: TrimEnd after TrimStart; what it removes and keeps is stated by StripIsTrimmedSlice, StripEmptyIffBlank and StripIdempotent |
| PyText.StripIsTrimmedSlice | gaia_team_app.py:106 | the stripped name is a slice of the typed one; only whitespace was removed on either side; it neither starts nor ends with whitespace |
| PyText.StripEmptyIffBlank | gaia_team_app.py:106-108 | the stripped name is empty exactly when the typed name is all whitespace (the page then stops) |
| PyText.StripIdempotent | app.py:203 | stripping an already stripped name changes nothing, so a stored name is found again under its stripped form |
| PyText.Contains | gaia_team_app.py:143 | the substring test `sub in s`, scanning from each start position; ContainsIff ties it to an occurrence at some position, in both directions |
| PyText.ContainsIff | gaia_team_app.py:143 | the substring test `sub in s` holds exactly when `sub` occurs at some position of `s` |
| Progress.Apply | gaia_team_app.py:75-77 | a row write keeps the team name and sets Last_Update; update_progress sets mission, score and hint; a hint push keeps mission and score; an adjustment keeps the hint |
| Progress.Teams | gaia_team_app.py:74 | the set of team names in the table, the `team in df["Team"].values` test of the upsert (and of the resume at :113) and the `unique()` choices of gaia_admin_dashboard.py:85 and :101; Lookup, Upsert, SendHint and AdjustProgress state their behaviour through it |
| Progress.Lookup | gaia_team_app.py:113-115 | reading a team finds a row exactly when the team is in the table, and the row found is the team's first row (`.values[0]`) |
| Progress.Overwrite | gaia_admin_dashboard.py:89-91 | a masked write keeps the row count; each row of the team gets the change; every other row is unchanged |
| Progress.OverwriteKeepsTeams | gaia_admin_dashboard.py:100-111 | a masked write keeps the set of team names and one-row-per-team |
| Progress.LookupOverwrite | gaia_team_app.py:74-77 | after a masked write, the written team reads its changed row and every other team reads what it read before |
| Progress.LookupAppend | gaia_team_app.py:78-86 | after a row is appended, teams already present read as before and the new team reads the new row |
| Progress.LookupUnique | gaia_team_app.py:113-115 | with one row per team, reading a team gives its row |
| Progress.OverwriteAsWrite | gaia_team_app.py:74-77 | overwriting a known team keeps the team names; the team then reads the written values; every other team reads as before; one-row-per-team is kept |
| Progress.AppendAsWrite | gaia_team_app.py:78-86 | appending a new team's row adds its name; the team then reads that row; every other team reads as before; one-row-per-team is kept |
| Progress.Upsert | gaia_team_app.py:72-87 | the team names become the old names plus the team; the row count grows by one exactly when the team was new; a new team's row is appended at the end; every row of another team keeps its place; every row of the team is rewritten in its own place with the written values; the team reads the written values; every other team reads as before; one-row-per-team is kept |
| Progress.UpsertWritesEveryRowOfTeam | app.py:174-189 | after an upsert a row with exactly the written values exists, and every row of that team carries them |
| Progress.UpsertRowsFrom | gaia_team_app.py:72-87 | every row after an upsert is an old row or the written one |
| Progress.Frame.OverwriteWhere | gaia_admin_dashboard.py:89-91 | the in-place masked write on a loaded table leaves exactly `Overwrite` of the old rows, with the same columns |
| Progress.ProgressStore.EnsureFile | gaia_admin_dashboard.py:25-27 | afterwards the file exists; a missing file holds only the header Team, Mission, Score, Hint, Last_Update; an existing file is unchanged |
| Progress.ProgressStore.Load | gaia_admin_dashboard.py:29-30 | loading gives a fresh frame holding exactly the file's columns and rows |
| Progress.ProgressStore.Save | gaia_admin_dashboard.py:32-33 | saving overwrites the whole file with the frame, so a later Load yields that frame |
| Missions.GetHint | gaia_team_app.py:89-98 | the generic hint comes out exactly when the score is below 20; the fallback hint comes out exactly when the score is at least 20 and the mission is outside 1..4 |
| Missions.GetHintTable | gaia_team_app.py:90-98 | at a score of 20 or more, missions 1..4 get their own table hint, which is neither the generic nor the fallback hint |
| Missions.GetHintFromTable | app.py:191-200 | a table hint comes out exactly when the score is at least 20 and the mission is in the table |
| Missions.Mission1Accepts | gaia_team_app.py:130 | the mission 1 test: the answer lowercased then stripped is "archipel" or "sud"; Mission1Rule states its effect on `Step` in both directions |
| Missions.Mission2Accepts | gaia_team_app.py:143 | the mission 2 test: "inverse" or "baisse" occurs in the lowercased answer; Mission2Rule states it through ContainsIff |
| Missions.Mission3Accepts | gaia_team_app.py:156 | the mission 3 test: the year is 2045; Mission3Rule states its effect on `Step` |
| Missions.Mission4Accepts | gaia_team_app.py:169 | the mission 4 test: the plan is longer than 30 characters; Mission4Rule states its effect on `Step` |
| Missions.Step | gaia_team_app.py:126-175 | an accepted submission moves to the next mission of the table 1→2→3→4→4 and adds that mission's reward (30, 25, 25, 40); the hint is `get_hint` of the new state, or the completion message after mission 4; an accepted step never lowers the mission and always raises the score |
| Missions.Mission1Rule | gaia_team_app.py:129-135 | mission 1 is accepted exactly when the lowercased, stripped answer is "archipel" or "sud" |
| Missions.Mission1Example | gaia_team_app.py:130-135 | "Archipel " is accepted: mission 2, score +30 |
| Missions.Mission2Rule | gaia_team_app.py:142-148 | mission 2 is accepted exactly when "inverse" or "baisse" occurs in the lowercased answer |
| Missions.Mission3Rule | gaia_team_app.py:154-163 | mission 3 is accepted exactly for the year 2045; 2044 is rejected |
| Missions.Mission4Rule | gaia_team_app.py:168-175 | mission 4 is accepted exactly for plans longer than 30 characters; each accepted plan keeps mission 4, adds 40 and writes the completion message |
| Missions.AdvanceHintIsMissionHint | gaia_team_app.py:132-161 | from a non-negative score, the hint stored after a 1→2, 2→3 or 3→4 advance is the new mission's own hint, never the generic one |
| Missions.Play | app.py:218-267 | over any sequence of button presses, mission and score never decrease |
| Missions.StepKeepsReachable | app.py:218-267 | one step from a state a new team can reach leads to another such state |
| Missions.EntryScore | app.py:218-253 | the score a new team holds on reaching missions 1..4 through its own answers: 0, 30, 55 and 80 |
| Missions.PlayKeepsReachable | gaia_team_app.py:117-175 | from such a state, any sequence of submissions keeps the state reachable: the entry score of the mission (0, 30, 55, 80), plus 40 per accepted plan on mission 4 |
| TeamApp.UpdateProgress | gaia_team_app.py:72-87 | `update_progress` (load, write in place or append, save) leaves the file holding `Upsert` of its old rows under the same header |
| TeamApp.StartRows | gaia_team_app.py:25-27 | the rows the file holds once start-up has created it if missing: the old rows, or none; Visit and App.Run are stated from it |
| TeamApp.Resume | gaia_team_app.py:113-118 | the mission and score a team resumes with: those of its first row, or 1 and 0 for a new team; Join's contract and AfterVisitNeverRegresses use it |
| TeamApp.AfterJoin | gaia_team_app.py:113-119 | the table once a non-blank name has joined: unchanged for a known team, one appended row (1, 0, "") for a new one; AfterVisitJoinsNewTeam and the AfterJoinKeeps lemmas state its properties |
| TeamApp.AfterSubmit | gaia_team_app.py:126-175 | the table after the mission button: only an accepted `Step` writes, through `Upsert`; SubmitMission is proved equal to it, and AfterVisitRejectedWritesNothing states the no-write case |
| TeamApp.AfterVisit | gaia_team_app.py:106-175 | the table after one run of the team page; Visit and App.Run are proved equal to it, and the AfterVisit lemmas below state what it keeps and changes |
| TeamApp.Join | gaia_team_app.py:111-119 | a known team resumes the mission and score of its first row; a new team gets one row with mission 1, score 0 and an empty hint; afterwards the team's row holds the resumed score |
| TeamApp.SubmitMission | gaia_team_app.py:126-175 | the branch-by-branch dispatch writes what `Step` prescribes: nothing for a rejected answer, Step's mission, score and hint for an accepted one; the shown score is the stored one |
| TeamApp.Visit | gaia_team_app.py:106-183 | one run: the file is created if missing; a blank name stops the page without writing; otherwise the table becomes `AfterVisit` of the start table; the header shows the resumed mission; the shown score and hint are those of the team's stored row |
| TeamApp.AfterVisitOthersUntouched | app.py:203-267 | a run for one team leaves every other team's row as it was |
| TeamApp.AfterVisitOtherRowsInPlace | app.py:174-189 | a run never shortens the table, and every row of another team stays at its position unchanged |
| TeamApp.AfterVisitKeepsUnique | gaia_team_app.py:113-119 | a run keeps one-row-per-team |
| TeamApp.AfterVisitJoinsNewTeam | app.py:211-214 | a new non-blank name that submits nothing adds exactly one row at the end: mission 1, score 0, empty hint |
| TeamApp.AfterVisitRejectedWritesNothing | gaia_team_app.py:136-175 | a known team whose answer is rejected, or that presses nothing, leaves the table unchanged |
| TeamApp.SubmitNeverRegresses | gaia_team_app.py:126-175 | from the team's first row, a press of the mission button, accepted or rejected, leaves the team's stored mission and score no lower |
| TeamApp.AfterVisitNeverRegresses | app.py:218-267 | through the team page, a team's stored mission and score never go down |
| TeamApp.AfterVisitKeepsInRange | gaia_team_app.py:113-173 | if all missions are in 1..4 and all scores are non-negative, a run keeps it so |
| TeamApp.AfterVisitKeepsReachable | gaia_team_app.py:117-173 | if every row holds a state the game can award, a run keeps it so |
| Admin.SendHint | gaia_admin_dashboard.py:84-93 | every row of the chosen team gets the hint and time; missions, scores, names, row count and all other rows are unchanged |
| Admin.AdjustProgress | gaia_admin_dashboard.py:100-113 | every row of the chosen team gets the new score, mission and time; hints, names, row count and all other rows are unchanged; the mission range and non-negative scores are kept |
| Admin.AdjustCanLowerProgress | gaia_admin_dashboard.py:104-111 | unlike the team page, an adjustment can lower a team's score and mission |
| Admin.ResetAll | gaia_admin_dashboard.py:120-123 | the file holds only the five-column header, whatever it held before, so a second reset changes nothing |
| Dashboard.FilterRows | app.py:85 | a row is in the view exactly when it is in the dataset, its region is selected and its year is within [lo, hi] |
| Dashboard.Selected | app.py:85 | the row mask: region among the selected ones and year within [lo, hi], both ends included; FilterRows keeps exactly the rows it selects |
| Dashboard.RegionsOf | app.py:80-81 | `df["Region"].unique()`, the regions of the dataset and the multiselect's default; FilterWholeDataset states that selecting all of them over the full year span keeps every row |
| Dashboard.FilterConcat | app.py:85 | filtering two consecutive parts filters each part and keeps them in dataset order |
| Dashboard.FilterKeepsAllSelected | app.py:85 | when every row passes, the view is the whole dataset in its order |
| Dashboard.FilterNoRegion | app.py:81-85 | with no region selected, the view is empty |
| Dashboard.FilterIdempotent | app.py:85 | filtering the view again changes nothing |
| Dashboard.MinYear | app.py:82-83 | the slider's lower bound `min(years)` is a year of the dataset and at most every year of it |
| Dashboard.MaxYear | app.py:82-83 | the slider's upper bound `max(years)` is a year of the dataset and at least every year of it |
| Dashboard.FilterWholeDataset | app.py:80-85 | with all regions selected and the slider from the first to the last year, the view is the whole dataset |
| App.Session.Navigate | app.py:66-73 | the team button shows the team page; the home button alone shows the dashboard; with no click the previous page stays, or the dashboard when none was chosen yet; afterwards a page is always set |
| App.Run | app.py:66-276 | the buttons choose the page as Navigate does (team button wins, home button alone gives the dashboard, no click keeps the page or defaults to the dashboard); the dashboard page shows the filtered rows and leaves the progress file alone; the team page leaves the file present, keeps its header or creates the five-column one, leaves its rows as `TeamApp.AfterVisit` prescribes, stops exactly for a blank name, and otherwise shows the resumed mission with the score and hint of the team's stored first row |

## Left out

- Rendering is not modelled: the CSS, the headings, the success and error messages, the
  Altair charts and the `st.dataframe` display. The model only decides which screen
  and which values are shown.
- The mean metrics of the dashboard (app.py:96-102) are floating-point averages. They
  give NaN on an empty selection. The CSV download of the filtered rows (app.py:105-106)
  is a file export. Both are left out.
- `gaia_streamlit_app.py` is not part of this model. It is a second dashboard whose only
  filter line is the same expression as app.py:85.
- CSV reading and writing, and the `GAIA_PROGRESS_PATH` and `GAIA_DATASET_PATH`
  settings, are left out. The file is an in-memory header and row sequence, and
  `read_csv` gives back exactly what was saved. The dtype coercion of a real re-read is
  not modelled: a purely numeric team name comes back as a number and no longer matches
  the typed name, and an empty hint comes back as NaN.
- `datetime.now().strftime("%H:%M:%S")` becomes a `Timestamp` parameter. Both writes of
  one run of the team page receive the same value.
- Concurrent sessions are not modelled. The pages read, change and rewrite the file with
  no locking, so the last writer wins. The model is one sequential store.
- `lower()` and `strip()` follow Python's rules on ASCII only. The model does not lower
  non-ASCII letters, and it does not strip non-ASCII whitespace such as U+00A0.
- Progress.ProgressStore.Load: requires that the file exists. `read_csv` raises on a
  missing file, and every page creates the file before its first load.
- Missions.Step: a submission of the wrong kind for the mission is rejected. That means
  a year for missions 1, 2 and 4, or text for mission 3. The page never offers such a
  widget. A mission outside 1..4 is rejected as well, since no branch of the dispatch
  runs.
- The mission 3 widget limits the year to 2030..2050. This is not a precondition of
  `Step`, because only 2045 is accepted either way.
- The administrator forms are offered only when the table is non-empty, and the team is
  picked from the names in the table. `SendHint` and `AdjustProgress` take any team
  name. For a name with no row they change nothing but their contracts still hold.
- Dashboard.MinYear, Dashboard.MaxYear: require a non-empty dataset. `min()` and `max()`
  raise `ValueError` on an empty one, and the dashboard loads one fixed, non-empty
  dataset file.
- The standalone team page `gaia_team_app.py` fails to parse at lines 153 and 166. The
  model gives it the meaning its author evidently intended, which is the one the
  `app.py` copy has.
