/**
 * The four-stage mission engine of the team page: the automatic hint, the
 * acceptance test of each mission, and one validated submission as a step
 * from (mission, score) to the new mission, score and hint.
 */
module Missions {
  import opened PyText

  /** Shown whatever the mission while the score is below 20. */
  const GenericHint := "Indice : observe les variables les plus extrêmes."
  /** Shown for a mission outside the hint table. */
  const FallbackHint := "Continuez votre exploration..."
  /** The mission-specific hints. */
  const MissionHints: map<int, string> := map[
    1 := "🌱 Regarde où la mer monte le plus vite…",
    2 := "💡 Ce qui sauve Gaïa, ce n'est pas la machine, mais la volonté.",
    3 := "🔥 Les chiffres sont froids, la conviction les réchauffe.",
    4 := "🏁 Le futur se joue dans les choix que vous faites aujourd'hui."]
  /** Written instead of a hint once the final plan is accepted. */
  const CompletionHint := "🏆 Mission terminée – Gaïa est sauvée grâce à vous !"
  /** Below this score only the generic hint is given. */
  const HintThreshold := 20

  /** `get_hint(mission, score)`: which of the three kinds of hint comes out is decided
      by the score first and by the mission table second. */
  function GetHint(mission: int, score: int): (h: string)
    ensures h == GenericHint <==> score < HintThreshold
    ensures h == FallbackHint <==> score >= HintThreshold && mission !in MissionHints
  {
    if score < HintThreshold then GenericHint
    else if mission in MissionHints then MissionHints[mission]
    else FallbackHint
  }

  /** A hint from the mission table comes out exactly when the score is 20 or more and
      the mission is in the table. */
  lemma GetHintFromTable(mission: int, score: int)
    ensures GetHint(mission, score) in MissionHints.Values <==> score >= HintThreshold && mission in MissionHints
  {
    if score >= HintThreshold && mission in MissionHints {
      assert MissionHints[mission] in MissionHints.Values;
    }
  }

  /** With a score of 20 or more, missions 1..4 get their own hint. */
  lemma GetHintTable(mission: int, score: int)
    requires score >= HintThreshold && 1 <= mission <= 4
    ensures GetHint(mission, score) == MissionHints[mission]
    ensures GetHint(mission, score) != GenericHint && GetHint(mission, score) != FallbackHint
  {
  }

  /** The two accepted names of the most vulnerable region. */
  const Mission1Answers: seq<string> := ["archipel", "sud"]

  /** Mission 1: the answer, lowercased then stripped, is one of the two names. */
  predicate Mission1Accepts(answer: string) {
    Strip(Lower(answer)) in Mission1Answers
  }

  /** Mission 2: the lowercased answer mentions an inverse relation or a decrease. */
  predicate Mission2Accepts(answer: string) {
    Contains(Lower(answer), "inverse") || Contains(Lower(answer), "baisse")
  }

  /** Mission 3: the year the anomaly passes 2 degrees. */
  predicate Mission3Accepts(year: int) {
    year == 2045
  }

  /** Mission 4: any plan longer than 30 characters. */
  predicate Mission4Accepts(plan: string) {
    |plan| > 30
  }

  /** What a team submits: free text (missions 1, 2 and 4) or a year (mission 3). */
  datatype Submission = Text(text: string) | Year(year: int)

  /** A validated submission gives the new mission, score and hint; a rejected one nothing. */
  datatype Outcome = Accepted(mission: int, score: int, hint: string) | Rejected

  /** The transition table: where each validated mission leads and what it earns. */
  const NextMission: map<int, int> := map[1 := 2, 2 := 3, 3 := 4, 4 := 4]
  const Reward: map<int, int> := map[1 := 30, 2 := 25, 3 := 25, 4 := 40]

  /** The mission dispatch of the team page for one press of the mission's button. */
  function Step(mission: int, score: int, input: Submission): (o: Outcome)
    ensures o.Accepted? ==> mission in NextMission && o.mission == NextMission[mission]
    ensures o.Accepted? ==> o.score == score + Reward[mission]
    ensures o.Accepted? ==> o.hint == if mission == 4 then CompletionHint else GetHint(o.mission, o.score)
    ensures o.Accepted? ==> mission <= o.mission <= 4 && o.score > score
  {
    if mission == 1 then
      if input.Text? && Mission1Accepts(input.text) then Accepted(2, score + 30, GetHint(2, score + 30)) else Rejected
    else if mission == 2 then
      if input.Text? && Mission2Accepts(input.text) then Accepted(3, score + 25, GetHint(3, score + 25)) else Rejected
    else if mission == 3 then
      if input.Year? && Mission3Accepts(input.year) then Accepted(4, score + 25, GetHint(4, score + 25)) else Rejected
    else if mission == 4 then
      if input.Text? && Mission4Accepts(input.text) then Accepted(4, score + 40, CompletionHint) else Rejected
    else
      Rejected
  }

  /** Mission 1 is passed exactly by the two names, in any case and surrounded by spaces. */
  lemma Mission1Rule(score: int, answer: string)
    ensures Step(1, score, Text(answer)).Accepted? <==> Strip(Lower(answer)) == "archipel" || Strip(Lower(answer)) == "sud"
  {
    StepMission1(score, answer);
    Mission1AnswersAre(Strip(Lower(answer)));
  }

  lemma StepMission1(score: int, answer: string)
    ensures Step(1, score, Text(answer)).Accepted? <==> Mission1Accepts(answer)
  {
  }

  lemma Mission1AnswersAre(s: string)
    ensures s in Mission1Answers <==> s == "archipel" || s == "sud"
  {
    assert Mission1Answers[0] == "archipel" && Mission1Answers[1] == "sud";
  }

  lemma LowerArchipel()
    ensures Lower("Archipel ") == "archipel "
  {
    var typed: string := "Archipel ";
    var lowered: string := "archipel ";
    forall i | 0 <= i < |typed| ensures Lower(typed)[i] == lowered[i] {
    }
  }

  lemma StripArchipel()
    ensures Strip("archipel ") == "archipel"
  {
    var lowered: string := "archipel ";
    assert TrimStart(lowered) == lowered;
    assert lowered[..|lowered| - 1] == "archipel";
    assert TrimEnd(lowered) == "archipel";
  }

  /** "Archipel " (capital and trailing space) passes mission 1. */
  lemma Mission1Example(score: int)
    ensures Step(1, score, Text("Archipel ")) == Accepted(2, score + 30, GetHint(2, score + 30))
  {
    LowerArchipel();
    StripArchipel();
    assert Mission1Accepts("Archipel ");
  }

  /** Mission 2 is passed exactly when "inverse" or "baisse" occurs in the lowercased answer. */
  lemma Mission2Rule(score: int, answer: string)
    ensures Step(2, score, Text(answer)).Accepted? <==>
      (exists i :: OccursAt(Lower(answer), "inverse", i)) || (exists i :: OccursAt(Lower(answer), "baisse", i))
  {
    assert Step(2, score, Text(answer)).Accepted? <==> Mission2Accepts(answer);
    ContainsIff(Lower(answer), "inverse");
    ContainsIff(Lower(answer), "baisse");
  }

  /** Mission 3 is passed by 2045 and by no other year. */
  lemma Mission3Rule(score: int, year: int)
    ensures Step(3, score, Year(year)).Accepted? <==> year == 2045
    ensures year == 2044 ==> Step(3, score, Year(year)) == Rejected
  {
  }

  /** Mission 4 is terminal: every plan longer than 30 characters adds 40 and keeps mission 4. */
  lemma Mission4Rule(score: int, plan: string)
    ensures Step(4, score, Text(plan)).Accepted? <==> |plan| > 30
    ensures |plan| > 30 ==> Step(4, score, Text(plan)) == Accepted(4, score + 40, CompletionHint)
  {
  }

  /** After advancing from mission 1, 2 or 3 with a score that was not negative,
      the new hint is the next mission's own hint, never the generic one. */
  lemma AdvanceHintIsMissionHint(mission: int, score: int, input: Submission)
    requires 1 <= mission <= 3 && score >= 0
    requires Step(mission, score, input).Accepted?
    ensures Step(mission, score, input).hint == MissionHints[mission + 1]
    ensures Step(mission, score, input).hint != GenericHint
  {
    GetHintTable(mission + 1, Step(mission, score, input).score);
  }

  /** The state after a sequence of button presses, each validated or rejected. */
  function Play(mission: int, score: int, inputs: seq<Submission>): (r: (int, int))
    ensures r.0 >= mission && r.1 >= score
    ensures inputs == [] ==> r == (mission, score)
    decreases |inputs|
  {
    if inputs == [] then (mission, score)
    else match Step(mission, score, inputs[0])
      case Accepted(m, s, _) => Play(m, s, inputs[1..])
      case Rejected => Play(mission, score, inputs[1..])
  }

  /** The score a new team holds on reaching each mission: 0, 30, 55 and 80. */
  function EntryScore(mission: int): (s: int)
    requires 1 <= mission <= 4
    ensures s >= 0
    ensures s == [0, 30, 55, 80][mission - 1]
  {
    if mission == 1 then 0 else EntryScore(mission - 1) + Reward[mission - 1]
  }

  /** The states a team can hold through its own submissions alone: before mission 4 the
      entry score exactly, on mission 4 the entry score plus 40 per accepted plan. */
  predicate Reachable(mission: int, score: int) {
    && 1 <= mission <= 4
    && score >= EntryScore(mission)
    && (score - EntryScore(mission)) % 40 == 0
    && (mission < 4 ==> score == EntryScore(mission))
  }

  lemma StepKeepsReachable(mission: int, score: int, input: Submission)
    requires Reachable(mission, score)
    ensures var o := Step(mission, score, input); o.Accepted? ==> Reachable(o.mission, o.score)
  {
  }

  /** Whatever a team submits, starting from a reachable state it stays in one. */
  lemma {:induction false} PlayKeepsReachable(mission: int, score: int, inputs: seq<Submission>)
    requires Reachable(mission, score)
    ensures Reachable(Play(mission, score, inputs).0, Play(mission, score, inputs).1)
    decreases |inputs|
  {
    if inputs != [] {
      StepKeepsReachable(mission, score, inputs[0]);
      match Step(mission, score, inputs[0])
      case Accepted(m, s, _) => PlayKeepsReachable(m, s, inputs[1..]);
      case Rejected => PlayKeepsReachable(mission, score, inputs[1..]);
    }
  }
}
