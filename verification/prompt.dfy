/** `_profile_to_prompt`: the text sent to the language model for a profile. */
module Prompt {
  import opened Common
  import opened Text
  import opened Tips

  function GoalsText(p: Profile): string {
    var g := Join(", ", p.goals);
    if g == "" then "unspecified goals" else g
  }

  function EquipmentText(p: Profile): string {
    var e := Join(", ", p.equipment);
    if e == "" then "no equipment" else e
  }

  function ScheduleText(p: Profile): string {
    if p.schedule.None? || p.schedule.value == "" then "unspecified schedule" else p.schedule.value
  }

  function ExperienceText(p: Profile): string {
    if p.experienceLevel.None? || p.experienceLevel.value == "" then "unspecified experience"
    else p.experienceLevel.value
  }

  const PromptInstructions :=
    "Provide 5 concise, actionable training tips tailored to the user."
    + " Focus on exercise selection, progression, recovery, and adherence."
    + " Use bullet points, 1 sentence each."

  /** One line of the profile block: `- {field}: {value}`. */
  function Line(field: string, value: string): string {
    "- " + field + ": " + value + "\n"
  }

  /** `_profile_to_prompt`: the profile block, a blank line, then the instructions. */
  function ProfileToPrompt(p: Profile): (r: string)
    ensures EndsWith(r, "\n\n" + PromptInstructions)
  {
    var x := Line("Experience", ExperienceText(p));
    BlockThenText("User profile:\n", Line("Goals", GoalsText(p)), Line("Schedule", ScheduleText(p)),
                  Line("Equipment", EquipmentText(p)), x, PromptInstructions);
    "User profile:\n" + (Line("Goals", GoalsText(p)) + (Line("Schedule", ScheduleText(p))
      + (Line("Equipment", EquipmentText(p)) + (x + ("\n" + PromptInstructions)))))
  }

  /** Lines ending in a newline, then a newline and a text: the text follows a blank line. */
  lemma BlockThenText(h: string, g: string, s: string, e: string, x: string, t: string)
    requires x != [] && x[|x| - 1] == '\n'
    ensures EndsWith(h + (g + (s + (e + (x + ("\n" + t))))), "\n\n" + t)
  {
    var tail := "\n\n" + t;
    var r4 := x + ("\n" + t);
    assert r4[|x| - 1..] == tail;
    EndsWithAfter(e, r4, tail);
    EndsWithAfter(s, e + r4, tail);
    EndsWithAfter(g, s + (e + r4), tail);
    EndsWithAfter(h, g + (s + (e + r4)), tail);
  }

  /** Each field appears on its own line of the prompt, after its label. */
  lemma PromptFields(p: Profile)
    ensures Contains(ProfileToPrompt(p), Line("Goals", GoalsText(p)))
    ensures Contains(ProfileToPrompt(p), Line("Schedule", ScheduleText(p)))
    ensures Contains(ProfileToPrompt(p), Line("Equipment", EquipmentText(p)))
    ensures Contains(ProfileToPrompt(p), Line("Experience", ExperienceText(p)))
  {
    var head := "User profile:\n";
    var g := Line("Goals", GoalsText(p));
    var s := Line("Schedule", ScheduleText(p));
    var e := Line("Equipment", EquipmentText(p));
    var x := Line("Experience", ExperienceText(p));
    var r4 := x + ("\n" + PromptInstructions);
    var r3 := e + r4;
    var r2 := s + r3;
    var r1 := g + r2;
    ContainsFront(x, "\n" + PromptInstructions);
    ContainsAfter(e, r4, x);
    ContainsAfter(s, r3, x);
    ContainsAfter(g, r2, x);
    ContainsAfter(head, r1, x);
    ContainsFront(e, r4);
    ContainsAfter(s, r3, e);
    ContainsAfter(g, r2, e);
    ContainsAfter(head, r1, e);
    ContainsFront(s, r3);
    ContainsAfter(g, r2, s);
    ContainsAfter(head, r1, s);
    ContainsFront(g, r2);
    ContainsAfter(head, r1, g);
  }

  /**
   * A list joins to the empty text, and is replaced by its placeholder, exactly when it is
   * empty or holds only the empty string; a missing or empty text is replaced by its
   * placeholder, any other is kept.
   */
  lemma PromptPlaceholders(p: Profile)
    ensures |p.goals| == 0 || (|p.goals| == 1 && p.goals[0] == "") ==> GoalsText(p) == "unspecified goals"
    ensures !(|p.goals| == 0 || (|p.goals| == 1 && p.goals[0] == "")) ==> GoalsText(p) == Join(", ", p.goals)
    ensures |p.equipment| == 0 || (|p.equipment| == 1 && p.equipment[0] == "") ==>
      EquipmentText(p) == "no equipment"
    ensures !(|p.equipment| == 0 || (|p.equipment| == 1 && p.equipment[0] == "")) ==>
      EquipmentText(p) == Join(", ", p.equipment)
    ensures p.schedule.None? || p.schedule == Some("") ==> ScheduleText(p) == "unspecified schedule"
    ensures p.schedule.Some? && p.schedule.value != "" ==> ScheduleText(p) == p.schedule.value
    ensures p.experienceLevel.None? || p.experienceLevel == Some("") ==>
      ExperienceText(p) == "unspecified experience"
    ensures p.experienceLevel.Some? && p.experienceLevel.value != "" ==>
      ExperienceText(p) == p.experienceLevel.value
  {
    JoinEmpty(", ", p.goals);
    JoinEmpty(", ", p.equipment);
  }
}
