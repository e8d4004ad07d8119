/** The experiment's fixed tables and the classification of one trial: which
    condition group an image belongs to, its Color and Distortion labels, and
    whether a typed answer is correct. */
module Conditions {
  import opened Text

  /** The six condition groups: Color (`M`) or NoColor (`N`), then the
      distortion level `CD`, `ND` or `SD`. */
  const GroupPrefixes: seq<string> := ["MCCD", "MCND", "MCSD", "NCCD", "NCND", "NCSD"]

  /** The codes shown in each group's six images, as the participant should type them. */
  const ValidAnswers: map<string, seq<string>> := map[
    "MCND" := ["R5UM", "X4GE", "H2KD", "P7CQ", "6TVA", "D8YR"],
    "MCSD" := ["N8QJ", "S4VA", "E9DX", "T3KM", "J5NZ", "V6RC"],
    "MCCD" := ["Q2BT", "G7MW", "U8FX", "A9CJ", "M4KP", "X6DN"],
    "NCND" := ["A7KQ", "M9TX", "8ZRD", "V3NC", "F6JP", "2WBY"],
    "NCSD" := ["K3BN", "Z9MU", "B5FX", "Y2GW", "C6TR", "W7HP"],
    "NCCD" := ["F3YV", "B7QA", "Z5HW", "H6GT", "R2NX", "Y8PC"]
  ]

  /** Distortion suffix to label. */
  const DistortionMap: map<string, string> := map["ND" := "None", "SD" := "Simple", "CD" := "Complex"]

  /** `filename[:4]`: the first four characters, or the whole name when shorter. */
  function GroupOf(filename: string): (g: string)
    ensures g <= filename
    ensures |g| == if |filename| < 4 then |filename| else 4
  {
    if |filename| < 4 then filename else filename[..4]
  }

  /** `"Color" if group[0] == "M" else "NoColor"`; indexing an empty group
      fails in the source, hence the precondition. */
  function ColorLabel(group: string): (name: string)
    requires group != []
    ensures name == "Color" <==> group[0] == 'M'
    ensures name == "NoColor" <==> group[0] != 'M'
  {
    if group[0] == 'M' then "Color" else "NoColor"
  }

  /** `group[2:]`: the group's suffix after its first two characters, empty
      for a group shorter than two characters. */
  function DistortionCode(group: string): (code: string)
    ensures |code| == if |group| < 2 then 0 else |group| - 2
    ensures code == group[|group| - |code|..]
  {
    if |group| < 2 then [] else group[2..]
  }

  /** `distortion_map.get(group[2:], "Unknown")`. */
  function DistortionLabel(group: string): string {
    var code := DistortionCode(group);
    if code in DistortionMap then DistortionMap[code] else "Unknown"
  }

  /** Every suffix gets a label, never a failure: `ND`, `SD` and `CD` give
      None, Simple and Complex, and any other suffix gives Unknown. */
  lemma DistortionLabelCases(group: string)
    ensures DistortionLabel(group) == "None" <==> DistortionCode(group) == "ND"
    ensures DistortionLabel(group) == "Simple" <==> DistortionCode(group) == "SD"
    ensures DistortionLabel(group) == "Complex" <==> DistortionCode(group) == "CD"
    ensures DistortionLabel(group) == "Unknown" <==> DistortionCode(group) !in {"ND", "SD", "CD"}
  {
  }

  /** `valid_answers.get(group, [])`. */
  function AcceptedCodes(group: string): (codes: seq<string>)
    ensures group !in ValidAnswers ==> codes == []
  {
    if group in ValidAnswers then ValidAnswers[group] else []
  }

  /** `normalized in valid_answers.get(group, [])`, for an answer already stripped. */
  function IsCorrect(group: string, answer: string): (correct: bool)
    ensures correct ==> group in ValidAnswers
  {
    Normalize(answer) in AcceptedCodes(group)
  }

  /** Every accepted code is four characters with no space and no lower-case letter. */
  lemma CodesAreNormal()
    ensures forall g, code :: g in ValidAnswers && code in ValidAnswers[g] ==>
                                |code| == 4 && IsNormal(code)
  {
    forall g, code | g in ValidAnswers && code in ValidAnswers[g]
      ensures |code| == 4 && IsNormal(code)
    {
      assert g in {"MCND", "MCSD", "MCCD", "NCND", "NCSD", "NCCD"};
    }
  }

  /** Each accepted code, typed exactly, is marked correct in its own group. */
  lemma AcceptedCodeIsCorrect(group: string, code: string)
    requires group in ValidAnswers && code in ValidAnswers[group]
    ensures IsCorrect(group, code)
  {
    CodesAreNormal();
    NormalizeFixpoint(code);
  }

  /** Case and spaces do not matter: an answer is correct exactly when its
      normalised form is. */
  lemma IsCorrectIgnoresCaseAndSpaces(group: string, answer: string)
    ensures IsCorrect(group, answer) == IsCorrect(group, Normalize(answer))
  {
    NormalizeIdempotent(answer);
  }

  /** An empty answer, an answer of spaces only, or a group missing from the
      table is never correct. */
  lemma IsCorrectRejects(group: string, answer: string)
    requires group !in ValidAnswers || forall k :: 0 <= k < |answer| ==> answer[k] == ' '
    ensures !IsCorrect(group, answer)
  {
    if group in ValidAnswers {
      AllSpacesNormalizeToEmpty(answer);
    }
  }

  lemma {:induction false} AllSpacesNormalizeToEmpty(s: string)
    requires forall k :: 0 <= k < |s| ==> s[k] == ' '
    ensures Normalize(s) == []
  {
    if s != [] {
      var u := Upper(s);
      assert u == [' '] + Upper(s[1..]);
      AllSpacesNormalizeToEmpty(s[1..]);
    }
  }

  /** The six group prefixes are distinct, four characters long, and exactly
      the keys of the answer table. */
  lemma GroupTable()
    ensures forall i :: 0 <= i < |GroupPrefixes| ==>
              GroupPrefixes[i] in ValidAnswers && |GroupPrefixes[i]| == 4
    ensures forall i, j :: 0 <= i < j < |GroupPrefixes| ==> GroupPrefixes[i] != GroupPrefixes[j]
    ensures forall g :: g in ValidAnswers <==> g in GroupPrefixes
  {
  }

  /** The labels are a faithful code for the groups: no group gets the Unknown
      distortion, and no two groups share the same (Color, Distortion) pair. */
  lemma GroupsAreDistinctConditions()
    ensures forall i :: 0 <= i < |GroupPrefixes| ==> DistortionLabel(GroupPrefixes[i]) != "Unknown"
    ensures forall i, j :: 0 <= i < j < |GroupPrefixes| ==>
              (ColorLabel(GroupPrefixes[i]), DistortionLabel(GroupPrefixes[i])) !=
              (ColorLabel(GroupPrefixes[j]), DistortionLabel(GroupPrefixes[j]))
  {
  }

  lemma StripsToR5Um(typed: string)
    requires typed == " r5 um "
    ensures Strip(typed) == "r5 um"
  {
    assert LeadingSpaces(typed) == 1 && TrailingSpaces(typed) == 1;
  }

  lemma NormalizesToR5Um(a: string)
    requires a == "r5 um"
    ensures Normalize(a) == "R5UM"
  {
    var u := Upper(a);
    assert u[0] == 'R' && u[1] == '5' && u[2] == ' ' && u[3] == 'U' && u[4] == 'M';
    assert u == "R5" + " " + "UM";
    RemoveSpacesAppend("R5" + " ", "UM");
    RemoveSpacesAppend("R5", " ");
    RemoveSpacesOfSpaceless("R5");
    RemoveSpacesOfSpaceless("UM");
  }

  /** The worked answer in group `MCND`: `" r5 um "`, stripped to `"r5 um"`,
      normalises to `"R5UM"` and is correct. */
  lemma AcceptedExample(typed: string)
    requires typed == " r5 um "
    ensures Strip(typed) == "r5 um" && Normalize(Strip(typed)) == "R5UM"
    ensures IsCorrect("MCND", Strip(typed))
  {
    StripsToR5Um(typed);
    NormalizesToR5Um(Strip(typed));
  }

  /** The rejected answer in group `MCND`: `"r5um1"` has a character too many. */
  lemma RejectedExample(typed: string)
    requires typed == "r5um1"
    ensures Strip(typed) == typed && Normalize(typed) == "R5UM1"
    ensures !IsCorrect("MCND", Strip(typed))
  {
    assert LeadingSpaces(typed) == 0 && TrailingSpaces(typed) == 0;
    var u := Upper(typed);
    assert u[0] == 'R' && u[1] == '5' && u[2] == 'U' && u[3] == 'M' && u[4] == '1';
    assert u == "R5UM1";
    RemoveSpacesOfSpaceless(u);
    CodesAreNormal();
  }

  /** Only the space character is removed inside an answer: `"r5\tum"` keeps
      its tab through stripping and normalisation, so it is not correct in
      `MCND` although `"r5 um"` is. */
  lemma InnerTabExample(typed: string)
    requires typed == "r5\tum"
    ensures Strip(typed) == typed && Normalize(typed) == "R5\tUM"
    ensures !IsCorrect("MCND", Strip(typed))
  {
    assert LeadingSpaces(typed) == 0 && TrailingSpaces(typed) == 0;
    var u := Upper(typed);
    assert u[0] == 'R' && u[1] == '5' && u[2] == '\t' && u[3] == 'U' && u[4] == 'M';
    assert u == "R5\tUM";
    RemoveSpacesOfSpaceless(u);
    CodesAreNormal();
  }

  /** The worked trial: group `MCCD` is Color and Complex, and `"q2bt"`
      normalises to `"Q2BT"`, which is correct there. */
  lemma TrialExample(answer: string)
    requires answer == "q2bt"
    ensures ColorLabel("MCCD") == "Color" && DistortionLabel("MCCD") == "Complex"
    ensures Normalize(answer) == "Q2BT" && IsCorrect("MCCD", answer)
  {
    var u := Upper(answer);
    assert u[0] == 'Q' && u[1] == '2' && u[2] == 'B' && u[3] == 'T';
    assert u == "Q2BT";
    RemoveSpacesOfSpaceless(u);
    assert "MCCD"[2..] == "CD";
  }
}
