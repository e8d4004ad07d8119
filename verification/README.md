# STAT 332 survey: a Dafny model of its session logic

The STAT 332 experiment is a small Streamlit survey (`streamlit_app.py`). It shows
each participant twelve images of distorted verification codes. The participant
acknowledges each image, types the code, and the survey records one row per image:
nickname, trial number, Color and Distortion labels, time taken, answer, timestamp
and whether the answer was correct.

This project models the logic that sits under the widgets:

- `text.dfy` (module `Text`): the string operations applied to typed text.
  These are Python's `str.strip()` (with Python's whitespace set), `str.upper()`
  and `str.replace(" ", "")`, and the answer normalisation built from the last two.
- `conditions.dfy` (module `Conditions`): the fixed tables `group_prefixes` and
  `valid_answers`, and the pure classification of one trial. That covers the group
  taken from a file name, the Color and Distortion labels, and whether an answer
  is correct.
- `trial_plan.dfy` (module `TrialPlan`): `load_images`. The loop over the six
  groups takes two images per group and extends `all_images`. Then the list is
  shuffled in place on an array by CPython's Fisher–Yates loop.
  `random.sample` is replaced by a caller-supplied `Pick` per group (two different
  image numbers in 1..6). `random.shuffle`'s random indices are replaced by
  caller-supplied `draws` (`draws[i]` in `0..i`).
- `survey_app.dfy` (module `SurveyApp`): the session state as a class `Session`
  with the fields `nickname`, `step`, `images`, `responses`, `currentIndex`,
  `showInput` and `startTime`. It has one method per button handler, and a
  client `RunSession` that drives one participant through all twelve trials.
  Clock readings are integer parameters (`now`). The formatted timestamp is an
  opaque string parameter.

A handler requires the step on which the app draws its button (Start only on the
start page, and so on). The source cannot call it anywhere else.

Three consequences of the code that a reader may not expect, all kept in the model:

- Normalisation removes only the space character `' '` inside an answer
  (`replace(" ", "")`). Other whitespace goes only at the ends (`strip()`), so a
  tab or a non-breaking space inside an answer is kept, and such an answer is
  never correct (`Conditions.InnerTabExample`).
- `Time_sec` is the difference of two wall-clock readings. Nothing makes it
  non-negative, so the model does not claim that it is.
- The thank-you page saves on every showing of that page. It does not save
  exactly once.

## Model

| member | source | states |
|---|---|---|
| Text.IsSpace | streamlit_app.py:58 | the whitespace set that `strip()` removes: Python's `str.isspace` characters (tab to carriage return, U+001C..U+001F, space, U+0085, U+00A0 and the Unicode space separators) |
| Text.Strip | streamlit_app.py:58 | `strip()` gives a blank result exactly when every character is whitespace; otherwise the result starts and ends with a non-space |
| Text.StripIsInfix | streamlit_app.py:104 | what `strip()` keeps is a contiguous middle part of the input, and what it cuts off on both sides is whitespace |
| Text.StripIdempotent | streamlit_app.py:61 | stripping twice equals stripping once, so the stored nickname and the recorded answer are already stripped |
| Text.UpperChar | streamlit_app.py:117 | an upper-cased character is never a lower-case letter; `a`..`z` move to `A`..`Z` and every other character is left unchanged |
| Text.Upper | streamlit_app.py:117 | `upper()` keeps the length and upper-cases each position on its own |
| Text.RemoveSpaces | streamlit_app.py:117 | `replace(" ", "")` keeps exactly the non-space characters; the result is shorter exactly when the input had a space |
| Text.RemoveSpacesAppend | streamlit_app.py:117 | removing spaces works piece by piece, so the kept characters stay in their order |
| Text.Normalize | streamlit_app.py:117 | a normalised answer has no space and no lower-case letter, and is no longer than the input |
| Text.NormalizeFixpoint | streamlit_app.py:117 | normalisation leaves a string unchanged exactly when it has no space and no lower-case letter |
| Text.NormalizeIdempotent | streamlit_app.py:117 | normalising twice equals normalising once |
| Conditions.GroupPrefixes | streamlit_app.py:12 | the six condition groups `MCCD`, `MCND`, `MCSD`, `NCCD`, `NCND`, `NCSD`, in the order the loop visits them |
| Conditions.ValidAnswers | streamlit_app.py:15-22 | the six codes accepted for each group, as in the `valid_answers` table |
| Conditions.DistortionMap | streamlit_app.py:114 | `ND`, `SD` and `CD` map to None, Simple and Complex |
| Conditions.GroupOf | streamlit_app.py:111 | `filename[:4]` is a prefix of the name: four characters long, or the whole name when the name is shorter |
| Conditions.ColorLabel | streamlit_app.py:112 | the label is "Color" exactly when the group starts with `M`, and "NoColor" exactly when it does not |
| Conditions.DistortionCode | streamlit_app.py:113 | `group[2:]` is the group's suffix after its first two characters: two characters shorter than the group, or empty for a group shorter than two |
| Conditions.DistortionLabel | streamlit_app.py:114-115 | `distortion_map.get(dist_code, "Unknown")`: the table lookup with the Unknown default; its cases are the contract of `DistortionLabelCases` |
| Conditions.DistortionLabelCases | streamlit_app.py:113-115 | suffix `ND` gives None, `SD` gives Simple, `CD` gives Complex, and any other suffix gives Unknown, never a failure (each case both ways) |
| Conditions.AcceptedCodes | streamlit_app.py:118 | `valid_answers.get(group, [])` is empty for a group missing from the table |
| Conditions.IsCorrect | streamlit_app.py:118 | an answer can only be correct in a group that has an entry in the table |
| Conditions.CodesAreNormal | streamlit_app.py:15-22 | every accepted code has four characters, no space and no lower-case letter |
| Conditions.AcceptedCodeIsCorrect | streamlit_app.py:118 | each accepted code, typed exactly, is correct in its own group |
| Conditions.IsCorrectIgnoresCaseAndSpaces | streamlit_app.py:117-118 | an answer is correct exactly when its normalised form is correct |
| Conditions.IsCorrectRejects | streamlit_app.py:118 | an empty or all-space answer, or any answer in a group missing from the table, is incorrect |
| Conditions.AllSpacesNormalizeToEmpty | streamlit_app.py:117 | an answer made only of spaces normalises to the empty string |
| Conditions.GroupTable | streamlit_app.py:12-22 | the six group prefixes are distinct and four characters long, each has an entry in the answer table, and the table keys are exactly the groups |
| Conditions.GroupsAreDistinctConditions | streamlit_app.py:12-22 | no group gets the Unknown distortion, and no two groups share a (Color, Distortion) pair |
| Conditions.AcceptedExample | streamlit_app.py:104-118 | `" r5 um "` strips to `"r5 um"`, normalises to `"R5UM"` and is correct in `MCND` |
| Conditions.RejectedExample | streamlit_app.py:117-118 | `"r5um1"` normalises to `"R5UM1"` and is incorrect in `MCND` |
| Conditions.InnerTabExample | streamlit_app.py:104-118 | `"r5\tum"` keeps its inner tab through `strip()` and normalisation (`"R5\tUM"`), so it is incorrect in `MCND` |
| Conditions.TrialExample | streamlit_app.py:111-118 | `MCCD` is Color and Complex, and `"q2bt"` normalises to `"Q2BT"`, which is correct there |
| TrialPlan.ImageName | streamlit_app.py:29 | `f"{prefix}{i}.jpg"` begins with the prefix, so its group is the prefix |
| TrialPlan.ImageNameInjective | streamlit_app.py:29 | two image names are equal only for the same prefix and the same number |
| TrialPlan.Pool | streamlit_app.py:29 | a group's pool holds six images, numbers 1 to 6 in order |
| TrialPlan.Selected | streamlit_app.py:28-31 | after `k` rounds of the loop, `all_images` holds `2k` images |
| TrialPlan.SelectedAt | streamlit_app.py:28-31 | positions `2g` and `2g+1` of the unshuffled list hold the first and second image picked for group `g` |
| TrialPlan.CountGroup | streamlit_app.py:28-31 | the number of images of a group is at most the length of the list |
| TrialPlan.CountGroupAppend | streamlit_app.py:31 | the group counts of two concatenated lists add up |
| TrialPlan.CountGroupPermutation | streamlit_app.py:32 | reordering a list leaves every group's count unchanged |
| TrialPlan.CountSelected | streamlit_app.py:28-31 | after `k` rounds, each of the first `k` groups has exactly two images and every other group has none |
| TrialPlan.DistinctPermutation | streamlit_app.py:32 | reordering a list without repeats gives a list without repeats |
| TrialPlan.SelectedIsPlan | streamlit_app.py:28-31 | for any valid picks, the unshuffled list is a trial plan: 12 images, no repeats, each from its group's pool, two per group |
| TrialPlan.PlanPermutation | streamlit_app.py:32 | any reordering of a trial plan is a trial plan |
| TrialPlan.Swap | streamlit_app.py:32 | exchanging two positions only reorders the list |
| TrialPlan.FisherYates | streamlit_app.py:32 | the list `random.shuffle` produces from the caller's draws is a permutation of its input |
| TrialPlan.Shuffle | streamlit_app.py:32 | the in-place loop swaps position `i` with `draws[i]` for `i` from the last position down to 1; the array ends as `FisherYates` of its old contents, a permutation of them |
| TrialPlan.LoadImages | streamlit_app.py:25-33 | the result holds exactly the picked images (same multiset) and is a trial plan: 12 entries, each group exactly twice, two different numbers in 1..6 per group |
| SurveyApp.MakeResponse | streamlit_app.py:110-129 | the appended record has the trial number `index + 1`, the participant's nickname, its image group's Color and Distortion labels, and a correctness flag that matches its own answer in that group |
| SurveyApp.AppendDescribed | streamlit_app.py:120-129 | appending the next trial's record keeps every record matched to its image |
| SurveyApp.AppendRecords | streamlit_app.py:120-129 | appending the record of the next trial keeps each record's answer, `Time_sec` and timestamp equal to that trial's stripped input, clock difference and timestamp |
| SurveyApp.Session.constructor | streamlit_app.py:36-47 | a new session is on the start page with an empty nickname, no images, no responses, index 0, no answer box and start time 0 |
| SurveyApp.Session.PressStart | streamlit_app.py:57-63 | a blank nickname is refused and nothing changes; otherwise the stripped nickname is stored and the step becomes instructions; the session invariant is kept |
| SurveyApp.Session.PressBegin | streamlit_app.py:78-81 | the loaded images form a trial plan made of the picked images, and the step becomes survey; nothing else changes |
| SurveyApp.Session.FinishIfDone | streamlit_app.py:88-90 | the step becomes thankyou exactly when the index has reached the end of the plan; on the thank-you page there are as many responses as images (12) |
| SurveyApp.Session.PressRecognized | streamlit_app.py:98-102 | only while the answer box is hidden: it opens the box and sets the start time to `now`; nothing else changes |
| SurveyApp.Session.PressSubmit | streamlit_app.py:104-133 | exactly one record is appended for the current image: trial `index + 1`, stripped answer, `now - start_time`. Earlier records are unchanged, the index goes up by one, the answer box closes, and `|responses| == current_index <= |images|` still holds |
| SurveyApp.RunSession | streamlit_app.py:49-133 | a participant who enters a non-blank nickname and answers all trials ends on the thank-you page with one response per image, in plan order, numbered 1 to 12. Each response is classified by its image's group and marked correct exactly when its stripped answer is correct there |

## Left out

- Streamlit rendering and widgets (`st.title`, `st.image`, `st.text_input`, `st.button`, `st.rerun`, page config, the image caption): the model has no UI. Its handlers are the state changes that the re-render loop triggers.
- The thank-you page's save to `survey_results.xlsx` (streamlit_app.py:136-151): pandas and file-system I/O. Because it runs on every showing of that page, no save-once property is claimed.
- `os.path.join` and `os.path.basename` (streamlit_app.py:31, 110): plan entries are bare file names such as `MCCD3.jpg`, so the directory is never added and never removed.
- The distribution of `random.sample` and `random.shuffle`: only their structural result is modelled, through the caller's picks and draws.
- `datetime.now().strftime(...)` (streamlit_app.py:127): the timestamp is an opaque string parameter.
- SurveyApp.Session.PressSubmit: records `Time_sec` as the integer difference of two integer clock readings. It does not model `time.time()`'s floating-point seconds or `round(..., 2)`, and it does not claim the duration is non-negative.
- Text.UpperChar: upper-cases only the ASCII letters `a`..`z`. Python's `str.upper()` also maps non-ASCII letters, some of them to several characters (`ß` to `SS`); that mapping is not modelled.
- SurveyApp.Session.Valid keeps only the structural facts: counts, pages, twelve images each with a non-empty group prefix, a stripped nickname. It leaves out two facts, to keep each handler's proof small. The trial-plan property, which also says that each image comes from one of the six groups' pools, is ensured by `PressBegin`, and every later handler leaves `images` unchanged. That each response matches its image is carried by the exact record that `PressSubmit` ensures, and `RunSession` proves it for a whole visit.
- `show_input` is created lazily on the first showing of the survey page (streamlit_app.py:95-96). The model creates it as `false` together with the other fields, and the app behaves the same way.
