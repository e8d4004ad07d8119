/** The survey session: the values kept in the session state and the button
    handlers that move it through start, instructions, the trial loop and the
    thank-you page. Each handler is a method; the clock's readings and the
    random choices are its parameters. */
module SurveyApp {
  import opened Text
  import opened Conditions
  import opened TrialPlan

  /** The page the session is on (the source's `step` string). */
  datatype Step = Start | Instructions | Survey | ThankYou

  /** One recorded trial, one row of the results sheet. */
  datatype Response = Response(
    username: string,
    trial: nat,
    color: string,
    distortion: string,
    timeSec: int,
    answer: string,
    timestamp: string,
    correct: bool)

  /** `r` is the record of trial number `trial`, showing `image`, for the
      participant `nickname`: its labels are those of the image's group and its
      correctness is that of its own answer in that group. */
  ghost predicate Describes(r: Response, trial: nat, image: string, nickname: string) {
    var group := GroupOf(image);
    && group != []
    && r.username == nickname
    && r.trial == trial
    && r.color == ColorLabel(group)
    && r.distortion == DistortionLabel(group)
    && r.correct == IsCorrect(group, r.answer)
  }

  /** The record appended by Submit for the trial at `index` (0-based). The
      source indexes the group's first character, so an image name with no
      group fails there. */
  function MakeResponse(nickname: string, index: nat, image: string, answer: string,
                        duration: int, timestamp: string): (r: Response)
    requires GroupOf(image) != []
    ensures Describes(r, index + 1, image, nickname)
    ensures r.answer == answer && r.timeSec == duration && r.timestamp == timestamp
  {
    var group := GroupOf(image);
    Response(nickname, index + 1, ColorLabel(group), DistortionLabel(group),
             duration, answer, timestamp, IsCorrect(group, answer))
  }

  /** Every response so far describes the image of its trial. */
  ghost predicate AllDescribed(responses: seq<Response>, images: seq<string>, nickname: string) {
    && |responses| <= |images|
    && forall i :: 0 <= i < |responses| ==> Describes(responses[i], i + 1, images[i], nickname)
  }

  /** Appending the record of the next trial keeps every response described. */
  lemma AppendDescribed(responses: seq<Response>, images: seq<string>, nickname: string, r: Response)
    requires AllDescribed(responses, images, nickname) && |responses| < |images|
    requires Describes(r, |responses| + 1, images[|responses|], nickname)
    ensures AllDescribed(responses + [r], images, nickname)
  {
    var after := responses + [r];
    forall i | 0 <= i < |after| ensures Describes(after[i], i + 1, images[i], nickname) {
      if i < |responses| {
        assert after[i] == responses[i];
      }
    }
  }

  /** The first `|responses|` records carry the stripped answers, the
      durations and the timestamps of the participant's inputs, trial by trial. */
  ghost predicate Records(responses: seq<Response>, answers: seq<string>, recognizedAt: seq<int>,
                          submittedAt: seq<int>, stamps: seq<string>)
  {
    && |responses| <= |answers| && |responses| <= |recognizedAt|
    && |responses| <= |submittedAt| && |responses| <= |stamps|
    && forall k :: 0 <= k < |responses| ==>
         && responses[k].answer == Strip(answers[k])
         && responses[k].timeSec == submittedAt[k] - recognizedAt[k]
         && responses[k].timestamp == stamps[k]
  }

  /** Appending the record of the next trial's inputs keeps the records in step with the inputs. */
  lemma AppendRecords(responses: seq<Response>, answers: seq<string>, recognizedAt: seq<int>,
                      submittedAt: seq<int>, stamps: seq<string>, r: Response)
    requires Records(responses, answers, recognizedAt, submittedAt, stamps)
    requires |responses| < |answers| && |responses| < |recognizedAt|
    requires |responses| < |submittedAt| && |responses| < |stamps|
    requires var n := |responses|;
             r.answer == Strip(answers[n]) && r.timeSec == submittedAt[n] - recognizedAt[n] &&
             r.timestamp == stamps[n]
    ensures Records(responses + [r], answers, recognizedAt, submittedAt, stamps)
  {
    var after := responses + [r];
    forall k | 0 <= k < |after|
      ensures after[k].answer == Strip(answers[k])
      ensures after[k].timeSec == submittedAt[k] - recognizedAt[k]
      ensures after[k].timestamp == stamps[k]
    {
      if k < |responses| {
        assert after[k] == responses[k];
      }
    }
  }

  class Session {
    var nickname: string
    var step: Step
    var images: seq<string>
    var responses: seq<Response>
    var currentIndex: nat
    var showInput: bool
    var startTime: int

    /** The session invariant: one response per completed trial; no plan
        before the survey and, from then on, twelve images, each with a
        non-empty group prefix; a stripped, non-blank nickname once past the
        start page; the answer phase only on a trial that exists; and the
        thank-you page only once every trial is answered. */
    ghost predicate Valid()
      reads this
    {
      && |responses| == currentIndex <= |images|
      && (step == Start || step == Instructions ==> images == [] && !showInput)
      && (step != Start ==> nickname != [] && Strip(nickname) == nickname)
      && (step == Survey || step == ThankYou ==> |images| == 2 * |GroupPrefixes|)
      && (forall i :: 0 <= i < |images| ==> GroupOf(images[i]) != [])
      && (showInput ==> step == Survey && currentIndex < |images|)
      && (step == ThankYou ==> currentIndex == |images|)
    }

    /** The session state as first created. */
    constructor ()
      ensures Valid()
      ensures nickname == [] && step == Start && images == [] && responses == []
      ensures currentIndex == 0 && !showInput && startTime == 0
    {
      nickname := [];
      step := Start;
      images := [];
      responses := [];
      currentIndex := 0;
      showInput := false;
      startTime := 0;
    }

    /** "Start Survey" with `typed` in the nickname box. A blank nickname is
        refused and nothing changes; otherwise the stripped nickname is kept
        and the instructions follow. */
    method PressStart(typed: string) returns (accepted: bool)
      requires Valid() && step == Start
      modifies this
      ensures Valid()
      ensures accepted <==> !AllSpace(typed)
      ensures accepted ==> nickname == Strip(typed) && step == Instructions
      ensures !accepted ==> nickname == old(nickname) && step == Start
      ensures images == old(images) && responses == old(responses)
      ensures currentIndex == old(currentIndex) && showInput == old(showInput)
      ensures startTime == old(startTime)
    {
      var name := Strip(typed);
      if name == [] {
        accepted := false;
      } else {
        StripIdempotent(typed);
        nickname := name;
        step := Instructions;
        accepted := true;
      }
    }

    /** "Begin Survey": the trial plan is drawn and the survey starts. */
    method PressBegin(picks: seq<Pick>, draws: seq<nat>)
      requires Valid() && step == Instructions
      requires ValidPicks(picks) && ValidDraws(draws, 2 * |GroupPrefixes|)
      modifies this
      ensures Valid() && step == Survey && IsPlan(images)
      ensures multiset(images) == multiset(Selected(picks, |GroupPrefixes|))
      ensures nickname == old(nickname) && responses == old(responses)
      ensures currentIndex == old(currentIndex) && showInput == old(showInput)
      ensures startTime == old(startTime)
    {
      images := LoadImages(picks, draws);
      step := Survey;
      forall i | 0 <= i < |images| ensures GroupOf(images[i]) != [] {
        assert InPool(images[i]);
      }
    }

    /** The check made on every showing of the survey page: once the index has
        passed the last image, the session moves to the thank-you page, where
        every trial of the plan has exactly one response. */
    method FinishIfDone()
      requires Valid() && step == Survey
      modifies this
      ensures Valid()
      ensures step == if old(currentIndex) >= |images| then ThankYou else Survey
      ensures step == ThankYou ==> |responses| == |images| == 2 * |GroupPrefixes|
      ensures nickname == old(nickname) && images == old(images)
      ensures responses == old(responses) && currentIndex == old(currentIndex)
      ensures showInput == old(showInput) && startTime == old(startTime)
    {
      if currentIndex >= |images| {
        step := ThankYou;
      }
    }

    /** "I Recognized It!", shown while the answer box is hidden: the clock
        reading `now` starts the trial's timer and the answer box opens. */
    method PressRecognized(now: int)
      requires Valid() && step == Survey && currentIndex < |images| && !showInput
      modifies this
      ensures Valid()
      ensures showInput && startTime == now
      ensures nickname == old(nickname) && step == old(step) && images == old(images)
      ensures responses == old(responses) && currentIndex == old(currentIndex)
    {
      startTime := now;
      showInput := true;
    }

    /** "Submit Answer" with `typed` in the answer box, at clock reading `now`:
        exactly one record is appended for the current image, the earlier ones
        are kept, the index moves on by one and the answer box closes. */
    method PressSubmit(typed: string, now: int, timestamp: string)
      requires Valid() && step == Survey && showInput
      modifies this
      ensures Valid()
      ensures currentIndex == old(currentIndex) + 1 && !showInput
      ensures nickname == old(nickname) && step == old(step) && images == old(images)
      ensures startTime == old(startTime)
      ensures responses == old(responses) +
                [MakeResponse(nickname, old(currentIndex), images[old(currentIndex)],
                              Strip(typed), now - old(startTime), timestamp)]
    {
      var answer := Strip(typed);
      var image := images[currentIndex];
      var record := MakeResponse(nickname, currentIndex, image, answer, now - startTime, timestamp);
      responses := responses + [record];
      currentIndex := currentIndex + 1;
      showInput := false;
    }
  }

  /** A participant's whole visit: a nickname that is not blank, Begin, then
      for each of the twelve trials "I Recognized It!" at `recognizedAt[i]` and
      "Submit Answer" with `answers[i]` at `submittedAt[i]`. The session ends
      on the thank-you page with one response per image, in plan order,
      numbered 1 to 12, each classified by its image's group and marked
      correct exactly when its stripped answer is. */
  method RunSession(typedNickname: string, picks: seq<Pick>, draws: seq<nat>,
                    answers: seq<string>, recognizedAt: seq<int>, submittedAt: seq<int>,
                    stamps: seq<string>)
    returns (finalStep: Step, images: seq<string>, responses: seq<Response>)
    requires !AllSpace(typedNickname)
    requires ValidPicks(picks) && ValidDraws(draws, 2 * |GroupPrefixes|)
    requires |answers| == |recognizedAt| == |submittedAt| == |stamps| == 2 * |GroupPrefixes|
    ensures finalStep == ThankYou
    ensures IsPlan(images) && multiset(images) == multiset(Selected(picks, |GroupPrefixes|))
    ensures |responses| == |images| && AllDescribed(responses, images, Strip(typedNickname))
    ensures Records(responses, answers, recognizedAt, submittedAt, stamps)
  {
    var s := new Session();
    var accepted := s.PressStart(typedNickname);
    assert accepted;
    s.PressBegin(picks, draws);
    var plan := s.images;
    for i := 0 to |plan|
      invariant s.Valid() && s.step == Survey && !s.showInput
      invariant s.currentIndex == i && s.images == plan
      invariant s.nickname == Strip(typedNickname)
      invariant AllDescribed(s.responses, plan, s.nickname)
      invariant Records(s.responses, answers, recognizedAt, submittedAt, stamps)
    {
      ghost var before := s.responses;
      s.FinishIfDone();
      s.PressRecognized(recognizedAt[i]);
      s.PressSubmit(answers[i], submittedAt[i], stamps[i]);
      AppendDescribed(before, plan, s.nickname, s.responses[i]);
      AppendRecords(before, answers, recognizedAt, submittedAt, stamps, s.responses[i]);
    }
    s.FinishIfDone();
    finalStep, images, responses := s.step, s.images, s.responses;
  }
}
