/** The standalone prototype endpoint (`app/rrTEST_V1.py`): the same loop over submissions,
    but the grade is read from the model's own reply, `float` of group 1 of the first
    `<SCORE>D1/D2</SCORE>`, and the whole reply is stored as the feedback.

    Its prompt is built with an HTML-to-text converter and float formatting, both foreign to
    the model, so the prompt of each submission is an input function here. */
module PrototypeService {
  import opened Wrappers
  import opened ModelClient
  import opened ScoreParser
  import opened Feedback

  /** One iteration: call the model, then read the grade out of its reply. */
  function GradeOne(endpoint: Endpoint, prompt: Submission -> string, k: nat, s: Submission)
    : Result<Graded, GradingError>
  {
    match Generate(endpoint(k, prompt(s)))
    case Err(e) => Err(ModelCall(e))
    case Ok(text) =>
      match ExtractGrade(text)
      case Err(_) => Err(ScoreMissing)
      case Ok(grade) => Ok(Graded(grade, text))
  }

  function Grading(endpoint: Endpoint, prompt: Submission -> string): Grader
  {
    (k: nat, s: Submission) => GradeOne(endpoint, prompt, k, s)
  }

  /** `generate_grading_feedback` of the prototype: the loop that fills `feedback_response`. */
  method GenerateGradingFeedback(dto: GradingRequest, endpoint: Endpoint, prompt: Submission -> string)
    returns (r: Result<map<int, GradingFeedback>, GradingError>)
    ensures r == Assemble(dto.submissions, Grading(endpoint, prompt))
  {
    var feedbackResponse: map<int, GradingFeedback> := map[];
    var i := 0;
    while i < |dto.submissions|
      invariant 0 <= i <= |dto.submissions|
      invariant Assemble(dto.submissions, Grading(endpoint, prompt))
             == Fill(feedbackResponse, dto.submissions, i, Grading(endpoint, prompt))
    {
      var submission := dto.submissions[i];
      var feedback := CallOllamaApi(endpoint(i, prompt(submission)));
      if feedback.Err? {
        return Err(ModelCall(feedback.error));
      }
      var matchGrade := ExtractGrade(feedback.value);
      if matchGrade.Err? {
        return Err(ScoreMissing);
      }
      feedbackResponse := feedbackResponse[submission.id := GradingFeedback(submission.id, matchGrade.value, feedback.value)];
      i := i + 1;
    }
    r := Ok(feedbackResponse);
  }

  // ---------------------------------------------------------------------------------------
  // What the prototype promises.

  /** A map comes back exactly when every call returns a reply with a score in it. Then it
      has one entry per distinct id, under that id, and the entry of the last submission with
      an id holds that reply whole (not only the text between the feedback tags) and, as its
      grade, the value of group 1 of the reply's leftmost score tag. */
  lemma PrototypeResult(dto: GradingRequest, endpoint: Endpoint, prompt: Submission -> string)
    ensures var r := Assemble(dto.submissions, Grading(endpoint, prompt));
      && (r.Ok? <==> forall k :: 0 <= k < |dto.submissions| ==>
            var reply := Generate(endpoint(k, prompt(dto.submissions[k])));
            reply.Ok? && FindScore(reply.value).Some?)
      && (r.Ok? ==> r.value.Keys == Ids(dto.submissions))
      && (r.Ok? ==> forall id :: id in r.value ==> r.value[id].submissionId == id)
      && (r.Ok? ==> forall k :: 0 <= k < |dto.submissions| && IsLast(dto.submissions, k) ==>
            var text := Generate(endpoint(k, prompt(dto.submissions[k]))).value;
            && FindScore(text).Some?
            && WellFormed(FindScore(text).value.grade)
            && r.value[dto.submissions[k].id]
               == GradingFeedback(dto.submissions[k].id, Value(FindScore(text).value.grade), text))
  {
    var subs, grade := dto.submissions, Grading(endpoint, prompt);
    AllOrNothing(subs, grade);
    forall k | 0 <= k < |subs|
      ensures grade(k, subs[k]).Ok? <==>
        var reply := Generate(endpoint(k, prompt(subs[k])));
        reply.Ok? && FindScore(reply.value).Some?
    {
      var reply := Generate(endpoint(k, prompt(subs[k])));
      if reply.Ok? {
        FindScoreLeftmost(reply.value);
      }
    }
    if Assemble(subs, grade).Ok? {
      ResultMap(subs, grade);
      forall k | 0 <= k < |subs| && IsLast(subs, k)
        ensures var text := Generate(endpoint(k, prompt(subs[k]))).value;
          && FindScore(text).Some?
          && WellFormed(FindScore(text).value.grade)
          && Assemble(subs, grade).value[subs[k].id]
             == GradingFeedback(subs[k].id, Value(FindScore(text).value.grade), text)
      {
        FindScoreLeftmost(Generate(endpoint(k, prompt(subs[k]))).value);
      }
    }
  }

  /** A reply without a score tag fails the whole run: the first such reply, after calls that
      all returned scored replies, decides the exception. */
  lemma MissingScoreAborts(dto: GradingRequest, endpoint: Endpoint, prompt: Submission -> string, k: nat)
    requires k < |dto.submissions|
    requires forall j :: 0 <= j < k ==>
      var reply := Generate(endpoint(j, prompt(dto.submissions[j])));
      reply.Ok? && FindScore(reply.value).Some?
    requires Generate(endpoint(k, prompt(dto.submissions[k]))).Ok?
    requires forall i: nat, a, b :: !MatchesAt(Generate(endpoint(k, prompt(dto.submissions[k]))).value, i, a, b)
    ensures Assemble(dto.submissions, Grading(endpoint, prompt)) == Err(ScoreMissing)
  {
    var subs, grade := dto.submissions, Grading(endpoint, prompt);
    NoScoreRaises(Generate(endpoint(k, prompt(subs[k]))).value);
    FirstFailureWins(subs, grade, k);
  }

  /** An empty stream yields the fallback text, which holds no score, so a run in which some
      call streams nothing fails even when every earlier call was graded. */
  lemma EmptyStreamFailsRun(dto: GradingRequest, endpoint: Endpoint, prompt: Submission -> string, k: nat)
    requires k < |dto.submissions|
    requires forall j :: 0 <= j < k ==>
      var reply := Generate(endpoint(j, prompt(dto.submissions[j])));
      reply.Ok? && FindScore(reply.value).Some?
    requires endpoint(k, prompt(dto.submissions[k])) == Reply(OkStatus, [])
    ensures Assemble(dto.submissions, Grading(endpoint, prompt)) == Err(ScoreMissing)
  {
    EmptyStreamFallback([]);
    FallbackHasNoScore();
    FirstFailureWins(dto.submissions, Grading(endpoint, prompt), k);
  }

  /** One submission whose model streams `<FEEDBACK>Good answer<FEEDBACK><SCORE>8/10</SCORE>`
      in a single line gets grade 8 and that whole text as feedback. */
  lemma GoodAnswerScenario(sub: Submission, endpoint: Endpoint, prompt: Submission -> string)
    requires var text := "<FEEDBACK>Good answer<FEEDBACK>" + Tag(Numeral("8", None), Numeral("10", None));
      endpoint(0, prompt(sub)) == Reply(OkStatus, [Json("{\"response\": ...}", Object(Text(text)))])
    ensures var text := "<FEEDBACK>Good answer<FEEDBACK>" + Tag(Numeral("8", None), Numeral("10", None));
      Assemble([sub], Grading(endpoint, prompt)) == Ok(map[sub.id := GradingFeedback(sub.id, 8.0, text)])
  {
    var text := "<FEEDBACK>Good answer<FEEDBACK>" + Tag(Numeral("8", None), Numeral("10", None));
    var lines := [Json("{\"response\": ...}", Object(Text(text)))];
    assert Generate(Reply(OkStatus, lines)) == Ok(text) by {
      SuccessfulStream(lines);
      assert lines[1..] == [];
      assert AllAccepted(lines);
      assert Joined(lines) == text + "" == text;
    }
    assert ExtractGrade(text) == Ok(8.0) by {
      EightOutOfTen();
    }
    var grade := Grading(endpoint, prompt);
    assert grade(0, sub) == Ok(Graded(8.0, text));
    assert Fill(map[], [sub], 0, grade) == Fill(map[sub.id := GradingFeedback(sub.id, 8.0, text)], [sub], 1, grade);
  }
}
