/** The service the worker task runs (`app/services/project_service.py`): one prompt per
    submission, one model call per prompt, and a fixed score of 85% of the points possible.

    The text-generation endpoint is an input: `endpoint(k, prompt)` is its reply to the k-th
    call of a run, so the model may answer the same prompt differently on different calls. */
module ProjectService {
  import opened Wrappers
  import opened ModelClient
  import opened Feedback

  const PromptLead := "Grading assignment '"
  const PromptCourse := "' for course "
  const PromptContent := ". Submission content: "

  /** How an f-string renders an optional body: a missing body prints as `None`. */
  function BodyText(body: Option<string>): string
  {
    if body.Some? then body.value else "None"
  }

  /** The prompt for one submission: assignment name in quotes, course name, then the body. */
  function Prompt(dto: GradingRequest, s: Submission): (p: string)
    ensures |PromptLead| + |dto.assignment.name| + |BodyText(s.body)| <= |p|
    ensures p[..|PromptLead|] == PromptLead
    ensures p[|PromptLead|..|PromptLead| + |dto.assignment.name|] == dto.assignment.name
    ensures p[|p| - |BodyText(s.body)|..] == BodyText(s.body)
  {
    PromptLead + dto.assignment.name + PromptCourse + dto.course.name + PromptContent + BodyText(s.body)
  }

  /** The fixed grade percentage. */
  const GradePercentage: real := 0.85

  /** `points_possible * 0.85`, in exact arithmetic. */
  function DefaultGrade(pointsPossible: real): real
  {
    pointsPossible * GradePercentage
  }

  /** One iteration of the loop: the model's text for this submission's prompt, and the
      fixed score. */
  function GradeOne(dto: GradingRequest, endpoint: Endpoint, k: nat, s: Submission): Result<Graded, GradingError>
  {
    match Generate(endpoint(k, Prompt(dto, s)))
    case Err(e) => Err(ModelCall(e))
    case Ok(text) => Ok(Graded(DefaultGrade(dto.assignment.pointsPossible), text))
  }

  function Grading(dto: GradingRequest, endpoint: Endpoint): Grader
  {
    (k: nat, s: Submission) => GradeOne(dto, endpoint, k, s)
  }

  /** `generate_grading_feedback`: the loop that fills `feedback_response`. */
  method GenerateGradingFeedback(dto: GradingRequest, endpoint: Endpoint)
    returns (r: Result<map<int, GradingFeedback>, GradingError>)
    ensures r == Assemble(dto.submissions, Grading(dto, endpoint))
  {
    var feedbackResponse: map<int, GradingFeedback> := map[];
    var i := 0;
    while i < |dto.submissions|
      invariant 0 <= i <= |dto.submissions|
      invariant Assemble(dto.submissions, Grading(dto, endpoint))
             == Fill(feedbackResponse, dto.submissions, i, Grading(dto, endpoint))
    {
      var submission := dto.submissions[i];
      var feedback := CallOllamaApi(endpoint(i, Prompt(dto, submission)));
      assert Grading(dto, endpoint)(i, submission) == GradeOne(dto, endpoint, i, submission);
      if feedback.Err? {
        return Err(ModelCall(feedback.error));
      }
      var grade := DefaultGrade(dto.assignment.pointsPossible);
      feedbackResponse := feedbackResponse[submission.id := GradingFeedback(submission.id, grade, feedback.value)];
      i := i + 1;
    }
    r := Ok(feedbackResponse);
  }

  // ---------------------------------------------------------------------------------------
  // What the service promises.

  /** The run returns a map exactly when every model call returns, and then the map has one
      entry per distinct submission id, under that id; the entry of the last submission with
      an id holds the text of that submission's call and the fixed score. */
  lemma ServiceResult(dto: GradingRequest, endpoint: Endpoint)
    ensures var r := Assemble(dto.submissions, Grading(dto, endpoint));
      && (r.Ok? <==> forall k :: 0 <= k < |dto.submissions| ==> Generate(endpoint(k, Prompt(dto, dto.submissions[k]))).Ok?)
      && (r.Ok? ==> r.value.Keys == Ids(dto.submissions))
      && (r.Ok? ==> forall id :: id in r.value ==> r.value[id].submissionId == id)
      && (r.Ok? ==> forall k :: 0 <= k < |dto.submissions| && IsLast(dto.submissions, k) ==>
            r.value[dto.submissions[k].id]
            == GradingFeedback(dto.submissions[k].id, DefaultGrade(dto.assignment.pointsPossible),
                               Generate(endpoint(k, Prompt(dto, dto.submissions[k]))).value))
  {
    var subs, grade := dto.submissions, Grading(dto, endpoint);
    AllOrNothing(subs, grade);
    assert AllGradedFrom(subs, 0, grade)
        <==> forall k :: 0 <= k < |subs| ==> Generate(endpoint(k, Prompt(dto, subs[k]))).Ok?;
    if Assemble(subs, grade).Ok? {
      ResultMap(subs, grade);
    }
  }

  /** Every score is the same fixed share of the points possible: it depends on nothing the
      model says, and every stored text is non-empty. */
  lemma ScoresIgnoreModelText(dto: GradingRequest, endpoint: Endpoint)
    requires Assemble(dto.submissions, Grading(dto, endpoint)).Ok?
    ensures var m := Assemble(dto.submissions, Grading(dto, endpoint)).value;
      forall id :: id in m ==> m[id].score == DefaultGrade(dto.assignment.pointsPossible) && m[id].feedback != ""
  {
    var subs, grade := dto.submissions, Grading(dto, endpoint);
    ResultMap(subs, grade);
    var m := Assemble(subs, grade).value;
    forall id | id in m
      ensures m[id].score == DefaultGrade(dto.assignment.pointsPossible) && m[id].feedback != ""
    {
      var k :| 0 <= k < |subs| && subs[k].id == id;
      var last := LastWith(subs, k);
    }
  }

  /** If a model call raises, the run raises the first such exception and returns no map. */
  lemma FirstModelErrorAborts(dto: GradingRequest, endpoint: Endpoint, k: nat)
    requires k < |dto.submissions|
    requires forall j :: 0 <= j < k ==> Generate(endpoint(j, Prompt(dto, dto.submissions[j]))).Ok?
    requires Generate(endpoint(k, Prompt(dto, dto.submissions[k]))).Err?
    ensures Assemble(dto.submissions, Grading(dto, endpoint))
         == Err(ModelCall(Generate(endpoint(k, Prompt(dto, dto.submissions[k]))).error))
  {
    FirstFailureWins(dto.submissions, Grading(dto, endpoint), k);
  }

  /** The prompt carries the body verbatim: two submissions of one request get the same
      prompt only when their bodies print alike. A missing body and the body text `None`
      print alike. */
  lemma PromptDeterminesBody(dto: GradingRequest, s: Submission, t: Submission)
    ensures Prompt(dto, s) == Prompt(dto, t) <==> BodyText(s.body) == BodyText(t.body)
    ensures BodyText(None) == BodyText(Some("None"))
  {
    var lead := PromptLead + dto.assignment.name + PromptCourse + dto.course.name + PromptContent;
    assert Prompt(dto, s) == lead + BodyText(s.body);
    assert Prompt(dto, t) == lead + BodyText(t.body);
    if Prompt(dto, s) == Prompt(dto, t) {
      assert BodyText(s.body) == Prompt(dto, s)[|lead|..];
      assert BodyText(t.body) == Prompt(dto, t)[|lead|..];
    }
  }
}
