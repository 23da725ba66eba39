# Canvas Copilot grading core, modelled in Dafny

The Canvas Copilot backend grades course submissions with a local text-generation model. A
grading request (course, assignment, submissions) is queued as a background task; the task
builds one prompt per submission, streams the model's reply, and assembles a map from
submission id to `{submission_id, score, feedback}`; a status route reports the task's state.
A second, standalone prototype of the same loop reads the grade out of the model's reply from
a `<SCORE>achieved/possible</SCORE>` tag.

This project models the deterministic core of that pipeline, with the HTTP stream, JSON
decoding, the HTML-to-text converter and the task queue taken as inputs:

- `ModelClient` (`model_client.dfy`): `call_ollama_api`. The reply is a status code and the
  lines the stream yields, each classified by what UTF-8 decoding and `json.loads` make of it.
  `CallOllamaApi` is the loop, proved equal to the fold `Generate`, and the lemmas describe
  the fold without the loop: success exactly when every line is blank or a JSON object
  whose `response` is absent or a string; the text is the concatenation of the `response`
  fields in stream order, or `"No feedback generated"` when that is empty; the first line
  that cannot be read aborts the call; blank lines change nothing. Both copies of the
  function (the service's and the prototype's) have this loop, the same fallback and the
  same error exits; they differ only in the model name sent in the request.
- `ScoreParser` (`score_parser.dfy`): `re.search(r"<SCORE>(\d+\.\d+|\d+)/(\d+\.\d+|\d+)</SCORE>")`
  and `float(match.group(1))`. The pattern is stated declaratively (`MatchesAt`), read at one
  position (`MatchAt`, a helper described by `MatchAtSound` and `MatchAtComplete`) and
  searched from the left (`Search`). Reading is proved sound and
  complete against the pattern, the groups are unique per position, and the grade is group 1
  of the leftmost match as an exact decimal. Group 2 is never used and the grade is not
  bounded by it.
- `Feedback` (`feedback.dfy`): the request records and the result map both services build.
  `Fill` is the loop over submissions and `Assemble` runs it from the empty map; both are
  helpers, described by the lemmas. The lemmas state the key set (the submission ids),
  that every entry names its own key, that the last submission with a repeated id wins, and
  that the run is all or nothing, failing with the first failing submission's exception.
- `ProjectService` (`project_service.py`'s loop): the prompt text, a fixed score of 85% of
  the points possible, and the model's text as feedback.
- `PrototypeService` (the prototype's loop): the grade read from the reply, and the whole
  reply stored as feedback. A reply without a score tag, including the fallback text of an
  empty stream, fails the whole run.
- `GradingEndpoint`: the enqueue route's `{"task_id": id}` body and its 500 error, and
  `get_task_status`: task id and status echoed, the result only on `SUCCESS`, the fixed
  traceback text only on `FAILURE`, and a 500 when the backend cannot be read.

Some behaviours of the code worth knowing, each modelled as written:

- Malformed stream lines are not skipped: the client raises on the first line that is not
  valid UTF-8 or not valid JSON, and also on a JSON line that is not an object or whose
  `response` is not a string.
- Scores are not checked against the points possible: the service stores a fixed 85% of the
  points possible, and the prototype stores group 1 of the score tag unchecked.
- The status route has no branch for an unknown task id, and the grading task never calls
  `retry`; there are no leases.
- The submission body goes into the service's prompt raw, with its markup; a missing body
  prints as `None`.

## Model

| member | source | states |
|---|---|---|
| `ModelClient.Generate` | app/services/project_service.py:22-39 | a non-200 status raises an error carrying that code whatever the stream holds; a returned text is never empty |
| `ModelClient.CallOllamaApi` | app/services/project_service.py:16-39 | the status check and the line-by-line accumulation loop compute exactly `Generate` of the reply |
| `ModelClient.StepAccepts` | app/services/project_service.py:27-35 | one line is got past exactly when it is blank or an object with an absent or string `response`; it then appends that string and records the line's text; otherwise it raises the error that line calls for |
| `ModelClient.FoldAccepted` | app/rrTEST_V1.py:206-213 | over accepted lines the loop appends exactly the concatenation of the `response` fields, in stream order, with a missing field counting as empty |
| `ModelClient.FoldRejects` | app/rrTEST_V1.py:209-215 | a stream with any line that cannot be read ends in an exception; malformed lines are not skipped |
| `ModelClient.SuccessfulStream` | app/services/project_service.py:26-37 | the call succeeds exactly when every line is accepted; the text is the concatenation when non-empty and `"No feedback generated"` otherwise |
| `ModelClient.FirstRejected` | app/services/project_service.py:29-35 | the first unreadable line aborts the call, and the exception depends only on that line and on the text of the last decoded line before it, so no later line is read |
| `ModelClient.BlankLinesSkipped` | app/services/project_service.py:26-27 | inserting a blank line anywhere in the stream changes neither the result nor the error |
| `ModelClient.EmptyStreamFallback` | app/rrTEST_V1.py:206-217 | any stream read to the end without text (the empty stream; blank lines; objects with no `response` or an empty one) yields `"No feedback generated"` |
| `ScoreParser.DigitsEnd` | app/rrTEST_V1.py:240 | the digit run read for `\d+` is all digits and maximal |
| `ScoreParser.NumeralAt` | app/rrTEST_V1.py:240 | a group read at a position is well formed (`\d+\.\d+` or `\d+`) and is spelled at that position |
| `ScoreParser.MatchAtSound` | app/rrTEST_V1.py:240 | what is read at a position is a match of the whole pattern there (soundness) |
| `ScoreParser.Search` | app/rrTEST_V1.py:240 | the search returns the first start position at which the pattern reads, with its groups, and nothing only when it reads at no position |
| `ScoreParser.MatchAtComplete` | app/rrTEST_V1.py:240 | wherever the pattern matches, reading at that position finds that match (completeness) |
| `ScoreParser.GroupsUnique` | app/rrTEST_V1.py:240 | at a given start position the two groups of a match are unique |
| `ScoreParser.FindScoreLeftmost` | app/rrTEST_V1.py:240 | the search result is a match with no match at any earlier position, and there is no result exactly when the pattern occurs nowhere |
| `ScoreParser.ExtractGrade` | app/rrTEST_V1.py:240-243 | a grade comes back exactly when the search finds a match; it is the value of that match's group 1, which is well formed, and it is never negative; otherwise the read raises |
| `ScoreParser.GradeOfLeftmostMatch` | app/rrTEST_V1.py:240-243 | the grade is the exact decimal value of group 1 of the leftmost match |
| `ScoreParser.NoScoreRaises` | app/rrTEST_V1.py:240-243 | with no match anywhere, reading the grade raises |
| `ScoreParser.GradeIgnoresMaximum` | app/rrTEST_V1.py:240-248 | after text in which no `<` starts `<S`, the grade is group 1 whatever group 2 says |
| `ScoreParser.EightOutOfTen` | app/rrTEST_V1.py:240-243 | `<FEEDBACK>Good answer<FEEDBACK><SCORE>8/10</SCORE>` grades 8 |
| `ScoreParser.TwelveOutOfTen` | app/rrTEST_V1.py:240-248 | `<SCORE>12/10</SCORE>` grades 12: the grade is not bounded by the echoed maximum |
| `ScoreParser.SevenAndAHalf` | app/rrTEST_V1.py:243 | `<SCORE>7.5/10</SCORE>` grades exactly 7.5 |
| `ScoreParser.FallbackHasNoScore` | app/rrTEST_V1.py:217-243 | the fallback text `"No feedback generated"` holds no score, so reading its grade raises |
| `Feedback.FillSucceeds` | app/services/project_service.py:44-61 | when every remaining submission is graded the loop returns a map whose keys are the old keys plus the remaining ids, with the last submission of each id giving its entry and other keys untouched |
| `Feedback.AllOrNothing` | app/services/project_service.py:46-64 | a map is returned exactly when every submission is graded; otherwise no partial map is returned |
| `Feedback.FirstFailureWins` | app/services/project_service.py:46-51 | the exception of the first failing submission is the one the run raises |
| `Feedback.ResultMap` | app/services/project_service.py:59-61 | the keys are exactly the submission ids, each entry's `submission_id` is its key, and with repeated ids the later submission's entry is kept |
| `ProjectService.Prompt` | app/services/project_service.py:48 | the prompt starts with `Grading assignment '` and the assignment name and ends with the submission body as printed |
| `ProjectService.PromptDeterminesBody` | app/services/project_service.py:48 | for one request, two prompts are equal exactly when the bodies print alike, and a missing body prints like the text `None` |
| `ProjectService.GenerateGradingFeedback` | app/services/project_service.py:42-64 | the loop that fills `feedback_response` computes exactly `Assemble` over the service's per-submission grading |
| `ProjectService.ServiceResult` | app/services/project_service.py:46-61 | a map is returned exactly when every model call returns; its keys are the ids, and each id's entry holds the last such submission's model text and the fixed score |
| `ProjectService.ScoresIgnoreModelText` | app/services/project_service.py:55-56 | every entry's score is 85% of the points possible, the same for all submissions whatever the model said, and every feedback text is non-empty |
| `ProjectService.FirstModelErrorAborts` | app/services/project_service.py:46-51 | the first model call that raises makes the run raise that exception, with no map |
| `PrototypeService.GenerateGradingFeedback` | app/rrTEST_V1.py:228-253 | the prototype's loop computes exactly `Assemble` over call, score extraction and store |
| `PrototypeService.PrototypeResult` | app/rrTEST_V1.py:230-250 | a map is returned exactly when every reply arrives and holds a score tag; keys are the ids, and each entry holds the whole reply and group 1 of its leftmost tag as grade |
| `PrototypeService.MissingScoreAborts` | app/rrTEST_V1.py:239-243 | the first reply without a score tag fails the whole run with no map |
| `PrototypeService.EmptyStreamFailsRun` | app/rrTEST_V1.py:204-243 | an empty stream yields the fallback text, which fails score extraction and so the run |
| `PrototypeService.GoodAnswerScenario` | app/rrTEST_V1.py:239-250 | one submission whose reply is `<FEEDBACK>Good answer<FEEDBACK><SCORE>8/10</SCORE>` maps to grade 8 with that whole reply as feedback |
| `GradingEndpoint.Enqueue` | app/api/v1/endpoints/grading.py:21-31 | the body's only key is `task_id`, holding the submitted task's id; a failure to submit gives HTTP 500 `Failed to enqueue grading task.` |
| `GradingEndpoint.GetTaskStatus` | app/api/v1/endpoints/grading.py:34-54 | task id and status are echoed; the result is present exactly on `SUCCESS` and equals the backend's; the traceback is `Failed to generate feedback.` exactly on `FAILURE`; an unreadable backend gives HTTP 500 `Failed to retrieve task status.` |
| `GradingEndpoint.ResultHiddenUnlessSuccess` | app/api/v1/endpoints/grading.py:44-49 | unless the status is `SUCCESS` the response does not depend on the backend's result, so a failure's detail is never exposed |

## Left out

- The HTTP request (`requests.post`, URL, headers, the model names `llama3.2` and `llama3`), the splitting of the stream into lines, UTF-8 decoding and `json.loads` are foreign: each line arrives already classified.
- `ModelClient.Generate`: the exception messages (`Error calling Ollama API: <code>`, `Error parsing JSON line: <line_data>`) are modelled as error values carrying the code or the line text, not as formatted strings.
- Python's `\d` also matches non-ASCII decimal digits; the model accepts ASCII digits only.
- Floating point: the score `points_possible * 0.85` and `float(group)` are exact reals here, with no IEEE rounding.
- The prototype's prompt uses BeautifulSoup's `get_text` on the body and description and `:.2f` formatting of the points; both are foreign, so the prompt is an input function of the submission.
- The prototype's route wrapper (`await request.json()`, `RequestGradingDto(**data)` validation) and the request schemas' other fields and validation are framework code.
- Celery is outside the model: `apply_async`, `AsyncResult`, the broker and result backend, the task wrapper that runs the service and JSON-encodes its map, and the `max_retries`/`default_retry_delay` settings, which nothing exercises because the task never calls `retry`.
- `GradingEndpoint.GetTaskStatus`: the route reads `task_result.status` up to three times, and each read may reach the backend; the model reads one consistent state, so a status that changes between those reads is not modelled.
- `GradingEndpoint.Enqueue`: the `print` of the request runs before the `try`, so an exception there is not mapped to the 500 response; printing and logging are not modelled.
- The credential passed to the task and the optional grading and feedback settings are carried by the request but never read by the core.
