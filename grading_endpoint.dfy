/** The two HTTP handlers of the grading router (`app/api/v1/endpoints/grading.py`): enqueue
    a grading run as a background task, and report a task's state.

    The task queue is outside the model. Enqueueing is given as what submitting the task
    produced (its id, or an exception); reading a task is given as what the result backend
    reported (its status and result, or an exception). */
module GradingEndpoint {
  import opened Wrappers

  /** An `HTTPException`: status code and detail text. */
  datatype HttpError = HttpError(statusCode: int, detail: string)

  const Success := "SUCCESS"
  const Failure := "FAILURE"
  const FailedTraceback := "Failed to generate feedback."
  const EnqueueFailed := HttpError(500, "Failed to enqueue grading task.")
  const StatusFailed := HttpError(500, "Failed to retrieve task status.")

  /** The body of a status response. */
  datatype StatusView<R> = StatusView(taskId: string, status: string, result: Option<R>, traceback: Option<string>)

  /** What reading the task from the result backend gave. */
  datatype BackendRead<R> = Unreachable | State(status: string, result: R)

  /** `generate_grading_feedback` (the route): the body `{"task_id": id}` when the task was
      submitted, a 500 otherwise. */
  function Enqueue(submitted: Option<string>): (r: Result<map<string, string>, HttpError>)
    ensures r.Ok? <==> submitted.Some?
    ensures r.Ok? ==> r.value.Keys == {"task_id"} && r.value["task_id"] == submitted.value
    ensures r.Err? ==> r.error == EnqueueFailed
  {
    match submitted
    case Some(id) => Ok(map["task_id" := id])
    case None => Err(EnqueueFailed)
  }

  /** `get_task_status`: the status read from the backend, the result only on success, and a
      fixed traceback text only on failure. */
  function GetTaskStatus<R>(taskId: string, read: BackendRead<R>): (r: Result<StatusView<R>, HttpError>)
    ensures r.Err? <==> read.Unreachable?
    ensures r.Err? ==> r.error == StatusFailed
    ensures r.Ok? ==> r.value.taskId == taskId && r.value.status == read.status
    ensures r.Ok? ==> (r.value.result.Some? <==> read.status == Success)
    ensures r.Ok? && r.value.result.Some? ==> r.value.result.value == read.result
    ensures r.Ok? ==> (r.value.traceback.Some? <==> read.status == Failure)
    ensures r.Ok? && r.value.traceback.Some? ==> r.value.traceback.value == FailedTraceback
  {
    match read
    case Unreachable => Err(StatusFailed)
    case State(status, result) =>
      Ok(StatusView(
        taskId,
        status,
        if status == Success then Some(result) else None,
        if status == Failure then Some(FailedTraceback) else None))
  }

  /** Nothing of the backend's result reaches the caller unless the task succeeded: in
      particular the failure detail a failed task stores is never exposed. */
  lemma ResultHiddenUnlessSuccess<R>(taskId: string, status: string, r1: R, r2: R)
    requires status != Success
    ensures GetTaskStatus(taskId, State(status, r1)) == GetTaskStatus(taskId, State(status, r2))
  {
  }
}
