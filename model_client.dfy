/** The streaming call to the text-generation endpoint (`call_ollama_api`).

    The HTTP request itself, `iter_lines` and `json.loads` are outside the model: the reply
    arrives as a status code and the finite sequence of lines the stream yields, each line
    already classified by what UTF-8 decoding and `json.loads` would make of it. What is
    modelled is the loop that folds those lines into one text, its three error exits and the
    fallback text for an empty result. */
module ModelClient {
  import opened Wrappers

  /** The `"response"` entry of a decoded JSON object, as `.get("response", "")` sees it. */
  datatype Field = Missing | Text(s: string) | NonText

  /** What `json.loads` returned for a line: a dict, or any other JSON value. */
  datatype JsonShape = NonObject | Object(response: Field)

  /** One item of the line stream. */
  datatype Line =
    | Blank                               // b"": skipped by `if line:`
    | Undecodable                         // not UTF-8: `decode` raises before `line_data` is set
    | NotJson(text: string)               // decoded, but `json.loads` raises
    | Json(text: string, shape: JsonShape)

  /** The endpoint's answer to one request. */
  datatype Reply = Reply(status: int, lines: seq<Line>)

  /** The exceptions that leave `call_ollama_api`. */
  datatype ClientError =
    | ApiStatus(code: int)                // "Error calling Ollama API: <code>"
    | BadLine(lineData: string)           // "Error parsing JSON line: <line_data>"
    | LineDataUnbound                     // the except clause reads `line_data` before any assignment
    | NotAnObject                         // `.get` on a JSON value that is not a dict
    | NotText                             // `result += v` with a `v` that is not a string

  /** The text-generation endpoint's reply to the call with a given index and prompt. */
  type Endpoint = (nat, string) -> Reply

  const OkStatus := 200
  const NoFeedback := "No feedback generated"

  /** The loop's two variables: `result` and the `line_data` of the latest decoded line. */
  datatype Acc = Acc(result: string, lineData: Option<string>)

  /** One iteration of the loop body. */
  function Step(acc: Acc, line: Line): Result<Acc, ClientError>
  {
    match line
    case Blank => Ok(acc)
    case Undecodable =>
      Err(if acc.lineData.Some? then BadLine(acc.lineData.value) else LineDataUnbound)
    case NotJson(t) => Err(BadLine(t))
    case Json(_, NonObject) => Err(NotAnObject)
    case Json(t, Object(Missing)) => Ok(Acc(acc.result, Some(t)))
    case Json(t, Object(Text(s))) => Ok(Acc(acc.result + s, Some(t)))
    case Json(_, Object(NonText)) => Err(NotText)
  }

  /** The loop over the whole stream, a left fold with an error exit. */
  function Fold(acc: Acc, lines: seq<Line>): Result<Acc, ClientError>
    decreases |lines|
  {
    if lines == [] then Ok(acc)
    else match Step(acc, lines[0])
      case Err(e) => Err(e)
      case Ok(next) => Fold(next, lines[1..])
  }

  /** What `call_ollama_api` returns or raises for a given reply. The status is checked
      before any line is read, and a successful result is never empty. */
  function Generate(reply: Reply): (r: Result<string, ClientError>)
    ensures reply.status != OkStatus ==> r == Err(ApiStatus(reply.status))
    ensures r.Ok? ==> r.value != ""
  {
    if reply.status != OkStatus then Err(ApiStatus(reply.status))
    else match Fold(Acc("", None), reply.lines)
      case Err(e) => Err(e)
      case Ok(acc) => Ok(if acc.result == "" then NoFeedback else acc.result)
  }

  /** The call itself: check the status, then accumulate the stream line by line. */
  method CallOllamaApi(reply: Reply) returns (r: Result<string, ClientError>)
    ensures r == Generate(reply)
  {
    if reply.status != OkStatus {
      return Err(ApiStatus(reply.status));
    }
    var result := "";
    var lineData: Option<string> := None;
    var i := 0;
    while i < |reply.lines|
      invariant 0 <= i <= |reply.lines|
      invariant Fold(Acc("", None), reply.lines) == Fold(Acc(result, lineData), reply.lines[i..])
    {
      var line := reply.lines[i];
      assert reply.lines[i..][1..] == reply.lines[i + 1..];
      if !line.Blank? {
        if line.Undecodable? {
          return Err(if lineData.Some? then BadLine(lineData.value) else LineDataUnbound);
        }
        lineData := Some(line.text);
        if line.NotJson? {
          return Err(BadLine(line.text));
        }
        match line.shape
        case NonObject =>
          return Err(NotAnObject);
        case Object(Missing) =>
        case Object(Text(s)) =>
          result := result + s;
        case Object(NonText) =>
          return Err(NotText);
      }
      i := i + 1;
    }
    if result == "" {
      r := Ok(NoFeedback);
    } else {
      r := Ok(result);
    }
  }

  // ---------------------------------------------------------------------------------------
  // A reference description of the stream, independent of the loop's accumulator.

  /** A line the loop gets past: blank, or a JSON object whose "response" is absent or a string. */
  predicate Accepted(line: Line)
  {
    line.Blank? || (line.Json? && line.shape.Object? && !line.shape.response.NonText?)
  }

  predicate AllAccepted(lines: seq<Line>)
  {
    forall k :: 0 <= k < |lines| ==> Accepted(lines[k])
  }

  /** The text one line contributes: its "response" string, or nothing. */
  function Fragment(line: Line): string
  {
    if line.Json? && line.shape.Object? && line.shape.response.Text? then line.shape.response.s else ""
  }

  /** All fragments in stream order, concatenated from the right. */
  function Joined(lines: seq<Line>): string
  {
    if lines == [] then "" else Fragment(lines[0]) + Joined(lines[1..])
  }

  /** The decoded text of a line, when decoding got that far. */
  function TextOf(line: Line): Option<string>
  {
    match line
    case NotJson(t) => Some(t)
    case Json(t, _) => Some(t)
    case _ => None
  }

  /** The decoded text of the last line that has one. */
  function LastText(lines: seq<Line>): Option<string>
  {
    if lines == [] then None
    else
      var later := LastText(lines[1..]);
      if later.Some? then later else TextOf(lines[0])
  }

  function Latest(earlier: Option<string>, later: Option<string>): Option<string>
  {
    if later.Some? then later else earlier
  }

  /** The exception raised for the first line the loop does not get past, given the
      `line_data` left over from the lines before it. */
  function Rejection(lineData: Option<string>, line: Line): ClientError
  {
    match line
    case Undecodable => if lineData.Some? then BadLine(lineData.value) else LineDataUnbound
    case NotJson(t) => BadLine(t)
    case Json(_, NonObject) => NotAnObject
    case _ => NotText
  }

  // ---------------------------------------------------------------------------------------
  // The loop against the reference description.

  lemma StepAccepts(acc: Acc, line: Line)
    ensures Step(acc, line).Ok? <==> Accepted(line)
    ensures Accepted(line) ==>
      Step(acc, line) == Ok(Acc(acc.result + Fragment(line), Latest(acc.lineData, TextOf(line))))
    ensures !Accepted(line) ==> Step(acc, line) == Err(Rejection(acc.lineData, line))
  {
    if line.Blank? {
      assert acc.result + "" == acc.result;
    } else if line.Json? && line.shape == Object(Missing) {
      assert acc.result + "" == acc.result;
    }
  }

  /** Over lines that are all accepted, the fold appends exactly the joined fragments and
      remembers the latest decoded text. */
  lemma {:induction false} FoldAccepted(acc: Acc, lines: seq<Line>)
    requires AllAccepted(lines)
    decreases |lines|
    ensures Fold(acc, lines) == Ok(Acc(acc.result + Joined(lines), Latest(acc.lineData, LastText(lines))))
  {
    if lines == [] {
      assert acc.result + "" == acc.result;
    } else {
      var head, rest := lines[0], lines[1..];
      assert Accepted(lines[0]);
      StepAccepts(acc, head);
      var next := Acc(acc.result + Fragment(head), Latest(acc.lineData, TextOf(head)));
      assert AllAccepted(rest) by {
        forall k | 0 <= k < |rest| ensures Accepted(rest[k]) {
          assert rest[k] == lines[k + 1];
        }
      }
      FoldAccepted(next, rest);
      assert acc.result + Fragment(head) + Joined(rest) == acc.result + (Fragment(head) + Joined(rest));
    }
  }

  /** A stream with a line the loop cannot get past ends in an exception. */
  lemma {:induction false} FoldRejects(acc: Acc, lines: seq<Line>, k: nat)
    requires k < |lines| && !Accepted(lines[k])
    ensures Fold(acc, lines).Err?
    decreases k
  {
    StepAccepts(acc, lines[0]);
    if k > 0 && Accepted(lines[0]) {
      FoldRejects(Step(acc, lines[0]).value, lines[1..], k - 1);
    }
  }

  /** Reading a stream in two pieces is reading it whole. */
  lemma {:induction false} FoldAppend(acc: Acc, a: seq<Line>, b: seq<Line>)
    ensures Fold(acc, a + b) == (match Fold(acc, a) case Err(e) => Err(e) case Ok(mid) => Fold(mid, b))
    decreases |a|
  {
    if a == [] {
      assert a + b == b;
    } else {
      assert (a + b)[0] == a[0];
      assert (a + b)[1..] == a[1..] + b;
      match Step(acc, a[0])
      case Err(e) =>
      case Ok(next) => FoldAppend(next, a[1..], b);
    }
  }

  /** A successful reply succeeds exactly when every line is accepted, and its text is the
      concatenation of the "response" fields, or the fallback when that is empty. */
  lemma SuccessfulStream(lines: seq<Line>)
    ensures Generate(Reply(OkStatus, lines)).Ok? <==> AllAccepted(lines)
    ensures AllAccepted(lines) && Joined(lines) != "" ==> Generate(Reply(OkStatus, lines)) == Ok(Joined(lines))
    ensures AllAccepted(lines) && Joined(lines) == "" ==> Generate(Reply(OkStatus, lines)) == Ok(NoFeedback)
  {
    if AllAccepted(lines) {
      FoldAccepted(Acc("", None), lines);
      assert "" + Joined(lines) == Joined(lines);
    } else {
      var k :| 0 <= k < |lines| && !Accepted(lines[k]);
      FoldRejects(Acc("", None), lines, k);
    }
  }

  /** The first rejected line aborts the call: the exception depends only on that line and
      on the decoded text of the last line before it, and no later line is read. */
  lemma FirstRejected(lines: seq<Line>, k: nat)
    requires k < |lines| && AllAccepted(lines[..k]) && !Accepted(lines[k])
    ensures Generate(Reply(OkStatus, lines)) == Err(Rejection(LastText(lines[..k]), lines[k]))
  {
    var init := Acc("", None);
    assert lines == lines[..k] + lines[k..];
    FoldAppend(init, lines[..k], lines[k..]);
    FoldAccepted(init, lines[..k]);
    var mid := Acc("" + Joined(lines[..k]), Latest(None, LastText(lines[..k])));
    assert Latest(None, LastText(lines[..k])) == LastText(lines[..k]);
    StepAccepts(mid, lines[k]);
    assert lines[k..][0] == lines[k];
  }

  /** Blank lines anywhere in the stream change nothing. */
  lemma {:induction false} FoldSkipsBlank(acc: Acc, a: seq<Line>, b: seq<Line>)
    ensures Fold(acc, a + [Blank] + b) == Fold(acc, a + b)
    decreases |a|
  {
    if a == [] {
      assert a + [Blank] + b == [Blank] + b;
      assert ([Blank] + b)[1..] == b;
      assert a + b == b;
    } else {
      assert (a + [Blank] + b)[0] == a[0] && (a + b)[0] == a[0];
      assert (a + [Blank] + b)[1..] == a[1..] + [Blank] + b;
      assert (a + b)[1..] == a[1..] + b;
      match Step(acc, a[0])
      case Err(e) =>
      case Ok(next) => FoldSkipsBlank(next, a[1..], b);
    }
  }

  lemma BlankLinesSkipped(status: int, a: seq<Line>, b: seq<Line>)
    ensures Generate(Reply(status, a + [Blank] + b)) == Generate(Reply(status, a + b))
  {
    FoldSkipsBlank(Acc("", None), a, b);
  }

  /** Lines that carry no text add nothing to the joined text. */
  lemma {:induction false} JoinedEmpty(lines: seq<Line>)
    requires forall k :: 0 <= k < |lines| ==> Fragment(lines[k]) == ""
    ensures Joined(lines) == ""
    decreases |lines|
  {
    if lines != [] {
      assert Fragment(lines[0]) == "";
      JoinedEmpty(lines[1..]);
    }
  }

  /** A stream that is read to the end without any text, the empty stream among them (blank
      lines, objects with no "response" or an empty one), yields the fallback text. */
  lemma EmptyStreamFallback(lines: seq<Line>)
    requires AllAccepted(lines)
    requires forall k :: 0 <= k < |lines| ==> Fragment(lines[k]) == ""
    ensures Generate(Reply(OkStatus, lines)) == Ok(NoFeedback)
  {
    JoinedEmpty(lines);
    SuccessfulStream(lines);
  }
}
