/** The records a grading request carries and the result map both services build.

    Both `generate_grading_feedback` functions loop over the submissions in order, grade each
    one (a call to the model, then a score), and write `feedback_response[submission.id]`.
    An exception in any iteration leaves the function, so no map is returned at all. `Fill`
    is that loop as a fold over submission indices; the lemmas below describe its result
    without the fold: the key set, the entry under each key, and when and how it fails. */
module Feedback {
  import opened Wrappers
  import ModelClient

  /** The fields of the request schemas that the services read. */
  datatype Course = Course(id: int, name: string)
  datatype Assignment = Assignment(id: int, name: string, description: string, pointsPossible: real)
  datatype Submission = Submission(id: int, body: Option<string>)
  datatype GradingRequest = GradingRequest(course: Course, assignment: Assignment, submissions: seq<Submission>)

  /** One value of the result map. */
  datatype GradingFeedback = GradingFeedback(submissionId: int, score: real, feedback: string)

  /** The exceptions that abort a run: the model call raised, or no score could be read. */
  datatype GradingError = ModelCall(cause: ModelClient.ClientError) | ScoreMissing

  /** What grading one submission yields. */
  datatype Graded = Graded(score: real, feedback: string)

  /** Grading the submission at a given index of the run. */
  type Grader = (nat, Submission) -> Result<Graded, GradingError>

  function Entry(s: Submission, g: Graded): GradingFeedback
  {
    GradingFeedback(s.id, g.score, g.feedback)
  }

  /** The loop from index `from` on, with `acc` the map built so far. */
  function Fill(acc: map<int, GradingFeedback>, subs: seq<Submission>, from: nat, grade: Grader)
    : Result<map<int, GradingFeedback>, GradingError>
    requires from <= |subs|
    decreases |subs| - from
  {
    if from == |subs| then Ok(acc)
    else match grade(from, subs[from])
      case Err(e) => Err(e)
      case Ok(g) => Fill(acc[subs[from].id := Entry(subs[from], g)], subs, from + 1, grade)
  }

  /** The whole loop, from the empty map. */
  function Assemble(subs: seq<Submission>, grade: Grader): Result<map<int, GradingFeedback>, GradingError>
  {
    Fill(map[], subs, 0, grade)
  }

  // ---------------------------------------------------------------------------------------
  // The result described without the loop.

  /** The ids of the submissions from index `from` on. */
  function IdsFrom(subs: seq<Submission>, from: nat): set<int>
  {
    set k | from <= k < |subs| :: subs[k].id
  }

  function Ids(subs: seq<Submission>): set<int>
  {
    IdsFrom(subs, 0)
  }

  /** No later submission has the same id as the one at `k`. */
  predicate IsLast(subs: seq<Submission>, k: nat)
    requires k < |subs|
  {
    forall j :: k < j < |subs| ==> subs[j].id != subs[k].id
  }

  predicate AllGradedFrom(subs: seq<Submission>, from: nat, grade: Grader)
  {
    forall k :: from <= k < |subs| ==> grade(k, subs[k]).Ok?
  }

  lemma {:induction false} FillSucceeds(acc: map<int, GradingFeedback>, subs: seq<Submission>, from: nat, grade: Grader)
    requires from <= |subs| && AllGradedFrom(subs, from, grade)
    ensures Fill(acc, subs, from, grade).Ok?
    ensures var m := Fill(acc, subs, from, grade).value;
      && m.Keys == acc.Keys + IdsFrom(subs, from)
      && (forall k :: from <= k < |subs| && IsLast(subs, k) ==> m[subs[k].id] == Entry(subs[k], grade(k, subs[k]).value))
      && (forall id :: id in acc && id !in IdsFrom(subs, from) ==> m[id] == acc[id])
    decreases |subs| - from
  {
    if from < |subs| {
      var s := subs[from];
      var e := Entry(s, grade(from, s).value);
      var acc' := acc[s.id := e];
      assert Fill(acc, subs, from, grade) == Fill(acc', subs, from + 1, grade);
      FillSucceeds(acc', subs, from + 1, grade);
      var m := Fill(acc', subs, from + 1, grade).value;
      assert IdsFrom(subs, from) == {s.id} + IdsFrom(subs, from + 1) by {
        forall id | id in IdsFrom(subs, from) ensures id in {s.id} + IdsFrom(subs, from + 1) {
          var k :| from <= k < |subs| && subs[k].id == id;
          if k > from {
            assert id in IdsFrom(subs, from + 1);
          }
        }
      }
      forall k | from <= k < |subs| && IsLast(subs, k)
        ensures m[subs[k].id] == Entry(subs[k], grade(k, subs[k]).value)
      {
        if k == from {
          assert s.id !in IdsFrom(subs, from + 1);
        }
      }
      forall id | id in acc && id !in IdsFrom(subs, from) ensures m[id] == acc[id] {
        assert id != s.id;
      }
    } else {
      assert IdsFrom(subs, from) == {};
    }
  }

  lemma {:induction false} FillFailsAt(acc: map<int, GradingFeedback>, subs: seq<Submission>, from: nat, grade: Grader, k: nat)
    requires from <= k < |subs| && grade(k, subs[k]).Err?
    requires forall j :: from <= j < k ==> grade(j, subs[j]).Ok?
    ensures Fill(acc, subs, from, grade) == Err(grade(k, subs[k]).error)
    decreases k - from
  {
    if from < k {
      FillFailsAt(acc[subs[from].id := Entry(subs[from], grade(from, subs[from]).value)], subs, from + 1, grade, k);
    }
  }

  lemma {:induction false} FillFails(acc: map<int, GradingFeedback>, subs: seq<Submission>, from: nat, grade: Grader, k: nat)
    requires from <= k < |subs| && grade(k, subs[k]).Err?
    ensures Fill(acc, subs, from, grade).Err?
    decreases k - from
  {
    if from < k && grade(from, subs[from]).Ok? {
      FillFails(acc[subs[from].id := Entry(subs[from], grade(from, subs[from]).value)], subs, from + 1, grade, k);
    }
  }

  /** All or nothing: a map comes back exactly when every submission could be graded. */
  lemma AllOrNothing(subs: seq<Submission>, grade: Grader)
    ensures Assemble(subs, grade).Ok? <==> AllGradedFrom(subs, 0, grade)
  {
    if AllGradedFrom(subs, 0, grade) {
      FillSucceeds(map[], subs, 0, grade);
    } else {
      var k :| 0 <= k < |subs| && grade(k, subs[k]).Err?;
      FillFails(map[], subs, 0, grade, k);
    }
  }

  /** The exception that leaves the loop is the one raised for the first submission that
      could not be graded; later submissions are never graded. */
  lemma FirstFailureWins(subs: seq<Submission>, grade: Grader, k: nat)
    requires k < |subs| && grade(k, subs[k]).Err?
    requires forall j :: 0 <= j < k ==> grade(j, subs[j]).Ok?
    ensures Assemble(subs, grade) == Err(grade(k, subs[k]).error)
  {
    FillFailsAt(map[], subs, 0, grade, k);
  }

  /** The map's keys are exactly the submission ids, each entry names its own key, and
      under a repeated id the entry of the last submission with that id is kept. */
  lemma ResultMap(subs: seq<Submission>, grade: Grader)
    requires Assemble(subs, grade).Ok?
    ensures Assemble(subs, grade).value.Keys == Ids(subs)
    ensures forall id :: id in Assemble(subs, grade).value ==> Assemble(subs, grade).value[id].submissionId == id
    ensures forall k :: 0 <= k < |subs| && IsLast(subs, k) ==>
      grade(k, subs[k]).Ok? && Assemble(subs, grade).value[subs[k].id] == Entry(subs[k], grade(k, subs[k]).value)
  {
    AllOrNothing(subs, grade);
    FillSucceeds(map[], subs, 0, grade);
    var m := Assemble(subs, grade).value;
    forall id | id in m ensures m[id].submissionId == id {
      var k :| 0 <= k < |subs| && subs[k].id == id;
      var last := LastWith(subs, k);
      assert m[subs[last].id] == Entry(subs[last], grade(last, subs[last]).value);
    }
  }

  /** The index of the last submission with the same id as the one at `k`. */
  lemma {:induction false} LastWith(subs: seq<Submission>, k: nat) returns (last: nat)
    requires k < |subs|
    ensures k <= last < |subs| && subs[last].id == subs[k].id && IsLast(subs, last)
    decreases |subs| - k
  {
    if IsLast(subs, k) {
      last := k;
    } else {
      var j :| k < j < |subs| && subs[j].id == subs[k].id;
      last := LastWith(subs, j);
    }
  }
}
