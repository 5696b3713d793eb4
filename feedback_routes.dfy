// The feedback routes (New/backend/api/routes/feedback.py) over the feedback
// table (NewModel/backend/database/models/feedback.py): a validated body is
// appended for the current user, with no limit per user, and listing returns
// exactly that user's rows.
module FeedbackRoutes {
  import opened Wrappers

  datatype FeedbackCreate = FeedbackCreate(rating: int, feedbackText: string,
                                           improvementSuggestions: Option<string>, category: Option<string>)

  datatype Feedback = Feedback(id: string, userId: string, rating: int, feedbackText: string,
                               improvementSuggestions: Option<string>, category: Option<string>)

  /**
   * The Field constraints `ge=1, le=5` and `min_length=10`: the body is
   * accepted exactly when both hold, and is then unchanged; otherwise the
   * names of the failing fields, in declaration order.
   */
  function ParseFeedback(rating: int, feedbackText: string, suggestions: Option<string>, category: Option<string>)
    : (r: Validated<FeedbackCreate>)
    ensures r.Valid? <==> 1 <= rating <= 5 && |feedbackText| >= 10
    ensures r.Valid? ==> r.value == FeedbackCreate(rating, feedbackText, suggestions, category)
    ensures r.Invalid? ==> ("rating" in r.messages <==> !(1 <= rating <= 5))
                           && ("feedback_text" in r.messages <==> |feedbackText| < 10)
  {
    var errs := (if 1 <= rating <= 5 then [] else ["rating"])
              + (if |feedbackText| >= 10 then [] else ["feedback_text"]);
    if errs == [] then Valid(FeedbackCreate(rating, feedbackText, suggestions, category)) else Invalid(errs)
  }

  /** `get_user_feedback`: `.filter(Feedback.user_id == userId).all()`, in table order. */
  function ForUser(rows: seq<Feedback>, userId: string): (r: seq<Feedback>)
    ensures forall x :: x in r ==> x in rows && x.userId == userId
    ensures forall k :: 0 <= k < |rows| && rows[k].userId == userId ==> rows[k] in r
  {
    if rows == [] then []
    else
      var rest := ForUser(rows[1..], userId);
      assert forall k :: 1 <= k < |rows| ==> rows[k] == rows[1..][k - 1];
      if rows[0].userId == userId then [rows[0]] + rest else rest
  }

  /** A new row for u shows up last in u's list, and nobody else's list changes. */
  lemma {:induction false} ForUserAppend(rows: seq<Feedback>, f: Feedback, userId: string)
    ensures ForUser(rows + [f], userId) == ForUser(rows, userId) + (if f.userId == userId then [f] else [])
  {
    if rows != [] {
      assert (rows + [f])[1..] == rows[1..] + [f];
      ForUserAppend(rows[1..], f, userId);
    }
  }

  class FeedbackTable {
    var rows: seq<Feedback>

    /** Every stored row passed the body constraints. */
    ghost predicate Valid()
      reads this
    {
      forall k :: 0 <= k < |rows| ==> 1 <= rows[k].rating <= 5 && |rows[k].feedbackText| >= 10
    }

    constructor()
      ensures Valid() && rows == []
    {
      rows := [];
    }

    /** `submit_feedback`: one more row, for the current user, with the body's values. */
    method SubmitFeedback(userId: string, body: FeedbackCreate, newId: string) returns (created: Feedback)
      requires ParseFeedback(body.rating, body.feedbackText, body.improvementSuggestions, body.category).Valid?
      requires Valid()
      modifies this
      ensures Valid()
      ensures created == Feedback(newId, userId, body.rating, body.feedbackText, body.improvementSuggestions, body.category)
      ensures rows == old(rows) + [created]
      ensures ForUser(rows, userId) == ForUser(old(rows), userId) + [created]
    {
      created := Feedback(newId, userId, body.rating, body.feedbackText, body.improvementSuggestions, body.category);
      ForUserAppend(rows, created, userId);
      rows := rows + [created];
    }
  }
}
