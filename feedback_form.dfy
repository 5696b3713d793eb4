// The feedback dialog (New/frontend/src/components/FeedbackForm.jsx): a
// four-field record edited by name or by the star row, a submit handler that
// only insists on some feedback text, and a reset after a successful post.
// The two-second close timer is the flag `closeScheduled`.
module FeedbackForm {
  import opened Wrappers
  import FeedbackRoutes

  datatype FormData = FormData(rating: int, feedbackText: string, improvementSuggestions: string, category: string)

  const InitialForm: FormData := FormData(5, "", "", "general")

  /** The three inputs that report through `handleChange` by their `name`. */
  datatype TextField = FeedbackText | ImprovementSuggestions | Category

  const NoText: string := "Please provide feedback text"
  const SubmitFailed: string := "Error submitting feedback"

  const FilledStar: string := "⭐"
  const EmptyStar: string := "☆"

  /** How the POST ended: a 2xx reply, or a rejection with its `data.detail`. */
  datatype PostReply = Posted | Rejected(detail: Detail)

  /** `{ ...prev, [name]: value }`: the named field takes the value, the others are kept. */
  function SetField(f: FormData, name: TextField, value: string): (g: FormData)
    ensures g.rating == f.rating
    ensures g.feedbackText == (if name == FeedbackText then value else f.feedbackText)
    ensures g.improvementSuggestions == (if name == ImprovementSuggestions then value else f.improvementSuggestions)
    ensures g.category == (if name == Category then value else f.category)
  {
    match name
    case FeedbackText => f.(feedbackText := value)
    case ImprovementSuggestions => f.(improvementSuggestions := value)
    case Category => f.(category := value)
  }

  /** A later change of a field overrides an earlier one; changes of different fields commute. */
  lemma SetFieldOverrides(f: FormData, name: TextField, v: string, w: string)
    ensures SetField(SetField(f, name, v), name, w) == SetField(f, name, w)
  {
  }

  lemma SetFieldCommutes(f: FormData, a: TextField, b: TextField, v: string, w: string)
    requires a != b
    ensures SetField(SetField(f, a, v), b, w) == SetField(SetField(f, b, w), a, v)
  {
  }

  /** The glyph of star `i` of the row: filled when `i` is at most the rating. */
  function StarGlyph(i: int, rating: int): (g: string)
    ensures g == FilledStar <==> i <= rating
    ensures g == EmptyStar <==> rating < i
  {
    if i <= rating then FilledStar else EmptyStar
  }

  /** The glyphs of stars `from`..5, in order. */
  function StarsFrom(from: nat, rating: int): (r: seq<string>)
    requires 1 <= from <= 6
    ensures |r| == 6 - from
    ensures forall k :: 0 <= k < |r| ==> r[k] == StarGlyph(from + k, rating)
    decreases 6 - from
  {
    if from == 6 then [] else [StarGlyph(from, rating)] + StarsFrom(from + 1, rating)
  }

  /** The star row `[1, 2, 3, 4, 5].map(...)`. */
  function StarRow(rating: int): seq<string>
  {
    StarsFrom(1, rating)
  }

  function CountFilled(row: seq<string>): (n: nat)
    ensures n <= |row|
  {
    if row == [] then 0 else (if row[0] == FilledStar then 1 else 0) + CountFilled(row[1..])
  }

  /** Of the stars from `from` on, exactly those up to the rating are filled. */
  lemma {:induction false} CountFilledFrom(from: nat, rating: int)
    requires 1 <= from <= 6 && 0 <= rating <= 5
    ensures CountFilled(StarsFrom(from, rating)) == if rating < from then 0 else rating - from + 1
    decreases 6 - from
  {
    if from < 6 {
      var r := StarsFrom(from, rating);
      assert r[1..] == StarsFrom(from + 1, rating);
      CountFilledFrom(from + 1, rating);
    }
  }

  /** `onClick` of star k: the rating becomes k, and the row then shows exactly k filled stars, the first k. */
  function ClickStar(f: FormData, k: int): (g: FormData)
    requires 1 <= k <= 5
    ensures g == f.(rating := k)
    ensures CountFilled(StarRow(g.rating)) == k
    ensures forall i :: 0 <= i < 5 ==> (StarRow(g.rating)[i] == FilledStar <==> i + 1 <= k)
  {
    CountFilledFrom(1, k);
    f.(rating := k)
  }

  /** The page's one check before posting: a message exactly when the feedback text is empty. */
  function Guard(f: FormData): (r: Option<string>)
    ensures r.Some? <==> f.feedbackText == ""
    ensures r.Some? ==> r.value == NoText
  {
    if f.feedbackText == "" then Some(NoText) else None
  }

  /** The page posts text shorter than the server's 10-character minimum, which the server then refuses. */
  lemma ShortTextIsPosted()
    ensures var f := FormData(5, "Too short", "", "general");
            Guard(f).None?
            && FeedbackRoutes.ParseFeedback(f.rating, f.feedbackText, Some(f.improvementSuggestions), Some(f.category)).Invalid?
  {
  }

  /** A form that passes the guard, with a star rating, is accepted by the server exactly when its text has 10 characters. */
  lemma GuardedFormMeetsServer(f: FormData)
    requires Guard(f).None? && 1 <= f.rating <= 5
    ensures FeedbackRoutes.ParseFeedback(f.rating, f.feedbackText, Some(f.improvementSuggestions), Some(f.category)).Valid?
            <==> |f.feedbackText| >= 10
  {
  }

  /**
   * A text of 1 to 9 characters passes the guard and is posted; the server
   * refuses it with a 422 listing one error, and the page stores that list
   * as its error instead of a message.
   */
  lemma ShortTextStoresErrorObjects(f: FormData)
    requires 1 <= f.rating <= 5 && 1 <= |f.feedbackText| < 10
    ensures var v := FeedbackRoutes.ParseFeedback(f.rating, f.feedbackText, Some(f.improvementSuggestions), Some(f.category));
            && Guard(f).None? && v == Invalid(["feedback_text"])
            && DetailOr(RefusalDetail(v), SubmitFailed) == ShownObjects(1)
  {
  }

  class FeedbackDialog {
    var form: FormData
    var loading: bool
    var error: Shown
    var success: bool
    var closeScheduled: bool

    /** Every rating the page can hold came from the initial 5 or a star click. */
    ghost predicate Valid()
      reads this
    {
      1 <= form.rating <= 5
    }

    constructor()
      ensures Valid()
      ensures form == InitialForm && !loading && error == ShownText("") && !success && !closeScheduled
    {
      form := InitialForm;
      loading, error, success, closeScheduled := false, ShownText(""), false, false;
    }

    /** handleChange: only the named field changes. */
    method HandleChange(name: TextField, value: string)
      requires Valid()
      modifies this
      ensures Valid()
      ensures form == SetField(old(form), name, value)
      ensures loading == old(loading) && error == old(error) && success == old(success)
      ensures closeScheduled == old(closeScheduled)
    {
      form := SetField(form, name, value);
    }

    /** A click on star k. */
    method HandleStar(k: int)
      requires Valid() && 1 <= k <= 5
      modifies this
      ensures Valid()
      ensures form == ClickStar(old(form), k)
      ensures loading == old(loading) && error == old(error) && success == old(success)
      ensures closeScheduled == old(closeScheduled)
    {
      form := ClickStar(form, k);
    }

    /**
     * handleSubmit: error and success are cleared; an empty text stops with
     * its message and no request; otherwise the whole form is posted. A
     * posted form resets to the initial one and schedules the close; a
     * refused one keeps the form and stores the server's detail or the
     * fallback: a validation list is stored as the list of error objects,
     * not as text. `loading` ends false on every path.
     */
    method HandleSubmit(reply: PostReply) returns (posted: Option<FormData>)
      requires Valid()
      modifies this
      ensures Valid() && !loading
      ensures posted.Some? <==> Guard(old(form)).None?
      ensures posted.Some? ==> posted.value == old(form)
      ensures Guard(old(form)).Some? ==>
                error == ShownText(NoText) && !success && form == old(form) && closeScheduled == old(closeScheduled)
      ensures Guard(old(form)).None? && reply.Posted? ==>
                error == ShownText("") && success && form == InitialForm && closeScheduled
      ensures Guard(old(form)).None? && reply.Rejected? ==>
                error == DetailOr(reply.detail, SubmitFailed) && !success && form == old(form)
                && closeScheduled == old(closeScheduled)
    {
      error := ShownText("");
      success := false;
      loading := true;
      var failure := Guard(form);
      if failure.Some? {
        error := ShownText(failure.value);
        loading := false;
        return None;
      }
      posted := Some(form);
      match reply {
        case Posted =>
          success := true;
          form := InitialForm;
          closeScheduled := true;
        case Rejected(detail) =>
          error := DetailOr(detail, SubmitFailed);
      }
      loading := false;
    }
  }
}
