/** The event submission form (src/app/submit/page.tsx): its initial data, the
    category toggle, the idle/loading/success/error status machine around the POST,
    and when the submit button is disabled. The request itself is a parameter. */
module SubmitPage {
  import opened Seqs
  import opened Types
  import opened Toggles
  import EventsRoute

  datatype Status = Idle | Loading | Success | Error

  const SubmitErrorMessage: string := "Failed to submit event. Please try again."

  /** The blank form: empty text fields (end date and address included), no
      categories, Stockholm, Meetup, Free, no amount, Swedish. */
  const InitialForm: SubmitEventData :=
    SubmitEventData("", "", Some(""), "", "Stockholm", Some(""), [], "Meetup", "", "", "", "Free", None, "Swedish")

  /** How the request ended, as handleSubmit sees it: `Ok(response.ok)`, or `Thrown`
      when `fetch` itself throws. */
  type FetchOutcome = Attempt<bool>

  /** The status and error message handleSubmit settles on. */
  function Settle(outcome: FetchOutcome, error: string): (r: (Status, string))
    ensures r.0 == Success || r.0 == Error
    ensures r.0 == Success <==> outcome == Ok(true)
    ensures r.0 == Success ==> r.1 == error
    ensures r.0 == Error ==> r.1 == SubmitErrorMessage
  {
    if outcome == Ok(true) then (Success, error) else (Error, SubmitErrorMessage)
  }

  /** `response.ok` for a status code. */
  predicate ResponseOk(status: int) {
    200 <= status <= 299
  }

  /** Posting to the events route, the form succeeds exactly when the route accepts
      the body and the store returns an id. */
  lemma SucceedsIffAccepted(body: SubmitEventData, submit: SubmitEventData -> Attempt<string>, error: string)
    ensures Settle(Attempt.Ok(ResponseOk(EventsRoute.Post(Some(body), submit).response.status)), error).0 == Success
        <==> EventsRoute.HasRequiredFields(body) && submit(body).Ok?
  {
  }

  /** The blank form is not accepted by the route, and its button starts disabled. */
  lemma InitialFormIncomplete()
    ensures !EventsRoute.HasRequiredFields(InitialForm)
    ensures Disabled(Idle, InitialForm)
  {
  }

  /** `status === "loading" || formData.categories.length === 0`. */
  predicate Disabled(status: Status, form: SubmitEventData) {
    status == Loading || |form.categories| == 0
  }

  class SubmitForm {
    var status: Status
    var error: string
    var formData: SubmitEventData

    constructor ()
      ensures status == Idle && error == "" && formData == InitialForm
    {
      status := Idle;
      error := "";
      formData := InitialForm;
    }

    predicate ButtonDisabled()
      reads this
    {
      Disabled(status, formData)
    }

    /** handleCategoryToggle: flips the category; every other field is unchanged. */
    method ToggleCategory(category: string)
      modifies this
      ensures formData == old(formData).(categories := Toggle(old(formData).categories, category))
      ensures status == old(status) && error == old(error)
    {
      formData := formData.(categories := Toggle(formData.categories, category));
    }

    /** handleSubmit up to the request: loading, error cleared; the body is the form. */
    method StartSubmit() returns (body: SubmitEventData)
      modifies this
      ensures status == Loading && error == ""
      ensures formData == old(formData) && body == formData
    {
      status := Loading;
      error := "";
      body := formData;
    }

    /** handleSubmit after the request: success on an ok response, error otherwise. */
    method FinishSubmit(outcome: FetchOutcome)
      modifies this
      ensures (status, error) == Settle(outcome, old(error))
      ensures formData == old(formData)
    {
      if outcome.Thrown? || !outcome.value {
        status := Error;
        error := SubmitErrorMessage;
      } else {
        status := Success;
      }
    }

    /** handleSubmit: posts the form with `send` and settles on its outcome. */
    method HandleSubmit(send: SubmitEventData -> FetchOutcome) returns (sent: SubmitEventData)
      modifies this
      ensures sent == old(formData) && formData == old(formData)
      ensures (status, error) == Settle(send(sent), "")
    {
      sent := StartSubmit();
      FinishSubmit(send(sent));
    }
  }
}
