/** The newsletter sign-up form (src/app/register/page.tsx): its initial state, the
    interest toggle, the submit sequence and when the button is disabled. The
    simulated one-second wait is left out. */
module RegisterPage {
  import opened Toggles

  const InitialFrequency: string := "weekly"

  /** `isSubmitting || !email`. */
  predicate Disabled(isSubmitting: bool, email: string) {
    isSubmitting || email == ""
  }

  class RegisterForm {
    var email: string
    var interests: seq<string>
    var frequency: string
    var isSubmitting: bool
    var isSuccess: bool

    constructor ()
      ensures email == "" && interests == [] && frequency == InitialFrequency
      ensures !isSubmitting && !isSuccess
      ensures ButtonDisabled()
    {
      email := "";
      interests := [];
      frequency := InitialFrequency;
      isSubmitting := false;
      isSuccess := false;
    }

    predicate ButtonDisabled()
      reads this
    {
      Disabled(isSubmitting, email)
    }

    /** toggleInterest: flips the interest; nothing else changes. */
    method ToggleInterest(interest: string)
      modifies this
      ensures interests == Toggle(old(interests), interest)
      ensures email == old(email) && frequency == old(frequency)
      ensures isSubmitting == old(isSubmitting) && isSuccess == old(isSuccess)
    {
      interests := Toggle(interests, interest);
    }

    /** handleSubmit before the wait: the button locks. */
    method StartSubmit()
      modifies this
      ensures isSubmitting && isSuccess == old(isSuccess)
      ensures email == old(email) && interests == old(interests) && frequency == old(frequency)
      ensures ButtonDisabled()
    {
      isSubmitting := true;
    }

    /** handleSubmit after the wait: success, and the button unlocks. */
    method FinishSubmit()
      modifies this
      ensures isSuccess && !isSubmitting
      ensures email == old(email) && interests == old(interests) && frequency == old(frequency)
    {
      isSuccess := true;
      isSubmitting := false;
    }

    /** handleSubmit: always ends in success with submitting cleared; the form's
        data is untouched. */
    method HandleSubmit()
      modifies this
      ensures isSuccess && !isSubmitting
      ensures email == old(email) && interests == old(interests) && frequency == old(frequency)
    {
      StartSubmit();
      FinishSubmit();
    }
  }
}
