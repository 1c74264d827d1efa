/**
 * The HR registration page (`app/hr/register/page.tsx`): its own registration
 * schema, stricter than `registerSchema` in `lib/validators.ts` and with a
 * company field, and the submit flow around `registerUser`.
 *
 * As on the login page, `Submit` runs the resolver and `onSubmit` up to its
 * `await`, and `Settle` is the await resuming.
 */
module HrRegister {
  import opened Wrappers
  import opened JsString
  import opened Schema
  import opened Submission
  import Validators

  const RegisterPageSchema: ObjectSchema :=
    [ FieldRule("name", MinLength(2)), FieldRule("email", Email),
      FieldRule("password", MinLength(8)), FieldRule("company", MinLength(2)) ]

  const RegistrationFailedMessage: string := "Registration failed. Please try again."
  const LoginAfterRegisterRoute: string := "/hr/login?registered=true"

  /** The argument of one `registerUser` call. */
  datatype Registration = Registration(name: string, email: string, password: string, company: string)

  lemma RegisterPageSchemaRule(form: Form, isEmail: string -> bool)
    ensures Accepts(RegisterPageSchema, form, isEmail) <==>
            && Validators.LongEnough(form, "name", 2) && Validators.EmailField(form, "email", isEmail)
            && Validators.LongEnough(form, "password", 8) && Validators.LongEnough(form, "company", 2)
    ensures DistinctNames(RegisterPageSchema)
  {
    assert FieldOk(RegisterPageSchema[0], form, isEmail) && FieldOk(RegisterPageSchema[1], form, isEmail)
           && FieldOk(RegisterPageSchema[2], form, isEmail) && FieldOk(RegisterPageSchema[3], form, isEmail)
       <==> && Validators.LongEnough(form, "name", 2) && Validators.EmailField(form, "email", isEmail)
            && Validators.LongEnough(form, "password", 8) && Validators.LongEnough(form, "company", 2);
  }

  /** Every form the page accepts, the shared `registerSchema` accepts too. */
  lemma PageStricterThanLibrary(form: Form, isEmail: string -> bool)
    requires Accepts(RegisterPageSchema, form, isEmail)
    ensures Accepts(Validators.RegisterSchema, form, isEmail)
  {
    RegisterPageSchemaRule(form, isEmail);
    Validators.RegisterSchemaRule(form, isEmail);
  }

  /**
   * The two registration schemas disagree: a 7-code-unit password is rejected
   * by the page (minimum 8) and accepted by `registerSchema` (minimum 6).
   */
  lemma SevenCharacterPasswordGap(form: Form, isEmail: string -> bool, password: string)
    requires Validators.LongEnough(form, "name", 2) && Validators.EmailField(form, "email", isEmail)
    requires Validators.LongEnough(form, "company", 2)
    requires Utf16Length(password) == 7
    ensures !Accepts(RegisterPageSchema, form["password" := password], isEmail)
    ensures Accepts(Validators.RegisterSchema, form["password" := password], isEmail)
  {
    RegisterPageSchemaRule(form["password" := password], isEmail);
    Validators.RegisterSchemaRule(form["password" := password], isEmail);
  }

  class RegisterPage {
    var isLoading: bool
    var error: Option<string>
    /** `formState.errors`: the resolver's issues from the last submit attempt. */
    var fieldIssues: seq<Issue>
    /** Every `registerUser` call issued, in order. */
    var registrations: seq<Registration>
    /** Every `router.push` target, in order. */
    var navigations: seq<string>

    /** While a call is awaited, the error was cleared at its start. */
    ghost predicate Valid()
      reads this
    {
      isLoading ==> error.None?
    }

    constructor ()
      ensures Valid()
      ensures !isLoading && error.None? && fieldIssues == [] && registrations == [] && navigations == []
    {
      isLoading := false;
      error := None;
      fieldIssues := [];
      registrations := [];
      navigations := [];
    }

    /**
     * The user submits the form. Nothing happens while the button is disabled;
     * an invalid form only records its issues; a valid one clears the error,
     * sets `isLoading` and issues one `registerUser` with the four parsed fields.
     */
    method Submit(form: Form, isEmail: string -> bool)
      requires Valid()
      modifies this
      ensures Valid()
      ensures old(isLoading) ==> unchanged(this)
      ensures !old(isLoading) && !Accepts(RegisterPageSchema, form, isEmail) ==>
              && fieldIssues == Issues(RegisterPageSchema, form, isEmail) && fieldIssues != []
              && !isLoading && error == old(error)
              && registrations == old(registrations) && navigations == old(navigations)
      ensures !old(isLoading) && Accepts(RegisterPageSchema, form, isEmail) ==>
              && "name" in form && "email" in form && "password" in form && "company" in form
              && fieldIssues == [] && isLoading && error.None?
              && registrations == old(registrations)
                 + [Registration(form["name"], form["email"], form["password"], form["company"])]
              && navigations == old(navigations)
    {
      if isLoading {
        return;
      }
      var parsed := Parse(RegisterPageSchema, form, isEmail);
      match parsed {
        case Failure(issues) =>
          fieldIssues := issues;
        case Success(data) =>
          assert RegisterPageSchema[0].name == "name" && RegisterPageSchema[1].name == "email";
          assert RegisterPageSchema[2].name == "password" && RegisterPageSchema[3].name == "company";
          fieldIssues := [];
          isLoading := true;
          error := None;
          registrations := registrations
            + [Registration(data["name"], data["email"], data["password"], data["company"])];
      }
    }

    /**
     * The awaited `registerUser` settles: on return the page navigates to the
     * login page with `registered=true`; on a throw it shows `err.message`, or
     * the fixed message when that is empty or undefined. `finally` resets `isLoading`.
     */
    method Settle(outcome: CallOutcome)
      requires Valid() && isLoading
      modifies this
      ensures Valid() && !isLoading
      ensures fieldIssues == old(fieldIssues) && registrations == old(registrations)
      ensures outcome.Returned? ==> navigations == old(navigations) + [LoginAfterRegisterRoute] && error.None?
      ensures outcome.Threw? ==>
              && navigations == old(navigations)
              && error == Some(OrElse(outcome.message, RegistrationFailedMessage))
              && error.value != []
    {
      match outcome {
        case Returned =>
          navigations := navigations + [LoginAfterRegisterRoute];
        case Threw(message) =>
          error := Some(OrElse(message, RegistrationFailedMessage));
      }
      isLoading := false;
    }
  }
}
