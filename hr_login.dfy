/**
 * The HR login page (`app/hr/login/page.tsx`): its own copy of the login
 * schema, and the submit flow that validates the form, calls `signIn`, and on
 * return navigates to the dashboard or on failure shows the error.
 *
 * A submission is the two halves of the async `onSubmit`: `Submit` runs the
 * resolver and `onSubmit` up to its `await`; `Settle` is the await resuming.
 */
module HrLogin {
  import opened Wrappers
  import opened JsString
  import opened Schema
  import opened Submission
  import Validators

  const LoginPageSchema: ObjectSchema :=
    [FieldRule("email", Email), FieldRule("password", MinLength(6))]

  const LoginFailedMessage: string := "Login failed. Please try again."
  const DashboardRoute: string := "/hr/dashboard"

  /** The argument of one `signIn` call. */
  datatype Credentials = Credentials(email: string, password: string)

  /** The page accepts a valid e-mail with a password of at least 6 code units, the same rule as `loginSchema`. */
  lemma LoginPageSchemaRule(form: Form, isEmail: string -> bool)
    ensures Accepts(LoginPageSchema, form, isEmail) <==>
            Validators.EmailField(form, "email", isEmail) && Validators.LongEnough(form, "password", 6)
    ensures Accepts(LoginPageSchema, form, isEmail) == Accepts(Validators.LoginSchema, form, isEmail)
    ensures DistinctNames(LoginPageSchema)
  {
    Validators.LoginSchemaRule(form, isEmail);
  }

  /** A password of 5 code units is rejected and one of 6 accepted. */
  lemma LoginPagePasswordBoundary(form: Form, isEmail: string -> bool, short: string, long: string)
    requires Validators.EmailField(form, "email", isEmail)
    requires Utf16Length(short) == 5 && Utf16Length(long) == 6
    ensures !Accepts(LoginPageSchema, form["password" := short], isEmail)
    ensures Accepts(LoginPageSchema, form["password" := long], isEmail)
  {
    Validators.LoginPasswordBoundary(form, isEmail, short, long);
  }

  class LoginPage {
    var isLoading: bool
    var error: Option<string>
    /** `formState.errors`: the resolver's issues from the last submit attempt. */
    var fieldIssues: seq<Issue>
    /** Every `signIn` call issued, in order. */
    var signIns: seq<Credentials>
    /** Every `router.push` target, in order. */
    var navigations: seq<string>

    /** While a call is awaited, the error was cleared at its start. */
    ghost predicate Valid()
      reads this
    {
      isLoading ==> error.None?
    }

    constructor ()
      ensures Valid()
      ensures !isLoading && error.None? && fieldIssues == [] && signIns == [] && navigations == []
    {
      isLoading := false;
      error := None;
      fieldIssues := [];
      signIns := [];
      navigations := [];
    }

    /**
     * The user submits the form. While a call is pending the submit button is
     * disabled and nothing happens; otherwise an invalid form only records its
     * issues, and a valid one clears the error, sets `isLoading` and issues one
     * `signIn` with the parsed values.
     */
    method Submit(form: Form, isEmail: string -> bool)
      requires Valid()
      modifies this
      ensures Valid()
      ensures old(isLoading) ==> unchanged(this)
      ensures !old(isLoading) && !Accepts(LoginPageSchema, form, isEmail) ==>
              && fieldIssues == Issues(LoginPageSchema, form, isEmail) && fieldIssues != []
              && !isLoading && error == old(error)
              && signIns == old(signIns) && navigations == old(navigations)
      ensures !old(isLoading) && Accepts(LoginPageSchema, form, isEmail) ==>
              && "email" in form && "password" in form
              && fieldIssues == [] && isLoading && error.None?
              && signIns == old(signIns) + [Credentials(form["email"], form["password"])]
              && navigations == old(navigations)
    {
      if isLoading {
        return;
      }
      var parsed := Parse(LoginPageSchema, form, isEmail);
      match parsed {
        case Failure(issues) =>
          fieldIssues := issues;
        case Success(data) =>
          assert LoginPageSchema[0].name == "email" && LoginPageSchema[1].name == "password";
          fieldIssues := [];
          isLoading := true;
          error := None;
          signIns := signIns + [Credentials(data["email"], data["password"])];
      }
    }

    /**
     * The awaited `signIn` settles. On return the page navigates to the
     * dashboard; on a throw it shows `err.message`, or the fixed message when that
     * is empty or undefined, and does not navigate. Either way `finally` resets `isLoading`.
     */
    method Settle(outcome: CallOutcome)
      requires Valid() && isLoading
      modifies this
      ensures Valid() && !isLoading
      ensures fieldIssues == old(fieldIssues) && signIns == old(signIns)
      ensures outcome.Returned? ==> navigations == old(navigations) + [DashboardRoute] && error.None?
      ensures outcome.Threw? ==>
              && navigations == old(navigations)
              && error == Some(OrElse(outcome.message, LoginFailedMessage))
              && error.value != []
    {
      match outcome {
        case Returned =>
          navigations := navigations + [DashboardRoute];
        case Threw(message) =>
          error := Some(OrElse(message, LoginFailedMessage));
      }
      isLoading := false;
    }
  }
}
