/**
 * The shared schemas of `lib/validators.ts`, as data for the `Schema`
 * interpreter, and what each of them accepts, stated field by field.
 */
module Validators {
  import opened JsString
  import opened Schema

  const LoginSchema: ObjectSchema :=
    [FieldRule("email", Email), FieldRule("password", MinLength(6))]

  const RegisterSchema: ObjectSchema :=
    [FieldRule("name", MinLength(2)), FieldRule("email", Email), FieldRule("password", MinLength(6))]

  const PersonalInfoSchema: ObjectSchema :=
    [FieldRule("name", MinLength(2)), FieldRule("email", Email), FieldRule("phone", MinLength(6))]

  /** The levels `jobPositionSchema` admits: the lower-case spellings only. */
  const JobPositionLevels: seq<string> := ["junior", "mid", "senior"]

  const JobPositionSchema: ObjectSchema :=
    [ FieldRule("title", MinLength(2)), FieldRule("skills", MinLength(2)),
      FieldRule("level", OneOf(JobPositionLevels)), FieldRule("description", MinLength(10)) ]

  /** The field is present and at least `n` UTF-16 code units long. */
  predicate LongEnough(form: Form, key: string, n: nat) {
    key in form && Utf16Length(form[key]) >= n
  }

  /** The field is present and holds an e-mail address. */
  predicate EmailField(form: Form, key: string, isEmail: string -> bool) {
    key in form && isEmail(form[key])
  }

  lemma LoginSchemaRule(form: Form, isEmail: string -> bool)
    ensures Accepts(LoginSchema, form, isEmail) <==>
            EmailField(form, "email", isEmail) && LongEnough(form, "password", 6)
  {
    assert FieldOk(LoginSchema[0], form, isEmail) && FieldOk(LoginSchema[1], form, isEmail)
       <==> EmailField(form, "email", isEmail) && LongEnough(form, "password", 6);
  }

  /** `registerSchema` checks name, e-mail and password; it has no company field. */
  lemma RegisterSchemaRule(form: Form, isEmail: string -> bool)
    ensures Accepts(RegisterSchema, form, isEmail) <==>
            LongEnough(form, "name", 2) && EmailField(form, "email", isEmail) && LongEnough(form, "password", 6)
    ensures "company" !in FieldNames(RegisterSchema)
  {
    assert FieldOk(RegisterSchema[0], form, isEmail) && FieldOk(RegisterSchema[1], form, isEmail)
           && FieldOk(RegisterSchema[2], form, isEmail)
       <==> LongEnough(form, "name", 2) && EmailField(form, "email", isEmail) && LongEnough(form, "password", 6);
  }

  /** Whatever the company field holds, `registerSchema` gives the same verdict and strips it. */
  lemma RegisterIgnoresCompany(form: Form, isEmail: string -> bool, company: string)
    ensures Accepts(RegisterSchema, form["company" := company], isEmail) == Accepts(RegisterSchema, form, isEmail)
    ensures var r := Parse(RegisterSchema, form["company" := company], isEmail);
            r.Success? ==> "company" !in r.value
  {
    RegisterSchemaRule(form, isEmail);
    RegisterSchemaRule(form["company" := company], isEmail);
  }

  lemma PersonalInfoSchemaRule(form: Form, isEmail: string -> bool)
    ensures Accepts(PersonalInfoSchema, form, isEmail) <==>
            LongEnough(form, "name", 2) && EmailField(form, "email", isEmail) && LongEnough(form, "phone", 6)
  {
    assert FieldOk(PersonalInfoSchema[0], form, isEmail) && FieldOk(PersonalInfoSchema[1], form, isEmail)
           && FieldOk(PersonalInfoSchema[2], form, isEmail)
       <==> LongEnough(form, "name", 2) && EmailField(form, "email", isEmail) && LongEnough(form, "phone", 6);
  }

  lemma JobPositionSchemaRule(form: Form, isEmail: string -> bool)
    ensures Accepts(JobPositionSchema, form, isEmail) <==>
            && LongEnough(form, "title", 2) && LongEnough(form, "skills", 2)
            && "level" in form && form["level"] in {"junior", "mid", "senior"}
            && LongEnough(form, "description", 10)
  {
    assert FieldOk(JobPositionSchema[0], form, isEmail) && FieldOk(JobPositionSchema[1], form, isEmail)
           && FieldOk(JobPositionSchema[2], form, isEmail) && FieldOk(JobPositionSchema[3], form, isEmail)
       <==> && LongEnough(form, "title", 2) && LongEnough(form, "skills", 2)
            && "level" in form && form["level"] in {"junior", "mid", "senior"}
            && LongEnough(form, "description", 10);
  }

  /** The canonical spellings the job-creation page submits are rejected by `jobPositionSchema`. */
  lemma JobPositionRejectsCanonicalLevels(form: Form, isEmail: string -> bool)
    requires "level" in form && form["level"] in {"Beginner", "Intermediate", "Experienced"}
    ensures !Accepts(JobPositionSchema, form, isEmail)
  {
    AnyFieldFailureRejects(JobPositionSchema, form, isEmail, 2);
  }

  /** No schema here repeats a key, so the field-by-field boundary results apply to each. */
  lemma SchemasHaveDistinctNames()
    ensures DistinctNames(LoginSchema) && DistinctNames(RegisterSchema)
    ensures DistinctNames(PersonalInfoSchema) && DistinctNames(JobPositionSchema)
  {
  }

  /**
   * The login password minimum is exact: with a valid e-mail, a password of 5
   * code units is rejected and one of 6 is accepted.
   */
  lemma LoginPasswordBoundary(form: Form, isEmail: string -> bool, short: string, long: string)
    requires EmailField(form, "email", isEmail)
    requires Utf16Length(short) == 5 && Utf16Length(long) == 6
    ensures !Accepts(LoginSchema, form["password" := short], isEmail)
    ensures Accepts(LoginSchema, form["password" := long], isEmail)
  {
    LoginSchemaRule(form["password" := short], isEmail);
    LoginSchemaRule(form["password" := long], isEmail);
  }
}
