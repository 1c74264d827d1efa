/**
 * The job-creation page (`app/hr/job/create/page.tsx`): its schema, which admits
 * six level spellings; `levelMap`, which folds them onto the three canonical
 * levels; the skills field turned into a list by `split(",")` and `trim`; and
 * the submit flow, which stops early without an auth token.
 */
module JobCreate {
  import opened Wrappers
  import opened JsString
  import opened Schema
  import opened Submission
  import Validators

  /** The level spellings `jobSchema` admits, in its order. */
  const JobLevels: seq<string> := ["Beginner", "Intermediate", "Experienced", "junior", "mid", "senior"]

  const JobSchema: ObjectSchema :=
    [ FieldRule("title", MinLength(2)), FieldRule("skills", MinLength(2)),
      FieldRule("level", OneOf(JobLevels)), FieldRule("description", MinLength(10)) ]

  /** The job schema has no e-mail field, so which strings count as e-mail addresses is irrelevant to it. */
  function NoEmailField(s: string): bool {
    false
  }

  const LoginFirstMessage: string := "Please login first"
  const CreateFailedMessage: string := "Failed to create job. Please try again."
  const LoginRoute: string := "/hr/login"
  const JobsTabRoute: string := "/hr/dashboard?tab=jobs"

  /** The experience levels the backend stores. */
  datatype ExperienceLevel = Beginner | Intermediate | Experienced {
    function Name(): string {
      match this
      case Beginner => "Beginner"
      case Intermediate => "Intermediate"
      case Experienced => "Experienced"
    }
  }

  /** `levelMap`. */
  const LevelMap: map<string, ExperienceLevel> :=
    map[ "junior" := Beginner, "mid" := Intermediate, "senior" := Experienced,
         "Beginner" := Beginner, "Intermediate" := Intermediate, "Experienced" := Experienced ]

  /**
   * `levelMap` sends the lower-case spellings to their canonical level, each
   * canonical level to itself, and is defined on exactly the levels the schema admits.
   */
  lemma LevelMapSpec()
    ensures LevelMap["junior"] == Beginner && LevelMap["mid"] == Intermediate && LevelMap["senior"] == Experienced
    ensures forall l: ExperienceLevel :: l.Name() in LevelMap && LevelMap[l.Name()] == l
    ensures forall k :: k in LevelMap <==> k in JobLevels
  {
  }

  /** Mapping a level and mapping the result's name again gives the same level: the map is idempotent. */
  lemma LevelMapIdempotent(k: string)
    requires k in LevelMap
    ensures LevelMap[k].Name() in LevelMap && LevelMap[LevelMap[k].Name()] == LevelMap[k]
  {
    LevelMapSpec();
  }

  lemma JobSchemaRule(form: Form, isEmail: string -> bool)
    ensures Accepts(JobSchema, form, isEmail) <==>
            && Validators.LongEnough(form, "title", 2) && Validators.LongEnough(form, "skills", 2)
            && "level" in form && form["level"] in JobLevels
            && Validators.LongEnough(form, "description", 10)
    ensures DistinctNames(JobSchema)
  {
    assert FieldOk(JobSchema[0], form, isEmail) && FieldOk(JobSchema[1], form, isEmail)
           && FieldOk(JobSchema[2], form, isEmail) && FieldOk(JobSchema[3], form, isEmail)
       <==> && Validators.LongEnough(form, "title", 2) && Validators.LongEnough(form, "skills", 2)
            && "level" in form && form["level"] in JobLevels
            && Validators.LongEnough(form, "description", 10);
  }

  /** The select's placeholder option has the value "", which the schema rejects. */
  lemma EmptyLevelRejected(form: Form, isEmail: string -> bool)
    requires "level" in form && form["level"] == ""
    ensures !Accepts(JobSchema, form, isEmail)
  {
    JobSchemaRule(form, isEmail);
  }

  /** Every accepted level has a `levelMap` entry, and it is a canonical level. */
  lemma AcceptedLevelIsMapped(form: Form, isEmail: string -> bool)
    requires Accepts(JobSchema, form, isEmail)
    ensures "level" in form && form["level"] in LevelMap
    ensures LevelMap[form["level"]] in {Beginner, Intermediate, Experienced}
  {
    JobSchemaRule(form, isEmail);
    LevelMapSpec();
  }

  /**
   * The page admits more levels than `jobPositionSchema`: whatever that schema
   * accepts, the page accepts, while the canonical spellings only the page accepts.
   */
  lemma PageAdmitsMoreLevelsThanLibrary(form: Form, isEmail: string -> bool)
    ensures Accepts(Validators.JobPositionSchema, form, isEmail) ==> Accepts(JobSchema, form, isEmail)
    ensures "level" in form && form["level"] in {"Beginner", "Intermediate", "Experienced"} ==>
            !Accepts(Validators.JobPositionSchema, form, isEmail)
  {
    JobSchemaRule(form, isEmail);
    Validators.JobPositionSchemaRule(form, isEmail);
  }

  /** `skills.split(",").map((s) => s.trim())`. */
  function NormaliseSkills(skills: string): (r: seq<string>)
    ensures |r| == multiset(skills)[','] + 1
    ensures forall i :: 0 <= i < |r| ==> IsTrimmed(r[i])
  {
    SplitCount(skills, ',');
    var parts := Split(skills, ',');
    seq(|parts|, i requires 0 <= i < |parts| => Trim(parts[i]))
  }

  /**
   * The skills list has one entry per comma-separated segment, empty segments
   * included, in input order, and the segments joined with "," are the input.
   */
  lemma SkillsNormalisation(skills: string)
    ensures var parts := Split(skills, ','); var r := NormaliseSkills(skills);
      && |r| == multiset(skills)[','] + 1 && |r| == |parts|
      && Join(parts, ',') == skills
      && forall i :: 0 <= i < |r| ==> r[i] == Trim(parts[i])
  {
    SplitCount(skills, ',');
    JoinSplit(skills, ',');
  }

  /** Each skill entry holds no comma and has no white space left to trim. */
  lemma SkillEntriesTrimmed(skills: string)
    ensures var r := NormaliseSkills(skills);
      forall i :: 0 <= i < |r| ==> ',' !in r[i] && IsTrimmed(r[i]) && Trim(r[i]) == r[i]
  {
    var parts := Split(skills, ',');
    var r := NormaliseSkills(skills);
    SplitSegmentsFree(skills, ',');
    forall i | 0 <= i < |r|
      ensures ',' !in r[i] && IsTrimmed(r[i]) && Trim(r[i]) == r[i]
    {
      var p := parts[i];
      assert r[i] == Trim(p);
      assert ',' !in p;
      TrimKeepsAbsent(p, ',');
      TrimIdempotent(p);
    }
  }

  /** Two adjacent commas leave an empty entry between the two trimmed neighbours. */
  lemma EmptySegmentKept(a: string, b: string)
    requires ',' !in a && ',' !in b
    ensures NormaliseSkills(a + [',', ','] + b) == [Trim(a), "", Trim(b)]
  {
    SplitAroundTwoCommas(a, b);
    assert Trim([]) == [];
  }

  /** The segments of `a,,b` are `a`, the empty string and `b`. */
  lemma SplitAroundTwoCommas(a: string, b: string)
    requires ',' !in a && ',' !in b
    ensures Split(a + [',', ','] + b, ',') == [a, [], b]
  {
    SplitPrefix(b, [], ',');
    assert b + [] == b;
    var tail := [','] + b;
    assert tail[1..] == b;
    var mid := [','] + tail;
    assert mid[1..] == tail;
    assert a + [',', ','] + b == a + mid;
    SplitPrefix(a, mid, ',');
    assert a + [] == a;
  }

  /** The body of the `createJobPosition` request. */
  datatype JobPayload = JobPayload(
    title: string, requiredSkills: seq<string>, experienceLevel: ExperienceLevel, description: string)

  /**
   * The job schema checks no field for being an e-mail address, so its issues
   * and its verdict are the same whichever e-mail predicate is supplied.
   */
  lemma JobSchemaIgnoresEmail(form: Form, isEmail: string -> bool)
    ensures Issues(JobSchema, form, isEmail) == Issues(JobSchema, form, NoEmailField)
    ensures Accepts(JobSchema, form, isEmail) <==> Accepts(JobSchema, form, NoEmailField)
  {
    IssuesIgnoreEmail(JobSchema, form, isEmail, NoEmailField);
  }

  /** The request `onSubmit` builds from validated form data. */
  function BuildPayload(data: Form): (p: JobPayload)
    requires Accepts(JobSchema, data, NoEmailField)
    ensures "title" in data && "skills" in data && "level" in data && "description" in data
    ensures p.title == data["title"] && p.description == data["description"]
    ensures p.requiredSkills == NormaliseSkills(data["skills"])
    ensures data["level"] in LevelMap && p.experienceLevel == LevelMap[data["level"]]
  {
    JobSchemaRule(data, NoEmailField);
    LevelMapSpec();
    JobPayload(data["title"], NormaliseSkills(data["skills"]), LevelMap[data["level"]], data["description"])
  }

  /** The validated data `onSubmit` receives yields the same request as the raw form. */
  lemma ParsedPayload(form: Form)
    requires Accepts(JobSchema, form, NoEmailField)
    ensures Parse(JobSchema, form, NoEmailField).Success?
    ensures Accepts(JobSchema, Parse(JobSchema, form, NoEmailField).value, NoEmailField)
    ensures BuildPayload(Parse(JobSchema, form, NoEmailField).value) == BuildPayload(form)
  {
    var data := Parse(JobSchema, form, NoEmailField).value;
    JobSchemaRule(form, NoEmailField);
    assert JobSchema[0].name == "title" && JobSchema[1].name == "skills";
    assert JobSchema[2].name == "level" && JobSchema[3].name == "description";
    JobSchemaRule(data, NoEmailField);
  }

  /** How the awaited `createJobPosition` ends. */
  datatype CreateOutcome =
    | Responded(status: int)
      /** `err.response?.data?.error` and `err.message`, None when undefined. */
    | Failed(responseError: Option<string>, message: Option<string>)

  class CreateJobPage {
    var isLoading: bool
    var error: Option<string>
    /** `formState.errors`: the resolver's issues from the last submit attempt. */
    var fieldIssues: seq<Issue>
    /** Every `createJobPosition` request issued, in order. */
    var createRequests: seq<JobPayload>
    /** Every `router.push` target, in order. */
    var navigations: seq<string>

    /** While a request is awaited, the error was cleared at its start. */
    ghost predicate Valid()
      reads this
    {
      isLoading ==> error.None?
    }

    constructor ()
      ensures Valid()
      ensures !isLoading && error.None? && fieldIssues == [] && createRequests == [] && navigations == []
    {
      isLoading := false;
      error := None;
      fieldIssues := [];
      createRequests := [];
      navigations := [];
    }

    /**
     * The user submits the form with the stored auth token `authToken`.
     * Nothing happens while the button is disabled; an invalid form only records
     * its issues. For a valid form, a missing or empty token shows "Please login
     * first", navigates to the login page and issues no request; otherwise one
     * request is issued and `isLoading` stays set until it settles.
     */
    method Submit(form: Form, authToken: Option<string>)
      requires Valid()
      modifies this
      ensures Valid()
      ensures old(isLoading) ==> unchanged(this)
      ensures !old(isLoading) && !Accepts(JobSchema, form, NoEmailField) ==>
              && fieldIssues == Issues(JobSchema, form, NoEmailField) && fieldIssues != []
              && !isLoading && error == old(error)
              && createRequests == old(createRequests) && navigations == old(navigations)
      ensures !old(isLoading) && Accepts(JobSchema, form, NoEmailField) && !Truthy(authToken) ==>
              && fieldIssues == [] && !isLoading && error == Some(LoginFirstMessage)
              && createRequests == old(createRequests) && navigations == old(navigations) + [LoginRoute]
      ensures !old(isLoading) && Accepts(JobSchema, form, NoEmailField) && Truthy(authToken) ==>
              && fieldIssues == [] && isLoading && error.None?
              && createRequests == old(createRequests) + [BuildPayload(form)]
              && navigations == old(navigations)
    {
      if isLoading {
        return;
      }
      var parsed := Parse(JobSchema, form, NoEmailField);
      match parsed {
        case Failure(issues) =>
          fieldIssues := issues;
        case Success(data) =>
          fieldIssues := [];
          isLoading := true;
          error := None;
          if !Truthy(authToken) {
            error := Some(LoginFirstMessage);
            navigations := navigations + [LoginRoute];
            isLoading := false;
            return;
          }
          ParsedPayload(form);
          createRequests := createRequests + [BuildPayload(data)];
      }
    }

    /**
     * The awaited request settles: status 201 navigates to the jobs tab and any
     * other status does nothing; a failure shows the response's `error`, else
     * `err.message`, else the fixed message. `finally` resets `isLoading`.
     */
    method Settle(outcome: CreateOutcome)
      requires Valid() && isLoading
      modifies this
      ensures Valid() && !isLoading
      ensures fieldIssues == old(fieldIssues) && createRequests == old(createRequests)
      ensures outcome.Responded? ==>
              && error.None?
              && navigations == old(navigations) + (if outcome.status == 201 then [JobsTabRoute] else [])
      ensures outcome.Failed? ==>
              && navigations == old(navigations)
              && error == Some(OrElse(outcome.responseError, OrElse(outcome.message, CreateFailedMessage)))
              && error.value != []
    {
      match outcome {
        case Responded(status) =>
          if status == 201 {
            navigations := navigations + [JobsTabRoute];
          }
        case Failed(responseError, message) =>
          error := Some(OrElse(responseError, OrElse(message, CreateFailedMessage)));
      }
      isLoading := false;
    }
  }
}
