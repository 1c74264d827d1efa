/**
 * The part of zod the HR forms use: `z.object({...})` over string fields, each
 * field carrying one check (`.min(n)`, `.email()` or `z.enum([...])`). A schema is
 * the ordered list of its fields; parsing a form (the values object that
 * react-hook-form hands to the resolver) yields the issues of the failing fields
 * in field order, or, when there are none, the form stripped to the schema's keys.
 *
 * Which strings are e-mail addresses is zod's regular expression; the model takes
 * it as a parameter `isEmail`.
 */
module Schema {
  import opened Wrappers
  import opened JsString

  /** The check on one string field. */
  datatype Check =
    | MinLength(min: nat)            // z.string().min(min): at least `min` UTF-16 code units
    | Email                          // z.string().email()
    | OneOf(options: seq<string>)    // z.enum(options)

  datatype FieldRule = FieldRule(name: string, check: Check)

  /** An ordered `z.object` shape. */
  type ObjectSchema = seq<FieldRule>

  /** The values object: field name to the string typed into it. */
  type Form = map<string, string>

  /** zod's issue codes for the checks above; a missing key is `invalid_type` ("Required"). */
  datatype IssueCode = Required | TooSmall(minimum: nat) | InvalidEmail | InvalidEnumValue(options: seq<string>)

  datatype Issue = Issue(path: string, code: IssueCode)

  predicate Passes(c: Check, v: string, isEmail: string -> bool) {
    match c
    case MinLength(n) => Utf16Length(v) >= n
    case Email => isEmail(v)
    case OneOf(options) => v in options
  }

  /** The field is present and its value passes its check. */
  predicate FieldOk(rule: FieldRule, form: Form, isEmail: string -> bool) {
    rule.name in form && Passes(rule.check, form[rule.name], isEmail)
  }

  /** The issue zod reports for one field, if any. */
  function FieldIssue(rule: FieldRule, form: Form, isEmail: string -> bool): (i: Option<Issue>)
    ensures i.None? <==> FieldOk(rule, form, isEmail)
    ensures i.Some? ==> i.value.path == rule.name
  {
    if rule.name !in form then Some(Issue(rule.name, Required))
    else
      var v := form[rule.name];
      match rule.check
      case MinLength(n) => if Utf16Length(v) < n then Some(Issue(rule.name, TooSmall(n))) else None
      case Email => if !isEmail(v) then Some(Issue(rule.name, InvalidEmail)) else None
      case OneOf(options) => if v !in options then Some(Issue(rule.name, InvalidEnumValue(options))) else None
  }

  /** All issues of the form, one per failing field, in the schema's field order. */
  function Issues(schema: ObjectSchema, form: Form, isEmail: string -> bool): (r: seq<Issue>)
    ensures |r| <= |schema|
    decreases |schema|
  {
    if schema == [] then []
    else
      var first := match FieldIssue(schema[0], form, isEmail) case Some(i) => [i] case None => [];
      first + Issues(schema[1..], form, isEmail)
  }

  /**
   * The issues are exactly the issues of the individual fields: an issue is
   * reported precisely when some field of the schema yields it.
   */
  lemma {:induction false} IssuesMembers(schema: ObjectSchema, form: Form, isEmail: string -> bool)
    ensures forall x :: x in Issues(schema, form, isEmail) <==>
              exists j :: 0 <= j < |schema| && FieldIssue(schema[j], form, isEmail) == Some(x)
    decreases |schema|
  {
    if schema != [] {
      var first := match FieldIssue(schema[0], form, isEmail) case Some(i) => [i] case None => [];
      var rest := Issues(schema[1..], form, isEmail);
      IssuesMembers(schema[1..], form, isEmail);
      assert Issues(schema, form, isEmail) == first + rest;
      forall x
        ensures x in Issues(schema, form, isEmail) <==>
                exists j :: 0 <= j < |schema| && FieldIssue(schema[j], form, isEmail) == Some(x)
      {
        if x in first {
          assert FieldIssue(schema[0], form, isEmail) == Some(x);
        } else if x in rest {
          var j :| 0 <= j < |schema[1..]| && FieldIssue(schema[1..][j], form, isEmail) == Some(x);
          assert schema[j + 1] == schema[1..][j];
        }
        if exists j :: 0 <= j < |schema| && FieldIssue(schema[j], form, isEmail) == Some(x) {
          var j :| 0 <= j < |schema| && FieldIssue(schema[j], form, isEmail) == Some(x);
          if j == 0 {
            assert x in first;
          } else {
            assert schema[1..][j - 1] == schema[j];
            assert x in rest;
          }
        }
      }
    }
  }

  /** No two issues share a path. */
  predicate DistinctPaths(r: seq<Issue>) {
    forall i, k :: 0 <= i < k < |r| ==> r[i].path != r[k].path
  }

  /** With distinct field names, no two issues share a path. */
  lemma {:induction false} IssuePathsDistinct(schema: ObjectSchema, form: Form, isEmail: string -> bool)
    requires DistinctNames(schema)
    ensures DistinctPaths(Issues(schema, form, isEmail))
    decreases |schema|
  {
    if schema != [] {
      var first := match FieldIssue(schema[0], form, isEmail) case Some(i) => [i] case None => [];
      var rest := Issues(schema[1..], form, isEmail);
      var r := Issues(schema, form, isEmail);
      assert r == first + rest;
      assert DistinctNames(schema[1..]) by {
        forall i, k | 0 <= i < k < |schema[1..]|
          ensures schema[1..][i].name != schema[1..][k].name
        {
          assert schema[1..][i] == schema[i + 1] && schema[1..][k] == schema[k + 1];
        }
      }
      IssuePathsDistinct(schema[1..], form, isEmail);
      assert DistinctPaths(rest);
      IssuesMembers(schema[1..], form, isEmail);
      forall k | 0 <= k < |rest|
        ensures rest[k].path != schema[0].name
      {
        assert rest[k] in rest;
        var j :| 0 <= j < |schema[1..]| && FieldIssue(schema[1..][j], form, isEmail) == Some(rest[k]);
        assert schema[1..][j] == schema[j + 1];
      }
      var fi := FieldIssue(schema[0], form, isEmail);
      assert fi.Some? ==> first == [fi.value] && fi.value.path == schema[0].name;
      assert fi.None? ==> first == [];
      forall i, k | 0 <= i < k < |r|
        ensures r[i].path != r[k].path
      {
        if i < |first| {
          assert i == 0 && r[0] == fi.value;
          assert r[k] == rest[k - 1];
        } else {
          assert r[i] == rest[i - |first|] && r[k] == rest[k - |first|];
          assert rest[i - |first|].path != rest[k - |first|].path;
        }
      }
    }
  }

  /** `r[i]` is the one issue in `r` whose path is `name`. */
  predicate OnlyIssueFor(r: seq<Issue>, i: int, name: string) {
    0 <= i < |r| && r[i].path == name && forall k :: 0 <= k < |r| && r[k].path == name ==> k == i
  }

  /**
   * What the form shows under each field: with distinct field names, a failing
   * field is the path of exactly one issue and a passing field of none.
   */
  lemma IssuePaths(schema: ObjectSchema, form: Form, isEmail: string -> bool, j: nat)
    requires DistinctNames(schema) && j < |schema|
    ensures FieldOk(schema[j], form, isEmail) ==>
              forall i :: 0 <= i < |Issues(schema, form, isEmail)| ==> Issues(schema, form, isEmail)[i].path != schema[j].name
    ensures !FieldOk(schema[j], form, isEmail) ==>
              exists i :: OnlyIssueFor(Issues(schema, form, isEmail), i, schema[j].name)
                          && FieldIssue(schema[j], form, isEmail) == Some(Issues(schema, form, isEmail)[i])
  {
    var r := Issues(schema, form, isEmail);
    IssuesMembers(schema, form, isEmail);
    IssuePathsDistinct(schema, form, isEmail);
    assert DistinctPaths(r);
    if FieldOk(schema[j], form, isEmail) {
      forall i | 0 <= i < |r|
        ensures r[i].path != schema[j].name
      {
        assert r[i] in r;
        var m :| 0 <= m < |schema| && FieldIssue(schema[m], form, isEmail) == Some(r[i]);
        assert m != j;
      }
    } else {
      var x := FieldIssue(schema[j], form, isEmail).value;
      assert exists m :: 0 <= m < |schema| && FieldIssue(schema[m], form, isEmail) == Some(x);
      assert x in r;
      var i :| 0 <= i < |r| && r[i] == x;
      assert x.path == schema[j].name;
      assert forall k :: 0 <= k < |r| && r[k].path == schema[j].name ==> k == i;
      assert OnlyIssueFor(r, i, schema[j].name) && FieldIssue(schema[j], form, isEmail) == Some(r[i]);
    }
  }

  /** With no issues, every field passes, and conversely. */
  lemma {:induction false} NoIssuesIff(schema: ObjectSchema, form: Form, isEmail: string -> bool)
    ensures Issues(schema, form, isEmail) == [] <==>
            forall i :: 0 <= i < |schema| ==> FieldOk(schema[i], form, isEmail)
    decreases |schema|
  {
    if schema != [] {
      NoIssuesIff(schema[1..], form, isEmail);
      assert forall i :: 1 <= i < |schema| ==> schema[i] == schema[1..][i - 1];
    }
  }

  /** The resolver accepts the form (zod's `success`) exactly when every field is present and passes its check. */
  predicate Accepts(schema: ObjectSchema, form: Form, isEmail: string -> bool)
    ensures Accepts(schema, form, isEmail) <==> forall i :: 0 <= i < |schema| ==> FieldOk(schema[i], form, isEmail)
  {
    NoIssuesIff(schema, form, isEmail);
    Issues(schema, form, isEmail) == []
  }

  /**
   * Which strings count as e-mail addresses matters only to e-mail fields: a
   * schema without one reports the same issues under any `isEmail`.
   */
  lemma {:induction false} IssuesIgnoreEmail(schema: ObjectSchema, form: Form, e1: string -> bool, e2: string -> bool)
    requires forall j :: 0 <= j < |schema| ==> !schema[j].check.Email?
    ensures Issues(schema, form, e1) == Issues(schema, form, e2)
    ensures Accepts(schema, form, e1) == Accepts(schema, form, e2)
    decreases |schema|
  {
    if schema != [] {
      assert forall j :: 0 <= j < |schema[1..]| ==> schema[1..][j] == schema[j + 1];
      IssuesIgnoreEmail(schema[1..], form, e1, e2);
      assert FieldIssue(schema[0], form, e1) == FieldIssue(schema[0], form, e2);
    }
  }

  /** A single failing field is enough for the schema to reject. */
  lemma AnyFieldFailureRejects(schema: ObjectSchema, form: Form, isEmail: string -> bool, i: nat)
    requires i < |schema| && !FieldOk(schema[i], form, isEmail)
    ensures !Accepts(schema, form, isEmail)
  {
  }

  function FieldNames(schema: ObjectSchema): set<string> {
    set i | 0 <= i < |schema| :: schema[i].name
  }

  predicate DistinctNames(schema: ObjectSchema) {
    forall i, j :: 0 <= i < j < |schema| ==> schema[i].name != schema[j].name
  }

  /**
   * `schema.safeParse(form)`: the issues on failure; on success the form's values
   * for exactly the schema's keys (unknown keys are stripped).
   */
  function Parse(schema: ObjectSchema, form: Form, isEmail: string -> bool): (r: Result<Form, seq<Issue>>)
    ensures r.Success? <==> Accepts(schema, form, isEmail)
    ensures r.Failure? ==> r.error != []
    ensures r.Success? ==> r.value.Keys == FieldNames(schema) &&
                           forall k :: k in r.value ==> k in form && r.value[k] == form[k]
  {
    if Accepts(schema, form, isEmail) then
      assert forall i :: 0 <= i < |schema| ==> schema[i].name in form by {
        forall i | 0 <= i < |schema| ensures schema[i].name in form {
          assert FieldOk(schema[i], form, isEmail);
        }
      }
      Success(map k | k in form && k in FieldNames(schema) :: form[k])
    else
      Failure(Issues(schema, form, isEmail))
  }

  /**
   * Each field decides on its own: when every other field passes, the schema
   * accepts the form with field `i` set to `v` exactly when `v` passes field `i`'s check.
   */
  lemma FieldDecides(schema: ObjectSchema, form: Form, isEmail: string -> bool, i: nat, v: string)
    requires i < |schema| && DistinctNames(schema)
    requires forall j :: 0 <= j < |schema| && j != i ==> FieldOk(schema[j], form, isEmail)
    ensures Accepts(schema, form[schema[i].name := v], isEmail) <==> Passes(schema[i].check, v, isEmail)
  {
    var form' := form[schema[i].name := v];
    forall j | 0 <= j < |schema| && j != i
      ensures FieldOk(schema[j], form', isEmail)
    {
      assert schema[j].name != schema[i].name by {
        if j < i { assert DistinctNames(schema); } else { assert DistinctNames(schema); }
      }
      assert FieldOk(schema[j], form, isEmail);
    }
    assert FieldOk(schema[i], form', isEmail) <==> Passes(schema[i].check, v, isEmail);
  }

  /**
   * Every `.min(n)` is exact: with the other fields valid, a value of n - 1
   * code units is rejected and one of n code units is accepted.
   */
  lemma MinimumIsExact(schema: ObjectSchema, form: Form, isEmail: string -> bool, i: nat, short: string, long: string)
    requires i < |schema| && DistinctNames(schema)
    requires schema[i].check.MinLength? && schema[i].check.min >= 1
    requires forall j :: 0 <= j < |schema| && j != i ==> FieldOk(schema[j], form, isEmail)
    requires Utf16Length(short) == schema[i].check.min - 1
    requires Utf16Length(long) == schema[i].check.min
    ensures !Accepts(schema, form[schema[i].name := short], isEmail)
    ensures Accepts(schema, form[schema[i].name := long], isEmail)
  {
    FieldDecides(schema, form, isEmail, i, short);
    FieldDecides(schema, form, isEmail, i, long);
  }
}
