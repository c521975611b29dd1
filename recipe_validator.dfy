/**
 * The per-file recipe check: a decoded document and the name of the
 * directory holding it go in, the ordered list of every problem found
 * comes out.
 */
module RecipeValidator {
  import opened Json

  /** The top-level keys every recipe must have, in the order they are checked. */
  const REQUIRED_FIELDS: seq<string> := ["name", "profile", "version", "description", "steps"]

  /** The profiles a recipe may declare. */
  const ALLOWED_PROFILES: set<string> := {"lite", "base", "scalable", "timed"}

  /** One kind of problem per message the validator can report. */
  datatype Problem =
    | InvalidJson(detail: string)
    | MissingField(field: string)
    | ProfileNotAllowed
    | ProfileMismatch(profile: Json, expectedParent: string)
    | StepsNotNonEmptyArray
    | StepNotObject(index: nat)
    | StepMissingId(index: nat)
    | StepMissingUses(index: nat)

  /** A reported problem, tagged with the file it was found in. */
  datatype Message = Message(path: string, problem: Problem)

  /** `profile in ALLOWED_PROFILES` for a hashable decoded value. */
  predicate AllowedProfile(profile: Json)
  {
    profile.Str? && profile.s in ALLOWED_PROFILES
  }

  /**
   * The documents the validator handles without raising: a decoding
   * failure, or an object whose `profile`, if any, can be looked up in a set.
   */
  predicate Checkable(doc: ParseResult)
  {
    doc.ParseOk? ==> doc.value.Obj? && Hashable(Get(doc.value.fields, "profile"))
  }

  /** The missing-field messages for the first `n` required fields. */
  function MissingFieldErrors(path: string, fields: map<string, Json>, n: nat): seq<Message>
    requires n <= |REQUIRED_FIELDS|
  {
    if n == 0 then []
    else if REQUIRED_FIELDS[n - 1] in fields then MissingFieldErrors(path, fields, n - 1)
    else MissingFieldErrors(path, fields, n - 1) + [Message(path, MissingField(REQUIRED_FIELDS[n - 1]))]
  }

  /** The profile-enumeration message, if the profile is not an allowed one. */
  function ProfileErrors(path: string, profile: Json): seq<Message>
  {
    if AllowedProfile(profile) then [] else [Message(path, ProfileNotAllowed)]
  }

  /** The directory-mismatch message, if a truthy profile differs from the parent name. */
  function MismatchErrors(path: string, profile: Json, parent: string): seq<Message>
  {
    if Truthy(profile) && Str(parent) != profile then [Message(path, ProfileMismatch(profile, parent))] else []
  }

  /**
   * The messages for the step at index `idx`: a non-object gets only the
   * non-object message; an object gets one message per absent key, `id`
   * before `uses`.
   */
  function StepErrors(path: string, idx: nat, step: Json): seq<Message>
  {
    if !step.Obj? then [Message(path, StepNotObject(idx))]
    else if "id" in step.fields && "uses" in step.fields then []
    else if "id" in step.fields then [Message(path, StepMissingUses(idx))]
    else if "uses" in step.fields then [Message(path, StepMissingId(idx))]
    else [Message(path, StepMissingId(idx)), Message(path, StepMissingUses(idx))]
  }

  /** The messages for the first `n` steps, in index order. */
  function StepListErrors(path: string, steps: seq<Json>, n: nat): seq<Message>
    requires n <= |steps|
  {
    if n == 0 then [] else StepListErrors(path, steps, n - 1) + StepErrors(path, n - 1, steps[n - 1])
  }

  /** True when `steps` is a list with at least one element. */
  predicate NonEmptyArray(steps: Json)
  {
    steps.Arr? && steps.items != []
  }

  /** The shape messages for the `steps` value. */
  function StepsErrors(path: string, steps: Json): seq<Message>
  {
    if NonEmptyArray(steps) then StepListErrors(path, steps.items, |steps.items|)
    else [Message(path, StepsNotNonEmptyArray)]
  }

  /** Everything the validator reports about one file, in order. */
  function Report(path: string, doc: ParseResult, parent: string): seq<Message>
    requires Checkable(doc)
  {
    match doc
    case ParseError(detail) => [Message(path, InvalidJson(detail))]
    case ParseOk(value) =>
      var profile := Get(value.fields, "profile");
      MissingFieldErrors(path, value.fields, |REQUIRED_FIELDS|) +
      ProfileErrors(path, profile) +
      MismatchErrors(path, profile, parent) +
      StepsErrors(path, Get(value.fields, "steps"))
  }

  /**
   * A recipe that passes every check, stated directly: it decodes to an
   * object holding every required field, its profile is allowed and names
   * its parent directory, and its steps are a non-empty list of objects each
   * holding `id` and `uses`.
   */
  predicate WellFormedRecipe(doc: ParseResult, parent: string)
  {
    && doc.ParseOk?
    && doc.value.Obj?
    && (forall k :: 0 <= k < |REQUIRED_FIELDS| ==> REQUIRED_FIELDS[k] in doc.value.fields)
    && parent in ALLOWED_PROFILES
    && Get(doc.value.fields, "profile") == Str(parent)
    && var steps := Get(doc.value.fields, "steps");
    && steps.Arr?
    && |steps.items| > 0
    && forall i :: 0 <= i < |steps.items| ==>
         steps.items[i].Obj? && "id" in steps.items[i].fields && "uses" in steps.items[i].fields
  }

  /** The loop over `REQUIRED_FIELDS`: one message per absent key, in list order. */
  method CheckRequiredFields(path: string, data: map<string, Json>) returns (errors: seq<Message>)
    ensures errors == MissingFieldErrors(path, data, |REQUIRED_FIELDS|)
  {
    errors := [];
    for i := 0 to |REQUIRED_FIELDS|
      invariant errors == MissingFieldErrors(path, data, i)
    {
      var field := REQUIRED_FIELDS[i];
      if field !in data {
        errors := errors + [Message(path, MissingField(field))];
      }
    }
  }

  /**
   * The loop over the steps: a non-object step gets one message and no
   * further checks; an object step gets one message per absent `id`/`uses`.
   */
  method CheckSteps(path: string, items: seq<Json>) returns (errors: seq<Message>)
    ensures errors == StepListErrors(path, items, |items|)
  {
    errors := [];
    for idx := 0 to |items|
      invariant errors == StepListErrors(path, items, idx)
    {
      var step := items[idx];
      if !step.Obj? {
        errors := errors + [Message(path, StepNotObject(idx))];
        continue;
      }
      if "id" !in step.fields {
        errors := errors + [Message(path, StepMissingId(idx))];
      }
      if "uses" !in step.fields {
        errors := errors + [Message(path, StepMissingUses(idx))];
      }
    }
  }

  /**
   * `validate_recipe`: collects every problem of one file, stopping early
   * only on a decoding failure and skipping the per-step checks when
   * `steps` is not a non-empty list.
   */
  method ValidateRecipe(path: string, doc: ParseResult, parent: string) returns (errors: seq<Message>)
    requires Checkable(doc)
    ensures errors == Report(path, doc, parent)
  {
    if doc.ParseError? {
      return [Message(path, InvalidJson(doc.message))];
    }
    var data := doc.value.fields;

    errors := CheckRequiredFields(path, data);

    var profile := Get(data, "profile");
    if !AllowedProfile(profile) {
      errors := errors + [Message(path, ProfileNotAllowed)];
    }

    if Truthy(profile) && Str(parent) != profile {
      errors := errors + [Message(path, ProfileMismatch(profile, parent))];
    }

    var steps := Get(data, "steps");
    if !steps.Arr? || steps.items == [] {
      errors := errors + [Message(path, StepsNotNonEmptyArray)];
    } else {
      var stepErrors := CheckSteps(path, steps.items);
      errors := errors + stepErrors;
    }
  }
}
