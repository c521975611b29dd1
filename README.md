# Recipe validator model

A Dafny model of the recipe checker in `scripts/validate_recipes.py`.
A recipe is a JSON document describing a named, versioned list of steps under a profile (`lite`, `base`, `scalable` or `timed`).
It lives under a directory named after that profile.
The checker validates one decoded document at a time and collects every problem instead of stopping at the first.
It then joins the problems of all files in path order and turns the result into an exit status.

Files:

- `json.dfy` (module `Json`): decoded JSON values, the outcome of decoding, and Python's `dict.get`, truthiness and hashability on those values.
- `recipe_validator.dfy` (module `RecipeValidator`): the constants `REQUIRED_FIELDS` and `ALLOWED_PROFILES`, and the problem kinds.
  It holds one specification function per section of the check, with `Report` joining them.
  It also holds the imperative `ValidateRecipe` method and its two loops (`CheckRequiredFields`, `CheckSteps`), each proved equal to the specification.
- `recipe_properties.dfy` (module `RecipeProperties`): what `Report` promises.
  This covers when each message appears and how often, the order of messages, the effect of moving a file, and when the report is empty.
- `recipe_main.dfy` (module `RecipeRun`): the run over all files (`RunValidation`), its outcome and exit status, and lemmas about the joined report.

Each message is a `Message(path, problem)`.
The source's messages are text that starts with the file's path; here the text is replaced by a structured `Problem`.
The checker does not require `profile` to be a string.
A truthy non-string value (`true`, `1`) gets both the profile-enumeration message and the directory-mismatch message.
That is because the enumeration test is set membership and the mismatch test is only "truthy and not equal to the parent name".

## Model

| member | source | states |
|---|---|---|
| RecipeValidator.CheckRequiredFields | scripts/validate_recipes.py:17-19 | the loop over the required fields yields exactly the missing-field messages of the specification, in list order |
| RecipeValidator.CheckSteps | scripts/validate_recipes.py:35-42 | the loop over the steps, with its early `continue` for non-objects, yields exactly the per-step messages of the specification, in index order |
| RecipeValidator.ValidateRecipe | scripts/validate_recipes.py:10-44 | the method returns exactly `Report` for the document and its parent directory |
| RecipeProperties.ReportTagged | scripts/validate_recipes.py:12-15 | a decoding failure gives exactly one invalid-JSON message and nothing else; every message names the file; invalid-JSON messages occur only for decoding failures |
| RecipeProperties.MissingFieldErrorsMembers | scripts/validate_recipes.py:17-19 | a message is in the missing-field section iff it names a required field that is absent from the document |
| RecipeProperties.ReportMissingField | scripts/validate_recipes.py:17-19 | each field is reported missing exactly once if it is required and absent, and never otherwise |
| RecipeProperties.ReportProfileNotAllowed | scripts/validate_recipes.py:21-23 | the profile-enumeration message appears exactly once if `profile` (null when absent) is not one of the four allowed names, and never otherwise |
| RecipeProperties.ReportMismatch | scripts/validate_recipes.py:25-29 | the mismatch message appears exactly once iff the profile is truthy and differs from the parent name; no other mismatch message can appear |
| RecipeProperties.ReportNoMismatchWhenFalsy | scripts/validate_recipes.py:26 | an absent, null, empty or otherwise falsy profile never produces a mismatch message |
| RecipeProperties.ReportWithoutMismatch | scripts/validate_recipes.py:17-42 | with the mismatch message taken out, the report is the field, profile and steps sections, none of which depends on the directory |
| RecipeProperties.ReportRelocated | scripts/validate_recipes.py:25-29 | with the file's path kept, changing the parent-directory name changes only the mismatch message; taking the directory the profile names removes that message and leaves the rest unchanged |
| RecipeProperties.StepsErrorsMember | scripts/validate_recipes.py:31-42 | a message of the steps section is a per-step message when `steps` is a non-empty list, and is the non-empty-array message otherwise |
| RecipeProperties.ReportStepsShape | scripts/validate_recipes.py:31-33 | the non-empty-array message appears exactly once when `steps` is missing, not a list or empty, and then no per-step message appears; otherwise it never appears |
| RecipeProperties.StepListErrorsMembers | scripts/validate_recipes.py:35-42 | within the first n steps, step i is reported as a non-object iff it is not an object, and as missing `id` or `uses` iff it is an object without that key |
| RecipeProperties.ReportStepErrors | scripts/validate_recipes.py:35-42 | the same three iff statements for the whole report of a document whose `steps` is a non-empty list |
| RecipeProperties.ReportMember | scripts/validate_recipes.py:17-42 | every message of a decoded document's report names the file, is never invalid-JSON, and comes from the section its kind belongs to |
| RecipeProperties.ReportOrdered | scripts/validate_recipes.py:17-44 | messages strictly increase in rank: missing fields in list order, then profile, then mismatch, then steps; steps go by index, and within a step `id` comes before `uses` |
| RecipeProperties.ReportNoDuplicates | scripts/validate_recipes.py:17-44 | no message occurs twice in one file's report |
| RecipeProperties.ReportEmptyIff | scripts/validate_recipes.py:17-44 | the report is empty iff the document is an object with all five fields, an allowed profile equal to the parent name, and a non-empty list of objects each holding `id` and `uses` |
| RecipeProperties.SampleRecipePasses | scripts/validate_recipes.py:10-44 | a complete `lite` recipe under `lite/` yields no message |
| RecipeProperties.SampleRecipeMisplaced | scripts/validate_recipes.py:25-29 | the same recipe declaring `base` under `lite/` yields exactly one message, the mismatch |
| RecipeRun.RunValidation | scripts/validate_recipes.py:47-65 | no files gives the no-recipes outcome and status 1; otherwise the collected messages are the reports of all files in order, and the status is 0 iff every file is well formed |
| RecipeRun.AllReportsEmptyIff | scripts/validate_recipes.py:58-65 | the collected list is empty iff every file is a well-formed recipe in the right directory |
| RecipeRun.AllReportsSplit | scripts/validate_recipes.py:54-56 | for any split point, the messages of the earlier files come first, followed by the messages of the later files |
| RecipeRun.AllReportsMember | scripts/validate_recipes.py:54-56 | a message is collected iff it is in the report of one of the files |

## Left out

- Discovery of files (`Path.glob`, `sorted`, `resolve`) is I/O. The files come in as a sequence already in sorted path order.
- Reading file text and decoding JSON (`read_text`, `json.loads`) are library calls. Their result is the input `ParseResult`: a value or an error text.
- The name of the parent directory (`path.parent.name`) is path handling. It is part of each input file rather than computed from the path string.
- Message text, the sorted list of allowed profiles inside that text, and all console output. Problems are structured values instead.
- A top-level value that is not an object, and an unhashable `profile` (a list or an object), make the source raise. `Checkable` excludes them as a precondition.
- JSON numbers are exact rationals. NaN, infinities and the int/float distinction are not modelled; only truthiness (non-zero) matters to the checker.
- Duplicate keys inside one JSON object are already merged by the decoder, so objects are maps.
- `sys.exit` and the `__main__` guard. `RunValidation` returns the status instead.
- ReportRelocated: keeps the file's path fixed and varies only the parent-directory name. A real move also changes the path that every message names; that part is not stated.
