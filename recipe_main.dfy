/**
 * The run over every discovered recipe: each file's messages are
 * collected in the given (sorted) path order and the run's outcome and
 * exit status are decided from the whole collection.
 */
module RecipeRun {
  import opened Json
  import opened RecipeValidator
  import opened RecipeProperties

  /** A discovered recipe: its path, the name of its parent directory, and its decoded content. */
  datatype RecipeFile = RecipeFile(path: string, parent: string, doc: ParseResult)

  /** What the run tells the console: nothing found, the collected failures, or how many files passed. */
  datatype Outcome =
    | NoRecipesFound
    | ValidationFailed(errors: seq<Message>)
    | ValidatedAll(count: nat)

  predicate AllCheckable(files: seq<RecipeFile>)
  {
    forall i :: 0 <= i < |files| ==> Checkable(files[i].doc)
  }

  /** The lists joined end to end, in order. */
  function Concat(parts: seq<seq<Message>>): seq<Message>
  {
    if parts == [] then [] else Concat(parts[..|parts| - 1]) + parts[|parts| - 1]
  }

  /**
   * Each file's own report, file by file. The ensures clauses expose the
   * comprehension pointwise, so that the lemmas below need not unfold it.
   */
  function FileReports(files: seq<RecipeFile>): (r: seq<seq<Message>>)
    requires AllCheckable(files)
    ensures |r| == |files|
    ensures forall i :: 0 <= i < |files| ==> r[i] == Report(files[i].path, files[i].doc, files[i].parent)
  {
    seq(|files|, i requires 0 <= i < |files| => Report(files[i].path, files[i].doc, files[i].parent))
  }

  /** The messages of every file, file after file. */
  function AllReports(files: seq<RecipeFile>): seq<Message>
    requires AllCheckable(files)
  {
    Concat(FileReports(files))
  }

  /** Every file is a well-formed recipe sitting under the directory its profile names. */
  predicate AllWellFormed(files: seq<RecipeFile>)
  {
    forall i :: 0 <= i < |files| ==> WellFormedRecipe(files[i].doc, files[i].parent)
  }

  /**
   * `main`, without discovery and printing: no files is a failure of its
   * own; otherwise every file is validated, all messages are collected, and
   * the run passes exactly when there are none.
   */
  method RunValidation(files: seq<RecipeFile>) returns (outcome: Outcome, exitCode: int)
    requires AllCheckable(files)
    ensures files == [] ==> outcome == NoRecipesFound
    ensures files != [] && AllReports(files) != [] ==> outcome == ValidationFailed(AllReports(files))
    ensures files != [] && AllReports(files) == [] ==> outcome == ValidatedAll(|files|)
    ensures exitCode == 0 || exitCode == 1
    ensures exitCode == 0 <==> files != [] && AllWellFormed(files)
  {
    if files == [] {
      return NoRecipesFound, 1;
    }

    ghost var reports := FileReports(files);
    var allErrors: seq<Message> := [];
    for i := 0 to |files|
      invariant allErrors == Concat(reports[..i])
    {
      var file := files[i];
      var errors := ValidateRecipe(file.path, file.doc, file.parent);
      assert reports[..i + 1][..i] == reports[..i];
      allErrors := allErrors + errors;
    }
    assert reports[..|files|] == reports;

    AllReportsEmptyIff(files);
    if allErrors != [] {
      return ValidationFailed(allErrors), 1;
    }
    return ValidatedAll(|files|), 0;
  }

  lemma {:induction false} ConcatEmpty(parts: seq<seq<Message>>)
    ensures Concat(parts) == [] <==> forall i :: 0 <= i < |parts| ==> parts[i] == []
  {
    if parts != [] {
      var init := parts[..|parts| - 1];
      ConcatEmpty(init);
      assert forall i :: 0 <= i < |init| ==> init[i] == parts[i];
    }
  }

  lemma {:induction false} ConcatSplit(parts: seq<seq<Message>>, k: nat)
    requires k <= |parts|
    ensures Concat(parts) == Concat(parts[..k]) + Concat(parts[k..])
  {
    if k == |parts| {
      assert parts[..k] == parts;
      assert parts[k..] == [];
    } else {
      var init := parts[..|parts| - 1];
      var tail := parts[k..];
      ConcatSplit(init, k);
      assert init[..k] == parts[..k];
      assert tail[..|tail| - 1] == init[k..];
    }
  }

  lemma {:induction false} ConcatMember(parts: seq<seq<Message>>, m: Message)
    ensures m in Concat(parts) <==> exists i :: 0 <= i < |parts| && m in parts[i]
  {
    if parts != [] {
      var init := parts[..|parts| - 1];
      ConcatMember(init, m);
      assert forall i :: 0 <= i < |init| ==> init[i] == parts[i];
    }
  }

  /** The run collects nothing exactly when every file is well formed. */
  lemma AllReportsEmptyIff(files: seq<RecipeFile>)
    requires AllCheckable(files)
    ensures AllReports(files) == [] <==> AllWellFormed(files)
  {
    ConcatEmpty(FileReports(files));
    forall i | 0 <= i < |files|
      ensures FileReports(files)[i] == [] <==> WellFormedRecipe(files[i].doc, files[i].parent)
    {
      ReportEmptyIff(files[i].path, files[i].doc, files[i].parent);
    }
  }

  /** The messages of earlier files all come before those of later files. */
  lemma AllReportsSplit(files: seq<RecipeFile>, k: nat)
    requires AllCheckable(files)
    requires k <= |files|
    ensures AllReports(files) == AllReports(files[..k]) + AllReports(files[k..])
  {
    var reports := FileReports(files);
    ConcatSplit(reports, k);
    assert FileReports(files[..k]) == reports[..k];
    assert FileReports(files[k..]) == reports[k..];
  }

  /** A collected message is exactly a message of one of the files. */
  lemma AllReportsMember(files: seq<RecipeFile>, m: Message)
    requires AllCheckable(files)
    ensures m in AllReports(files) <==>
              exists i :: 0 <= i < |files| && m in Report(files[i].path, files[i].doc, files[i].parent)
  {
    ConcatMember(FileReports(files), m);
  }
}
