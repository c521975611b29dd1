/**
 * What the per-file check promises, proved about `Report`: which message
 * appears exactly when, how many times, in which order, and when the list
 * is empty.
 */
module RecipeProperties {
  import opened Json
  import opened RecipeValidator

  /** The position of `x` in `s`, or `|s|` when it does not occur. */
  function IndexOf(s: seq<string>, x: string): (r: nat)
    ensures r <= |s|
    ensures r < |s| ==> s[r] == x
    ensures forall j :: 0 <= j < r ==> s[j] != x
  {
    if s == [] then 0 else if s[0] == x then 0 else 1 + IndexOf(s[1..], x)
  }

  /**
   * The order in which the validator reports problems: missing fields in
   * `REQUIRED_FIELDS` order (ranks 0 to 4; rank 5 is what `IndexOf` gives
   * a field outside the list, which is never reported), then the profile
   * enumeration (6), the directory mismatch (7), the steps shape (8), and then per step
   * in index order the non-object, missing-`id` and missing-`uses` problems.
   */
  function Rank(p: Problem): nat
  {
    match p
    case InvalidJson(_) => 0
    case MissingField(f) => IndexOf(REQUIRED_FIELDS, f)
    case ProfileNotAllowed => 6
    case ProfileMismatch(_, _) => 7
    case StepsNotNonEmptyArray => 8
    case StepNotObject(i) => 9 + 3 * i
    case StepMissingId(i) => 10 + 3 * i
    case StepMissingUses(i) => 11 + 3 * i
  }

  /** Messages whose ranks strictly increase along the list. */
  predicate Increasing(s: seq<Message>)
  {
    forall i :: 0 < i < |s| ==> Rank(s[i - 1].problem) < Rank(s[i].problem)
  }

  /** Every message's rank lies in `[lo, hi)`. */
  predicate RanksWithin(s: seq<Message>, lo: nat, hi: nat)
  {
    forall m :: m in s ==> lo <= Rank(m.problem) < hi
  }

  /** The problems that concern one step of a non-empty step list. */
  predicate IsStepProblem(p: Problem)
  {
    p.StepNotObject? || p.StepMissingId? || p.StepMissingUses?
  }

  /** The list with every directory-mismatch message taken out. */
  function WithoutMismatch(s: seq<Message>): seq<Message>
  {
    if s == [] then []
    else if s[0].problem.ProfileMismatch? then WithoutMismatch(s[1..])
    else [s[0]] + WithoutMismatch(s[1..])
  }

  // ------------------------------------------------------------ list facts

  lemma IncreasingConcat(a: seq<Message>, b: seq<Message>, lo: nat, mid: nat, hi: nat)
    requires lo <= mid <= hi
    requires Increasing(a) && RanksWithin(a, lo, mid)
    requires Increasing(b) && RanksWithin(b, mid, hi)
    ensures Increasing(a + b) && RanksWithin(a + b, lo, hi)
  {
    forall i | 0 < i < |a + b|
      ensures Rank((a + b)[i - 1].problem) < Rank((a + b)[i].problem)
    {
      if i < |a| {
      } else if i == |a| {
        assert a[i - 1] in a && b[0] in b;
      } else {
        assert Rank(b[i - 1 - |a|].problem) < Rank(b[i - |a|].problem);
      }
    }
    forall m | m in a + b
      ensures lo <= Rank(m.problem) < hi
    {
      if m in a {
      } else {
        assert m in b;
      }
    }
  }

  /** In an increasing list every later message ranks above the first. */
  lemma {:induction false} IncreasingAboveHead(s: seq<Message>, m: Message)
    requires Increasing(s) && s != []
    requires m in s[1..]
    ensures Rank(s[0].problem) < Rank(m.problem)
  {
    assert Increasing(s[1..]) by {
      forall i | 0 < i < |s[1..]|
        ensures Rank(s[1..][i - 1].problem) < Rank(s[1..][i].problem)
      {
        assert s[1..][i - 1] == s[i] && s[1..][i] == s[i + 1];
      }
    }
    assert Rank(s[0].problem) < Rank(s[1].problem);
    if m != s[1] {
      assert m in s[1..][1..] by {
        assert s[1..] == [s[1]] + s[1..][1..];
      }
      IncreasingAboveHead(s[1..], m);
    }
  }

  lemma {:induction false} IncreasingCount(s: seq<Message>, m: Message)
    requires Increasing(s)
    ensures multiset(s)[m] == if m in s then 1 else 0
  {
    if s != [] {
      assert s == [s[0]] + s[1..];
      assert Increasing(s[1..]) by {
        forall i | 0 < i < |s[1..]|
          ensures Rank(s[1..][i - 1].problem) < Rank(s[1..][i].problem)
        {
          assert s[1..][i - 1] == s[i] && s[1..][i] == s[i + 1];
        }
      }
      IncreasingCount(s[1..], m);
      if m == s[0] && m in s[1..] {
        IncreasingAboveHead(s, m);
      }
    }
  }

  lemma WithoutMismatchConcat(a: seq<Message>, b: seq<Message>)
    ensures WithoutMismatch(a + b) == WithoutMismatch(a) + WithoutMismatch(b)
  {
    if a == [] {
      assert a + b == b;
    } else {
      assert (a + b)[1..] == a[1..] + b;
      WithoutMismatchConcat(a[1..], b);
    }
  }

  lemma WithoutMismatchKeeps(s: seq<Message>)
    requires forall m :: m in s ==> !m.problem.ProfileMismatch?
    ensures WithoutMismatch(s) == s
  {
    if s != [] {
      WithoutMismatchKeeps(s[1..]);
    }
  }

  lemma WithoutMismatchSections(a: seq<Message>, b: seq<Message>, c: seq<Message>, d: seq<Message>)
    requires forall m :: m in a ==> !m.problem.ProfileMismatch?
    requires forall m :: m in b ==> !m.problem.ProfileMismatch?
    requires forall m :: m in c ==> m.problem.ProfileMismatch?
    requires |c| <= 1
    requires forall m :: m in d ==> !m.problem.ProfileMismatch?
    ensures WithoutMismatch(a + b + c + d) == a + b + d
  {
    var ab := a + b;
    var abc := ab + c;
    assert WithoutMismatch(ab) == ab by {
      WithoutMismatchKeeps(a);
      WithoutMismatchKeeps(b);
      WithoutMismatchConcat(a, b);
    }
    assert WithoutMismatch(abc) == ab by {
      assert WithoutMismatch(c) == [] by {
        if c != [] {
          assert c[1..] == [];
        }
      }
      WithoutMismatchConcat(ab, c);
      assert ab + [] == ab;
    }
    assert WithoutMismatch(abc + d) == ab + d by {
      WithoutMismatchKeeps(d);
      WithoutMismatchConcat(abc, d);
    }
  }

  lemma RequiredFieldPosition(k: nat)
    requires k < |REQUIRED_FIELDS|
    ensures IndexOf(REQUIRED_FIELDS, REQUIRED_FIELDS[k]) == k
  {
    var r := IndexOf(REQUIRED_FIELDS, REQUIRED_FIELDS[k]);
    assert r <= k;
    assert REQUIRED_FIELDS[r] == REQUIRED_FIELDS[k];
  }

  // ------------------------------------------------------- the four sections

  /** A missing-field message names a required field absent from the document. */
  lemma {:induction false} MissingFieldErrorsMembers(path: string, fields: map<string, Json>, n: nat, m: Message)
    requires n <= |REQUIRED_FIELDS|
    ensures m in MissingFieldErrors(path, fields, n) <==>
              m.path == path && m.problem.MissingField?
              && m.problem.field in REQUIRED_FIELDS[..n] && m.problem.field !in fields
  {
    if n > 0 {
      MissingFieldErrorsMembers(path, fields, n - 1, m);
      assert REQUIRED_FIELDS[..n] == REQUIRED_FIELDS[..n - 1] + [REQUIRED_FIELDS[n - 1]];
    }
  }

  lemma MissingFieldErrorsMember(path: string, fields: map<string, Json>, m: Message)
    requires m in MissingFieldErrors(path, fields, |REQUIRED_FIELDS|)
    ensures m.path == path && m.problem.MissingField?
  {
    MissingFieldErrorsMembers(path, fields, |REQUIRED_FIELDS|, m);
  }

  lemma {:induction false} MissingFieldErrorsOrdered(path: string, fields: map<string, Json>, n: nat)
    requires n <= |REQUIRED_FIELDS|
    ensures Increasing(MissingFieldErrors(path, fields, n))
    ensures RanksWithin(MissingFieldErrors(path, fields, n), 0, n)
  {
    if n > 0 {
      var prev := MissingFieldErrors(path, fields, n - 1);
      var field := REQUIRED_FIELDS[n - 1];
      assert Increasing(prev) && RanksWithin(prev, 0, n - 1) by {
        MissingFieldErrorsOrdered(path, fields, n - 1);
      }
      if field !in fields {
        var last := [Message(path, MissingField(field))];
        assert RanksWithin(last, n - 1, n) by {
          RequiredFieldPosition(n - 1);
        }
        IncreasingConcat(prev, last, 0, n - 1, n);
        assert MissingFieldErrors(path, fields, n) == prev + last;
      }
    }
  }

  lemma StepErrorsMember(path: string, idx: nat, step: Json, m: Message)
    requires m in StepErrors(path, idx, step)
    ensures m.path == path && IsStepProblem(m.problem)
  {
  }

  lemma StepErrorsOrdered(path: string, idx: nat, step: Json)
    ensures Increasing(StepErrors(path, idx, step))
    ensures RanksWithin(StepErrors(path, idx, step), 9 + 3 * idx, 12 + 3 * idx)
  {
  }

  lemma {:induction false} StepListErrorsMember(path: string, steps: seq<Json>, n: nat, m: Message)
    requires n <= |steps|
    requires m in StepListErrors(path, steps, n)
    ensures m.path == path && IsStepProblem(m.problem)
  {
    if m in StepListErrors(path, steps, n - 1) {
      StepListErrorsMember(path, steps, n - 1, m);
    } else {
      StepErrorsMember(path, n - 1, steps[n - 1], m);
    }
  }

  /** Each step problem in the list is the one its step's shape calls for. */
  lemma {:induction false} StepListErrorsMembers(path: string, steps: seq<Json>, n: nat, i: nat)
    requires n <= |steps|
    ensures Message(path, StepNotObject(i)) in StepListErrors(path, steps, n) <==>
              i < n && !steps[i].Obj?
    ensures Message(path, StepMissingId(i)) in StepListErrors(path, steps, n) <==>
              i < n && steps[i].Obj? && "id" !in steps[i].fields
    ensures Message(path, StepMissingUses(i)) in StepListErrors(path, steps, n) <==>
              i < n && steps[i].Obj? && "uses" !in steps[i].fields
  {
    if n > 0 {
      StepListErrorsMembers(path, steps, n - 1, i);
    }
  }

  lemma {:induction false} StepListErrorsOrdered(path: string, steps: seq<Json>, n: nat)
    requires n <= |steps|
    ensures Increasing(StepListErrors(path, steps, n))
    ensures RanksWithin(StepListErrors(path, steps, n), 9, 9 + 3 * n)
  {
    if n > 0 {
      var prev := StepListErrors(path, steps, n - 1);
      var last := StepErrors(path, n - 1, steps[n - 1]);
      assert Increasing(prev) && RanksWithin(prev, 9, 9 + 3 * (n - 1)) by {
        StepListErrorsOrdered(path, steps, n - 1);
      }
      assert Increasing(last) && RanksWithin(last, 9 + 3 * (n - 1), 9 + 3 * n) by {
        StepErrorsOrdered(path, n - 1, steps[n - 1]);
      }
      assert StepListErrors(path, steps, n) == prev + last;
      IncreasingConcat(prev, last, 9, 9 + 3 * (n - 1), 9 + 3 * n);
    }
  }

  lemma StepsErrorsMember(path: string, steps: Json, m: Message)
    requires m in StepsErrors(path, steps)
    ensures m.path == path
    ensures NonEmptyArray(steps) ==> IsStepProblem(m.problem)
    ensures !NonEmptyArray(steps) ==> m.problem == StepsNotNonEmptyArray
  {
    if NonEmptyArray(steps) {
      StepListErrorsMember(path, steps.items, |steps.items|, m);
    }
  }

  lemma StepsErrorsOrdered(path: string, steps: Json)
    ensures Increasing(StepsErrors(path, steps))
    ensures RanksWithin(StepsErrors(path, steps), 8, if NonEmptyArray(steps) then 9 + 3 * |steps.items| else 9)
  {
    if NonEmptyArray(steps) {
      StepListErrorsOrdered(path, steps.items, |steps.items|);
    }
  }

  /** Where in a decoded document's report a message can come from. */
  lemma ReportMember(path: string, fields: map<string, Json>, parent: string, m: Message)
    requires Hashable(Get(fields, "profile"))
    requires m in Report(path, ParseOk(Obj(fields)), parent)
    ensures m.path == path
    ensures m in MissingFieldErrors(path, fields, |REQUIRED_FIELDS|) <==> m.problem.MissingField?
    ensures !m.problem.MissingField? && !m.problem.ProfileNotAllowed? && !m.problem.ProfileMismatch? ==>
              m in StepsErrors(path, Get(fields, "steps"))
    ensures m.problem.ProfileNotAllowed? ==> !AllowedProfile(Get(fields, "profile"))
    ensures m.problem.ProfileMismatch? ==>
              var profile := Get(fields, "profile");
              m.problem == ProfileMismatch(profile, parent) && Truthy(profile) && profile != Str(parent)
    ensures !m.problem.InvalidJson?
  {
    var a := MissingFieldErrors(path, fields, |REQUIRED_FIELDS|);
    var d := StepsErrors(path, Get(fields, "steps"));
    if m in a {
      MissingFieldErrorsMember(path, fields, m);
    } else if m in d {
      StepsErrorsMember(path, Get(fields, "steps"), m);
    }
  }

  // ------------------------------------------------------ the whole report

  /** Every message of a report names the file, and a decoding failure is reported alone. */
  lemma ReportTagged(path: string, doc: ParseResult, parent: string)
    requires Checkable(doc)
    ensures forall m :: m in Report(path, doc, parent) ==>
              m.path == path && (m.problem.InvalidJson? <==> doc.ParseError?)
    ensures doc.ParseError? ==> Report(path, doc, parent) == [Message(path, InvalidJson(doc.message))]
  {
    forall m | m in Report(path, doc, parent)
      ensures m.path == path && (m.problem.InvalidJson? <==> doc.ParseError?)
    {
      if doc.ParseOk? {
        ReportMember(path, doc.value.fields, parent, m);
      }
    }
  }

  /** Problems come out in rank order: fields, profile, mismatch, steps, and steps by index. */
  lemma ReportOrdered(path: string, doc: ParseResult, parent: string)
    requires Checkable(doc)
    ensures Increasing(Report(path, doc, parent))
  {
    if doc.ParseOk? {
      var fields := doc.value.fields;
      var profile := Get(fields, "profile");
      var steps := Get(fields, "steps");
      var hi := if NonEmptyArray(steps) then 9 + 3 * |steps.items| else 9;
      MissingFieldErrorsOrdered(path, fields, |REQUIRED_FIELDS|);
      StepsErrorsOrdered(path, steps);
      var a := MissingFieldErrors(path, fields, |REQUIRED_FIELDS|);
      var b := ProfileErrors(path, profile);
      var c := MismatchErrors(path, profile, parent);
      var d := StepsErrors(path, steps);
      IncreasingConcat(a, b, 0, 6, 7);
      IncreasingConcat(a + b, c, 0, 7, 8);
      IncreasingConcat(a + b + c, d, 0, 8, hi);
    }
  }

  /** No message is reported twice about the same file. */
  lemma ReportNoDuplicates(path: string, doc: ParseResult, parent: string, m: Message)
    requires Checkable(doc)
    ensures multiset(Report(path, doc, parent))[m] == if m in Report(path, doc, parent) then 1 else 0
  {
    ReportOrdered(path, doc, parent);
    IncreasingCount(Report(path, doc, parent), m);
  }

  /** Each required field absent from the document is reported exactly once; no other field is. */
  lemma ReportMissingField(path: string, fields: map<string, Json>, parent: string, field: string)
    requires Hashable(Get(fields, "profile"))
    ensures multiset(Report(path, ParseOk(Obj(fields)), parent))[Message(path, MissingField(field))] ==
              if field in REQUIRED_FIELDS && field !in fields then 1 else 0
  {
    var r := Report(path, ParseOk(Obj(fields)), parent);
    var m := Message(path, MissingField(field));
    assert m in r <==> field in REQUIRED_FIELDS && field !in fields by {
      MissingFieldErrorsMembers(path, fields, |REQUIRED_FIELDS|, m);
      assert REQUIRED_FIELDS[..|REQUIRED_FIELDS|] == REQUIRED_FIELDS;
      if m in r {
        ReportMember(path, fields, parent, m);
      }
    }
    ReportNoDuplicates(path, ParseOk(Obj(fields)), parent, m);
  }

  /** The profile-enumeration message appears exactly once when the profile is not allowed, else never. */
  lemma ReportProfileNotAllowed(path: string, fields: map<string, Json>, parent: string)
    requires Hashable(Get(fields, "profile"))
    ensures multiset(Report(path, ParseOk(Obj(fields)), parent))[Message(path, ProfileNotAllowed)] ==
              if Get(fields, "profile").Str? && Get(fields, "profile").s in ALLOWED_PROFILES then 0 else 1
  {
    var r := Report(path, ParseOk(Obj(fields)), parent);
    var m := Message(path, ProfileNotAllowed);
    assert m in r <==> !AllowedProfile(Get(fields, "profile")) by {
      if m in r {
        ReportMember(path, fields, parent, m);
      }
    }
    ReportNoDuplicates(path, ParseOk(Obj(fields)), parent, m);
  }

  /**
   * The mismatch message appears, once, exactly when the profile is truthy
   * and differs from the parent directory's name; it is the only mismatch
   * message there can be.
   */
  lemma ReportMismatch(path: string, fields: map<string, Json>, parent: string)
    requires Hashable(Get(fields, "profile"))
    ensures var profile := Get(fields, "profile");
            multiset(Report(path, ParseOk(Obj(fields)), parent))[Message(path, ProfileMismatch(profile, parent))] ==
              if Truthy(profile) && profile != Str(parent) then 1 else 0
    ensures forall m :: m in Report(path, ParseOk(Obj(fields)), parent) && m.problem.ProfileMismatch? ==>
              m == Message(path, ProfileMismatch(Get(fields, "profile"), parent))
  {
    var r := Report(path, ParseOk(Obj(fields)), parent);
    var profile := Get(fields, "profile");
    var m := Message(path, ProfileMismatch(profile, parent));
    assert m in r <==> Truthy(profile) && profile != Str(parent) by {
      if m in r {
        ReportMember(path, fields, parent, m);
      }
    }
    forall m' | m' in r && m'.problem.ProfileMismatch?
      ensures m' == m
    {
      ReportMember(path, fields, parent, m');
    }
    ReportNoDuplicates(path, ParseOk(Obj(fields)), parent, m);
  }

  /** An absent, null or otherwise falsy profile is never reported as a mismatch. */
  lemma ReportNoMismatchWhenFalsy(path: string, fields: map<string, Json>, parent: string)
    requires Hashable(Get(fields, "profile"))
    requires !Truthy(Get(fields, "profile"))
    ensures forall m :: m in Report(path, ParseOk(Obj(fields)), parent) ==> !m.problem.ProfileMismatch?
  {
    forall m | m in Report(path, ParseOk(Obj(fields)), parent)
      ensures !m.problem.ProfileMismatch?
    {
      ReportMember(path, fields, parent, m);
    }
  }

  /** Taking the mismatch message out leaves the other three sections as they were. */
  lemma ReportWithoutMismatch(path: string, fields: map<string, Json>, parent: string)
    requires Hashable(Get(fields, "profile"))
    ensures WithoutMismatch(Report(path, ParseOk(Obj(fields)), parent)) ==
              MissingFieldErrors(path, fields, |REQUIRED_FIELDS|) +
              ProfileErrors(path, Get(fields, "profile")) +
              StepsErrors(path, Get(fields, "steps"))
  {
    var profile := Get(fields, "profile");
    var a := MissingFieldErrors(path, fields, |REQUIRED_FIELDS|);
    var b := ProfileErrors(path, profile);
    var c := MismatchErrors(path, profile, parent);
    var d := StepsErrors(path, Get(fields, "steps"));
    forall m | m in a ensures !m.problem.ProfileMismatch? {
      MissingFieldErrorsMember(path, fields, m);
    }
    forall m | m in d ensures !m.problem.ProfileMismatch? {
      StepsErrorsMember(path, Get(fields, "steps"), m);
    }
    WithoutMismatchSections(a, b, c, d);
  }

  /**
   * Moving a recipe to another directory changes nothing but the mismatch
   * message; moving it under the directory its profile names removes that
   * message and leaves the rest of the report as it was.
   */
  lemma ReportRelocated(path: string, fields: map<string, Json>, parent: string, other: string)
    requires Hashable(Get(fields, "profile"))
    ensures WithoutMismatch(Report(path, ParseOk(Obj(fields)), parent)) ==
              WithoutMismatch(Report(path, ParseOk(Obj(fields)), other))
    ensures Get(fields, "profile") == Str(other) ==>
              Report(path, ParseOk(Obj(fields)), other) == WithoutMismatch(Report(path, ParseOk(Obj(fields)), parent))
  {
    ReportWithoutMismatch(path, fields, parent);
    ReportWithoutMismatch(path, fields, other);
    var profile := Get(fields, "profile");
    if profile == Str(other) {
      var a := MissingFieldErrors(path, fields, |REQUIRED_FIELDS|);
      var b := ProfileErrors(path, profile);
      var d := StepsErrors(path, Get(fields, "steps"));
      assert MismatchErrors(path, profile, other) == [];
      assert a + b + [] + d == a + b + d;
    }
  }

  /**
   * When `steps` is missing, not a list or empty, the steps message appears
   * once and no step is checked; otherwise that message never appears.
   */
  lemma ReportStepsShape(path: string, fields: map<string, Json>, parent: string)
    requires Hashable(Get(fields, "profile"))
    ensures multiset(Report(path, ParseOk(Obj(fields)), parent))[Message(path, StepsNotNonEmptyArray)] ==
              if NonEmptyArray(Get(fields, "steps")) then 0 else 1
    ensures !NonEmptyArray(Get(fields, "steps")) ==>
              forall m :: m in Report(path, ParseOk(Obj(fields)), parent) ==> !IsStepProblem(m.problem)
  {
    var r := Report(path, ParseOk(Obj(fields)), parent);
    var m := Message(path, StepsNotNonEmptyArray);
    var steps := Get(fields, "steps");
    assert m in r <==> !NonEmptyArray(steps) by {
      if m in r {
        ReportMember(path, fields, parent, m);
        StepsErrorsMember(path, steps, m);
      }
    }
    ReportNoDuplicates(path, ParseOk(Obj(fields)), parent, m);
    if !NonEmptyArray(steps) {
      forall m' | m' in r ensures !IsStepProblem(m'.problem) {
        ReportMember(path, fields, parent, m');
        if m' in StepsErrors(path, steps) {
          StepsErrorsMember(path, steps, m');
        }
      }
    }
  }

  /**
   * For a non-empty step list, step `i` is reported as a non-object exactly
   * when it is not an object, and as missing `id` or `uses` exactly when it
   * is an object without that key.
   */
  lemma ReportStepErrors(path: string, fields: map<string, Json>, parent: string, i: nat)
    requires Hashable(Get(fields, "profile"))
    requires NonEmptyArray(Get(fields, "steps"))
    ensures var steps := Get(fields, "steps").items;
            var r := Report(path, ParseOk(Obj(fields)), parent);
            && (Message(path, StepNotObject(i)) in r <==> i < |steps| && !steps[i].Obj?)
            && (Message(path, StepMissingId(i)) in r <==> i < |steps| && steps[i].Obj? && "id" !in steps[i].fields)
            && (Message(path, StepMissingUses(i)) in r <==> i < |steps| && steps[i].Obj? && "uses" !in steps[i].fields)
  {
    var steps := Get(fields, "steps").items;
    var r := Report(path, ParseOk(Obj(fields)), parent);
    StepListErrorsMembers(path, steps, |steps|, i);
    if Message(path, StepNotObject(i)) in r {
      ReportMember(path, fields, parent, Message(path, StepNotObject(i)));
    }
    if Message(path, StepMissingId(i)) in r {
      ReportMember(path, fields, parent, Message(path, StepMissingId(i)));
    }
    if Message(path, StepMissingUses(i)) in r {
      ReportMember(path, fields, parent, Message(path, StepMissingUses(i)));
    }
  }

  lemma {:induction false} MissingFieldErrorsEmpty(path: string, fields: map<string, Json>, n: nat)
    requires n <= |REQUIRED_FIELDS|
    ensures MissingFieldErrors(path, fields, n) == [] <==>
              forall k :: 0 <= k < n ==> REQUIRED_FIELDS[k] in fields
  {
    if n > 0 {
      MissingFieldErrorsEmpty(path, fields, n - 1);
    }
  }

  lemma {:induction false} StepListErrorsEmpty(path: string, steps: seq<Json>, n: nat)
    requires n <= |steps|
    requires forall i :: 0 <= i < n ==> steps[i].Obj? && "id" in steps[i].fields && "uses" in steps[i].fields
    ensures StepListErrors(path, steps, n) == []
  {
    if n > 0 {
      StepListErrorsEmpty(path, steps, n - 1);
    }
  }

  /** A file produces no message exactly when it is a well-formed recipe in the right directory. */
  lemma ReportEmptyIff(path: string, doc: ParseResult, parent: string)
    requires Checkable(doc)
    ensures Report(path, doc, parent) == [] <==> WellFormedRecipe(doc, parent)
  {
    if doc.ParseOk? {
      var fields := doc.value.fields;
      var profile := Get(fields, "profile");
      var steps := Get(fields, "steps");
      var r := Report(path, doc, parent);
      MissingFieldErrorsEmpty(path, fields, |REQUIRED_FIELDS|);
      if AllowedProfile(profile) {
        assert Truthy(profile);
      }
      if NonEmptyArray(steps) {
        var items := steps.items;
        if forall i :: 0 <= i < |items| ==> items[i].Obj? && "id" in items[i].fields && "uses" in items[i].fields {
          StepListErrorsEmpty(path, items, |items|);
        } else {
          var i :| 0 <= i < |items| && !(items[i].Obj? && "id" in items[i].fields && "uses" in items[i].fields);
          StepListErrorsMembers(path, items, |items|, i);
          assert StepListErrors(path, items, |items|) != [];
        }
      }
    }
  }

  /** The fields of a small recipe declaring `profile`, with one complete step. */
  function SampleRecipe(profile: string): map<string, Json>
  {
    map[
      "name" := Str("x"), "profile" := Str(profile), "version" := Str("1"), "description" := Str("d"),
      "steps" := Arr([Obj(map["id" := Str("a"), "uses" := Str("b")])])
    ]
  }

  /** The sample recipe under the directory its profile names passes. */
  lemma SampleRecipePasses(path: string)
    ensures Report(path, ParseOk(Obj(SampleRecipe("lite"))), "lite") == []
  {
    ReportEmptyIff(path, ParseOk(Obj(SampleRecipe("lite"))), "lite");
  }

  /** Declaring `base` while sitting under `lite` is reported once, as a mismatch only. */
  lemma SampleRecipeMisplaced(path: string)
    ensures Report(path, ParseOk(Obj(SampleRecipe("base"))), "lite") ==
              [Message(path, ProfileMismatch(Str("base"), "lite"))]
  {
    var fields := SampleRecipe("base");
    assert Report(path, ParseOk(Obj(fields)), "base") == [] by {
      ReportEmptyIff(path, ParseOk(Obj(fields)), "base");
    }
  }
}
