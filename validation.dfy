/** The rule set `store` hands to Laravel's validator before it inserts a
    task: seven required fields, typed as string, array or date, with a
    255-character cap on the title and the flag. */
module Validation {
  import opened Wrappers

  /** A request parameter as the validator sees it. */
  datatype Input = Absent | Str(s: string) | Arr(items: seq<string>)

  /** The seven fields of the creation payload. */
  datatype Field = Title | TaskDescription | AssignTo | StartDate | EndDate | Flag | Priority

  /** The validation rules the rule set uses; `Max(n)` is `max:n`. */
  datatype Rule = Required | IsString | IsArray | IsDate | Max(limit: nat)

  datatype CreateRequest = CreateRequest(
    title: Input,
    taskDescription: Input,
    assignTo: Input,
    startDate: Input,
    endDate: Input,
    flag: Input,
    priority: Input)

  /** The validated payload: what `$validated` holds when validation passes. */
  datatype Validated = Validated(
    title: string,
    taskDescription: string,
    assignTo: seq<string>,
    startDate: string,
    endDate: string,
    flag: string,
    priority: string)

  /** The per-field error report: the field and the rules it failed. */
  datatype FieldError = FieldError(field: Field, failed: seq<Rule>)

  function Get(req: CreateRequest, f: Field): Input
  {
    match f
    case Title => req.title
    case TaskDescription => req.taskDescription
    case AssignTo => req.assignTo
    case StartDate => req.startDate
    case EndDate => req.endDate
    case Flag => req.flag
    case Priority => req.priority
  }

  /** The fields in the order the rule set lists them. */
  const FIELDS: seq<Field> := [Title, TaskDescription, AssignTo, StartDate, EndDate, Flag, Priority]

  /** The rule set of `store`, field by field. */
  function Rules(f: Field): seq<Rule>
  {
    match f
    case Title => [Required, IsString, Max(255)]
    case TaskDescription => [Required, IsString]
    case AssignTo => [Required, IsArray]
    case StartDate => [Required, IsDate]
    case EndDate => [Required, IsDate]
    case Flag => [Required, IsString, Max(255)]
    case Priority => [Required, IsString]
  }

  /** The characters PHP's `trim` removes. */
  predicate IsTrimmed(c: char)
  {
    c == ' ' || c == '\t' || c == '\n' || c == '\r' || c == '\0' || c == '\U{0B}'
  }

  /** Laravel's `required`: present, and not a blank string or an empty array. */
  predicate Filled(v: Input)
  {
    match v
    case Absent => false
    case Str(s) => exists i :: 0 <= i < |s| && !IsTrimmed(s[i])
    case Arr(items) => |items| > 0
  }

  /** The size `max` measures: characters of a string, elements of an array. */
  function Size(v: Input): nat
  {
    match v
    case Absent => 0
    case Str(s) => |s|
    case Arr(items) => |items|
  }

  /** Whether value `v` satisfies `rule`; `isDate` stands for the date parser
      behind Laravel's `date` rule. */
  predicate Passes(rule: Rule, v: Input, isDate: string -> bool)
  {
    match rule
    case Required => Filled(v)
    case IsString => v.Str?
    case IsArray => v.Arr?
    case IsDate => v.Str? && isDate(v.s)
    case Max(n) => Size(v) <= n
  }

  predicate FieldPasses(req: CreateRequest, f: Field, isDate: string -> bool)
  {
    forall k :: 0 <= k < |Rules(f)| ==> Passes(Rules(f)[k], Get(req, f), isDate)
  }

  /** The rules among `rules` that `v` fails, in order. */
  function Failing(rules: seq<Rule>, v: Input, isDate: string -> bool): (r: seq<Rule>)
    ensures forall x :: x in r <==> x in rules && !Passes(x, v, isDate)
    ensures |r| <= |rules|
  {
    if |rules| == 0 then []
    else if Passes(rules[0], v, isDate) then Failing(rules[1..], v, isDate)
    else [rules[0]] + Failing(rules[1..], v, isDate)
  }

  /** The rules a field fails. A failed `required` stops the field's other
      rules, so it is then reported alone. */
  function FailedRules(f: Field, v: Input, isDate: string -> bool): (r: seq<Rule>)
    ensures r == [] <==> forall k :: 0 <= k < |Rules(f)| ==> Passes(Rules(f)[k], v, isDate)
    ensures forall x :: x in r ==> x in Rules(f) && !Passes(x, v, isDate)
    ensures !Filled(v) ==> r == [Required]
    ensures Filled(v) ==> forall x :: x in Rules(f)[1..] && !Passes(x, v, isDate) ==> x in r
  {
    var rules := Rules(f);
    assert rules[0] == Required;
    if !Filled(v) then [Required]
    else
      var r := Failing(rules[1..], v, isDate);
      assert r == [] ==> forall k :: 0 <= k < |rules| ==> Passes(rules[k], v, isDate) by {
        if r == [] {
          forall k | 0 <= k < |rules| ensures Passes(rules[k], v, isDate) {
            if k > 0 { assert rules[k] in rules[1..]; }
          }
        }
      }
      assert r != [] ==> exists k :: 0 <= k < |rules| && !Passes(rules[k], v, isDate) by {
        if r != [] {
          assert r[0] in rules[1..];
        }
      }
      r
  }

  /** The error report over `fields`: one entry per failing field, in order. */
  function ErrorsOver(fields: seq<Field>, req: CreateRequest, isDate: string -> bool): (errs: seq<FieldError>)
    ensures forall e :: e in errs ==> e.field in fields && e.failed != [] && e.failed == FailedRules(e.field, Get(req, e.field), isDate)
    ensures forall f :: f in fields ==> (!FieldPasses(req, f, isDate) <==> FieldError(f, FailedRules(f, Get(req, f), isDate)) in errs)
    ensures |errs| <= |fields|
  {
    if |fields| == 0 then []
    else
      var f := fields[0];
      var failed := FailedRules(f, Get(req, f), isDate);
      var rest := ErrorsOver(fields[1..], req, isDate);
      if failed == [] then rest else [FieldError(f, failed)] + rest
  }

  lemma AllFieldsListed(f: Field)
    ensures f in FIELDS
  {
    match f
    case Title =>
    case TaskDescription =>
    case AssignTo =>
    case StartDate =>
    case EndDate =>
    case Flag =>
    case Priority =>
  }

  /** The error report over all fields is empty exactly when every field
      passes every one of its rules. */
  lemma NoErrorsIffAllPass(req: CreateRequest, isDate: string -> bool)
    ensures ErrorsOver(FIELDS, req, isDate) == [] <==> forall f :: FieldPasses(req, f, isDate)
  {
    var errs := ErrorsOver(FIELDS, req, isDate);
    forall f ensures f in FIELDS { AllFieldsListed(f); }
    if errs != [] {
      assert errs[0] in errs;
      assert !FieldPasses(req, errs[0].field, isDate);
    }
  }

  /** A payload that passes the rule set carries a string title and flag of at
      most 255 characters, string description and priority, a non-empty
      assignee array and two dates. */
  lemma PassingShape(req: CreateRequest, isDate: string -> bool)
    requires forall f :: FieldPasses(req, f, isDate)
    ensures req.title.Str? && |req.title.s| <= 255
    ensures req.taskDescription.Str?
    ensures req.assignTo.Arr? && |req.assignTo.items| > 0
    ensures req.startDate.Str? && isDate(req.startDate.s)
    ensures req.endDate.Str? && isDate(req.endDate.s)
    ensures req.flag.Str? && |req.flag.s| <= 255
    ensures req.priority.Str?
  {
    assert FieldPasses(req, Title, isDate);
    assert Passes(Rules(Title)[1], req.title, isDate) && Passes(Rules(Title)[2], req.title, isDate);
    assert FieldPasses(req, TaskDescription, isDate);
    assert Passes(Rules(TaskDescription)[1], req.taskDescription, isDate);
    assert FieldPasses(req, AssignTo, isDate);
    assert Passes(Rules(AssignTo)[0], req.assignTo, isDate) && Passes(Rules(AssignTo)[1], req.assignTo, isDate);
    assert FieldPasses(req, StartDate, isDate);
    assert Passes(Rules(StartDate)[1], req.startDate, isDate);
    assert FieldPasses(req, EndDate, isDate);
    assert Passes(Rules(EndDate)[1], req.endDate, isDate);
    assert FieldPasses(req, Flag, isDate);
    assert Passes(Rules(Flag)[1], req.flag, isDate) && Passes(Rules(Flag)[2], req.flag, isDate);
    assert FieldPasses(req, Priority, isDate);
    assert Passes(Rules(Priority)[1], req.priority, isDate);
  }

  /** `$request->validate(...)` with the rule set of `store`: the validated
      payload when every field passes every rule, the per-field error report
      otherwise. */
  function Validate(req: CreateRequest, isDate: string -> bool): (r: Result<Validated, seq<FieldError>>)
    ensures r.Ok? <==> forall f :: FieldPasses(req, f, isDate)
    ensures r.Err? ==> r.error != []
    ensures r.Err? ==> forall f :: !FieldPasses(req, f, isDate) <==> FieldError(f, FailedRules(f, Get(req, f), isDate)) in r.error
    ensures r.Err? ==> forall e :: e in r.error ==> !FieldPasses(req, e.field, isDate)
    ensures r.Ok? ==>
      && req.title == Str(r.value.title) && |r.value.title| <= 255
      && req.taskDescription == Str(r.value.taskDescription)
      && req.assignTo == Arr(r.value.assignTo) && |r.value.assignTo| > 0
      && req.startDate == Str(r.value.startDate) && isDate(r.value.startDate)
      && req.endDate == Str(r.value.endDate) && isDate(r.value.endDate)
      && req.flag == Str(r.value.flag) && |r.value.flag| <= 255
      && req.priority == Str(r.value.priority)
  {
    var errs := ErrorsOver(FIELDS, req, isDate);
    NoErrorsIffAllPass(req, isDate);
    forall f ensures f in FIELDS { AllFieldsListed(f); }
    if errs != [] then Err(errs)
    else
      PassingShape(req, isDate);
      Ok(Validated(
        req.title.s, req.taskDescription.s, req.assignTo.items,
        req.startDate.s, req.endDate.s, req.flag.s, req.priority.s))
  }
}
