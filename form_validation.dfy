/**
 * Server-side validation of a submitted form definition
 * (server/controllers/feedbackform.controller.js, `validateQuestionType`,
 * `validateQuestion`, `validateFormData`). Validation never stops early: it
 * returns every violation it finds, in a fixed order.
 *
 * The error kinds are a datatype; `Message` renders each as the exact text
 * the server sends.
 */
module FormValidation {
  import opened Wrappers
  import opened JsText
  import opened Seqs

  const MaxTitle := 50
  const MaxDescription := 200
  const MaxQuestions := 10
  const MaxQuestionText := 100
  const MinOptions := 2
  const MaxOptions := 10
  const MaxOption := 100

  /**
   * One question as the request carries it. An absent text is `""` (both
   * take the same branches); `questionType` None is absent, `options` None is
   * absent or not an array, `isRequired` None is absent.
   */
  datatype QuestionInput = QuestionInput(
    questionText: string,
    questionType: Option<string>,
    options: Option<seq<string>>,
    isRequired: Option<bool>)

  /** `expiresAt` after `new Date(...)`: falsy, not a date, or a time. */
  datatype ExpiryInput = NoExpiry | Unparseable | ExpiresAt(time: int)

  /** The `formData` record `validateFormData` receives; `questions` None is not an array. */
  datatype FormData = FormData(
    title: string,
    description: string,
    questions: Option<seq<QuestionInput>>,
    expiresAt: ExpiryInput)

  /** What is wrong with one question; options are numbered from 0. */
  datatype QuestionIssue =
    | TextRequired
    | TextTooLong
    | InvalidType
    | OptionsMissing
    | OptionCountOutOfRange
    | OptionEmpty(option: nat)
    | OptionTooLong(option: nat)
    | DuplicateOptions
    | UnexpectedOptions(typeName: string)

  /** One validation error; question errors carry the zero-based question position. */
  datatype FormError =
    | TitleRequired
    | TitleTooLong
    | DescriptionTooLong
    | QuestionsNotArray
    | NoQuestions
    | TooManyQuestions
    | InvalidExpiryFormat
    | ExpiryNotInFuture
    | QuestionError(question: nat, issue: QuestionIssue)

  function QuestionLabel(q: nat): string {
    "Question " + Decimal(q + 1)
  }

  /** The text of a question error after its "Question <n>" prefix. */
  function IssueText(issue: QuestionIssue): string {
    match issue
    case TextRequired => ": Question text is required"
    case TextTooLong => ": Question text must be 100 characters or less"
    case InvalidType => ": Invalid question type. Must be 'text', 'mcq', or 'yesno'"
    case OptionsMissing => ": MCQ questions must have options array"
    case OptionCountOutOfRange => ": MCQ questions must have 2-10 options"
    case OptionEmpty(o) => ", Option " + Decimal(o + 1) + ": Option cannot be empty"
    case OptionTooLong(o) => ", Option " + Decimal(o + 1) + ": Option must be 100 characters or less"
    case DuplicateOptions => ": Duplicate options are not allowed"
    case UnexpectedOptions(t) => ": " + t + " questions should not have options"
  }

  function IssueMessage(q: nat, issue: QuestionIssue): string {
    QuestionLabel(q) + IssueText(issue)
  }

  /** The text the server sends for each error. */
  function Message(e: FormError): string {
    match e
    case TitleRequired => "Title is required"
    case TitleTooLong => "Title must be 50 characters or less"
    case DescriptionTooLong => "Description must be 200 characters or less"
    case QuestionsNotArray => "Questions must be an array"
    case NoQuestions => "At least one question is required"
    case TooManyQuestions => TooManyQuestionsText()
    case InvalidExpiryFormat => "Invalid expiry date format"
    case ExpiryNotInFuture => "Expiry date must be in the future"
    case QuestionError(q, issue) => IssueMessage(q, issue)
  }

  /** Every message about a question starts by naming it: "Question <position + 1>". */
  lemma QuestionMessagesLabelled(e: FormError)
    requires e.QuestionError?
    ensures QuestionLabel(e.question) <= Message(e)
    ensures QuestionLabel(e.question) == "Question " + Decimal(e.question + 1)
  {
    var prefix := QuestionLabel(e.question);
    assert Message(e)[..|prefix|] == prefix;
  }

  function Messages(errors: seq<FormError>): (r: seq<string>)
    ensures |r| == |errors|
    ensures forall i :: 0 <= i < |errors| ==> r[i] == Message(errors[i])
  {
    seq(|errors|, i requires 0 <= i < |errors| => Message(errors[i]))
  }

  /** `validateQuestionType`: `validTypes.includes(questionType)`. */
  predicate ValidQuestionType(t: string) {
    t in ["text", "mcq", "yesno"]
  }

  /** How a template literal renders the type: an absent one reads "undefined". */
  function TypeName(t: Option<string>): string {
    match t
    case None => "undefined"
    case Some(s) => s
  }

  /** `opt.trim().toLowerCase()`: the key options are compared by. */
  function NormalizeOption(option: string): string {
    ToLower(Trim(option))
  }

  function NormalizedOptions(options: seq<string>): (r: seq<string>)
    ensures |r| == |options|
    ensures forall i :: 0 <= i < |options| ==> r[i] == NormalizeOption(options[i])
  {
    seq(|options|, i requires 0 <= i < |options| => NormalizeOption(options[i]))
  }

  /** Two options coincide once trimmed and lower-cased. */
  predicate HasDuplicateOptions(options: seq<string>) {
    exists i, j :: 0 <= i < j < |options| && NormalizeOption(options[i]) == NormalizeOption(options[j])
  }

  // ---------------------------------------------------------------------------
  // The validator as functions: what `validateQuestion`/`validateFormData` return.
  // ---------------------------------------------------------------------------

  function TextIssues(text: string): seq<QuestionIssue> {
    (if Trim(text) == [] then [TextRequired] else [])
    + (if text != [] && |Trim(text)| > MaxQuestionText then [TextTooLong] else [])
  }

  function TypeIssues(questionType: Option<string>): seq<QuestionIssue> {
    if questionType.None? || !ValidQuestionType(questionType.value) then [InvalidType] else []
  }

  /** The checks on option `k`. */
  function OptionIssuesAt(option: string, k: nat): seq<QuestionIssue> {
    (if Trim(option) == [] then [OptionEmpty(k)] else [])
    + (if |option| > MaxOption then [OptionTooLong(k)] else [])
  }

  /** The checks on every option, option by option. */
  function PerOptionIssues(options: seq<string>): (r: seq<seq<QuestionIssue>>)
    ensures |r| == |options|
    ensures forall k :: 0 <= k < |options| ==> r[k] == OptionIssuesAt(options[k], k)
  {
    seq(|options|, k requires 0 <= k < |options| => OptionIssuesAt(options[k], k))
  }

  /** The option checks: only an MCQ has options, and an MCQ must have 2 to 10 good, distinct ones. */
  function OptionIssues(q: QuestionInput): seq<QuestionIssue> {
    if q.questionType == Some("mcq") then
      match q.options
      case None => [OptionsMissing]
      case Some(opts) =>
        if |opts| < MinOptions || |opts| > MaxOptions then [OptionCountOutOfRange]
        else Concat(PerOptionIssues(opts)) + (if HasDuplicateOptions(opts) then [DuplicateOptions] else [])
    else if q.options.Some? && |q.options.value| > 0 then [UnexpectedOptions(TypeName(q.questionType))]
    else []
  }

  /** Everything wrong with one question, in the order `validateQuestion` finds it. */
  function QuestionIssues(q: QuestionInput): seq<QuestionIssue> {
    TextIssues(q.questionText) + TypeIssues(q.questionType) + OptionIssues(q)
  }

  /** Issues of question `index` as form errors: every message is prefixed "Question <index + 1>". */
  function Tag(index: nat, issues: seq<QuestionIssue>): (r: seq<FormError>)
    ensures |r| == |issues|
    ensures forall k :: 0 <= k < |issues| ==> r[k] == QuestionError(index, issues[k])
  {
    seq(|issues|, k requires 0 <= k < |issues| => QuestionError(index, issues[k]))
  }

  /** `validateQuestion(question, index)`. */
  function QuestionErrors(q: QuestionInput, index: nat): seq<FormError> {
    Tag(index, QuestionIssues(q))
  }

  /** Each question's errors, question by question. */
  function PerQuestionErrors(qs: seq<QuestionInput>): (r: seq<seq<FormError>>)
    ensures |r| == |qs|
    ensures forall i :: 0 <= i < |qs| ==> r[i] == QuestionErrors(qs[i], i)
  {
    seq(|qs|, i requires 0 <= i < |qs| => QuestionErrors(qs[i], i))
  }

  function QuestionListErrors(questions: Option<seq<QuestionInput>>): seq<FormError> {
    match questions
    case None => [QuestionsNotArray]
    case Some(qs) =>
      if |qs| == 0 then [NoQuestions]
      else if |qs| > MaxQuestions then [TooManyQuestions]
      else Concat(PerQuestionErrors(qs))
  }

  function ExpiryErrors(expiresAt: ExpiryInput, now: int): seq<FormError> {
    match expiresAt
    case NoExpiry => []
    case Unparseable => [InvalidExpiryFormat]
    case ExpiresAt(t) => if t <= now then [ExpiryNotInFuture] else []
  }

  function TitleErrors(title: string): seq<FormError> {
    (if Trim(title) == [] then [TitleRequired] else [])
    + (if title != [] && |Trim(title)| > MaxTitle then [TitleTooLong] else [])
  }

  function DescriptionErrors(description: string): seq<FormError> {
    if description != [] && |Trim(description)| > MaxDescription then [DescriptionTooLong] else []
  }

  /** `validateFormData(formData)` at time `now`. */
  function FormErrors(f: FormData, now: int): seq<FormError> {
    TitleErrors(f.title) + DescriptionErrors(f.description)
    + QuestionListErrors(f.questions) + ExpiryErrors(f.expiresAt, now)
  }

  // ---------------------------------------------------------------------------
  // What an acceptable form is, stated independently of the error list.
  // ---------------------------------------------------------------------------

  predicate OptionAcceptable(option: string) {
    Trim(option) != [] && |option| <= MaxOption
  }

  /** What the option checks accept: an MCQ with 2 to 10 good, distinct options; any other type with none. */
  predicate OptionsAcceptable(q: QuestionInput) {
    if q.questionType == Some("mcq") then
      && q.options.Some?
      && MinOptions <= |q.options.value| <= MaxOptions
      && (forall o :: o in q.options.value ==> OptionAcceptable(o))
      && !HasDuplicateOptions(q.options.value)
    else q.options.None? || q.options.value == []
  }

  predicate QuestionAcceptable(q: QuestionInput) {
    && Trim(q.questionText) != [] && |Trim(q.questionText)| <= MaxQuestionText
    && q.questionType.Some? && ValidQuestionType(q.questionType.value)
    && OptionsAcceptable(q)
  }

  predicate ExpiryAcceptable(expiresAt: ExpiryInput, now: int) {
    expiresAt.NoExpiry? || (expiresAt.ExpiresAt? && expiresAt.time > now)
  }

  predicate FormAcceptable(f: FormData, now: int) {
    && Trim(f.title) != [] && |Trim(f.title)| <= MaxTitle
    && |Trim(f.description)| <= MaxDescription
    && f.questions.Some? && 1 <= |f.questions.value| <= MaxQuestions
    && (forall q :: q in f.questions.value ==> QuestionAcceptable(q))
    && ExpiryAcceptable(f.expiresAt, now)
  }

  // ---------------------------------------------------------------------------
  // The validator as the source writes it: errors pushed one at a time.
  // ---------------------------------------------------------------------------

  /** `validateQuestion`: accumulates every violation of one question, each labelled with its position. */
  method ValidateQuestion(q: QuestionInput, index: nat) returns (errors: seq<FormError>)
    ensures errors == QuestionErrors(q, index)
  {
    var issues := [];
    if Trim(q.questionText) == [] {
      issues := issues + [TextRequired];
    }
    if q.questionText != [] && |Trim(q.questionText)| > MaxQuestionText {
      issues := issues + [TextTooLong];
    }
    if q.questionType.None? || !ValidQuestionType(q.questionType.value) {
      issues := issues + [InvalidType];
    }
    assert issues == TextIssues(q.questionText) + TypeIssues(q.questionType);
    var optionIssues := CheckOptions(q);
    issues := issues + optionIssues;
    errors := Tag(index, issues);
  }

  /**
   * The option part of `validateQuestion`: an MCQ needs an options array of
   * 2 to 10 entries, each non-blank and at most 100 characters, with no two
   * equal once trimmed and lower-cased; any other question must not carry
   * options.
   */
  method CheckOptions(q: QuestionInput) returns (issues: seq<QuestionIssue>)
    ensures issues == OptionIssues(q)
  {
    issues := [];
    if q.questionType == Some("mcq") {
      if q.options.None? {
        issues := [OptionsMissing];
      } else if |q.options.value| < MinOptions || |q.options.value| > MaxOptions {
        issues := [OptionCountOutOfRange];
      } else {
        var opts := q.options.value;
        var k := 0;
        while k < |opts|
          invariant 0 <= k <= |opts|
          invariant issues == Concat(PerOptionIssues(opts)[..k])
        {
          ghost var previous := issues;
          if Trim(opts[k]) == [] {
            issues := issues + [OptionEmpty(k)];
          }
          if |opts[k]| > MaxOption {
            issues := issues + [OptionTooLong(k)];
          }
          ConcatPrefixSnoc(PerOptionIssues(opts), k);
          assert issues == previous + OptionIssuesAt(opts[k], k);
          k := k + 1;
        }
        assert PerOptionIssues(opts)[..|opts|] == PerOptionIssues(opts);
        var uniqueCount := SetSize(NormalizedOptions(opts));
        DuplicateIffFewerDistinct(opts);
        if uniqueCount != |opts| {
          issues := issues + [DuplicateOptions];
        }
      }
    } else if q.options.Some? && |q.options.value| > 0 {
      issues := [UnexpectedOptions(TypeName(q.questionType))];
    }
  }

  /** `validateFormData`: accumulates every violation of the whole form. */
  method ValidateFormData(f: FormData, now: int) returns (errors: seq<FormError>)
    ensures errors == FormErrors(f, now)
  {
    errors := [];
    if Trim(f.title) == [] {
      errors := errors + [TitleRequired];
    }
    if f.title != [] && |Trim(f.title)| > MaxTitle {
      errors := errors + [TitleTooLong];
    }
    if f.description != [] && |Trim(f.description)| > MaxDescription {
      errors := errors + [DescriptionTooLong];
    }
    assert errors == TitleErrors(f.title) + DescriptionErrors(f.description);
    var listErrors := CheckQuestionList(f.questions);
    errors := errors + listErrors;
    match f.expiresAt
    case NoExpiry =>
    case Unparseable =>
      errors := errors + [InvalidExpiryFormat];
    case ExpiresAt(t) =>
      if t <= now {
        errors := errors + [ExpiryNotInFuture];
      }
  }

  /** The question part of `validateFormData`: an array of 1 to 10 questions, each validated in turn. */
  method CheckQuestionList(questions: Option<seq<QuestionInput>>) returns (errors: seq<FormError>)
    ensures errors == QuestionListErrors(questions)
  {
    errors := [];
    if questions.None? {
      errors := [QuestionsNotArray];
    } else if |questions.value| == 0 {
      errors := [NoQuestions];
    } else if |questions.value| > MaxQuestions {
      errors := [TooManyQuestions];
    } else {
      var qs := questions.value;
      var i := 0;
      while i < |qs|
        invariant 0 <= i <= |qs|
        invariant errors == Concat(PerQuestionErrors(qs)[..i])
      {
        var questionErrors := ValidateQuestion(qs[i], i);
        ConcatPrefixSnoc(PerQuestionErrors(qs), i);
        errors := errors + questionErrors;
        i := i + 1;
      }
      assert PerQuestionErrors(qs)[..|qs|] == PerQuestionErrors(qs);
    }
  }

  // ---------------------------------------------------------------------------
  // Properties of the validator.
  // ---------------------------------------------------------------------------

  /** Option `k` is reported empty, or too long, exactly when it is; no other option is reported as `k`. */
  lemma PerOptionIssuesExact(options: seq<string>, k: nat)
    requires k < |options|
    ensures OptionEmpty(k) in Concat(PerOptionIssues(options)) <==> Trim(options[k]) == []
    ensures OptionTooLong(k) in Concat(PerOptionIssues(options)) <==> |options[k]| > MaxOption
  {
    var parts := PerOptionIssues(options);
    ConcatMember(parts, OptionEmpty(k));
    ConcatMember(parts, OptionTooLong(k));
    assert OptionEmpty(k) in parts[k] <==> Trim(options[k]) == [];
    assert OptionTooLong(k) in parts[k] <==> |options[k]| > MaxOption;
  }

  /** A duplicate-option error is one the trimmed, lower-cased options make: fewer distinct than options. */
  lemma DuplicateIffFewerDistinct(options: seq<string>)
    ensures |Elements(NormalizedOptions(options))| < |options| <==> HasDuplicateOptions(options)
    ensures |Elements(NormalizedOptions(options))| != |options| <==> HasDuplicateOptions(options)
  {
    var ns := NormalizedOptions(options);
    ElementsCardinality(ns);
    if !Distinct(ns) {
      var i, j :| 0 <= i < j < |ns| && ns[i] == ns[j];
      assert NormalizeOption(options[i]) == NormalizeOption(options[j]);
    }
  }

  /** Question error `e` belongs to question `index` and is one of that question's issues. */
  lemma TagMember(index: nat, issues: seq<QuestionIssue>, e: FormError)
    ensures e in Tag(index, issues) <==> e.QuestionError? && e.question == index && e.issue in issues
  {
    if e.QuestionError? && e.question == index && e.issue in issues {
      var k :| 0 <= k < |issues| && issues[k] == e.issue;
      assert Tag(index, issues)[k] == e;
    }
  }

  /**
   * The text of a question draws at most one issue: "required" exactly when
   * it is blank once trimmed, "too long" exactly when the trimmed text
   * exceeds 100 characters.
   */
  lemma QuestionTextIssues(q: QuestionInput)
    ensures TextRequired in QuestionIssues(q) <==> Trim(q.questionText) == []
    ensures TextTooLong in QuestionIssues(q) <==> |Trim(q.questionText)| > MaxQuestionText
    ensures !(TextRequired in QuestionIssues(q) && TextTooLong in QuestionIssues(q))
  {
    var rest := TypeIssues(q.questionType) + OptionIssues(q);
    assert QuestionIssues(q) == TextIssues(q.questionText) + rest;
    assert TextRequired !in rest && TextTooLong !in rest by {
      OptionIssuesKinds(q);
    }
    if |Trim(q.questionText)| > MaxQuestionText {
      assert q.questionText != [];
    }
  }

  /** The option checks report only option issues. */
  lemma OptionIssuesKinds(q: QuestionInput)
    ensures forall issue :: issue in OptionIssues(q) ==>
              !issue.TextRequired? && !issue.TextTooLong? && !issue.InvalidType?
  {
    if q.questionType == Some("mcq") && q.options.Some? && MinOptions <= |q.options.value| <= MaxOptions {
      var parts := PerOptionIssues(q.options.value);
      forall issue: QuestionIssue | issue in Concat(parts)
        ensures issue.OptionEmpty? || issue.OptionTooLong?
      {
        ConcatMember(parts, issue);
      }
    }
  }

  /**
   * An MCQ whose option count is outside 2..10 gets exactly one count issue
   * and none of the per-option or duplicate checks run.
   */
  lemma McqOptionCountOutOfRange(q: QuestionInput)
    requires q.questionType == Some("mcq") && q.options.Some?
    requires |q.options.value| < MinOptions || |q.options.value| > MaxOptions
    ensures multiset(QuestionIssues(q))[OptionCountOutOfRange] == 1
    ensures forall issue :: issue in QuestionIssues(q) ==>
              !issue.OptionEmpty? && !issue.OptionTooLong? && !issue.DuplicateOptions?
  {
    var head := TextIssues(q.questionText) + TypeIssues(q.questionType);
    assert OptionIssues(q) == [OptionCountOutOfRange];
    assert forall issue :: issue in head ==> issue.TextRequired? || issue.TextTooLong? || issue.InvalidType?;
    assert multiset(head)[OptionCountOutOfRange] == 0;
  }

  /**
   * An MCQ with 2 to 10 options: each blank option and each option longer
   * than 100 characters is reported.
   */
  lemma McqOptionChecks(q: QuestionInput, k: nat)
    requires q.questionType == Some("mcq") && q.options.Some?
    requires MinOptions <= |q.options.value| <= MaxOptions
    requires k < |q.options.value|
    ensures OptionEmpty(k) in QuestionIssues(q) <==> Trim(q.options.value[k]) == []
    ensures OptionTooLong(k) in QuestionIssues(q) <==> |q.options.value[k]| > MaxOption
  {
    var opts := q.options.value;
    var head := TextIssues(q.questionText) + TypeIssues(q.questionType);
    var dup := if HasDuplicateOptions(opts) then [DuplicateOptions] else [];
    assert QuestionIssues(q) == head + (Concat(PerOptionIssues(opts)) + dup);
    PerOptionIssuesExact(opts, k);
  }

  /**
   * An MCQ with 2 to 10 options draws one duplicate issue exactly when the
   * trimmed, lower-cased options are fewer than the options, and never two.
   */
  lemma McqDuplicateCheck(q: QuestionInput)
    requires q.questionType == Some("mcq") && q.options.Some?
    requires MinOptions <= |q.options.value| <= MaxOptions
    ensures DuplicateOptions in QuestionIssues(q) <==> |Elements(NormalizedOptions(q.options.value))| < |q.options.value|
    ensures DuplicateOptions in QuestionIssues(q) <==> HasDuplicateOptions(q.options.value)
    ensures multiset(QuestionIssues(q))[DuplicateOptions] <= 1
  {
    var opts := q.options.value;
    var front := TextIssues(q.questionText) + TypeIssues(q.questionType) + Concat(PerOptionIssues(opts));
    var dup := if HasDuplicateOptions(opts) then [DuplicateOptions] else [];
    assert QuestionIssues(q) == front + dup;
    DuplicateIffFewerDistinct(opts);
    NoDuplicateIssueBefore(q.questionText, q.questionType, opts);
    assert multiset(QuestionIssues(q)) == multiset(front) + multiset(dup);
  }

  /** The text, type and per-option checks never report a duplicate. */
  lemma NoDuplicateIssueBefore(text: string, questionType: Option<string>, opts: seq<string>)
    ensures DuplicateOptions !in TextIssues(text) + TypeIssues(questionType) + Concat(PerOptionIssues(opts))
    ensures multiset(TextIssues(text) + TypeIssues(questionType) + Concat(PerOptionIssues(opts)))[DuplicateOptions] == 0
  {
    var parts := PerOptionIssues(opts);
    ConcatMember(parts, DuplicateOptions);
    forall k | 0 <= k < |parts| ensures DuplicateOptions !in parts[k] {
      assert parts[k] == OptionIssuesAt(opts[k], k);
    }
  }

  /**
   * Any question that is not an MCQ (an invalid type included) and carries a
   * non-empty options list is told it should not have options; an MCQ never is.
   */
  lemma NonMcqWithOptions(q: QuestionInput)
    ensures q.questionType != Some("mcq") && q.options.Some? && |q.options.value| > 0 ==>
              UnexpectedOptions(TypeName(q.questionType)) in QuestionIssues(q)
    ensures q.questionType == Some("mcq") ==>
              forall issue :: issue in QuestionIssues(q) ==> !issue.UnexpectedOptions?
  {
    var head := TextIssues(q.questionText) + TypeIssues(q.questionType);
    assert QuestionIssues(q) == head + OptionIssues(q);
    OptionIssuesKinds(q);
    if q.questionType == Some("mcq") && q.options.Some? && MinOptions <= |q.options.value| <= MaxOptions {
      var parts := PerOptionIssues(q.options.value);
      forall issue: QuestionIssue | issue in Concat(parts) ensures !issue.UnexpectedOptions? {
        ConcatMember(parts, issue);
      }
    }
  }

  /** The option checks report nothing exactly when the options are acceptable. */
  lemma OptionIssuesEmptyIff(q: QuestionInput)
    ensures OptionIssues(q) == [] <==> OptionsAcceptable(q)
  {
    if q.questionType == Some("mcq") && q.options.Some? && MinOptions <= |q.options.value| <= MaxOptions {
      var opts := q.options.value;
      var parts := PerOptionIssues(opts);
      ConcatEmptyIff(parts);
      AppendEmpty(Concat(parts), if HasDuplicateOptions(opts) then [DuplicateOptions] else []);
      assert (forall k :: 0 <= k < |opts| ==> parts[k] == []) <==> (forall o :: o in opts ==> OptionAcceptable(o)) by {
        if forall k :: 0 <= k < |opts| ==> parts[k] == [] {
          forall o | o in opts ensures OptionAcceptable(o) {
            var k :| 0 <= k < |opts| && opts[k] == o;
            assert parts[k] == [];
          }
        }
        if forall o :: o in opts ==> OptionAcceptable(o) {
          forall k | 0 <= k < |opts| ensures parts[k] == [] {
            assert opts[k] in opts;
          }
        }
      }
    }
  }

  /** A question draws no issue exactly when it is acceptable. */
  lemma QuestionIssuesEmptyIff(q: QuestionInput)
    ensures QuestionIssues(q) == [] <==> QuestionAcceptable(q)
  {
    var text := TextIssues(q.questionText);
    var kind := TypeIssues(q.questionType);
    AppendEmpty(text, kind);
    AppendEmpty(text + kind, OptionIssues(q));
    if Trim(q.questionText) != [] {
      assert q.questionText != [];
    }
    assert text == [] <==> Trim(q.questionText) != [] && |Trim(q.questionText)| <= MaxQuestionText;
    OptionIssuesEmptyIff(q);
  }

  /**
   * The question errors of a list of questions are exactly each question's
   * own issues, labelled with the position of that question, and they come
   * in question order.
   */
  lemma AllQuestionErrorsMembers(qs: seq<QuestionInput>, e: FormError)
    ensures e in Concat(PerQuestionErrors(qs)) <==>
              e.QuestionError? && e.question < |qs| && e.issue in QuestionIssues(qs[e.question])
  {
    var parts := PerQuestionErrors(qs);
    ConcatMember(parts, e);
    if e in Concat(parts) {
      var i :| 0 <= i < |parts| && e in parts[i];
      TagMember(i, QuestionIssues(qs[i]), e);
    }
    if e.QuestionError? && e.question < |qs| && e.issue in QuestionIssues(qs[e.question]) {
      TagMember(e.question, QuestionIssues(qs[e.question]), e);
      assert e in parts[e.question];
    }
  }

  /** The question errors come question by question: positions never decrease. */
  lemma AllQuestionErrorsInOrder(qs: seq<QuestionInput>)
    ensures forall a, b :: 0 <= a < b < |Concat(PerQuestionErrors(qs))| ==>
              QuestionPosition(Concat(PerQuestionErrors(qs))[a]) <= QuestionPosition(Concat(PerQuestionErrors(qs))[b])
  {
    var parts := PerQuestionErrors(qs);
    forall i, e | 0 <= i < |parts| && e in parts[i] ensures QuestionPosition(e) == i {
      TagMember(i, QuestionIssues(qs[i]), e);
    }
    ConcatKeysAscend(parts, QuestionPosition);
  }

  /** The position an error refers to (form-level errors count as position 0). */
  function QuestionPosition(e: FormError): int {
    if e.QuestionError? then e.question else 0
  }

  /** A list of questions draws no question error exactly when every question is acceptable. */
  lemma AllQuestionErrorsEmptyIff(qs: seq<QuestionInput>)
    ensures Concat(PerQuestionErrors(qs)) == [] <==> forall q :: q in qs ==> QuestionAcceptable(q)
  {
    var parts := PerQuestionErrors(qs);
    ConcatEmptyIff(parts);
    forall i | 0 <= i < |qs| ensures parts[i] == [] <==> QuestionAcceptable(qs[i]) {
      QuestionIssuesEmptyIff(qs[i]);
    }
    if forall i :: 0 <= i < |qs| ==> QuestionAcceptable(qs[i]) {
      forall q | q in qs ensures QuestionAcceptable(q) {
        var i :| 0 <= i < |qs| && qs[i] == q;
      }
    }
    if forall q :: q in qs ==> QuestionAcceptable(q) {
      forall i | 0 <= i < |qs| ensures QuestionAcceptable(qs[i]) {
        assert qs[i] in qs;
      }
    }
  }

  /** The title, description and expiry checks never produce a question error. */
  lemma FormLevelErrorsUntagged(f: FormData, now: int)
    ensures forall e :: e in TitleErrors(f.title) + DescriptionErrors(f.description) ==> !e.QuestionError?
    ensures forall e :: e in ExpiryErrors(f.expiresAt, now) ==> !e.QuestionError?
    ensures NoQuestions !in TitleErrors(f.title) + DescriptionErrors(f.description) + ExpiryErrors(f.expiresAt, now)
    ensures TooManyQuestions !in TitleErrors(f.title) + DescriptionErrors(f.description) + ExpiryErrors(f.expiresAt, now)
  {
  }

  /** An empty question list gets one count error and no question is checked. */
  lemma EmptyQuestionList(f: FormData, now: int)
    requires f.questions == Some([])
    ensures multiset(FormErrors(f, now))[NoQuestions] == 1
    ensures TooManyQuestions !in FormErrors(f, now)
    ensures forall e :: e in FormErrors(f, now) ==> !e.QuestionError?
  {
    var head := TitleErrors(f.title) + DescriptionErrors(f.description);
    var tail := ExpiryErrors(f.expiresAt, now);
    FormLevelErrorsUntagged(f, now);
    assert FormErrors(f, now) == head + [NoQuestions] + tail;
  }

  /** More than 10 questions get one count error and no question is checked. */
  lemma TooManyQuestionsList(f: FormData, now: int)
    requires f.questions.Some? && |f.questions.value| > MaxQuestions
    ensures multiset(FormErrors(f, now))[TooManyQuestions] == 1
    ensures NoQuestions !in FormErrors(f, now)
    ensures forall e :: e in FormErrors(f, now) ==> !e.QuestionError?
  {
    var head := TitleErrors(f.title) + DescriptionErrors(f.description);
    var tail := ExpiryErrors(f.expiresAt, now);
    FormLevelErrorsUntagged(f, now);
    assert FormErrors(f, now) == head + [TooManyQuestions] + tail;
  }

  /**
   * A list of 1 to 10 questions gets no count error, and the question errors
   * of the form are exactly every question's own issues, labelled with its position.
   */
  lemma QuestionListChecked(f: FormData, now: int, e: FormError)
    requires f.questions.Some? && 1 <= |f.questions.value| <= MaxQuestions
    ensures NoQuestions !in FormErrors(f, now) && TooManyQuestions !in FormErrors(f, now)
    ensures e.QuestionError? ==>
              (e in FormErrors(f, now) <==>
                 e.question < |f.questions.value| && e.issue in QuestionIssues(f.questions.value[e.question]))
  {
    var qs := f.questions.value;
    var head := TitleErrors(f.title) + DescriptionErrors(f.description);
    var list := Concat(PerQuestionErrors(qs));
    var tail := ExpiryErrors(f.expiresAt, now);
    FormLevelErrorsUntagged(f, now);
    AllQuestionErrorsMembers(qs, e);
    AllQuestionErrorsMembers(qs, NoQuestions);
    AllQuestionErrorsMembers(qs, TooManyQuestions);
    assert FormErrors(f, now) == head + list + tail;
  }

  /** `validateFormData` returns no error exactly when the form is acceptable. */
  lemma FormErrorsEmptyIff(f: FormData, now: int)
    ensures FormErrors(f, now) == [] <==> FormAcceptable(f, now)
  {
    var title := TitleErrors(f.title);
    var description := DescriptionErrors(f.description);
    var list := QuestionListErrors(f.questions);
    var expiry := ExpiryErrors(f.expiresAt, now);
    AppendEmpty(title, description);
    AppendEmpty(title + description, list);
    AppendEmpty(title + description + list, expiry);
    TitleErrorsEmptyIff(f.title);
    assert description == [] <==> |Trim(f.description)| <= MaxDescription;
    QuestionListErrorsEmptyIff(f.questions);
  }

  lemma TitleErrorsEmptyIff(title: string)
    ensures TitleErrors(title) == [] <==> Trim(title) != [] && |Trim(title)| <= MaxTitle
  {
    if Trim(title) != [] {
      assert title != [];
    }
  }

  lemma QuestionListErrorsEmptyIff(questions: Option<seq<QuestionInput>>)
    ensures QuestionListErrors(questions) == [] <==>
              && questions.Some? && 1 <= |questions.value| <= MaxQuestions
              && forall q :: q in questions.value ==> QuestionAcceptable(q)
  {
    if questions.Some? && 1 <= |questions.value| <= MaxQuestions {
      AllQuestionErrorsEmptyIff(questions.value);
    }
  }

  /** A two-digit number is written as its two digits. */
  lemma DecimalTwoDigits(tens: nat, units: nat)
    requires 1 <= tens < 10 && units < 10
    ensures Decimal(10 * tens + units) == [DigitChar(tens), DigitChar(units)]
  {
    var n := 10 * tens + units;
    assert n / 10 == tens && n % 10 == units;
  }

  /** The message the server sends, as written, when there are too many questions. */
  function TooManyQuestionsText(): string {
    "Maximum 20 questions allowed"
  }

  /** The message as written states a limit of 20, not the enforced 10. */
  lemma TooManyQuestionsTextStates20()
    ensures Message(TooManyQuestions) == TooManyQuestionsText()
    ensures TooManyQuestionsText() == "Maximum " + Decimal(20) + " questions allowed"
    ensures Decimal(20) != Decimal(MaxQuestions)
  {
    DecimalTwoDigits(2, 0);
    DecimalTwoDigits(1, 0);
  }

  /** A form of 11 to 20 questions, within the limit the message states, is refused. */
  lemma TooManyQuestionsMessageAsWritten(f: FormData, now: int)
    requires f.questions.Some? && MaxQuestions < |f.questions.value| <= 20
    ensures TooManyQuestions in FormErrors(f, now)
    ensures !FormAcceptable(f, now)
  {
    TooManyQuestionsList(f, now);
    FormErrorsEmptyIff(f, now);
  }

  /** The text for each error, with the question limit stated as it is enforced. */
  function CorrectedMessage(e: FormError): string {
    if e == TooManyQuestions then "Maximum " + Decimal(MaxQuestions) + " questions allowed" else Message(e)
  }

  /**
   * The count error is reported exactly when a form has more questions than
   * the limit, and the corrected text states that limit.
   */
  lemma TooManyQuestionsMessageStatesLimit(f: FormData, now: int)
    requires f.questions.Some?
    ensures TooManyQuestions in FormErrors(f, now) <==> |f.questions.value| > MaxQuestions
    ensures CorrectedMessage(TooManyQuestions) == "Maximum " + Decimal(MaxQuestions) + " questions allowed"
  {
    var n := |f.questions.value|;
    if n == 0 {
      EmptyQuestionList(f, now);
    } else if n <= MaxQuestions {
      QuestionListChecked(f, now, TooManyQuestions);
    } else {
      TooManyQuestionsList(f, now);
    }
  }
}
