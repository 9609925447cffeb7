/**
 * The form builder of client/src/Pages/AdminDashboard.jsx: the draft form
 * the admin edits, the handlers that edit it, the client-side
 * `validateForm`, and the payload `handleSubmit` posts to the server.
 *
 * The draft's `expiresAt` is kept as what `new Date(...)` makes of the
 * input's text: empty, not a date, or a time.
 */
module AdminDashboard {
  import opened Wrappers
  import opened JsText
  import opened Seqs
  import FV = FormValidation
  import FC = FormController
  import FM = FeedbackModel

  // ---------------------------------------------------------------------------
  // The draft and its edits
  // ---------------------------------------------------------------------------

  datatype DraftQuestion = DraftQuestion(
    questionText: string,
    questionType: string,
    options: seq<string>,
    isRequired: bool)

  datatype Draft = Draft(
    title: string,
    description: string,
    questions: seq<DraftQuestion>,
    expiresAt: FV.ExpiryInput)

  /** The question `addQuestion` appends and the initial draft holds twice. */
  function BlankQuestion(): DraftQuestion {
    DraftQuestion("", "text", [], false)
  }

  /** The draft the dialog opens with. */
  function InitialDraft(): Draft {
    Draft("", "", [BlankQuestion(), BlankQuestion()], FV.NoExpiry)
  }

  /** One call of an edit handler. */
  datatype Edit =
    | SetTitle(title: string)
    | SetDescription(description: string)
    | SetExpiry(expiresAt: FV.ExpiryInput)
    | SetQuestionText(question: nat, text: string)
    | SetQuestionType(question: nat, questionType: string)
    | SetRequired(question: nat, isRequired: bool)
    | SetOption(question: nat, option: nat, value: string)
    | AddOption(question: nat)
    | RemoveOption(question: nat, option: nat)
    | AddQuestion
    | RemoveQuestion(question: nat)

  /** The positions the handler indexes exist. */
  predicate Applicable(d: Draft, e: Edit) {
    match e
    case SetQuestionText(i, _) => i < |d.questions|
    case SetQuestionType(i, _) => i < |d.questions|
    case SetRequired(i, _) => i < |d.questions|
    case SetOption(i, o, _) => i < |d.questions| && o < |d.questions[i].options|
    case AddOption(i) => i < |d.questions|
    case RemoveOption(i, _) => i < |d.questions|
    case _ => true
  }

  /** An edit the page can make: positions exist and a type comes from the select's three choices. */
  predicate UiEdit(d: Draft, e: Edit) {
    Applicable(d, e) && (e.SetQuestionType? ==> FV.ValidQuestionType(e.questionType))
  }

  /** `items.filter((_, i) => i !== index)`. */
  function KeepOthers<T>(items: seq<T>, index: nat): (r: seq<T>)
    ensures |r| <= |items|
  {
    if items == [] then []
    else KeepOthers(items[..|items| - 1], index) + (if |items| - 1 != index then [items[|items| - 1]] else [])
  }

  /** `items.splice(index, 1)`: removes the item at `index`, if there is one. */
  function Splice<T>(items: seq<T>, index: nat): seq<T> {
    if index < |items| then items[..index] + items[index + 1..] else items
  }

  /** The draft after one handler call. */
  function ApplyEdit(d: Draft, e: Edit): Draft
    requires Applicable(d, e)
  {
    match e
    case SetTitle(t) => d.(title := t)
    case SetDescription(t) => d.(description := t)
    case SetExpiry(x) => d.(expiresAt := x)
    case SetQuestionText(i, t) => d.(questions := d.questions[i := d.questions[i].(questionText := t)])
    case SetQuestionType(i, t) =>
      d.(questions := d.questions[i := d.questions[i].(questionType := t,
                                                       options := if t == "mcq" then ["", ""] else [])])
    case SetRequired(i, b) => d.(questions := d.questions[i := d.questions[i].(isRequired := b)])
    case SetOption(i, o, v) =>
      var q := d.questions[i];
      d.(questions := d.questions[i := q.(options := q.options[o := v])])
    case AddOption(i) =>
      var q := d.questions[i];
      if |q.options| < 10 then d.(questions := d.questions[i := q.(options := q.options + [""])]) else d
    case RemoveOption(i, o) =>
      var q := d.questions[i];
      if |q.options| > 2 then d.(questions := d.questions[i := q.(options := Splice(q.options, o))]) else d
    case AddQuestion =>
      if |d.questions| < 10 then d.(questions := d.questions + [BlankQuestion()]) else d
    case RemoveQuestion(i) =>
      if |d.questions| > 2 then d.(questions := KeepOthers(d.questions, i)) else d
  }

  /** Every edit of the sequence can be made on the draft the previous ones left. */
  predicate UiRun(d: Draft, edits: seq<Edit>)
    decreases |edits|
  {
    edits == [] || (UiEdit(d, edits[0]) && UiRun(ApplyEdit(d, edits[0]), edits[1..]))
  }

  /** The draft after a sequence of edits. */
  function Run(d: Draft, edits: seq<Edit>): Draft
    requires UiRun(d, edits)
    decreases |edits|
  {
    if edits == [] then d else Run(ApplyEdit(d, edits[0]), edits[1..])
  }

  /**
   * The shape the editors maintain: 2 to 10 questions, each of one of the
   * three types, and 2 to 10 options on every multiple-choice question.
   */
  ghost predicate DraftInvariant(d: Draft) {
    && 2 <= |d.questions| <= 10
    && forall q :: q in d.questions ==>
         FV.ValidQuestionType(q.questionType) && (q.questionType == "mcq" ==> 2 <= |q.options| <= 10)
  }

  /** Filtering out position `index` keeps every other item, in order. */
  lemma {:induction false} KeepOthersRemovesOne<T>(items: seq<T>, index: nat)
    ensures KeepOthers(items, index) == if index < |items| then items[..index] + items[index + 1..] else items
  {
    if items != [] {
      var n := |items| - 1;
      var p := items[..n];
      KeepOthersRemovesOne(p, index);
      if index < n {
        assert p[..index] == items[..index];
        assert p[index + 1..] + [items[n]] == items[index + 1..];
      } else if index == n {
        assert p == items[..index];
      } else {
        assert p + [items[n]] == items;
      }
    }
  }

  /** Every edit the page can make keeps the draft's shape. */
  lemma EditKeepsInvariant(d: Draft, e: Edit)
    requires DraftInvariant(d) && UiEdit(d, e)
    ensures DraftInvariant(ApplyEdit(d, e))
  {
    var after := ApplyEdit(d, e);
    match e
    case RemoveQuestion(i) =>
      KeepOthersRemovesOne(d.questions, i);
      if |d.questions| > 2 && i < |d.questions| {
        assert forall q :: q in after.questions ==> q in d.questions;
      }
    case AddQuestion =>
    case SetTitle(_) =>
    case SetDescription(_) =>
    case SetExpiry(_) =>
    case _ =>
      var i := e.question;
      assert forall q :: q in after.questions ==> q in d.questions || q == after.questions[i];
      assert d.questions[i] in d.questions;
  }

  /**
   * From the draft the dialog opens with, every sequence of edits the page
   * can make leaves 2 to 10 questions, each with a valid type, and 2 to 10
   * options on every multiple-choice question.
   */
  lemma {:induction false} RunKeepsInvariant(d: Draft, edits: seq<Edit>)
    requires DraftInvariant(d) && UiRun(d, edits)
    ensures DraftInvariant(Run(d, edits))
    decreases |edits|
  {
    if edits != [] {
      EditKeepsInvariant(d, edits[0]);
      RunKeepsInvariant(ApplyEdit(d, edits[0]), edits[1..]);
    }
  }

  lemma InitialDraftInvariant()
    ensures DraftInvariant(InitialDraft())
  {
    assert FV.ValidQuestionType(BlankQuestion().questionType);
  }

  /**
   * Changing a question's type resets its options, to two empty options for
   * a multiple-choice question and to none otherwise; nothing else changes.
   */
  lemma TypeChangeResetsOptions(d: Draft, i: nat, t: string)
    requires i < |d.questions|
    ensures var after := ApplyEdit(d, SetQuestionType(i, t));
      && |after.questions| == |d.questions|
      && after.questions[i].options == (if t == "mcq" then ["", ""] else [])
      && after.questions[i].questionType == t
      && after.questions[i].questionText == d.questions[i].questionText
      && after.questions[i].isRequired == d.questions[i].isRequired
      && (forall j :: 0 <= j < |d.questions| && j != i ==> after.questions[j] == d.questions[j])
      && after.(questions := d.questions) == d
  {
  }

  /** Editing option `o` of question `i` changes that option only. */
  lemma OptionChangeOnlyThatOption(d: Draft, i: nat, o: nat, v: string)
    requires i < |d.questions| && o < |d.questions[i].options|
    ensures var after := ApplyEdit(d, SetOption(i, o, v));
      && |after.questions| == |d.questions|
      && (forall j :: 0 <= j < |d.questions| && j != i ==> after.questions[j] == d.questions[j])
      && |after.questions[i].options| == |d.questions[i].options|
      && after.questions[i].options[o] == v
      && (forall k :: 0 <= k < |d.questions[i].options| && k != o ==>
            after.questions[i].options[k] == d.questions[i].options[k])
      && after.questions[i].(options := d.questions[i].options) == d.questions[i]
      && after.(questions := d.questions) == d
  {
  }

  /**
   * `addOption` appends one empty option below 10 options and does nothing
   * at 10; `removeOption` removes exactly option `o` above 2 options and does
   * nothing at 2. Other questions are untouched.
   */
  lemma OptionListEdits(d: Draft, i: nat, o: nat)
    requires i < |d.questions|
    ensures var q := d.questions[i];
            var added := ApplyEdit(d, AddOption(i)).questions;
            var removed := ApplyEdit(d, RemoveOption(i, o)).questions;
      && |added| == |d.questions| && |removed| == |d.questions|
      && added[i].options == (if |q.options| < 10 then q.options + [""] else q.options)
      && removed[i].options == (if |q.options| > 2 && o < |q.options| then q.options[..o] + q.options[o + 1..] else q.options)
      && |removed[i].options| == (if |q.options| > 2 && o < |q.options| then |q.options| - 1 else |q.options|)
      && (forall j :: 0 <= j < |d.questions| && j != i ==> added[j] == d.questions[j] && removed[j] == d.questions[j])
  {
  }

  /**
   * `addQuestion` appends a blank text question below 10 questions;
   * `removeQuestion` removes exactly question `i`, keeping the order of the
   * others, and only when there are more than 2.
   */
  lemma QuestionListEdits(d: Draft, i: nat)
    ensures ApplyEdit(d, AddQuestion).questions ==
              if |d.questions| < 10 then d.questions + [BlankQuestion()] else d.questions
    ensures ApplyEdit(d, RemoveQuestion(i)).questions ==
              if |d.questions| > 2 && i < |d.questions| then d.questions[..i] + d.questions[i + 1..] else d.questions
  {
    KeepOthersRemovesOne(d.questions, i);
  }

  /** The form-builder state, edited in place by the page's handlers. */
  class FormDraft {
    var title: string
    var description: string
    var questions: seq<DraftQuestion>
    var expiresAt: FV.ExpiryInput

    function Snapshot(): Draft
      reads this
    {
      Draft(title, description, questions, expiresAt)
    }

    ghost predicate Valid()
      reads this
    {
      DraftInvariant(Snapshot())
    }

    /** `useState` with the initial draft (and `resetForm`). */
    constructor ()
      ensures Snapshot() == InitialDraft()
      ensures Valid()
    {
      title, description := "", "";
      questions := [BlankQuestion(), BlankQuestion()];
      expiresAt := FV.NoExpiry;
      InitialDraftInvariant();
    }

    /** `handleInputChange(field, value)` for the title. */
    method ChangeTitle(value: string)
      requires Valid()
      modifies this
      ensures Valid()
      ensures Snapshot() == ApplyEdit(old(Snapshot()), SetTitle(value))
    {
      title := value;
    }

    /** `handleInputChange(field, value)` for the description. */
    method ChangeDescription(value: string)
      requires Valid()
      modifies this
      ensures Valid()
      ensures Snapshot() == ApplyEdit(old(Snapshot()), SetDescription(value))
    {
      description := value;
    }

    /** `handleInputChange(field, value)` for the expiry. */
    method ChangeExpiry(value: FV.ExpiryInput)
      requires Valid()
      modifies this
      ensures Valid()
      ensures Snapshot() == ApplyEdit(old(Snapshot()), SetExpiry(value))
    {
      expiresAt := value;
    }

    /** `handleQuestionChange(index, "questionText", value)`. */
    method ChangeQuestionText(index: nat, value: string)
      requires Valid() && index < |questions|
      modifies this
      ensures Valid()
      ensures Snapshot() == ApplyEdit(old(Snapshot()), SetQuestionText(index, value))
    {
      EditKeepsInvariant(Snapshot(), SetQuestionText(index, value));
      var updated := questions;
      updated := updated[index := updated[index].(questionText := value)];
      questions := updated;
    }

    /** `handleQuestionChange(index, "questionType", value)`: the options are reset with the type. */
    method ChangeQuestionType(index: nat, value: string)
      requires Valid() && index < |questions| && FV.ValidQuestionType(value)
      modifies this
      ensures Valid()
      ensures Snapshot() == ApplyEdit(old(Snapshot()), SetQuestionType(index, value))
    {
      EditKeepsInvariant(Snapshot(), SetQuestionType(index, value));
      var updated := questions;
      updated := updated[index := updated[index].(questionType := value)];
      if value == "mcq" {
        updated := updated[index := updated[index].(options := ["", ""])];
      } else {
        updated := updated[index := updated[index].(options := [])];
      }
      questions := updated;
    }

    /** `handleQuestionChange(index, "isRequired", value)`. */
    method ChangeRequired(index: nat, value: bool)
      requires Valid() && index < |questions|
      modifies this
      ensures Valid()
      ensures Snapshot() == ApplyEdit(old(Snapshot()), SetRequired(index, value))
    {
      EditKeepsInvariant(Snapshot(), SetRequired(index, value));
      var updated := questions;
      updated := updated[index := updated[index].(isRequired := value)];
      questions := updated;
    }

    /** `handleOptionChange(questionIndex, optionIndex, value)`. */
    method ChangeOption(questionIndex: nat, optionIndex: nat, value: string)
      requires Valid() && questionIndex < |questions| && optionIndex < |questions[questionIndex].options|
      modifies this
      ensures Valid()
      ensures Snapshot() == ApplyEdit(old(Snapshot()), SetOption(questionIndex, optionIndex, value))
    {
      EditKeepsInvariant(Snapshot(), SetOption(questionIndex, optionIndex, value));
      var updated := questions;
      var options := updated[questionIndex].options;
      options := options[optionIndex := value];
      updated := updated[questionIndex := updated[questionIndex].(options := options)];
      questions := updated;
    }

    /** `addOption(questionIndex)`: pushes an empty option while there are fewer than 10. */
    method AddOptionTo(questionIndex: nat)
      requires Valid() && questionIndex < |questions|
      modifies this
      ensures Valid()
      ensures Snapshot() == ApplyEdit(old(Snapshot()), AddOption(questionIndex))
    {
      EditKeepsInvariant(Snapshot(), AddOption(questionIndex));
      var updated := questions;
      if |updated[questionIndex].options| < 10 {
        updated := updated[questionIndex := updated[questionIndex].(options := updated[questionIndex].options + [""])];
        questions := updated;
      }
    }

    /** `removeOption(questionIndex, optionIndex)`: splices one option out while there are more than 2. */
    method RemoveOptionFrom(questionIndex: nat, optionIndex: nat)
      requires Valid() && questionIndex < |questions|
      modifies this
      ensures Valid()
      ensures Snapshot() == ApplyEdit(old(Snapshot()), RemoveOption(questionIndex, optionIndex))
    {
      EditKeepsInvariant(Snapshot(), RemoveOption(questionIndex, optionIndex));
      var updated := questions;
      if |updated[questionIndex].options| > 2 {
        updated := updated[questionIndex := updated[questionIndex].(options := Splice(updated[questionIndex].options, optionIndex))];
        questions := updated;
      }
    }

    /** `addQuestion()`: appends a blank text question while there are fewer than 10. */
    method AddBlankQuestion()
      requires Valid()
      modifies this
      ensures Valid()
      ensures Snapshot() == ApplyEdit(old(Snapshot()), AddQuestion)
    {
      EditKeepsInvariant(Snapshot(), AddQuestion);
      if |questions| < 10 {
        questions := questions + [BlankQuestion()];
      }
    }

    /** `removeQuestion(index)`: filters question `index` out while there are more than 2. */
    method RemoveQuestionAt(index: nat)
      requires Valid()
      modifies this
      ensures Valid()
      ensures Snapshot() == ApplyEdit(old(Snapshot()), RemoveQuestion(index))
    {
      EditKeepsInvariant(Snapshot(), RemoveQuestion(index));
      if |questions| > 2 {
        questions := KeepOthers(questions, index);
      }
    }

    /** `validateForm()` on the current draft. */
    method ValidateForm(now: int) returns (errors: seq<ClientError>)
      ensures errors == ClientErrors(Snapshot(), now)
    {
      errors := [];
      if Trim(title) == [] {
        errors := [TitleRequired];
      } else if |Trim(title)| > 50 {
        errors := [TitleTooLong];
      }
      if |Trim(description)| > 200 {
        errors := errors + [DescriptionTooLong];
      }
      assert errors == TitleChecks(title) + DescriptionChecks(description);
      var qs := questions;
      var questionErrors: seq<ClientError> := [];
      var i := 0;
      while i < |qs|
        invariant 0 <= i <= |qs|
        invariant questionErrors == Concat(PerQuestionChecks(qs)[..i])
      {
        var found := CheckQuestion(qs[i], i);
        ConcatPrefixSnoc(PerQuestionChecks(qs), i);
        questionErrors := questionErrors + found;
        i := i + 1;
      }
      assert PerQuestionChecks(qs)[..|qs|] == PerQuestionChecks(qs);
      errors := errors + questionErrors;
      var expiryErrors: seq<ClientError> := [];
      if expiresAt.ExpiresAt? && expiresAt.time <= now {
        expiryErrors := [ExpiryNotInFuture];
      }
      errors := errors + expiryErrors;
    }

    /** `handleSubmit`: nothing is sent while `validateForm` reports an error; otherwise the payload. */
    method HandleSubmit(now: int) returns (request: Option<FC.CreateRequest>)
      ensures request == Submission(Snapshot(), now)
    {
      var errors := ValidateForm(now);
      if |errors| > 0 {
        return None;
      }
      request := Some(Payload(Snapshot()));
    }
  }

  // ---------------------------------------------------------------------------
  // validateForm
  // ---------------------------------------------------------------------------

  /** One client-side error; positions are zero-based. */
  datatype ClientError =
    | TitleRequired
    | TitleTooLong
    | DescriptionTooLong
    | TextRequired(question: nat)
    | TextTooLong(question: nat)
    | TooFewOptions(question: nat)
    | TooManyOptions(question: nat)
    | OptionEmpty(question: nat, option: nat)
    | OptionTooLong(question: nat, option: nat)
    | DuplicateOptions(question: nat)
    | ExpiryNotInFuture

  /** The text the page lists for each error. */
  function ClientMessage(e: ClientError): string {
    match e
    case TitleRequired => "Title is required"
    case TitleTooLong => "Title must be 50 characters or less"
    case DescriptionTooLong => "Description must be 200 characters or less"
    case ExpiryNotInFuture => "Expiry date must be in the future"
    case _ => FV.QuestionLabel(e.question) + ClientIssueText(e)
  }

  /** The text of a question error after its "Question <n>" prefix. */
  function ClientIssueText(e: ClientError): string {
    match e
    case TextRequired(_) => ": Question text is required"
    case TextTooLong(_) => ": Question text must be 100 characters or less"
    case TooFewOptions(_) => ": MCQ questions must have at least 2 options"
    case TooManyOptions(_) => ": MCQ questions can have maximum 10 options"
    case OptionEmpty(_, o) => ", Option " + Decimal(o + 1) + ": Option cannot be empty"
    case OptionTooLong(_, o) => ", Option " + Decimal(o + 1) + ": Option must be 100 characters or less"
    case DuplicateOptions(_) => ": Duplicate options are not allowed"
    case _ => ""
  }

  /** The errors that name a question. */
  predicate AboutQuestion(e: ClientError) {
    !(e.TitleRequired? || e.TitleTooLong? || e.DescriptionTooLong? || e.ExpiryNotInFuture?)
  }

  /** The server's issue for the same check of the submitted question. */
  function ServerIssue(e: ClientError): FV.QuestionIssue
    requires AboutQuestion(e)
  {
    match e
    case TextRequired(_) => FV.TextRequired
    case TextTooLong(_) => FV.TextTooLong
    case TooFewOptions(_) => FV.OptionCountOutOfRange
    case TooManyOptions(_) => FV.OptionCountOutOfRange
    case OptionEmpty(_, o) => FV.OptionEmpty(o)
    case OptionTooLong(_, o) => FV.OptionTooLong(o)
    case DuplicateOptions(_) => FV.DuplicateOptions
  }

  /**
   * Every message the page lists about a question is "Question <position + 1>"
   * followed by the text of the issue, as the server's messages are.
   */
  lemma ClientMessagesLabelled(e: ClientError)
    requires AboutQuestion(e)
    ensures FV.QuestionLabel(e.question) <= ClientMessage(e)
    ensures FV.QuestionLabel(e.question) == "Question " + Decimal(e.question + 1)
    ensures ClientMessage(e)[|FV.QuestionLabel(e.question)|..] == ClientIssueText(e)
  {
    var prefix := FV.QuestionLabel(e.question);
    assert ClientMessage(e) == prefix + ClientIssueText(e);
    assert ClientMessage(e)[..|prefix|] == prefix;
  }

  /**
   * For the question text and duplicate checks the page appends the
   * server's own text to the label, so both sides send the same message.
   */
  lemma TextIssuesAgree(e: ClientError)
    requires e.TextRequired? || e.TextTooLong? || e.DuplicateOptions?
    ensures ClientIssueText(e) == FV.IssueText(ServerIssue(e))
    ensures ClientMessage(e) == FV.IssueMessage(e.question, ServerIssue(e))
  {
  }

  /** The same holds for the per-option checks, option numbers included. */
  lemma OptionIssuesAgree(e: ClientError)
    requires e.OptionEmpty? || e.OptionTooLong?
    ensures ClientIssueText(e) == FV.IssueText(ServerIssue(e))
    ensures ClientMessage(e) == FV.IssueMessage(e.question, ServerIssue(e))
  {
  }

  /** The title checks form an else-if chain. */
  function TitleChecks(title: string): seq<ClientError> {
    if Trim(title) == [] then [TitleRequired]
    else if |Trim(title)| > 50 then [TitleTooLong]
    else []
  }

  function DescriptionChecks(description: string): seq<ClientError> {
    if |Trim(description)| > 200 then [DescriptionTooLong] else []
  }

  function TextChecks(text: string, i: nat): seq<ClientError> {
    if Trim(text) == [] then [TextRequired(i)]
    else if |Trim(text)| > 100 then [TextTooLong(i)]
    else []
  }

  function CountChecks(options: seq<string>, i: nat): seq<ClientError> {
    if |options| < 2 then [TooFewOptions(i)]
    else if |options| > 10 then [TooManyOptions(i)]
    else []
  }

  /** Option `o`: blank, or else longer than 100 characters (untrimmed). */
  function OptionCheck(option: string, i: nat, o: nat): seq<ClientError> {
    if Trim(option) == [] then [OptionEmpty(i, o)]
    else if |option| > 100 then [OptionTooLong(i, o)]
    else []
  }

  function PerOptionChecks(options: seq<string>, i: nat): (r: seq<seq<ClientError>>)
    ensures |r| == |options|
    ensures forall o :: 0 <= o < |options| ==> r[o] == OptionCheck(options[o], i, o)
  {
    seq(|options|, o requires 0 <= o < |options| => OptionCheck(options[o], i, o))
  }

  /** `new Set(options.map(opt => opt.trim().toLowerCase()))` is smaller than the options. */
  function DuplicateChecks(options: seq<string>, i: nat): seq<ClientError> {
    if |Elements(FV.NormalizedOptions(options))| != |options| then [DuplicateOptions(i)] else []
  }

  /**
   * The checks on question `i`: its text, and for a multiple-choice question
   * the option count, every option and duplicates, all of which run whatever
   * the count.
   */
  function QuestionChecks(q: DraftQuestion, i: nat): seq<ClientError> {
    TextChecks(q.questionText, i)
    + if q.questionType == "mcq" then
        CountChecks(q.options, i) + Concat(PerOptionChecks(q.options, i)) + DuplicateChecks(q.options, i)
      else []
  }

  function PerQuestionChecks(qs: seq<DraftQuestion>): (r: seq<seq<ClientError>>)
    ensures |r| == |qs|
    ensures forall i :: 0 <= i < |qs| ==> r[i] == QuestionChecks(qs[i], i)
  {
    seq(|qs|, i requires 0 <= i < |qs| => QuestionChecks(qs[i], i))
  }

  /** Only a date at or before `now` is refused; a text that is not a date compares false and passes. */
  function ExpiryChecks(expiresAt: FV.ExpiryInput, now: int): seq<ClientError> {
    if expiresAt.ExpiresAt? && expiresAt.time <= now then [ExpiryNotInFuture] else []
  }

  /** `validateForm()` at time `now`. There is no check on the number of questions. */
  function ClientErrors(d: Draft, now: int): seq<ClientError> {
    TitleChecks(d.title) + DescriptionChecks(d.description)
    + Concat(PerQuestionChecks(d.questions)) + ExpiryChecks(d.expiresAt, now)
  }

  /** The checks on one question, pushing errors as the page does. */
  method CheckQuestion(q: DraftQuestion, i: nat) returns (errors: seq<ClientError>)
    ensures errors == QuestionChecks(q, i)
  {
    errors := [];
    if Trim(q.questionText) == [] {
      errors := [TextRequired(i)];
    } else if |Trim(q.questionText)| > 100 {
      errors := [TextTooLong(i)];
    }
    if q.questionType == "mcq" {
      var options := q.options;
      var countErrors: seq<ClientError> := [];
      if |options| < 2 {
        countErrors := [TooFewOptions(i)];
      } else if |options| > 10 {
        countErrors := [TooManyOptions(i)];
      }
      var optionErrors := CheckOptions(options, i);
      var duplicate: seq<ClientError> := [];
      var unique := SetSize(FV.NormalizedOptions(options));
      if unique != |options| {
        duplicate := [DuplicateOptions(i)];
      }
      errors := errors + (countErrors + optionErrors + duplicate);
    }
  }

  /** The per-option checks of question `i`, option by option. */
  method CheckOptions(options: seq<string>, i: nat) returns (errors: seq<ClientError>)
    ensures errors == Concat(PerOptionChecks(options, i))
  {
    errors := [];
    var o := 0;
    while o < |options|
      invariant 0 <= o <= |options|
      invariant errors == Concat(PerOptionChecks(options, i)[..o])
    {
      var issue: seq<ClientError> := [];
      if Trim(options[o]) == [] {
        issue := [OptionEmpty(i, o)];
      } else if |options[o]| > 100 {
        issue := [OptionTooLong(i, o)];
      }
      ConcatPrefixSnoc(PerOptionChecks(options, i), o);
      errors := errors + issue;
      o := o + 1;
    }
    assert PerOptionChecks(options, i)[..|options|] == PerOptionChecks(options, i);
  }

  /** Error `e` is reported about question `i`. */
  predicate About(e: ClientError, i: nat) {
    match e
    case TextRequired(q) => q == i
    case TextTooLong(q) => q == i
    case TooFewOptions(q) => q == i
    case TooManyOptions(q) => q == i
    case OptionEmpty(q, _) => q == i
    case OptionTooLong(q, _) => q == i
    case DuplicateOptions(q) => q == i
    case _ => false
  }

  /** The option checks of question `i` report only empty or too-long options of question `i`. */
  lemma OptionChecksAbout(options: seq<string>, i: nat, e: ClientError)
    requires e in Concat(PerOptionChecks(options, i))
    ensures About(e, i) && (e.OptionEmpty? || e.OptionTooLong?)
  {
    ConcatMember(PerOptionChecks(options, i), e);
    var o :| 0 <= o < |options| && e in PerOptionChecks(options, i)[o];
    assert e in OptionCheck(options[o], i, o);
  }

  /** The checks on question `i` only ever report errors about question `i`. */
  lemma QuestionChecksAbout(q: DraftQuestion, i: nat, e: ClientError)
    requires e in QuestionChecks(q, i)
    ensures About(e, i)
  {
    if e !in TextChecks(q.questionText, i) {
      assert q.questionType == "mcq";
      var rest := CountChecks(q.options, i) + Concat(PerOptionChecks(q.options, i)) + DuplicateChecks(q.options, i);
      assert e in rest;
      if e in Concat(PerOptionChecks(q.options, i)) {
        OptionChecksAbout(q.options, i, e);
      }
    }
  }

  /** The question part of the page's errors holds errors about existing questions only. */
  lemma QuestionPartAbout(qs: seq<DraftQuestion>, e: ClientError)
    requires e in Concat(PerQuestionChecks(qs))
    ensures exists i :: 0 <= i < |qs| && About(e, i)
  {
    ConcatMember(PerQuestionChecks(qs), e);
    var i :| 0 <= i < |qs| && e in PerQuestionChecks(qs)[i];
    QuestionChecksAbout(qs[i], i, e);
  }

  /** The question part of the page's errors holds no form-level error. */
  lemma QuestionPartHasNoFormError(qs: seq<DraftQuestion>)
    ensures TitleRequired !in Concat(PerQuestionChecks(qs))
    ensures TitleTooLong !in Concat(PerQuestionChecks(qs))
  {
    if TitleRequired in Concat(PerQuestionChecks(qs)) {
      QuestionPartAbout(qs, TitleRequired);
    }
    if TitleTooLong in Concat(PerQuestionChecks(qs)) {
      QuestionPartAbout(qs, TitleTooLong);
    }
  }

  /** Everything `validateForm` reports after the title checks holds no title error. */
  lemma NoTitleErrorAfterTitle(d: Draft, now: int)
    ensures ClientErrors(d, now) == TitleChecks(d.title) + (DescriptionChecks(d.description)
              + Concat(PerQuestionChecks(d.questions)) + ExpiryChecks(d.expiresAt, now))
    ensures TitleRequired !in DescriptionChecks(d.description) + Concat(PerQuestionChecks(d.questions))
              + ExpiryChecks(d.expiresAt, now)
    ensures TitleTooLong !in DescriptionChecks(d.description) + Concat(PerQuestionChecks(d.questions))
              + ExpiryChecks(d.expiresAt, now)
  {
    var description := DescriptionChecks(d.description);
    var rest := Concat(PerQuestionChecks(d.questions));
    var expiry := ExpiryChecks(d.expiresAt, now);
    QuestionPartHasNoFormError(d.questions);
    assert TitleRequired !in description && TitleTooLong !in description;
    assert TitleRequired !in expiry && TitleTooLong !in expiry;
  }

  /** The page shows at most one title error: the two title checks are an else-if chain. */
  lemma AtMostOneTitleError(d: Draft, now: int)
    ensures multiset(ClientErrors(d, now))[TitleRequired] + multiset(ClientErrors(d, now))[TitleTooLong] <= 1
    ensures TitleRequired in ClientErrors(d, now) <==> Trim(d.title) == []
    ensures TitleTooLong in ClientErrors(d, now) <==> |Trim(d.title)| > 50
  {
    NoTitleErrorAfterTitle(d, now);
    var tail := DescriptionChecks(d.description) + Concat(PerQuestionChecks(d.questions)) + ExpiryChecks(d.expiresAt, now);
    assert multiset(tail)[TitleRequired] == 0 && multiset(tail)[TitleTooLong] == 0;
  }

  /**
   * The page flags duplicate options on a multiple-choice question exactly
   * when two of its options coincide once trimmed and lower-cased.
   */
  lemma DuplicateFlaggedIff(d: Draft, now: int, i: nat)
    requires i < |d.questions|
    ensures DuplicateOptions(i) in ClientErrors(d, now) <==>
              d.questions[i].questionType == "mcq" && FV.HasDuplicateOptions(d.questions[i].options)
  {
    var x := DuplicateOptions(i);
    assert x in ClientErrors(d, now) <==> x in Concat(PerQuestionChecks(d.questions));
    DuplicateOnlyInItsQuestion(d.questions, i);
    DuplicateInQuestion(d.questions[i], i);
  }

  /** Question `i`'s duplicate error can come from question `i`'s checks only. */
  lemma DuplicateOnlyInItsQuestion(qs: seq<DraftQuestion>, i: nat)
    requires i < |qs|
    ensures DuplicateOptions(i) in Concat(PerQuestionChecks(qs)) <==> DuplicateOptions(i) in QuestionChecks(qs[i], i)
  {
    var parts := PerQuestionChecks(qs);
    var x := DuplicateOptions(i);
    ConcatMember(parts, x);
    if x in Concat(parts) {
      var j :| 0 <= j < |parts| && x in parts[j];
      QuestionChecksAbout(qs[j], j, x);
    }
  }

  /** A question's checks flag duplicates exactly when it is multiple-choice with duplicate options. */
  lemma DuplicateInQuestion(q: DraftQuestion, i: nat)
    ensures DuplicateOptions(i) in QuestionChecks(q, i) <==> q.questionType == "mcq" && FV.HasDuplicateOptions(q.options)
  {
    var x := DuplicateOptions(i);
    assert x !in TextChecks(q.questionText, i);
    if q.questionType == "mcq" {
      if x in Concat(PerOptionChecks(q.options, i)) {
        OptionChecksAbout(q.options, i, x);
      }
      assert x !in CountChecks(q.options, i);
      FV.DuplicateIffFewerDistinct(q.options);
    }
  }

  // ---------------------------------------------------------------------------
  // handleSubmit
  // ---------------------------------------------------------------------------

  /** One question as the payload carries it. */
  function PayloadQuestion(q: DraftQuestion): FV.QuestionInput {
    FV.QuestionInput(
      Trim(q.questionText),
      Some(q.questionType),
      Some(if q.questionType == "mcq" then FC.TrimAll(q.options) else []),
      Some(q.isRequired))
  }

  function PayloadQuestions(qs: seq<DraftQuestion>): (r: seq<FV.QuestionInput>)
    ensures |r| == |qs|
    ensures forall i :: 0 <= i < |qs| ==> r[i] == PayloadQuestion(qs[i])
  {
    seq(|qs|, i requires 0 <= i < |qs| => PayloadQuestion(qs[i]))
  }

  /** The body `handleSubmit` posts; an empty expiry is sent as `null`. */
  function Payload(d: Draft): FC.CreateRequest {
    FC.CreateRequest(Trim(d.title), Trim(d.description), FC.Questions(PayloadQuestions(d.questions)), d.expiresAt)
  }

  /** What `handleSubmit` sends: nothing while the page reports an error. */
  function Submission(d: Draft, now: int): Option<FC.CreateRequest> {
    if ClientErrors(d, now) != [] then None else Some(Payload(d))
  }

  /** A question the page accepts, sent in the payload, passes the server's checks. */
  lemma PayloadQuestionAccepted(q: DraftQuestion, i: nat)
    requires QuestionChecks(q, i) == []
    requires FV.ValidQuestionType(q.questionType)
    ensures FV.QuestionAcceptable(PayloadQuestion(q))
  {
    var p := PayloadQuestion(q);
    TrimIdempotent(q.questionText);
    AppendEmpty(TextChecks(q.questionText, i),
                if q.questionType == "mcq" then
                  CountChecks(q.options, i) + Concat(PerOptionChecks(q.options, i)) + DuplicateChecks(q.options, i)
                else []);
    if q.questionType == "mcq" {
      McqPayloadAccepted(q.options, i);
    }
  }

  /** Options the page accepts, trimmed for the payload, pass the server's option checks. */
  lemma McqPayloadAccepted(options: seq<string>, i: nat)
    requires CountChecks(options, i) + Concat(PerOptionChecks(options, i)) + DuplicateChecks(options, i) == []
    ensures var sent := FC.TrimAll(options);
      && 2 <= |sent| <= 10
      && (forall o :: o in sent ==> FV.OptionAcceptable(o))
      && !FV.HasDuplicateOptions(sent)
  {
    var sent := FC.TrimAll(options);
    var parts := PerOptionChecks(options, i);
    AppendEmpty(CountChecks(options, i), Concat(parts));
    AppendEmpty(CountChecks(options, i) + Concat(parts), DuplicateChecks(options, i));
    ConcatEmptyIff(parts);
    forall o | o in sent ensures FV.OptionAcceptable(o) {
      var k :| 0 <= k < |sent| && sent[k] == o;
      assert parts[k] == [];
      TrimIdempotent(options[k]);
    }
    FV.DuplicateIffFewerDistinct(options);
    forall a, b | 0 <= a < b < |sent|
      ensures FV.NormalizeOption(sent[a]) != FV.NormalizeOption(sent[b])
    {
      TrimIdempotent(options[a]);
      TrimIdempotent(options[b]);
      assert FV.NormalizeOption(sent[a]) == FV.NormalizeOption(options[a]);
      assert FV.NormalizeOption(sent[b]) == FV.NormalizeOption(options[b]);
    }
  }

  /** The page reports nothing exactly when each group of checks reports nothing. */
  lemma ClientErrorsEmptyParts(d: Draft, now: int)
    ensures ClientErrors(d, now) == [] <==>
              && TitleChecks(d.title) == [] && DescriptionChecks(d.description) == []
              && (forall i :: 0 <= i < |d.questions| ==> QuestionChecks(d.questions[i], i) == [])
              && ExpiryChecks(d.expiresAt, now) == []
  {
    var parts := PerQuestionChecks(d.questions);
    AppendEmpty(TitleChecks(d.title), DescriptionChecks(d.description));
    AppendEmpty(TitleChecks(d.title) + DescriptionChecks(d.description), Concat(parts));
    AppendEmpty(TitleChecks(d.title) + DescriptionChecks(d.description) + Concat(parts), ExpiryChecks(d.expiresAt, now));
    ConcatEmptyIff(parts);
  }

  /**
   * A draft of the shape the editors keep that the page accepts passes the
   * server's validation, provided its expiry (if any) is still ahead of the
   * server's clock: the client checks are at least as strict as the
   * server's, apart from the question count, which the editors bound, and
   * the expiry format, which the page does not check.
   */
  lemma ClientAcceptedServerAccepts(d: Draft, clientNow: int, serverNow: int)
    requires DraftInvariant(d)
    requires ClientErrors(d, clientNow) == []
    requires d.expiresAt.NoExpiry? || (d.expiresAt.ExpiresAt? && d.expiresAt.time > serverNow)
    ensures Submission(d, clientNow) == Some(Payload(d))
    ensures FV.FormAcceptable(FC.ToFormData(Payload(d)), serverNow)
    ensures FV.FormErrors(FC.ToFormData(Payload(d)), serverNow) == []
  {
    var f := FC.ToFormData(Payload(d));
    ClientErrorsEmptyParts(d, clientNow);
    TrimIdempotent(d.title);
    TrimIdempotent(d.description);
    var sent := f.questions.value;
    forall q | q in sent ensures FV.QuestionAcceptable(q) {
      var i :| 0 <= i < |sent| && sent[i] == q;
      assert d.questions[i] in d.questions;
      PayloadQuestionAccepted(d.questions[i], i);
    }
    FV.FormErrorsEmptyIff(f, serverNow);
  }

  /**
   * The page does not check the expiry's format: it accepts a draft with an
   * expiry that is not a date exactly when it accepts the same draft without
   * expiry, and the server refuses every such payload.
   */
  lemma UnparseableExpiryPassesClientOnly(d: Draft, clientNow: int, serverNow: int)
    requires d.expiresAt == FV.Unparseable
    ensures ClientErrors(d, clientNow) == ClientErrors(d.(expiresAt := FV.NoExpiry), clientNow)
    ensures FV.InvalidExpiryFormat in FV.FormErrors(FC.ToFormData(Payload(d)), serverNow)
  {
  }

  /**
   * Once the payload passes the server's validation, the server creates the
   * form for a valid admin whenever the new id is free.
   */
  lemma ClientAcceptedServerCreates(d: Draft, clientNow: int, serverNow: int, docs: seq<FM.Form>,
                                    adminId: string, newId: string)
    requires DraftInvariant(d)
    requires ClientErrors(d, clientNow) == []
    requires d.expiresAt.NoExpiry? || (d.expiresAt.ExpiresAt? && d.expiresAt.time > serverNow)
    requires adminId != [] && FM.IndexOf(docs, newId).None?
    ensures FC.CreateOutcome(docs, Payload(d), adminId, true, newId, serverNow).Created?
  {
    ClientAcceptedServerAccepts(d, clientNow, serverNow);
    FC.CreateOutcomeCases(docs, Payload(d), adminId, true, newId, serverNow);
  }
}
