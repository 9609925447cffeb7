/**
 * The form endpoints of server/controllers/feedbackform.controller.js that
 * change or page through the form collection: `createFeedbackForm`,
 * `toggleFeedbackFormStatus`, `deleteFeedbackForm` and the pagination of
 * `getAdminFeedbackForms`.
 *
 * `mongoose.Types.ObjectId.isValid` is a parameter `isValidId`; the clock is
 * the integer `now`; the id Mongo gives a new document is the parameter `newId`.
 */
module FormController {
  import opened Wrappers
  import opened JsText
  import opened FormValidation
  import opened FeedbackModel

  // ---------------------------------------------------------------------------
  // createFeedbackForm
  // ---------------------------------------------------------------------------

  /** The `questions` field of the request body: absent (or falsy), present but not an array, or an array. */
  datatype QuestionsField = Missing | NotAnArray | Questions(items: seq<QuestionInput>)

  /** The request body; an absent title or description is `""`. */
  datatype CreateRequest = CreateRequest(
    title: string,
    description: string,
    questions: QuestionsField,
    expiresAt: ExpiryInput)

  /** The `formData` the controller validates: title and description trimmed, absent questions read as `[]`. */
  function ToFormData(body: CreateRequest): FormData {
    FormData(
      Trim(body.title),
      Trim(body.description),
      match body.questions
      case Missing => Some([])
      case NotAnArray => None
      case Questions(items) => Some(items),
      body.expiresAt)
  }

  function TrimAll(options: seq<string>): (r: seq<string>)
    ensures |r| == |options|
    ensures forall i :: 0 <= i < |options| ==> r[i] == Trim(options[i])
  {
    seq(|options|, i requires 0 <= i < |options| => Trim(options[i]))
  }

  /**
   * One question as `createFeedbackForm` stores it: trimmed text, the type as
   * given, the trimmed options for an MCQ and none otherwise, `isRequired`
   * false unless given.
   */
  function CleanQuestion(q: QuestionInput): Question {
    var questionType := q.questionType.GetOr("");
    NewQuestion(
      Trim(q.questionText),
      questionType,
      if questionType == "mcq" then TrimAll(q.options.GetOr([])) else [],
      q.isRequired.GetOr(false))
  }

  function CleanQuestions(qs: seq<QuestionInput>): (r: seq<Question>)
    ensures |r| == |qs|
    ensures forall i :: 0 <= i < |qs| ==> r[i] == CleanQuestion(qs[i])
  {
    seq(|qs|, i requires 0 <= i < |qs| => CleanQuestion(qs[i]))
  }

  /** The stored expiry: a date when one was given, otherwise `null`. */
  function StoredExpiry(expiresAt: ExpiryInput): Option<int> {
    match expiresAt
    case ExpiresAt(t) => Some(t)
    case _ => None
  }

  /** The document `new FeedbackModel({...})` builds from validated form data. */
  function BuildForm(formData: FormData, adminId: string, newId: string, now: int): Form {
    NewForm(newId, adminId, formData.title, formData.description,
            CleanQuestions(formData.questions.GetOr([])), StoredExpiry(formData.expiresAt), now)
  }

  /** What `createFeedbackForm` answers. */
  datatype CreateResult =
    | InvalidAdminId                              // 400 "Valid admin ID is required"
    | ValidationFailed(errors: seq<FormError>)    // 400 "Validation failed"
    | SchemaRejected                              // 400 from a Mongoose ValidationError
    | DuplicateEntry                              // 400 "Duplicate entry found" (error 11000)
    | Created(form: Form)                         // 201

  /** `createFeedbackForm` against a collection holding `docs`. */
  function CreateOutcome(docs: seq<Form>, body: CreateRequest, adminId: string, validAdminId: bool,
                         newId: string, now: int): CreateResult
  {
    if adminId == [] || !validAdminId then InvalidAdminId
    else
      var formData := ToFormData(body);
      var errors := FormErrors(formData, now);
      if errors != [] then ValidationFailed(errors)
      else
        var form := BuildForm(formData, adminId, newId, now);
        if !FormSatisfiesSchema(form) then SchemaRejected
        else if IndexOf(docs, newId).Some? then DuplicateEntry
        else Created(PreSave(form, now))
  }

  /** `createFeedbackForm`: check the admin id, validate, clean, insert. */
  method CreateFeedbackForm(store: FormCollection, body: CreateRequest, adminId: string,
                            isValidId: string -> bool, newId: string, now: int)
    returns (result: CreateResult)
    requires store.Valid()
    modifies store
    ensures store.Valid()
    ensures result == CreateOutcome(old(store.docs), body, adminId, isValidId(adminId), newId, now)
    ensures store.docs == if result.Created? then old(store.docs) + [result.form] else old(store.docs)
  {
    if adminId == [] || !isValidId(adminId) {
      return InvalidAdminId;
    }
    var formData := ToFormData(body);
    var errors := ValidateFormData(formData, now);
    if errors != [] {
      return ValidationFailed(errors);
    }
    var form := BuildForm(formData, adminId, newId, now);
    var saved := store.Insert(form, now);
    match saved
    case ValidationError =>
      result := SchemaRejected;
    case DuplicateKey =>
      result := DuplicateEntry;
    case Saved =>
      result := Created(PreSave(form, now));
  }

  /** A question the validator accepted passes the schema once cleaned (the schema's limits are looser). */
  lemma CleanQuestionSatisfiesSchema(q: QuestionInput)
    requires QuestionAcceptable(q)
    ensures QuestionSatisfiesSchema(CleanQuestion(q))
  {
    TrimIdempotent(q.questionText);
    TrimIdempotent(Trim(q.questionText));
  }

  /** A form the validator accepted passes every schema validator once built. */
  lemma AcceptedFormSatisfiesSchema(formData: FormData, adminId: string, newId: string, now: int)
    requires FormAcceptable(formData, now) && adminId != []
    requires Trim(formData.title) == formData.title && Trim(formData.description) == formData.description
    ensures FormSatisfiesSchema(BuildForm(formData, adminId, newId, now))
  {
    var qs := formData.questions.value;
    var form := BuildForm(formData, adminId, newId, now);
    forall q | q in form.questions ensures QuestionSatisfiesSchema(q) {
      var i :| 0 <= i < |qs| && form.questions[i] == q;
      assert qs[i] in qs;
      CleanQuestionSatisfiesSchema(qs[i]);
    }
  }

  /**
   * `createFeedbackForm` creates a form exactly when the admin id is valid,
   * the trimmed form data passes validation and the new id is free; the
   * schema never refuses what the validator accepted.
   */
  lemma CreateOutcomeCases(docs: seq<Form>, body: CreateRequest, adminId: string, validAdminId: bool,
                           newId: string, now: int)
    ensures CreateOutcome(docs, body, adminId, validAdminId, newId, now) != SchemaRejected
    ensures CreateOutcome(docs, body, adminId, validAdminId, newId, now).Created? <==>
              && adminId != [] && validAdminId
              && FormAcceptable(ToFormData(body), now)
              && IndexOf(docs, newId).None?
  {
    var formData := ToFormData(body);
    FormErrorsEmptyIff(formData, now);
    if adminId != [] && validAdminId && FormAcceptable(formData, now) {
      TrimIdempotent(body.title);
      TrimIdempotent(body.description);
      AcceptedFormSatisfiesSchema(formData, adminId, newId, now);
    }
  }

  /**
   * A question that passed validation is stored with its text trimmed, its
   * type as given, the trimmed options for an MCQ and none otherwise, and
   * `isRequired` false unless given.
   */
  lemma CleanQuestionContents(q: QuestionInput)
    requires QuestionAcceptable(q)
    ensures Some(CleanQuestion(q).questionType) == q.questionType
    ensures CleanQuestion(q).questionText == Trim(q.questionText) != []
    ensures CleanQuestion(q).options == if q.questionType == Some("mcq") then TrimAll(q.options.value) else []
    ensures CleanQuestion(q).isRequired == q.isRequired.GetOr(false)
    ensures CleanQuestion(q).order == 0
  {
    TrimIdempotent(q.questionText);
  }

  /**
   * A created form holds the request's data: trimmed title and description,
   * one cleaned question per submitted question, each of which passed
   * validation; it is active, stamped `now`, and expires when the request
   * said.
   */
  lemma CreatedFormContents(docs: seq<Form>, body: CreateRequest, adminId: string, validAdminId: bool,
                            newId: string, now: int)
    requires CreateOutcome(docs, body, adminId, validAdminId, newId, now).Created?
    ensures var f := CreateOutcome(docs, body, adminId, validAdminId, newId, now).form;
      && f.id == newId && f.adminId == adminId
      && f.title == Trim(body.title) && f.description == Trim(body.description)
      && f.isActive && f.createdAt == now && f.updatedAt == now
      && f.expiresAt == StoredExpiry(body.expiresAt)
      && body.questions.Questions?
      && f.questions == CleanQuestions(body.questions.items)
      && forall q :: q in body.questions.items ==> QuestionAcceptable(q)
  {
    var formData := ToFormData(body);
    FormErrorsEmptyIff(formData, now);
    TrimIdempotent(body.title);
    TrimIdempotent(body.description);
  }

  // ---------------------------------------------------------------------------
  // toggleFeedbackFormStatus and deleteFeedbackForm
  // ---------------------------------------------------------------------------

  /** What the toggle and delete endpoints answer. */
  datatype FormOpResult =
    | InvalidFormId          // 400 "Valid form ID is required"
    | NotBoolean             // 400 "isActive must be a boolean value"
    | FormNotFound           // 404 "Feedback form not found"
    | NotOwner               // 403
    | SaveFailed             // 500: the save was refused
    | StatusSet(form: Form)  // 200 "Feedback form activated/closed successfully"
    | FormDeleted            // 200 "Feedback form deleted successfully"

  /**
   * `toggleFeedbackFormStatus` as written: `isActive` None is a body value
   * that is not a boolean. The requester is not consulted.
   */
  function ToggleOutcome(docs: seq<Form>, formId: string, isActive: Option<bool>, validId: bool,
                         requester: string, now: int): FormOpResult
  {
    if formId == [] || !validId then InvalidFormId
    else if isActive.None? then NotBoolean
    else match IndexOf(docs, formId)
      case None => FormNotFound
      case Some(i) =>
        var f := docs[i].(isActive := isActive.value);
        if FormSatisfiesSchema(f) then StatusSet(PreSave(f, now)) else SaveFailed
  }

  /** `toggleFeedbackFormStatus` with the ownership check: find the form, check the owner, set `isActive`, save. */
  method ToggleFeedbackFormStatus(store: FormCollection, formId: string, isActive: Option<bool>,
                                  isValidId: string -> bool, requester: string, now: int)
    returns (result: FormOpResult)
    requires store.Valid()
    modifies store
    ensures store.Valid()
    ensures result == OwnedToggleOutcome(old(store.docs), formId, isActive, isValidId(formId), requester, now)
    ensures store.docs == if result.StatusSet?
                          then old(store.docs)[IndexOf(old(store.docs), formId).value := result.form]
                          else old(store.docs)
  {
    if formId == [] || !isValidId(formId) {
      return InvalidFormId;
    }
    if isActive.None? {
      return NotBoolean;
    }
    var at := store.FindById(formId);
    if at.None? {
      return FormNotFound;
    }
    var i := at.value;
    if store.docs[i].adminId != requester {
      return NotOwner;
    }
    var f := store.docs[i].(isActive := isActive.value);
    var saved := store.Update(i, f, now);
    result := if saved then StatusSet(PreSave(f, now)) else SaveFailed;
  }

  /**
   * On a valid collection the toggle never fails to save, and it changes
   * only `isActive` (to the requested value) and `updatedAt` of the one form
   * with that id.
   */
  lemma ToggleChangesOnlyStatus(docs: seq<Form>, formId: string, isActive: Option<bool>, validId: bool,
                                requester: string, now: int)
    requires forall i :: 0 <= i < |docs| ==> FormSatisfiesSchema(docs[i])
    ensures ToggleOutcome(docs, formId, isActive, validId, requester, now) != SaveFailed
    ensures ToggleOutcome(docs, formId, isActive, validId, requester, now).StatusSet? ==>
              var f := ToggleOutcome(docs, formId, isActive, validId, requester, now).form;
              var i := IndexOf(docs, formId).value;
              && IndexOf(docs, formId).Some?
              && isActive == Some(f.isActive) && f.updatedAt == now
              && f.(isActive := docs[i].isActive, updatedAt := docs[i].updatedAt) == docs[i]
  {
  }

  /**
   * Toggling is idempotent: once a toggle has set `isActive` to `b`, a second
   * toggle to `b` on the collection the first one left answers exactly as a
   * single toggle at that time would.
   */
  lemma ToggleIdempotent(docs: seq<Form>, formId: string, b: bool, validId: bool, requester: string,
                         now1: int, now2: int)
    requires ToggleOutcome(docs, formId, Some(b), validId, requester, now1).StatusSet?
    ensures var i := IndexOf(docs, formId).value;
            var f := ToggleOutcome(docs, formId, Some(b), validId, requester, now1).form;
            ToggleOutcome(docs[i := f], formId, Some(b), validId, requester, now2)
              == ToggleOutcome(docs, formId, Some(b), validId, requester, now2)
  {
    var i := IndexOf(docs, formId).value;
    var set1 := docs[i].(isActive := b);
    var f := PreSave(set1, now1);
    IndexOfFirst(docs[i := f], formId, i);
    assert f.(isActive := b) == f;
    PreSaveKeepsSchema(set1, now1);
  }

  /**
   * As written, the toggle succeeds for any requester: a form owned by one
   * admin is closed by another.
   */
  lemma ToggleIgnoresOwner()
    ensures var form := Form("f1", "admin-a", "Survey", "", [], true, None, 0, 0);
            ToggleOutcome([form], "f1", Some(false), true, "admin-b", 5)
              == StatusSet(form.(isActive := false, updatedAt := 5))
  {
    var form := Form("f1", "admin-a", "Survey", "", [], true, None, 0, 0);
    assert Trim(form.title) == form.title by {
      TrimStartFixed(form.title);
      TrimEndFixed(form.title);
    }
  }

  /** The toggle with the ownership check the delete and analytics endpoints make. */
  function OwnedToggleOutcome(docs: seq<Form>, formId: string, isActive: Option<bool>, validId: bool,
                              requester: string, now: int): FormOpResult
  {
    if formId == [] || !validId then InvalidFormId
    else if isActive.None? then NotBoolean
    else match IndexOf(docs, formId)
      case None => FormNotFound
      case Some(i) =>
        if docs[i].adminId != requester then NotOwner
        else ToggleOutcome(docs, formId, isActive, validId, requester, now)
  }

  /** With the ownership check only the owning admin changes a form's status, and the owner is served as before. */
  lemma OwnedToggleOnlyOwner(docs: seq<Form>, formId: string, isActive: Option<bool>, validId: bool,
                             requester: string, now: int)
    ensures OwnedToggleOutcome(docs, formId, isActive, validId, requester, now).StatusSet? ==>
              IndexOf(docs, formId).Some? && docs[IndexOf(docs, formId).value].adminId == requester
    ensures IndexOf(docs, formId).Some? && docs[IndexOf(docs, formId).value].adminId == requester ==>
              OwnedToggleOutcome(docs, formId, isActive, validId, requester, now)
                == ToggleOutcome(docs, formId, isActive, validId, requester, now)
  {
  }

  /** `deleteFeedbackForm`; `userId` None is a request without a user. */
  function DeleteOutcome(docs: seq<Form>, formId: string, userId: Option<string>, validId: bool): FormOpResult {
    if formId == [] || !validId then InvalidFormId
    else match IndexOf(docs, formId)
      case None => FormNotFound
      case Some(i) => if userId != Some(docs[i].adminId) then NotOwner else FormDeleted
  }

  /**
   * `deleteFeedbackForm`: find, check the owner, delete. The form's
   * responses are not touched.
   */
  method DeleteFeedbackForm(store: FormCollection, formId: string, userId: Option<string>,
                            isValidId: string -> bool)
    returns (result: FormOpResult)
    requires store.Valid()
    modifies store
    ensures store.Valid()
    ensures result == DeleteOutcome(old(store.docs), formId, userId, isValidId(formId))
    ensures store.docs == if result == FormDeleted then RemoveId(old(store.docs), formId) else old(store.docs)
  {
    if formId == [] || !isValidId(formId) {
      return InvalidFormId;
    }
    var at := store.FindById(formId);
    if at.None? {
      return FormNotFound;
    }
    if userId != Some(store.docs[at.value].adminId) {
      return NotOwner;
    }
    store.DeleteById(formId);
    result := FormDeleted;
  }

  /**
   * Only the owner deletes a form, and a deletion removes exactly that one
   * form and keeps every other in order.
   */
  lemma DeleteOnlyByOwner(docs: seq<Form>, formId: string, userId: Option<string>, validId: bool)
    requires UniqueIds(docs)
    ensures DeleteOutcome(docs, formId, userId, validId) == FormDeleted ==>
              && IndexOf(docs, formId).Some?
              && userId == Some(docs[IndexOf(docs, formId).value].adminId)
              && |RemoveId(docs, formId)| == |docs| - 1
              && RemoveId(docs, formId) == docs[..IndexOf(docs, formId).value] + docs[IndexOf(docs, formId).value + 1..]
  {
    if DeleteOutcome(docs, formId, userId, validId) == FormDeleted {
      RemoveIdPresent(docs, formId, IndexOf(docs, formId).value);
    }
  }

  // ---------------------------------------------------------------------------
  // getAdminFeedbackForms: pagination
  // ---------------------------------------------------------------------------

  /** The `pagination` record of the listing; `skip` is how many forms precede the page. */
  datatype Pagination = Pagination(
    currentPage: nat,
    totalPages: nat,
    totalCount: nat,
    hasNext: bool,
    hasPrev: bool,
    skip: nat)

  /** `Math.ceil(totalCount / limit)` for a positive limit. */
  function CeilDiv(n: nat, d: nat): nat
    requires d > 0
  {
    (n + d - 1) / d
  }

  /** The pagination arithmetic for page `page` of `limit` forms out of `totalCount`. */
  function Paginate(page: nat, limit: nat, totalCount: nat): Pagination
    requires page >= 1 && limit >= 1
  {
    Pagination(page, CeilDiv(totalCount, limit), totalCount,
               page * limit < totalCount, page > 1, (page - 1) * limit)
  }

  /** The forms on a page: `.skip(skip).limit(limit)` over the sorted forms. */
  function PageOf<T>(items: seq<T>, page: nat, limit: nat): (r: seq<T>)
    requires page >= 1 && limit >= 1
    ensures |r| <= limit
  {
    var from := if (page - 1) * limit < |items| then (page - 1) * limit else |items|;
    var to := if from + limit < |items| then from + limit else |items|;
    items[from..to]
  }

  /** `totalPages` is the least number of pages of `limit` forms that holds every form. */
  lemma TotalPagesIsCeiling(limit: nat, totalCount: nat)
    requires limit >= 1
    ensures CeilDiv(totalCount, limit) * limit >= totalCount
    ensures CeilDiv(totalCount, limit) == 0 || (CeilDiv(totalCount, limit) - 1) * limit < totalCount
  {
    var p := CeilDiv(totalCount, limit);
    var r := (totalCount + limit - 1) % limit;
    assert p * limit + r == totalCount + limit - 1;
    if p > 0 {
      assert (p - 1) * limit == p * limit - limit;
    }
  }

  lemma MulMonotone(a: nat, b: nat, c: nat)
    requires a <= b
    ensures a * c <= b * c
  {
  }

  /** There is a next page exactly when the current page is not the last; there is a previous one unless it is the first. */
  lemma HasNextIffBeforeLastPage(page: nat, limit: nat, totalCount: nat)
    requires page >= 1 && limit >= 1
    ensures Paginate(page, limit, totalCount).hasNext <==> page < Paginate(page, limit, totalCount).totalPages
    ensures Paginate(page, limit, totalCount).hasPrev <==> page != 1
  {
    var p := CeilDiv(totalCount, limit);
    TotalPagesIsCeiling(limit, totalCount);
    if page < p {
      MulMonotone(page, p - 1, limit);
    } else {
      MulMonotone(p, page, limit);
    }
  }

  /** Form `k` of the listing is on page `k / limit + 1`, at position `k % limit`. */
  lemma ItemOnItsPage<T>(items: seq<T>, limit: nat, k: nat)
    requires limit >= 1 && k < |items|
    ensures k % limit < |PageOf(items, k / limit + 1, limit)|
    ensures PageOf(items, k / limit + 1, limit)[k % limit] == items[k]
  {
    var page := k / limit + 1;
    assert (page - 1) * limit + k % limit == k;
  }
}
