/**
 * server/controllers/feedbackresponse.controller.js: the gate of
 * `submitFeedbackResponse`, which runs a fixed sequence of checks and then
 * stores one response, and the per-question tally of `getFeedbackAnalytics`.
 *
 * `mongoose.Types.ObjectId.isValid` is a parameter `isValidId` and the clock
 * the integer `now`.
 */
module ResponseController {
  import opened Wrappers
  import opened Seqs
  import FM = FeedbackModel
  import opened FeedbackResponseModel

  // ---------------------------------------------------------------------------
  // submitFeedbackResponse
  // ---------------------------------------------------------------------------

  /** The `responses` field of the body: absent (or falsy), present but not an array, or an array. */
  datatype AnswersField = Missing | NotAnArray | Entries(items: seq<AnswerEntry>)

  /** The request body; an absent `feedbackFormId` or `submittedBy` is `""`. */
  datatype SubmitRequest = SubmitRequest(feedbackFormId: string, responses: AnswersField, submittedBy: string)

  /** What `submitFeedbackResponse` answers. */
  datatype SubmitResult =
    | MissingFields
    | InvalidFormId
    | FormNotFound
    | FormInactive
    | FormExpired
    | AlreadySubmitted
    | AnswersNotNonEmptyArray
    | MalformedEntry
    | RequiredUnanswered(questionText: string)
    | SubmitFailed
    | Submitted(response: Response)

  /** The HTTP status of each answer. */
  function SubmitStatus(r: SubmitResult): nat {
    match r
    case FormNotFound => 404
    case SubmitFailed => 500
    case Submitted(_) => 201
    case _ => 400
  }

  /** The `message` of each answer. */
  function SubmitMessage(r: SubmitResult): string {
    match r
    case MissingFields => "feedbackFormId, responses, and submittedBy are required"
    case InvalidFormId => "Invalid feedbackFormId format"
    case FormNotFound => "Feedback form not found"
    case FormInactive => "Feedback form is not active"
    case FormExpired => "Feedback form has expired"
    case AlreadySubmitted => "You have already submitted a response for this feedback form"
    case AnswersNotNonEmptyArray => "Responses must be a non-empty array"
    case MalformedEntry => "Each response must have questionText and answer"
    case RequiredUnanswered(t) => RequiredOpening() + t + RequiredClosing()
    case SubmitFailed => "Internal server error"
    case Submitted(_) => SuccessText()
  }

  function RequiredOpening(): string { "Required question \"" }

  function RequiredClosing(): string { "\" is not answered" }

  function SuccessText(): string { "Feedback response submitted successfully" }

  /** Only a stored response is answered with 201; every refusal is a 4xx or a 5xx. */
  lemma SubmitStatusSeparatesOutcomes(r: SubmitResult)
    ensures SubmitStatus(r) == 201 <==> r.Submitted?
    ensures SubmitStatus(r) != 201 ==> 400 <= SubmitStatus(r) < 600
  {
  }

  /** Only a stored response is answered with the success message. */
  lemma SuccessMessageOnlyWhenSubmitted(r: SubmitResult)
    ensures SubmitMessage(r) == SuccessText() <==> r.Submitted?
  {
    if r.RequiredUnanswered? {
      assert SubmitMessage(r)[0] == RequiredOpening()[0];
    }
  }

  /** The refusal of an unanswered required question quotes that question's text. */
  lemma RequiredMessageQuotesQuestion(t: string)
    ensures var m := SubmitMessage(RequiredUnanswered(t));
            var n := |RequiredOpening()|;
            && RequiredOpening() <= m
            && m[n..n + |t|] == t
            && m[n + |t|..] == RequiredClosing()
  {
    var m := SubmitMessage(RequiredUnanswered(t));
    assert m[..|RequiredOpening()|] == RequiredOpening();
  }

  /** An answer entry with both a question text and an answer. */
  predicate WellFormed(e: AnswerEntry) {
    e.questionText != [] && e.answer != []
  }

  /** `responses.map((r) => r.questionText)`. */
  function AnsweredTexts(entries: seq<AnswerEntry>): (r: seq<string>)
    ensures |r| == |entries|
    ensures forall i :: 0 <= i < |entries| ==> r[i] == entries[i].questionText
  {
    seq(|entries|, i requires 0 <= i < |entries| => entries[i].questionText)
  }

  /** The first required question, from position `i` on, whose text is not among `answered`. */
  function FirstUnanswered(qs: seq<FM.Question>, answered: seq<string>, i: nat): Option<string>
    decreases |qs| - i
  {
    if i >= |qs| then None
    else if qs[i].isRequired && qs[i].questionText !in answered then Some(qs[i].questionText)
    else FirstUnanswered(qs, answered, i + 1)
  }

  /**
   * No question is reported exactly when every required question (from `i`
   * on) is answered; a reported one is required, unanswered, and the first such.
   */
  lemma {:induction false} FirstUnansweredSpec(qs: seq<FM.Question>, answered: seq<string>, i: nat)
    ensures FirstUnanswered(qs, answered, i).None? <==>
              forall k :: i <= k < |qs| && qs[k].isRequired ==> qs[k].questionText in answered
    ensures FirstUnanswered(qs, answered, i).Some? ==>
              exists k :: i <= k < |qs| && qs[k].isRequired && qs[k].questionText !in answered
                          && qs[k].questionText == FirstUnanswered(qs, answered, i).value
                          && forall j :: i <= j < k && qs[j].isRequired ==> qs[j].questionText in answered
    decreases |qs| - i
  {
    if i < |qs| && !(qs[i].isRequired && qs[i].questionText !in answered) {
      FirstUnansweredSpec(qs, answered, i + 1);
    }
  }

  /** A response from `submittedBy` to the form is already stored (`findOne`). */
  predicate HasResponse(docs: seq<Response>, formId: string, submittedBy: string) {
    exists i :: 0 <= i < |docs| && docs[i].feedbackFormId == formId && docs[i].submittedBy == submittedBy
  }

  /** `submitFeedbackResponse` against the stored forms and responses: the first failing check decides. */
  function SubmitOutcome(forms: seq<FM.Form>, docs: seq<Response>, req: SubmitRequest, validId: bool,
                         now: int): SubmitResult
  {
    if req.feedbackFormId == [] || req.responses.Missing? || req.submittedBy == [] then MissingFields
    else if !validId then InvalidFormId
    else match FM.IndexOf(forms, req.feedbackFormId)
      case None => FormNotFound
      case Some(i) =>
        var form := forms[i];
        if !form.isActive then FormInactive
        else if form.expiresAt.Some? && now > form.expiresAt.value then FormExpired
        else if HasResponse(docs, req.feedbackFormId, req.submittedBy) then AlreadySubmitted
        else if req.responses.NotAnArray? || req.responses.items == [] then AnswersNotNonEmptyArray
        else
          var items := req.responses.items;
          if exists k :: 0 <= k < |items| && !WellFormed(items[k]) then MalformedEntry
          else match FirstUnanswered(form.questions, AnsweredTexts(items), 0)
            case Some(t) => RequiredUnanswered(t)
            case None =>
              var r := Response(req.feedbackFormId, items, req.submittedBy, now);
              if !ResponseSatisfiesSchema(r) then SubmitFailed
              else if !SubmitterFree(docs, req.submittedBy) then AlreadySubmitted
              else Submitted(r)
  }

  /** `submitFeedbackResponse`: the checks in order, then `save()`. */
  method SubmitFeedbackResponse(forms: FM.FormCollection, store: ResponseCollection, req: SubmitRequest,
                                isValidId: string -> bool, now: int)
    returns (result: SubmitResult)
    requires store.Valid()
    modifies store
    ensures store.Valid()
    ensures result == SubmitOutcome(forms.docs, old(store.docs), req, isValidId(req.feedbackFormId), now)
    ensures store.docs == if result.Submitted? then old(store.docs) + [result.response] else old(store.docs)
  {
    if req.feedbackFormId == [] || req.responses.Missing? || req.submittedBy == [] {
      return MissingFields;
    }
    if !isValidId(req.feedbackFormId) {
      return InvalidFormId;
    }
    var at := forms.FindById(req.feedbackFormId);
    if at.None? {
      return FormNotFound;
    }
    var form := forms.docs[at.value];
    if !form.isActive {
      return FormInactive;
    }
    if form.expiresAt.Some? && now > form.expiresAt.value {
      return FormExpired;
    }
    var existing := store.FindOne(req.feedbackFormId, req.submittedBy);
    if existing {
      return AlreadySubmitted;
    }
    if req.responses.NotAnArray? || req.responses.items == [] {
      return AnswersNotNonEmptyArray;
    }
    var items := req.responses.items;
    var k := 0;
    while k < |items|
      invariant 0 <= k <= |items|
      invariant forall j :: 0 <= j < k ==> WellFormed(items[j])
    {
      if !WellFormed(items[k]) {
        return MalformedEntry;
      }
      k := k + 1;
    }
    var answered := AnsweredTexts(items);
    var qs := form.questions;
    var i := 0;
    while i < |qs|
      invariant 0 <= i <= |qs|
      invariant FirstUnanswered(qs, answered, i) == FirstUnanswered(qs, answered, 0)
    {
      if qs[i].isRequired && qs[i].questionText !in answered {
        return RequiredUnanswered(qs[i].questionText);
      }
      i := i + 1;
    }
    var r := Response(req.feedbackFormId, items, req.submittedBy, now);
    var saved := store.Insert(r);
    match saved
    case SchemaViolation =>
      result := SubmitFailed;
    case DuplicateKey =>
      result := AlreadySubmitted;
    case Inserted =>
      result := Submitted(r);
  }

  /**
   * A submission is stored exactly when every check passes: fields present,
   * id valid, form found, active and not past its expiry, no earlier
   * response by the submitter (to this form, or under the collection-wide
   * index to any form), a non-empty list of well-formed answers, and every
   * required question answered. The stored response holds the answers
   * verbatim and is stamped `now`. The save never fails.
   */
  lemma SubmittedIffChecksPass(forms: seq<FM.Form>, docs: seq<Response>, req: SubmitRequest, validId: bool,
                               now: int)
    ensures SubmitOutcome(forms, docs, req, validId, now) != SubmitFailed
    ensures SubmitOutcome(forms, docs, req, validId, now).Submitted? <==>
              && req.feedbackFormId != [] && req.submittedBy != [] && validId
              && FM.IndexOf(forms, req.feedbackFormId).Some?
              && var form := forms[FM.IndexOf(forms, req.feedbackFormId).value];
              && form.isActive
              && (form.expiresAt.None? || now <= form.expiresAt.value)
              && SubmitterFree(docs, req.submittedBy)
              && req.responses.Entries? && req.responses.items != []
              && (forall k :: 0 <= k < |req.responses.items| ==> WellFormed(req.responses.items[k]))
              && (forall q :: q in form.questions && q.isRequired ==> q.questionText in AnsweredTexts(req.responses.items))
    ensures SubmitOutcome(forms, docs, req, validId, now).Submitted? ==>
              SubmitOutcome(forms, docs, req, validId, now).response
                == Response(req.feedbackFormId, req.responses.items, req.submittedBy, now)
  {
    var out := SubmitOutcome(forms, docs, req, validId, now);
    if req.responses.Entries? && FM.IndexOf(forms, req.feedbackFormId).Some? {
      var form := forms[FM.IndexOf(forms, req.feedbackFormId).value];
      var items := req.responses.items;
      var answered := AnsweredTexts(items);
      FirstUnansweredSpec(form.questions, answered, 0);
      assert (forall q :: q in form.questions && q.isRequired ==> q.questionText in answered) <==>
             (forall k :: 0 <= k < |form.questions| && form.questions[k].isRequired ==> form.questions[k].questionText in answered);
      if !SubmitterFree(docs, req.submittedBy) {
        assert !out.Submitted?;
      } else {
        assert !HasResponse(docs, req.feedbackFormId, req.submittedBy);
      }
    }
  }

  /**
   * The expiry check: a form with no expiry, or reached at or before its
   * expiry, passes it; a form reached strictly after it is refused as expired.
   */
  lemma ExpiredOnlyAfterDeadline(forms: seq<FM.Form>, docs: seq<Response>, req: SubmitRequest, validId: bool,
                                 now: int)
    ensures SubmitOutcome(forms, docs, req, validId, now) == FormExpired <==>
              && req.feedbackFormId != [] && !req.responses.Missing? && req.submittedBy != [] && validId
              && FM.IndexOf(forms, req.feedbackFormId).Some?
              && var form := forms[FM.IndexOf(forms, req.feedbackFormId).value];
              && form.isActive && form.expiresAt.Some? && now > form.expiresAt.value
  {
  }

  /**
   * Once the submitter has answered the form, a further submission that
   * reaches the duplicate check is refused whatever its answers; the method
   * then leaves the store unchanged.
   */
  lemma SecondSubmissionRefused(forms: seq<FM.Form>, docs: seq<Response>, req: SubmitRequest, validId: bool,
                                now: int)
    requires HasResponse(docs, req.feedbackFormId, req.submittedBy)
    requires req.feedbackFormId != [] && !req.responses.Missing? && req.submittedBy != [] && validId
    requires FM.IndexOf(forms, req.feedbackFormId).Some?
    requires forms[FM.IndexOf(forms, req.feedbackFormId).value].isActive
    requires forms[FM.IndexOf(forms, req.feedbackFormId).value].expiresAt.None?
             || now <= forms[FM.IndexOf(forms, req.feedbackFormId).value].expiresAt.value
    ensures SubmitOutcome(forms, docs, req, validId, now) == AlreadySubmitted
    ensures forall other: AnswersField :: !other.Missing? ==>
              SubmitOutcome(forms, docs, req.(responses := other), validId, now) == AlreadySubmitted
  {
  }

  /**
   * A stored response makes its submitter's later submissions fail for every
   * form, not just the one answered: the unique index spans the collection.
   */
  lemma SubmitterBlockedEverywhere(forms: seq<FM.Form>, docs: seq<Response>, req: SubmitRequest, validId: bool,
                                   now: int)
    requires !SubmitterFree(docs, req.submittedBy)
    ensures !SubmitOutcome(forms, docs, req, validId, now).Submitted?
  {
    SubmittedIffChecksPass(forms, docs, req, validId, now);
  }

  /**
   * As written, one response to form "A" blocks its submitter on form "B":
   * the per-form check passes and the insert then fails on the index.
   */
  lemma SubmitterBlockedAcrossForms()
    ensures var forms := [FM.Form("A", "admin", "First", "", [], true, None, 0, 0),
                          FM.Form("B", "admin", "Second", "", [], true, None, 0, 0)];
            var docs := [Response("A", [AnswerEntry("Q", "yes")], "alice", 0)];
            var req := SubmitRequest("B", Entries([AnswerEntry("Q", "no")]), "alice");
            && !HasResponse(docs, "B", "alice")
            && SubmitOutcome(forms, docs, req, true, 5) == AlreadySubmitted
            && PerFormSubmitOutcome(forms, docs, req, true, 5)
                 == Submitted(Response("B", [AnswerEntry("Q", "no")], "alice", 5))
  {
    var docs := [Response("A", [AnswerEntry("Q", "yes")], "alice", 0)];
    assert !SubmitterFree(docs, "alice") by {
      assert docs[0].submittedBy == "alice";
    }
  }

  /**
   * `submitFeedbackResponse` with the unique index on the pair
   * (`feedbackFormId`, `submittedBy`) that the per-form check and the
   * duplicate-key message describe: only a response to the same form is a
   * duplicate.
   */
  function PerFormSubmitOutcome(forms: seq<FM.Form>, docs: seq<Response>, req: SubmitRequest, validId: bool,
                                now: int): SubmitResult
  {
    var out := SubmitOutcome(forms, docs, req, validId, now);
    if out == AlreadySubmitted && !HasResponse(docs, req.feedbackFormId, req.submittedBy)
    then Submitted(Response(req.feedbackFormId, req.responses.items, req.submittedBy, now))
    else out
  }

  /**
   * With the per-form index a submission is stored exactly when the checks
   * pass and the submitter has not answered this form; responses to other
   * forms play no part.
   */
  lemma PerFormSubmittedIffChecksPass(forms: seq<FM.Form>, docs: seq<Response>, req: SubmitRequest,
                                      validId: bool, now: int)
    ensures PerFormSubmitOutcome(forms, docs, req, validId, now).Submitted? <==>
              && req.feedbackFormId != [] && req.submittedBy != [] && validId
              && FM.IndexOf(forms, req.feedbackFormId).Some?
              && var form := forms[FM.IndexOf(forms, req.feedbackFormId).value];
              && form.isActive
              && (form.expiresAt.None? || now <= form.expiresAt.value)
              && !HasResponse(docs, req.feedbackFormId, req.submittedBy)
              && req.responses.Entries? && req.responses.items != []
              && (forall k :: 0 <= k < |req.responses.items| ==> WellFormed(req.responses.items[k]))
              && (forall q :: q in form.questions && q.isRequired ==> q.questionText in AnsweredTexts(req.responses.items))
    ensures PerFormSubmitOutcome(forms, docs, req, validId, now).Submitted? ==>
              PerFormSubmitOutcome(forms, docs, req, validId, now).response
                == Response(req.feedbackFormId, req.responses.items, req.submittedBy, now)
  {
    SubmittedIffChecksPass(forms, docs, req, validId, now);
    SubmittedIffChecksPass(forms, [], req, validId, now);
    assert SubmitterFree([], req.submittedBy);
    assert !HasResponse([], req.feedbackFormId, req.submittedBy);
  }

  /** After a successful submission, the same request is refused as already submitted. */
  lemma ResubmissionRefused(forms: seq<FM.Form>, docs: seq<Response>, req: SubmitRequest, validId: bool,
                            now: int, later: int)
    requires SubmitOutcome(forms, docs, req, validId, now).Submitted?
    requires var form := forms[FM.IndexOf(forms, req.feedbackFormId).value];
             form.expiresAt.None? || later <= form.expiresAt.value
    ensures SubmitOutcome(forms, docs + [SubmitOutcome(forms, docs, req, validId, now).response], req, validId, later)
              == AlreadySubmitted
  {
    SubmittedIffChecksPass(forms, docs, req, validId, now);
    var r := SubmitOutcome(forms, docs, req, validId, now).response;
    assert (docs + [r])[|docs|] == r;
  }

  // ---------------------------------------------------------------------------
  // getFeedbackAnalytics
  // ---------------------------------------------------------------------------

  /** `entries.filter(r => r.questionText === questionText)`. */
  function EntriesFor(entries: seq<AnswerEntry>, questionText: string): (r: seq<AnswerEntry>)
    ensures |r| <= |entries|
  {
    if entries == [] then []
    else
      var last := entries[|entries| - 1];
      EntriesFor(entries[..|entries| - 1], questionText) + (if last.questionText == questionText then [last] else [])
  }

  /**
   * `responses.flatMap(...)` then `.map(r => r.answer)`: every answer to the
   * question, all entries of every response (not only the first), in order.
   */
  function AnswersTo(responses: seq<Response>, questionText: string): seq<string> {
    var entries := Concat(seq(|responses|, i requires 0 <= i < |responses| => EntriesFor(responses[i].answers, questionText)));
    seq(|entries|, k requires 0 <= k < |entries| => entries[k].answer)
  }

  /** `frequency[answer] = (frequency[answer] || 0) + 1`. */
  function Bump(frequency: map<string, nat>, answer: string): map<string, nat> {
    frequency[answer := (if answer in frequency then frequency[answer] else 0) + 1]
  }

  /** The `frequency` object after counting `answers` in order. */
  function Frequency(answers: seq<string>): map<string, nat> {
    if answers == [] then map[] else Bump(Frequency(answers[..|answers| - 1]), answers[|answers| - 1])
  }

  /** The keys of `frequency` are the distinct answers. */
  lemma {:induction false} FrequencyKeys(answers: seq<string>)
    ensures forall a :: a in Frequency(answers) <==> a in answers
  {
    if answers != [] {
      var n := |answers| - 1;
      FrequencyKeys(answers[..n]);
      assert forall a :: a in answers <==> a in answers[..n] || a == answers[n];
    }
  }

  /** Each key of `frequency` is mapped to how often the answer occurs. */
  lemma {:induction false} FrequencyCounts(answers: seq<string>)
    ensures forall a :: a in Frequency(answers) ==> Frequency(answers)[a] == Count(answers, a)
  {
    if answers != [] {
      var n := |answers| - 1;
      var p := answers[..n];
      FrequencyCounts(p);
      FrequencyKeys(p);
      assert answers == p + [answers[n]];
      forall a | a in Frequency(answers) ensures Frequency(answers)[a] == Count(answers, a) {
        CountSnoc(p, answers[n], a);
      }
    }
  }

  lemma BumpSeen(keys: seq<string>, f: map<string, nat>, a: string)
    requires forall j :: j in keys ==> j in f
    requires Distinct(keys) && a in keys
    ensures SumOver(keys, Bump(f, a)) == SumOver(keys, f) + 1
  {
    SumOverIncrement(keys, f, a);
  }

  lemma BumpNew(keys: seq<string>, f: map<string, nat>, a: string)
    requires forall j :: j in keys ==> j in f
    requires a !in keys && a !in f
    ensures forall j :: j in keys + [a] ==> j in Bump(f, a)
    ensures SumOver(keys + [a], Bump(f, a)) == SumOver(keys, f) + 1
  {
    SumOverSnoc(keys, Bump(f, a), a);
    SumOverUnchanged(keys, f, a, 1);
  }

  /** Over the distinct answers the frequencies add up to the number of answers. */
  lemma {:induction false} FrequencySum(answers: seq<string>)
    ensures forall a :: a in Dedup(answers) ==> a in Frequency(answers)
    ensures SumOver(Dedup(answers), Frequency(answers)) == |answers|
  {
    FrequencyKeys(answers);
    if answers != [] {
      var n := |answers| - 1;
      var p := answers[..n];
      var a := answers[n];
      FrequencySum(p);
      FrequencyKeys(p);
      var d := Dedup(p);
      if a in d {
        BumpSeen(d, Frequency(p), a);
      } else {
        BumpNew(d, Frequency(p), a);
      }
    }
  }

  /** The `forEach` filling `frequency`. */
  method Tally(answers: seq<string>) returns (frequency: map<string, nat>)
    ensures frequency == Frequency(answers)
  {
    frequency := map[];
    var i := 0;
    while i < |answers|
      invariant 0 <= i <= |answers|
      invariant frequency == Frequency(answers[..i])
    {
      var a := answers[i];
      assert answers[..i + 1][..i] == answers[..i];
      frequency := frequency[a := (if a in frequency then frequency[a] else 0) + 1];
      i := i + 1;
    }
    assert answers[..i] == answers;
  }

  /** The entry `questionAnalytics[questionText]`; only choice questions get a frequency. */
  datatype QuestionSummary = QuestionSummary(
    questionType: string,
    totalResponses: nat,
    answers: seq<string>,
    frequency: Option<map<string, nat>>)

  function Summary(q: FM.Question, responses: seq<Response>): QuestionSummary {
    var answers := AnswersTo(responses, q.questionText);
    QuestionSummary(q.questionType, |answers|, answers,
                    if q.questionType == "mcq" || q.questionType == "yesno" then Some(Frequency(answers)) else None)
  }

  /** `questionAnalytics` after the questions in turn: a later question with the same text replaces an earlier one. */
  function Summaries(qs: seq<FM.Question>, responses: seq<Response>): map<string, QuestionSummary> {
    if qs == [] then map[]
    else Summaries(qs[..|qs| - 1], responses)[qs[|qs| - 1].questionText := Summary(qs[|qs| - 1], responses)]
  }

  /**
   * A choice question's frequencies add up to its `totalResponses`; a text
   * question has no frequency.
   */
  lemma SummaryTotals(q: FM.Question, responses: seq<Response>)
    ensures (q.questionType == "mcq" || q.questionType == "yesno") <==> Summary(q, responses).frequency.Some?
    ensures Summary(q, responses).frequency.Some? ==>
              && (forall a :: a in Dedup(Summary(q, responses).answers) ==> a in Summary(q, responses).frequency.value)
              && SumOver(Dedup(Summary(q, responses).answers), Summary(q, responses).frequency.value)
                   == Summary(q, responses).totalResponses
  {
    FrequencySum(AnswersTo(responses, q.questionText));
  }

  /** `questionAnalytics` has one key per distinct question text. */
  lemma {:induction false} SummariesKeys(qs: seq<FM.Question>, responses: seq<Response>)
    ensures forall t :: t in Summaries(qs, responses) <==> exists k :: 0 <= k < |qs| && qs[k].questionText == t
  {
    if qs != [] {
      var n := |qs| - 1;
      var p := qs[..n];
      SummariesKeys(p, responses);
      assert forall k :: 0 <= k < n ==> p[k] == qs[k];
    }
  }

  /** The entry under a question's text is that question's summary unless a later question has the same text. */
  lemma {:induction false} SummariesLastWins(qs: seq<FM.Question>, responses: seq<Response>, k: nat)
    requires k < |qs|
    requires forall j :: k < j < |qs| ==> qs[j].questionText != qs[k].questionText
    ensures qs[k].questionText in Summaries(qs, responses)
    ensures Summaries(qs, responses)[qs[k].questionText] == Summary(qs[k], responses)
  {
    var n := |qs| - 1;
    if k < n {
      var p := qs[..n];
      assert p[k] == qs[k];
      SummariesLastWins(p, responses, k);
    }
  }

  // ---------------------------------------------------------------------------
  // The two objects as JavaScript holds them
  // ---------------------------------------------------------------------------

  /**
   * The names every plain object inherits from `Object.prototype` in Node.js:
   * `frequency[name]` finds these members before any own key is set.
   */
  predicate InheritedName(k: string) {
    || k == "constructor" || k == "__proto__" || k == "toString" || k == "toLocaleString"
    || k == "valueOf" || k == "hasOwnProperty" || k == "isPrototypeOf" || k == "propertyIsEnumerable"
    || k == "__defineGetter__" || k == "__defineSetter__" || k == "__lookupGetter__" || k == "__lookupSetter__"
  }

  /**
   * What `+ 1` turns an inherited member into before appending "1": the
   * source text of a native function, or "[object Object]" for the prototype.
   */
  function InheritedText(k: string): string {
    if k == "__proto__" then "[object Object]"
    else "function " + (if k == "constructor" then "Object" else k) + "() { [native code] }"
  }

  /** A value of the `frequency` object: a number, or the string `+` built from a non-number. */
  datatype JsValue = Number(n: nat) | Text(s: string)

  /**
   * Line 254 on a plain object: `(frequency[answer] || 0) + 1` reads an own
   * value or else an inherited member, and assigning a non-object to
   * `__proto__` adds no key.
   */
  function BumpObject(frequency: map<string, JsValue>, answer: string): map<string, JsValue> {
    if answer == "__proto__" then frequency
    else if answer in frequency then
      frequency[answer := match frequency[answer]
                          case Number(n) => Number(n + 1)
                          case Text(s) => if s == [] then Number(1) else Text(s + "1")]
    else if InheritedName(answer) then frequency[answer := Text(InheritedText(answer) + "1")]
    else frequency[answer := Number(1)]
  }

  /** The `frequency` object as written, after counting `answers` in order. */
  function FrequencyObject(answers: seq<string>): map<string, JsValue> {
    if answers == [] then map[] else BumpObject(FrequencyObject(answers[..|answers| - 1]), answers[|answers| - 1])
  }

  /** Without inherited names among the answers, the object holds exactly the counts of `Frequency`. */
  lemma {:induction false} FrequencyObjectAgrees(answers: seq<string>)
    requires PlainAnswers(answers)
    ensures forall a :: a in FrequencyObject(answers) <==> a in Frequency(answers)
    ensures forall a :: a in Frequency(answers) ==> FrequencyObject(answers)[a] == Number(Frequency(answers)[a])
  {
    if answers != [] {
      var n := |answers| - 1;
      FrequencyObjectAgrees(answers[..n]);
    }
  }

  /**
   * As written, an answer "constructor" is stored as a string rather than a
   * count, and an answer "__proto__" is never stored, while `Frequency`
   * counts both.
   */
  lemma InheritedAnswersMiscounted()
    ensures FrequencyObject(["constructor"]) == map["constructor" := Text(InheritedText("constructor") + "1")]
    ensures Frequency(["constructor"]) == map["constructor" := 1]
    ensures "__proto__" !in FrequencyObject(["__proto__", "__proto__"])
    ensures Frequency(["__proto__", "__proto__"]) == map["__proto__" := 2]
  {
    assert ["__proto__", "__proto__"][..1] == ["__proto__"];
  }

  /** No answer is a name inherited from `Object.prototype`. */
  predicate PlainAnswers(answers: seq<string>) {
    forall k :: 0 <= k < |answers| ==> !InheritedName(answers[k])
  }

  /** An entry of `questionAnalytics` as written: its `frequency` is the plain object. */
  datatype ObjectSummary = ObjectSummary(
    questionType: string,
    totalResponses: nat,
    answers: seq<string>,
    frequency: Option<map<string, JsValue>>)

  function SummaryObject(q: FM.Question, responses: seq<Response>): ObjectSummary {
    var answers := AnswersTo(responses, q.questionText);
    ObjectSummary(q.questionType, |answers|, answers,
                  if q.questionType == "mcq" || q.questionType == "yesno" then Some(FrequencyObject(answers)) else None)
  }

  /** An intended summary with each count as a JavaScript number. */
  function AsObject(s: QuestionSummary): ObjectSummary {
    ObjectSummary(s.questionType, s.totalResponses, s.answers,
                  match s.frequency
                  case None => None
                  case Some(f) => Some(map a | a in f :: Number(f[a])))
  }

  /** Without inherited names among its answers, a question's entry as written is the intended one. */
  lemma SummaryObjectAgrees(q: FM.Question, responses: seq<Response>)
    requires PlainAnswers(AnswersTo(responses, q.questionText))
    ensures SummaryObject(q, responses) == AsObject(Summary(q, responses))
  {
    var answers := AnswersTo(responses, q.questionText);
    FrequencyObjectAgrees(answers);
    assert FrequencyObject(answers) == map a | a in Frequency(answers) :: Number(Frequency(answers)[a]);
  }

  /**
   * `questionAnalytics[text] = summary` on a plain object: for the text
   * "__proto__" the assignment replaces the prototype and adds no key, so
   * the JSON sent has no entry for that question.
   */
  function SummariesObject(qs: seq<FM.Question>, responses: seq<Response>): map<string, ObjectSummary> {
    if qs == [] then map[]
    else
      var rest := SummariesObject(qs[..|qs| - 1], responses);
      var q := qs[|qs| - 1];
      if q.questionText == "__proto__" then rest else rest[q.questionText := SummaryObject(q, responses)]
  }

  /**
   * Without a question text "__proto__" and without inherited names among
   * the answers, the object as written holds the entries of `Summaries`.
   */
  lemma {:induction false} SummariesObjectAgrees(qs: seq<FM.Question>, responses: seq<Response>)
    requires forall k :: 0 <= k < |qs| ==> qs[k].questionText != "__proto__"
    requires forall k :: 0 <= k < |qs| ==> PlainAnswers(AnswersTo(responses, qs[k].questionText))
    ensures forall t :: t in SummariesObject(qs, responses) <==> t in Summaries(qs, responses)
    ensures forall t :: t in Summaries(qs, responses) ==>
              SummariesObject(qs, responses)[t] == AsObject(Summaries(qs, responses)[t])
  {
    if qs != [] {
      var n := |qs| - 1;
      SummariesObjectAgrees(qs[..n], responses);
      SummaryObjectAgrees(qs[n], responses);
    }
  }

  /** As written, a question whose text is "__proto__" has no entry. */
  lemma ProtoQuestionDropped(responses: seq<Response>)
    ensures var qs := [FM.Question("__proto__", "text", [], false, 0)];
            && "__proto__" !in SummariesObject(qs, responses)
            && "__proto__" in Summaries(qs, responses)
  {
    var qs := [FM.Question("__proto__", "text", [], false, 0)];
    assert qs[..0] == [];
  }

  /** The `analytics` object. */
  datatype FeedbackAnalytics = FeedbackAnalytics(
    totalResponses: nat,
    formTitle: string,
    questionAnalytics: map<string, QuestionSummary>)

  datatype AnalyticsResult =
    | BadFormId       // 400 "Invalid feedbackFormId format"
    | NoResponses     // 404 "No responses found for this feedback form"
    | FormGone        // 500: the responses outlived their form, which `populate` finds missing
    | Tallied(data: FeedbackAnalytics)

  /** `getFeedbackAnalytics` over the two collections. */
  function AnalyticsOutcome(forms: seq<FM.Form>, docs: seq<Response>, formId: string, validId: bool): AnalyticsResult {
    if !validId then BadFormId
    else
      var responses := ResponsesFor(docs, formId);
      if responses == [] then NoResponses
      else match FM.IndexOf(forms, formId)
        case None => FormGone
        case Some(i) =>
          Tallied(FeedbackAnalytics(|responses|, forms[i].title, Summaries(forms[i].questions, responses)))
  }

  /** `getFeedbackAnalytics`: the summaries are built question by question, tallying the choice questions. */
  method GetFeedbackAnalytics(forms: FM.FormCollection, store: ResponseCollection, formId: string,
                              isValidId: string -> bool)
    returns (result: AnalyticsResult)
    ensures result == AnalyticsOutcome(forms.docs, store.docs, formId, isValidId(formId))
  {
    if !isValidId(formId) {
      return BadFormId;
    }
    var responses := ResponsesFor(store.docs, formId);
    if responses == [] {
      return NoResponses;
    }
    var at := forms.FindById(formId);
    if at.None? {
      return FormGone;
    }
    var form := forms.docs[at.value];
    var qs := form.questions;
    var questionAnalytics: map<string, QuestionSummary> := map[];
    var i := 0;
    while i < |qs|
      invariant 0 <= i <= |qs|
      invariant questionAnalytics == Summaries(qs[..i], responses)
    {
      var q := qs[i];
      var answers := AnswersTo(responses, q.questionText);
      var frequency := None;
      if q.questionType == "mcq" || q.questionType == "yesno" {
        var tally := Tally(answers);
        frequency := Some(tally);
      }
      assert qs[..i + 1][..i] == qs[..i];
      questionAnalytics := questionAnalytics[q.questionText := QuestionSummary(q.questionType, |answers|, answers, frequency)];
      i := i + 1;
    }
    assert qs[..i] == qs;
    result := Tallied(FeedbackAnalytics(|responses|, form.title, questionAnalytics));
  }

  /**
   * The analytics are refused with 404 exactly when no stored response
   * answers the form; when delivered they count this form's responses and
   * hold one summary per distinct question text of the form.
   */
  lemma AnalyticsCoverForm(forms: seq<FM.Form>, docs: seq<Response>, formId: string, validId: bool)
    ensures AnalyticsOutcome(forms, docs, formId, validId) == NoResponses <==>
              validId && forall r :: r in docs ==> r.feedbackFormId != formId
    ensures var out := AnalyticsOutcome(forms, docs, formId, validId);
      out.Tallied? ==>
        && validId && FM.IndexOf(forms, formId).Some?
        && out.data.totalResponses == |ResponsesFor(docs, formId)| > 0
        && out.data.formTitle == forms[FM.IndexOf(forms, formId).value].title
        && forall t :: t in out.data.questionAnalytics <==>
             exists k :: 0 <= k < |forms[FM.IndexOf(forms, formId).value].questions|
                         && forms[FM.IndexOf(forms, formId).value].questions[k].questionText == t
  {
    ResponsesForMembers(docs, formId);
    if ResponsesFor(docs, formId) != [] {
      assert ResponsesFor(docs, formId)[0] in ResponsesFor(docs, formId);
    }
    if validId && FM.IndexOf(forms, formId).Some? {
      SummariesKeys(forms[FM.IndexOf(forms, formId).value].questions, ResponsesFor(docs, formId));
    }
  }
}
