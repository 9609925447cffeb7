# feedbackly — a Dafny model of the form and response core

feedbackly lets an admin build feedback forms in a React dashboard and
publish them. Anonymous submitters answer a form once each. The admin then
reads per-question analytics. This project models the parts of the server
and the client that decide what is accepted, what is stored and what is
counted:

- **FormValidation** covers `validateQuestion` and `validateFormData`. Each
  is a specification function returning the error list in the order the
  server builds it, together with the method that builds it with loops. An
  error is a datatype, and `Message` renders the exact texts the server
  sends. `CorrectedMessage` states the question limit as it is enforced
  (see Findings).
- **FeedbackModel** and **FeedbackResponseModel** model the two Mongoose
  schemas:
  - the schema checks, the defaults and the `pre("save")` hook;
  - the two collections as classes whose `docs` sequence the methods update
    in place (`findById`, `save`, `findByIdAndDelete`, `findOne`);
  - the unique index on `submittedBy`.
- **FormController** models four things:
  - `createFeedbackForm` (validation, cleaning, insert);
  - the status toggle;
  - the delete with its ownership check;
  - the pagination arithmetic of the admin's form list.

  The toggle method `ToggleFeedbackFormStatus` implements the corrected
  toggle, with the ownership check the source lacks. The toggle as written
  is `ToggleOutcome`, and `ToggleIgnoresOwner` exhibits the difference (see
  Findings).
- **FormAnalytics** models the per-question statistics of
  `getFormAnalyticsForAdmin`:
  - the answers found per response;
  - the exact or case-insensitive counting;
  - `Math.round` percentages, as half-up rounding of the exact ratio;
  - the report with its anonymised response list.
- **ResponseController** models two handlers:
  - the submit gate of `submitFeedbackResponse`, as a function of the stored
    forms and responses and as a method over the collections, with the
    status and message of each answer;
  - the frequency tally of `getFeedbackAnalytics`, as a method proved equal
    to a recursive definition, with the total of the tally proved to equal
    the number of answers.

  The tally and `Summaries` are the intended ones: one count per distinct
  answer and one entry per question text. `FrequencyObject` and
  `SummariesObject` model the two JavaScript plain objects as written, the
  second holding the first as each entry's `frequency`. They differ from
  the intended tally only on names inherited from `Object.prototype` (see
  Findings).
- **AdminDashboard** models the form builder:
  - the draft as a class whose handler methods mirror `handleQuestionChange`,
    `handleOptionChange`, `addOption`, `removeOption`, `addQuestion` and
    `removeQuestion`;
  - a pure edit semantics, with the invariant those handlers keep (2 to 10
    questions, valid types, 2 to 10 options per multiple-choice question);
  - the client `validateForm`, with the texts it lists. Every text about a
    question starts with "Question <n>", and all but the two option-count
    texts equal the server's (the page says "at least 2" and "maximum 10"
    where the server says "2-10");
  - the `handleSubmit` payload.

  One lemma proves that every draft the page accepts is accepted by the
  server and created, provided its expiry lies ahead of the server's clock.
- **JsText**, **Seqs** and **Wrappers** hold shared helpers:
  - ECMAScript `trim`;
  - ASCII `toLowerCase`;
  - decimal rendering;
  - joins, counts and distinct elements of sequences;
  - `Option`.

Conventions:
- An absent or falsy string field is `""`.
- `mongoose.Types.ObjectId.isValid` is a function parameter.
- The clock is an integer `now`.
- A date given as text is an `ExpiryInput`: empty (`NoExpiry`), not a date
  (`Unparseable`), or a time (`ExpiresAt`).
- `Math.round(c / t * 100)` is read as half-up rounding of the exact ratio
  c/t·100, computed as `(200c + t) / (2t)`.

## Model

| member | source | states |
|---|---|---|
| FormValidation.ValidateQuestion | server/controllers/feedbackform.controller.js:9-79 | returns exactly the question's issues, in the order the checks run, each labelled with the question's position |
| FormValidation.CheckOptions | server/controllers/feedbackform.controller.js:30-76 | returns exactly the option issues: missing options, count out of 2..10, per-option empty/too long, duplicates; non-mcq with options |
| FormValidation.ValidateFormData | server/controllers/feedbackform.controller.js:81-121 | returns exactly the form's errors: title, description, question list, expiry, in that order |
| FormValidation.CheckQuestionList | server/controllers/feedbackform.controller.js:96-107 | not an array, empty, more than 10, or every question's errors concatenated in question order |
| FormValidation.PerOptionIssuesExact | server/controllers/feedbackform.controller.js:40-59 | option k is reported empty iff its trimmed text is empty, too long iff its untrimmed length exceeds 100 |
| FormValidation.DuplicateIffFewerDistinct | server/controllers/feedbackform.controller.js:61-66 | the Set of trimmed lower-cased options is smaller than the list iff two options coincide once normalised |
| FormValidation.TagMember | server/controllers/feedbackform.controller.js:9-79 | an error is among question i's errors iff it is labelled i and carries one of that question's issues |
| FormValidation.QuestionTextIssues | server/controllers/feedbackform.controller.js:12-20 | text required iff the trimmed text is empty, too long iff it exceeds 100; never both |
| FormValidation.OptionIssuesKinds | server/controllers/feedbackform.controller.js:30-76 | the option checks never report a text or type issue |
| FormValidation.McqOptionCountOutOfRange | server/controllers/feedbackform.controller.js:35-38 | with a count outside 2..10 the count issue is reported once and no option is examined |
| FormValidation.McqOptionChecks | server/controllers/feedbackform.controller.js:39-59 | with 2..10 options, option k is reported empty or too long exactly when it is |
| FormValidation.McqDuplicateCheck | server/controllers/feedbackform.controller.js:61-66 | the duplicate issue is reported (at most once) iff two options coincide once trimmed and lower-cased |
| FormValidation.NonMcqWithOptions | server/controllers/feedbackform.controller.js:68-76 | a non-mcq question with a non-empty options list draws the "should not have options" issue; an mcq never does |
| FormValidation.OptionIssuesEmptyIff | server/controllers/feedbackform.controller.js:30-76 | no option issue iff the options are acceptable (mcq: 2..10 non-blank, at most 100 long, distinct; otherwise none) |
| FormValidation.QuestionIssuesEmptyIff | server/controllers/feedbackform.controller.js:9-79 | no issue iff the question is acceptable |
| FormValidation.AllQuestionErrorsMembers | server/controllers/feedbackform.controller.js:103-106 | an error is in the joined list iff it is question i's error for some existing i |
| FormValidation.AllQuestionErrorsInOrder | server/controllers/feedbackform.controller.js:103-106 | the joined errors come question by question, positions never decreasing |
| FormValidation.AllQuestionErrorsEmptyIff | server/controllers/feedbackform.controller.js:103-106 | the joined list is empty iff every question is acceptable |
| FormValidation.FormLevelErrorsUntagged | server/controllers/feedbackform.controller.js:84-118 | title, description and expiry checks never yield a question or count error |
| FormValidation.EmptyQuestionList | server/controllers/feedbackform.controller.js:96-99 | an empty list yields the "at least one" error once and no question error |
| FormValidation.TooManyQuestionsList | server/controllers/feedbackform.controller.js:100-101 | more than 10 questions yields the count error once and no question is checked |
| FormValidation.QuestionListChecked | server/controllers/feedbackform.controller.js:96-107 | 1..10 questions: no count error, and question errors are exactly each question's issues |
| FormValidation.FormErrorsEmptyIff | server/controllers/feedbackform.controller.js:81-121 | no error iff the form is acceptable (title 1..50 trimmed, description at most 200, 1..10 acceptable questions, expiry absent or future) |
| FormValidation.QuestionMessagesLabelled | server/controllers/feedbackform.controller.js:12-76 | every question error's message starts with "Question " and the question's position counted from 1 |
| FormValidation.TooManyQuestionsTextStates20 | server/controllers/feedbackform.controller.js:100-101 | as written, the message sent for the count error states a limit of 20, which differs from the enforced 10 |
| FormValidation.TooManyQuestionsMessageAsWritten | server/controllers/feedbackform.controller.js:100-101 | a form of 11 to 20 questions is refused with the count error |
| FormValidation.TooManyQuestionsMessageStatesLimit | server/controllers/feedbackform.controller.js:100-101 | corrected: the count error appears iff there are more than 10 questions, and the corrected message states 10 |
| FeedbackModel.PreSave | server/models/feedback.model.js:80-83 | saving sets `updatedAt` to now and changes nothing else |
| FeedbackModel.PreSaveKeepsSchema | server/models/feedback.model.js:3-83 | the hook does not change whether a document passes the schema |
| FeedbackModel.IndexOf | server/controllers/feedbackform.controller.js:238 | the position of the first document with the id, or none exists |
| FeedbackModel.RemoveIdMembers | server/controllers/feedbackform.controller.js:502 | after deleting by id, exactly the documents with other ids remain |
| FeedbackModel.RemoveIdKeepsUnique | server/controllers/feedbackform.controller.js:502 | deleting keeps ids unique |
| FeedbackModel.RemoveIdPresent | server/controllers/feedbackform.controller.js:502 | deleting a present id removes exactly that document, keeping the others' order |
| FeedbackModel.RemoveIdAbsent | server/controllers/feedbackform.controller.js:502 | deleting an absent id changes nothing |
| FeedbackModel.FormCollection.FindById | server/controllers/feedbackform.controller.js:238 | finds the position `IndexOf` names |
| FeedbackModel.FormCollection.Insert | server/models/feedback.model.js:3-83 | schema failure or a taken id leave the collection unchanged; otherwise the document is appended with `updatedAt` set; ids stay unique and all documents valid |
| FeedbackModel.FormCollection.Update | server/controllers/feedbackform.controller.js:247-248 | replaces document i by the saved form iff it passes the schema |
| FeedbackModel.FormCollection.DeleteById | server/controllers/feedbackform.controller.js:502 | removes the document with that id, keeping the collection valid |
| FeedbackResponseModel.OneFormPerSubmitter | server/models/feedbackresponse.model.js:21-24 | under the unique index the forms one submitter has answered number at most one, and are exactly the form of their single stored response |
| FeedbackResponseModel.ResponsesForMembers | server/controllers/feedbackform.controller.js:387-390 | the query returns exactly the stored responses of that form |
| FeedbackResponseModel.ResponseCollection.FindOne | server/controllers/feedbackresponse.controller.js:52-55 | true iff a stored response has both the form id and the submitter |
| FeedbackResponseModel.ResponseCollection.Insert | server/models/feedbackresponse.model.js:3-29 | schema failure, then a duplicate `submittedBy` (error 11000), leave the collection unchanged; otherwise the response is appended; the index stays unique |
| FormController.CreateFeedbackForm | server/controllers/feedbackform.controller.js:123-204 | the outcome is `CreateOutcome`; the collection grows by the created form only when one is created |
| FormController.CleanQuestionSatisfiesSchema | server/controllers/feedbackform.controller.js:151-159 | a validated question, once cleaned, passes the sub-document schema |
| FormController.AcceptedFormSatisfiesSchema | server/controllers/feedbackform.controller.js:161-169 | a validated form built for an admin passes the document schema |
| FormController.CreateOutcomeCases | server/controllers/feedbackform.controller.js:123-204 | the schema never rejects; a form is created iff the admin id is valid, the data validates and the id is free |
| FormController.CleanQuestionContents | server/controllers/feedbackform.controller.js:151-159 | the cleaned question keeps the type, trims the text, trims mcq options and drops others, defaults `isRequired` to false |
| FormController.CreatedFormContents | server/controllers/feedbackform.controller.js:134-167 | the created form has the new id, the admin, trimmed title and description, active, timestamps now, the parsed expiry, and the cleaned questions of an acceptable list |
| FormController.ToggleFeedbackFormStatus | server/controllers/feedbackform.controller.js:216-262 | corrected (see Findings): the outcome is `OwnedToggleOutcome`; only the toggled form's document changes |
| FormController.ToggleChangesOnlyStatus | server/controllers/feedbackform.controller.js:246-248 | the save never fails on a valid collection; only `isActive` (to the value sent) and `updatedAt` change |
| FormController.ToggleIdempotent | server/controllers/feedbackform.controller.js:216-262 | after a toggle to `b` succeeds, toggling to `b` again on the collection it left answers exactly as one toggle to `b` on the original collection |
| FormController.ToggleIgnoresOwner | server/controllers/feedbackform.controller.js:216-262 | as written, admin-b closes admin-a's form |
| FormController.OwnedToggleOnlyOwner | server/controllers/feedbackform.controller.js:216-262 | corrected: only the owner changes a status, and the owner is served exactly as before |
| FormController.DeleteFeedbackForm | server/controllers/feedbackform.controller.js:474-515 | the outcome is `DeleteOutcome`; the form is removed only when deleted |
| FormController.DeleteOnlyByOwner | server/controllers/feedbackform.controller.js:486-502 | a delete succeeds only for the owner, and removes exactly that one form |
| FormController.PageOf | server/controllers/feedbackform.controller.js:325-329 | a page holds at most `limit` forms |
| FormController.TotalPagesIsCeiling | server/controllers/feedbackform.controller.js:340 | `totalPages` is the least number of pages that holds every form |
| FormController.HasNextIffBeforeLastPage | server/controllers/feedbackform.controller.js:339-343 | `hasNext` iff the page is before the last; `hasPrev` iff it is not the first |
| FormController.ItemOnItsPage | server/controllers/feedbackform.controller.js:325-329 | item k is at offset k mod limit of page k div limit + 1 |
| FormAnalytics.FindEntry | server/controllers/feedbackform.controller.js:411-413 | the first entry with that question text, or none has it |
| FormAnalytics.QuestionAnswersMember | server/controllers/feedbackform.controller.js:408-415 | an answer is collected iff some response's first entry for the question carries it, non-empty |
| FormAnalytics.QuestionAnswersNonEmpty | server/controllers/feedbackform.controller.js:415 | `filter(Boolean)` leaves no empty answer |
| FormAnalytics.McqCountIsExact | server/controllers/feedbackform.controller.js:424-428 | an mcq option's count is the number of answers equal to it |
| FormAnalytics.YesNoCountIgnoresCase | server/controllers/feedbackform.controller.js:424-428 | a yes/no option's count is the number of answers equal to it once both are lower-cased |
| FormAnalytics.SumCountsAtMostAnswers | server/controllers/feedbackform.controller.js:423-428 | when no answer matches two options, the counts add up to at most the answers |
| FormAnalytics.ChoiceOptionsExclusive | server/controllers/feedbackform.controller.js:417-418 | distinct mcq options, and "Yes"/"No", never both match one answer |
| FormAnalytics.RoundPercent | server/controllers/feedbackform.controller.js:433-436 | the percentage is c/t·100 rounded half up, 0 when there are no responses |
| FormAnalytics.RoundPercentBounded | server/controllers/feedbackform.controller.js:433-443 | a count within the total gives at most 100 |
| FormAnalytics.AnalyticsEntries | server/controllers/feedbackform.controller.js:405-445 | every entry reports an mcq or yes/no question of the form, with one figure per counted option, a response rate and percentages within 0..100 |
| FormAnalytics.AnalyticsSnoc | server/controllers/feedbackform.controller.js:405-445 | the list follows form order: another question appends its entry when it is a choice question and nothing otherwise |
| FormAnalytics.ChoiceQuestionsInOrder | server/controllers/feedbackform.controller.js:405-406 | the filter distributes over concatenation |
| FormAnalytics.ChoiceQuestionsMembers | server/controllers/feedbackform.controller.js:405-406 | exactly the mcq and yes/no questions are kept |
| FormAnalytics.StatsBounded | server/controllers/feedbackform.controller.js:407-444 | answers at most the responses; rate and percentages at most 100; one entry per option in order; counts at most the answers; all 0 without responses |
| FormAnalytics.CountsWithinAnswers | server/controllers/feedbackform.controller.js:423-439 | with distinct mcq options the counts add up to at most `totalAnswers` |
| FormAnalytics.SampleAnswers | server/controllers/feedbackform.controller.js:408-415 | a response to another question contributes no answer |
| FormAnalytics.SampleCounts | server/controllers/feedbackform.controller.js:424-428 | "yes" and "Yes" both count for "Yes" |
| FormAnalytics.YesNoExample | server/controllers/feedbackform.controller.js:407-444 | 4 responses, 3 answers: Yes 2 (50%), No 1 (25%), rate 75% |
| FormAnalytics.ReportDescribesForm | server/controllers/feedbackform.controller.js:356-464 | a report goes only to the owner, counts that form's responses, lists each with a non-empty submitter ("Anonymous") and has one entry per choice question |
| ResponseController.SubmitStatusSeparatesOutcomes | server/controllers/feedbackresponse.controller.js:12-127 | the status is 201 iff the response was stored; every refusal is 400, 404 or 500 |
| ResponseController.SuccessMessageOnlyWhenSubmitted | server/controllers/feedbackresponse.controller.js:12-127 | the success message is sent iff the response was stored |
| ResponseController.RequiredMessageQuotesQuestion | server/controllers/feedbackresponse.controller.js:89-94 | the refusal for an unanswered required question quotes that question's text between the fixed opening and closing |
| ResponseController.FirstUnansweredSpec | server/controllers/feedbackresponse.controller.js:83-95 | none iff every required question's text is among the answered texts; otherwise the first required one missing |
| ResponseController.SubmitFeedbackResponse | server/controllers/feedbackresponse.controller.js:7-128 | the outcome is `SubmitOutcome`; the response is appended only when submitted |
| ResponseController.SubmittedIffChecksPass | server/controllers/feedbackresponse.controller.js:12-110 | never an internal error; stored iff fields present, id valid, form found, active, not expired, submitter never seen, answers a non-empty list of complete entries covering every required question; the response stored is the request's at now |
| ResponseController.ExpiredOnlyAfterDeadline | server/controllers/feedbackresponse.controller.js:44-49 | "expired" iff the earlier gates pass and now is strictly after the expiry |
| ResponseController.SecondSubmissionRefused | server/controllers/feedbackresponse.controller.js:52-62 | a second submission to the same form is refused whatever its answers |
| ResponseController.SubmitterBlockedEverywhere | server/controllers/feedbackresponse.controller.js:114-120 | as written, a stored response blocks its submitter on every form |
| ResponseController.SubmitterBlockedAcrossForms | server/models/feedbackresponse.model.js:21-24 | as written, alice's answer to form A makes her answer to form B fail as "already submitted" |
| ResponseController.PerFormSubmittedIffChecksPass | server/controllers/feedbackresponse.controller.js:52-62 | corrected: stored iff the checks pass and the submitter has not answered this form |
| ResponseController.ResubmissionRefused | server/controllers/feedbackresponse.controller.js:52-62 | after a submission, the same request later is refused |
| ResponseController.FrequencyKeys | server/controllers/feedbackresponse.controller.js:252-255 | the frequency keys are exactly the answers given |
| ResponseController.FrequencyCounts | server/controllers/feedbackresponse.controller.js:252-255 | each answer's frequency is the number of times it occurs |
| ResponseController.FrequencySum | server/controllers/feedbackresponse.controller.js:252-255 | the frequencies of the distinct answers add up to the number of answers |
| ResponseController.Tally | server/controllers/feedbackresponse.controller.js:252-255 | the loop builds the frequency object of the answers |
| ResponseController.SummaryTotals | server/controllers/feedbackresponse.controller.js:241-258 | only choice questions get a frequency, and it adds up to their `totalResponses` |
| ResponseController.SummariesKeys | server/controllers/feedbackresponse.controller.js:234-241 | one summary per distinct question text |
| ResponseController.SummariesLastWins | server/controllers/feedbackresponse.controller.js:241 | a text's summary is that of its last question |
| ResponseController.FrequencyObjectAgrees | server/controllers/feedbackresponse.controller.js:252-255 | when no answer is an `Object.prototype` name, the plain object as written holds exactly the intended counts |
| ResponseController.InheritedAnswersMiscounted | server/controllers/feedbackresponse.controller.js:252-255 | as written, an answer "constructor" is stored as the text of `Object` plus "1", and an answer "__proto__" is never stored; the intended tally counts both |
| ResponseController.SummaryObjectAgrees | server/controllers/feedbackresponse.controller.js:234-256 | when no answer to the question is an `Object.prototype` name, its entry as written (with the `frequency` object) is the intended summary with numeric counts |
| ResponseController.SummariesObjectAgrees | server/controllers/feedbackresponse.controller.js:234-256 | when no question text is "__proto__" and no answer is an `Object.prototype` name, `questionAnalytics` as written has exactly the intended keys, each holding the intended summary with numeric counts |
| ResponseController.ProtoQuestionDropped | server/controllers/feedbackresponse.controller.js:241 | as written, a question whose text is "__proto__" gets no entry; the intended summaries have one |
| ResponseController.GetFeedbackAnalytics | server/controllers/feedbackresponse.controller.js:203-274 | the outcome is `AnalyticsOutcome` |
| ResponseController.AnalyticsCoverForm | server/controllers/feedbackresponse.controller.js:208-241 | for a valid id, 404 iff no stored response answers the form; delivered analytics count its responses, carry its title and one summary per question text |
| AdminDashboard.KeepOthersRemovesOne | client/src/Pages/AdminDashboard.jsx:166-174 | the filter removes exactly position i, keeping order |
| AdminDashboard.EditKeepsInvariant | client/src/Pages/AdminDashboard.jsx:93-174 | each handler keeps 2..10 questions, valid types, and 2..10 options per mcq |
| AdminDashboard.RunKeepsInvariant | client/src/Pages/AdminDashboard.jsx:93-174 | so does every sequence of edits the page can make |
| AdminDashboard.InitialDraftInvariant | client/src/Pages/AdminDashboard.jsx:20-38 | the initial draft has that shape |
| AdminDashboard.TypeChangeResetsOptions | client/src/Pages/AdminDashboard.jsx:100-116 | a type change resets options to two blanks for mcq, none otherwise, and changes nothing else |
| AdminDashboard.OptionChangeOnlyThatOption | client/src/Pages/AdminDashboard.jsx:118-125 | editing an option changes that option only |
| AdminDashboard.OptionListEdits | client/src/Pages/AdminDashboard.jsx:127-147 | add appends a blank below 10; remove drops exactly that option above 2; other questions untouched |
| AdminDashboard.QuestionListEdits | client/src/Pages/AdminDashboard.jsx:149-174 | add appends a blank text question below 10; remove drops exactly question i above 2 |
| AdminDashboard.FormDraft.constructor | client/src/Pages/AdminDashboard.jsx:20-38 | the draft starts as the initial draft, valid |
| AdminDashboard.FormDraft.ChangeTitle | client/src/Pages/AdminDashboard.jsx:93-98 | the new state is the edit applied; valid is kept |
| AdminDashboard.FormDraft.ChangeDescription | client/src/Pages/AdminDashboard.jsx:93-98 | the new state is the edit applied; valid is kept |
| AdminDashboard.FormDraft.ChangeExpiry | client/src/Pages/AdminDashboard.jsx:93-98 | the new state is the edit applied; valid is kept |
| AdminDashboard.FormDraft.ChangeQuestionText | client/src/Pages/AdminDashboard.jsx:100-116 | the new state is the edit applied; valid is kept |
| AdminDashboard.FormDraft.ChangeQuestionType | client/src/Pages/AdminDashboard.jsx:100-116 | the new state is the edit applied (options reset); valid is kept |
| AdminDashboard.FormDraft.ChangeRequired | client/src/Pages/AdminDashboard.jsx:100-116 | the new state is the edit applied; valid is kept |
| AdminDashboard.FormDraft.ChangeOption | client/src/Pages/AdminDashboard.jsx:118-125 | the new state is the edit applied; valid is kept |
| AdminDashboard.FormDraft.AddOptionTo | client/src/Pages/AdminDashboard.jsx:127-136 | the new state is the edit applied; valid is kept |
| AdminDashboard.FormDraft.RemoveOptionFrom | client/src/Pages/AdminDashboard.jsx:138-147 | the new state is the edit applied; valid is kept |
| AdminDashboard.FormDraft.AddBlankQuestion | client/src/Pages/AdminDashboard.jsx:149-164 | the new state is the edit applied; valid is kept |
| AdminDashboard.FormDraft.RemoveQuestionAt | client/src/Pages/AdminDashboard.jsx:166-174 | the new state is the edit applied; valid is kept |
| AdminDashboard.FormDraft.ValidateForm | client/src/Pages/AdminDashboard.jsx:176-249 | returns exactly the client errors of the current draft |
| AdminDashboard.FormDraft.HandleSubmit | client/src/Pages/AdminDashboard.jsx:251-278 | sends nothing while there are errors, otherwise the payload |
| AdminDashboard.CheckQuestion | client/src/Pages/AdminDashboard.jsx:192-236 | returns exactly one question's client errors |
| AdminDashboard.CheckOptions | client/src/Pages/AdminDashboard.jsx:212-226 | returns exactly the per-option errors, option by option |
| AdminDashboard.AtMostOneTitleError | client/src/Pages/AdminDashboard.jsx:180-184 | at most one title error; "required" iff the trimmed title is empty, "too long" iff it exceeds 50 |
| AdminDashboard.DuplicateFlaggedIff | client/src/Pages/AdminDashboard.jsx:228-234 | question i is flagged iff it is mcq with two options equal once trimmed and lower-cased |
| AdminDashboard.ClientMessagesLabelled | client/src/Pages/AdminDashboard.jsx:192-235 | every message about a question is "Question <position + 1>" followed by the text of its issue |
| AdminDashboard.TextIssuesAgree | client/src/Pages/AdminDashboard.jsx:192-235 | the page's text-required, text-too-long and duplicate messages equal the server's messages for the same question |
| AdminDashboard.OptionIssuesAgree | client/src/Pages/AdminDashboard.jsx:212-225 | the page's option-empty and option-too-long messages equal the server's, option number included |
| AdminDashboard.ClientErrorsEmptyParts | client/src/Pages/AdminDashboard.jsx:176-249 | no error iff the title, description, every question and the expiry pass |
| AdminDashboard.PayloadQuestionAccepted | client/src/Pages/AdminDashboard.jsx:270-276 | a question the page accepts passes the server's question checks once sent |
| AdminDashboard.McqPayloadAccepted | client/src/Pages/AdminDashboard.jsx:274 | accepted options, trimmed for sending, pass the server's option checks |
| AdminDashboard.ClientAcceptedServerAccepts | client/src/Pages/AdminDashboard.jsx:251-278 | a well-shaped draft the page accepts, with a future or no expiry, is sent and passes `validateFormData` |
| AdminDashboard.UnparseableExpiryPassesClientOnly | client/src/Pages/AdminDashboard.jsx:239-245 | the page ignores an unparseable expiry, which the server always refuses |
| AdminDashboard.ClientAcceptedServerCreates | client/src/Pages/AdminDashboard.jsx:251-278 | such a draft is created by the server for a valid admin when the new id is free |

## Left out

- Authentication and the JWT middleware are left out. The requester's id is
  a parameter.
- The admin's form list is left out apart from its pagination arithmetic:
  the `$regex` search, the sort by `createdAt`, `countDocuments` and the
  field projection. Page and limit are modelled as positive integers;
  non-numeric or non-positive query values are left out.
- `getFeedbackForm` is left out. It is a lookup by id, which `IndexOf`
  models.
- Concurrency is left out. Each handler runs atomically, so the race between
  `findOne` and `save` is not modelled. The unique index still decides the
  outcome.
- Lengths count Unicode scalar values, not UTF-16 code units.
  `toLowerCase` covers ASCII letters only.
- JSON values of the wrong type are not modelled: numbers or objects where
  strings are expected, and a truthy non-array `options`. The one exception
  is the questions field, which may be absent or not an array.
- Date parsing is left out. An expiry arrives already parsed as an
  `ExpiryInput`.
- The HTTP status codes are left out, except those of
  `submitFeedbackResponse`, which `SubmitStatus` gives. The codes of the
  create, toggle, delete and analytics endpoints are not modelled. The
  response bodies are reduced to the fields the properties use.
- Errors thrown by the database other than validation and duplicate key are
  left out (the 500 paths).
- The render part of AdminDashboard.jsx is left out: dialogs, lists,
  loading state and the fetch of the admin's forms. A handler's own logic
  is kept, for example the bounds on add and remove. The UI's disabling of
  buttons is left out; the handlers check the same bounds anyway.
- Aliasing between React state objects is left out. The handlers copy the
  questions array but mutate the shared option arrays in place. The model
  treats each state update as a new value.
- The key order of the JavaScript `frequency` and `questionAnalytics`
  objects is left out. They are maps.
- ResponseController.FrequencyKeys states the intended keys. As written, an answer "__proto__"
  adds no key (`FrequencyObject`; see Findings).
- ResponseController.FrequencyCounts states the intended counts. As written, an answer that
  names an `Object.prototype` member is stored as a string (see Findings).
- ResponseController.FrequencySum states that the intended counts add up to the answers. As
  written, this fails as soon as an answer is an `Object.prototype` name
  (see Findings).
- ResponseController.Tally computes the intended `Frequency`, not the plain object of
  line 254 (see Findings).
- ResponseController.SummaryTotals states the intended totals. As written, the totals fail for
  a choice question answered with an `Object.prototype` name (see
  Findings).
- ResponseController.SummariesKeys states the intended keys. As written, a question text
  "__proto__" has no key (`SummariesObject`).
- ResponseController.SummariesLastWins states the intended entries. It does not hold, as
  written, for the text "__proto__" (`SummariesObject`).
- ResponseController.GetFeedbackAnalytics returns the intended tally. It differs from the
  source's JSON only on `Object.prototype` names (see Findings).
- FormAnalytics.RoundPercent rounds the exact ratio half up. `Math.round` on
  the double `c / t * 100` can round a true half down: for c=23, t=40 the
  source computes 57.49999999999999 and reports 57, while the model
  reports 58. Floating point is not modelled.
- The cascade of responses on form deletion is left out; the source does
  not perform it either.
- FormController.PageOf: its contract states only the size bound; which
  items a page holds is stated by `ItemOnItsPage`.
- FeedbackResponseModel.ResponsesFor: its contract states only a length
  bound. Its meaning is in `ResponsesForMembers`.
- ResponseController.SubmitFeedbackResponse, the model of the response
  collection and its `Insert` keep the index as written (the whole
  collection). The corrected per-form index is stated by
  `PerFormSubmitOutcome` and is not threaded through the collection class.

## Findings

| source | as written | input that shows it | evidently intended | confidence | as-written member | corrected member |
|---|---|---|---|---|---|---|
| server/controllers/feedbackform.controller.js:216-262 | the status toggle finds the form and saves the new status without comparing its `adminId` with the requester, unlike delete (495) and analytics (379) | admin-b sends `isActive: false` for admin-a's form "f1" | only the owning admin changes a form's status | not executed; high | FormController.ToggleIgnoresOwner | FormController.OwnedToggleOnlyOwner |
| server/controllers/feedbackform.controller.js:100-101 | more than 10 questions are refused with the message "Maximum 20 questions allowed" | a form with 11 questions | the message states the enforced limit of 10 | not executed; high | FormValidation.TooManyQuestionsMessageAsWritten | FormValidation.TooManyQuestionsMessageStatesLimit |
| server/controllers/feedbackresponse.controller.js:241-258 | `frequency` and `questionAnalytics` are plain objects: `frequency[answer] || 0` finds members inherited from `Object.prototype`, and the key "__proto__" sets the prototype instead of adding an entry | an mcq answered "constructor" gets the frequency "function Object() { [native code] }1"; an answer or a question text "__proto__" is missing from the result | one count per distinct answer and one entry per question text (an object without a prototype, or a `Map`) | not executed; high | ResponseController.InheritedAnswersMiscounted | ResponseController.FrequencyCounts |
| server/models/feedbackresponse.model.js:21-24 | `submittedBy` is unique across the whole collection, while the controller checks for a duplicate per form (52-55) | alice answers form A, then submits to form B: the insert fails with 11000 and she is told she already answered | one response per (form, submitter) pair | not executed; high | ResponseController.SubmitterBlockedAcrossForms | ResponseController.PerFormSubmittedIffChecksPass |
