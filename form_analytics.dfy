/**
 * The report of `getFormAnalyticsForAdmin` in
 * server/controllers/feedbackform.controller.js: per choice question
 * (multiple choice or yes/no) the answers given, a count and a rounded
 * percentage per option, and a response rate.
 *
 * `Math.round(count / total * 100)` is integer rounding half up,
 * `(200 * count + total) / (2 * total)`, and 0 when there are no responses.
 */
module FormAnalytics {
  import opened Wrappers
  import opened JsText
  import opened Seqs
  import opened FeedbackModel
  import FR = FeedbackResponseModel

  // ---------------------------------------------------------------------------
  // Answers of one question
  // ---------------------------------------------------------------------------

  /** `entries.find(r => r.questionText === questionText)`, as a position. */
  function FindEntry(entries: seq<FR.AnswerEntry>, questionText: string): (r: Option<nat>)
    ensures r.Some? ==> r.value < |entries| && entries[r.value].questionText == questionText
    ensures r.Some? ==> forall i :: 0 <= i < r.value ==> entries[i].questionText != questionText
    ensures r.None? ==> forall i :: 0 <= i < |entries| ==> entries[i].questionText != questionText
  {
    if entries == [] then None
    else if entries[0].questionText == questionText then Some(0)
    else match FindEntry(entries[1..], questionText)
      case None => None
      case Some(k) => Some(k + 1)
  }

  /** `response.responses.find(...)?.answer`: the answer of the first entry for the question. */
  function AnswerOf(response: FR.Response, questionText: string): Option<string> {
    match FindEntry(response.answers, questionText)
    case None => None
    case Some(i) => Some(response.answers[i].answer)
  }

  /** The response answered the question: its first entry for it has a non-empty answer. */
  predicate Answered(response: FR.Response, questionText: string) {
    AnswerOf(response, questionText).Some? && AnswerOf(response, questionText).value != []
  }

  /**
   * `responses.map(... ?.answer).filter(Boolean)`: the answers to the
   * question, one per response that answered it, in response order.
   */
  function QuestionAnswers(responses: seq<FR.Response>, questionText: string): (r: seq<string>)
    ensures |r| <= |responses|
  {
    if responses == [] then []
    else
      var last := responses[|responses| - 1];
      QuestionAnswers(responses[..|responses| - 1], questionText)
        + (if Answered(last, questionText) then [AnswerOf(last, questionText).value] else [])
  }

  /** An answer is listed exactly when some response gave it as its first, non-empty answer to the question. */
  lemma {:induction false} QuestionAnswersMember(responses: seq<FR.Response>, questionText: string, a: string)
    ensures a in QuestionAnswers(responses, questionText) <==>
              exists i :: 0 <= i < |responses| && Answered(responses[i], questionText)
                                                && AnswerOf(responses[i], questionText).value == a
  {
    if responses != [] {
      var n := |responses| - 1;
      var p := responses[..n];
      QuestionAnswersMember(p, questionText, a);
      assert forall i :: 0 <= i < n ==> p[i] == responses[i];
      var r := QuestionAnswers(responses, questionText);
      if a in r && a !in QuestionAnswers(p, questionText) {
        assert Answered(responses[n], questionText) && AnswerOf(responses[n], questionText).value == a;
      }
    }
  }

  /** No listed answer is empty: `filter(Boolean)` drops the blank ones. */
  lemma {:induction false} QuestionAnswersNonEmpty(responses: seq<FR.Response>, questionText: string)
    ensures forall k :: 0 <= k < |QuestionAnswers(responses, questionText)| ==>
              QuestionAnswers(responses, questionText)[k] != []
  {
    if responses != [] {
      var n := |responses| - 1;
      QuestionAnswersNonEmpty(responses[..n], questionText);
    }
  }

  // ---------------------------------------------------------------------------
  // Counting and rounding
  // ---------------------------------------------------------------------------

  /** An answer counts for an option: exactly for a multiple-choice question, ignoring case otherwise. */
  predicate Matches(questionType: string, answer: string, option: string) {
    if questionType == "mcq" then answer == option else ToLower(answer) == ToLower(option)
  }

  /** `questionResponses.filter(r => matches(r, option)).length`. */
  function CountMatches(answers: seq<string>, questionType: string, option: string): (n: nat)
    ensures n <= |answers|
  {
    if answers == [] then 0
    else CountMatches(answers[..|answers| - 1], questionType, option)
         + (if Matches(questionType, answers[|answers| - 1], option) then 1 else 0)
  }

  /** For a multiple-choice question an option's count is the number of answers equal to it. */
  lemma {:induction false} McqCountIsExact(answers: seq<string>, option: string)
    ensures CountMatches(answers, "mcq", option) == Count(answers, option)
  {
    if answers != [] {
      McqCountIsExact(answers[..|answers| - 1], option);
    }
  }

  function LowerAll(answers: seq<string>): (r: seq<string>)
    ensures |r| == |answers|
    ensures forall i :: 0 <= i < |answers| ==> r[i] == ToLower(answers[i])
  {
    seq(|answers|, i requires 0 <= i < |answers| => ToLower(answers[i]))
  }

  /**
   * For a yes/no question an option's count is the number of answers equal
   * to it once both are lower-cased: "yes", "Yes" and "YES" all count for "Yes".
   */
  lemma {:induction false} YesNoCountIgnoresCase(answers: seq<string>, questionType: string, option: string)
    requires questionType != "mcq"
    ensures CountMatches(answers, questionType, option) == Count(LowerAll(answers), ToLower(option))
  {
    if answers != [] {
      var n := |answers| - 1;
      YesNoCountIgnoresCase(answers[..n], questionType, option);
      assert LowerAll(answers)[..n] == LowerAll(answers[..n]);
    }
  }

  /** The sum of the counts of `options`. */
  function SumCounts(answers: seq<string>, questionType: string, options: seq<string>): nat {
    if options == [] then 0
    else SumCounts(answers, questionType, options[..|options| - 1])
         + CountMatches(answers, questionType, options[|options| - 1])
  }

  /** How many of `options` the answer counts for. */
  function Hits(questionType: string, answer: string, options: seq<string>): nat {
    if options == [] then 0
    else Hits(questionType, answer, options[..|options| - 1])
         + (if Matches(questionType, answer, options[|options| - 1]) then 1 else 0)
  }

  /** No answer counts for two of the options. */
  ghost predicate Exclusive(questionType: string, options: seq<string>) {
    forall a: string, i, j ::
      (0 <= i < j < |options| && Matches(questionType, a, options[i])) ==> !Matches(questionType, a, options[j])
  }

  lemma {:induction false} HitsAtMostOne(questionType: string, answer: string, options: seq<string>)
    requires Exclusive(questionType, options)
    ensures Hits(questionType, answer, options) <= 1
    ensures Hits(questionType, answer, options) == 0 <==>
              forall i :: 0 <= i < |options| ==> !Matches(questionType, answer, options[i])
  {
    if options != [] {
      var n := |options| - 1;
      var p := options[..n];
      assert forall i :: 0 <= i < n ==> p[i] == options[i];
      HitsAtMostOne(questionType, answer, p);
    }
  }

  /** Adding one answer to the list adds its hits to the sum of the counts. */
  lemma {:induction false} SumCountsSnoc(answers: seq<string>, a: string, questionType: string, options: seq<string>)
    ensures SumCounts(answers + [a], questionType, options)
              == SumCounts(answers, questionType, options) + Hits(questionType, a, options)
  {
    if options != [] {
      var n := |options| - 1;
      SumCountsSnoc(answers, a, questionType, options[..n]);
      assert (answers + [a])[..|answers|] == answers;
    }
  }

  /**
   * When no answer can count for two options, the counts add up to at most
   * the number of answers; answers matching no option are counted nowhere.
   */
  lemma {:induction false} SumCountsAtMostAnswers(answers: seq<string>, questionType: string, options: seq<string>)
    requires Exclusive(questionType, options)
    ensures SumCounts(answers, questionType, options) <= |answers|
  {
    if answers == [] {
      SumCountsZero(questionType, options);
    } else {
      var n := |answers| - 1;
      SumCountsAtMostAnswers(answers[..n], questionType, options);
      assert answers == answers[..n] + [answers[n]];
      SumCountsSnoc(answers[..n], answers[n], questionType, options);
      HitsAtMostOne(questionType, answers[n], options);
    }
  }

  lemma {:induction false} SumCountsZero(questionType: string, options: seq<string>)
    ensures SumCounts([], questionType, options) == 0
  {
    if options != [] {
      SumCountsZero(questionType, options[..|options| - 1]);
    }
  }

  /** Distinct multiple-choice options, and the pair "Yes"/"No" of a yes/no question, are exclusive. */
  lemma ChoiceOptionsExclusive(q: Question)
    requires q.questionType == "mcq" ==> Distinct(q.options)
    ensures Exclusive(q.questionType, ChoiceOptions(q))
  {
    if q.questionType != "mcq" {
      assert ToLower("Yes")[0] == 'y' && ToLower("No")[0] == 'n';
    }
  }

  /**
   * `Math.round(count / total * 100)`, or 0 without responses: the whole
   * percentage nearest to the exact one, halves rounded up.
   */
  function RoundPercent(count: nat, total: nat): (r: nat)
    ensures total == 0 ==> r == 0
    ensures total > 0 ==> 2 * total * r <= 200 * count + total < 2 * total * (r + 1)
  {
    if total > 0 then (200 * count + total) / (2 * total) else 0
  }

  lemma MulCancel(a: nat, b: nat, c: nat)
    requires a * c < b * c
    ensures a < b
  {
  }

  /** A share of the responses rounds to a percentage between 0 and 100. */
  lemma RoundPercentBounded(count: nat, total: nat)
    requires count <= total
    ensures RoundPercent(count, total) <= 100
  {
    if total > 0 {
      var r := RoundPercent(count, total);
      assert r * (2 * total) < 101 * (2 * total);
      MulCancel(r, 101, 2 * total);
    }
  }

  // ---------------------------------------------------------------------------
  // The report
  // ---------------------------------------------------------------------------

  datatype OptionStat = OptionStat(option: string, count: nat, percentage: nat)

  datatype QuestionStats = QuestionStats(
    questionText: string,
    questionType: string,
    options: seq<OptionStat>,
    totalAnswers: nat,
    responseRate: nat)

  /** Only multiple-choice and yes/no questions are reported. */
  predicate IsChoice(q: Question) {
    q.questionType == "mcq" || q.questionType == "yesno"
  }

  /** The options counted: the question's own for a multiple-choice question, "Yes" and "No" otherwise. */
  function ChoiceOptions(q: Question): seq<string> {
    if q.questionType == "mcq" then q.options else ["Yes", "No"]
  }

  /** `form.questions.filter(q => q.questionType === "mcq" || q.questionType === "yesno")`. */
  function ChoiceQuestions(qs: seq<Question>): (r: seq<Question>)
    ensures |r| <= |qs|
  {
    if qs == [] then []
    else ChoiceQuestions(qs[..|qs| - 1]) + (if IsChoice(qs[|qs| - 1]) then [qs[|qs| - 1]] else [])
  }

  /** The statistics of one choice question over all the form's responses. */
  function Analyze(q: Question, responses: seq<FR.Response>): QuestionStats {
    var answers := QuestionAnswers(responses, q.questionText);
    var options := ChoiceOptions(q);
    QuestionStats(
      q.questionText,
      q.questionType,
      seq(|options|, i requires 0 <= i < |options| =>
        var count := CountMatches(answers, q.questionType, options[i]);
        OptionStat(options[i], count, RoundPercent(count, |responses|))),
      |answers|,
      RoundPercent(|answers|, |responses|))
  }

  /** The `analytics` list: one entry per choice question. */
  function Analytics(qs: seq<Question>, responses: seq<FR.Response>): (r: seq<QuestionStats>)
    ensures |r| == |ChoiceQuestions(qs)|
  {
    var cq := ChoiceQuestions(qs);
    seq(|cq|, k requires 0 <= k < |cq| => Analyze(cq[k], responses))
  }

  /**
   * Each entry of the list reports a multiple-choice or yes/no question of
   * the form, with one figure per counted option, and its response rate and
   * percentages within 0..100.
   */
  lemma AnalyticsEntries(qs: seq<Question>, responses: seq<FR.Response>)
    ensures forall k :: 0 <= k < |Analytics(qs, responses)| ==>
              var s := Analytics(qs, responses)[k];
              && (exists q :: q in qs && IsChoice(q) && s.questionText == q.questionText
                                      && s.questionType == q.questionType && |s.options| == |ChoiceOptions(q)|)
              && s.responseRate <= 100
              && forall i :: 0 <= i < |s.options| ==> s.options[i].percentage <= 100
  {
    var r := Analytics(qs, responses);
    ChoiceQuestionsMembers(qs);
    forall k | 0 <= k < |r|
      ensures exists q :: q in qs && IsChoice(q) && r[k].questionText == q.questionText
                                  && r[k].questionType == q.questionType && |r[k].options| == |ChoiceOptions(q)|
      ensures r[k].responseRate <= 100
      ensures forall i :: 0 <= i < |r[k].options| ==> r[k].options[i].percentage <= 100
    {
      var q := ChoiceQuestions(qs)[k];
      assert q in ChoiceQuestions(qs);
      assert r[k] == Analyze(q, responses);
      StatsBounded(q, responses);
    }
  }

  /**
   * The list follows the form's order: a further question adds its entry at
   * the end when it is a choice question, and nothing otherwise.
   */
  lemma AnalyticsSnoc(qs: seq<Question>, q: Question, responses: seq<FR.Response>)
    ensures Analytics(qs + [q], responses)
              == Analytics(qs, responses) + (if IsChoice(q) then [Analyze(q, responses)] else [])
  {
    assert (qs + [q])[..|qs|] == qs;
    assert ChoiceQuestions(qs + [q]) == ChoiceQuestions(qs) + (if IsChoice(q) then [q] else []);
  }

  /**
   * The reported questions are the choice questions, each exactly once and
   * in form order: filtering distributes over concatenation and keeps
   * exactly the choice questions.
   */
  lemma {:induction false} ChoiceQuestionsInOrder(a: seq<Question>, b: seq<Question>)
    ensures ChoiceQuestions(a + b) == ChoiceQuestions(a) + ChoiceQuestions(b)
  {
    if b == [] {
      assert a + b == a;
    } else {
      var n := |b| - 1;
      ChoiceQuestionsInOrder(a, b[..n]);
      assert (a + b)[..|a + b| - 1] == a + b[..n];
      assert (a + b)[|a + b| - 1] == b[n];
    }
  }

  lemma {:induction false} ChoiceQuestionsMembers(qs: seq<Question>)
    ensures forall q :: q in ChoiceQuestions(qs) <==> q in qs && IsChoice(q)
  {
    if qs != [] {
      var n := |qs| - 1;
      ChoiceQuestionsMembers(qs[..n]);
      assert forall q :: q in qs <==> q in qs[..n] || q == qs[n];
    }
  }

  /**
   * Every figure of a reported question is bounded: no more answers than
   * responses, no count above the answers, every percentage and the
   * response rate within 0..100, and all of them 0 without responses.
   */
  lemma StatsBounded(q: Question, responses: seq<FR.Response>)
    ensures var s := Analyze(q, responses);
      && s.totalAnswers <= |responses|
      && s.responseRate <= 100
      && |s.options| == |ChoiceOptions(q)|
      && (forall i :: 0 <= i < |s.options| ==>
            && s.options[i].option == ChoiceOptions(q)[i]
            && s.options[i].count <= s.totalAnswers
            && s.options[i].percentage <= 100)
      && (responses == [] ==> s.responseRate == 0 && forall i :: 0 <= i < |s.options| ==> s.options[i].percentage == 0)
  {
    var s := Analyze(q, responses);
    RoundPercentBounded(s.totalAnswers, |responses|);
    forall i | 0 <= i < |s.options|
      ensures s.options[i].percentage <= 100
    {
      RoundPercentBounded(s.options[i].count, |responses|);
    }
  }

  /** The counts of a reported question never add up to more than its answers. */
  lemma CountsWithinAnswers(q: Question, responses: seq<FR.Response>)
    requires q.questionType == "mcq" ==> Distinct(q.options)
    ensures SumCounts(QuestionAnswers(responses, q.questionText), q.questionType, ChoiceOptions(q))
              <= Analyze(q, responses).totalAnswers
  {
    ChoiceOptionsExclusive(q);
    SumCountsAtMostAnswers(QuestionAnswers(responses, q.questionText), q.questionType, ChoiceOptions(q));
  }

  /** Four sample responses: three answer "Satisfied?" with "yes", "Yes" and "No", one answers another question. */
  function SampleResponses(): seq<FR.Response> {
    [FR.Response("f", [FR.AnswerEntry("Satisfied?", "yes")], "a", 0),
     FR.Response("f", [FR.AnswerEntry("Satisfied?", "Yes")], "b", 0),
     FR.Response("f", [FR.AnswerEntry("Satisfied?", "No")], "c", 0),
     FR.Response("f", [FR.AnswerEntry("Other", "x")], "d", 0)]
  }

  /** The response that answers another question contributes no answer. */
  lemma SampleAnswers()
    ensures QuestionAnswers(SampleResponses(), "Satisfied?") == ["yes", "Yes", "No"]
  {
    var t := "Satisfied?";
    var rs := SampleResponses();
    assert AnswerOf(rs[0], t) == Some("yes");
    assert AnswerOf(rs[1], t) == Some("Yes");
    assert AnswerOf(rs[2], t) == Some("No");
    assert "Other" != t;
    assert AnswerOf(rs[3], t) == None;
    assert rs[..1][..0] == [] && rs[..2][..1] == rs[..1] && rs[..3][..2] == rs[..2] && rs[..4][..3] == rs[..3];
    assert QuestionAnswers(rs[..1], t) == ["yes"];
    assert QuestionAnswers(rs[..2], t) == ["yes", "Yes"];
    assert QuestionAnswers(rs[..3], t) == ["yes", "Yes", "No"];
    assert rs[..4] == rs;
  }

  /** "yes" and "Yes" both count for the option "Yes"; "No" counts for "No". */
  lemma SampleCounts()
    ensures CountMatches(["yes", "Yes", "No"], "yesno", "Yes") == 2
    ensures CountMatches(["yes", "Yes", "No"], "yesno", "No") == 1
  {
    var answers := ["yes", "Yes", "No"];
    assert answers[..2] == ["yes", "Yes"] && answers[..2][..1] == ["yes"] && answers[..1][..0] == [];
    assert ToLower("yes") == "yes" && ToLower("Yes") == "yes" && ToLower("No") == "no";
    assert CountMatches(answers[..1], "yesno", "Yes") == 1;
    assert CountMatches(answers[..2], "yesno", "Yes") == 2;
    assert CountMatches(answers[..1], "yesno", "No") == 0;
    assert CountMatches(answers[..2], "yesno", "No") == 0;
  }

  /**
   * The yes/no question over the sample: two "Yes" (50%), one "No" (25%),
   * three answers out of four responses (75%).
   */
  lemma YesNoExample()
    ensures Analyze(Question("Satisfied?", "yesno", [], true, 0), SampleResponses())
              == QuestionStats("Satisfied?", "yesno", [OptionStat("Yes", 2, 50), OptionStat("No", 1, 25)], 3, 75)
  {
    SampleAnswers();
    SampleCounts();
  }

  // ---------------------------------------------------------------------------
  // getFormAnalyticsForAdmin
  // ---------------------------------------------------------------------------

  datatype FormDetails = FormDetails(
    title: string,
    description: string,
    isActive: bool,
    createdAt: int,
    expiresAt: Option<int>,
    totalResponses: nat)

  /** One entry of `allResponses`. */
  datatype ResponseView = ResponseView(submittedBy: string, submittedAt: int, answers: seq<FR.AnswerEntry>)

  datatype Report = Report(details: FormDetails, analytics: seq<QuestionStats>, allResponses: seq<ResponseView>)

  datatype AnalyticsResult =
    | InvalidFormIdFormat   // 400 "Invalid form ID format"
    | FormMissing           // 404 "Form not found"
    | Unauthorized          // 403 "Unauthorized access to form data"
    | Delivered(report: Report)

  /** A response as listed: a missing submitter shows as "Anonymous". */
  function View(r: FR.Response): ResponseView {
    ResponseView(if r.submittedBy == [] then "Anonymous" else r.submittedBy, r.submittedAt, r.answers)
  }

  /** `getFormAnalyticsForAdmin` for admin `adminId` over the two collections. */
  function AnalyticsForAdmin(forms: seq<Form>, responses: seq<FR.Response>, formId: string, validId: bool,
                             adminId: string): AnalyticsResult
  {
    if !validId then InvalidFormIdFormat
    else match IndexOf(forms, formId)
      case None => FormMissing
      case Some(i) =>
        var form := forms[i];
        if form.adminId != adminId then Unauthorized
        else
          var mine := FR.ResponsesFor(responses, formId);
          Delivered(Report(
            FormDetails(form.title, form.description, form.isActive, form.createdAt, form.expiresAt, |mine|),
            Analytics(form.questions, mine),
            seq(|mine|, k requires 0 <= k < |mine| => View(mine[k]))))
  }

  /**
   * A report is delivered only to the owning admin, and it covers exactly
   * the form's responses: the response count, one listed response per
   * response with a non-empty submitter, and one entry per choice question.
   */
  lemma ReportDescribesForm(forms: seq<Form>, responses: seq<FR.Response>, formId: string, validId: bool,
                            adminId: string)
    ensures var out := AnalyticsForAdmin(forms, responses, formId, validId, adminId);
      out.Delivered? ==>
        && validId && IndexOf(forms, formId).Some?
        && forms[IndexOf(forms, formId).value].adminId == adminId
        && out.report.details.totalResponses == |FR.ResponsesFor(responses, formId)|
        && |out.report.allResponses| == |FR.ResponsesFor(responses, formId)|
        && (forall k :: 0 <= k < |out.report.allResponses| ==> out.report.allResponses[k].submittedBy != [])
        && |out.report.analytics| == |ChoiceQuestions(forms[IndexOf(forms, formId).value].questions)|
  {
  }
}
