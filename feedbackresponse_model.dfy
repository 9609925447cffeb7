/**
 * The stored response (server/models/feedbackresponse.model.js) and the
 * response collection, whose unique index on `submittedBy` spans the whole
 * collection rather than one form.
 */
module FeedbackResponseModel {

  datatype AnswerEntry = AnswerEntry(questionText: string, answer: string)

  datatype Response = Response(
    feedbackFormId: string,
    answers: seq<AnswerEntry>,
    submittedBy: string,
    submittedAt: int)

  /**
   * The schema's required paths: the form id, and in every answer entry both
   * `questionText` and `answer` (a required string must not be empty).
   */
  predicate ResponseSatisfiesSchema(r: Response) {
    && r.feedbackFormId != []
    && forall e :: e in r.answers ==> e.questionText != [] && e.answer != []
  }

  /** The unique index: no two responses share a `submittedBy`, whichever forms they answer. */
  predicate SubmittersUnique(docs: seq<Response>) {
    forall i, j :: 0 <= i < j < |docs| ==> docs[i].submittedBy != docs[j].submittedBy
  }

  /** No stored response carries `submittedBy`. */
  predicate SubmitterFree(docs: seq<Response>, submittedBy: string) {
    forall i :: 0 <= i < |docs| ==> docs[i].submittedBy != submittedBy
  }

  /** The forms that `submittedBy` has responded to. */
  function FormsAnsweredBy(docs: seq<Response>, submittedBy: string): set<string> {
    set i | 0 <= i < |docs| && docs[i].submittedBy == submittedBy :: docs[i].feedbackFormId
  }

  /**
   * Under the unique index one identifier answers at most one form, through
   * a single stored response.
   */
  lemma OneFormPerSubmitter(docs: seq<Response>, submittedBy: string)
    requires SubmittersUnique(docs)
    ensures |FormsAnsweredBy(docs, submittedBy)| <= 1
    ensures forall i :: 0 <= i < |docs| && docs[i].submittedBy == submittedBy ==>
              FormsAnsweredBy(docs, submittedBy) == {docs[i].feedbackFormId}
  {
    if i :| 0 <= i < |docs| && docs[i].submittedBy == submittedBy {
      forall j | 0 <= j < |docs| && docs[j].submittedBy == submittedBy
        ensures j == i
      {
      }
      assert FormsAnsweredBy(docs, submittedBy) == {docs[i].feedbackFormId};
    } else {
      assert FormsAnsweredBy(docs, submittedBy) == {};
    }
  }

  /** `FeedbackResponseModel.find({ feedbackFormId: formId })`. */
  function ResponsesFor(responses: seq<Response>, formId: string): (r: seq<Response>)
    ensures |r| <= |responses|
  {
    if responses == [] then []
    else
      var last := responses[|responses| - 1];
      ResponsesFor(responses[..|responses| - 1], formId) + (if last.feedbackFormId == formId then [last] else [])
  }

  lemma {:induction false} ResponsesForMembers(responses: seq<Response>, formId: string)
    ensures forall r :: r in ResponsesFor(responses, formId) <==> r in responses && r.feedbackFormId == formId
  {
    if responses != [] {
      var n := |responses| - 1;
      ResponsesForMembers(responses[..n], formId);
      assert forall r :: r in responses <==> r in responses[..n] || r == responses[n];
    }
  }

  datatype InsertResult = Inserted | SchemaViolation | DuplicateKey

  /** The response collection: documents in insertion order. */
  class ResponseCollection {
    var docs: seq<Response>

    ghost predicate Valid()
      reads this
    {
      && SubmittersUnique(docs)
      && forall r :: r in docs ==> ResponseSatisfiesSchema(r)
    }

    constructor ()
      ensures Valid() && docs == []
    {
      docs := [];
    }

    /** `findOne({feedbackFormId, submittedBy})`: is there such a response? */
    method FindOne(feedbackFormId: string, submittedBy: string) returns (found: bool)
      ensures found <==> exists i :: 0 <= i < |docs| && docs[i].feedbackFormId == feedbackFormId
                                                      && docs[i].submittedBy == submittedBy
    {
      var i := 0;
      while i < |docs|
        invariant 0 <= i <= |docs|
        invariant forall k :: 0 <= k < i ==> !(docs[k].feedbackFormId == feedbackFormId
                                               && docs[k].submittedBy == submittedBy)
      {
        if docs[i].feedbackFormId == feedbackFormId && docs[i].submittedBy == submittedBy {
          return true;
        }
        i := i + 1;
      }
      return false;
    }

    /**
     * `save()` of a new response: Mongoose validation first, then the unique
     * index (error 11000); the document is appended only when both pass.
     */
    method Insert(r: Response) returns (result: InsertResult)
      requires Valid()
      modifies this
      ensures Valid()
      ensures result == (if !ResponseSatisfiesSchema(r) then SchemaViolation
                         else if !SubmitterFree(old(docs), r.submittedBy) then DuplicateKey
                         else Inserted)
      ensures docs == if result == Inserted then old(docs) + [r] else old(docs)
    {
      if !ResponseSatisfiesSchema(r) {
        return SchemaViolation;
      }
      var i := 0;
      while i < |docs|
        invariant 0 <= i <= |docs|
        invariant forall k :: 0 <= k < i ==> docs[k].submittedBy != r.submittedBy
      {
        if docs[i].submittedBy == r.submittedBy {
          return DuplicateKey;
        }
        i := i + 1;
      }
      docs := docs + [r];
      result := Inserted;
    }
  }
}
