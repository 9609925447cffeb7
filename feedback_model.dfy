/**
 * The stored feedback form (server/models/feedback.model.js): the document
 * shape, the schema's validators and defaults, the pre-save hook, and the
 * form collection as an in-memory sequence of documents.
 */
module FeedbackModel {
  import opened Wrappers
  import opened JsText

  /** The `questionType` enum. */
  const QuestionTypes: seq<string> := ["text", "mcq", "yesno"]

  /** Schema `maxlength` limits (looser than the controller's). */
  const SchemaMaxTitle := 200
  const SchemaMaxDescription := 1000
  const SchemaMaxQuestionText := 500

  /** A stored question; `order` is a schema field the controller never sets (default 0). */
  datatype Question = Question(
    questionText: string,
    questionType: string,
    options: seq<string>,
    isRequired: bool,
    order: int)

  /** A form document; times are integers, `expiresAt` None is `null`. */
  datatype Form = Form(
    id: string,
    adminId: string,
    title: string,
    description: string,
    questions: seq<Question>,
    isActive: bool,
    expiresAt: Option<int>,
    createdAt: int,
    updatedAt: int)

  /** The custom `options` validator: MCQ needs 2 to 10 options, every other type none. */
  predicate OptionsAccepted(questionType: string, options: Option<seq<string>>) {
    if questionType == "mcq" then options.Some? && 2 <= |options.value| <= 10
    else options.None? || |options.value| == 0
  }

  /**
   * What Mongoose checks of a question: the trimmed text is present (a
   * required string must not be empty) and within `maxlength`, the type is in
   * the enum, and the options validator passes.
   */
  predicate QuestionSatisfiesSchema(q: Question) {
    && Trim(q.questionText) != []
    && |Trim(q.questionText)| <= SchemaMaxQuestionText
    && q.questionType in QuestionTypes
    && OptionsAccepted(q.questionType, Some(q.options))
  }

  predicate FormSatisfiesSchema(f: Form) {
    && f.adminId != []
    && Trim(f.title) != []
    && |Trim(f.title)| <= SchemaMaxTitle
    && |Trim(f.description)| <= SchemaMaxDescription
    && forall q :: q in f.questions ==> QuestionSatisfiesSchema(q)
  }

  /** A question sub-document as built from its fields: the `trim` setter on the text, `order` defaulting to 0. */
  function NewQuestion(questionText: string, questionType: string, options: seq<string>, isRequired: bool): Question {
    Question(Trim(questionText), questionType, options, isRequired, 0)
  }

  /**
   * A new document: the `trim` setters on title and description, the schema's
   * defaults (active, created and updated at `now`).
   */
  function NewForm(id: string, adminId: string, title: string, description: string,
                   questions: seq<Question>, expiresAt: Option<int>, now: int): Form
  {
    Form(id, adminId, Trim(title), Trim(description), questions, true, expiresAt, now, now)
  }

  /** The pre-save hook: every save sets `updatedAt` to the current time and touches nothing else. */
  function PreSave(f: Form, now: int): (g: Form)
    ensures g.updatedAt == now
    ensures g.(updatedAt := f.updatedAt) == f
  {
    f.(updatedAt := now)
  }

  /** The pre-save hook leaves what the schema checks alone. */
  lemma PreSaveKeepsSchema(f: Form, now: int)
    ensures FormSatisfiesSchema(PreSave(f, now)) <==> FormSatisfiesSchema(f)
  {
  }

  /** Document ids are unique within the collection. */
  predicate UniqueIds(docs: seq<Form>) {
    forall i, j :: 0 <= i < j < |docs| ==> docs[i].id != docs[j].id
  }

  /** `findById`: the position of the document with id `id`, if there is one. */
  function IndexOf(docs: seq<Form>, id: string): (r: Option<nat>)
    ensures r.Some? ==> r.value < |docs| && docs[r.value].id == id
    ensures r.Some? ==> forall i :: 0 <= i < r.value ==> docs[i].id != id
    ensures r.None? ==> forall i :: 0 <= i < |docs| ==> docs[i].id != id
  {
    if docs == [] then None
    else if docs[0].id == id then Some(0)
    else match IndexOf(docs[1..], id)
      case None => None
      case Some(k) => Some(k + 1)
  }

  /** The first document with id `id` is the one `IndexOf` finds. */
  lemma {:induction false} IndexOfFirst(docs: seq<Form>, id: string, k: nat)
    requires k < |docs| && docs[k].id == id
    requires forall j :: 0 <= j < k ==> docs[j].id != id
    ensures IndexOf(docs, id) == Some(k)
  {
    if k > 0 {
      IndexOfFirst(docs[1..], id, k - 1);
    }
  }

  /** `findByIdAndDelete`: every document except the one with id `id`, in order. */
  function RemoveId(docs: seq<Form>, id: string): (r: seq<Form>)
    ensures |r| <= |docs|
  {
    if docs == [] then []
    else (if docs[0].id == id then [] else [docs[0]]) + RemoveId(docs[1..], id)
  }

  /** A document survives the removal exactly when its id is not the removed one. */
  lemma {:induction false} RemoveIdMembers(docs: seq<Form>, id: string)
    ensures forall f :: f in RemoveId(docs, id) <==> f in docs && f.id != id
  {
    if docs != [] {
      RemoveIdMembers(docs[1..], id);
      assert forall f :: f in docs <==> f == docs[0] || f in docs[1..];
    }
  }

  lemma {:induction false} RemoveIdKeepsUnique(docs: seq<Form>, id: string)
    requires UniqueIds(docs)
    ensures UniqueIds(RemoveId(docs, id))
  {
    if docs != [] {
      var rest := docs[1..];
      assert UniqueIds(rest) by {
        forall i, j | 0 <= i < j < |rest| ensures rest[i].id != rest[j].id {
          assert rest[i] == docs[i + 1] && rest[j] == docs[j + 1];
        }
      }
      RemoveIdKeepsUnique(rest, id);
      RemoveIdMembers(rest, id);
      var r := RemoveId(rest, id);
      forall f | f in r ensures f.id != docs[0].id {
        var k :| 0 <= k < |rest| && rest[k] == f;
        assert docs[k + 1] == f;
      }
    }
  }

  /**
   * Removing the id of document `k` from a collection with unique ids
   * removes exactly that document and keeps the others in order.
   */
  lemma {:induction false} RemoveIdPresent(docs: seq<Form>, id: string, k: nat)
    requires UniqueIds(docs) && k < |docs| && docs[k].id == id
    ensures RemoveId(docs, id) == docs[..k] + docs[k + 1..]
    ensures |RemoveId(docs, id)| == |docs| - 1
  {
    var rest := docs[1..];
    var r := RemoveId(docs, id);
    assert r == (if docs[0].id == id then [] else [docs[0]]) + RemoveId(rest, id);
    if k == 0 {
      forall i | 0 <= i < |rest| ensures rest[i].id != id {
        assert rest[i] == docs[i + 1];
      }
      RemoveIdAbsent(rest, id);
      assert r == rest;
    } else {
      assert docs[0].id != id;
      assert UniqueIds(rest) by {
        forall i, j | 0 <= i < j < |rest| ensures rest[i].id != rest[j].id {
          assert rest[i] == docs[i + 1] && rest[j] == docs[j + 1];
        }
      }
      RemoveIdPresent(rest, id, k - 1);
      assert r == [docs[0]] + (rest[..k - 1] + rest[k..]);
      assert docs[..k] == [docs[0]] + rest[..k - 1];
      assert docs[k + 1..] == rest[k..];
    }
  }

  /** Removing an id no document has changes nothing. */
  lemma {:induction false} RemoveIdAbsent(docs: seq<Form>, id: string)
    requires forall i :: 0 <= i < |docs| ==> docs[i].id != id
    ensures RemoveId(docs, id) == docs
  {
    if docs != [] {
      RemoveIdAbsent(docs[1..], id);
    }
  }

  /** The outcome of `save()`: stored, refused by a validator, or refused by the unique `_id` index. */
  datatype SaveResult = Saved | ValidationError | DuplicateKey

  /** The form collection: documents in insertion order. */
  class FormCollection {
    var docs: seq<Form>

    /** Ids are unique and every stored document passed the schema's validators. */
    ghost predicate Valid()
      reads this
    {
      && UniqueIds(docs)
      && forall i :: 0 <= i < |docs| ==> FormSatisfiesSchema(docs[i])
    }

    constructor ()
      ensures Valid() && docs == []
    {
      docs := [];
    }

    /** `findById` as a scan of the collection. */
    method FindById(id: string) returns (r: Option<nat>)
      ensures r == IndexOf(docs, id)
    {
      var i := 0;
      while i < |docs|
        invariant 0 <= i <= |docs|
        invariant forall k :: 0 <= k < i ==> docs[k].id != id
      {
        if docs[i].id == id {
          r := Some(i);
          assert IndexOf(docs, id) == Some(i) by {
            var x := IndexOf(docs, id);
            assert x.Some? && x.value <= i && x.value >= i;
          }
          return;
        }
        i := i + 1;
      }
      r := None;
    }

    /**
     * `save()` of a new document: the validators run first, the pre-save hook
     * stamps `updatedAt`, and the insert fails on an `_id` already present.
     */
    method Insert(f: Form, now: int) returns (result: SaveResult)
      requires Valid()
      modifies this
      ensures Valid()
      ensures result == (if !FormSatisfiesSchema(f) then ValidationError
                         else if IndexOf(old(docs), f.id).Some? then DuplicateKey
                         else Saved)
      ensures docs == if result == Saved then old(docs) + [PreSave(f, now)] else old(docs)
    {
      if !FormSatisfiesSchema(f) {
        return ValidationError;
      }
      var at := FindById(f.id);
      if at.Some? {
        return DuplicateKey;
      }
      PreSaveKeepsSchema(f, now);
      docs := docs + [PreSave(f, now)];
      result := Saved;
    }

    /**
     * `save()` of the document loaded from position `i`, after changing some
     * of its fields: the validators run, then the stamped document replaces
     * the stored one.
     */
    method Update(i: nat, f: Form, now: int) returns (saved: bool)
      requires Valid() && i < |docs| && docs[i].id == f.id
      modifies this
      ensures Valid()
      ensures saved == FormSatisfiesSchema(f)
      ensures docs == if saved then old(docs)[i := PreSave(f, now)] else old(docs)
    {
      if !FormSatisfiesSchema(f) {
        return false;
      }
      PreSaveKeepsSchema(f, now);
      docs := docs[i := PreSave(f, now)];
      saved := true;
    }

    /** `findByIdAndDelete`. */
    method DeleteById(id: string)
      requires Valid()
      modifies this
      ensures Valid()
      ensures docs == RemoveId(old(docs), id)
    {
      RemoveIdKeepsUnique(docs, id);
      RemoveIdMembers(docs, id);
      ghost var before := docs;
      docs := RemoveId(docs, id);
      forall k | 0 <= k < |docs| ensures FormSatisfiesSchema(docs[k]) {
        assert docs[k] in before;
      }
    }
  }
}
