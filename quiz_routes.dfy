/**
 * The question routes: `GET /` lists the stored questions, optionally only
 * those of one language; `POST /add` checks and normalises one question;
 * `POST /add-multiple` checks a whole batch, rejects all of it if any entry
 * fails, and otherwise normalises every entry before inserting them.
 */
module QuizRoutes {
  import opened Json
  import opened Text
  import opened QuestionSchema

  // ------------------------------------------------------------ the checks

  /**
   * The per-question test of both POST routes: `language` and `questionText`
   * truthy, `options` an array of at least two elements, `correctAnswer` a number.
   */
  predicate Acceptable(q: Value)
    requires !IsNullish(q)
  {
    && Truthy(Member(q, "language"))
    && Truthy(Member(q, "questionText"))
    && Member(q, "options").Arr? && |Member(q, "options").items| >= 2
    && Member(q, "correctAnswer").Num?
  }

  /** Only an object has the four members the test asks for. */
  lemma AcceptableIsObject(q: Value)
    requires !IsNullish(q) && Acceptable(q)
    ensures q.Obj?
    ensures "language" in q.fields && "questionText" in q.fields && "options" in q.fields && "correctAnswer" in q.fields
  {
  }

  /** Normalisation calls `trim()` on both texts, which only a string has. */
  predicate Normalisable(q: Value) {
    q.Obj? && Field(q.fields, "language").Str? && Field(q.fields, "questionText").Str?
  }

  // --------------------------------------------------------------- POST /add

  /** The document `POST /add` hands to `Question.create`: the four fields, the texts normalised. */
  function NewDocument(body: Value): (doc: map<string, Value>)
    requires Normalisable(body)
    ensures doc.Keys == Required
  {
    Document(TrimLower(body.fields["language"].s), Trim(body.fields["questionText"].s),
             Field(body.fields, "options"), Field(body.fields, "correctAnswer"))
  }

  /** 201 with the stored question, 400 for a failed check, 500 for anything thrown. */
  datatype AddResult = Created(question: StoredQuestion) | BadRequest | ServerError

  function AddQuestion(body: Value): (r: AddResult)
    ensures r.BadRequest? <==> !IsNullish(body) && !Acceptable(body)
    ensures r.Created? ==> !IsNullish(body) && Acceptable(body) && Normalisable(body)
    ensures r.Created? ==> Validate(NewDocument(body)) == Accepted(r.question)
    ensures r.Created? ==> WellFormed(r.question)
    ensures r.Created? ==>
              && r.question.language == TrimLower(TrimLower(body.fields["language"].s))
              && r.question.questionText == Trim(Trim(body.fields["questionText"].s))
    ensures !IsNullish(body) && Acceptable(body) && Normalisable(body) && Validate(NewDocument(body)).Accepted?
            ==> r.Created?
  {
    if IsNullish(body) then ServerError
    else if !Acceptable(body) then BadRequest
    else if !Normalisable(body) then ServerError
    else
      match Validate(NewDocument(body))
      case Accepted(q) => Created(q)
      case Rejected(_) => ServerError
  }

  /** The stored question of `POST /add` is the trimmed, lower-cased language and the trimmed text. */
  lemma AddStoresNormalised(body: Value)
    requires AddQuestion(body).Created?
    ensures var q := AddQuestion(body).question;
            && q.language == TrimLower(body.fields["language"].s)
            && q.questionText == Trim(body.fields["questionText"].s)
            && q.options == Strings(body.fields["options"].items)
            && q.correctAnswer == body.fields["correctAnswer"].n
  {
    var s := body.fields["language"].s;
    var t := body.fields["questionText"].s;
    TrimIdempotent(t);
    TrimLowerIdempotent(s);
  }

  // ------------------------------------------------------ POST /add-multiple

  predicate NoNullish(items: seq<Value>) {
    forall k :: 0 <= k < |items| ==> !IsNullish(items[k])
  }

  /** `questions.filter(...)` with the negated test: the failing entries, in order. */
  function Invalids(items: seq<Value>): (bad: seq<Value>)
    requires NoNullish(items)
    ensures |bad| <= |items|
    ensures forall k :: 0 <= k < |bad| ==> !IsNullish(bad[k]) && !Acceptable(bad[k])
  {
    if items == [] then []
    else
      var last := items[|items| - 1];
      Invalids(items[..|items| - 1]) + (if Acceptable(last) then [] else [last])
  }

  /** The positions of the failing entries. */
  ghost function InvalidPositions(items: seq<Value>): set<int>
    requires NoNullish(items)
  {
    set k | 0 <= k < |items| && !Acceptable(items[k])
  }

  /** `invalidCount` counts every failing entry. */
  lemma {:induction false} InvalidCount(items: seq<Value>)
    requires NoNullish(items)
    ensures |Invalids(items)| == |InvalidPositions(items)|
  {
    if items != [] {
      var n := |items| - 1;
      var init := items[..n];
      InvalidCount(init);
      var all, before := InvalidPositions(items), InvalidPositions(init);
      assert forall k :: 0 <= k < n ==> init[k] == items[k];
      assert forall k :: k in all <==> k in before || (k == n && !Acceptable(items[n]));
      assert n !in before;
      if Acceptable(items[n]) {
        assert all == before;
      } else {
        assert all == before + {n};
      }
    }
  }

  /** An entry is among the failing ones exactly when it is an entry and fails the test. */
  lemma {:induction false} InvalidsMembers(items: seq<Value>, v: Value)
    requires NoNullish(items)
    ensures v in Invalids(items) <==> v in items && !IsNullish(v) && !Acceptable(v)
  {
    if items != [] {
      var n := |items| - 1;
      InvalidsMembers(items[..n], v);
      assert items == items[..n] + [items[n]];
    }
  }

  /** The parts of a concatenation without null entries have none either. */
  lemma NoNullishParts(a: seq<Value>, b: seq<Value>)
    requires NoNullish(a + b)
    ensures NoNullish(a) && NoNullish(b)
  {
    assert forall k :: 0 <= k < |a| ==> (a + b)[k] == a[k];
    assert forall k :: 0 <= k < |b| ==> (a + b)[|a| + k] == b[k];
  }

  /** Filtering a concatenation filters each part and keeps their order. */
  lemma {:induction false} InvalidsAppend(a: seq<Value>, b: seq<Value>)
    requires NoNullish(a + b)
    ensures NoNullish(a) && NoNullish(b)
    ensures Invalids(a + b) == Invalids(a) + Invalids(b)
  {
    NoNullishParts(a, b);
    if b == [] {
      assert a + b == a;
    } else {
      var n := |b| - 1;
      var init, last := b[..n], b[n];
      var ab := a + b;
      assert ab[..|ab| - 1] == a + init && ab[|ab| - 1] == last;
      NoNullishParts(a + init, [last]);
      InvalidsAppend(a, init);
    }
  }

  /** No failing entry means no failing position. */
  lemma NoInvalids(items: seq<Value>)
    requires NoNullish(items)
    ensures Invalids(items) == [] <==> forall k :: 0 <= k < |items| ==> Acceptable(items[k])
  {
    InvalidCount(items);
    if exists k :: 0 <= k < |items| && !Acceptable(items[k]) {
      var k :| 0 <= k < |items| && !Acceptable(items[k]);
      assert k in InvalidPositions(items);
    } else {
      assert InvalidPositions(items) == {};
    }
  }

  /** `{...fields, language, questionText}`: the two texts replaced, every other field kept. */
  function WithTexts(fields: map<string, Value>, language: string, questionText: string): (f: map<string, Value>)
    ensures f.Keys == fields.Keys + {"language", "questionText"}
    ensures f["language"] == Str(language) && f["questionText"] == Str(questionText)
    ensures forall key :: key in fields && key != "language" && key != "questionText" ==> f[key] == fields[key]
  {
    fields["language" := Str(language)]["questionText" := Str(questionText)]
  }

  /** `{...q, language: q.language.trim().toLowerCase(), questionText: q.questionText.trim()}`. */
  function Formatted(q: Value): (f: map<string, Value>)
    requires Normalisable(q)
    ensures f.Keys == q.fields.Keys
  {
    WithTexts(q.fields, TrimLower(q.fields["language"].s), Trim(q.fields["questionText"].s))
  }

  /**
   * NORMALISATION. Formatting an entry keeps all of its fields, lower-cases and
   * trims `language`, trims `questionText`, and changes nothing else.
   */
  lemma FormattedChangesOnlyTexts(q: Value)
    requires Normalisable(q)
    ensures Formatted(q).Keys == q.fields.Keys
    ensures Formatted(q)["language"] == Str(TrimLower(q.fields["language"].s))
    ensures Formatted(q)["questionText"] == Str(Trim(q.fields["questionText"].s))
    ensures forall key :: key in q.fields && key != "language" && key != "questionText" ==> Formatted(q)[key] == q.fields[key]
  {
  }

  predicate AllNormalisable(items: seq<Value>) {
    forall k :: 0 <= k < |items| ==> Normalisable(items[k])
  }

  /** `questions.map(...)`: one formatted document per entry, in order. */
  function FormatAll(items: seq<Value>): (docs: seq<map<string, Value>>)
    requires AllNormalisable(items)
    ensures |docs| == |items|
    ensures forall k :: 0 <= k < |items| ==> docs[k] == Formatted(items[k])
  {
    if items == [] then [] else [Formatted(items[0])] + FormatAll(items[1..])
  }

  predicate AllAccepted(docs: seq<map<string, Value>>) {
    forall k :: 0 <= k < |docs| ==> Validate(docs[k]).Accepted?
  }

  /** The stored questions of documents all of which validate. */
  function StoredAll(docs: seq<map<string, Value>>): (qs: seq<StoredQuestion>)
    requires AllAccepted(docs)
    ensures |qs| == |docs|
    ensures forall k :: 0 <= k < |docs| ==> Validate(docs[k]) == Accepted(qs[k])
  {
    if docs == [] then [] else [Validate(docs[0]).stored] + StoredAll(docs[1..])
  }

  function Min(a: int, b: int): (m: int)
    ensures m <= a && m <= b && (m == a || m == b)
  {
    if a <= b then a else b
  }

  /**
   * 201 with the inserted questions; 400 for a missing or empty array; 400
   * with the count and the first two failing entries; 500 for anything thrown,
   * a validation error of the insert included.
   */
  datatype BatchResult =
    | Inserted(questions: seq<StoredQuestion>)
    | MissingQuestions
    | InvalidEntries(invalidCount: nat, invalidExamples: seq<Value>)
    | BatchServerError

  /** `req.body.questions`. */
  function Batch(body: Value): (qs: Value)
    requires !IsNullish(body)
    ensures body.Obj? && "questions" in body.fields ==> qs == body.fields["questions"]
  {
    Member(body, "questions")
  }

  /** What a non-empty array of entries leads to, once `questions` has passed its own check. */
  function InsertBatch(items: seq<Value>): (r: BatchResult)
    requires items != []
    ensures !r.MissingQuestions?
    ensures r.InvalidEntries? <==> NoNullish(items) && Invalids(items) != []
    ensures r.InvalidEntries? ==>
              var bad := Invalids(items);
              r.invalidCount == |bad| && r.invalidExamples == bad[..Min(2, |bad|)]
    ensures r.Inserted? ==>
              && NoNullish(items) && Invalids(items) == [] && AllNormalisable(items)
              && AllAccepted(FormatAll(items)) && r.questions == StoredAll(FormatAll(items))
    ensures NoNullish(items) && Invalids(items) == [] && AllNormalisable(items) && AllAccepted(FormatAll(items))
            ==> r.Inserted?
  {
    if !NoNullish(items) then BatchServerError
    else
      var bad := Invalids(items);
      if |bad| > 0 then InvalidEntries(|bad|, bad[..Min(2, |bad|)])
      else if !AllNormalisable(items) then BatchServerError
      else
        var docs := FormatAll(items);
        if AllAccepted(docs) then Inserted(StoredAll(docs)) else BatchServerError
  }

  function AddMultiple(body: Value): (r: BatchResult)
    ensures r.MissingQuestions? <==> !IsNullish(body) && !(Batch(body).Arr? && |Batch(body).items| > 0)
    ensures !IsNullish(body) && Batch(body).Arr? && |Batch(body).items| > 0 ==> r == InsertBatch(Batch(body).items)
    ensures IsNullish(body) ==> r.BatchServerError?
  {
    if IsNullish(body) then BatchServerError
    else
      var qs := Batch(body);
      if !Truthy(qs) || !qs.Arr? || |qs.items| == 0 then MissingQuestions
      else InsertBatch(qs.items)
  }

  /**
   * An inserted batch is every entry, each passing the check, normalised and
   * stored by the schema, in order.
   */
  lemma InsertedBatch(items: seq<Value>)
    requires items != [] && InsertBatch(items).Inserted?
    ensures |InsertBatch(items).questions| == |items|
    ensures forall k :: 0 <= k < |items| ==> !IsNullish(items[k]) && Acceptable(items[k])
    ensures forall k :: 0 <= k < |items| ==> Validate(Formatted(items[k])) == Accepted(InsertBatch(items).questions[k])
  {
    NoInvalids(items);
  }

  /** ALL OR NOTHING. One failing entry in a batch without null entries rejects the whole batch. */
  lemma OneInvalidRejectsBatch(items: seq<Value>, k: int)
    requires NoNullish(items)
    requires 0 <= k < |items| && !Acceptable(items[k])
    ensures InsertBatch(items).InvalidEntries?
    ensures InsertBatch(items).invalidCount == |InvalidPositions(items)|
  {
    NoInvalids(items);
    InvalidCount(items);
  }

  /** The first failing entry heads the failing entries: every entry before it passes. */
  lemma {:induction false} FirstInvalid(items: seq<Value>)
    requires NoNullish(items) && Invalids(items) != []
    ensures exists k :: 0 <= k < |items| && Invalids(items)[0] == items[k] && !Acceptable(items[k])
                        && forall j :: 0 <= j < k ==> Acceptable(items[j])
  {
    var n := |items| - 1;
    var init := items[..n];
    assert forall j :: 0 <= j < n ==> init[j] == items[j];
    if Invalids(init) != [] {
      FirstInvalid(init);
      var k :| 0 <= k < |init| && Invalids(init)[0] == init[k] && !Acceptable(init[k])
               && forall j :: 0 <= j < k ==> Acceptable(init[j]);
      assert Invalids(items)[0] == items[k];
    } else {
      NoInvalids(init);
      assert Invalids(items)[0] == items[n];
    }
  }

  /** The first example reported is the first failing entry of the batch. */
  lemma FirstInvalidReported(items: seq<Value>)
    requires items != [] && InsertBatch(items).InvalidEntries?
    ensures exists k :: 0 <= k < |items| && InsertBatch(items).invalidExamples[0] == items[k] && !Acceptable(items[k])
                        && forall j :: 0 <= j < k ==> Acceptable(items[j])
  {
    FirstInvalid(items);
  }

  /**
   * The check does not look at `createdBy`, and the spread keeps it: an entry
   * whose `createdBy` is not an `ObjectId` passes the check and then makes the
   * insert fail, so the whole batch is a server error.
   */
  lemma MalformedCreatedByFailsBatch(items: seq<Value>, k: int)
    requires NoNullish(items) && AllNormalisable(items)
    requires forall j :: 0 <= j < |items| ==> Acceptable(items[j])
    requires 0 <= k < |items| && "createdBy" in items[k].fields && !CreatedByOk(items[k].fields["createdBy"])
    ensures InsertBatch(items).BatchServerError?
  {
    NoInvalids(items);
    var doc := FormatAll(items)[k];
    FormattedChangesOnlyTexts(items[k]);
    assert doc["createdBy"] == items[k].fields["createdBy"];
    MalformedCreatedByRejected(doc);
  }

  /**
   * The check tests truthiness before trimming: a question text of white space
   * only passes it, becomes `""`, and is then refused by the schema, so the
   * insert fails as a server error.
   */
  lemma BlankTextPassesCheck(q: Value)
    requires !IsNullish(q) && Acceptable(q) && Normalisable(q)
    requires q.fields["questionText"].s != [] && AllSpace(q.fields["questionText"].s)
    ensures Formatted(q)["questionText"] == Str([])
    ensures Validate(Formatted(q)).Rejected? && "questionText" in Validate(Formatted(q)).paths
  {
    BlankIsAllSpace(q.fields["questionText"].s);
  }

  /** The same for `POST /add`: a question text of white space only gives a server error, not a 400. */
  lemma BlankTextAddFails(body: Value)
    requires !IsNullish(body) && Acceptable(body) && Normalisable(body)
    requires AllSpace(body.fields["questionText"].s)
    ensures AddQuestion(body).ServerError?
  {
    BlankIsAllSpace(body.fields["questionText"].s);
    assert Field(NewDocument(body), "questionText") == Str([]);
  }

  // ------------------------------------------------------------------- GET /

  /** `{$regex: "^" + wanted + "$", $options: "i"}` for a `wanted` without regex syntax. */
  predicate SameLanguageIgnoringCase(stored: string, wanted: string) {
    ToLower(stored) == ToLower(wanted)
  }

  /** The stored questions whose language matches, in store order. */
  function WithLanguage(db: seq<StoredQuestion>, wanted: string): (found: seq<StoredQuestion>)
    ensures |found| <= |db|
    ensures forall k :: 0 <= k < |found| ==> found[k] in db && SameLanguageIgnoringCase(found[k].language, wanted)
  {
    if db == [] then []
    else (if SameLanguageIgnoringCase(db[0].language, wanted) then [db[0]] else []) + WithLanguage(db[1..], wanted)
  }

  lemma {:induction false} WithLanguageMembers(db: seq<StoredQuestion>, wanted: string, q: StoredQuestion)
    ensures q in WithLanguage(db, wanted) <==> q in db && SameLanguageIgnoringCase(q.language, wanted)
  {
    if db != [] {
      WithLanguageMembers(db[1..], wanted, q);
      assert db == [db[0]] + db[1..];
    }
  }

  /** 200 with the count, 404 with a message for an empty result, 500 for anything thrown. */
  datatype ListResult = Listed(count: nat, data: seq<StoredQuestion>) | NotFound(message: string) | ListServerError

  /** The questions `GET /` selects for the `language` query parameter. */
  function Selected(language: Value, db: seq<StoredQuestion>): (found: seq<StoredQuestion>)
    requires !Truthy(language) || language.Str?
    ensures |found| <= |db|
    ensures !Truthy(language) ==> found == db
    ensures Truthy(language) ==>
              forall k :: 0 <= k < |found| ==> found[k] in db && SameLanguageIgnoringCase(found[k].language, Trim(language.s))
  {
    if Truthy(language) then WithLanguage(db, Trim(language.s)) else db
  }

  function ListQuestions(language: Value, db: seq<StoredQuestion>): (r: ListResult)
    ensures r.ListServerError? <==> Truthy(language) && !language.Str?
    ensures r.NotFound? <==> (!Truthy(language) || language.Str?) && Selected(language, db) == []
    ensures r.Listed? ==> r.count == |r.data| > 0 && r.data == Selected(language, db)
    ensures r.NotFound? ==>
              r.message == "No questions found for language \"" + (if Truthy(language) then language.s else "all") + "\"."
  {
    if Truthy(language) && !language.Str? then ListServerError
    else
      var found := Selected(language, db);
      if |found| == 0 then
        NotFound("No questions found for language \"" + (if Truthy(language) then language.s else "all") + "\".")
      else
        Listed(|found|, found)
  }

  /** Without a language every stored question is listed. */
  lemma ListAllWithoutLanguage(db: seq<StoredQuestion>)
    requires db != []
    ensures ListQuestions(Undefined, db) == Listed(|db|, db)
    ensures ListQuestions(Str([]), db) == Listed(|db|, db)
  {
  }

  /** No stored language is empty, so the empty pattern matches none. */
  lemma {:induction false} NothingHasEmptyLanguage(db: seq<StoredQuestion>)
    requires forall k :: 0 <= k < |db| ==> WellFormed(db[k])
    ensures WithLanguage(db, []) == []
  {
    if db != [] {
      assert |ToLower(db[0].language)| > 0;
      NothingHasEmptyLanguage(db[1..]);
    }
  }

  /** A language of white space only is truthy, trims to the empty pattern and finds no stored question. */
  lemma BlankLanguageFindsNothing(db: seq<StoredQuestion>, s: string)
    requires forall k :: 0 <= k < |db| ==> WellFormed(db[k])
    requires s != [] && AllSpace(s)
    ensures ListQuestions(Str(s), db).NotFound?
  {
    BlankIsAllSpace(s);
    NothingHasEmptyLanguage(db);
    assert Selected(Str(s), db) == WithLanguage(db, Trim(s)) == [];
  }
}
