/**
 * The `Question` schema: the setters that trim and lower-case `language` and
 * trim `questionText`, the required checks, the two custom validators (at
 * least two options; an answer index inside the options) and the `toJSON`
 * transform that renames `_id` to `id` and drops `__v`.
 */
module QuestionSchema {
  import opened Json
  import opened Text

  /** A document the schema lets through, after its setters have run. */
  datatype StoredQuestion = StoredQuestion(language: string, questionText: string, options: seq<string>, correctAnswer: real)

  /** The four required paths. */
  const Required: set<string> := {"language", "questionText", "options", "correctAnswer"}

  /** Every validated path: the required ones and the optional `createdBy`. */
  const Paths: set<string> := Required + {"createdBy"}

  /** The value of `key` in a document, `undefined` when it is absent. */
  function Field(doc: map<string, Value>, key: string): (v: Value)
    ensures key in doc ==> v == doc[key]
    ensures key !in doc ==> v.Undefined?
  {
    if key in doc then doc[key] else Undefined
  }

  predicate AllStrings(items: seq<Value>) {
    forall k :: 0 <= k < |items| ==> items[k].Str?
  }

  /** The strings of an array of JSON strings. */
  function Strings(items: seq<Value>): (r: seq<string>)
    requires AllStrings(items)
    ensures |r| == |items|
    ensures forall k :: 0 <= k < |items| ==> r[k] == items[k].s
  {
    if items == [] then [] else [items[0].s] + Strings(items[1..])
  }

  /** An array of JSON strings. */
  function StringValues(texts: seq<string>): (items: seq<Value>)
    ensures |items| == |texts|
    ensures forall k :: 0 <= k < |texts| ==> items[k] == Str(texts[k])
  {
    if texts == [] then [] else [Str(texts[0])] + StringValues(texts[1..])
  }

  // ------------------------------------------------------------- field rules

  /** `language`: a required string, stored trimmed and lower-cased; blank is missing. */
  predicate LanguageOk(v: Value) {
    v.Str? && Trim(v.s) != []
  }

  /** `questionText`: a required string, stored trimmed; blank is missing. */
  predicate QuestionTextOk(v: Value) {
    v.Str? && Trim(v.s) != []
  }

  /** `options`: an array of at least two strings. */
  predicate OptionsOk(v: Value) {
    v.Arr? && |v.items| >= 2 && AllStrings(v.items)
  }

  /** `correctAnswer`: a required number, at least 0 and below the number of options. */
  predicate CorrectAnswerOk(answer: Value, options: Value) {
    answer.Num? && options.Arr? && 0.0 <= answer.n && answer.n < |options.items| as real
  }

  predicate IsHexDigit(c: char) {
    ('0' <= c <= '9') || ('a' <= c <= 'f') || ('A' <= c <= 'F')
  }

  /** The string form of an `ObjectId`: 24 hexadecimal digits. */
  predicate IsObjectIdHex(s: string) {
    |s| == 24 && forall k :: 0 <= k < |s| ==> IsHexDigit(s[k])
  }

  /**
   * `createdBy`: optional, so absent or `null` passes; anything else must cast
   * to an `ObjectId`, from its hexadecimal string or from an object whose `_id`
   * is one.
   */
  predicate CreatedByOk(v: Value) {
    || v.Undefined? || v.Null?
    || (v.Str? && IsObjectIdHex(v.s))
    || (v.Obj? && "_id" in v.fields && v.fields["_id"].Str? && IsObjectIdHex(v.fields["_id"].s))
  }

  /** Whether a document keeps the rule of one path. */
  predicate PathOk(doc: map<string, Value>, path: string) {
    if path == "language" then LanguageOk(Field(doc, "language"))
    else if path == "questionText" then QuestionTextOk(Field(doc, "questionText"))
    else if path == "options" then OptionsOk(Field(doc, "options"))
    else if path == "correctAnswer" then CorrectAnswerOk(Field(doc, "correctAnswer"), Field(doc, "options"))
    else CreatedByOk(Field(doc, "createdBy"))
  }

  /** The paths whose rule a document breaks. */
  function FailingPaths(doc: map<string, Value>): (paths: set<string>)
    ensures paths <= Paths
    ensures "language" in paths <==> !LanguageOk(Field(doc, "language"))
    ensures "questionText" in paths <==> !QuestionTextOk(Field(doc, "questionText"))
    ensures "options" in paths <==> !OptionsOk(Field(doc, "options"))
    ensures "correctAnswer" in paths <==> !CorrectAnswerOk(Field(doc, "correctAnswer"), Field(doc, "options"))
    ensures "createdBy" in paths <==> !CreatedByOk(Field(doc, "createdBy"))
  {
    set path | path in Paths && !PathOk(doc, path)
  }

  /** The invariants of every stored question. */
  predicate WellFormed(q: StoredQuestion) {
    && q.language != [] && IsTrimmed(q.language) && IsLower(q.language)
    && q.questionText != [] && IsTrimmed(q.questionText)
    && |q.options| >= 2
    && 0.0 <= q.correctAnswer < |q.options| as real
  }

  datatype Validation = Accepted(stored: StoredQuestion) | Rejected(paths: set<string>)

  /**
   * Casting and validating a document: either every rule holds and the
   * document is stored with its setters applied, or validation fails naming
   * every path whose rule is broken.
   */
  function Validate(doc: map<string, Value>): (r: Validation)
    ensures r.Accepted? <==>
              && LanguageOk(Field(doc, "language")) && QuestionTextOk(Field(doc, "questionText"))
              && OptionsOk(Field(doc, "options")) && CorrectAnswerOk(Field(doc, "correctAnswer"), Field(doc, "options"))
              && CreatedByOk(Field(doc, "createdBy"))
    ensures r.Accepted? ==> WellFormed(r.stored)
    ensures r.Accepted? ==>
              && r.stored.language == TrimLower(Field(doc, "language").s)
              && r.stored.questionText == Trim(Field(doc, "questionText").s)
              && r.stored.options == Strings(Field(doc, "options").items)
              && r.stored.correctAnswer == Field(doc, "correctAnswer").n
    ensures r.Rejected? ==> r.paths == FailingPaths(doc) && r.paths != {} && r.paths <= Paths
  {
    var paths := FailingPaths(doc);
    if paths == {} then
      var options := Field(doc, "options").items;
      Accepted(StoredQuestion(TrimLower(Field(doc, "language").s), Trim(Field(doc, "questionText").s),
                              Strings(options), Field(doc, "correctAnswer").n))
    else
      assert "language" in paths || "questionText" in paths || "options" in paths || "correctAnswer" in paths
             || "createdBy" in paths;
      Rejected(paths)
  }

  /** A document of the four schema fields. */
  function Document(language: string, questionText: string, options: Value, correctAnswer: Value): (doc: map<string, Value>)
    ensures "language" in doc && doc["language"] == Str(language)
    ensures "questionText" in doc && doc["questionText"] == Str(questionText)
    ensures "options" in doc && doc["options"] == options
    ensures "correctAnswer" in doc && doc["correctAnswer"] == correctAnswer
  {
    map["language" := Str(language), "questionText" := Str(questionText),
        "options" := options, "correctAnswer" := correctAnswer]
  }

  /** A stored question as a document. */
  function AsDocument(q: StoredQuestion): (doc: map<string, Value>)
  {
    Document(q.language, q.questionText, Arr(StringValues(q.options)), Num(q.correctAnswer))
  }

  // ----------------------------------------------------------------- lemmas

  /** A document missing a required field is rejected, naming that field. */
  lemma MissingFieldRejected(doc: map<string, Value>, key: string)
    requires key in Required && key !in doc
    ensures Validate(doc).Rejected? && key in Validate(doc).paths
  {
    var v := Field(doc, key);
    assert v.Undefined?;
    if key == "language" {
      assert !LanguageOk(v);
    } else if key == "questionText" {
      assert !QuestionTextOk(v);
    } else if key == "options" {
      assert !OptionsOk(v);
    } else {
      assert key == "correctAnswer";
      assert !CorrectAnswerOk(v, Field(doc, "options"));
    }
  }

  /** A text that is only white space is missing once the setter has trimmed it. */
  lemma BlankTextRejected(doc: map<string, Value>, s: string)
    requires "questionText" in doc && doc["questionText"] == Str(s) && AllSpace(s)
    ensures Validate(doc).Rejected? && "questionText" in Validate(doc).paths
  {
    BlankIsAllSpace(s);
  }

  /**
   * `createdBy` is optional: without it a document is judged by the four
   * required rules alone, and with an `ObjectId` there it is judged the same.
   */
  lemma CreatedByOptional(doc: map<string, Value>)
    ensures Validate(doc - {"createdBy"}).Accepted? <==>
              && LanguageOk(Field(doc, "language")) && QuestionTextOk(Field(doc, "questionText"))
              && OptionsOk(Field(doc, "options")) && CorrectAnswerOk(Field(doc, "correctAnswer"), Field(doc, "options"))
    ensures CreatedByOk(Field(doc, "createdBy")) ==> Validate(doc - {"createdBy"}) == Validate(doc)
  {
    var d := doc - {"createdBy"};
    assert forall key :: key in Required ==> Field(d, key) == Field(doc, key);
    assert Field(d, "createdBy") == Undefined;
  }

  /** A `createdBy` that does not cast to an `ObjectId` rejects the document, naming that path. */
  lemma MalformedCreatedByRejected(doc: map<string, Value>)
    requires "createdBy" in doc && !CreatedByOk(doc["createdBy"])
    ensures Validate(doc).Rejected? && "createdBy" in Validate(doc).paths
  {
  }

  /** Trimming and lower-casing `language` give the same value in either order. */
  lemma LanguageSetterOrder(s: string)
    ensures TrimLower(s) == Trim(ToLower(s))
  {
    LowerTrimCommute(s);
  }

  lemma {:induction false} StringsOfValues(texts: seq<string>)
    ensures AllStrings(StringValues(texts))
    ensures Strings(StringValues(texts)) == texts
  {
    if texts != [] {
      StringsOfValues(texts[1..]);
    }
  }

  /** The setters are idempotent on what they stored, so a stored question validates to itself. */
  lemma StoredRevalidates(q: StoredQuestion)
    requires WellFormed(q)
    ensures Validate(AsDocument(q)) == Accepted(q)
  {
    var doc := AsDocument(q);
    assert Field(doc, "language") == Str(q.language);
    assert Field(doc, "questionText") == Str(q.questionText);
    assert Field(doc, "options") == Arr(StringValues(q.options));
    assert Field(doc, "correctAnswer") == Num(q.correctAnswer);
    StringsOfValues(q.options);
    TrimOfTrimmed(q.language);
    TrimOfTrimmed(q.questionText);
    LowerOfLower(q.language);
    assert TrimLower(q.language) == q.language;
    assert Validate(doc).Accepted?;
  }

  lemma TrimOfTrimmed(s: string)
    requires IsTrimmed(s)
    ensures Trim(s) == s
  {
    TrimPadded([], s, []);
    assert [] + s + [] == s;
  }

  /** Lower-casing a string without upper-case letters changes nothing. */
  lemma LowerOfLower(s: string)
    requires IsLower(s)
    ensures ToLower(s) == s
  {
    var l := ToLower(s);
    forall k | 0 <= k < |s| ensures l[k] == s[k] {
      assert l[k] == LowerChar(s[k]);
    }
  }

  // ---------------------------------------------------------- the JSON view

  /**
   * The `toJSON` transform on the plain object of a document: `id` is set to
   * the old `_id` (or to `undefined` when there is none), `_id` and `__v` are
   * removed, and every other field is kept as it is.
   */
  function ToJsonView(ret: map<string, Value>): (r: map<string, Value>)
    ensures r.Keys == ret.Keys - {"_id", "__v"} + {"id"}
    ensures r["id"] == Field(ret, "_id")
    ensures forall key :: key in ret && key != "id" && key != "_id" && key != "__v" ==> r[key] == ret[key]
  {
    (ret["id" := Field(ret, "_id")]) - {"_id", "__v"}
  }

  /** The object `ret` handed to the transform, changed in place. */
  class JsonDocument {
    var fields: map<string, Value>

    constructor (fields: map<string, Value>)
      ensures this.fields == fields
    {
      this.fields := fields;
    }

    /** `ret.id = ret._id; delete ret._id; delete ret.__v`. */
    method ApplyToJsonTransform()
      modifies this
      ensures fields == ToJsonView(old(fields))
      ensures "_id" !in fields && "__v" !in fields && "id" in fields
    {
      fields := fields["id" := Field(fields, "_id")];
      fields := fields - {"_id"};
      fields := fields - {"__v"};
    }
  }
}
