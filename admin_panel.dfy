/**
 * The admin panel's form: a selected language, a question, four option
 * inputs and the index of the correct option, with the list of questions
 * added so far and the view of those in the selected language.
 */
module AdminPanel {
  import opened Text
  import opened ClientQuestion

  /** The languages the selector offers. */
  const Languages: seq<string> := [
    "HTML", "CSS", "JavaScript", "React", "TailwindCSS", "Node.js", "Express.js", "MongoDB",
    "Python", "Java", "C", "C++", "Bootstrap", "jQuery", "Other"
  ]

  /** The four empty option inputs. */
  const BlankOptions: seq<string> := ["", "", "", ""]

  /** Which alert `handleAddToList` shows, if any. */
  datatype AddOutcome = Added | MissingQuestion | MissingOption

  /** The two checks of `handleAddToList`, the question's before the options'. */
  function CheckForm(question: string, options: seq<string>): (o: AddOutcome)
    ensures o == MissingQuestion <==> IsBlank(question)
    ensures o == MissingOption <==> !IsBlank(question) && exists k :: 0 <= k < |options| && IsBlank(options[k])
    ensures o == Added <==> !IsBlank(question) && forall k :: 0 <= k < |options| ==> !IsBlank(options[k])
  {
    if IsBlank(question) then MissingQuestion
    else if exists k :: 0 <= k < |options| && IsBlank(options[k]) then MissingOption
    else Added
  }

  /** `options.map((o) => o.trim())`. */
  function TrimAll(options: seq<string>): (r: seq<string>)
    ensures |r| == |options|
    ensures forall k :: 0 <= k < |options| ==> r[k] == Trim(options[k]) && IsTrimmed(r[k])
  {
    if options == [] then [] else [Trim(options[0])] + TrimAll(options[1..])
  }

  /** `newQuestion`: the selected language, the trimmed question and options, the chosen index. */
  function NewQuestion(language: string, question: string, options: seq<string>, correct: int): (q: Mcq)
    ensures q.language == language && q.correctAnswer == correct
    ensures q.questionText == Trim(question) && IsTrimmed(q.questionText)
    ensures |q.options| == |options|
    ensures forall k :: 0 <= k < |options| ==> q.options[k] == Trim(options[k])
  {
    Mcq(language, Trim(question), TrimAll(options), correct)
  }

  /** What every entry of the list satisfies. */
  predicate WellFormedEntry(q: Mcq) {
    && q.language in Languages
    && q.questionText != [] && IsTrimmed(q.questionText)
    && |q.options| == 4
    && (forall k :: 0 <= k < 4 ==> q.options[k] != [] && IsTrimmed(q.options[k]))
    && 0 <= q.correctAnswer < 4
  }

  predicate AllWellFormed(list: seq<Mcq>) {
    forall k :: 0 <= k < |list| ==> WellFormedEntry(list[k])
  }

  lemma AllWellFormedAppend(list: seq<Mcq>, q: Mcq)
    requires AllWellFormed(list) && WellFormedEntry(q)
    ensures AllWellFormed(list + [q])
  {
    var l := list + [q];
    forall k | 0 <= k < |l| ensures WellFormedEntry(l[k]) {
      if k < |list| {
        assert l[k] == list[k];
      }
    }
  }

  /** A form that passes both checks gives a well-formed entry. */
  lemma NewQuestionWellFormed(language: string, question: string, options: seq<string>, correct: int)
    requires language in Languages && |options| == 4 && 0 <= correct < 4
    requires CheckForm(question, options) == Added
    ensures WellFormedEntry(NewQuestion(language, question, options, correct))
  {
    var q := NewQuestion(language, question, options, correct);
    forall k | 0 <= k < 4 ensures q.options[k] != [] {
      assert !IsBlank(options[k]);
    }
  }

  /** `questionsList.filter((q) => q.language === language)`. */
  function SameLanguage(list: seq<Mcq>, language: string): (r: seq<Mcq>)
    ensures |r| <= |list|
    ensures forall k :: 0 <= k < |r| ==> r[k].language == language
  {
    if list == [] then []
    else
      var n := |list| - 1;
      SameLanguage(list[..n], language) + (if list[n].language == language then [list[n]] else [])
  }

  /** An entry is shown exactly when it is in the list and has the selected language. */
  lemma {:induction false} SameLanguageMembers(list: seq<Mcq>, language: string, q: Mcq)
    ensures q in SameLanguage(list, language) <==> q in list && q.language == language
  {
    if list != [] {
      var n := |list| - 1;
      SameLanguageMembers(list[..n], language, q);
      assert list == list[..n] + [list[n]];
    }
  }

  /** The view of a concatenation is the views of its parts, in order. */
  lemma {:induction false} SameLanguageConcat(a: seq<Mcq>, b: seq<Mcq>, language: string)
    ensures SameLanguage(a + b, language) == SameLanguage(a, language) + SameLanguage(b, language)
  {
    if b == [] {
      assert a + b == a;
    } else {
      var n := |b| - 1;
      assert (a + b)[..|a + b| - 1] == a + b[..n];
      assert (a + b)[|a + b| - 1] == b[n];
      SameLanguageConcat(a, b[..n], language);
    }
  }

  /** Adding an entry of the selected language extends the view by exactly that entry. */
  lemma SameLanguageAppend(list: seq<Mcq>, q: Mcq)
    ensures SameLanguage(list + [q], q.language) == SameLanguage(list, q.language) + [q]
  {
    assert (list + [q])[..|list|] == list;
  }

  /** The form's state. */
  class Panel {
    var language: string
    var question: string
    var options: seq<string>
    var correct: int
    var questionsList: seq<Mcq>

    ghost predicate Valid()
      reads this
    {
      && language in Languages
      && |options| == 4
      && 0 <= correct < 4
      && AllWellFormed(questionsList)
    }

    /** The initial state: HTML, an empty question, four empty options, the first option correct, no entries. */
    constructor ()
      ensures Valid()
      ensures language == "HTML" && question == [] && options == BlankOptions && correct == 0 && questionsList == []
    {
      language := "HTML";
      question := [];
      options := BlankOptions;
      correct := 0;
      questionsList := [];
    }

    /** `filteredQuestions`. */
    function FilteredQuestions(): (r: seq<Mcq>)
      reads this
      ensures |r| <= |questionsList|
      ensures forall k :: 0 <= k < |r| ==> r[k].language == language
    {
      SameLanguage(questionsList, language)
    }

    /** Choosing a language in the selector. */
    method SelectLanguage(lang: string)
      requires Valid() && lang in Languages
      modifies this
      ensures Valid()
      ensures language == lang
      ensures question == old(question) && options == old(options) && correct == old(correct)
      ensures questionsList == old(questionsList)
    {
      language := lang;
    }

    /** Typing in the question input. */
    method SetQuestion(text: string)
      requires Valid()
      modifies this
      ensures Valid()
      ensures question == text
      ensures language == old(language) && options == old(options) && correct == old(correct)
      ensures questionsList == old(questionsList)
    {
      question := text;
    }

    /** Typing in option input `i`: a copy of the options with slot `i` overwritten. */
    method EditOption(i: int, value: string)
      requires Valid() && 0 <= i < |options|
      modifies this
      ensures Valid()
      ensures |options| == |old(options)| && options[i] == value
      ensures forall k :: 0 <= k < |options| && k != i ==> options[k] == old(options)[k]
      ensures language == old(language) && question == old(question) && correct == old(correct)
      ensures questionsList == old(questionsList)
    {
      var newOpts := options;
      newOpts := newOpts[i := value];
      options := newOpts;
    }

    /** Choosing the correct option in its selector, whose values are the option positions. */
    method SetCorrect(i: int)
      requires Valid() && 0 <= i < |options|
      modifies this
      ensures Valid()
      ensures correct == i
      ensures language == old(language) && question == old(question) && options == old(options)
      ensures questionsList == old(questionsList)
    {
      correct := i;
    }

    /**
     * `handleAddToList`: a form failing a check changes nothing; otherwise the
     * new entry is appended, the form is reset and the language stays.
     */
    method HandleAddToList() returns (outcome: AddOutcome)
      requires Valid()
      modifies this
      ensures Valid()
      ensures outcome == CheckForm(old(question), old(options))
      ensures outcome != Added ==>
                && language == old(language) && question == old(question) && options == old(options)
                && correct == old(correct) && questionsList == old(questionsList)
      ensures outcome == Added ==>
                && questionsList == old(questionsList) + [NewQuestion(old(language), old(question), old(options), old(correct))]
                && language == old(language) && question == [] && options == BlankOptions && correct == 0
      ensures outcome == Added ==>
                FilteredQuestions() == old(FilteredQuestions()) + [NewQuestion(old(language), old(question), old(options), old(correct))]
    {
      outcome := CheckForm(question, options);
      if outcome != Added {
        return;
      }
      var newQuestion := NewQuestion(language, question, options, correct);
      var list := questionsList + [newQuestion];
      NewQuestionWellFormed(language, question, options, correct);
      AllWellFormedAppend(questionsList, newQuestion);
      SameLanguageAppend(questionsList, newQuestion);
      assert AllWellFormed(list) && SameLanguage(list, language) == FilteredQuestions() + [newQuestion];
      questionsList := list;
      question := [];
      options := BlankOptions;
      correct := 0;
    }
  }
}
