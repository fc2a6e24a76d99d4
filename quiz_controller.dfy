/**
 * The multiple-choice parser of `addMultipleQuestions`: the text extracted from
 * an uploaded PDF is cut into trimmed non-empty lines, and one pass over them
 * builds question records. A line starting with `<digits>.` opens a question,
 * a line starting with `A)`..`D)` adds an option to it, a line starting with
 * `Answer:` sets its answer index, and every other line is ignored.
 */
module QuizController {
  import opened Wrappers
  import opened Text

  /** The record the parser builds: `{questionText, options, correctAnswer}`; `None` is `null`. */
  datatype Question = Question(questionText: string, options: seq<string>, correctAnswer: Option<int>)

  /** The record a question line opens, and the one the parse starts with. */
  function Fresh(prompt: string): (q: Question)
    ensures q.questionText == prompt && q.options == [] && q.correctAnswer == None
  {
    Question(prompt, [], None)
  }

  /** The answer letters, whose positions are the answer indices. */
  const Letters: seq<string> := ["A", "B", "C", "D"]

  // ------------------------------------------------------------ preprocessing

  /** `.map((l) => l.trim()).filter(Boolean)`: the trimmed lines that are not empty, in order. */
  function CleanLines(raw: seq<string>): (lines: seq<string>)
    ensures |lines| <= |raw|
    ensures forall k :: 0 <= k < |lines| ==> lines[k] != [] && IsTrimmed(lines[k])
  {
    if raw == [] then []
    else
      var t := Trim(raw[0]);
      (if t != [] then [t] else []) + CleanLines(raw[1..])
  }

  /** `text.split("\n").map((l) => l.trim()).filter(Boolean)`. */
  function Lines(text: string): (lines: seq<string>)
    ensures forall k :: 0 <= k < |lines| ==> lines[k] != [] && IsTrimmed(lines[k])
  {
    CleanLines(Split(text, '\n'))
  }

  lemma {:induction false} CleanLinesAppend(a: seq<string>, b: seq<string>)
    ensures CleanLines(a + b) == CleanLines(a) + CleanLines(b)
  {
    if a == [] {
      assert a + b == b;
    } else {
      assert (a + b)[0] == a[0] && (a + b)[1..] == a[1..] + b;
      CleanLinesAppend(a[1..], b);
      var t := Trim(a[0]);
      var head := if t != [] then [t] else [];
      assert CleanLines(a + b) == head + CleanLines(a[1..] + b);
      assert CleanLines(a) == head + CleanLines(a[1..]);
      ConcatAssoc(head, CleanLines(a[1..]), CleanLines(b));
    }
  }

  /** A line survives preprocessing exactly when it is the non-empty trim of some raw line. */
  lemma {:induction false} CleanLinesMembers(raw: seq<string>, x: string)
    ensures x in CleanLines(raw) <==> x != [] && exists k :: 0 <= k < |raw| && Trim(raw[k]) == x
  {
    if raw != [] {
      CleanLinesMembers(raw[1..], x);
      if x != [] && exists k :: 0 <= k < |raw| && Trim(raw[k]) == x {
        var k :| 0 <= k < |raw| && Trim(raw[k]) == x;
        if k > 0 {
          assert raw[1..][k - 1] == raw[k];
        }
      }
      if exists k :: 0 <= k < |raw[1..]| && Trim(raw[1..][k]) == x {
        var k :| 0 <= k < |raw[1..]| && Trim(raw[1..][k]) == x;
        assert raw[k + 1] == raw[1..][k];
      }
    }
  }

  /** Preprocessing lines that are already preprocessed changes nothing. */
  lemma {:induction false} CleanLinesIdempotent(raw: seq<string>)
    ensures CleanLines(CleanLines(raw)) == CleanLines(raw)
  {
    if raw != [] {
      var t := Trim(raw[0]);
      var rest := CleanLines(raw[1..]);
      CleanLinesIdempotent(raw[1..]);
      if t != [] {
        TrimIdempotent(raw[0]);
        assert ([t] + rest)[0] == t && ([t] + rest)[1..] == rest;
      } else {
        assert [] + rest == rest;
      }
    }
  }

  /** Lines joined with line breaks come back as their preprocessed list. */
  lemma LinesOfJoin(raw: seq<string>)
    requires |raw| >= 1
    requires forall k :: 0 <= k < |raw| ==> '\n' !in raw[k]
    ensures Lines(Join(raw, '\n')) == CleanLines(raw)
  {
    SplitJoin(raw, '\n');
  }

  // --------------------------------------------------------------- classifier

  predicate IsDigit(c: char) {
    '0' <= c <= '9'
  }

  /** The number of decimal digits in `s` from position `i` on, before the first other character. */
  function DigitsFrom(s: string, i: nat): (n: nat)
    requires i <= |s|
    ensures i + n <= |s|
    ensures forall k :: i <= k < i + n ==> IsDigit(s[k])
    ensures i + n < |s| ==> !IsDigit(s[i + n])
    decreases |s| - i
  {
    if i < |s| && IsDigit(s[i]) then 1 + DigitsFrom(s, i + 1) else 0
  }

  /** The number of decimal digits at the start of `s` (what `^\d+` matches, greedily). */
  function LeadingDigits(s: string): (n: nat)
    ensures n <= |s|
    ensures forall k :: 0 <= k < n ==> IsDigit(s[k])
    ensures n < |s| ==> !IsDigit(s[n])
  {
    DigitsFrom(s, 0)
  }

  /** `line.match(/^\d+\./)`. */
  predicate IsQuestionStart(line: string) {
    var d := LeadingDigits(line);
    0 < d < |line| && line[d] == '.'
  }

  /**
   * `line.replace(/^\d+\.\s*\/, "")`: what follows the number, its period and
   * any white space after them.
   */
  function PromptOf(line: string): (p: string)
    requires IsQuestionStart(line)
    ensures LeadingDigits(line) + 1 + |p| <= |line|
    ensures p == line[|line| - |p|..]
    ensures AllSpace(line[LeadingDigits(line) + 1..|line| - |p|])
    ensures p == [] || !IsSpace(p[0])
  {
    var rest := line[LeadingDigits(line) + 1..];
    assert rest[..LeadingSpaces(rest)] == line[LeadingDigits(line) + 1..|line| - |TrimStart(rest)|];
    TrimStart(rest)
  }

  /** `line.match(/^[A-D]\)/)`. */
  predicate IsOptionLine(line: string) {
    |line| >= 2 && 'A' <= line[0] <= 'D' && line[1] == ')'
  }

  /** `line.substring(2).trim()`. */
  function OptionText(line: string): (t: string)
    requires IsOptionLine(line)
    ensures IsTrimmed(t)
    ensures |t| <= |line| - 2
  {
    Trim(line[2..])
  }

  /** `line.startsWith("Answer:")`. */
  predicate IsAnswerLine(line: string) {
    StartsWith(line, "Answer:")
  }

  /** `line.split(":")[1].trim()`: the trimmed text between the first colon and the next one. */
  function AnswerLetter(line: string): (a: string)
    requires IsAnswerLine(line)
    ensures IsTrimmed(a) && ':' !in a
  {
    assert line[6] == ':';
    var piece := Split(line, ':')[1];
    TrimSplits(piece);
    assert ':' !in piece[..LeadingSpaces(piece)] + Trim(piece);
    Trim(piece)
  }

  /** `["A", "B", "C", "D"].indexOf(letter)`, on the one-character strings. */
  function IndexOfLetter(letter: string): (i: int)
    ensures -1 <= i <= 3
  {
    if |letter| == 1 && 'A' <= letter[0] <= 'D' then letter[0] as int - 'A' as int else -1
  }

  /** `IndexOfLetter` is the first position of the letter in `Letters`, and -1 when it is not there. */
  lemma IndexOfLetterIsPosition(letter: string)
    ensures var i := IndexOfLetter(letter);
            && (i >= 0 ==> Letters[i] == letter && forall j :: 0 <= j < i ==> Letters[j] != letter)
            && (i == -1 <==> letter !in Letters)
  {
    var i := IndexOfLetter(letter);
    assert forall j :: 0 <= j < 4 ==> |Letters[j]| == 1 && Letters[j][0] == ('A' as int + j) as char;
    if i >= 0 {
      assert letter == [letter[0]];
    } else {
      forall j | 0 <= j < 4 ensures Letters[j] != letter {
        if |letter| == 1 {
          assert Letters[j][0] != letter[0];
        }
      }
    }
  }

  /** The index an answer line selects: 0 to 3 for the letters A to D, and -1 for anything else. */
  function AnswerIndex(line: string): (i: int)
    requires IsAnswerLine(line)
    ensures -1 <= i <= 3
  {
    IndexOfLetter(AnswerLetter(line))
  }

  /** What one line means to the parser. */
  datatype LineKind =
    | QuestionStart(prompt: string)
    | OptionLine(text: string)
    | AnswerLine(index: int)
    | Unclassified

  /**
   * The if / else-if chain of the parse loop. The three patterns exclude one
   * another (a question line starts with a digit, an option line with `A)`..`D)`,
   * an answer line with `An`), so the order of the tests never matters.
   */
  function Classify(line: string): (k: LineKind)
    ensures k.QuestionStart? <==> IsQuestionStart(line)
    ensures k.OptionLine? <==> IsOptionLine(line)
    ensures k.AnswerLine? <==> IsAnswerLine(line)
    ensures k.Unclassified? <==> !IsQuestionStart(line) && !IsOptionLine(line) && !IsAnswerLine(line)
    ensures k.QuestionStart? ==> k.prompt == PromptOf(line)
    ensures k.OptionLine? ==> k.text == OptionText(line)
    ensures k.AnswerLine? ==> k.index == AnswerIndex(line) && -1 <= k.index <= 3
  {
    assert IsQuestionStart(line) ==> IsDigit(line[0]);
    assert IsAnswerLine(line) ==> line[1] == line[..7][1] == 'n';
    if IsQuestionStart(line) then
      QuestionStart(PromptOf(line))
    else if IsOptionLine(line) then
      OptionLine(OptionText(line))
    else if IsAnswerLine(line) then
      AnswerLine(AnswerIndex(line))
    else
      Unclassified
  }

  // ----------------------------------------------------- the reference meaning

  /** The position of the first question line at or after `i`, or `|lines|` when there is none. */
  function StartFrom(lines: seq<string>, i: nat): (p: nat)
    requires i <= |lines|
    ensures i <= p <= |lines|
    ensures forall k :: i <= k < p ==> !IsQuestionStart(lines[k])
    ensures p < |lines| ==> IsQuestionStart(lines[p])
    decreases |lines| - i
  {
    if i == |lines| || IsQuestionStart(lines[i]) then i else StartFrom(lines, i + 1)
  }

  /** The position of the first question line, or `|lines|` when there is none. */
  function FirstStart(lines: seq<string>): (p: nat)
    ensures p <= |lines|
    ensures forall k :: 0 <= k < p ==> !IsQuestionStart(lines[k])
    ensures p < |lines| ==> IsQuestionStart(lines[p])
  {
    StartFrom(lines, 0)
  }

  /** The first question line is the one no question line precedes. */
  lemma FirstStartIs(lines: seq<string>, p: nat)
    requires p <= |lines|
    requires forall k :: 0 <= k < p ==> !IsQuestionStart(lines[k])
    requires p < |lines| ==> IsQuestionStart(lines[p])
    ensures FirstStart(lines) == p
  {
  }

  predicate NoQuestionStart(lines: seq<string>) {
    forall k :: 0 <= k < |lines| ==> !IsQuestionStart(lines[k])
  }

  /** The texts of the option lines of `body`, in the order they occur, repeats kept. */
  function OptionTexts(body: seq<string>): (texts: seq<string>)
    ensures |texts| <= |body|
  {
    if body == [] then []
    else (if Classify(body[0]).OptionLine? then [Classify(body[0]).text] else []) + OptionTexts(body[1..])
  }

  /** The index of the last answer line of `body`, if it has one. */
  function LastAnswer(body: seq<string>): (a: Option<int>)
    ensures a.Some? ==> -1 <= a.value <= 3
  {
    if body == [] then None
    else
      var later := LastAnswer(body[1..]);
      if later.Some? then later
      else if Classify(body[0]).AnswerLine? then Some(Classify(body[0]).index)
      else None
  }

  lemma {:induction false} OptionTextsAppend(a: seq<string>, b: seq<string>)
    ensures OptionTexts(a + b) == OptionTexts(a) + OptionTexts(b)
  {
    if a == [] {
      assert a + b == b;
    } else {
      assert (a + b)[0] == a[0] && (a + b)[1..] == a[1..] + b;
      OptionTextsAppend(a[1..], b);
      var head := if Classify(a[0]).OptionLine? then [Classify(a[0]).text] else [];
      ConcatAssoc(head, OptionTexts(a[1..]), OptionTexts(b));
    }
  }

  /**
   * OPTIONS. The option texts of a body are the `substring(2).trim()` of its
   * option lines, in order, repeats kept; any other line adds nothing.
   */
  lemma OptionTextsOfLine(l: string)
    ensures IsOptionLine(l) ==> OptionTexts([l]) == [OptionText(l)]
    ensures !IsOptionLine(l) ==> OptionTexts([l]) == []
  {
    assert [l][1..] == [];
  }

  /** A body made of option lines gives one option per line, in the same order. */
  lemma {:induction false} OptionTextsOfOptions(body: seq<string>)
    requires forall k :: 0 <= k < |body| ==> IsOptionLine(body[k])
    ensures |OptionTexts(body)| == |body|
    ensures forall k :: 0 <= k < |body| ==> OptionTexts(body)[k] == OptionText(body[k])
  {
    if body != [] {
      OptionTextsOfOptions(body[1..]);
      var r := OptionTexts(body);
      assert r == [OptionText(body[0])] + OptionTexts(body[1..]);
      forall k | 1 <= k < |body| ensures r[k] == OptionText(body[k]) {
        assert body[k] == body[1..][k - 1];
      }
    }
  }

  /** `if (current.questionText) questions.push(current)`: only a record with a prompt is kept. */
  function Emit(q: Question): (out: seq<Question>)
    ensures out == [] <==> q.questionText == []
    ensures out != [] ==> out == [q]
  {
    if q.questionText != [] then [q] else []
  }

  /**
   * What the parse should produce, stated block by block: the lines before the
   * first question line are dropped; each question line with the lines up to
   * the next question line (its body) give one record, holding the body's
   * option texts and its last answer; the record is kept when its prompt is
   * not empty.
   */
  function Records(lines: seq<string>): (out: seq<Question>)
    decreases |lines|
  {
    var p := FirstStart(lines);
    if p == |lines| then []
    else
      var rest := lines[p + 1..];
      var e := FirstStart(rest);
      var body := rest[..e];
      Emit(Question(PromptOf(lines[p]), OptionTexts(body), LastAnswer(body))) + Records(rest[e..])
  }

  // ------------------------------------------------------------- the fold

  /** One iteration of the parse loop, on the output so far and the current record. */
  function Step(out: seq<Question>, current: Question, line: string): (seq<Question>, Question)
  {
    match Classify(line)
    case QuestionStart(p) => (out + Emit(current), Fresh(p))
    case OptionLine(t) => (out, current.(options := current.options + [t]))
    case AnswerLine(i) => (out, current.(correctAnswer := Some(i)))
    case Unclassified => (out, current)
  }

  /** The loop from a given state over the remaining lines, with the final flush. */
  function Run(out: seq<Question>, current: Question, lines: seq<string>): seq<Question>
    decreases |lines|
  {
    if lines == [] then out + Emit(current)
    else
      var (out', current') := Step(out, current, lines[0]);
      Run(out', current', lines[1..])
  }

  /** The current record after it has taken in a body without question lines. */
  function Absorb(current: Question, body: seq<string>): Question
  {
    var a := LastAnswer(body);
    current.(options := current.options + OptionTexts(body),
             correctAnswer := if a.Some? then a else current.correctAnswer)
  }

  /** A line other than a question line is taken into the current record as `Step` does. */
  lemma AbsorbCons(out: seq<Question>, current: Question, l: string, body: seq<string>)
    requires !IsQuestionStart(l)
    ensures Step(out, current, l).0 == out
    ensures Absorb(current, [l] + body) == Absorb(Step(out, current, l).1, body)
  {
    var x := [l] + body;
    HeadTail(l, body);
    var k := Classify(l);
    if k.OptionLine? {
      assert OptionTexts(x) == [k.text] + OptionTexts(body);
      ConcatAssoc(current.options, [k.text], OptionTexts(body));
    } else {
      assert OptionTexts(x) == [] + OptionTexts(body);
      assert [] + OptionTexts(body) == OptionTexts(body);
    }
  }

  lemma HeadTail<T>(x: T, s: seq<T>)
    ensures ([x] + s)[0] == x && ([x] + s)[1..] == s
  {
  }

  /** The first question line of `[l] + t`, for `l` not a question line. */
  lemma FirstStartCons(l: string, t: seq<string>)
    requires !IsQuestionStart(l)
    ensures var p := FirstStart([l] + t);
            p == 1 + FirstStart(t) && ([l] + t)[..p] == [l] + t[..p - 1] && ([l] + t)[p..] == t[p - 1..]
  {
    var s := [l] + t;
    assert forall k :: 1 <= k < |s| ==> s[k] == t[k - 1];
    FirstStartIs(s, 1 + FirstStart(t));
    assert s[1..] == t;
  }

  /** `Step` follows the if / else-if chain of the loop body. */
  lemma StepByTests(out: seq<Question>, current: Question, l: string)
    ensures IsQuestionStart(l) ==> Step(out, current, l) == (out + Emit(current), Fresh(PromptOf(l)))
    ensures !IsQuestionStart(l) && IsOptionLine(l) ==>
              Step(out, current, l) == (out, current.(options := current.options + [OptionText(l)]))
    ensures !IsQuestionStart(l) && !IsOptionLine(l) && IsAnswerLine(l) ==>
              Step(out, current, l) == (out, current.(correctAnswer := Some(AnswerIndex(l))))
    ensures !IsQuestionStart(l) && !IsOptionLine(l) && !IsAnswerLine(l) ==>
              Step(out, current, l) == (out, current)
  {
  }

  /** `Records` of lines that begin with a question line: its block, then the rest. */
  lemma RecordsAtStart(lines: seq<string>)
    requires lines != [] && IsQuestionStart(lines[0])
    ensures var t := lines[1..];
            var body := t[..FirstStart(t)];
            Records(lines)
              == Emit(Question(PromptOf(lines[0]), OptionTexts(body), LastAnswer(body))) + Records(t[FirstStart(t)..])
  {
    assert FirstStart(lines) == 0;
  }

  /** The fresh record of a question line, after taking in its body. */
  lemma AbsorbFresh(prompt: string, body: seq<string>)
    ensures Absorb(Fresh(prompt), body) == Question(prompt, OptionTexts(body), LastAnswer(body))
  {
    assert [] + OptionTexts(body) == OptionTexts(body);
  }

  /** What `RunIsRecords` states of one starting state and list of lines. */
  ghost predicate RunMatches(out: seq<Question>, current: Question, lines: seq<string>) {
    var p := FirstStart(lines);
    Run(out, current, lines) == out + Emit(Absorb(current, lines[..p])) + Records(lines[p..])
  }

  lemma AbsorbNothing(current: Question)
    ensures Absorb(current, []) == current
  {
  }

  lemma RunAtStart(out: seq<Question>, current: Question, l: string, t: seq<string>)
    requires IsQuestionStart(l)
    ensures Run(out, current, [l] + t) == Run(out + Emit(current), Fresh(PromptOf(l)), t)
  {
    var lines := [l] + t;
    assert lines[0] == l && lines[1..] == t;
    StepByTests(out, current, l);
  }

  lemma RecordsOfBlock(l: string, t: seq<string>)
    requires IsQuestionStart(l)
    ensures var body := t[..FirstStart(t)];
            Records([l] + t) == Emit(Question(PromptOf(l), OptionTexts(body), LastAnswer(body))) + Records(t[FirstStart(t)..])
  {
    var lines := [l] + t;
    assert lines[0] == l && lines[1..] == t;
    RecordsAtStart(lines);
  }

  lemma RunStartCase(out: seq<Question>, current: Question, l: string, t: seq<string>)
    requires IsQuestionStart(l)
    requires Run(out + Emit(current), Fresh(PromptOf(l)), t)
             == out + Emit(current) + Emit(Absorb(Fresh(PromptOf(l)), t[..FirstStart(t)])) + Records(t[FirstStart(t)..])
    ensures Run(out, current, [l] + t) == out + Emit(current) + Records([l] + t)
  {
    var body := t[..FirstStart(t)];
    var head, block, tail := Emit(current), Emit(Question(PromptOf(l), OptionTexts(body), LastAnswer(body))), Records(t[FirstStart(t)..]);
    RunAtStart(out, current, l, t);
    RecordsOfBlock(l, t);
    AbsorbFresh(PromptOf(l), body);
    ConcatAssoc(out + head, block, tail);
  }

  /** One iteration of `Run`. */
  lemma RunCons(out: seq<Question>, current: Question, lines: seq<string>)
    requires lines != []
    ensures Run(out, current, lines) == Run(Step(out, current, lines[0]).0, Step(out, current, lines[0]).1, lines[1..])
  {
  }

  /** One iteration of `Run`, at position `i` of the lines. */
  lemma RunAdvance(out: seq<Question>, current: Question, lines: seq<string>, i: nat)
    requires i < |lines|
    ensures var (out', current') := Step(out, current, lines[i]);
            Run(out, current, lines[i..]) == Run(out', current', lines[i + 1..])
  {
    RunCons(out, current, lines[i..]);
    assert lines[i..][0] == lines[i] && lines[i..][1..] == lines[i + 1..];
  }

  lemma SliceAt<T>(s: seq<T>, n: nat)
    requires n <= |s|
    ensures s == s[..n] + s[n..]
  {
  }

  lemma DropCons<T>(s: seq<T>, n: nat)
    requires n < |s|
    ensures s[n..] == [s[n]] + s[n + 1..]
  {
  }

  lemma NilConcat<T>(a: seq<T>, b: seq<T>, c: seq<T>)
    requires a == [] && b == []
    ensures a + b + c == c
  {
  }

  lemma DropPast<T>(a: seq<T>, b: seq<T>, n: nat)
    requires n <= |b|
    ensures (a + b)[|a| + n..] == b[n..]
  {
  }

  lemma ConcatAssoc<T>(a: seq<T>, b: seq<T>, c: seq<T>)
    ensures a + (b + c) == a + b + c
  {
  }

  lemma RunOtherCase(out: seq<Question>, current: Question, lines: seq<string>)
    requires lines != [] && !IsQuestionStart(lines[0])
    requires RunMatches(out, Step(out, current, lines[0]).1, lines[1..])
    ensures RunMatches(out, current, lines)
  {
    var l, t := lines[0], lines[1..];
    var q := FirstStart(t);
    var next := Step(out, current, l).1;
    DropCons(lines, 0);
    assert lines == [l] + t;
    AbsorbCons(out, current, l, t[..q]);
    FirstStartCons(l, t);
    var p := FirstStart(lines);
    assert p == 1 + q && lines[..p] == [l] + t[..q] && lines[p..] == t[q..];
    RunCons(out, current, lines);
    assert Run(out, current, lines) == Run(out, next, t);
    assert Run(out, next, t) == out + Emit(Absorb(next, t[..q])) + Records(t[q..]);
    assert Absorb(current, lines[..p]) == Absorb(next, t[..q]);
  }

  lemma RunQuestionCase(out: seq<Question>, current: Question, lines: seq<string>)
    requires lines != [] && IsQuestionStart(lines[0])
    requires RunMatches(out + Emit(current), Fresh(PromptOf(lines[0])), lines[1..])
    ensures RunMatches(out, current, lines)
  {
    var l, t := lines[0], lines[1..];
    DropCons(lines, 0);
    assert lines == [l] + t;
    RunStartCase(out, current, l, t);
    assert Run(out, current, lines) == out + Emit(current) + Records(lines);
    assert FirstStart(lines) == 0;
    assert lines[..0] == [] && lines[0..] == lines;
    AbsorbNothing(current);
  }

  /**
   * PARSE LOOP CORRECTNESS. From any state, the loop over `lines` outputs what
   * it has, then the current record after it has taken in the lines before the
   * next question line, then the records of the blocks that follow.
   */
  lemma {:induction false} RunIsRecords(out: seq<Question>, current: Question, lines: seq<string>)
    ensures RunMatches(out, current, lines)
    decreases |lines|
  {
    if lines == [] {
      AbsorbNothing(current);
    } else if IsQuestionStart(lines[0]) {
      RunIsRecords(out + Emit(current), Fresh(PromptOf(lines[0])), lines[1..]);
      RunQuestionCase(out, current, lines);
    } else {
      RunIsRecords(out, Step(out, current, lines[0]).1, lines[1..]);
      RunOtherCase(out, current, lines);
    }
  }

  /** Skipping the lines before the first question line does not change the records. */
  lemma RecordsSkipPreamble(lines: seq<string>, p: nat)
    requires p == FirstStart(lines)
    ensures Records(lines[p..]) == Records(lines)
  {
    var s := lines[p..];
    if p < |lines| {
      assert FirstStart(s) == 0;
      assert s[1..] == lines[p + 1..];
    }
  }

  /** The loop started on a blank record computes `Records`. */
  lemma ParseIsRecords(lines: seq<string>)
    ensures Run([], Fresh([]), lines) == Records(lines)
  {
    var p := FirstStart(lines);
    var first := Absorb(Fresh([]), lines[..p]);
    RunIsRecords([], Fresh([]), lines);
    assert RunMatches([], Fresh([]), lines);
    assert first.questionText == [];
    NilConcat([], Emit(first), Records(lines[p..]));
    RecordsSkipPreamble(lines, FirstStart(lines));
  }

  // ------------------------------------------------- properties of the records

  /** The first question line of `x + b`. */
  lemma FirstStartAppend(x: seq<string>, b: seq<string>)
    ensures FirstStart(x + b) == if FirstStart(x) < |x| then FirstStart(x) else |x| + FirstStart(b)
  {
    var s := x + b;
    assert forall k :: 0 <= k < |x| ==> s[k] == x[k];
    if FirstStart(x) < |x| {
      FirstStartIs(s, FirstStart(x));
    } else {
      assert forall k :: |x| <= k < |s| ==> s[k] == b[k - |x|];
      FirstStartIs(s, |x| + FirstStart(b));
    }
  }

  /**
   * Records are made block by block: cutting the lines just before a question
   * line (or at the end) cuts the records there too.
   */
  lemma {:induction false} RecordsAppend(a: seq<string>, b: seq<string>)
    requires b == [] || IsQuestionStart(b[0])
    ensures Records(a + b) == Records(a) + Records(b)
    decreases |a|
  {
    var p := FirstStart(a);
    if p == |a| {
      PreambleDropped(a, b);
      NoStartNoRecords(a);
      NilConcat([], Records(a), Records(b));
    } else {
      var rest := a[p + 1..];
      var e := FirstStart(rest);
      var q, body, tail := a[p], rest[..e], rest[e..];
      var block := Emit(Question(PromptOf(q), OptionTexts(body), LastAnswer(body)));
      FirstBlockParts(a);
      RecordsSkipPreamble(a, p);
      RecordsBlockCons(q, body, tail);
      FirstStartAppend(a, b);
      DropAppend(a, b, p);
      ConcatAssoc([q] + body, tail, b);
      assert (a + b)[p..] == [q] + body + (tail + b);
      RecordsSkipPreamble(a + b, p);
      if tail != [] {
        assert (tail + b)[0] == tail[0];
      }
      RecordsBlockCons(q, body, tail + b);
      RecordsAppend(tail, b);
      ConcatAssoc(block, Records(tail), Records(b));
    }
  }

  /** A question line, its body, and lines that start with a question line or are empty. */
  lemma RecordsBlockCons(q: string, body: seq<string>, t: seq<string>)
    requires IsQuestionStart(q) && NoQuestionStart(body)
    requires t == [] || IsQuestionStart(t[0])
    ensures Records([q] + body + t) == Emit(Question(PromptOf(q), OptionTexts(body), LastAnswer(body))) + Records(t)
  {
    var bt := body + t;
    ConcatAssoc([q], body, t);
    RecordsOfBlock(q, bt);
    assert FirstStart(body) == |body|;
    FirstStartAppend(body, t);
    assert FirstStart(t) == 0;
    assert bt[..|body|] == body;
    assert bt[|body|..] == t;
  }

  lemma DropAppend<T>(a: seq<T>, b: seq<T>, n: nat)
    requires n <= |a|
    ensures (a + b)[n..] == a[n..] + b
  {
  }

  /** Lines before the first question line (option and answer lines among them) leave no trace. */
  lemma PreambleDropped(pre: seq<string>, lines: seq<string>)
    requires NoQuestionStart(pre)
    ensures Records(pre + lines) == Records(lines)
  {
    var n := FirstStart(lines);
    assert FirstStart(pre) == |pre|;
    FirstStartAppend(pre, lines);
    DropPast(pre, lines, n);
    RecordsOfSameBlocks(pre + lines, |pre| + n, lines, n);
  }

  /** Two texts whose lines from the first question line on are the same have the same records. */
  lemma RecordsOfSameBlocks(s: seq<string>, m: nat, t: seq<string>, n: nat)
    requires m == FirstStart(s) && n == FirstStart(t) && s[m..] == t[n..]
    ensures Records(s) == Records(t)
  {
    RecordsSkipPreamble(s, m);
    RecordsSkipPreamble(t, n);
  }

  /** Text without question lines gives no records at all. */
  lemma NoStartNoRecords(lines: seq<string>)
    requires NoQuestionStart(lines)
    ensures Records(lines) == []
  {
    assert FirstStart(lines) == |lines|;
  }

  /** The record of one question line and its body. */
  lemma {:induction false} RecordsOfOneBlock(q: string, body: seq<string>)
    requires IsQuestionStart(q) && NoQuestionStart(body)
    ensures Records([q] + body) == Emit(Question(PromptOf(q), OptionTexts(body), LastAnswer(body)))
  {
    RecordsOfBlock(q, body);
    assert FirstStart(body) == |body| && body[..|body|] == body && body[|body|..] == [];
    assert Records([]) == [];
  }

  /**
   * END-OF-INPUT FLUSH. The last question, which no question line follows, is
   * emitted after all the others when its prompt is not empty.
   */
  lemma LastQuestionFlushed(a: seq<string>, q: string, body: seq<string>)
    requires IsQuestionStart(q) && PromptOf(q) != [] && NoQuestionStart(body)
    ensures Records(a + ([q] + body)) == Records(a) + [Question(PromptOf(q), OptionTexts(body), LastAnswer(body))]
  {
    RecordsAppend(a, [q] + body);
    RecordsOfOneBlock(q, body);
  }

  /** A question line with an empty prompt, with its options and answers, gives no record. */
  lemma EmptyPromptDropped(q: string, body: seq<string>, rest: seq<string>)
    requires IsQuestionStart(q) && PromptOf(q) == [] && NoQuestionStart(body)
    requires rest == [] || IsQuestionStart(rest[0])
    ensures Records([q] + body + rest) == Records(rest)
  {
    RecordsAppend([q] + body, rest);
    RecordsOfOneBlock(q, body);
  }

  /** The non-empty prompts of the question lines, in the order of the lines. */
  function StartPrompts(lines: seq<string>): (prompts: seq<string>)
    ensures |prompts| <= |lines|
    ensures forall k :: 0 <= k < |prompts| ==> prompts[k] != []
  {
    if lines == [] then []
    else
      (if IsQuestionStart(lines[0]) && PromptOf(lines[0]) != [] then [PromptOf(lines[0])] else [])
        + StartPrompts(lines[1..])
  }

  function Prompts(questions: seq<Question>): (prompts: seq<string>)
    ensures |prompts| == |questions|
    ensures forall k :: 0 <= k < |questions| ==> prompts[k] == questions[k].questionText
  {
    if questions == [] then [] else [questions[0].questionText] + Prompts(questions[1..])
  }

  lemma {:induction false} StartPromptsAppend(a: seq<string>, b: seq<string>)
    ensures StartPrompts(a + b) == StartPrompts(a) + StartPrompts(b)
  {
    if a == [] {
      assert a + b == b;
    } else {
      assert (a + b)[0] == a[0] && (a + b)[1..] == a[1..] + b;
      StartPromptsAppend(a[1..], b);
    }
  }

  lemma {:induction false} StartPromptsNoStart(lines: seq<string>)
    requires NoQuestionStart(lines)
    ensures StartPrompts(lines) == []
  {
    if lines != [] {
      StartPromptsNoStart(lines[1..]);
    }
  }

  lemma {:induction false} PromptsAppend(a: seq<Question>, b: seq<Question>)
    ensures Prompts(a + b) == Prompts(a) + Prompts(b)
  {
    if a == [] {
      assert a + b == b;
    } else {
      assert (a + b)[0] == a[0] && (a + b)[1..] == a[1..] + b;
      PromptsAppend(a[1..], b);
    }
  }

  /** The prompt of a question line, once the line is known to open a block. */
  lemma StartPromptsOfBlock(q: string, body: seq<string>)
    requires IsQuestionStart(q) && NoQuestionStart(body)
    ensures StartPrompts([q] + body) == Prompts(Emit(Question(PromptOf(q), OptionTexts(body), LastAnswer(body))))
  {
    assert ([q] + body)[0] == q && ([q] + body)[1..] == body;
    StartPromptsNoStart(body);
  }

  /**
   * COUNT AND ORDER. The prompts of the records are the non-empty prompts of
   * the question lines, in order: one record per such line.
   */
  lemma {:induction false} RecordsPrompts(lines: seq<string>)
    ensures Prompts(Records(lines)) == StartPrompts(lines)
    decreases |lines|
  {
    var p := FirstStart(lines);
    var s := lines[p..];
    assert StartPrompts(s) == StartPrompts(lines) by { StartPromptsSkipPreamble(lines); }
    assert Records(s) == Records(lines) by { RecordsSkipPreamble(lines, FirstStart(lines)); }
    if p == |lines| {
      assert s == [] && Records(lines) == [];
    } else {
      var rest := lines[p + 1..];
      var e := FirstStart(rest);
      var body, tail := rest[..e], rest[e..];
      FirstBlockParts(lines);
      RecordsPrompts(tail);
      RecordsPromptsStep(lines[p], body, tail);
    }
  }

  /** The lines from the first question line on: that line, its body, and what follows. */
  lemma FirstBlockParts(lines: seq<string>)
    requires FirstStart(lines) < |lines|
    ensures var p := FirstStart(lines);
            var rest := lines[p + 1..];
            var e := FirstStart(rest);
            && IsQuestionStart(lines[p]) && NoQuestionStart(rest[..e])
            && (rest[e..] == [] || IsQuestionStart(rest[e..][0]))
            && lines[p..] == [lines[p]] + rest[..e] + rest[e..]
  {
    var p := FirstStart(lines);
    var rest := lines[p + 1..];
    var e := FirstStart(rest);
    forall k | 0 <= k < e
      ensures !IsQuestionStart(rest[..e][k])
    {
      assert rest[..e][k] == rest[k];
    }
    if e < |rest| {
      assert rest[e..][0] == rest[e];
    }
    SplitBlock(lines, p, e);
  }

  lemma SplitBlock<T>(s: seq<T>, p: nat, e: nat)
    requires p < |s| && e <= |s| - p - 1
    ensures s[p..] == [s[p]] + s[p + 1..][..e] + s[p + 1..][e..]
  {
    var rest := s[p + 1..];
    assert rest == rest[..e] + rest[e..];
    assert s[p..] == [s[p]] + rest;
  }

  lemma StartPromptsSkipPreamble(lines: seq<string>)
    ensures StartPrompts(lines[FirstStart(lines)..]) == StartPrompts(lines)
  {
    var p := FirstStart(lines);
    assert lines == lines[..p] + lines[p..];
    StartPromptsAppend(lines[..p], lines[p..]);
    StartPromptsNoStart(lines[..p]);
    assert [] + StartPrompts(lines[p..]) == StartPrompts(lines[p..]);
  }

  /** The prompts of one block followed by the blocks after it. */
  lemma RecordsPromptsStep(q: string, body: seq<string>, tail: seq<string>)
    requires IsQuestionStart(q) && NoQuestionStart(body)
    requires tail == [] || IsQuestionStart(tail[0])
    requires Prompts(Records(tail)) == StartPrompts(tail)
    ensures Prompts(Records([q] + body + tail)) == StartPrompts([q] + body + tail)
  {
    var head := [q] + body;
    var block := Emit(Question(PromptOf(q), OptionTexts(body), LastAnswer(body)));
    RecordsAppend(head, tail);
    RecordsOfOneBlock(q, body);
    PromptsAppend(block, Records(tail));
    StartPromptsOfBlock(q, body);
    StartPromptsAppend(head, tail);
  }

  /** Every record has a non-empty prompt. */
  lemma RecordsHavePrompts(lines: seq<string>)
    ensures forall k :: 0 <= k < |Records(lines)| ==> Records(lines)[k].questionText != []
  {
    RecordsPrompts(lines);
  }

  /** The number of records is the number of question lines with a non-empty prompt. */
  lemma RecordCount(lines: seq<string>)
    ensures |Records(lines)| == |StartPrompts(lines)|
  {
    RecordsPrompts(lines);
  }

  /** No line of `body` from position `k` on is an answer line. */
  predicate NoAnswerFrom(body: seq<string>, k: nat) {
    forall j :: k <= j < |body| ==> !IsAnswerLine(body[j])
  }

  /**
   * ANSWER HANDLING. A body has an answer exactly when it has an answer line,
   * and the answer is the index of its last answer line.
   */
  lemma {:induction false} LastAnswerIsLast(body: seq<string>)
    ensures LastAnswer(body).None? <==> NoAnswerFrom(body, 0)
    ensures LastAnswer(body).Some? ==>
              exists k :: 0 <= k < |body| && IsAnswerLine(body[k]) && NoAnswerFrom(body, k + 1)
                          && LastAnswer(body).value == AnswerIndex(body[k])
  {
    if body != [] {
      var t := body[1..];
      LastAnswerIsLast(t);
      if LastAnswer(t).Some? {
        var k :| 0 <= k < |t| && IsAnswerLine(t[k]) && NoAnswerFrom(t, k + 1) && LastAnswer(t).value == AnswerIndex(t[k]);
        assert body[k + 1] == t[k];
        assert !NoAnswerFrom(body, 0) by { assert IsAnswerLine(body[k + 1]); }
        assert NoAnswerFrom(body, k + 2) by {
          forall j | k + 2 <= j < |body| ensures !IsAnswerLine(body[j]) {
            assert body[j] == t[j - 1];
          }
        }
      } else {
        assert forall j :: 1 <= j < |body| ==> body[j] == t[j - 1];
        if IsAnswerLine(body[0]) {
          assert NoAnswerFrom(body, 1);
        }
      }
    }
  }

  /** `line.split(":")[1].trim()` is the trimmed text after `Answer:` up to the next colon. */
  lemma AnswerLetterAfterPrefix(x: string)
    ensures IsAnswerLine("Answer:" + x)
    ensures AnswerLetter("Answer:" + x) == Trim(x[..IndexOf(x, ':')])
  {
    var line := "Answer:" + x;
    assert line[..7] == "Answer:";
    assert line == "Answer" + [':'] + x;
    SplitAfterPrefix("Answer", ':', x);
    SplitFirst(x, ':');
  }

  /** The answer letter of `Answer:` followed by some white space and a letter. */
  lemma AnswerLetterOfPadded(pad: string, letter: char)
    requires AllSpace(pad) && !IsSpace(letter) && letter != ':' && ':' !in pad
    ensures IsAnswerLine("Answer:" + pad + [letter])
    ensures AnswerLetter("Answer:" + pad + [letter]) == [letter]
  {
    var x := pad + [letter];
    assert "Answer:" + pad + [letter] == "Answer:" + x;
    AnswerLetterAfterPrefix(x);
    IndexOfAbsent(x, ':');
    assert x[..|x|] == x == pad + [letter] + [];
    TrimPadded(pad, [letter], []);
  }

  /** The index of such a line: 0 to 3 for A to D, and -1 for any other letter. */
  lemma AnswerIndexOfLetter(pad: string, letter: char)
    requires AllSpace(pad) && !IsSpace(letter) && letter != ':' && ':' !in pad
    ensures IsAnswerLine("Answer:" + pad + [letter])
    ensures 'A' <= letter <= 'D' ==> AnswerIndex("Answer:" + pad + [letter]) == letter as int - 'A' as int
    ensures !('A' <= letter <= 'D') ==> AnswerIndex("Answer:" + pad + [letter]) == -1
  {
    AnswerLetterOfPadded(pad, letter);
  }

  // ----------------------------------------------------------- the method

  /** The body of the parse loop: the if / else-if chain on one line. */
  method ParseLine(questions: seq<Question>, current: Question, line: string)
    returns (questions': seq<Question>, current': Question)
    ensures (questions', current') == Step(questions, current, line)
  {
    StepByTests(questions, current, line);
    questions', current' := questions, current;
    if IsQuestionStart(line) {
      if current.questionText != [] {
        questions' := questions + [current];
      }
      assert questions' == questions + Emit(current);
      current' := Fresh(PromptOf(line));
    } else if IsOptionLine(line) {
      current' := current.(options := current.options + [OptionText(line)]);
    } else if IsAnswerLine(line) {
      current' := current.(correctAnswer := Some(AnswerIndex(line)));
    }
  }

  /**
   * `addMultipleQuestions` from the extracted text up to the array handed to
   * `Quiz.insertMany` (before the topic is added): a loop over the lines with
   * one mutable current record, flushed at the end.
   */
  method ParseQuestions(text: string) returns (questions: seq<Question>)
    ensures questions == Records(Lines(text))
  {
    var lines := Lines(text);
    questions := [];
    var current := Fresh([]);
    ghost var records := Run([], current, lines);
    var i := 0;
    while i < |lines|
      invariant 0 <= i <= |lines|
      invariant Run(questions, current, lines[i..]) == records
    {
      RunAdvance(questions, current, lines, i);
      questions, current := ParseLine(questions, current, lines[i]);
      i := i + 1;
    }
    assert lines[i..] == [];
    assert questions + Emit(current) == records;
    if current.questionText != [] {
      questions := questions + [current];
    } else {
      assert questions + [] == questions;
    }
    ParseIsRecords(lines);
  }

  // ----------------------------------------------------------- topic tagging

  /** The stored record: `{ topic: req.body.topic || "general", ...q }`. */
  datatype QuizEntry = QuizEntry(topic: string, questionText: string, options: seq<string>, correctAnswer: Option<int>)

  /** `req.body.topic || "general"`: an absent or empty topic becomes `"general"`. */
  function TopicOrDefault(topic: Option<string>): (t: string)
    ensures t != []
    ensures topic.Some? && topic.value != [] ==> t == topic.value
    ensures topic.None? || topic.value == [] ==> t == "general"
  {
    if topic.Some? && topic.value != [] then topic.value else "general"
  }

  /** `questions.map((q) => ({ topic: ..., ...q }))`. */
  function TagTopic(questions: seq<Question>, topic: Option<string>): (entries: seq<QuizEntry>)
    ensures |entries| == |questions|
    ensures forall k :: 0 <= k < |questions| ==>
              && entries[k].topic == TopicOrDefault(topic)
              && entries[k].questionText == questions[k].questionText
              && entries[k].options == questions[k].options
              && entries[k].correctAnswer == questions[k].correctAnswer
  {
    if questions == [] then []
    else
      var q := questions[0];
      [QuizEntry(TopicOrDefault(topic), q.questionText, q.options, q.correctAnswer)]
        + TagTopic(questions[1..], topic)
  }

  // ---------------------------------------------------------- saving the quiz

  /**
   * The four required paths of the `Quiz` schema: a non-empty `topic` and
   * `questionText`, an `options` array (which an empty one satisfies) and a
   * `correctAnswer` that is not `null`. There is no range rule, so -1 passes.
   */
  predicate QuizStorable(e: QuizEntry) {
    e.topic != [] && e.questionText != [] && e.correctAnswer.Some?
  }

  predicate AllStorable(entries: seq<QuizEntry>) {
    forall k :: 0 <= k < |entries| ==> QuizStorable(entries[k])
  }

  /** 201 with the saved entries, or 500 when `insertMany` throws. */
  datatype UploadResult = Saved(count: nat, data: seq<QuizEntry>) | SaveFailed

  /**
   * `Quiz.insertMany(entries)`, ordered: every entry is validated before any is
   * written, so a single entry that fails saves nothing and the upload answers 500.
   */
  function SaveQuiz(entries: seq<QuizEntry>): (r: UploadResult)
    ensures r.Saved? <==> forall k :: 0 <= k < |entries| ==> QuizStorable(entries[k])
    ensures r.Saved? ==> r.count == |entries| && r.data == entries
  {
    if AllStorable(entries) then Saved(|entries|, entries) else SaveFailed
  }

  /**
   * ALL OR NOTHING. The tagged records of an upload are saved exactly when every
   * record has an answer: no prompt and no topic is ever empty.
   */
  lemma UploadNeedsEveryAnswer(lines: seq<string>, topic: Option<string>)
    ensures SaveQuiz(TagTopic(Records(lines), topic)).Saved? <==>
              forall k :: 0 <= k < |Records(lines)| ==> Records(lines)[k].correctAnswer.Some?
  {
    RecordsHavePrompts(lines);
    var rs := Records(lines);
    var es := TagTopic(rs, topic);
    assert forall k :: 0 <= k < |es| ==> (QuizStorable(es[k]) <==> rs[k].correctAnswer.Some?);
  }

  /** The record of a block with a prompt sits right after the records of the lines before it. */
  lemma BlockRecordAt(a: seq<string>, q: string, body: seq<string>, rest: seq<string>)
    requires IsQuestionStart(q) && PromptOf(q) != [] && NoQuestionStart(body)
    requires rest == [] || IsQuestionStart(rest[0])
    ensures var out := Records(a + ([q] + body + rest));
            |Records(a)| < |out| && out[|Records(a)|] == Question(PromptOf(q), OptionTexts(body), LastAnswer(body))
  {
    RecordsBlockCons(q, body, rest);
    RecordsAppend(a, [q] + body + rest);
  }

  /** A question with a prompt and no `Answer:` line makes the whole upload fail. */
  lemma UnansweredQuestionFailsUpload(a: seq<string>, q: string, body: seq<string>, rest: seq<string>,
                                      topic: Option<string>)
    requires IsQuestionStart(q) && PromptOf(q) != [] && NoQuestionStart(body) && NoAnswerFrom(body, 0)
    requires rest == [] || IsQuestionStart(rest[0])
    ensures SaveQuiz(TagTopic(Records(a + ([q] + body + rest)), topic)).SaveFailed?
  {
    var lines := a + ([q] + body + rest);
    BlockRecordAt(a, q, body, rest);
    LastAnswerIsLast(body);
    assert Records(lines)[|Records(a)|].correctAnswer.None?;
    UploadNeedsEveryAnswer(lines, topic);
  }
}
