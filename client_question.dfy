/** The question record the two pages handle: what the admin panel builds and what the quiz page receives. */
module ClientQuestion {

  /** `{language, questionText, options, correctAnswer}`, the answer an option index. */
  datatype Mcq = Mcq(language: string, questionText: string, options: seq<string>, correctAnswer: int)

}
