/**
 * The records exchanged between quiz clients and the quiz server, one per
 * newline-terminated JSON object on the wire. The JSON codec itself is not
 * modelled: a message is a value of one of these datatypes.
 */
module Protocol {
  import opened Wrappers

  /** A connection, identified by an integer instead of a socket object. */
  type Conn = int

  /** One entry of a topic's question list: prompt (`q`), choices, correct answer (`a`). */
  datatype Question = Question(prompt: string, choices: seq<string>, answer: string)

  /** One row of the leaderboard. */
  datatype Entry = Entry(username: string, score: nat, answered: nat, topic: string)

  /** A decoded client-to-server message. A field that the JSON object lacks
      is `None`; `Other` is any `type` the server does not know, carrying the
      text Python renders for it (`"None"` when the field is missing). */
  datatype Request =
    | Register(username: Option<string>)
    | SelectTopic(topic: Option<string>)
    | Answer(answer: Option<string>)
    | Ready
    | Restart
    | Disconnect
    | Other(typeText: string)

  /** A server-to-client message. The `percentage` field of `quiz_complete` is
      a float and is not part of the model. */
  datatype Reply =
    | Topics(topics: seq<string>, message: string)
    | TopicConfirmed(topic: string, message: string)
    | QuestionReply(question: string, choices: seq<string>, questionNumber: nat, totalQuestions: nat)
    | Result(correct: bool, correctAnswer: string, yourAnswer: string, score: nat, questionsAnswered: nat)
    | Leaderboard(leaderboard: seq<Entry>)
    | QuizComplete(finalScore: nat, totalQuestions: nat, topic: string, message: string, canRestart: bool)
    | Error(message: string)

  /** A reply written to one connection. */
  datatype Envelope = Envelope(to: Conn, reply: Reply)

  /** The text Python's f-string gives for an optional string field. */
  function Render(v: Option<string>): string {
    match v
    case Some(s) => s
    case None => "None"
  }
}
