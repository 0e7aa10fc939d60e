# QuizGame: a verified model of the quiz server and the client's receive and menu loops

QuizGame is a multi-user flashcard quiz played over TCP. Each message is one
JSON object per line.

- **Server** (`server.py`): keeps one record per connection (username, topic,
  score, questions answered, pending correct answer). It registers unique
  usernames, confirms a topic and sends random questions from it, and scores
  answers case-insensitively. After every answer it broadcasts a leaderboard
  sorted by (score, answered) descending. After five answers it sends a
  completion summary. It also handles restarts and disconnections.
- **Client** (`client.py`): cuts the byte stream into lines and lets the user
  pick topics and answers from 1-based numbered menus.

The model has nine modules:

- `Wrappers`: `Option`, for JSON fields that may be missing.
- `Text`: Python's `str.strip()`, `str.lower()` and `str(n)` over ASCII.
- `Protocol`: the messages in both directions, and the envelope of a reply
  written to a connection.
- `Ranking`: the stable descending sort that `list.sort(key=..., reverse=True)`
  performs.
- `Registry`: the session records and the registry invariant, as values. It
  also holds the functions that say what each handler does to a record and
  what it writes.
- `Server`: the `QuizServer` class.
  - `clients` is a map, and `order` records the dict's insertion order, which
    decides ties on the leaderboard.
  - `outbox` is every reply written, oldest first.
  - `timers` lists the pending delayed `send_question` calls.
  - Each handler is a method proved against the `Registry` functions. Every
    handler keeps the registry invariant: names are unique, `order` lists each
    connection once, score ≤ answered, and the topic is empty or in the bank.
  - Each handler's whole effect is a two-state predicate of the class
    (`RegistrationDone`, `TopicSelectionDone`, `QuestionSent`, `AnswerDone`,
    `RestartDone`, `DisconnectDone`). The handler establishes it, and
    `ProcessMessage` promises the matching one for each message type.
- `Locking`: the lock operations of the handlers, run against a non-re-entrant
  lock (see Findings).
- `Framing`: the client's receive buffer (`listen_to_server`).
- `Menu`: the client's numbered prompts (`handle_topics`, `handle_question`).

Where the code departs from what the protocol evidently intends, the model follows the code:

- An `answer` is scored even when no question is outstanding. When no
  question has ever been sent, the expected answer defaults to `''`, so an empty answer scores a point
  (`Registry.AnswerWithoutQuestionScores`).
- The stored correct answer is never cleared after scoring, and `answered`
  can exceed five when answers keep arriving: `handle_answer` increments it
  without checking that a question is outstanding or that the quiz is over
  (server.py:237).
- A connection that has not registered can still select a topic, answer and
  restart. The protocol intends an unregistered client to be limited to
  `register`.
- A disconnect does not cancel a pending delayed question. When the timer
  fires for a connection that is gone, the lookup fails in the timer thread
  and nothing is written (`Server.QuizServer.FireTimer`). The protocol
  intends the pending task to be cancelled. A socket object is never
  reused, so a stale timer cannot reach a later connection; the model keeps
  this by giving a new connection only an id that no pending timer names
  (`Server.QuizServer.Accept`).
- Registering the name a connection already holds is refused as
  "Username already taken", because the connection's own record is searched
  too.

## Model

| member | source | states |
|---|---|---|
| Wrappers.Option.GetOr | server.py:134 | defines `dict.get(key, default)`; the `''` default is stated by Scored and AnswerWithoutQuestionScores |
| Text.Strip | server.py:134 | defines `str.strip()` over ASCII as trimming the start, then the end; what it means is stated by StripSpec, StripEmptyIff and StripIdempotent |
| Text.TrimStartSpec | server.py:134 | leading trim drops a whitespace-only prefix and stops at a non-space character |
| Text.TrimEndSpec | server.py:134 | trailing trim drops a whitespace-only suffix and stops at a non-space character |
| Text.StripSpec | server.py:134 | the stripped text is the exact slice of the input between a whitespace prefix and a whitespace suffix, and it neither begins nor ends with whitespace |
| Text.StripEmptyIff | server.py:136 | a name strips to empty exactly when it is whitespace only |
| Text.StripIdempotent | server.py:224 | stripping an already stripped text changes nothing |
| Text.Lower | server.py:232 | lowering keeps the length and lowers each character on its own |
| Text.LowerEqualIff | server.py:232 | two texts have the same lowering exactly when they agree character by character ignoring ASCII case |
| Text.LowerIdempotent | server.py:232 | lowering twice is lowering once, and no upper-case ASCII letter is left |
| Text.DigitChar | server.py:281 | defines the digit of 0..9; what it means is stated by DecimalSpec |
| Text.DecimalSpec | server.py:281 | `str(n)` is non-empty digits with no leading zero, and reading the digits back gives n |
| Text.Decimal | server.py:281 | defines `str(n)` for the score in the completion text; what it means is stated by DecimalSpec |
| Ranking.SortDesc | server.py:308 | defines the stable descending sort by insertion; what it means is stated by SortDescPermutes, SortDescSorted and SortDescStable |
| Ranking.InsertPermutes | server.py:308 | inserting one entry adds exactly that entry to the multiset |
| Ranking.InsertBounded | server.py:308 | insertion keeps an upper bound that holds for the entry and for the list |
| Ranking.InsertSorted | server.py:308 | inserting into a list sorted descending on (score, answered) keeps it sorted |
| Ranking.InsertWithKey | server.py:308 | among entries with one key, insertion puts the new entry before the others with that key |
| Ranking.SortDescPermutes | server.py:308 | the sorted leaderboard is a permutation of its input |
| Ranking.SortDescSorted | server.py:308 | the sorted leaderboard is non-increasing in (score, answered) |
| Ranking.SortDescStable | server.py:308 | entries with equal (score, answered) keep their input order: the sort is stable |
| Registry.ReplaceKeepsOk | server.py:226-237 | replacing a record with one that has the same name, score ≤ answered and a valid topic keeps the registry invariant |
| Registry.Without | server.py:347 | deleting a connection leaves every other connection and nothing else, and keeps the list free of repeats |
| Registry.WithoutSpec | server.py:347 | deleting a connection listed once at position k is cutting position k out of the list: the others keep their order |
| Registry.Correct | server.py:232 | defines the answer check as equality after lowering; what it means is stated by CorrectIsCaseInsensitive |
| Registry.CorrectIsCaseInsensitive | server.py:232 | an answer is correct exactly when it equals the expected answer ignoring ASCII case |
| Registry.Scored | server.py:226-237 | scoring adds one answered, adds one point exactly on a match against the stored answer (or `''` when none is stored), keeps name, topic and stored answer, and keeps score ≤ answered |
| Registry.Restarted | server.py:360-366 | restart zeroes score and answered, clears the topic, keeps the name |
| Registry.RegisteredConns | server.py:298-299 | exactly the connections whose record has a non-empty name, without repeats |
| Registry.RegisteredInOrder | server.py:298-299 | the registered connections are listed in registry order: of any two, the earlier one is earlier in the registry |
| Registry.NewSession | server.py:84-90 | defines the record of a new connection: empty name and topic, zero counters, no pending answer |
| Registry.Standings | server.py:296-305 | defines the unsorted leaderboard list; what it means is stated by StandingsSpec |
| Registry.EntryOf | server.py:300-305 | defines the leaderboard entry of one record; what it means is stated by StandingsSpec and LeaderboardFromRegistered |
| Registry.StandingsSpec | server.py:296-305 | the unsorted leaderboard has one entry per registered connection, entry k copied from the k-th registered connection, and those connections follow registry order |
| Registry.Fanout | server.py:317-322 | defines writing one reply to every connection; what it means is stated by FanoutSpec |
| Registry.FanoutSpec | server.py:317-322 | the broadcast writes the same message once to each connection, in registry order |
| Registry.LeaderboardOf | server.py:295-308 | defines the broadcast list as the sorted standings; what it means is stated by LeaderboardRanked and LeaderboardFromRegistered |
| Registry.LeaderboardBroadcast | server.py:293-322 | defines what `broadcast_leaderboard` writes; BroadcastLeaderboard is proved to write it |
| Registry.CompletionMessage | server.py:266-283 | defines the `quiz_complete` reply: final score, total 5, topic, the "Quiz completed! Your final score: s/5" text, restart allowed |
| Registry.Completion | server.py:264-290 | defines what `send_quiz_complete` writes: the summary, then a leaderboard to all |
| Registry.LeaderboardRanked | server.py:307-308 | the broadcast leaderboard is sorted descending, is a permutation of the standings, and keeps registry order among equal keys |
| Registry.LeaderboardFromRegistered | server.py:296-305 | every leaderboard entry is the entry of a registered record that is present |
| Registry.LeaderboardExample | server.py:308 | scores (3 of 5), (3 of 4), (5 of 5) rank as the third, first, second |
| Registry.DisconnectedLeavesLeaderboard | server.py:343-353 | after a disconnect, no leaderboard entry carries the departed user's name |
| Registry.QuestionStep | server.py:187-220 | defines what `send_question` does to the registry and writes; what it means is stated by QuestionStepOutcome, QuestionStepRecords and QuestionThenAnswer |
| Registry.QuestionStepOutcome | server.py:187-220 | a question goes only to the asking connection, only before the quiz length, numbered answered+1 of 5; the summary is sent exactly when the quiz length is reached; a gone connection gets nothing and no change; a finished one gets its summary first; one without a bank topic gets "Topic not selected"; otherwise it gets exactly one question of its topic, whose answer becomes its pending answer |
| Registry.QuestionThenAnswer | server.py:204-235 | after question q of the topic is sent, an answer scores a point exactly when it equals q's answer ignoring ASCII case |
| Registry.QuestionStepRecords | server.py:216-217 | sending a question changes no other record and only the pending answer of the asker |
| Registry.QuestionStepKeepsInvariant | server.py:187-220 | sending a question keeps the registry invariant |
| Registry.AnswerMatchingExample | server.py:232 | "Paris", "paris", "PARIS" match "Paris"; "Rome" does not |
| Registry.AnswerWithoutQuestionScores | server.py:228-235 | with no stored answer, an empty answer scores a point |
| Server.ReplaceGrows | server.py:148 | replacing one record keeps the connections, and keeps names or grows counters when the new record does |
| Server.QuestionStepGrows | server.py:216-217 | sending a question keeps the connections, every name and every counter |
| Server.TopicStepGrows | server.py:167-181 | choosing a topic and getting the first question keeps the connections, names and counters |
| Server.CollectStandings | server.py:296-305 | the collection loop yields exactly the standings: registered records in registry order |
| Server.QuizServer.constructor | server.py:16-27 | a server starts with no clients, nothing written and no timers, over a topic list that names each bank topic once |
| Server.QuizServer.Accept | server.py:83-90 | a new connection, whose id names no live record and no pending timer, gets an empty record appended in registry order |
| Server.QuizServer.HandleRegistration | server.py:132-157 | empty stripped name gives an error, a name held by any record (the caller's own included) gives an error, otherwise the name is stored and the topic list sent; the invariant, including unique names, is kept |
| Server.QuizServer.HandleTopicSelection | server.py:159-181 | an unknown or missing topic gives an error and changes nothing; a known one is stored, confirmed and followed by the first question |
| Protocol.Render | server.py:164 | defines the f-string text of an optional topic, `None` when absent; it is used by HandleTopicSelection's error reply |
| Server.QuizServer.SendQuestion | server.py:187-220 | the state and output are those of the question step, and the invariant is kept |
| Server.QuizServer.HandleAnswer | server.py:222-262 | the record is scored, the result then a leaderboard are sent, then either the summary or one more pending timer |
| Server.QuizServer.FireTimer | server.py:262 | a pending timer is consumed and performs the question step for its connection, doing nothing for a connection that is gone (an id with a pending timer is never given to a new connection) |
| Server.QuizServer.SendQuizComplete | server.py:264-290 | the summary goes to the client, then a leaderboard to all |
| Server.QuizServer.BroadcastLeaderboard | server.py:293-322 | every connection, in registry order, gets the sorted leaderboard of registered records |
| Server.QuizServer.HandleRestart | server.py:358-376 | a present record is reset and sent the topic list again; an absent connection changes nothing |
| Server.QuizServer.DisconnectClient | server.py:340-356 | the record leaves the registry and the order, timers stay, and the remaining connections get a leaderboard |
| Server.QuizServer.ProcessMessage | server.py:113-130 | each message type has exactly the effect of its handler (registration, topic selection, answer, question step for `ready`, restart, disconnect) on clients, order, outbox and timers; every message keeps the invariant; only disconnect removes a connection; only restart lowers counters; only register renames; an unknown type is reported by name and changes nothing |
| Locking.SectionsComplete | server.py:27 | lock blocks one after another never wait on the thread itself and leave the lock free |
| Locking.Run | server.py:27 | defines the non-re-entrant `threading.Lock` run on a sequence of acquires and releases; what it means is stated by NestedAcquireBlocks and SectionsComplete |
| Locking.SendQuestionLocksAsWritten | server.py:189-217 | defines the lock operations of `send_question` as written; what they do is stated by SendQuestionAsWrittenDeadlocks and SendQuestionAsWrittenUnfinishedCompletes |
| Locking.SendQuestionLocks | server.py:189-217 | defines the same lock operations with the summary sent after the first block; what they do is stated by SendQuestionCompletes |
| Locking.AnswerLocks | server.py:226-262 | defines the lock operations of `handle_answer`; what they do is stated by AnswerCompletes |
| Locking.NestedAcquireBlocks | server.py:27 | acquiring the lock while holding it waits forever |
| Locking.SendQuestionAsWrittenDeadlocks | server.py:189-194 | the as-written `send_question` for a finished quiz blocks at its second acquire |
| Locking.SendQuestionAsWrittenUnfinishedCompletes | server.py:189-217 | before the quiz length the as-written `send_question` completes with the lock free |
| Locking.SendQuestionCompletes | server.py:187-220 | the corrected `send_question` completes with the lock free on every path |
| Locking.AnswerCompletes | server.py:226-262 | `handle_answer` completes with the lock free on both paths |
| Framing.FirstNewline | client.py:82 | the split point is a newline with no newline before it |
| Framing.Received | client.py:76-78 | the `if not data: break` exit: the index of the first empty chunk, every chunk before it non-empty |
| Framing.Frame | client.py:81-82 | defines the complete lines and the remainder of a buffer; what it means is stated by FrameSpec and FrameJoin |
| Framing.FrameSpec | client.py:81-82 | the cut lines and remainder contain no newline and rejoined give the buffer back |
| Framing.FirstNewlineOfJoin | client.py:82 | a newline-free line followed by a newline is split exactly there |
| Framing.FrameJoin | client.py:81-82 | framing a stream of newline-terminated lines gives back those lines, then the framing of the rest |
| Framing.Handed | client.py:83-86 | defines what is handed to the parser; what it means is stated by HandedSpec |
| Framing.Kept | client.py:83-85 | defines what one line hands to the parser; what it means is stated by HandedSpec |
| Framing.HandedAppend | client.py:83-86 | what is handed on for two batches of lines is what is handed on for each, in order |
| Framing.HandedSpec | client.py:83-86 | each handed text is the non-empty strip of a line, and every line that is not all whitespace is handed on stripped |
| Framing.SentHanded | client.py:83-86 | stripped non-empty lines are handed on unchanged |
| Framing.ReceivesWhatWasSent | server.py:327 | messages written one per line reach the client's parser exactly, in order, with nothing left over |
| Framing.SplitLines | client.py:81-86 | the inner loop hands on the stripped non-blank complete lines and keeps the unfinished remainder |
| Framing.Listen | client.py:74-86 | what the receive loop hands on and keeps, when it ends at the first empty chunk, depends only on the bytes received before it, not on the chunking |
| Menu.PickNumbered | client.py:130-133 | number n picks the option listed as n, and only 1..len(options) pick anything |
| Menu.Pick | client.py:130-133 | defines the option picked by number n; what it means is stated by PickNumbered |
| Menu.Prompt | client.py:127-148 | defines how a numbered prompt ends and how many lines it reads; what it means is stated by PromptSpec |
| Menu.PromptSpec | client.py:127-148 | the prompt stops at the first Ctrl-C or number in range and no earlier; the choice is the option with that number; without one, all input is read |
| Menu.PromptForChoice | client.py:127-148 | the prompt loop ends as the prompt specification says, after the same number of lines |
| Menu.HandleTopics | client.py:127-148 | a topic message is sent exactly when an option is chosen, and it carries that topic |
| Menu.HandleQuestion | client.py:174-195 | an answer message is sent exactly when an option is chosen, and it carries that choice |
| Menu.SelectedTopicWasOffered | client.py:132-136 | a selected topic is one of the offered topics |

## Left out

- Sockets, the accept loop, threads and their interleaving are not modelled. Each handler is one atomic step on the registry. The lock appears only in `Locking`.
- JSON encoding and decoding are not modelled: messages are datatype values. The server parses each `recv` result as one JSON object; that read loop and its "Invalid JSON format" reply are not modelled either. Fields of non-string JSON types are left out too.
- The client's "Received invalid JSON" message is left out, because it is JSON decoding.
- UTF-8 decoding is not modelled: chunks are already text. A multi-byte character split between two `recv` calls is therefore not modelled.
- `load_questions` and the questions file are not modelled. The bank is a constructor parameter, together with its topic list in file order. `QuizServer.TopicsListed` relates the two.
- The read loop of `handle_client` is not modelled. After a manual `disconnect` the model therefore writes one leaderboard. The source writes a second one: the closed socket's next `recv` fails, and the `finally` at server.py:110-111 runs `disconnect_client` again.
- The timer delay is left out: a pending timer is an entry of `timers`, and `FireTimer` runs one of them in any order.
- `random.choice` is an index parameter `pick`, required to lie within the topic's questions (`Registry.PickFits`). A topic with an empty question list, where `random.choice` raises, is therefore excluded.
- The `percentage` float of `quiz_complete` is not modelled. Neither are the `address` field and every `print`.
- `Text.Lower` and `Text.Strip` cover ASCII only; Python's Unicode case mapping and whitespace set are not modelled.
- The client's `int(input().strip())` is modelled as an already classified `Menu.Input`. End of input is reported as `InputClosed`; the `EOFError` that follows in the source is not propagated further.
- The client's other handlers (results, leaderboard display, screen clearing) print only and are not modelled. `disconnect` closes the socket and is represented by `Interrupted`.
- Framing.Listen: only the `if not data: break` exit of the receive loop is modelled. The loop also ends when `self.connected` turns false (client.py:74; set by `disconnect` at client.py:287 and by a failed send at client.py:279), and when any exception other than `JSONDecodeError` escapes (client.py:90-93): a decoding error at client.py:76, or the `EOFError` of a menu's `input()` (client.py:129, 176), which the menus do not catch. On those exits the complete lines still in the buffer are never handed on; `Listen` hands them all on.
- Menu.Prompt: the `except KeyboardInterrupt` branches (client.py:145-148, 192-195) are modelled as written. The prompts run on the listener thread (client.py:41, 86), and CPython raises `KeyboardInterrupt` only in the main thread (caught at client.py:51), so `Interrupt` does not arise in practice.
- Server.QuizServer.SendQuizComplete: its contract states the writes only. It requires the connection to be present, where the source would raise `KeyError` otherwise.

## Findings

| source | as written | input that shows it | evidently intended | confidence | as-written member | corrected member |
|---|---|---|---|---|---|---|
| server.py:189-194 | `send_question` calls `send_quiz_complete` inside its `with self.lock:` block; `send_quiz_complete` acquires the same non-re-entrant `threading.Lock` | a `ready` (or a `topic`) message from a client that has answered 5 questions | release the lock, then send the summary | not executed | Locking.SendQuestionAsWrittenDeadlocks | Locking.SendQuestionCompletes |

The deadlock blocks the handling thread while it holds the lock, so every
other connection that needs the registry waits with it. The server model
(`Server.QuizServer.SendQuestion`) uses the corrected order: the summary is
sent after the record has been read.
