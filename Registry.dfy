/**
 * The server's client registry as values: one session record per live
 * connection, the registry-order list of connections (Python's dict keeps
 * insertion order), and the pure functions that say what each handler does to
 * a record and what it writes to the connections. The class in module Server
 * performs these steps in place and is specified by these functions.
 */
module Registry {
  import opened Wrappers
  import opened Text
  import opened Protocol
  import opened Ranking

  /** Questions per quiz (`self.max_questions`). */
  const MaxQuestions: nat := 5

  /** One connection's record. `currentAnswer` is `None` until the first
      question is sent: the source reads it with `.get('current_answer', '')`. */
  datatype Session = Session(username: string, topic: string, score: nat, answered: nat, currentAnswer: Option<string>)

  /** The record created when a connection is accepted. */
  function NewSession(): Session {
    Session("", "", 0, 0, None)
  }

  predicate Distinct<T(==)>(s: seq<T>) {
    forall i, j :: 0 <= i < j < |s| ==> s[i] != s[j]
  }

  /** Some record already carries exactly this username. */
  ghost predicate NameTaken(clients: map<Conn, Session>, name: string) {
    exists c :: c in clients && clients[c].username == name
  }

  /** No two records carry the same non-empty username. */
  ghost predicate UniqueNames(clients: map<Conn, Session>) {
    forall c, d :: c in clients && d in clients && c != d && clients[c].username != "" ==>
      clients[c].username != clients[d].username
  }

  /** The invariant of the registry: `order` lists every connection once, no
      record has more correct answers than answers, names are unique, and the
      topic is either unset or a topic of the bank. */
  ghost predicate RegistryOk(bank: map<string, seq<Question>>, clients: map<Conn, Session>, order: seq<Conn>) {
    && Distinct(order)
    && (forall c :: c in order ==> c in clients)
    && (forall c :: c in clients ==> c in order)
    && (forall c :: c in clients ==> clients[c].score <= clients[c].answered)
    && (forall c :: c in clients ==> clients[c].topic == "" || clients[c].topic in bank)
    && UniqueNames(clients)
  }

  /** Replacing one record by another with the same name, counters in order
      and a valid topic keeps the invariant. */
  lemma ReplaceKeepsOk(bank: map<string, seq<Question>>, clients: map<Conn, Session>, order: seq<Conn>,
                       conn: Conn, s: Session)
    requires RegistryOk(bank, clients, order) && conn in clients
    requires s.username == clients[conn].username && s.score <= s.answered
    requires s.topic == "" || s.topic in bank
    ensures RegistryOk(bank, clients[conn := s], order)
  {
    var cl := clients[conn := s];
    forall c, d | c in cl && d in cl && c != d && cl[c].username != ""
      ensures cl[c].username != cl[d].username
    {
      assert cl[c].username == clients[c].username && cl[d].username == clients[d].username;
    }
  }

  /** `order` without `conn`, the others in their order (`del self.clients[conn]`). */
  function Without(order: seq<Conn>, conn: Conn): (r: seq<Conn>)
    ensures forall c :: c in r <==> c in order && c != conn
    ensures Distinct(order) ==> Distinct(r)
    ensures conn !in order ==> r == order
  {
    if order == [] then []
    else
      var rest := Without(order[..|order| - 1], conn);
      var last := order[|order| - 1];
      assert forall c :: c in order <==> c in order[..|order| - 1] || c == last;
      assert Distinct(order) ==> last !in order[..|order| - 1];
      rest + (if last == conn then [] else [last])
  }

  /** Cutting position `k` out of a list and then appending `last` is
      cutting position `k` out of the list with `last` appended. */
  lemma CutThenAppend<T>(init: seq<T>, last: T, k: nat)
    requires k < |init|
    ensures (init[..k] + init[k + 1..]) + [last] == (init + [last])[..k] + (init + [last])[k + 1..]
  {
    var s := init + [last];
    assert s[..k] == init[..k];
    assert s[k + 1..] == init[k + 1..] + [last];
    Assoc(init[..k], init[k + 1..], [last]);
  }

  /** Removing a connection that is listed once, at position `k`, leaves
      the other connections in their order: the list with position `k` cut
      out. */
  lemma {:induction false} WithoutSpec(order: seq<Conn>, conn: Conn, k: nat)
    requires Distinct(order) && k < |order| && order[k] == conn
    ensures Without(order, conn) == order[..k] + order[k + 1..]
  {
    var n := |order| - 1;
    var init, last := order[..n], order[n];
    assert order == init + [last];
    if k == n {
      assert conn !in init;
      assert Without(order, conn) == Without(init, conn) + [];
      assert order[..n] + order[n + 1..] == init + [];
    } else {
      assert Distinct(init) && init[k] == conn && last != conn;
      WithoutSpec(init, conn, k);
      assert Without(order, conn) == Without(init, conn) + [last];
      CutThenAppend(init, last, k);
    }
  }

  /** The answer check of `handle_answer`: lower-cased equality. */
  predicate Correct(userAnswer: string, expected: string) {
    Lower(userAnswer) == Lower(expected)
  }

  /** The answer check is case-insensitive equality, character by character. */
  lemma CorrectIsCaseInsensitive(userAnswer: string, expected: string)
    ensures Correct(userAnswer, expected) <==> SameIgnoringCase(userAnswer, expected)
  {
    LowerEqualIff(userAnswer, expected);
  }

  /** The record after scoring the (already stripped) answer `userAnswer`. */
  function Scored(s: Session, userAnswer: string): (r: Session)
    ensures r.answered == s.answered + 1
    ensures r.score == if Correct(userAnswer, s.currentAnswer.GetOr("")) then s.score + 1 else s.score
    ensures r.username == s.username && r.topic == s.topic && r.currentAnswer == s.currentAnswer
    ensures s.score <= s.answered ==> r.score <= r.answered
  {
    var hit := Correct(userAnswer, s.currentAnswer.GetOr(""));
    s.(score := if hit then s.score + 1 else s.score, answered := s.answered + 1)
  }

  /** The record after `restart`: counters and topic cleared, name kept. */
  function Restarted(s: Session): (r: Session)
    ensures r.score == 0 && r.answered == 0 && r.topic == ""
    ensures r.username == s.username && r.currentAnswer == s.currentAnswer
  {
    s.(score := 0, answered := 0, topic := "")
  }

  /** The connections in `order` whose record has a username, in registry order. */
  function RegisteredConns(clients: map<Conn, Session>, order: seq<Conn>): (r: seq<Conn>)
    requires forall c :: c in order ==> c in clients
    ensures forall c :: c in r <==> c in order && clients[c].username != ""
    ensures Distinct(order) ==> Distinct(r)
  {
    if order == [] then []
    else
      var init := order[..|order| - 1];
      var last := order[|order| - 1];
      assert forall c :: c in order <==> c in init || c == last;
      RegisteredConns(clients, init) + (if clients[last].username != "" then [last] else [])
  }

  function EntryOf(s: Session): Entry {
    Entry(s.username, s.score, s.answered, s.topic)
  }

  /** The unsorted leaderboard list `broadcast_leaderboard` builds: one entry per
      registered record, in registry order. */
  function Standings(clients: map<Conn, Session>, order: seq<Conn>): seq<Entry>
    requires forall c :: c in order ==> c in clients
  {
    if order == [] then []
    else
      var last := order[|order| - 1];
      Standings(clients, order[..|order| - 1]) + (if clients[last].username != "" then [EntryOf(clients[last])] else [])
  }

  /** Elements `i` and `j` of `r` occur in `order`, the first one earlier. */
  ghost predicate PairInOrder(r: seq<Conn>, order: seq<Conn>, i: int, j: int)
    requires 0 <= i < j < |r|
  {
    exists a, b :: 0 <= a < b < |order| && order[a] == r[i] && order[b] == r[j]
  }

  /** Of any two elements of `r`, the earlier one sits at an earlier position
      of `order`: `r` lists its elements in the order of `order`. */
  ghost predicate InOrderOf(r: seq<Conn>, order: seq<Conn>) {
    forall i, j :: 0 <= i < j < |r| ==> PairInOrder(r, order, i, j)
  }

  /** Appending an element to `order`, and possibly to `r`, keeps `r` in the
      order of `order` when `r` draws only on `order`. */
  lemma InOrderSnoc(r: seq<Conn>, order: seq<Conn>, extra: seq<Conn>, last: Conn)
    requires InOrderOf(r, order) && (forall c :: c in r ==> c in order)
    requires extra == [] || extra == [last]
    ensures InOrderOf(r + extra, order + [last])
  {
    var r2, order2 := r + extra, order + [last];
    forall i, j | 0 <= i < j < |r2|
      ensures PairInOrder(r2, order2, i, j)
    {
      assert r2[i] == r[i];
      if j < |r| {
        assert r2[j] == r[j];
        assert PairInOrder(r, order, i, j);
        var a, b :| 0 <= a < b < |order| && order[a] == r[i] && order[b] == r[j];
        assert order2[a] == order[a] && order2[b] == order[b];
      } else {
        assert r[i] in r;
        var a :| 0 <= a < |order| && order[a] == r[i];
        assert order2[a] == order[a] && order2[|order|] == r2[j];
      }
    }
  }

  /** The registered connections are listed in registry order. */
  lemma {:induction false} RegisteredInOrder(clients: map<Conn, Session>, order: seq<Conn>)
    requires forall c :: c in order ==> c in clients
    ensures InOrderOf(RegisteredConns(clients, order), order)
  {
    if order != [] {
      var init := order[..|order| - 1];
      var last := order[|order| - 1];
      assert order == init + [last];
      RegisteredInOrder(clients, init);
      var ri := RegisteredConns(clients, init);
      InOrderSnoc(ri, init, if clients[last].username != "" then [last] else [], last);
    }
  }

  /** Entry `k` of the standings is the entry of the `k`-th registered connection. */
  lemma {:induction false} StandingsEntries(clients: map<Conn, Session>, order: seq<Conn>)
    requires forall c :: c in order ==> c in clients
    ensures |Standings(clients, order)| == |RegisteredConns(clients, order)|
    ensures forall k :: 0 <= k < |Standings(clients, order)| ==>
      Standings(clients, order)[k] == EntryOf(clients[RegisteredConns(clients, order)[k]])
  {
    if order != [] {
      StandingsEntries(clients, order[..|order| - 1]);
    }
  }

  /** The standings are exactly the entries of the registered connections,
      taken in registry order. */
  lemma StandingsSpec(clients: map<Conn, Session>, order: seq<Conn>)
    requires forall c :: c in order ==> c in clients
    ensures |Standings(clients, order)| == |RegisteredConns(clients, order)|
    ensures forall k :: 0 <= k < |Standings(clients, order)| ==>
      Standings(clients, order)[k] == EntryOf(clients[RegisteredConns(clients, order)[k]])
    ensures InOrderOf(RegisteredConns(clients, order), order)
  {
    StandingsEntries(clients, order);
    RegisteredInOrder(clients, order);
  }

  /** The leaderboard that is broadcast: the standings, sorted. */
  function LeaderboardOf(clients: map<Conn, Session>, order: seq<Conn>): seq<Entry>
    requires forall c :: c in order ==> c in clients
  {
    SortDesc(Standings(clients, order))
  }

  /** The same reply written to every connection, in registry order. */
  function Fanout(order: seq<Conn>, reply: Reply): seq<Envelope> {
    if order == [] then [] else Fanout(order[..|order| - 1], reply) + [Envelope(order[|order| - 1], reply)]
  }

  /** The fan-out writes the reply once to each connection, in registry order. */
  lemma {:induction false} FanoutSpec(order: seq<Conn>, reply: Reply)
    ensures |Fanout(order, reply)| == |order|
    ensures forall k :: 0 <= k < |order| ==> Fanout(order, reply)[k] == Envelope(order[k], reply)
  {
    if order != [] {
      FanoutSpec(order[..|order| - 1], reply);
    }
  }

  /** What `broadcast_leaderboard` writes. */
  function LeaderboardBroadcast(clients: map<Conn, Session>, order: seq<Conn>): seq<Envelope>
    requires forall c :: c in order ==> c in clients
  {
    Fanout(order, Leaderboard(LeaderboardOf(clients, order)))
  }

  /** The `quiz_complete` message for a record (without the float percentage). */
  function CompletionMessage(s: Session): Reply {
    QuizComplete(s.score, MaxQuestions, s.topic,
      "Quiz completed! Your final score: " + Decimal(s.score) + "/" + Decimal(MaxQuestions), true)
  }

  /** What `send_quiz_complete` writes: the summary to the client, then a leaderboard to all. */
  function Completion(clients: map<Conn, Session>, order: seq<Conn>, conn: Conn): seq<Envelope>
    requires forall c :: c in order ==> c in clients
    requires conn in clients
  {
    [Envelope(conn, CompletionMessage(clients[conn]))] + LeaderboardBroadcast(clients, order)
  }

  /** `random.choice` over the topic's questions is modelled by an index `pick`;
      it must be a valid index for the topic the question is drawn from. */
  predicate PickFits(bank: map<string, seq<Question>>, topic: string, pick: nat) {
    topic in bank ==> pick < |bank[topic]|
  }

  /** What `send_question` does to the registry and writes, for question `pick`:
      nothing for a connection that is gone (the timer thread's lookup fails),
      the completion summary once the quiz length is reached, an error without
      a valid topic, and otherwise the question, after recording its answer. */
  function QuestionStep(bank: map<string, seq<Question>>, clients: map<Conn, Session>, order: seq<Conn>,
                        conn: Conn, pick: nat): (map<Conn, Session>, seq<Envelope>)
    requires forall c :: c in order ==> c in clients
    requires conn in clients ==> PickFits(bank, clients[conn].topic, pick)
  {
    if conn !in clients then (clients, [])
    else
      var s := clients[conn];
      if s.answered >= MaxQuestions then (clients, Completion(clients, order, conn))
      else if s.topic !in bank then (clients, [Envelope(conn, Error("Topic not selected"))])
      else
        var q := bank[s.topic][pick];
        (clients[conn := s.(currentAnswer := Some(q.answer))],
         [Envelope(conn, QuestionReply(q.prompt, q.choices, s.answered + 1, MaxQuestions))])
  }

  /** The broadcast leaderboard is the standings reordered: non-increasing in
      (score, answered), the same entries, and entries with equal keys in
      registry order. */
  lemma LeaderboardRanked(clients: map<Conn, Session>, order: seq<Conn>)
    requires forall c :: c in order ==> c in clients
    ensures SortedDesc(LeaderboardOf(clients, order))
    ensures multiset(LeaderboardOf(clients, order)) == multiset(Standings(clients, order))
    ensures forall score: nat, answered: nat ::
      WithKey(LeaderboardOf(clients, order), score, answered) == WithKey(Standings(clients, order), score, answered)
  {
    var st := Standings(clients, order);
    SortDescSorted(st);
    SortDescPermutes(st);
    forall score: nat, answered: nat
      ensures WithKey(SortDesc(st), score, answered) == WithKey(st, score, answered)
    {
      SortDescStable(st, score, answered);
    }
  }

  /** Every leaderboard entry is the entry of a registered record in the registry. */
  lemma LeaderboardFromRegistered(clients: map<Conn, Session>, order: seq<Conn>, e: Entry)
    requires forall c :: c in order ==> c in clients
    requires e in LeaderboardOf(clients, order)
    ensures exists c :: c in order && clients[c].username != "" && e == EntryOf(clients[c])
  {
    var st := Standings(clients, order);
    SortDescPermutes(st);
    StandingsSpec(clients, order);
    assert e in multiset(st);
    var k :| 0 <= k < |st| && st[k] == e;
    var rc := RegisteredConns(clients, order);
    var w := rc[k];
    assert w in rc;
    assert w in order;
    assert clients[w].username != "";
    assert e == EntryOf(clients[w]);
  }

  /** A worked ranking of three players: A (3 of 5),
      B (3 of 4) and C (5 of 5) are ranked C, A, B. */
  lemma LeaderboardExample()
    ensures var a, b, c := Entry("A", 3, 5, "t"), Entry("B", 3, 4, "t"), Entry("C", 5, 5, "t");
      SortDesc([a, b, c]) == [c, a, b]
  {
    var a, b, c := Entry("A", 3, 5, "t"), Entry("B", 3, 4, "t"), Entry("C", 5, 5, "t");
    assert [a, b, c][1..] == [b, c] && [b, c][1..] == [c] && [c][1..] == [];
    assert SortDesc([c]) == [c];
    assert SortDesc([b, c]) == Insert(b, [c]) == [c, b];
    assert Insert(a, [b]) == [a, b];
  }

  /** After `conn` is removed, no entry of the leaderboard carries its name. */
  lemma DisconnectedLeavesLeaderboard(clients: map<Conn, Session>, order: seq<Conn>, conn: Conn)
    requires forall c :: c in order ==> c in clients
    requires forall c :: c in clients ==> c in order
    requires UniqueNames(clients)
    requires conn in clients && clients[conn].username != ""
    ensures var rest := clients - {conn};
      forall e :: e in LeaderboardOf(rest, Without(order, conn)) ==> e.username != clients[conn].username
  {
    var rest := clients - {conn};
    var o := Without(order, conn);
    forall e | e in LeaderboardOf(rest, o) ensures e.username != clients[conn].username {
      LeaderboardFromRegistered(rest, o, e);
      var c :| c in o && rest[c].username != "" && e == EntryOf(rest[c]);
      assert c != conn && c in clients;
    }
  }

  /** `send_question`: a question goes only to `conn`, only before the quiz
      length is reached, numbered `answered + 1` out of MaxQuestions; the
      completion summary is sent exactly when the quiz length is reached. In
      full: a connection that is gone gets nothing; a finished one gets its
      summary first; one without a valid topic gets "Topic not selected";
      and otherwise it gets one question of its topic, whose answer becomes
      the pending answer. */
  lemma QuestionStepOutcome(bank: map<string, seq<Question>>, clients: map<Conn, Session>, order: seq<Conn>,
                            conn: Conn, pick: nat)
    requires forall c :: c in order ==> c in clients
    requires conn in clients ==> PickFits(bank, clients[conn].topic, pick)
    ensures var (cl, out) := QuestionStep(bank, clients, order, conn, pick);
      && (forall e :: e in out && e.reply.QuestionReply? ==>
            e.to == conn && conn in clients && clients[conn].answered < MaxQuestions &&
            e.reply.questionNumber == clients[conn].answered + 1 <= MaxQuestions &&
            e.reply.totalQuestions == MaxQuestions)
      && ((exists e :: e in out && e.reply.QuizComplete?) <==> conn in clients && clients[conn].answered >= MaxQuestions)
    ensures var (cl, out) := QuestionStep(bank, clients, order, conn, pick);
      && (conn !in clients ==> cl == clients && out == [])
      && (conn in clients && clients[conn].answered >= MaxQuestions ==>
            cl == clients && out != [] && out[0] == Envelope(conn, CompletionMessage(clients[conn])))
      && (conn in clients && clients[conn].answered < MaxQuestions && clients[conn].topic !in bank ==>
            cl == clients && out == [Envelope(conn, Error("Topic not selected"))])
    ensures var (cl, out) := QuestionStep(bank, clients, order, conn, pick);
      conn in clients && clients[conn].answered < MaxQuestions && clients[conn].topic in bank ==>
        exists q :: q in bank[clients[conn].topic]
          && out == [Envelope(conn, QuestionReply(q.prompt, q.choices, clients[conn].answered + 1, MaxQuestions))]
          && conn in cl && cl[conn].currentAnswer == Some(q.answer)
  {
    var (cl, out) := QuestionStep(bank, clients, order, conn, pick);
    if conn in clients && clients[conn].answered >= MaxQuestions {
      var lb := LeaderboardBroadcast(clients, order);
      assert out == [Envelope(conn, CompletionMessage(clients[conn]))] + lb;
      FanoutSpec(order, Leaderboard(LeaderboardOf(clients, order)));
      assert forall e :: e in lb ==> e.reply.Leaderboard?;
      assert out[0] in out;
    } else if conn in clients && clients[conn].topic in bank {
      var q := bank[clients[conn].topic][pick];
      assert q in bank[clients[conn].topic];
    }
  }

  /** A question sent and then answered: the answer scores a point exactly
      when it equals that question's answer, ignoring ASCII case. */
  lemma QuestionThenAnswer(bank: map<string, seq<Question>>, clients: map<Conn, Session>, order: seq<Conn>,
                           conn: Conn, pick: nat, userAnswer: string)
    requires forall c :: c in order ==> c in clients
    requires conn in clients && clients[conn].answered < MaxQuestions && clients[conn].topic in bank
    requires PickFits(bank, clients[conn].topic, pick)
    ensures var (cl, out) := QuestionStep(bank, clients, order, conn, pick);
      var q := bank[clients[conn].topic][pick];
      && out == [Envelope(conn, QuestionReply(q.prompt, q.choices, clients[conn].answered + 1, MaxQuestions))]
      && Scored(cl[conn], userAnswer).score ==
           clients[conn].score + (if SameIgnoringCase(userAnswer, q.answer) then 1 else 0)
  {
    var q := bank[clients[conn].topic][pick];
    CorrectIsCaseInsensitive(userAnswer, q.answer);
  }

  /** `send_question` changes no record but `conn`'s, and of that only the
      pending answer. */
  lemma QuestionStepRecords(bank: map<string, seq<Question>>, clients: map<Conn, Session>, order: seq<Conn>,
                            conn: Conn, pick: nat)
    requires forall c :: c in order ==> c in clients
    requires conn in clients ==> PickFits(bank, clients[conn].topic, pick)
    ensures var cl := QuestionStep(bank, clients, order, conn, pick).0;
      && cl.Keys == clients.Keys
      && (forall c :: c in clients && c != conn ==> cl[c] == clients[c])
      && (conn in clients ==> cl[conn] == clients[conn].(currentAnswer := cl[conn].currentAnswer))
  {
  }

  /** `send_question` keeps the registry invariant. */
  lemma QuestionStepKeepsInvariant(bank: map<string, seq<Question>>, clients: map<Conn, Session>, order: seq<Conn>,
                                   conn: Conn, pick: nat)
    requires RegistryOk(bank, clients, order)
    requires conn in clients ==> PickFits(bank, clients[conn].topic, pick)
    ensures RegistryOk(bank, QuestionStep(bank, clients, order, conn, pick).0, order)
  {
    QuestionStepRecords(bank, clients, order, conn, pick);
  }

  /** Case-insensitive matching on a worked example: "Paris", "paris"
      and "PARIS" are all correct against "Paris"; "Rome" is not. */
  lemma AnswerMatchingExample()
    ensures Correct("Paris", "Paris") && Correct("paris", "Paris") && Correct("PARIS", "Paris")
    ensures !Correct("Rome", "Paris")
  {
    assert Lower("Paris") == "paris";
    assert Lower("PARIS") == "paris";
    assert Lower("Rome") == "rome";
  }

  /** Scoring does not check that a question is outstanding: a record that was
      never sent a question compares against the empty default, so an empty
      answer scores a point. */
  lemma AnswerWithoutQuestionScores(s: Session)
    requires s.currentAnswer.None?
    ensures Scored(s, "").score == s.score + 1
  {
  }
}
