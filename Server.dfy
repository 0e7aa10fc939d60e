/**
 * The quiz server's state and message handlers. Each handler is one atomic
 * step on the registry (the source runs it under `self.lock` on the
 * connection's own thread); what the server writes to sockets is appended to
 * `outbox`, and each `threading.Timer` that will send the next question is an
 * entry of `timers`.
 */
module Server {
  import opened Wrappers
  import opened Text
  import opened Protocol
  import opened Registry

  /** Every record of `after` was in `before`, with counters no smaller. */
  ghost predicate CountersGrow(before: map<Conn, Session>, after: map<Conn, Session>) {
    forall c :: c in after ==>
      c in before && before[c].answered <= after[c].answered && before[c].score <= after[c].score
  }

  /** Every record of `after` was in `before`, with the same username. */
  ghost predicate NamesKept(before: map<Conn, Session>, after: map<Conn, Session>) {
    forall c :: c in after ==> c in before && after[c].username == before[c].username
  }

  /** Replacing `conn`'s record lets counters only grow, or keeps every
      name, when the new record does so against the old one. */
  lemma ReplaceGrows(m: map<Conn, Session>, conn: Conn, s: Session)
    requires conn in m
    ensures m[conn := s].Keys == m.Keys
    ensures m[conn].answered <= s.answered && m[conn].score <= s.score ==> CountersGrow(m, m[conn := s])
    ensures s.username == m[conn].username ==> NamesKept(m, m[conn := s])
  {
  }

  /** `send_question` lets counters only grow and keeps every name. */
  lemma QuestionStepGrows(bank: map<string, seq<Question>>, m: map<Conn, Session>, order: seq<Conn>,
                          conn: Conn, pick: nat)
    requires forall c :: c in order ==> c in m
    requires conn in m ==> PickFits(bank, m[conn].topic, pick)
    ensures var cl := QuestionStep(bank, m, order, conn, pick).0;
      cl.Keys == m.Keys && CountersGrow(m, cl) && NamesKept(m, cl)
  {
    QuestionStepRecords(bank, m, order, conn, pick);
  }

  /** Choosing a topic and being sent a question lets counters only grow and
      keeps every name. */
  lemma TopicStepGrows(bank: map<string, seq<Question>>, m: map<Conn, Session>, order: seq<Conn>,
                       conn: Conn, t: string, pick: nat)
    requires forall c :: c in order ==> c in m
    requires conn in m && PickFits(bank, t, pick)
    ensures var cl := QuestionStep(bank, m[conn := m[conn].(topic := t)], order, conn, pick).0;
      cl.Keys == m.Keys && CountersGrow(m, cl) && NamesKept(m, cl)
  {
    var selected := m[conn := m[conn].(topic := t)];
    QuestionStepRecords(bank, selected, order, conn, pick);
  }

  /** The loop of `broadcast_leaderboard` that lists the registered records
      in registry order. */
  method CollectStandings(clients: map<Conn, Session>, order: seq<Conn>) returns (board: seq<Entry>)
    requires forall c :: c in order ==> c in clients
    ensures board == Standings(clients, order)
  {
    board := [];
    var i := 0;
    while i < |order|
      invariant 0 <= i <= |order|
      invariant board == Standings(clients, order[..i])
    {
      assert order[..i + 1][..i] == order[..i];
      var c := order[i];
      assert c in order;
      assert c in clients;
      var s := clients[c];
      if s.username != "" {
        board := board + [EntryOf(s)];
      }
      i := i + 1;
    }
    assert order[..|order|] == order;
  }

  class QuizServer {
    /** The question bank, topic to questions, fixed at start-up. */
    const bank: map<string, seq<Question>>
    /** The bank's topics in document order, as `list(questions_data.keys())` gives them. */
    const topicNames: seq<string>
    /** One record per live connection (`self.clients`). */
    var clients: map<Conn, Session>
    /** The connections in registry (insertion) order. */
    var order: seq<Conn>
    /** Every reply written so far, oldest first. */
    var outbox: seq<Envelope>
    /** Connections with a pending delayed `send_question`, in scheduling order. */
    var timers: seq<Conn>

    /** The offered topic list names every topic of the bank once. Both are
        constants, so this holds for the server's whole life. */
    ghost predicate TopicsListed() {
      Distinct(topicNames) && forall t :: t in topicNames <==> t in bank
    }

    /** The registry invariant. */
    ghost predicate Valid()
      reads this`clients, this`order
    {
      RegistryOk(bank, clients, order)
    }

    /** What `handle_registration` does: an empty stripped name, or one that
        any record already carries, is refused with an error and changes
        nothing; otherwise the name is stored and the topic list is sent. */
    twostate predicate RegistrationDone(conn: Conn, username: Option<string>)
      reads this
    {
      && order == old(order) && timers == old(timers)
      && conn in old(clients)
      && var name := Strip(username.GetOr(""));
        if name == "" then
          clients == old(clients) && outbox == old(outbox) + [Envelope(conn, Error("Username cannot be empty"))]
        else if NameTaken(old(clients), name) then
          clients == old(clients) && outbox == old(outbox) + [Envelope(conn, Error("Username already taken"))]
        else
          && clients == old(clients)[conn := old(clients)[conn].(username := name)]
          && outbox == old(outbox) + [Envelope(conn, Topics(topicNames, "Welcome " + name + "! Please select a topic."))]
    }

    /** What `send_question` does: the question step on the registry as it
        was, with its replies written. */
    twostate predicate QuestionSent(conn: Conn, pick: nat)
      reads this
    {
      && order == old(order) && timers == old(timers)
      && (forall c :: c in old(order) ==> c in old(clients))
      && (conn in old(clients) ==> PickFits(bank, old(clients)[conn].topic, pick))
      && var (cl, out) := QuestionStep(bank, old(clients), old(order), conn, pick);
        clients == cl && outbox == old(outbox) + out
    }

    /** What `handle_topic_selection` does: an unknown or missing topic is
        refused with an error and changes nothing; a known one is stored and
        confirmed, and the question step follows at once. */
    twostate predicate TopicSelectionDone(conn: Conn, topic: Option<string>, pick: nat)
      reads this
    {
      && order == old(order) && timers == old(timers)
      && conn in old(clients) && (forall c :: c in old(order) ==> c in old(clients))
      && (topic.None? || topic.value !in bank ==>
            clients == old(clients) && outbox == old(outbox) + [Envelope(conn, Error("Invalid topic: " + Render(topic)))])
      && (topic.Some? && topic.value in bank ==>
            var t := topic.value;
            var selected := old(clients)[conn := old(clients)[conn].(topic := t)];
            var confirmation := TopicConfirmed(t, "Topic '" + t + "' selected! Get ready for " + Decimal(MaxQuestions) + " questions.");
            PickFits(bank, t, pick) &&
            var (cl, out) := QuestionStep(bank, selected, old(order), conn, pick);
            clients == cl && outbox == old(outbox) + [Envelope(conn, confirmation)] + out)
    }

    /** What `handle_answer` does: the record is scored against its pending
        answer; the result and a leaderboard are written; then the summary
        once the quiz length is reached, otherwise one more pending timer. */
    twostate predicate AnswerDone(conn: Conn, answer: Option<string>)
      reads this
    {
      && order == old(order)
      && conn in old(clients) && (forall c :: c in old(order) ==> c in old(clients))
      && var user := Strip(answer.GetOr(""));
        var before := old(clients)[conn];
        var expected := before.currentAnswer.GetOr("");
        var s := Scored(before, user);
        var cl := old(clients)[conn := s];
        var replied := old(outbox)
          + [Envelope(conn, Result(Correct(user, expected), expected, user, s.score, s.answered))]
          + LeaderboardBroadcast(cl, old(order));
        && clients == cl
        && (s.answered >= MaxQuestions ==> outbox == replied + Completion(cl, old(order), conn) && timers == old(timers))
        && (s.answered < MaxQuestions ==> outbox == replied && timers == old(timers) + [conn])
    }

    /** What `handle_restart` does: a present record is reset and sent the
        topic list again; an absent connection changes nothing. */
    twostate predicate RestartDone(conn: Conn)
      reads this
    {
      && order == old(order) && timers == old(timers)
      && (conn !in old(clients) ==> clients == old(clients) && outbox == old(outbox))
      && (conn in old(clients) ==>
            var s := old(clients)[conn];
            && clients == old(clients)[conn := Restarted(s)]
            && outbox == old(outbox) + [Envelope(conn, Topics(topicNames, "Welcome back " + s.username + "! Ready for another challenge?"))])
    }

    /** What `disconnect_client` does: the record leaves the registry and
        the order, pending timers stay, and the connections that remain get
        a leaderboard. */
    twostate predicate DisconnectDone(conn: Conn)
      reads this
    {
      && clients == old(clients) - {conn} && order == Without(old(order), conn)
      && timers == old(timers)
      && (forall c :: c in order ==> c in clients)
      && outbox == old(outbox) + LeaderboardBroadcast(clients, order)
    }

    constructor (bank: map<string, seq<Question>>, topicNames: seq<string>)
      requires Distinct(topicNames) && (forall t :: t in topicNames <==> t in bank)
      ensures Valid() && TopicsListed()
      ensures this.bank == bank && this.topicNames == topicNames
      ensures clients == map[] && order == [] && outbox == [] && timers == []
    {
      this.bank := bank;
      this.topicNames := topicNames;
      clients := map[];
      order := [];
      outbox := [];
      timers := [];
    }

    /** A new connection gets an empty record (`handle_client`). */
    method Accept(conn: Conn)
      requires Valid() && conn !in clients && conn !in timers
      modifies this
      ensures Valid()
      ensures clients == old(clients)[conn := NewSession()] && order == old(order) + [conn]
      ensures outbox == old(outbox) && timers == old(timers)
    {
      clients := clients[conn := NewSession()];
      order := order + [conn];
    }

    /** `register`: the stripped name must be non-empty and carried by no
        record, the caller's own included; only then is it stored. */
    method HandleRegistration(conn: Conn, username: Option<string>)
      requires Valid() && conn in clients
      modifies this
      ensures Valid() && RegistrationDone(conn, username)
    {
      var name := Strip(username.GetOr(""));
      if name == "" {
        outbox := outbox + [Envelope(conn, Error("Username cannot be empty"))];
        return;
      }
      var i := 0;
      while i < |order|
        invariant 0 <= i <= |order|
        invariant Valid() && clients == old(clients) && order == old(order) && outbox == old(outbox)
        invariant forall k :: 0 <= k < i ==> order[k] in clients && clients[order[k]].username != name
      {
        var c := order[i];
        assert c in order;
        assert c in clients;
        if clients[c].username == name {
          assert c in old(clients) && old(clients)[c].username == name;
          outbox := outbox + [Envelope(conn, Error("Username already taken"))];
          return;
        }
        i := i + 1;
      }
      forall c | c in clients ensures clients[c].username != name {
        var k :| 0 <= k < |order| && order[k] == c;
      }
      clients := clients[conn := clients[conn].(username := name)];
      outbox := outbox + [Envelope(conn, Topics(topicNames, "Welcome " + name + "! Please select a topic."))];
    }

    /** `topic`: an unknown topic is an error and changes nothing; a known one
        is stored, confirmed, and the first question is sent at once. */
    method HandleTopicSelection(conn: Conn, topic: Option<string>, pick: nat)
      requires Valid() && conn in clients
      requires topic.Some? ==> PickFits(bank, topic.value, pick)
      modifies this
      ensures Valid() && TopicSelectionDone(conn, topic, pick)
    {
      if topic.None? || topic.value !in bank {
        outbox := outbox + [Envelope(conn, Error("Invalid topic: " + Render(topic)))];
        return;
      }
      var t := topic.value;
      clients := clients[conn := clients[conn].(topic := t)];
      outbox := outbox + [Envelope(conn, TopicConfirmed(t, "Topic '" + t + "' selected! Get ready for " + Decimal(MaxQuestions) + " questions."))];
      SendQuestion(conn, pick);
    }

    /** `send_question`, with question `pick` of the topic standing for `random.choice`. */
    method SendQuestion(conn: Conn, pick: nat)
      requires Valid()
      requires conn in clients ==> PickFits(bank, clients[conn].topic, pick)
      modifies this
      ensures Valid() && QuestionSent(conn, pick)
    {
      if conn !in clients {
        return;
      }
      var s := clients[conn];
      if s.answered >= MaxQuestions {
        SendQuizComplete(conn);
        return;
      }
      if s.topic !in bank {
        outbox := outbox + [Envelope(conn, Error("Topic not selected"))];
        return;
      }
      var q := bank[s.topic][pick];
      clients := clients[conn := s.(currentAnswer := Some(q.answer))];
      outbox := outbox + [Envelope(conn, QuestionReply(q.prompt, q.choices, s.answered + 1, MaxQuestions))];
    }

    /** `answer`: the stripped answer is compared case-insensitively with the
        stored correct answer (empty when none is stored); `answered` grows by
        one and `score` by one exactly on a match. The result and a leaderboard
        follow; then the summary once the quiz length is reached, otherwise a
        delayed next question. */
    method HandleAnswer(conn: Conn, answer: Option<string>)
      requires Valid() && conn in clients
      modifies this
      ensures Valid() && AnswerDone(conn, answer)
    {
      var user := Strip(answer.GetOr(""));
      var before := clients[conn];
      var expected := before.currentAnswer.GetOr("");
      var isCorrect := Correct(user, expected);
      var s := Scored(before, user);
      ReplaceKeepsOk(bank, clients, order, conn, s);
      clients := clients[conn := s];
      outbox := outbox + [Envelope(conn, Result(isCorrect, expected, user, s.score, s.answered))];
      BroadcastLeaderboard();
      if s.answered >= MaxQuestions {
        SendQuizComplete(conn);
      } else {
        timers := timers + [conn];
      }
    }

    /** A pending delayed `send_question` runs. */
    method FireTimer(i: nat, pick: nat)
      requires Valid() && i < |timers|
      requires timers[i] in clients ==> PickFits(bank, clients[timers[i]].topic, pick)
      modifies this
      ensures Valid()
      ensures order == old(order) && timers == old(timers[..i] + timers[i + 1..])
      ensures var (cl, out) := QuestionStep(bank, old(clients), order, old(timers[i]), pick);
        clients == cl && outbox == old(outbox) + out
    {
      var conn := timers[i];
      timers := timers[..i] + timers[i + 1..];
      SendQuestion(conn, pick);
    }

    /** `send_quiz_complete`: the summary to the client, then a leaderboard to all. */
    method SendQuizComplete(conn: Conn)
      requires Valid() && conn in clients
      modifies this`outbox
      ensures outbox == old(outbox) + Completion(clients, order, conn)
    {
      outbox := outbox + [Envelope(conn, CompletionMessage(clients[conn]))];
      BroadcastLeaderboard();
    }

    /** `broadcast_leaderboard`: collect the registered records in registry
        order, sort them, and write the list to every connection. */
    method BroadcastLeaderboard()
      requires Valid()
      modifies this`outbox
      ensures outbox == old(outbox) + LeaderboardBroadcast(clients, order)
    {
      var board := CollectStandings(clients, order);
      board := Ranking.SortDesc(board);
      var j := 0;
      while j < |order|
        invariant 0 <= j <= |order|
        invariant outbox == old(outbox) + Fanout(order[..j], Leaderboard(board))
      {
        assert order[..j + 1][..j] == order[..j];
        outbox := outbox + [Envelope(order[j], Leaderboard(board))];
        j := j + 1;
      }
      assert order[..|order|] == order;
    }

    /** `restart`: a present record has its counters and topic cleared and is
        sent the topic list again; an absent connection is ignored. */
    method HandleRestart(conn: Conn)
      requires Valid()
      modifies this
      ensures Valid() && RestartDone(conn)
    {
      if conn in clients {
        var s := clients[conn];
        clients := clients[conn := Restarted(s)];
        outbox := outbox + [Envelope(conn, Topics(topicNames, "Welcome back " + s.username + "! Ready for another challenge?"))];
      }
    }

    /** `disconnect_client`: the record is removed if present, and a
        leaderboard goes to the connections that remain. Pending timers are
        not cancelled. */
    method DisconnectClient(conn: Conn)
      requires Valid()
      modifies this
      ensures Valid() && DisconnectDone(conn)
    {
      if conn in clients {
        clients := clients - {conn};
        order := Without(order, conn);
      } else {
        assert clients == clients - {conn};
      }
      BroadcastLeaderboard();
    }

    /** `process_message`: dispatch on the message type. Every step keeps the
        invariant; only `restart` lowers a counter and only `register`
        renames; an unknown type is reported and changes nothing. */
    method ProcessMessage(conn: Conn, msg: Request, pick: nat)
      requires Valid() && conn in clients
      requires msg.SelectTopic? && msg.topic.Some? ==> PickFits(bank, msg.topic.value, pick)
      requires msg.Ready? ==> PickFits(bank, clients[conn].topic, pick)
      modifies this
      ensures Valid()
      ensures msg.Register? ==> RegistrationDone(conn, msg.username)
      ensures msg.SelectTopic? ==> TopicSelectionDone(conn, msg.topic, pick)
      ensures msg.Answer? ==> AnswerDone(conn, msg.answer)
      ensures msg.Ready? ==> QuestionSent(conn, pick)
      ensures msg.Restart? ==> RestartDone(conn)
      ensures msg.Disconnect? ==> DisconnectDone(conn)
      ensures msg.Other? ==>
        && clients == old(clients) && order == old(order) && timers == old(timers)
        && outbox == old(outbox) + [Envelope(conn, Error("Unknown message type: " + msg.typeText))]
      ensures msg.Disconnect? ==> conn !in clients
      ensures !msg.Disconnect? ==> order == old(order) && clients.Keys == old(clients).Keys
      ensures !msg.Restart? ==> CountersGrow(old(clients), clients)
      ensures !msg.Register? ==> NamesKept(old(clients), clients)
    {
      match msg
      case Register(username) =>
        HandleRegistration(conn, username);
        ReplaceGrows(old(clients), conn, old(clients)[conn].(username := Strip(username.GetOr(""))));
      case SelectTopic(topic) =>
        HandleTopicSelection(conn, topic, pick);
        if topic.Some? && topic.value in bank {
          TopicStepGrows(bank, old(clients), order, conn, topic.value, pick);
        }
      case Answer(answer) =>
        HandleAnswer(conn, answer);
        ReplaceGrows(old(clients), conn, Scored(old(clients)[conn], Strip(answer.GetOr(""))));
      case Ready =>
        SendQuestion(conn, pick);
        QuestionStepGrows(bank, old(clients), order, conn, pick);
      case Restart =>
        HandleRestart(conn);
        ReplaceGrows(old(clients), conn, Restarted(old(clients)[conn]));
      case Disconnect => DisconnectClient(conn);
      case Other(typeText) =>
        outbox := outbox + [Envelope(conn, Error("Unknown message type: " + typeText))];
    }
  }
}
