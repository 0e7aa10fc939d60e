/**
 * The client's numbered menus (`handle_topics` and `handle_question`): the
 * options are shown numbered from 1, and the user is asked again until a
 * number between 1 and the number of options is typed; that option is sent
 * to the server. Ctrl-C at the prompt ends the session without sending.
 */
module Menu {
  import opened Wrappers
  import opened Protocol

  /** One line typed at a prompt, as `int(input().strip())` sees it: a
      number, text that `int` rejects (`ValueError`), or Ctrl-C
      (`KeyboardInterrupt`). `Interrupt` models the menus' handler as
      written; the prompts run on the listener thread, where Python does
      not raise `KeyboardInterrupt`. */
  datatype Input = Number(n: int) | NotANumber | Interrupt

  /** How a prompt ends: an option chosen; Ctrl-C, after which the client
      disconnects; or the end of input (`input` raises `EOFError`, which no
      handler of the menu catches). */
  datatype Outcome<T> = Chosen(value: T) | Interrupted | InputClosed

  /** The option shown with number `n` (`enumerate(options, 1)`), if any:
      the index `n - 1` must lie in the list. */
  function Pick<T>(options: seq<T>, n: int): Option<T> {
    var i := n - 1;
    if 0 <= i < |options| then Some(options[i]) else None
  }

  /** The input picks one of the options. */
  predicate Accepts<T>(options: seq<T>, x: Input) {
    x.Number? && Pick(options, x.n).Some?
  }

  /** The input ends the prompt loop. */
  predicate Stops<T>(options: seq<T>, x: Input) {
    x.Interrupt? || Accepts(options, x)
  }

  /** How the prompt loop ends on `inputs`, and how many lines it reads. */
  function Prompt<T>(options: seq<T>, inputs: seq<Input>): (Outcome<T>, nat) {
    if inputs == [] then (InputClosed, 0)
    else if inputs[0].Interrupt? then (Interrupted, 1)
    else if Accepts(options, inputs[0]) then (Chosen(Pick(options, inputs[0].n).value), 1)
    else
      var (o, used) := Prompt(options, inputs[1..]);
      (o, used + 1)
  }

  /** The number shown beside each option selects exactly that option, and
      no other number selects anything. */
  lemma PickNumbered<T>(options: seq<T>, n: int)
    ensures Pick(options, n).Some? <==> 1 <= n <= |options|
    ensures forall i :: 0 <= i < |options| ==> Pick(options, i + 1) == Some(options[i])
  {
  }

  /** The prompt loop stops at the first line that is Ctrl-C or a number in
      range, and at no earlier line; what it chooses is the option with that
      number. Without such a line it reads all the input. */
  lemma {:induction false} PromptSpec<T>(options: seq<T>, inputs: seq<Input>)
    ensures var (o, used) := Prompt(options, inputs);
      && used <= |inputs|
      && (forall k :: 0 <= k < used && k < |inputs| && (o.InputClosed? || k < used - 1) ==> !Stops(options, inputs[k]))
      && (o.InputClosed? <==> forall k :: 0 <= k < |inputs| ==> !Stops(options, inputs[k]))
      && (o.InputClosed? ==> used == |inputs|)
      && (!o.InputClosed? ==> 0 < used && Stops(options, inputs[used - 1]))
      && (o.Interrupted? <==> !o.InputClosed? && inputs[used - 1].Interrupt?)
      && (o.Chosen? ==> Accepts(options, inputs[used - 1]) && o.value == options[inputs[used - 1].n - 1])
      && (o.Chosen? ==> o.value in options)
  {
    if inputs != [] && !Stops(options, inputs[0]) {
      PromptSpec(options, inputs[1..]);
      var (o, used) := Prompt(options, inputs[1..]);
      assert Prompt(options, inputs) == (o, used + 1);
      assert forall k :: 1 <= k < |inputs| ==> inputs[k] == inputs[1..][k - 1];
      if o.InputClosed? {
        forall k | 0 <= k < |inputs| ensures !Stops(options, inputs[k]) {
          if k > 0 {
            assert inputs[k] == inputs[1..][k - 1];
          }
        }
      }
    }
  }

  /** The prompt loop of `handle_topics` and `handle_question`. */
  method PromptForChoice<T>(options: seq<T>, inputs: seq<Input>) returns (outcome: Outcome<T>, used: nat)
    ensures (outcome, used) == Prompt(options, inputs)
  {
    var i := 0;
    while i < |inputs|
      invariant 0 <= i <= |inputs|
      invariant Prompt(options, inputs) == (Prompt(options, inputs[i..]).0, Prompt(options, inputs[i..]).1 + i)
    {
      var x := inputs[i];
      if x.Interrupt? {
        return Interrupted, i + 1;
      }
      if x.Number? {
        var choice := Pick(options, x.n);
        if choice.Some? {
          return Chosen(choice.value), i + 1;
        }
      }
      assert inputs[i..][1..] == inputs[i + 1..];
      i := i + 1;
    }
    assert inputs[i..] == [];
    return InputClosed, i;
  }

  /** `handle_topics`: the topic chosen from the offered list is sent as a
      `topic` message; nothing is sent otherwise. */
  method HandleTopics(topics: seq<string>, inputs: seq<Input>) returns (sent: Option<Request>)
    ensures var (o, _) := Prompt(topics, inputs);
      && (sent.Some? <==> o.Chosen?)
      && (o.Chosen? ==> sent.value == SelectTopic(Some(o.value)))
  {
    var outcome, _ := PromptForChoice(topics, inputs);
    if outcome.Chosen? {
      sent := Some(SelectTopic(Some(outcome.value)));
    } else {
      sent := None;
    }
  }

  /** `handle_question`: the choice picked from the offered list is sent as
      an `answer` message; nothing is sent otherwise. */
  method HandleQuestion(choices: seq<string>, inputs: seq<Input>) returns (sent: Option<Request>)
    ensures var (o, _) := Prompt(choices, inputs);
      && (sent.Some? <==> o.Chosen?)
      && (o.Chosen? ==> sent.value == Answer(Some(o.value)))
  {
    var outcome, _ := PromptForChoice(choices, inputs);
    if outcome.Chosen? {
      sent := Some(Answer(Some(outcome.value)));
    } else {
      sent := None;
    }
  }

  /** A client only ever selects a topic it was offered. */
  lemma SelectedTopicWasOffered(topics: seq<string>, inputs: seq<Input>)
    ensures Prompt(topics, inputs).0.Chosen? ==> Prompt(topics, inputs).0.value in topics
  {
    PromptSpec(topics, inputs);
  }
}
