/** Conversation histories and the message list that is sent to the language model. */
module Conversation {
  datatype Role = System | User | Assistant

  datatype Message = Message(role: Role, content: string)

  /** history[-10:] */
  function LastTen<T>(xs: seq<T>): seq<T> {
    if |xs| <= 10 then xs else xs[|xs| - 10..]
  }

  /** The list that generate_response builds. */
  function Prompt(system: string, history: seq<Message>, user: string): seq<Message> {
    [Message(System, system)] + LastTen(history) + [Message(User, user)]
  }

  /** The system prompt, the last ten messages of the history as they are and in order, and the new words of the user. */
  ghost predicate Sends(messages: seq<Message>, system: string, history: seq<Message>, user: string) {
    var n := if |history| < 10 then |history| else 10;
    && |messages| == n + 2
    && messages[0] == Message(System, system)
    && messages[n + 1] == Message(User, user)
    && forall i | 1 <= i <= n :: messages[i] == history[|history| - n + i - 1]
  }

  /** That, and nothing else, is the list. */
  lemma PromptContents(messages: seq<Message>, system: string, history: seq<Message>, user: string)
    ensures messages == Prompt(system, history, user) <==> Sends(messages, system, history, user)
  {
    var prompt := Prompt(system, history, user);
    if Sends(messages, system, history, user) {
      forall i | 0 <= i < |messages|
        ensures messages[i] == prompt[i]
      {
        if 1 <= i < |messages| - 1 {
          assert prompt[i] == LastTen(history)[i - 1];
        }
      }
    }
  }

  /** The loop of generate_response that appends to the list. */
  method BuildMessages(system: string, history: seq<Message>, user: string) returns (messages: seq<Message>)
    ensures messages == Prompt(system, history, user)
    ensures Sends(messages, system, history, user)
  {
    PromptContents(Prompt(system, history, user), system, history, user);
    messages := [Message(System, system)];
    var recent := LastTen(history);
    for i := 0 to |recent|
      invariant messages == [Message(System, system)] + recent[..i]
    {
      messages := messages + [Message(recent[i].role, recent[i].content)];
    }
    messages := messages + [Message(User, user)];
  }

  /** User and assistant take turns, and the assistant has spoken last. */
  ghost predicate Pairs(history: seq<Message>) {
    && |history| % 2 == 0
    && forall i | 0 <= i < |history| :: history[i].role == if i % 2 == 0 then User else Assistant
  }

  /** One system message, then user and assistant in turn, from user to user, at most eleven of them. */
  ghost predicate WellShaped(messages: seq<Message>) {
    && 2 <= |messages| <= 12 && |messages| % 2 == 0
    && messages[0].role == System
    && forall i | 1 <= i < |messages| :: messages[i].role == if i % 2 == 1 then User else Assistant
  }

  lemma {:induction false} PromptShape(system: string, history: seq<Message>, user: string)
    requires Pairs(history)
    ensures WellShaped(Prompt(system, history, user))
    ensures |Prompt(system, history, user)| == (if |history| <= 10 then |history| else 10) + 2
  {
    var recent, messages := LastTen(history), Prompt(system, history, user);
    forall i | 1 <= i < |messages|
      ensures messages[i].role == if i % 2 == 1 then User else Assistant
    {
      if i < |messages| - 1 {
        assert messages[i] == recent[i - 1] == history[|history| - |recent| + i - 1];
      }
    }
  }

  /** Cutting the history to ten messages before the call changes nothing. */
  lemma CutTwice(system: string, history: seq<Message>, user: string)
    ensures Prompt(system, LastTen(history), user) == Prompt(system, history, user)
  {
  }

  lemma PairsExtend(history: seq<Message>, user: string, reply: string)
    requires Pairs(history)
    ensures Pairs(history + [Message(User, user), Message(Assistant, reply)])
  {
  }
}
