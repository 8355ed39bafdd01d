/**
 * The conversation side of app/backend/client.py: `ScheduleAgent`, whose
 * `chat_history_dict` maps a session key to that session's message history, and the
 * interactive loop of `main` with its exit test.
 *
 * The agent (`agent_executor.ainvoke`, a language model calling the schedule tools) is the
 * parameter `agent`: a function of the input text and the history that yields the reply or
 * nothing when it raises.
 */
module Client {
  import opened Wrappers
  import opened PyText

  /** A key of `chat_history_dict`: the session id as passed, which may be `None`. */
  datatype SessionKey = NoneKey | Key(id: string)

  /** `f"{session_id}"`: a string is itself, `None` becomes the text "None". */
  function FString(k: SessionKey): (r: SessionKey)
    ensures r.Key?
    ensures k.Key? ==> r == k
    ensures k.NoneKey? ==> r == Key("None")
  {
    match k
    case NoneKey => Key("None")
    case Key(s) => Key(s)
  }

  datatype Message = Human(text: string) | Ai(text: string)

  /** The dict handed to `ainvoke`: the input text and the history so far. */
  datatype AgentInput = AgentInput(input: string, chatHistory: seq<Message>)

  type Agent = AgentInput -> Option<string>

  type Histories = map<SessionKey, seq<Message>>

  /** Why `chat_with_agent` raises. */
  datatype TurnError =
    | SetupFailed   // starting the tool server, its session or the agent raised
    | KeyError      // the history is read under `f"{session_id}"`, which is absent
    | AgentFailed   // ainvoke raised
    | TeardownFailed // leaving the `ClientSession` or the `stdio_client` block raised

  datatype TurnResult = Reply(output: string) | Raised(error: TurnError)

  datatype Turn = Turn(histories: Histories, result: TurnResult)

  /** What the agent input adds after the user's text. */
  const TOKEN_SEPARATOR: string := " \n\n user_token: "

  /**
   * The body of the two `async with` blocks of `chat_with_agent(input, session_id, user_token)`
   * against the histories `h`: an unseen `session_id` gets an empty history; the history stored
   * under `f"{session_id}"` goes to the agent with the token appended to the input; only a reply
   * appends the raw input and then the reply to that history.
   */
  function SessionTurn(h: Histories, input: string, sessionId: SessionKey, userToken: string,
                       agent: Agent): Turn
  {
    var h1 := if sessionId !in h then h[sessionId := []] else h;
    var key := FString(sessionId);
    if key !in h1 then Turn(h1, Raised(KeyError))
    else
      match agent(AgentInput(input + TOKEN_SEPARATOR + userToken, h1[key]))
      case None => Turn(h1, Raised(AgentFailed))
      case Some(output) => Turn(h1[key := h1[key] + [Human(input), Ai(output)]], Reply(output))
  }

  /**
   * One call of `chat_with_agent`: nothing happens when entering the blocks fails; otherwise
   * the body runs, and when leaving the blocks raises, that exception is what the caller sees,
   * whatever the body did to the histories.
   */
  function ChatTurn(h: Histories, input: string, sessionId: SessionKey, userToken: string,
                    agent: Agent, setupOk: bool, teardownOk: bool): Turn
  {
    if !setupOk then Turn(h, Raised(SetupFailed))
    else
      var body := SessionTurn(h, input, sessionId, userToken, agent);
      if teardownOk then body else Turn(body.histories, Raised(TeardownFailed))
  }

  /** The history a turn starts from: what is stored under `f"{session_id}"`, or the empty
      history the turn itself creates. */
  function Prior(h: Histories, sessionId: SessionKey): seq<Message> {
    if FString(sessionId) in h then h[FString(sessionId)] else []
  }

  /** A successful turn hands the agent the history as it stood before the turn, returns the
      agent's reply, and leaves that history longer by exactly the raw input and the reply. */
  lemma ChatTurnReply(h: Histories, input: string, sessionId: SessionKey, userToken: string, agent: Agent, setupOk: bool, teardownOk: bool)
    ensures var t := ChatTurn(h, input, sessionId, userToken, agent, setupOk, teardownOk);
      t.result.Reply? ==>
        && agent(AgentInput(input + TOKEN_SEPARATOR + userToken, Prior(h, sessionId))) == Some(t.result.output)
        && FString(sessionId) in t.histories
        && t.histories[FString(sessionId)] == Prior(h, sessionId) + [Human(input), Ai(t.result.output)]
  {
  }

  /** Only the session's own entries change: every other history is untouched, and no existing
      history is replaced, only extended. */
  lemma ChatTurnFrame(h: Histories, input: string, sessionId: SessionKey, userToken: string, agent: Agent, setupOk: bool, teardownOk: bool)
    ensures var t := ChatTurn(h, input, sessionId, userToken, agent, setupOk, teardownOk);
      && (forall k :: k != sessionId && k != FString(sessionId) ==>
            (k in t.histories <==> k in h) && (k in h ==> t.histories[k] == h[k]))
      && (forall k :: k in h ==> k in t.histories && h[k] <= t.histories[k])
  {
    if setupOk {
      var b := SessionTurn(h, input, sessionId, userToken, agent);
      assert ChatTurn(h, input, sessionId, userToken, agent, setupOk, teardownOk).histories == b.histories;
    }
  }

  /** A turn that raises inside the blocks, or on entering them, appends nothing; it can only
      have created the empty entry for an unseen session id, and does not even do that when
      setting up failed. */
  lemma ChatTurnRaised(h: Histories, input: string, sessionId: SessionKey, userToken: string, agent: Agent, setupOk: bool, teardownOk: bool)
    ensures var t := ChatTurn(h, input, sessionId, userToken, agent, setupOk, teardownOk);
      t.result.Raised? && t.result.error != TeardownFailed ==>
        && (forall k :: k in h ==> k in t.histories && t.histories[k] == h[k])
        && (forall k :: k in t.histories ==> k in h || (k == sessionId && t.histories[k] == []))
        && (!setupOk ==> t.histories == h)
  {
  }

  /** When leaving the blocks raises, the caller sees that exception, yet the histories are those
      the body left: after an agent reply the exchange has been appended all the same. */
  lemma TeardownFailureKeepsExchange(h: Histories, input: string, sessionId: SessionKey, userToken: string, agent: Agent)
    ensures var t := ChatTurn(h, input, sessionId, userToken, agent, true, false);
      var ok := ChatTurn(h, input, sessionId, userToken, agent, true, true);
      && t.result == Raised(TeardownFailed)
      && t.histories == ok.histories
      && (ok.result.Reply? ==>
            && FString(sessionId) in t.histories
            && t.histories[FString(sessionId)] == Prior(h, sessionId) + [Human(input), Ai(ok.result.output)])
  {
    ChatTurnReply(h, input, sessionId, userToken, agent, true, true);
  }

  /** The token reaches the agent only: every stored message was stored before, or is the raw
      input, or is an answer the agent gave to this turn's input and prior history. */
  lemma TokenNeverStored(h: Histories, input: string, sessionId: SessionKey, userToken: string, agent: Agent, setupOk: bool, teardownOk: bool)
    ensures var t := ChatTurn(h, input, sessionId, userToken, agent, setupOk, teardownOk);
      forall k, m :: k in t.histories && m in t.histories[k] ==>
        || (k in h && m in h[k])
        || m == Human(input)
        || (m.Ai? && agent(AgentInput(input + TOKEN_SEPARATOR + userToken, Prior(h, sessionId))) == Some(m.text))
  {
    var t := ChatTurn(h, input, sessionId, userToken, agent, setupOk, teardownOk);
    var b := ChatTurn(h, input, sessionId, userToken, agent, setupOk, true);
    assert t.histories == b.histories;
    forall k, m | k in t.histories && m in t.histories[k]
      ensures
        || (k in h && m in h[k])
        || m == Human(input)
        || (m.Ai? && agent(AgentInput(input + TOKEN_SEPARATOR + userToken, Prior(h, sessionId))) == Some(m.text))
    {
      if b.result.Reply? && k == FString(sessionId) {
        ChatTurnReply(h, input, sessionId, userToken, agent, setupOk, true);
        var p := Prior(h, sessionId);
        if m !in [Human(input), Ai(b.result.output)] {
          assert m in p;
        }
      }
    }
  }

  /** With `session_id` `None`, the entry created is `None`'s but the history read is the one
      under the text "None": the turn raises KeyError when no such session exists, and
      otherwise reads and extends that session's history. */
  lemma NoneSessionKey(h: Histories, input: string, userToken: string, agent: Agent)
    ensures var t := ChatTurn(h, input, NoneKey, userToken, agent, true, true);
      && (Key("None") !in h ==>
            t == Turn(h[NoneKey := if NoneKey in h then h[NoneKey] else []], Raised(KeyError)))
      && (Key("None") in h && t.result.Reply? ==>
            && t.histories[Key("None")] == h[Key("None")] + [Human(input), Ai(t.result.output)]
            && (NoneKey in h ==> t.histories[NoneKey] == h[NoneKey])
            && (NoneKey !in h ==> t.histories[NoneKey] == []))
  {
  }

  /** Every history alternates a user message and an agent reply. */
  predicate WellPaired(m: seq<Message>) {
    && |m| % 2 == 0
    && forall i :: 0 <= i < |m| ==> (if i % 2 == 0 then m[i].Human? else m[i].Ai?)
  }

  predicate AllWellPaired(h: Histories) {
    forall k :: k in h ==> WellPaired(h[k])
  }

  /** Each turn, whatever its outcome, keeps every history alternating. */
  lemma ChatTurnKeepsPairs(h: Histories, input: string, sessionId: SessionKey, userToken: string, agent: Agent, setupOk: bool, teardownOk: bool)
    requires AllWellPaired(h)
    ensures AllWellPaired(ChatTurn(h, input, sessionId, userToken, agent, setupOk, teardownOk).histories)
  {
    var t := ChatTurn(h, input, sessionId, userToken, agent, setupOk, true);
    assert t.histories == ChatTurn(h, input, sessionId, userToken, agent, setupOk, teardownOk).histories;
    if t.result.Reply? {
      var p := Prior(h, sessionId);
      ChatTurnReply(h, input, sessionId, userToken, agent, setupOk, true);
      assert WellPaired(p);
      var q := t.histories[FString(sessionId)];
      forall i | 0 <= i < |q| ensures if i % 2 == 0 then q[i].Human? else q[i].Ai? {
        if i < |p| {
          assert q[i] == p[i];
        }
      }
    }
  }

  /** The compiled agent: the prompt it was built with and the tools it may call. */
  datatype Executor = Executor(prompt: string, tools: seq<string>)

  class ScheduleAgent {
    const serverParams: string
    var prompt: Option<string>
    var tools: Option<seq<string>>
    var agentExecutor: Option<Executor>
    var chatHistoryDict: Histories

    /** `__init__`: nothing built yet and no session. */
    constructor (serverParams: string)
      ensures this.serverParams == serverParams
      ensures prompt == None && tools == None && agentExecutor == None
      ensures chatHistoryDict == map[]
    {
      this.serverParams := serverParams;
      prompt, tools, agentExecutor := None, None, None;
      chatHistoryDict := map[];
    }

    /**
     * `chat_with_agent`: `loadedTools` is what the tool server offers (`None` when starting it
     * or building the agent raises), `promptTemplate` the prompt built from it, and
     * `teardownOk` whether leaving the `ClientSession` and `stdio_client` blocks succeeds.
     */
    method ChatWithAgent(input: string, sessionId: SessionKey, userToken: string,
                         loadedTools: Option<seq<string>>, promptTemplate: string, agent: Agent,
                         teardownOk: bool)
      returns (result: TurnResult)
      modifies this
      ensures Turn(chatHistoryDict, result) ==
        ChatTurn(old(chatHistoryDict), input, sessionId, userToken, agent, loadedTools.Some?, teardownOk)
      ensures loadedTools.None? ==> prompt == old(prompt) && tools == old(tools) && agentExecutor == old(agentExecutor)
      ensures loadedTools.Some? ==>
        && tools == loadedTools && prompt == Some(promptTemplate)
        && agentExecutor == Some(Executor(promptTemplate, loadedTools.value))
    {
      if loadedTools.None? {
        return Raised(SetupFailed);
      }
      tools := loadedTools;
      prompt := Some(promptTemplate);
      agentExecutor := Some(Executor(promptTemplate, loadedTools.value));
      if sessionId !in chatHistoryDict {
        chatHistoryDict := chatHistoryDict[sessionId := []];
      }
      var key := FString(sessionId);
      if key !in chatHistoryDict {
        result := Raised(KeyError);
      } else {
        var answer := agent(AgentInput(input + TOKEN_SEPARATOR + userToken, chatHistoryDict[key]));
        if answer.None? {
          result := Raised(AgentFailed);
        } else {
          ghost var prior := chatHistoryDict[key];
          chatHistoryDict := chatHistoryDict[key := chatHistoryDict[key] + [Human(input)]];
          chatHistoryDict := chatHistoryDict[key := chatHistoryDict[key] + [Ai(answer.value)]];
          assert chatHistoryDict[key] == prior + [Human(input), Ai(answer.value)];
          result := Reply(answer.value);
        }
      }
      if !teardownOk {
        // The exception raised while leaving the blocks replaces the body's outcome.
        result := Raised(TeardownFailed);
      }
    }
  }

  /** The exit test of the interactive loop: `query.strip().lower() in ("exit", "quit")`. */
  predicate IsExitCommand(query: string) {
    Lower(Strip(query)) == "exit" || Lower(Strip(query)) == "quit"
  }

  /** Letters that lower-case to a word are not white space, so a word made of them is trimmed. */
  lemma LettersTrimmed(w: string)
    requires Lower(w) == "exit" || Lower(w) == "quit"
    ensures Trimmed(w)
  {
    assert |w| == 4;
    assert LowerChar(w[0]) == Lower(w)[0] && LowerChar(w[3]) == Lower(w)[3];
  }

  /** Any spelling of "exit" or "quit", in any letter case and with any surrounding white
      space, ends the loop. */
  lemma ExitCommandAccepts(pre: string, w: string, post: string)
    requires AllSpace(pre) && AllSpace(post)
    requires Lower(w) == "exit" || Lower(w) == "quit"
    ensures IsExitCommand(pre + w + post)
  {
    LettersTrimmed(w);
    StripPadded(pre, w, post);
  }

  /** Conversely, only such a query ends the loop. */
  lemma ExitCommandShape(query: string) returns (pre: string, w: string, post: string)
    requires IsExitCommand(query)
    ensures query == pre + w + post
    ensures AllSpace(pre) && AllSpace(post)
    ensures Lower(w) == "exit" || Lower(w) == "quit"
  {
    pre, post := StripSplits(query);
    w := Strip(query);
  }

  /** Why the interactive loop ended. */
  datatype LoopEnd = Quit | EndOfInput | AgentRaised

  datatype Session = Session(history: seq<Message>, read: nat, end: LoopEnd)

  /** The loop of `main` from the queries still to be typed, with the history so far and the
      number of queries already read. */
  function Converse(queries: seq<string>, history: seq<Message>, read: nat, agent: Agent): Session
    decreases |queries|
  {
    if queries == [] then Session(history, read, EndOfInput)
    else if IsExitCommand(queries[0]) then Session(history, read + 1, Quit)
    else
      match agent(AgentInput(queries[0], history))
      case None => Session(history, read + 1, AgentRaised)
      case Some(output) => Converse(queries[1..], history + [Human(queries[0]), Ai(output)], read + 1, agent)
  }

  /** The loop keeps the history alternating. */
  lemma {:induction false} ConverseKeepsPairs(queries: seq<string>, history: seq<Message>, read: nat, agent: Agent)
    requires WellPaired(history)
    ensures WellPaired(Converse(queries, history, read, agent).history)
    decreases |queries|
  {
    if queries != [] && !IsExitCommand(queries[0]) {
      var out := agent(AgentInput(queries[0], history));
      if out.Some? {
        var h2 := history + [Human(queries[0]), Ai(out.value)];
        forall i | 0 <= i < |h2| ensures if i % 2 == 0 then h2[i].Human? else h2[i].Ai? {
          if i < |history| {
            assert h2[i] == history[i];
          }
        }
        ConverseKeepsPairs(queries[1..], h2, read + 1, agent);
      }
    }
  }

  /** The loop reads at most every query; it ends early only on an exit command or a failed
      agent call, and each query read before that added exactly one exchange. */
  lemma {:induction false} ConverseCounts(queries: seq<string>, history: seq<Message>, read: nat, agent: Agent)
    ensures var s := Converse(queries, history, read, agent);
      && read <= s.read <= read + |queries|
      && (s.end == EndOfInput ==> s.read == read + |queries| && |s.history| == |history| + 2 * |queries|)
      && (s.end != EndOfInput ==> read < s.read && |s.history| == |history| + 2 * (s.read - read - 1))
    decreases |queries|
  {
    if queries != [] && !IsExitCommand(queries[0]) {
      var out := agent(AgentInput(queries[0], history));
      if out.Some? {
        ConverseCounts(queries[1..], history + [Human(queries[0]), Ai(out.value)], read + 1, agent);
      }
    }
  }

  /** The loop stops at the first exit command: no query read before it is one, and a loop that
      ends for another reason read none. */
  lemma {:induction false} ConverseStopsAtExit(queries: seq<string>, history: seq<Message>, read: nat, agent: Agent)
    ensures var s := Converse(queries, history, read, agent);
      && (s.end == Quit ==> read < s.read <= read + |queries| && IsExitCommand(queries[s.read - read - 1]))
      && (forall i :: 0 <= i < |queries| && read + i < s.read - 1 ==> !IsExitCommand(queries[i]))
      && (s.end != Quit ==> forall i :: 0 <= i < |queries| && read + i < s.read ==> !IsExitCommand(queries[i]))
    decreases |queries|
  {
    ConverseCounts(queries, history, read, agent);
    if queries != [] && !IsExitCommand(queries[0]) {
      var out := agent(AgentInput(queries[0], history));
      if out.Some? {
        var h2 := history + [Human(queries[0]), Ai(out.value)];
        var rest := queries[1..];
        ConverseStopsAtExit(rest, h2, read + 1, agent);
        var s := Converse(rest, h2, read + 1, agent);
        assert Converse(queries, history, read, agent) == s;
        forall i | 0 < i < |queries| ensures queries[i] == rest[i - 1] {
        }
      }
    }
  }

  /** `main`'s loop over the queries typed in: the history starts empty; the loop reads a query,
      stops on an exit command, and otherwise records the query and the agent's reply. */
  method InteractiveLoop(queries: seq<string>, agent: Agent) returns (history: seq<Message>, read: nat, end: LoopEnd)
    ensures Session(history, read, end) == Converse(queries, [], 0, agent)
  {
    history, read := [], 0;
    while true
      invariant read <= |queries|
      invariant Converse(queries[read..], history, read, agent) == Converse(queries, [], 0, agent)
      decreases |queries| - read
    {
      if read == |queries| {
        // input() raises EOFError once nothing more can be typed.
        return history, read, EndOfInput;
      }
      var query := queries[read];
      assert queries[read..][0] == query && queries[read..][1..] == queries[read + 1..];
      read := read + 1;
      if IsExitCommand(query) {
        return history, read, Quit;
      }
      var answer := agent(AgentInput(query, history));
      if answer.None? {
        return history, read, AgentRaised;
      }
      history := history + [Human(query), Ai(answer.value)];
    }
  }
}
