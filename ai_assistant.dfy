/** The AI assistant panel's state: the selected chat tab and two chats, the assistant
    chat (with a server-side session id) and the expert chat, each with a loading flag
    and its messages. Every reducer of the slice is a method that updates the state in
    place; the session-storage writes some of them make and the uuid generator are
    outside the state. */
module AiAssistant {
  import opened JsBasics

  /** The chat tabs, `AiChatType`. */
  datatype AiChatType = Assistance | Query

  /** The string value of each tab as it is kept in session storage. */
  function TabValue(t: AiChatType): string
  {
    match t
    case Assistance => "assistance"
    case Query => "query"
  }

  /** `getTabSelected`: the stored tab when it names one of the tabs, `Assistance`
      otherwise (also when nothing is stored). */
  function GetTabSelected(tab: Option<string>): (r: AiChatType)
    ensures r == Query <==> tab == Some(TabValue(Query))
  {
    if tab.Some? && tab.value == TabValue(Query) then Query
    else Assistance
  }

  /** Reading back a stored tab gives the same tab. */
  lemma TabRoundTrip(t: AiChatType)
    ensures GetTabSelected(Some(TabValue(t))) == t
  {
    match t
    case Assistance =>
      assert TabValue(Assistance)[0] != TabValue(Query)[0];
    case Query =>
  }

  /** Anything but the two tab values falls back to `Assistance`. */
  lemma UnknownTabIsAssistance(tab: Option<string>)
    requires forall t: AiChatType :: tab != Some(TabValue(t))
    ensures GetTabSelected(tab) == Assistance
  {
    assert tab != Some(TabValue(Query));
  }

  /** The error a failed question carries: an HTTP status and an optional error code. */
  datatype ChatError = ChatError(statusCode: int, errorCode: Option<int>)

  /** `AiChatMessage`: its id, its type, its text and the error, if any. */
  datatype ChatMessage = ChatMessage(id: string, messageType: string, content: string, error: Option<ChatError>)

  /** The assistant chat: whether a request is pending, the session id (`''` when there
      is none) and the messages. */
  datatype AssistantChat = AssistantChat(loading: bool, id: string, messages: seq<ChatMessage>)

  /** The expert chat: whether a request is pending and the messages. */
  datatype ExpertChat = ExpertChat(loading: bool, messages: seq<ChatMessage>)

  /** `messages.map((item) => (item.id === id ? { ...item, error } : item))`. */
  function WithError(messages: seq<ChatMessage>, id: string, error: Option<ChatError>): (r: seq<ChatMessage>)
    ensures |r| == |messages|
    ensures forall k | 0 <= k < |r| ::
      r[k].id == messages[k].id && r[k].messageType == messages[k].messageType &&
      r[k].content == messages[k].content &&
      r[k].error == (if messages[k].id == id then error else messages[k].error)
  {
    seq(|messages|, k requires 0 <= k < |messages| =>
      if messages[k].id == id then messages[k].(error := error) else messages[k])
  }

  /** Setting the error of an id no message has changes nothing. */
  lemma WithErrorOfUnknownId(messages: seq<ChatMessage>, id: string, error: Option<ChatError>)
    requires forall k | 0 <= k < |messages| :: messages[k].id != id
    ensures WithError(messages, id, error) == messages
  {
  }

  /** Setting the same error twice is setting it once. */
  lemma WithErrorIsIdempotent(messages: seq<ChatMessage>, id: string, error: Option<ChatError>)
    ensures WithError(WithError(messages, id, error), id, error) == WithError(messages, id, error)
  {
  }

  /** Errors set on two different ids do not interfere. */
  lemma WithErrorCommutes(messages: seq<ChatMessage>, id1: string, e1: Option<ChatError>, id2: string, e2: Option<ChatError>)
    requires id1 != id2
    ensures WithError(WithError(messages, id1, e1), id2, e2) == WithError(WithError(messages, id2, e2), id1, e1)
  {
  }

  /** A loaded history: `payload?.map((m) => ({ ...m, id: 'ai_' + uuid })) || []`, where
      `uuid(k)` stands for the fresh uuid the generator yields for the `k`-th message. */
  function WithFreshIds(payload: Option<seq<ChatMessage>>, uuid: nat -> string): (r: seq<ChatMessage>)
    ensures payload.None? ==> r == []
    ensures payload.Some? ==> |r| == |payload.value|
    ensures payload.Some? ==> forall k | 0 <= k < |r| ::
      r[k].id == "ai_" + uuid(k) && r[k].(id := payload.value[k].id) == payload.value[k]
  {
    if payload.None? then []
    else seq(|payload.value|, k requires 0 <= k < |payload.value| => payload.value[k].(id := "ai_" + uuid(k)))
  }

  /** Every id of a loaded history carries the `ai_` prefix. */
  lemma FreshIdsArePrefixed(payload: Option<seq<ChatMessage>>, uuid: nat -> string)
    ensures forall m | m in WithFreshIds(payload, uuid) :: |m.id| >= 3 && m.id[..3] == "ai_"
  {
    var r := WithFreshIds(payload, uuid);
    forall m | m in r
      ensures |m.id| >= 3 && m.id[..3] == "ai_"
    {
      var k :| 0 <= k < |r| && r[k] == m;
      assert m.id == "ai_" + uuid(k);
    }
  }

  /** The slice state, `StateAiAssistant`, updated in place by its reducers. */
  class AiAssistantState {
    var activeTab: AiChatType
    var assistant: AssistantChat
    var expert: ExpertChat

    /** `initialState`, from the tab and session id read from session storage. */
    constructor (storedTab: Option<string>, storedSession: Option<string>)
      ensures activeTab == GetTabSelected(storedTab)
      ensures assistant == AssistantChat(false, if storedSession.Some? then storedSession.value else "", [])
      ensures expert == ExpertChat(false, [])
    {
      activeTab := GetTabSelected(storedTab);
      assistant := AssistantChat(false, if storedSession.Some? then storedSession.value else "", []);
      expert := ExpertChat(false, []);
    }

    method SetSelectedTab(payload: AiChatType)
      modifies this
      ensures activeTab == payload
      ensures assistant == old(assistant) && expert == old(expert)
    {
      activeTab := payload;
    }

    /** A new assistant chat is being created: loading, with no session id. */
    method CreateAssistantChat()
      modifies this
      ensures assistant == old(assistant).(loading := true, id := "")
      ensures activeTab == old(activeTab) && expert == old(expert)
    {
      assistant := assistant.(loading := true, id := "");
    }

    method CreateAssistantSuccess(payload: string)
      modifies this
      ensures assistant == old(assistant).(loading := false, id := payload)
      ensures activeTab == old(activeTab) && expert == old(expert)
    {
      assistant := assistant.(id := payload, loading := false);
    }

    method ClearAssistantChatId()
      modifies this
      ensures assistant == old(assistant).(id := "")
      ensures activeTab == old(activeTab) && expert == old(expert)
    {
      assistant := assistant.(id := "");
    }

    method CreateAssistantFailed()
      modifies this
      ensures assistant == old(assistant).(loading := false)
      ensures activeTab == old(activeTab) && expert == old(expert)
    {
      assistant := assistant.(loading := false);
    }

    method GetAssistantChatHistory()
      modifies this
      ensures assistant == old(assistant).(loading := true)
      ensures activeTab == old(activeTab) && expert == old(expert)
    {
      assistant := assistant.(loading := true);
    }

    /** The loaded history replaces the assistant messages, each with a fresh id. */
    method GetAssistantChatHistorySuccess(payload: Option<seq<ChatMessage>>, uuid: nat -> string)
      modifies this
      ensures assistant == old(assistant).(loading := false, messages := WithFreshIds(payload, uuid))
      ensures activeTab == old(activeTab) && expert == old(expert)
    {
      assistant := assistant.(loading := false);
      assistant := assistant.(messages := WithFreshIds(payload, uuid));
    }

    method GetAssistantChatHistoryFailed()
      modifies this
      ensures assistant == old(assistant).(loading := false)
      ensures activeTab == old(activeTab) && expert == old(expert)
    {
      assistant := assistant.(loading := false);
    }

    method RemoveAssistantChatHistory()
      modifies this
      ensures assistant == old(assistant).(loading := true)
      ensures activeTab == old(activeTab) && expert == old(expert)
    {
      assistant := assistant.(loading := true);
    }

    /** After the history is removed the assistant chat is empty and has no session. */
    method RemoveAssistantChatHistorySuccess()
      modifies this
      ensures assistant == AssistantChat(false, "", [])
      ensures activeTab == old(activeTab) && expert == old(expert)
    {
      assistant := assistant.(loading := false);
      assistant := assistant.(messages := []);
      assistant := assistant.(id := "");
    }

    method RemoveAssistantChatHistoryFailed()
      modifies this
      ensures assistant == old(assistant).(loading := false)
      ensures activeTab == old(activeTab) && expert == old(expert)
    {
      assistant := assistant.(loading := false);
    }

    /** The question is appended as the last assistant message. */
    method SendQuestion(payload: ChatMessage)
      modifies this
      ensures assistant == old(assistant).(messages := old(assistant.messages) + [payload])
      ensures activeTab == old(activeTab) && expert == old(expert)
    {
      assistant := assistant.(messages := assistant.messages + [payload]);
    }

    /** Only the messages with the given id get the new error. */
    method SetQuestionError(id: string, error: Option<ChatError>)
      modifies this
      ensures assistant == old(assistant).(messages := WithError(old(assistant.messages), id, error))
      ensures activeTab == old(activeTab) && expert == old(expert)
    {
      assistant := assistant.(messages := WithError(assistant.messages, id, error));
    }

    /** The answer is appended as the last assistant message. */
    method SendAnswer(payload: ChatMessage)
      modifies this
      ensures assistant == old(assistant).(messages := old(assistant.messages) + [payload])
      ensures activeTab == old(activeTab) && expert == old(expert)
    {
      assistant := assistant.(messages := assistant.messages + [payload]);
    }

    method GetExpertChatHistory()
      modifies this
      ensures expert == old(expert).(loading := true)
      ensures activeTab == old(activeTab) && assistant == old(assistant)
    {
      expert := expert.(loading := true);
    }

    /** The loaded history replaces the expert messages, each with a fresh id. */
    method GetExpertChatHistorySuccess(payload: Option<seq<ChatMessage>>, uuid: nat -> string)
      modifies this
      ensures expert == ExpertChat(false, WithFreshIds(payload, uuid))
      ensures activeTab == old(activeTab) && assistant == old(assistant)
    {
      expert := expert.(loading := false);
      expert := expert.(messages := WithFreshIds(payload, uuid));
    }

    method GetExpertChatHistoryFailed()
      modifies this
      ensures expert == old(expert).(loading := false)
      ensures activeTab == old(activeTab) && assistant == old(assistant)
    {
      expert := expert.(loading := false);
    }

    /** The question is appended as the last expert message. */
    method SendExpertQuestion(payload: ChatMessage)
      modifies this
      ensures expert == old(expert).(messages := old(expert.messages) + [payload])
      ensures activeTab == old(activeTab) && assistant == old(assistant)
    {
      expert := expert.(messages := expert.messages + [payload]);
    }

    /** Only the expert messages with the given id get the new error. */
    method SetExpertQuestionError(id: string, error: Option<ChatError>)
      modifies this
      ensures expert == old(expert).(messages := WithError(old(expert.messages), id, error))
      ensures activeTab == old(activeTab) && assistant == old(assistant)
    {
      expert := expert.(messages := WithError(expert.messages, id, error));
    }

    /** The answer is appended as the last expert message. */
    method SendExpertAnswer(payload: ChatMessage)
      modifies this
      ensures expert == old(expert).(messages := old(expert.messages) + [payload])
      ensures activeTab == old(activeTab) && assistant == old(assistant)
    {
      expert := expert.(messages := expert.messages + [payload]);
    }

    method ClearExpertChatHistory()
      modifies this
      ensures expert == old(expert).(messages := [])
      ensures activeTab == old(activeTab) && assistant == old(assistant)
    {
      expert := expert.(messages := []);
    }
  }

  /** A question followed by its failure leaves the question as the last message, with
      the error set on it, and the earlier messages as they were when the id is new. */
  method AskAndFail(state: AiAssistantState, question: ChatMessage, error: Option<ChatError>)
    requires forall k | 0 <= k < |state.assistant.messages| :: state.assistant.messages[k].id != question.id
    modifies state
    ensures state.assistant.messages == old(state.assistant.messages) + [question.(error := error)]
    ensures state.expert == old(state.expert) && state.activeTab == old(state.activeTab)
  {
    state.SendQuestion(question);
    state.SetQuestionError(question.id, error);
    assert state.assistant.messages[|state.assistant.messages| - 1] == question.(error := error);
    assert state.assistant.messages[..|state.assistant.messages| - 1] == old(state.assistant.messages);
  }
}
