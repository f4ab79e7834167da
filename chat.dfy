/**
 * The chat panel (linguabridge/src/components/ChatPanel.js): the `messages` list, the `input`
 * box and the `loading` flag, updated by loading a document's history and by sending a question.
 * Clock readings (`Date.now()`, `Date.now() + Math.random()`) are parameters.
 */
module ChatPanel {
  import opened Wrappers
  import opened Text

  const UploadFirst := "Please upload a document first to start chatting about it."
  const Thinking := "Thinking..."
  const LogInFirst := "Please log in to use the chat feature."
  const TroubleApology := "Sorry, I'm having trouble processing your request. Please try again."
  const ConnectionApology := "Sorry, I'm unable to process your request right now. Please check your connection and try again."

  /** A message id: a number made from the clock, or the id stored with a history row. */
  datatype MessageId = Numeric(n: real) | Stored(key: string)

  datatype Message = Message(id: MessageId, role: string, content: string)

  /** A row of GET /user/chat/{documentId}. */
  datatype StoredMessage = StoredMessage(id: Option<string>, role: string, content: string)

  /** The history reply: ok with `data.messages`, a non-ok status, or a thrown error. */
  datatype HistoryReply = HistoryOk(messages: Option<seq<StoredMessage>>) | HistoryNotOk | HistoryError

  /** The POST /chat body, with the id of the placeholder message its reply will fill. */
  datatype ChatRequest = ChatRequest(documentId: string, userId: string, message: string, loadingId: MessageId)

  /** The /chat reply: a response with its status and JSON fields, or a thrown error. */
  datatype ChatReply = Responded(ok: bool, reply: Option<string>, error: Option<string>) | Thrown

  /** `data.messages?.map(...) || []`: every row kept in order with its role and content; a row
      without a truthy id gets the clock-and-random number `fallbackId(k)`. */
  function FormatHistory(rows: Option<seq<StoredMessage>>, fallbackId: nat -> real): (ms: seq<Message>)
    ensures rows.None? ==> ms == []
    ensures rows.Some? ==> |ms| == |rows.value|
    ensures rows.Some? ==> forall k :: 0 <= k < |ms| ==>
              && ms[k].role == rows.value[k].role
              && ms[k].content == rows.value[k].content
              && ms[k].id == (if Truthy(rows.value[k].id) then Stored(rows.value[k].id.value) else Numeric(fallbackId(k)))
  {
    match rows
    case None => []
    case Some(rs) =>
      seq(|rs|, k requires 0 <= k < |rs| =>
        Message(if Truthy(rs[k].id) then Stored(rs[k].id.value) else Numeric(fallbackId(k)), rs[k].role, rs[k].content))
  }

  /** `prev.map(m => m.id === id ? { ...m, content } : m)`. */
  function ReplaceContent(ms: seq<Message>, id: MessageId, content: string): (r: seq<Message>)
    ensures |r| == |ms|
    ensures forall k :: 0 <= k < |ms| ==> r[k].id == ms[k].id && r[k].role == ms[k].role
    ensures forall k :: 0 <= k < |ms| ==> r[k].content == (if ms[k].id == id then content else ms[k].content)
  {
    if ms == [] then []
    else [if ms[0].id == id then ms[0].(content := content) else ms[0]] + ReplaceContent(ms[1..], id, content)
  }

  /** Replacing leaves every message with another id exactly as it was. */
  lemma ReplaceKeepsOthers(ms: seq<Message>, id: MessageId, content: string, k: nat)
    requires k < |ms| && ms[k].id != id
    ensures ReplaceContent(ms, id, content)[k] == ms[k]
  {
  }

  /** Replacing into a list with no message of that id is the identity. */
  lemma {:induction false} ReplaceAbsent(ms: seq<Message>, id: MessageId, content: string)
    requires forall k :: 0 <= k < |ms| ==> ms[k].id != id
    ensures ReplaceContent(ms, id, content) == ms
  {
    if ms != [] {
      ReplaceAbsent(ms[1..], id, content);
    }
  }

  /** Replacing distributes over concatenation. */
  lemma {:induction false} ReplaceAppend(xs: seq<Message>, ys: seq<Message>, id: MessageId, content: string)
    ensures ReplaceContent(xs + ys, id, content) == ReplaceContent(xs, id, content) + ReplaceContent(ys, id, content)
  {
    if xs != [] {
      var head := if xs[0].id == id then xs[0].(content := content) else xs[0];
      assert (xs + ys)[0] == xs[0] && (xs + ys)[1..] == xs[1..] + ys;
      assert ReplaceContent(xs + ys, id, content) == [head] + ReplaceContent(xs[1..] + ys, id, content);
      ReplaceAppend(xs[1..], ys, id, content);
    }
  }

  /** A loaded history holds no message with the placeholder's id when every row without a truthy
      id got a fallback number other than it; then the answer lands only on the placeholder. */
  lemma AnswerLandsOnPlaceholder(history: seq<StoredMessage>, fallbackId: nat -> real, user: Message,
                                 placeholder: Message, content: string)
    requires forall k :: 0 <= k < |history| ==> Truthy(history[k].id) || Numeric(fallbackId(k)) != placeholder.id
    requires placeholder.id.Numeric? && user.id != placeholder.id
    ensures var loaded := FormatHistory(Some(history), fallbackId);
            ReplaceContent(loaded + [user, placeholder], placeholder.id, content)
              == loaded + [user, placeholder.(content := content)]
  {
    var loaded := FormatHistory(Some(history), fallbackId);
    var id := placeholder.id;
    assert forall k :: 0 <= k < |loaded| ==> loaded[k].id != id;
    ReplaceAppend(loaded, [user, placeholder], id, content);
    ReplaceAbsent(loaded, id, content);
    ReplacePair(user, placeholder, id, content);
  }

  /** Replacing in a question and its placeholder answers the placeholder only. */
  lemma ReplacePair(user: Message, placeholder: Message, id: MessageId, content: string)
    requires user.id != id && placeholder.id == id
    ensures ReplaceContent([user, placeholder], id, content) == [user, placeholder.(content := content)]
  {
    assert [user, placeholder][1..] == [placeholder];
  }

  /** A later replacement with the same id overrides an earlier one. */
  lemma ReplaceTwice(ms: seq<Message>, id: MessageId, c1: string, c2: string)
    ensures ReplaceContent(ReplaceContent(ms, id, c1), id, c2) == ReplaceContent(ms, id, c2)
  {
  }

  /** The text a /chat outcome puts into the placeholder message. */
  function ReplyText(reply: ChatReply): (text: string)
    ensures reply.Responded? && reply.ok && Truthy(reply.reply) ==> text == reply.reply.value
    ensures reply.Responded? && !(reply.ok && Truthy(reply.reply)) ==> text == OrElse(reply.error, TroubleApology)
    ensures reply.Thrown? ==> text == ConnectionApology
    ensures text != ""
  {
    match reply
    case Responded(ok, r, error) =>
      if ok && Truthy(r) then r.value else OrElse(error, TroubleApology)
    case Thrown => ConnectionApology
  }

  class Chat {
    var messages: seq<Message>
    var input: string
    var loading: bool

    /** The `useState` initial values. */
    constructor ()
      ensures messages == [] && input == "" && !loading
    {
      messages := [];
      input := "";
      loading := false;
    }

    /** The input box's change handler. */
    method SetInput(text: string)
      modifies this`input
      ensures input == text
    {
      input := text;
    }

    /** loadChatHistory, given the history reply: no document or no user empties the list
        (without touching `loading`); a failed load empties it; a good one replaces it. */
    method LoadChatHistory(documentId: Option<string>, userId: Option<string>, reply: HistoryReply,
                           fallbackId: nat -> real)
      modifies this`messages, this`loading
      ensures !Truthy(documentId) || !Truthy(userId) ==> messages == [] && loading == old(loading)
      ensures Truthy(documentId) && Truthy(userId) ==> !loading
      ensures Truthy(documentId) && Truthy(userId) ==>
                messages == (if reply.HistoryOk? then FormatHistory(reply.messages, fallbackId) else [])
    {
      if !Truthy(documentId) || !Truthy(userId) {
        messages := [];
        return;
      }
      loading := true;
      if reply.HistoryOk? {
        messages := FormatHistory(reply.messages, fallbackId);
      } else {
        messages := [];
      }
      loading := false;
    }

    /**
     * handleSend up to the POST: blank input does nothing; without a document one assistant
     * message asks for an upload; otherwise the user's message and a "Thinking..." placeholder
     * are appended and the input cleared, and either the placeholder is answered with a login
     * prompt or the request to send is returned. `now1` and `now2` are the two clock readings.
     */
    method HandleSend(documentId: Option<string>, userId: Option<string>, now1: int, now2: int)
      returns (pending: Option<ChatRequest>)
      modifies this`messages, this`input
      ensures Trim(old(input), IsJsSpace) == "" ==> messages == old(messages) && input == old(input) && pending == None
      ensures Trim(old(input), IsJsSpace) != "" && !Truthy(documentId) ==>
                && messages == old(messages) + [Message(Numeric((now1 + 2) as real), "assistant", UploadFirst)]
                && input == old(input) && pending == None
      ensures Trim(old(input), IsJsSpace) != "" && Truthy(documentId) ==>
                var user := Message(Numeric(now1 as real), "user", old(input));
                var loadingId := Numeric((now2 + 1) as real);
                var placeholder := Message(loadingId, "assistant", Thinking);
                && input == ""
                && (Truthy(userId) ==>
                      && messages == old(messages) + [user, placeholder]
                      && pending == Some(ChatRequest(documentId.value, userId.value, old(input), loadingId)))
                && (!Truthy(userId) ==>
                      && messages == ReplaceContent(old(messages) + [user, placeholder], loadingId, LogInFirst)
                      && pending == None)
    {
      if Trim(input, IsJsSpace) == "" {
        return None;
      }
      if !Truthy(documentId) {
        messages := messages + [Message(Numeric((now1 + 2) as real), "assistant", UploadFirst)];
        return None;
      }
      var msg := input;
      var userMessageId := Numeric(now1 as real);
      var loadingId := Numeric((now2 + 1) as real);
      messages := messages + [Message(userMessageId, "user", msg), Message(loadingId, "assistant", Thinking)];
      input := "";
      if !Truthy(userId) {
        messages := ReplaceContent(messages, loadingId, LogInFirst);
        return None;
      }
      pending := Some(ChatRequest(documentId.value, userId.value, msg, loadingId));
    }

    /** The /chat outcome for the placeholder `loadingId`: only messages with that id change. */
    method ReceiveChatReply(loadingId: MessageId, reply: ChatReply)
      modifies this`messages
      ensures messages == ReplaceContent(old(messages), loadingId, ReplyText(reply))
    {
      messages := ReplaceContent(messages, loadingId, ReplyText(reply));
    }
  }

  /**
   * A signed-in user loads a document's history, types a question and sends it, and the reply
   * arrives. When no earlier message carries the placeholder's id and the user's message id
   * differs from it, the list ends as the history, the question, and the answer, in that order.
   */
  method AskAboutDocument(documentId: string, userId: string, history: seq<StoredMessage>,
                          fallbackId: nat -> real, question: string, now1: int, now2: int, reply: ChatReply)
    returns (pending: Option<ChatRequest>, final: seq<Message>, inputAfter: string)
    requires documentId != "" && userId != ""
    requires Trim(question, IsJsSpace) != ""
    requires forall k :: 0 <= k < |history| ==> Truthy(history[k].id) || fallbackId(k) != (now2 + 1) as real
    requires now1 != now2 + 1
    ensures pending == Some(ChatRequest(documentId, userId, question, Numeric((now2 + 1) as real)))
    ensures inputAfter == ""
    ensures final == FormatHistory(Some(history), fallbackId)
                     + [Message(Numeric(now1 as real), "user", question), Message(Numeric((now2 + 1) as real), "assistant", ReplyText(reply))]
  {
    var chat := new Chat();
    var loaded := FormatHistory(Some(history), fallbackId);
    var loadingId := Numeric((now2 + 1) as real);
    var user := Message(Numeric(now1 as real), "user", question);
    var answer := ReplyText(reply);
    chat.LoadChatHistory(Some(documentId), Some(userId), HistoryOk(Some(history)), fallbackId);
    assert chat.messages == loaded;
    chat.SetInput(question);
    pending := chat.HandleSend(Some(documentId), Some(userId), now1, now2);
    assert chat.messages == loaded + [user, Message(loadingId, "assistant", Thinking)];
    chat.ReceiveChatReply(loadingId, reply);
    AnswerLandsOnPlaceholder(history, fallbackId, user, Message(loadingId, "assistant", Thinking), answer);
    final, inputAfter := chat.messages, chat.input;
  }
}
