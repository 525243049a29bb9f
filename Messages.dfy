/**
 * The message envelope exchanged between clients and the server, the system
 * notices the server generates, and the validation that `onMessage` applies to
 * an inbound text frame before it is routed.
 */
module Messages {
  import opened Wrappers
  import opened JavaStrings

  /** The value of `LocalDateTime.now()` at the moment a message is built; opaque to the router. */
  type Timestamp = int

  /**
   * A WsMessage. `to` is `None` only in system notices addressed to a null
   * user name; every other field is always a (possibly empty) string.
   */
  datatype WsMessage = WsMessage(id: string, from: string, to: Option<string>, content: string, sendTime: Timestamp)

  /** A parsed org.json object, reduced to its string-valued members. */
  type JsonObject = map<string, string>

  /** `JSONObject.optString(key)`: the member's value, or the empty string when it is missing. */
  function OptString(json: JsonObject, key: string): string {
    if key in json then json[key] else ""
  }

  const SystemSender := "system"
  const NamingRuleNotice := "系统提示：名称不合法，请使用字母、数字、下划线或破折号命名"
  const DuplicateNameNotice := "系统提示：名称已经存在，请使用其他名称"
  const ConnectedNotice := "系统消息：连接成功"
  const EmptyMessageNotice := "系统提示：接收到的消息为空"
  const MissingFieldNotice := "系统提示：接收到的消息格式错误，ID、发送方和消息内容均不能为空"
  const UnparsableNotice := "系统提示：接收到的消息格式错误，无法解析的JSON字符串或缺少必要属性"
  const RecipientOfflineContent := "你所发的用户不在线"

  /**
   * The envelope `sendSystemMessageToUser(to, id, text)` builds: an id that is
   * null or empty is replaced by the freshly generated `uuid`.
   */
  function SystemMessage(to: Option<string>, id: Option<string>, text: string, uuid: string, now: Timestamp): WsMessage {
    var messageId := if id == None || id == Some("") then uuid else id.value;
    WsMessage(messageId, SystemSender, to, text, now)
  }

  lemma SystemMessageFields(to: Option<string>, id: Option<string>, text: string, uuid: string, now: Timestamp)
    ensures var m := SystemMessage(to, id, text, uuid, now);
            && m.from == SystemSender && m.to == to && m.content == text && m.sendTime == now
            && (id.Some? && id.value != "" ==> m.id == id.value)
            && (id.None? || id.value == "" ==> m.id == uuid)
  {
  }

  /**
   * The notice `appointSending` returns to the caller when `name` is not
   * registered: the decoded message with `to` and `content` overwritten.
   */
  function OfflineNotice(m: WsMessage, name: string): WsMessage {
    m.(to := Some(name), content := RecipientOfflineContent)
  }

  /** What `onMessage` does with one inbound frame. */
  datatype Verdict =
    | Reject(noticeId: Option<string>, notice: string)  // reply with a system notice to this endpoint's name
    | Direct(recipient: string, msg: WsMessage)         // appointSending(recipient, msg)
    | Broadcast(msg: WsMessage)                         // groupSend(msg)

  /**
   * The frame is routable: present, non-empty, parsable, and its `id`, `from`
   * and `content` each hold a character above U+0020.
   */
  ghost predicate Routable(message: Option<string>, parse: string -> Option<JsonObject>) {
    && message.Some? && message.value != ""
    && parse(message.value).Some?
    && !Blank(OptString(parse(message.value).value, "id"))
    && !Blank(OptString(parse(message.value).value, "from"))
    && !Blank(OptString(parse(message.value).value, "content"))
  }

  /**
   * The validation and routing decision of `onMessage`. `parse` stands for
   * `new JSONObject(message)`; `None` is the parse exception.
   */
  function Classify(message: Option<string>, parse: string -> Option<JsonObject>, now: Timestamp): (v: Verdict)
    ensures v.Reject? <==> !Routable(message, parse)
    ensures v.Direct? <==> Routable(message, parse) && OptString(parse(message.value).value, "to") != ""
    ensures message == None || message == Some("") ==> v == Reject(None, EmptyMessageNotice)
    ensures message.Some? && message.value != "" && parse(message.value).None? ==> v == Reject(None, UnparsableNotice)
    ensures message.Some? && message.value != "" && parse(message.value).Some? && v.Reject? ==>
              v == Reject(Some(OptString(parse(message.value).value, "id")), MissingFieldNotice)
    ensures !v.Reject? ==>
              var json := parse(message.value).value;
              v.msg == WsMessage(OptString(json, "id"), OptString(json, "from"), Some(OptString(json, "to")),
                                 OptString(json, "content"), now)
    ensures v.Direct? ==> v.msg.to == Some(v.recipient)
  {
    if message.None? || message.value == "" then
      Reject(None, EmptyMessageNotice)
    else match parse(message.value)
      case None => Reject(None, UnparsableNotice)
      case Some(json) =>
        var id, from, content := OptString(json, "id"), OptString(json, "from"), OptString(json, "content");
        if id == "" || from == "" || content == "" then
          Reject(Some(id), MissingFieldNotice)
        else if Trim(id) == "" || Trim(from) == "" || Trim(content) == "" then
          TrimEmptyIffBlank(id); TrimEmptyIffBlank(from); TrimEmptyIffBlank(content);
          Reject(Some(id), MissingFieldNotice)
        else
          TrimEmptyIffBlank(id); TrimEmptyIffBlank(from); TrimEmptyIffBlank(content);
          var m := WsMessage(id, from, Some(OptString(json, "to")), content, now);
          if m.to.Some? && m.to.value != "" then Direct(m.to.value, m) else Broadcast(m)
  }

  /** A `to` made only of spaces is not blank to `isEmpty`: such a message is sent directly, not broadcast. */
  lemma WhitespaceRecipientIsDirect(message: string, parse: string -> Option<JsonObject>, now: Timestamp)
    requires message != "" && parse(message).Some?
    requires OptString(parse(message).value, "id") == "1"
    requires OptString(parse(message).value, "from") == "alice"
    requires OptString(parse(message).value, "content") == "hi"
    requires OptString(parse(message).value, "to") == " "
    ensures Classify(Some(message), parse, now) == Direct(" ", WsMessage("1", "alice", Some(" "), "hi", now))
  {
  }
}
