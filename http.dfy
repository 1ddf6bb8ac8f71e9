/**
 * The request and response values the route handlers exchange: JSON
 * bodies, the status and body of a reply, and the logged-in user that
 * the session layer attaches to a request (`req.user`).
 */
module Http {
  import opened Wrappers
  import opened Schema

  /** A parsed JSON request body; `undefined` fields are absent keys. */
  datatype Json =
    | JNull
    | JBool(b: bool)
    | JNumber(n: real)
    | JString(s: string)
    | JArray(items: seq<Json>)
    | JObject(fields: map<string, Json>)

  /** `body.key`: none when the body is not an object or lacks the key. */
  function Field(body: Json, key: string): (r: Option<Json>)
    ensures r.Some? <==> body.JObject? && key in body.fields
  {
    if body.JObject? && key in body.fields then Some(body.fields[key]) else None
  }

  /** The body of a reply. */
  datatype Body =
    | Error(message: string)        // `json({ message })` for a refusal
    | Notice(message: string)       // `json({ message })` for an informational reply
    | Invalid                       // a schema failure, `json({ message: <first zod error> })`
    | Text(text: string)            // `send(text)`
    | Empty                         // `sendStatus(code)` or `json(undefined)`
    | UserBody(user: User)
    | TranslationBody(translation: Translation)
    | TranslationsBody(translations: seq<Translation>)
    | ConversationBody(conversation: Conversation)
    | ConversationsBody(conversations: seq<Conversation>)
    | MessageBody(msg: Message)
    | MessagesBody(msgs: seq<Message>)
    | Success                       // `json({ success: true })`

  datatype Response = Response(status: int, body: Body)

  const UNAUTHORIZED: Response := Response(401, Error("Unauthorized"))
  const FORBIDDEN: Response := Response(403, Error("Forbidden"))

  /** `req.user`: the deserialised user of an authenticated session. */
  type Session = Option<User>

  /** `req.isAuthenticated()` */
  predicate IsAuthenticated(session: Session) {
    session.Some?
  }

  /** `req.user?.id` where it passes the `if (!userId)` test: present and
      not 0. */
  function SessionUserId(session: Session): (r: Option<int>)
    ensures r.Some? <==> session.Some? && session.value.id != 0
    ensures r.Some? ==> r.value == session.value.id
  {
    if session.Some? && session.value.id != 0 then Some(session.value.id) else None
  }
}
