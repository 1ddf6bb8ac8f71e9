/**
 * The four stored entities, the shapes accepted by their create operations,
 * and the partial records (`Partial<T>`) their update operations merge in.
 * Timestamps are integers (milliseconds); `null` is `None`.
 */
module Schema {
  import opened Wrappers

  datatype User = User(
    id: int,
    username: string,
    password: string,
    email: string,
    name: Option<string>,
    langPreference: string)

  /** Create shape of a user: `name` and `langPreference` may be left out. */
  datatype InsertUser = InsertUser(
    username: string,
    password: string,
    email: string,
    name: Option<string>,
    langPreference: Option<string>)

  /** The fields a user update may carry; `None` leaves the field as it was. */
  datatype UserPatch = UserPatch(
    username: Option<string>,
    password: Option<string>,
    email: Option<string>,
    name: Option<Option<string>>,
    langPreference: Option<string>)

  /** `{ ...u, ...p }` */
  function PatchUser(u: User, p: UserPatch): User {
    u.(username := p.username.GetOr(u.username),
       password := p.password.GetOr(u.password),
       email := p.email.GetOr(u.email),
       name := p.name.GetOr(u.name),
       langPreference := p.langPreference.GetOr(u.langPreference))
  }

  datatype Translation = Translation(
    id: int,
    userId: Option<int>,
    sourceText: string,
    translatedText: string,
    fromLang: string,
    toLang: string,
    favorite: bool,
    createdAt: int)

  datatype InsertTranslation = InsertTranslation(
    userId: Option<int>,
    sourceText: string,
    translatedText: string,
    fromLang: string,
    toLang: string,
    favorite: Option<bool>)

  datatype TranslationPatch = TranslationPatch(
    userId: Option<Option<int>>,
    sourceText: Option<string>,
    translatedText: Option<string>,
    fromLang: Option<string>,
    toLang: Option<string>,
    favorite: Option<bool>,
    createdAt: Option<int>)

  /** The patch `{ favorite }` */
  function FavoritePatch(favorite: bool): TranslationPatch {
    TranslationPatch(None, None, None, None, None, Some(favorite), None)
  }

  /** `{ ...t, ...p }` */
  function PatchTranslation(t: Translation, p: TranslationPatch): Translation {
    t.(userId := p.userId.GetOr(t.userId),
       sourceText := p.sourceText.GetOr(t.sourceText),
       translatedText := p.translatedText.GetOr(t.translatedText),
       fromLang := p.fromLang.GetOr(t.fromLang),
       toLang := p.toLang.GetOr(t.toLang),
       favorite := p.favorite.GetOr(t.favorite),
       createdAt := p.createdAt.GetOr(t.createdAt))
  }

  datatype Conversation = Conversation(
    id: int,
    userId: int,
    participantId: int,
    lastMessageAt: int)

  datatype InsertConversation = InsertConversation(userId: int, participantId: int)

  datatype ConversationPatch = ConversationPatch(
    userId: Option<int>,
    participantId: Option<int>,
    lastMessageAt: Option<int>)

  /** `{ ...c, ...p }` */
  function PatchConversation(c: Conversation, p: ConversationPatch): Conversation {
    c.(userId := p.userId.GetOr(c.userId),
       participantId := p.participantId.GetOr(c.participantId),
       lastMessageAt := p.lastMessageAt.GetOr(c.lastMessageAt))
  }

  datatype Message = Message(
    id: int,
    conversationId: int,
    senderId: int,
    text: string,
    sentAt: int,
    read: bool)

  /** Create shape of a message; `read` is not part of the declared shape,
      but the store honours one when the caller passes it. */
  datatype InsertMessage = InsertMessage(
    conversationId: int,
    senderId: int,
    text: string,
    read: Option<bool>)

  /** The user a conversation was opened by or with. */
  predicate IsParticipant(c: Conversation, userId: int) {
    c.userId == userId || c.participantId == userId
  }
}
