/**
 * The message list of an open conversation on the client: the per-message
 * translate / revert toggle with its demonstration translation, and the
 * local append of a sent message. `Date.now()` and the ISO time text are
 * parameters.
 */
module ConversationView {
  import opened Wrappers
  import opened JsString

  /** A message as the view holds it. The optional fields are set while the
      message shows a translation. */
  datatype ChatMessage = ChatMessage(
    id: int, text: string, senderId: int, sentAt: string, isRead: bool,
    translateFrom: Option<string>, translateTo: Option<string>, originalText: Option<string>)

  const FRENCH_FLAG: string := " \U{1F1EB}\U{1F1F7}"
  const BRITISH_FLAG: string := " \U{1F1EC}\U{1F1E7}"

  /** `Truthy(o)`: the optional text is present and not empty. */
  predicate Truthy(o: Option<string>) {
    o.Some? && o.value != ""
  }

  /** One character of the class `[a-zA-Z0-9\s.,!?'"-]`. */
  predicate EnglishChar(c: char) {
    ('a' <= c <= 'z') || ('A' <= c <= 'Z') || ('0' <= c <= '9') || IsSpace(c)
    || c == '.' || c == ',' || c == '!' || c == '?' || c == '\'' || c == '"' || c == '-'
  }

  /** `/^[a-zA-Z0-9\s.,!?'"-]+$/.test(text)` */
  predicate LooksEnglish(text: string) {
    text != [] && forall k :: 0 <= k < |text| ==> EnglishChar(text[k])
  }

  /** The English-to-French demonstration chain: th to z, w to v, tion to
      sion, ing to ant, then the French flag. */
  function EnglishToFrench(text: string): string {
    ReplaceAll(ReplaceAll(ReplaceAll(ReplaceAll(text, "th", "z"), "w", "v"), "tion", "sion"), "ing", "ant")
      + FRENCH_FLAG
  }

  /** The French-to-English demonstration chain: ou to u, eau to o, é and è
      to e, then the British flag. */
  function FrenchToEnglish(text: string): string {
    ReplaceAll(ReplaceAll(ReplaceAll(ReplaceAll(text, "ou", "u"), "eau", "o"), "\U{00E9}", "e"), "\U{00E8}", "e")
      + BRITISH_FLAG
  }

  /** What `translateMessage` does to the message it targets: with a
      non-empty original text it reverts to it and clears the translation
      fields; otherwise it translates, keeps the text it replaced in
      `originalText`, and records the direction, English to French when the
      text looks English and French to English otherwise. */
  function Toggled(msg: ChatMessage): (r: ChatMessage)
    ensures r.id == msg.id && r.senderId == msg.senderId && r.sentAt == msg.sentAt && r.isRead == msg.isRead
    ensures Truthy(msg.originalText) ==>
      r.text == msg.originalText.value && r.originalText.None? && r.translateFrom.None? && r.translateTo.None?
    ensures !Truthy(msg.originalText) ==>
      && r.originalText == Some(msg.text)
      && (r.translateFrom == Some("en") <==> LooksEnglish(msg.text))
      && (r.translateFrom == Some("fr") <==> !LooksEnglish(msg.text))
      && r.translateTo == (if LooksEnglish(msg.text) then Some("fr") else Some("en"))
  {
    if Truthy(msg.originalText) then
      msg.(text := msg.originalText.value, originalText := None, translateFrom := None, translateTo := None)
    else
      var isEnglish := LooksEnglish(msg.text);
      var translatedText := if isEnglish then EnglishToFrench(msg.text) else FrenchToEnglish(msg.text);
      msg.(text := translatedText, originalText := Some(msg.text),
           translateFrom := Some(if isEnglish then "en" else "fr"),
           translateTo := Some(if isEnglish then "fr" else "en"))
  }

  /** The text a translated message shows is the chain of its direction
      applied to the text it had, followed by that direction's flag. */
  lemma ToggledText(msg: ChatMessage)
    requires !Truthy(msg.originalText)
    ensures LooksEnglish(msg.text) ==> Toggled(msg).text == EnglishToFrench(msg.text)
    ensures !LooksEnglish(msg.text) ==> Toggled(msg).text == FrenchToEnglish(msg.text)
    ensures Toggled(msg).translateFrom.Some?
  {
  }

  /** Translating a message with text and then reverting gives the
      message back, without translation fields. */
  lemma ToggledTwice(msg: ChatMessage)
    requires !Truthy(msg.originalText) && msg.text != ""
    ensures Toggled(Toggled(msg)) == msg.(originalText := None, translateFrom := None, translateTo := None)
  {
    var once := Toggled(msg);
    assert Truthy(once.originalText);
  }

  /** An empty message has a falsy original text after translating, so a
      second toggle translates again instead of reverting. */
  lemma EmptyNeverReverts(msg: ChatMessage)
    requires !Truthy(msg.originalText) && msg.text == ""
    ensures !Truthy(Toggled(msg).originalText)
    ensures Toggled(msg).text == FrenchToEnglish("")
  {
  }

  /** The English chain leaves no 'w' before the flag. */
  lemma EnglishToFrenchNoW(text: string)
    ensures 'w' !in ReplaceAll(ReplaceAll(ReplaceAll(ReplaceAll(text, "th", "z"), "w", "v"), "tion", "sion"), "ing", "ant")
  {
    var a := ReplaceAll(ReplaceAll(text, "th", "z"), "w", "v");
    ReplaceAllRemoves(ReplaceAll(text, "th", "z"), 'w', "v");
    ReplaceAllKeepsAbsent(a, "tion", "sion", 'w');
    ReplaceAllKeepsAbsent(ReplaceAll(a, "tion", "sion"), "ing", "ant", 'w');
  }

  /** The French chain leaves no é or è before the flag. */
  lemma FrenchToEnglishNoAccents(text: string)
    ensures '\U{00E9}' !in ReplaceAll(ReplaceAll(ReplaceAll(ReplaceAll(text, "ou", "u"), "eau", "o"), "\U{00E9}", "e"), "\U{00E8}", "e")
    ensures '\U{00E8}' !in ReplaceAll(ReplaceAll(ReplaceAll(ReplaceAll(text, "ou", "u"), "eau", "o"), "\U{00E9}", "e"), "\U{00E8}", "e")
  {
    var a := ReplaceAll(ReplaceAll(text, "ou", "u"), "eau", "o");
    ReplaceAllRemoves(a, '\U{00E9}', "e");
    ReplaceAllKeepsAbsent(ReplaceAll(a, "\U{00E9}", "e"), "\U{00E8}", "e", '\U{00E9}');
    ReplaceAllRemoves(ReplaceAll(a, "\U{00E9}", "e"), '\U{00E8}', "e");
  }

  /** `prevMessages.map(...)`: the message with the given id is toggled and
      every other message stays as it is. */
  function TranslateMessages(msgs: seq<ChatMessage>, messageId: int): (r: seq<ChatMessage>)
    ensures |r| == |msgs|
    ensures forall i :: 0 <= i < |msgs| && msgs[i].id != messageId ==> r[i] == msgs[i]
    ensures forall i :: 0 <= i < |msgs| && msgs[i].id == messageId ==> r[i] == Toggled(msgs[i])
  {
    seq(|msgs|, i requires 0 <= i < |msgs| => if msgs[i].id == messageId then Toggled(msgs[i]) else msgs[i])
  }

  /** The ids of the list survive the toggle, so toggling twice acts on the
      same messages. */
  lemma TranslateMessagesTwice(msgs: seq<ChatMessage>, messageId: int)
    requires forall i :: 0 <= i < |msgs| && msgs[i].id == messageId ==>
      !Truthy(msgs[i].originalText) && msgs[i].text != ""
    ensures var r := TranslateMessages(TranslateMessages(msgs, messageId), messageId);
      forall i :: 0 <= i < |msgs| ==>
        r[i] == (if msgs[i].id == messageId
                 then msgs[i].(originalText := None, translateFrom := None, translateTo := None)
                 else msgs[i])
  {
    var once := TranslateMessages(msgs, messageId);
    forall i | 0 <= i < |msgs| && msgs[i].id == messageId
      ensures TranslateMessages(once, messageId)[i] == msgs[i].(originalText := None, translateFrom := None, translateTo := None)
    {
      ToggledTwice(msgs[i]);
    }
  }

  /** `user?.id || 1`: the user's id, or 1 without a user or with id 0. */
  function SenderId(user: Option<int>): (r: int)
    ensures r != 0
    ensures user.Some? && user.value != 0 ==> r == user.value
    ensures user.None? || user.value == 0 ==> r == 1
  {
    if user.Some? && user.value != 0 then user.value else 1
  }

  class ConversationViewState {
    var messageText: string
    var messages: seq<ChatMessage>
    var selectedMessage: Option<int>

    constructor(initial: seq<ChatMessage>)
      ensures messageText == "" && messages == initial && selectedMessage.None?
    {
      messageText := "";
      messages := initial;
      selectedMessage := None;
    }

    /** The text area's `onChange`. */
    method SetMessageText(value: string)
      modifies this
      ensures messageText == value && messages == old(messages) && selectedMessage == old(selectedMessage)
    {
      messageText := value;
    }

    /** `translateMessage(messageId)`: toggles that message and clears the
        selection. */
    method TranslateMessage(messageId: int)
      modifies this
      ensures messages == TranslateMessages(old(messages), messageId)
      ensures selectedMessage.None? && messageText == old(messageText)
    {
      messages := TranslateMessages(messages, messageId);
      selectedMessage := None;
    }

    /** `handleSendMessage`: white-space text does nothing. Otherwise exactly
        one unread message with the typed text is appended, sent by the
        user (or 1), with id `now`, and the text area is cleared. */
    method SendMessage(user: Option<int>, now: int, sentAt: string)
      modifies this
      ensures AllSpace(old(messageText)) ==>
        messages == old(messages) && messageText == old(messageText)
      ensures !AllSpace(old(messageText)) ==>
        && messages == old(messages) + [ChatMessage(now, old(messageText), SenderId(user), sentAt, false, None, None, None)]
        && messageText == ""
      ensures selectedMessage == old(selectedMessage)
    {
      TrimEmptyIffBlank(messageText);
      if Trim(messageText) == "" {
        return;
      }
      var newMessage := ChatMessage(now, messageText, SenderId(user), sentAt, false, None, None, None);
      messages := messages + [newMessage];
      messageText := "";
    }
  }
}
