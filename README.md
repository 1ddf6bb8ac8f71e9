# LoveTranslate core in Dafny

This project models the core of LoveTranslate, a small English/French translation and messaging app. The server parts are:

- the in-memory store `MemStorage`, with its users, translations, conversations and messages, each under its own id counter;
- the demonstration translators `mockTranslateEnToFr` and `mockTranslateFrToEn`;
- the translation, conversation and authentication route handlers.

The client parts are the pure list and state routines of the translation tab, the conversation view and the messages tab.

Modules, one per source file or concern:

- `Wrappers`: the `Option` type.
- `JsString`: the JavaScript string operations the code relies on. These are `trim`, `toLowerCase`, global `replace`, `split(/\s+/)`, `includes` and `join`, plus the UTF-16 `length` and the `>` order on strings.
- `Lists`: `filter`, `find` and `some`, plus the stable insertion sort that stands for `Array.prototype.sort`.
- `Schema`: the record shapes and insert defaults of `shared/schema.ts`.
- `Storage`: the `MemStorage` class. It has map fields and counters, its methods change them in place, and `markMessagesAsRead` keeps its loop.
- `Http`: JSON bodies, responses, and the session user.
- `MockTranslator`: the translation cascade as functions, plus the word loop as a method.
- `TranslationRoutes`, `MessageRoutes` and `Auth`: the handlers.
- `TranslationTab` and `ConversationView`: the component state as classes, with each handler as a method. The history updater and the message toggle are pure functions.
- `MessagesTab`: pure functions.

Time (`new Date()`, `Date.now()`) is a `now` parameter.

Server replies that a client handler waits for are parameters of that handler.

The session layer is reduced to `req.user`, written `Session = Option<User>`.

The scrypt key derivation and the random salt are parameters of `HashPassword`.

## Model

| member | source | states |
|---|---|---|
| Storage.MemStorage.constructor | server/storage.ts:60-76 | The store starts with the four fixture users under ids 1–4 and the three fixture translations under ids 1–3. The user and translation counters are 5 and 4, and there are no conversations or messages. |
| Storage.MemStorage.SeedData | server/storage.ts:78-151 | Starting from an empty store, seeding stores exactly the fixture users and translations through the create methods, and advances the counters to 5 and 4. |
| Storage.MemStorage.SeedFixtureUsers | server/storage.ts:78-120 | Into an empty user map it creates the users test, marie, pierre and emma under ids 1 to 4, with every other map and counter unchanged. |
| Storage.MemStorage.SeedFixtureTranslations | server/storage.ts:122-150 | Into an empty translation map it creates the test user's three favourite translations under ids 1 to 3, with every other map and counter unchanged. |
| Storage.SeedFacts | server/storage.ts:78-151 | The fixture users are "test", "marie", "pierre" and "emma" with ids 1–4. The three fixture translations are all owned by user 1 and all favorites. |
| Storage.MemStorage.GetUser | server/storage.ts:154-156 | Returns a user exactly when the id is one the counter handed out, and that user is the one stored under the id. |
| Storage.MemStorage.GetUserByUsername | server/storage.ts:158-162 | Returns a stored user whose username equals the query ignoring case, and it is the first such user in id order. Returns none exactly when no stored username matches. |
| Storage.MemStorage.CreateUser | server/storage.ts:164-174 | The new user takes the current counter as its id, and that id is greater than every existing one. The counter is then incremented. `name` defaults to null and `langPreference` to "en". Only the new entry is added. |
| Storage.MemStorage.UpdateUser | server/storage.ts:176-183 | An absent id gives none and nothing changes. Otherwise only that entry changes, to the old record overwritten by the given fields. |
| Storage.MemStorage.GetTranslations | server/storage.ts:186-190 | Returns exactly the stored translations owned by the user, in increasing id order. |
| Storage.MemStorage.GetTranslation | server/storage.ts:192-194 | Returns a translation exactly for a handed-out id, and it is the one stored under that id. |
| Storage.MemStorage.GetFavoriteTranslations | server/storage.ts:196-200 | The result equals `GetTranslations(u)` filtered by `favorite`. It holds exactly the user's favorite translations. |
| Storage.MemStorage.CreateTranslation | server/storage.ts:202-214 | The next id comes from the counter. `userId` defaults to null, `favorite` to false and `createdAt` to `now`. Only the new entry is added. |
| Storage.MemStorage.UpdateTranslation | server/storage.ts:216-223 | An absent id gives none and nothing changes. Otherwise only that translation changes, to the patched record. |
| Storage.MemStorage.GetConversations | server/storage.ts:226-230 | Returns exactly the stored conversations where the user is `userId` or `participantId`, in id order. |
| Storage.MemStorage.GetConversation | server/storage.ts:232-234 | Returns a conversation exactly for a handed-out id, and it is the one stored under that id. |
| Storage.MemStorage.CreateConversation | server/storage.ts:236-246 | The next id comes from the counter and `lastMessageAt` is `now`. Only the new entry is added. |
| Storage.MemStorage.GetMessages | server/storage.ts:249-257 | Returns exactly the messages of the conversation, sorted by `sentAt` ascending. The result is a permutation of that conversation's messages in id order. |
| Storage.MemStorage.CreateMessage | server/storage.ts:259-277 | The next id comes from the counter, `sentAt` is `now` and `read` defaults to false. The parent conversation's `lastMessageAt` becomes the same `now`. No other conversation changes, and none changes at all when there is no parent. |
| Storage.MemStorage.UpdateConversation | server/storage.ts:279-286 | An absent id gives none and nothing changes. Otherwise only that conversation changes, to the patched record. |
| Storage.MemStorage.MarkMessagesAsRead | server/storage.ts:288-296 | The message map afterwards equals `MarkedRead(old, c, u)`, and none of the other maps or counters change. |
| Storage.MarkedRead | server/storage.ts:288-296 | Exactly the unread messages of `c` not sent by `u` get `read = true`. Every message keeps all its other fields, and every other message is unchanged. |
| Storage.ToMarkReadListing | server/storage.ts:289-291 | The messages collected by the filter are stored records and all need marking. Every stored message that needs marking is among them. |
| Storage.MarkStep | server/storage.ts:292-295 | Writing back the next collected message, marked read, preserves the loop invariant. |
| Storage.MarkDone | server/storage.ts:288-296 | When the loop ends, the map is `MarkedRead` of the map before it. |
| Storage.ListedValues | server/storage.ts:186-257 | The listing holds exactly the stored records, in strictly increasing id order. |
| Storage.FindListed | server/storage.ts:159-161 | `find` over a listing returns the matching record with the smallest id, or none when no record matches. |
| Lists.Filter | server/storage.ts:188 | The filter keeps exactly the elements that satisfy the predicate, and its result is no longer than the input. |
| Lists.FilterConcat | client/src/components/messages/messages-tab.tsx:92-95 | Filtering a concatenation is the concatenation of the filtered parts, so filtering keeps the order. |
| Lists.FilterFilter | server/storage.ts:196-200 | Filtering twice equals filtering once with the conjunction of the two predicates. |
| Lists.FilterAll | client/src/components/messages/messages-tab.tsx:92-95 | A filter that every element passes returns the list unchanged. |
| Lists.FilterIncreasing | server/storage.ts:186-190 | A filter of a list with increasing ids still has increasing ids. |
| Lists.Find | server/messages.ts:48-51 | The result is none exactly when no element satisfies the predicate. Otherwise it is the first element that does. |
| Lists.FindFilter | server/messages.ts:47-51 | Searching the filtered list for something that implies the filter finds the same element as searching the whole list. |
| Lists.FindSame | server/storage.ts:159-161 | Two pointwise-equal predicates find the same element. |
| Lists.InsertWith | server/storage.ts:253-256 | A single insertion step of the sort adds exactly one copy of the element. |
| Lists.SortWith | server/storage.ts:253-256 | The sort returns a permutation of its input. |
| Lists.SortWithSorted | server/storage.ts:253-256 | With the comparator `a.sentAt - b.sentAt`, the sorted list is ordered by `sentAt`. |
| Lists.InsertSorted | server/storage.ts:253-256 | Inserting into a sorted list keeps it sorted. |
| JsString.Trim | server/translations.ts:189 | The trimmed text neither starts nor ends with white space. |
| JsString.TrimEmptyIffBlank | client/src/components/translation/translation-tab.tsx:109 | `trim()` gives "" exactly when the text is only white space. |
| JsString.Lower | server/translations.ts:191 | The result has the input's length and no capital letter. Every other character stays in its place, and each capital becomes its small letter. |
| JsString.LowerIdempotent | server/translations.ts:191 | Lowercasing an already lowercased text changes nothing. |
| JsString.LowerConcat | server/translations.ts:191 | Lowercasing a concatenation lowercases each part. |
| JsString.RemoveChars | server/translations.ts:189 | A character is in the result exactly when it is in the input and is not one of the removed characters. |
| JsString.RemoveCharsCount | server/translations.ts:189 | Every kept character occurs in the result exactly as often as in the input. |
| JsString.RemoveCharsConcat | server/translations.ts:189 | Removal works part by part, so the kept characters stay in their order. |
| JsString.ReplaceAllRemoves | client/src/components/messages/conversation-view.tsx:252 | Replacing every occurrence of a character by a text that lacks it leaves none. |
| JsString.ReplaceAllKeepsAbsent | server/translations.ts:210-216 | A global replace cannot introduce a character that neither the input nor the replacement holds. |
| JsString.SplitWs | server/translations.ts:194 | `split(/\s+/)` gives the text's tokens in order. No piece holds white space, and joined with single spaces the pieces give the text with each white-space run collapsed to one space. Only the first piece (for a text that is empty or starts with white space) and the last piece (for one that ends with white space) can be empty. |
| JsString.Length | server/translations.ts:10 | `length` is the number of UTF-16 code units of the text, between the number of code points and twice that number. |
| JsString.UnitsLessAsymmetric | client/src/components/messages/messages-tab.tsx:105 | Of two strings, at most one is greater than the other. |
| MockTranslator.TranslateWords | server/translations.ts:196-206 | The loop yields each token's table entry, or the token itself when it is not a key. `translatedAny` holds exactly when some token is a key. |
| MockTranslator.MockTranslate | server/translations.ts:152-285 | The result follows the cascade: exact key, then the punctuation-stripped lowercased key, then the word join when any token is known, then the greeting test, then the replacement chain plus the flag. |
| MockTranslator.ExactKeyWins | server/translations.ts:190 | A text that is a key is answered with its own entry, even when its normal form is a key with another entry. |
| MockTranslator.ExactKeyExample | server/translations.ts:154-190 | "Hello, how are you?" translates to "Bonjour, comment allez-vous?" by the exact lookup. |
| MockTranslator.NormalizeIdempotent | server/translations.ts:189-191 | The normalised key holds no `[.,?!;:]` character and no surrounding space, and is already lowercase. Normalising it again changes nothing. |
| MockTranslator.NormalizeIgnoresCase | server/translations.ts:189-191 | Lowercasing the text first does not change its normalised key. |
| MockTranslator.NormalizeIgnoresPunctuation | server/translations.ts:189-191 | Removing the punctuation first does not change the normalised key. |
| MockTranslator.CaseAndPunctuationInsensitive | server/translations.ts:189-207 | Suppose no exact key matches and the normalised text is covered by the table, the word pass or the greeting. Then the lowercased, punctuation-free text translates to the same result as the original. |
| MockTranslator.SameNormalForm | server/translations.ts:191-208 | Two texts that are not exact keys and share a covered normal form translate alike. |
| MockTranslator.EnFrChainNoHW | server/translations.ts:210-216 | The English-to-French replacement chain leaves no 'h' and no 'w'. |
| MockTranslator.EnFrFallbackShape | server/translations.ts:208-216 | With no table coverage and no greeting match, the English-to-French result ends with the flag suffix. |
| MockTranslator.FrEnChainShrinks | server/translations.ts:276-284 | The French-to-English chain never lengthens the text. |
| MockTranslator.GreetingNeedsEmbeddedHello | server/translations.ts:194-208 | The greeting is returned only when "hello" occurs inside a token without being a token itself. |
| TranslationRoutes.ParseTranslateRequest | server/translations.ts:8-17 | A request parses exactly when `text` is a string of 1–500 UTF-16 units and both languages are "en" or "fr". The parsed fields are the ones the body holds. |
| TranslationRoutes.Caller | server/translations.ts:18-32 | A session acts as its own user, or as nobody when its id is 0. Without a session the request acts as the user "test" when that user exists, and as nobody otherwise. |
| TranslationRoutes.Dispatch | server/translations.ts:38-46 | en→fr and fr→en go to their translators. When both languages are equal, the text comes back unchanged. |
| TranslationRoutes.Translate | server/translations.ts:15-66 | An invalid body gets 400 and no caller gets 401, and in both cases nothing changes. Otherwise the caller gets 200 and exactly one translation is stored. It holds the text, its translation, the languages, `favorite` false, the caller as owner and the next id. |
| TranslationRoutes.ListTranslations | server/translations.ts:69-88 | No caller gets 401. Otherwise the reply holds exactly the caller's translations, in id order. |
| TranslationRoutes.ListFavorites | server/translations.ts:91-110 | No caller gets 401. Otherwise the reply is the caller's list filtered to favorites. |
| TranslationRoutes.ToggleFavorite | server/translations.ts:113-148 | No caller gets 401, an unknown or NaN id gets 404, and another owner gets 403, each with no change. Otherwise only that translation changes, and only its `favorite`. |
| TranslationRoutes.AnonymousIsTestUser | server/storage.ts:80-86 | With the fixture users, an anonymous request acts as user 1. |
| MessageRoutes.FindExisting | server/messages.ts:47-51 | Returns none exactly when no stored conversation joins the two users in either orientation. Otherwise it returns the oldest one that does. |
| MessageRoutes.ExistingSymmetric | server/messages.ts:48-51 | The lookup gives the same answer whichever of the two users asks. |
| MessageRoutes.OldestIsFound | server/messages.ts:47-55 | The oldest conversation between A and B is what B finds when looking for A. |
| MessageRoutes.OpenFirst | server/messages.ts:27-71 | A opening a conversation with B gets 200 or 201, and the conversation returned is the one B finds when looking for A. |
| MessageRoutes.OpenExisting | server/messages.ts:47-55 | While B finds a conversation with A, B opening one with A is answered 200 with that conversation. |
| MessageRoutes.OpenBothWays | server/messages.ts:27-71 | A opening a conversation with B gets 200 or 201. B then opening one with A gets 200 with the same conversation. |
| MessageRoutes.ParseParticipantId | server/messages.ts:29-33 | The body parses exactly when `participantId` is a positive integer. |
| MessageRoutes.ParseParticipantIdOf | server/messages.ts:29-33 | The body `{ participantId: n }` parses to `n` for every positive integer `n`. |
| MessageRoutes.ParseMessageText | server/messages.ts:99-103 | The body parses exactly when `text` is a string of 1–1000 UTF-16 units. |
| MessageRoutes.Target | server/messages.ts:75-86 | A conversation is targeted exactly when `parseInt` gave a number that is a stored id. |
| MessageRoutes.ConversationGuard | server/messages.ts:7-90 | Without a session user, which fails the `isAuthenticated` gate modelled as `Http.IsAuthenticated`, the reply is 401. A missing conversation then gets 404, and a caller who is in neither role gets 403. The guard passes exactly for a participant. |
| MessageRoutes.ListConversations | server/messages.ts:16-24 | No user gets 401. Otherwise the reply holds exactly the conversations the caller takes part in, in id order. |
| MessageRoutes.CreateConversation | server/messages.ts:27-71 | No session gets 401, a bad body 400, an id-0 session 401 and an unknown participant 404, each with no change. An existing pair, in either orientation, gets 200 with nothing created. Otherwise a new conversation (caller, target) is stored and returned with 201. The consistency invariant is preserved. |
| MessageRoutes.ListMessages | server/messages.ts:74-94 | A failed guard gives its refusal. Otherwise the reply holds exactly the conversation's messages, each as often as the store lists it, ordered by `sentAt`. |
| MessageRoutes.SendMessage | server/messages.ts:97-136 | No session gets 401, invalid text 400, and a failed guard its refusal, each with no change. Otherwise exactly one unread message from the caller is stored, and the conversation's `lastMessageAt` becomes its `sentAt`. Every sender stays a participant of its conversation. |
| MessageRoutes.MarkRead | server/messages.ts:139-159 | A failed guard gives its refusal with no change. Otherwise the messages become `MarkedRead(…, caller)`, the caller's own messages are unchanged, and the reply is 200. |
| Auth.HashPassword | server/auth.ts:27-31 | The stored text has the `key.salt` format. When neither part holds a dot, splitting it at the dots gives back the derived key and the salt. |
| Auth.ComparePasswordsCases | server/auth.ts:35-39 | Of `comparePasswords`, modelled as `Auth.ComparePasswords`: "password123" passes against every stored password. Any other text passes exactly when it equals the stored text. |
| Auth.VerifyCredentials | server/auth.ts:61-73 | Verification succeeds exactly when a user matches the username ignoring case and the password comparison passes, and it then returns that stored user. |
| Auth.Login | server/auth.ts:115-135 | Missing or empty credentials get 401 "Missing credentials". Failed verification gets 401 with no body. Both refusals leave the caller's session as it was. Success gets 200 with the user, whom the session then holds. |
| Auth.ParseInsertUser | server/auth.ts:88 | The body parses exactly when `username`, `password` and `email` are strings, `name` is absent, null or a string, and `langPreference` is absent or a string. The parsed fields are the ones the body holds. |
| Auth.Register | server/auth.ts:85-113 | An invalid body gets 400, and a username already taken ignoring case gets 400 "Username already exists"; neither creates a user or changes the caller's session. Otherwise one user is created from the validated fields, with the password replaced by its hash. The reply is 201, and the session holds the new user. |
| Auth.CurrentUser | server/auth.ts:157-169 | A session gets its user. Without one the reply is the user "test" if present, and 401 otherwise. |
| Auth.Logout | server/auth.ts:137-142 | The session ends and the reply is 200. |
| Auth.ForgotPassword | server/auth.ts:171-178 | The reply is always 200. |
| Auth.ForgotPasswordUniform | server/auth.ts:171-178 | The reply does not depend on the request body. |
| Auth.RegisteredPasswordRejected | server/auth.ts:27-39 | As written, a password other than "password123" and without a dot fails against the hash stored for it at registration. |
| Auth.RegisterThenLogin | server/auth.ts:85-135 | Registering with such a password and then logging in with it gets 401. |
| Auth.RegisterThenLoginWithStored | server/auth.ts:85-135 | After a 201 from registration, logging in with the stored password text that the reply carries gets 200 with the new user. |
| Auth.SplitHash | server/auth.ts:27-31 | The stored text splits at its first dot into the key and the salt, and neither part contains a dot. |
| Auth.SplitHashOf | server/auth.ts:27-31 | Splitting a `key.salt` text whose parts hold no dot gives back the key and the salt. |
| Auth.HashedRoundTrip | server/auth.ts:27-31 | The corrected comparison accepts every password against its own stored hash, provided the key and salt contain no dot. |
| TranslationTab.AddToHistory | client/src/components/translation/translation-tab.tsx:140-153 | A translation already present by (text, from, to) leaves the history unchanged. Otherwise the new item is first, the previous items follow in order, and the length is min(n + 1, 20). |
| TranslationTab.AddToHistoryValid | client/src/components/translation/translation-tab.tsx:140-153 | The update preserves "at most 20 items, keys pairwise distinct". |
| TranslationTab.AddToHistoryRecords | client/src/components/translation/translation-tab.tsx:140-153 | After the update, the translation's key is in the history. |
| TranslationTab.AddToHistoryIdempotent | client/src/components/translation/translation-tab.tsx:140-153 | Recording the same translation twice is the same as recording it once. |
| TranslationTab.TranslateRequestFor | client/src/components/translation/translation-tab.tsx:108-123 | No request is sent exactly when the text is only white space. Otherwise the request carries the text and the current direction. |
| TranslationTab.FavoriteRequestFor | client/src/components/translation/translation-tab.tsx:191-198 | Without a current id (null or 0) nothing is sent. Otherwise the request carries that id and the negated flag. |
| TranslationTab.Swapped | client/src/components/translation/translation-tab.tsx:171-174 | `from` and `to` trade places. |
| TranslationTab.TranslationTabState.constructor | client/src/components/translation/translation-tab.tsx:62-69 | The initial state is empty text, en→fr, no result, no id, no favorite, auto-translate off and an empty history. |
| TranslationTab.TranslationTabState.SourceTextChange | client/src/components/translation/translation-tab.tsx:99-106 | Text over 500 UTF-16 units is ignored. Accepted text replaces the source, and the result is cleared when auto-translate is off. Nothing else changes. |
| TranslationTab.TranslationTabState.Translate | client/src/components/translation/translation-tab.tsx:108-157 | The request is `TranslateRequestFor` of the text and direction. White space or a failed request changes nothing. A reply sets the result, the id and the favorite flag and records the translation via `AddToHistory`. |
| TranslationTab.TranslationTabState.TranslateSuccess | client/src/components/translation/translation-tab.tsx:125-153 | A reply sets the result, the id and the favorite flag, and the history becomes `AddToHistory` of the new item. The history stays valid. |
| TranslationTab.TranslationTabState.ToggleDirection | client/src/components/translation/translation-tab.tsx:170-179 | The direction is swapped, and the text, result, id and favorite are cleared. |
| TranslationTab.TranslationTabState.ToggleDirectionTwice | client/src/components/translation/translation-tab.tsx:170-179 | Toggling twice restores the direction. |
| TranslationTab.TranslationTabState.ToggleFavorite | client/src/components/translation/translation-tab.tsx:191-210 | The request is `FavoriteRequestFor` of the id and flag. The flag flips only when a request was sent and succeeded, and nothing else changes. |
| ConversationView.Toggled | client/src/components/messages/conversation-view.tsx:229-271 | With a non-empty `originalText` the message reverts to it and the translation fields are cleared. Otherwise the old text is kept as `originalText`, and the direction is en→fr exactly when the text matches `[a-zA-Z0-9\s.,!?'"-]+`. The id, sender, time and read flag never change. |
| ConversationView.ToggledText | client/src/components/messages/conversation-view.tsx:244-262 | The translated text is the direction's replacement chain applied to the old text, followed by that direction's flag. |
| ConversationView.ToggledTwice | client/src/components/messages/conversation-view.tsx:231-270 | Translating a non-empty untranslated message and toggling again restores its text, with the translation fields cleared. |
| ConversationView.EmptyNeverReverts | client/src/components/messages/conversation-view.tsx:232-245 | An empty message gets an empty, falsy `originalText`, so a second toggle translates again. |
| ConversationView.EnglishToFrenchNoW | client/src/components/messages/conversation-view.tsx:250-254 | The English chain leaves no 'w'. |
| ConversationView.FrenchToEnglishNoAccents | client/src/components/messages/conversation-view.tsx:257-261 | The French chain leaves no 'é' and no 'è'. |
| ConversationView.TranslateMessages | client/src/components/messages/conversation-view.tsx:228-275 | Only messages with the given id are toggled. Every other message is identical, and the length is kept. |
| ConversationView.TranslateMessagesTwice | client/src/components/messages/conversation-view.tsx:228-275 | Applying the map twice restores every targeted non-empty untranslated message and leaves the others as they were. |
| ConversationView.SenderId | client/src/components/messages/conversation-view.tsx:184 | `user?.id \|\| 1` is the user's non-zero id, or 1. |
| ConversationView.ConversationViewState.TranslateMessage | client/src/components/messages/conversation-view.tsx:227-279 | The messages become `TranslateMessages`, and the selection is cleared. |
| ConversationView.ConversationViewState.SendMessage | client/src/components/messages/conversation-view.tsx:178-196 | Whitespace-only input changes nothing. Otherwise exactly one message is appended at the end. It has id `now`, the typed text, that sender, and `isRead` false, and the input is cleared. |
| ConversationView.ConversationViewState.SetMessageText | client/src/components/messages/conversation-view.tsx:485 | The input field takes the typed value. |
| MessagesTab.FilterConversations | client/src/components/messages/messages-tab.tsx:92-95 | Keeps exactly the conversations whose lowercased name or last message contains the lowercased query. An empty query keeps them all. |
| MessagesTab.FilterKeepsOrder | client/src/components/messages/messages-tab.tsx:92-95 | Filtering works part by part, so the kept conversations keep their order. |
| MessagesTab.Compare | client/src/components/messages/messages-tab.tsx:97-110 | In recent mode an unread conversation (> 0) compares -1 against a read one (=== 0), and 1 the other way round. Otherwise the result is -1 exactly when `a.time > b.time`, and 1 in every other case. In name mode it is the locale comparison. |
| MessagesTab.EqualTimesNotAntisymmetric | client/src/components/messages/messages-tab.tsx:105 | Two conversations with equal unread counts and equal times compare as 1 both ways. |
| MessagesTab.DifferentTimesAntisymmetric | client/src/components/messages/messages-tab.tsx:105 | With equal unread counts and different times, the comparator's order is antisymmetric. |
| MessagesTab.SortConversations | client/src/components/messages/messages-tab.tsx:97 | The sorted list is a permutation of the filtered list. |
| MessagesTab.SortedUnreadFirst | client/src/components/messages/messages-tab.tsx:97-102 | In recent mode, with counts of at least 0, no read conversation comes before an unread one. |
| MessagesTab.InsertUnreadFirst | client/src/components/messages/messages-tab.tsx:99-102 | One insertion step keeps unread conversations before read ones. |
| MessagesTab.OpenConversation | client/src/components/messages/messages-tab.tsx:119-123 | The copy has `unreadCount` 0, and all its other fields are equal to the original's. |
| MessagesTab.FormatTime | client/src/components/messages/messages-tab.tsx:144-156 | Every input comes back unchanged. |

## Left out

- Sessions, cookies, passport and express-session are reduced to `Session = Option<User>`. Serialising and deserialising the user and the session store are not modelled.
- `Auth.HashPassword`: scrypt and `randomBytes` are not modelled. The derived key is an arbitrary function `kdf` and the salt is a parameter.
- `Auth.Login`: non-string credentials are not modelled. The missing-credentials reply follows the passport-local library's behaviour, and that library is not part of this model.
- `Storage.MemStorage.UpdateUser`, `Storage.MemStorage.UpdateTranslation` and `Storage.MemStorage.UpdateConversation`: the patches cannot carry an `id`. The source's `Partial<T>` allows one, but no caller passes it.
- `/api/test-user` (server/auth.ts:144-155) is not part of this model.
- The zod error message text is not modelled. A schema failure is `Response(400, Invalid)`.
- `TranslationRoutes.ToggleFavorite`: `favorite` is taken to be a boolean. The source passes any JSON value through to the store unchecked.
- `parseInt` on path segments is an `Option<int>` parameter, with none standing for NaN. How digits are read from text is not modelled.
- The phrase tables are finite maps, so lookups of prototype keys such as "constructor" do not model JavaScript's behaviour.
- The mis-encoded French literals and flag suffixes of server/translations.ts are copied code point for code point. No property depends on their content.
- `JsString.Lower`: only ASCII and Latin-1 letters are lowercased. Other scripts are left unchanged.
- `Array.prototype.sort` is a stable insertion sort. The results the engine's own algorithm gives with the inconsistent recent-mode comparator are not modelled. Only the permutation and the unread-first grouping are claimed.
- `localeCompare` is a parameter.
- Dates are integers, and ISO and date-fns formatting are not modelled.
- The auto-translate timer, the simulated replies (`Math.random`, timers), toasts, clipboard, scrolling and rendering are not modelled.
- Logging is not modelled. This covers the `console.log` and `console.error` calls of server/auth.ts, such as those at lines 42 and 116-131.
- async/await is modelled as sequential steps, since nothing in the core interleaves.
- `ConversationView.ConversationViewState.constructor`: the two hard-coded mock conversations are not modelled. The view starts from a given message list.
- `MessagesTab.SortedUnreadFirst` assumes unread counts of at least 0. With negative counts the comparator does not group unread conversations first.

## Findings

| source | as written | input that shows it | evidently intended | confidence | as-written member | corrected member |
|---|---|---|---|---|---|---|
| server/auth.ts:35-39 | `comparePasswords` compares the supplied password with the stored text directly. Registration stores `key.salt` (server/auth.ts:27-31, 97-100). | Register "alice" with password "secret", then log in as "alice" with "secret": the comparison of "secret" with "<hex>.<salt>" fails and the reply is 401. Besides "password123", only the stored `key.salt` text itself, which the register reply returns, logs a registered user in. | Split the stored text at the dot, derive the key from the supplied password with that salt, and compare the keys, keeping the development password. | not executed | Auth.RegisteredPasswordRejected | Auth.HashedRoundTrip |

`Auth.ComparePasswordsHashed` is the corrected comparison. It keeps the development password, so the fixture accounts log in under either rule, and `Auth.HashedRoundTrip` proves that it also accepts every registered password against its own hash. `Auth.VerifyCredentials` and `Auth.Login` keep the comparison as written, since they model the login rule as the source states it.
