/**
 * The in-memory store: four maps from id to record, each with its own id
 * counter, seeded with fixture users and translations when it is built.
 * A JavaScript `Map` lists its entries in insertion order; ids are handed
 * out in increasing order and an update overwrites an entry in place, so
 * that order is ascending id order, which is how `Listed` enumerates a map.
 */
module Storage {
  import opened Wrappers
  import opened Schema
  import opened Lists
  import opened JsString

  /** The keys of `m` are exactly 1 .. n-1. */
  ghost predicate Dense<T>(m: map<int, T>, n: int) {
    n >= 1 && forall k :: k in m <==> 1 <= k < n
  }

  /** `Array.from(m.values())` for a map whose keys are 1 .. n-1. */
  function Listed<T>(m: map<int, T>, n: int): (r: seq<T>)
    requires forall k :: 1 <= k < n ==> k in m
    ensures |r| == (if n <= 1 then 0 else n - 1)
    ensures forall i :: 0 <= i < |r| ==> r[i] == m[i + 1]
  {
    if n <= 1 then [] else seq(n - 1, i requires 0 <= i < n - 1 => m[i + 1])
  }

  /** The listing holds exactly the stored records, each one found again
      under its own id. */
  lemma ListedValues<T>(m: map<int, T>, n: int, key: T -> int)
    requires Dense(m, n)
    requires forall k :: k in m ==> key(m[k]) == k
    ensures forall x :: x in Listed(m, n) ==> key(x) in m && m[key(x)] == x
    ensures forall k :: k in m ==> m[k] in Listed(m, n)
    ensures Increasing(Listed(m, n), key)
  {
    var r := Listed(m, n);
    forall k | k in m ensures m[k] in r {
      assert r[k - 1] == m[k];
    }
  }

  /** `find` over a listing returns the matching record with the smallest
      id, and returns none exactly when no stored record matches. */
  lemma FindListed<T(!new)>(m: map<int, T>, n: int, key: T -> int, p: T -> bool)
    requires Dense(m, n)
    requires forall k :: k in m ==> key(m[k]) == k
    ensures var r := Find(Listed(m, n), p);
      && (r.None? <==> forall k :: k in m ==> !p(m[k]))
      && (r.Some? ==> key(r.value) in m && m[key(r.value)] == r.value && p(r.value))
      && (r.Some? ==> forall k :: k in m && k < key(r.value) ==> !p(m[k]))
  {
    var listed := Listed(m, n);
    ListedValues(m, n, key);
    var r := Find(listed, p);
    if r.Some? {
      var i :| 0 <= i < |listed| && listed[i] == r.value && forall j :: 0 <= j < i ==> !p(listed[j]);
      forall k | k in m && k < key(r.value) ensures !p(m[k]) {
        assert listed[k - 1] == m[k];
      }
    }
  }

  function UserId(u: User): int { u.id }
  function TranslationId(t: Translation): int { t.id }
  function ConversationId(c: Conversation): int { c.id }
  function MessageId(m: Message): int { m.id }
  function SentAt(m: Message): int { m.sentAt }

  /** The comparator `(a, b) => timeA - timeB` of `getMessages`. */
  function BySentAt(a: Message, b: Message): int { a.sentAt - b.sentAt }

  function IsFavorite(t: Translation): bool { t.favorite }

  function OwnedBy(userId: int): Translation -> bool {
    (t: Translation) => t.userId == Some(userId)
  }

  function OwnedFavorite(userId: int): Translation -> bool {
    (t: Translation) => t.userId == Some(userId) && t.favorite
  }

  function InvolvesUser(userId: int): Conversation -> bool {
    (c: Conversation) => c.userId == userId || c.participantId == userId
  }

  function InConversation(conversationId: int): Message -> bool {
    (m: Message) => m.conversationId == conversationId
  }

  /** Usernames equal ignoring case (`a.toLowerCase() === b.toLowerCase()`). */
  predicate SameUsername(a: string, b: string) {
    Lower(a) == Lower(b)
  }

  function UsernameMatches(username: string): User -> bool {
    (u: User) => SameUsername(u.username, username)
  }

  /** The messages `markMessagesAsRead(c, u)` visits: unread ones in `c` not sent by `u`. */
  predicate ToMarkRead(m: Message, conversationId: int, userId: int) {
    m.conversationId == conversationId && m.senderId != userId && !m.read
  }

  function Unread(conversationId: int, userId: int): Message -> bool {
    (m: Message) => ToMarkRead(m, conversationId, userId)
  }

  /** Each listed message is the one stored under its id. */
  ghost predicate Snapshot(ms: seq<Message>, before: map<int, Message>) {
    forall j :: 0 <= j < |ms| ==> ms[j].id in before && before[ms[j].id] == ms[j]
  }

  /** Every message is as it was, or marked read where marking applies. */
  ghost predicate PartlyMarked(cur: map<int, Message>, before: map<int, Message>, conversationId: int, userId: int)
    requires cur.Keys == before.Keys
  {
    forall k :: k in before ==>
      cur[k] == before[k] || (cur[k] == before[k].(read := true) && ToMarkRead(before[k], conversationId, userId))
  }

  /** The messages `markMessagesAsRead` collects are stored records, each
      under its own id, and every stored message it should mark is among them. */
  lemma ToMarkReadListing(ms: map<int, Message>, n: int, conversationId: int, userId: int)
    requires Dense(ms, n)
    requires forall k :: k in ms ==> ms[k].id == k
    ensures var t := Filter(Listed(ms, n), Unread(conversationId, userId));
      && Snapshot(t, ms)
      && (forall j :: 0 <= j < |t| ==> ToMarkRead(t[j], conversationId, userId))
      && (forall k :: k in ms && ToMarkRead(ms[k], conversationId, userId) ==>
            exists j :: 0 <= j < |t| && t[j] == ms[k])
  {
    ListedValues(ms, n, MessageId);
    var t := Filter(Listed(ms, n), Unread(conversationId, userId));
    forall j | 0 <= j < |t| ensures t[j].id in ms && ms[t[j].id] == t[j] && ToMarkRead(t[j], conversationId, userId) {
      assert t[j] in t;
      assert MessageId(t[j]) == t[j].id;
    }
    forall k | k in ms && ToMarkRead(ms[k], conversationId, userId)
      ensures exists j :: 0 <= j < |t| && t[j] == ms[k]
    {
      assert ms[k] in t;
    }
  }

  /** The message map after marking as read, from the recipient `userId`'s side. */
  function MarkedRead(ms: map<int, Message>, conversationId: int, userId: int): (r: map<int, Message>)
    ensures r.Keys == ms.Keys
    ensures forall k :: k in ms ==>
      r[k].read == (ms[k].read || (ms[k].conversationId == conversationId && ms[k].senderId != userId))
    ensures forall k :: k in ms ==> r[k].(read := ms[k].read) == ms[k]
  {
    map k | k in ms :: if ToMarkRead(ms[k], conversationId, userId) then ms[k].(read := true) else ms[k]
  }

  /** Loop state of `markMessagesAsRead` after the first `i` collected
      messages have been written back with `read` set. */
  ghost predicate MarkProgress(cur: map<int, Message>, before: map<int, Message>, t: seq<Message>, i: int, conversationId: int, userId: int) {
    && 0 <= i <= |t|
    && cur.Keys == before.Keys
    && (forall k :: k in cur ==> cur[k].id == k)
    && PartlyMarked(cur, before, conversationId, userId)
    && (forall j :: 0 <= j < i ==> t[j].id in cur && cur[t[j].id] == t[j].(read := true))
  }

  /** Writing back the next collected message keeps the loop state. */
  lemma MarkStep(cur: map<int, Message>, before: map<int, Message>, t: seq<Message>, i: int, conversationId: int, userId: int)
    requires MarkProgress(cur, before, t, i, conversationId, userId) && i < |t|
    requires Snapshot(t, before)
    requires forall j :: 0 <= j < |t| ==> ToMarkRead(t[j], conversationId, userId)
    ensures MarkProgress(cur[t[i].id := t[i].(read := true)], before, t, i + 1, conversationId, userId)
  {
    var next := cur[t[i].id := t[i].(read := true)];
    forall j | 0 <= j < i + 1 ensures t[j].id in next && next[t[j].id] == t[j].(read := true) {
      if j < i && t[j].id == t[i].id {
        assert t[j] == before[t[i].id] == t[i];
      }
    }
  }

  /** Once every collected message is written back, the map is `MarkedRead`. */
  lemma MarkDone(cur: map<int, Message>, before: map<int, Message>, t: seq<Message>, conversationId: int, userId: int)
    requires MarkProgress(cur, before, t, |t|, conversationId, userId)
    requires forall k :: k in before && ToMarkRead(before[k], conversationId, userId) ==>
      exists j :: 0 <= j < |t| && t[j] == before[k]
    ensures cur == MarkedRead(before, conversationId, userId)
  {
    forall k | k in before ensures cur[k] == MarkedRead(before, conversationId, userId)[k] {
      if ToMarkRead(before[k], conversationId, userId) {
        var j :| 0 <= j < |t| && t[j] == before[k];
      }
    }
  }

  const SEED_PASSWORD: string := "password123"

  /** The four fixture users, ids 1 to 4. */
  function SeedUsers(): map<int, User> {
    map[
      1 := User(1, "test", SEED_PASSWORD, "test@example.com", Some("Test User"), "en"),
      2 := User(2, "marie", SEED_PASSWORD, "marie@example.com", Some("Marie Dupont"), "fr"),
      3 := User(3, "pierre", SEED_PASSWORD, "pierre@example.com", Some("Pierre Lemaire"), "fr"),
      4 := User(4, "emma", SEED_PASSWORD, "emma@example.com", Some("Emma Johnson"), "en")]
  }

  /** The three fixture translations, all owned by user 1 and all favorites. */
  function SeedTranslations(now: int): map<int, Translation> {
    map[
      1 := Translation(1, Some(1), "Hello, how are you?", "Bonjour, comment allez-vous?", "en", "fr", true, now),
      2 := Translation(2, Some(1), "I'm learning French", "J'apprends le fran\U{00E7}ais", "en", "fr", true, now),
      3 := Translation(3, Some(1), "Je suis tr\U{00E8}s heureux de vous rencontrer", "I am very happy to meet you", "fr", "en", true, now)]
  }

  /** The fixtures: users "test", "marie", "pierre" and "emma" under ids 1
      to 4, and three translations, every one owned by "test" and a
      favorite. */
  lemma SeedFacts(now: int)
    ensures SeedUsers().Keys == {1, 2, 3, 4}
    ensures SeedUsers()[1].username == "test" && SeedUsers()[2].username == "marie"
    ensures SeedUsers()[3].username == "pierre" && SeedUsers()[4].username == "emma"
    ensures SeedTranslations(now).Keys == {1, 2, 3}
    ensures forall k :: k in SeedTranslations(now) ==>
      SeedTranslations(now)[k].userId == Some(1) && SeedTranslations(now)[k].favorite
  {
  }

  /** Everything a `MemStorage` holds, as one value. */
  datatype Store = Store(
    users: map<int, User>,
    translations: map<int, Translation>,
    conversations: map<int, Conversation>,
    messages: map<int, Message>,
    currentUserId: int,
    currentTranslationId: int,
    currentConversationId: int,
    currentMessageId: int)

  class MemStorage {
    var users: map<int, User>
    var translations: map<int, Translation>
    var conversations: map<int, Conversation>
    var messages: map<int, Message>
    var currentUserId: int
    var currentTranslationId: int
    var currentConversationId: int
    var currentMessageId: int

    /** Each map holds the ids its counter has handed out, and each record
        carries the id it is stored under. */
    ghost predicate Valid()
      reads this
    {
      && Dense(users, currentUserId) && (forall k :: k in users ==> users[k].id == k)
      && Dense(translations, currentTranslationId) && (forall k :: k in translations ==> translations[k].id == k)
      && Dense(conversations, currentConversationId) && (forall k :: k in conversations ==> conversations[k].id == k)
      && Dense(messages, currentMessageId) && (forall k :: k in messages ==> messages[k].id == k)
    }

    /** The whole state, so that "nothing changed" is one equation. */
    function Contents(): Store
      reads this
    {
      Store(users, translations, conversations, messages,
        currentUserId, currentTranslationId, currentConversationId, currentMessageId)
    }

    constructor (now: int)
      ensures Valid()
      ensures users == SeedUsers() && currentUserId == 5
      ensures translations == SeedTranslations(now) && currentTranslationId == 4
      ensures conversations == map[] && currentConversationId == 1
      ensures messages == map[] && currentMessageId == 1
    {
      users := map[];
      translations := map[];
      conversations := map[];
      messages := map[];
      currentUserId := 1;
      currentTranslationId := 1;
      currentConversationId := 1;
      currentMessageId := 1;
      new;
      SeedData(now);
    }

    /** Creates the fixture users, then the fixture translations for the
        user named "test". */
    method SeedData(now: int)
      requires Valid()
      requires users == map[] && translations == map[] && conversations == map[] && messages == map[]
      requires currentUserId == 1 && currentTranslationId == 1
      modifies this
      ensures Valid()
      ensures users == SeedUsers() && currentUserId == 5
      ensures translations == SeedTranslations(now) && currentTranslationId == 4
      ensures conversations == old(conversations) && currentConversationId == old(currentConversationId)
      ensures messages == old(messages) && currentMessageId == old(currentMessageId)
    {
      SeedFixtureUsers();
      var listed := Listed(users, currentUserId);
      assert listed[0] == users[1];
      var testUser := Find(listed, (u: User) => u.username == "test");
      if testUser.Some? {
        SeedFixtureTranslations(testUser.value.id, now);
      } else {
        assert false;
      }
    }

    /** The four fixture users, created in order. */
    method SeedFixtureUsers()
      requires Valid()
      requires users == map[] && currentUserId == 1
      modifies this
      ensures Valid()
      ensures users == SeedUsers() && currentUserId == 5
      ensures translations == old(translations) && currentTranslationId == old(currentTranslationId)
      ensures conversations == old(conversations) && currentConversationId == old(currentConversationId)
      ensures messages == old(messages) && currentMessageId == old(currentMessageId)
    {
      var testPassword := "password123";
      var simplePassword := testPassword;
      var _ := CreateUser(InsertUser("test", simplePassword, "test@example.com", Some("Test User"), Some("en")));
      var _ := CreateUser(InsertUser("marie", simplePassword, "marie@example.com", Some("Marie Dupont"), Some("fr")));
      var _ := CreateUser(InsertUser("pierre", simplePassword, "pierre@example.com", Some("Pierre Lemaire"), Some("fr")));
      var _ := CreateUser(InsertUser("emma", simplePassword, "emma@example.com", Some("Emma Johnson"), Some("en")));
    }

    /** The three fixture translations of the test user, created in order. */
    method SeedFixtureTranslations(testUserId: int, now: int)
      requires Valid()
      requires translations == map[] && currentTranslationId == 1 && testUserId == 1
      modifies this
      ensures Valid()
      ensures translations == SeedTranslations(now) && currentTranslationId == 4
      ensures users == old(users) && currentUserId == old(currentUserId)
      ensures conversations == old(conversations) && currentConversationId == old(currentConversationId)
      ensures messages == old(messages) && currentMessageId == old(currentMessageId)
    {
      var _ := CreateTranslation(InsertTranslation(Some(testUserId), "Hello, how are you?",
        "Bonjour, comment allez-vous?", "en", "fr", Some(true)), now);
      var _ := CreateTranslation(InsertTranslation(Some(testUserId), "I'm learning French",
        "J'apprends le fran\U{00E7}ais", "en", "fr", Some(true)), now);
      var _ := CreateTranslation(InsertTranslation(Some(testUserId), "Je suis tr\U{00E8}s heureux de vous rencontrer",
        "I am very happy to meet you", "fr", "en", Some(true)), now);
    }

    /** `getUser(id)`: the user stored under `id`, none when absent. */
    function GetUser(id: int): (r: Option<User>)
      reads this
      requires Valid()
      ensures r.Some? <==> 1 <= id < currentUserId
      ensures r.Some? ==> r.value.id == id && r.value == users[id]
    {
      if id in users then Some(users[id]) else None
    }

    /** `getUserByUsername(q)`: the first user, in creation order, whose
        username equals `q` ignoring case; none when there is no such user. */
    function GetUserByUsername(username: string): (r: Option<User>)
      reads this
      requires Valid()
      ensures r.Some? ==> r.value.id in users && users[r.value.id] == r.value
      ensures r.Some? ==> SameUsername(r.value.username, username)
      ensures r.None? <==> forall k :: k in users ==> !SameUsername(users[k].username, username)
      ensures r.Some? ==> forall k :: k in users && k < r.value.id ==> !SameUsername(users[k].username, username)
    {
      FindListed(users, currentUserId, UserId, UsernameMatches(username));
      var r := Find(Listed(users, currentUserId), UsernameMatches(username));
      r
    }

    /** `createUser(u)`: stores the user under the next user id, with `name`
        defaulting to none and `langPreference` to "en". */
    method CreateUser(insertUser: InsertUser) returns (user: User)
      requires Valid()
      modifies this
      ensures Valid()
      ensures user.id == old(currentUserId) && currentUserId == old(currentUserId) + 1
      ensures forall k :: k in old(users) ==> k < user.id
      ensures user == User(user.id, insertUser.username, insertUser.password, insertUser.email,
                           insertUser.name, insertUser.langPreference.GetOr("en"))
      ensures users == old(users)[user.id := user]
      ensures translations == old(translations) && currentTranslationId == old(currentTranslationId)
      ensures conversations == old(conversations) && currentConversationId == old(currentConversationId)
      ensures messages == old(messages) && currentMessageId == old(currentMessageId)
    {
      var id := currentUserId;
      currentUserId := currentUserId + 1;
      user := User(id, insertUser.username, insertUser.password, insertUser.email,
                   insertUser.name, insertUser.langPreference.GetOr("en"));
      users := users[id := user];
    }

    /** `updateUser(id, data)`: none and no change when `id` is absent;
        otherwise only that entry changes, to the old record overwritten by
        the supplied fields. */
    method UpdateUser(id: int, data: UserPatch) returns (r: Option<User>)
      requires Valid()
      modifies this
      ensures Valid()
      ensures r.None? <==> id !in old(users)
      ensures r.Some? ==> r.value == PatchUser(old(users)[id], data) && users == old(users)[id := r.value]
      ensures r.None? ==> users == old(users)
      ensures currentUserId == old(currentUserId)
      ensures translations == old(translations) && currentTranslationId == old(currentTranslationId)
      ensures conversations == old(conversations) && currentConversationId == old(currentConversationId)
      ensures messages == old(messages) && currentMessageId == old(currentMessageId)
    {
      var user := GetUser(id);
      if user.None? {
        return None;
      }
      var updatedUser := PatchUser(user.value, data);
      users := users[id := updatedUser];
      return Some(updatedUser);
    }

    /** `getTranslations(u)`: exactly the stored translations owned by `u`, in id order. */
    function GetTranslations(userId: int): (r: seq<Translation>)
      reads this
      requires Valid()
      ensures forall t :: t in r ==> t.id in translations && translations[t.id] == t && t.userId == Some(userId)
      ensures forall k :: k in translations && translations[k].userId == Some(userId) ==> translations[k] in r
      ensures Increasing(r, TranslationId)
    {
      ListedValues(translations, currentTranslationId, TranslationId);
      FilterIncreasing(Listed(translations, currentTranslationId), OwnedBy(userId), TranslationId);
      Filter(Listed(translations, currentTranslationId), OwnedBy(userId))
    }

    /** `getTranslation(id)` */
    function GetTranslation(id: int): (r: Option<Translation>)
      reads this
      requires Valid()
      ensures r.Some? <==> 1 <= id < currentTranslationId
      ensures r.Some? ==> r.value.id == id && r.value == translations[id]
    {
      if id in translations then Some(translations[id]) else None
    }

    /** `getFavoriteTranslations(u)`: exactly the entries of
        `getTranslations(u)` whose `favorite` is true, in the same order. */
    function GetFavoriteTranslations(userId: int): (r: seq<Translation>)
      reads this
      requires Valid()
      ensures r == Filter(GetTranslations(userId), IsFavorite)
      ensures forall t :: t in r ==> t.id in translations && translations[t.id] == t && t.userId == Some(userId) && t.favorite
      ensures forall k :: k in translations && translations[k].userId == Some(userId) && translations[k].favorite ==> translations[k] in r
    {
      var listed := Listed(translations, currentTranslationId);
      FilterFilter(listed, OwnedBy(userId), IsFavorite, OwnedFavorite(userId));
      ListedValues(translations, currentTranslationId, TranslationId);
      Filter(listed, OwnedFavorite(userId))
    }

    /** `createTranslation(t)`: stores the translation under the next
        translation id, owner defaulting to none and `favorite` to false. */
    method CreateTranslation(translation: InsertTranslation, now: int) returns (t: Translation)
      requires Valid()
      modifies this
      ensures Valid()
      ensures t.id == old(currentTranslationId) && currentTranslationId == old(currentTranslationId) + 1
      ensures forall k :: k in old(translations) ==> k < t.id
      ensures t == Translation(t.id, translation.userId, translation.sourceText, translation.translatedText,
                               translation.fromLang, translation.toLang, translation.favorite.GetOr(false), now)
      ensures translations == old(translations)[t.id := t]
      ensures users == old(users) && currentUserId == old(currentUserId)
      ensures conversations == old(conversations) && currentConversationId == old(currentConversationId)
      ensures messages == old(messages) && currentMessageId == old(currentMessageId)
    {
      var id := currentTranslationId;
      currentTranslationId := currentTranslationId + 1;
      t := Translation(id, translation.userId, translation.sourceText, translation.translatedText,
                       translation.fromLang, translation.toLang, translation.favorite.GetOr(false), now);
      translations := translations[id := t];
    }

    /** `updateTranslation(id, data)`: none and no change when `id` is
        absent; otherwise only that entry changes, to the old record
        overwritten by the supplied fields. */
    method UpdateTranslation(id: int, data: TranslationPatch) returns (r: Option<Translation>)
      requires Valid()
      modifies this
      ensures Valid()
      ensures r.None? <==> id !in old(translations)
      ensures r.Some? ==> r.value == PatchTranslation(old(translations)[id], data) && translations == old(translations)[id := r.value]
      ensures r.None? ==> translations == old(translations)
      ensures currentTranslationId == old(currentTranslationId)
      ensures users == old(users) && currentUserId == old(currentUserId)
      ensures conversations == old(conversations) && currentConversationId == old(currentConversationId)
      ensures messages == old(messages) && currentMessageId == old(currentMessageId)
    {
      var translation := GetTranslation(id);
      if translation.None? {
        return None;
      }
      var updatedTranslation := PatchTranslation(translation.value, data);
      translations := translations[id := updatedTranslation];
      return Some(updatedTranslation);
    }

    /** `getConversations(u)`: exactly the conversations `u` opened or was
        invited to, in id order. */
    function GetConversations(userId: int): (r: seq<Conversation>)
      reads this
      requires Valid()
      ensures forall c :: c in r ==> c.id in conversations && conversations[c.id] == c && IsParticipant(c, userId)
      ensures forall k :: k in conversations && IsParticipant(conversations[k], userId) ==> conversations[k] in r
      ensures Increasing(r, ConversationId)
    {
      ListedValues(conversations, currentConversationId, ConversationId);
      FilterIncreasing(Listed(conversations, currentConversationId), InvolvesUser(userId), ConversationId);
      Filter(Listed(conversations, currentConversationId), InvolvesUser(userId))
    }

    /** `getConversation(id)` */
    function GetConversation(id: int): (r: Option<Conversation>)
      reads this
      requires Valid()
      ensures r.Some? <==> 1 <= id < currentConversationId
      ensures r.Some? ==> r.value.id == id && r.value == conversations[id]
    {
      if id in conversations then Some(conversations[id]) else None
    }

    /** `createConversation(c)`: stores it under the next conversation id,
        with `lastMessageAt` set to the creation time. It does not look for
        an existing conversation between the same users. */
    method CreateConversation(conversation: InsertConversation, now: int) returns (c: Conversation)
      requires Valid()
      modifies this
      ensures Valid()
      ensures c.id == old(currentConversationId) && currentConversationId == old(currentConversationId) + 1
      ensures forall k :: k in old(conversations) ==> k < c.id
      ensures c == Conversation(c.id, conversation.userId, conversation.participantId, now)
      ensures conversations == old(conversations)[c.id := c]
      ensures users == old(users) && currentUserId == old(currentUserId)
      ensures translations == old(translations) && currentTranslationId == old(currentTranslationId)
      ensures messages == old(messages) && currentMessageId == old(currentMessageId)
    {
      var id := currentConversationId;
      currentConversationId := currentConversationId + 1;
      c := Conversation(id, conversation.userId, conversation.participantId, now);
      conversations := conversations[id := c];
    }

    /** `getMessages(c)`: exactly the messages of conversation `c`, in
        ascending `sentAt` order. */
    function GetMessages(conversationId: int): (r: seq<Message>)
      reads this
      requires Valid()
      ensures forall m :: m in r ==> m.id in messages && messages[m.id] == m && m.conversationId == conversationId
      ensures forall k :: k in messages && messages[k].conversationId == conversationId ==> messages[k] in r
      ensures SortedBy(r, SentAt)
      ensures multiset(r) == multiset(Filter(Listed(messages, currentMessageId), InConversation(conversationId)))
    {
      ListedValues(messages, currentMessageId, MessageId);
      var inConversation := Filter(Listed(messages, currentMessageId), InConversation(conversationId));
      SortWithSorted(inConversation, BySentAt, SentAt);
      var r := SortWith(inConversation, BySentAt);
      assert forall m :: m in r <==> m in inConversation by {
        forall m ensures m in r <==> m in inConversation {
          assert m in r <==> m in multiset(r);
          assert m in inConversation <==> m in multiset(inConversation);
        }
      }
      r
    }

    /** `createMessage(m)`: stores the message under the next message id,
        sent `now` and unread unless the caller says otherwise, and moves
        its conversation's `lastMessageAt` to that same `now`. No other
        conversation changes, and none does when the conversation does not exist. */
    method CreateMessage(message: InsertMessage, now: int) returns (m: Message)
      requires Valid()
      modifies this
      ensures Valid()
      ensures m.id == old(currentMessageId) && currentMessageId == old(currentMessageId) + 1
      ensures forall k :: k in old(messages) ==> k < m.id
      ensures m == Message(m.id, message.conversationId, message.senderId, message.text, now, message.read.GetOr(false))
      ensures messages == old(messages)[m.id := m]
      ensures conversations == if message.conversationId in old(conversations)
        then old(conversations)[message.conversationId := old(conversations)[message.conversationId].(lastMessageAt := now)]
        else old(conversations)
      ensures currentConversationId == old(currentConversationId)
      ensures users == old(users) && currentUserId == old(currentUserId)
      ensures translations == old(translations) && currentTranslationId == old(currentTranslationId)
    {
      var id := currentMessageId;
      currentMessageId := currentMessageId + 1;
      m := Message(id, message.conversationId, message.senderId, message.text, now, message.read.GetOr(false));
      messages := messages[id := m];
      var conversation := GetConversation(message.conversationId);
      if conversation.Some? {
        var _ := UpdateConversation(conversation.value.id, ConversationPatch(None, None, Some(now)));
      }
    }

    /** `updateConversation(id, data)`: none and no change when `id` is
        absent; otherwise only that entry changes, overwritten by the
        supplied fields. */
    method UpdateConversation(id: int, data: ConversationPatch) returns (r: Option<Conversation>)
      requires Valid()
      modifies this
      ensures Valid()
      ensures r.None? <==> id !in old(conversations)
      ensures r.Some? ==> r.value == PatchConversation(old(conversations)[id], data) && conversations == old(conversations)[id := r.value]
      ensures r.None? ==> conversations == old(conversations)
      ensures currentConversationId == old(currentConversationId)
      ensures users == old(users) && currentUserId == old(currentUserId)
      ensures translations == old(translations) && currentTranslationId == old(currentTranslationId)
      ensures messages == old(messages) && currentMessageId == old(currentMessageId)
    {
      var conversation := GetConversation(id);
      if conversation.None? {
        return None;
      }
      var updatedConversation := PatchConversation(conversation.value, data);
      conversations := conversations[id := updatedConversation];
      return Some(updatedConversation);
    }

    /** `markMessagesAsRead(c, u)`: `read` becomes true exactly on the
        messages of `c` not sent by `u`; every other message is unchanged. */
    method MarkMessagesAsRead(conversationId: int, userId: int)
      requires Valid()
      modifies this
      ensures Valid()
      ensures messages == MarkedRead(old(messages), conversationId, userId)
      ensures currentMessageId == old(currentMessageId)
      ensures users == old(users) && currentUserId == old(currentUserId)
      ensures translations == old(translations) && currentTranslationId == old(currentTranslationId)
      ensures conversations == old(conversations) && currentConversationId == old(currentConversationId)
    {
      var messagesToUpdate := Filter(Listed(messages, currentMessageId), Unread(conversationId, userId));
      ghost var before := messages;
      ToMarkReadListing(before, currentMessageId, conversationId, userId);
      var i := 0;
      while i < |messagesToUpdate|
        modifies this`messages
        invariant MarkProgress(messages, before, messagesToUpdate, i, conversationId, userId)
      {
        var message := messagesToUpdate[i];
        var updatedMessage := message.(read := true);
        MarkStep(messages, before, messagesToUpdate, i, conversationId, userId);
        messages := messages[message.id := updatedMessage];
        i := i + 1;
      }
      MarkDone(messages, before, messagesToUpdate, conversationId, userId);
    }
  }
}
