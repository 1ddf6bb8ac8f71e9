/**
 * The conversation endpoints. Every one sits behind the `isAuthenticated`
 * gate, which answers 401 before the handler runs; inside, each handler
 * checks `req.user?.id` again, and the `:id` endpoints check that the
 * conversation exists (404) and that the caller takes part in it (403).
 */
module MessageRoutes {
  import opened Wrappers
  import opened Schema
  import opened Lists
  import opened JsString
  import opened Storage
  import opened Http

  const MAX_MESSAGE_LENGTH: nat := 1000

  /** Conversation `c` is between `a` and `b`, in either orientation. */
  predicate Connects(c: Conversation, a: int, b: int) {
    (c.userId == a && c.participantId == b) || (c.userId == b && c.participantId == a)
  }

  /** The test the create handler passes to `find`. */
  function Between(userId: int, participantId: int): Conversation -> bool {
    (c: Conversation) => Connects(c, userId, participantId)
  }

  /** The conversation the create handler finds among the caller's
      conversations: the oldest one between the two users, none when they
      have none. */
  function FindExisting(s: MemStorage, userId: int, participantId: int): (r: Option<Conversation>)
    reads s
    requires s.Valid()
    ensures r.None? <==> forall k :: k in s.conversations ==> !Connects(s.conversations[k], userId, participantId)
    ensures r.Some? ==> (r.value.id in s.conversations && s.conversations[r.value.id] == r.value
      && Connects(r.value, userId, participantId))
    ensures r.Some? ==> forall k :: k in s.conversations && k < r.value.id ==>
      !Connects(s.conversations[k], userId, participantId)
  {
    var listed := Listed(s.conversations, s.currentConversationId);
    FindFilter(listed, InvolvesUser(userId), Between(userId, participantId));
    FindListed(s.conversations, s.currentConversationId, ConversationId, Between(userId, participantId));
    Find(s.GetConversations(userId), Between(userId, participantId))
  }

  /** The lookup does not depend on who asks: B looking for A finds what A
      looking for B finds. */
  lemma ExistingSymmetric(s: MemStorage, a: int, b: int)
    requires s.Valid()
    ensures FindExisting(s, a, b) == FindExisting(s, b, a)
  {
    var r1 := FindExisting(s, a, b);
    var r2 := FindExisting(s, b, a);
  }

  /** What stays true of the stored conversations and messages under these
      handlers: every message's sender takes part in its conversation, and
      no two conversations join the same pair of users. */
  ghost predicate Consistent(st: Store) {
    && (forall k :: k in st.messages ==>
          st.messages[k].conversationId in st.conversations
          && IsParticipant(st.conversations[st.messages[k].conversationId], st.messages[k].senderId))
    && (forall k1, k2 :: k1 in st.conversations && k2 in st.conversations && k1 != k2 ==>
          !Connects(st.conversations[k1], st.conversations[k2].userId, st.conversations[k2].participantId))
  }

  /** `z.number().int().positive()` */
  predicate IsPositiveInteger(v: Option<Json>) {
    v.Some? && v.value.JNumber? && v.value.n == v.value.n.Floor as real && v.value.n > 0.0
  }

  /** `createConversationSchema.parse(req.body).participantId` */
  function ParseParticipantId(body: Json): (r: Option<int>)
    ensures r.Some? <==> IsPositiveInteger(Field(body, "participantId"))
    ensures r.Some? ==> r.value > 0 && Field(body, "participantId") == Some(JNumber(r.value as real))
  {
    var v := Field(body, "participantId");
    if IsPositiveInteger(v) then Some(v.value.n.Floor) else None
  }

  /** The body `{ participantId: n }` for a positive integer `n` parses to `n`. */
  lemma ParseParticipantIdOf(n: int)
    requires n > 0
    ensures ParseParticipantId(ParticipantBody(n)) == Some(n)
  {
    var body := ParticipantBody(n);
    assert Field(body, "participantId") == Some(JNumber(n as real));
    assert (n as real).Floor == n;
  }

  function ParticipantBody(n: int): Json {
    JObject(map["participantId" := JNumber(n as real)])
  }

  /** `z.string().min(1).max(1000)` */
  predicate IsMessageText(v: Option<Json>) {
    v.Some? && v.value.JString? && 1 <= Length(v.value.s) <= MAX_MESSAGE_LENGTH
  }

  /** `sendMessageSchema.parse(req.body).text` */
  function ParseMessageText(body: Json): (r: Option<string>)
    ensures r.Some? <==> IsMessageText(Field(body, "text"))
    ensures r.Some? ==> 1 <= Length(r.value) <= MAX_MESSAGE_LENGTH && Field(body, "text") == Some(JString(r.value))
  {
    var v := Field(body, "text");
    if IsMessageText(v) then Some(v.value.s) else None
  }

  /** The conversation behind `parseInt(req.params.id)`, none for NaN or an
      unknown id. */
  function Target(s: MemStorage, id: Option<int>): (r: Option<Conversation>)
    reads s
    requires s.Valid()
    ensures r.Some? <==> id.Some? && id.value in s.conversations
    ensures r.Some? ==> r.value == s.conversations[id.value] && r.value.id == id.value
  {
    if id.None? then None else s.GetConversation(id.value)
  }

  /** The guards shared by the three `:id` endpoints: the gate, the user
      id, the conversation's existence and the caller's part in it. None
      when all pass. */
  function ConversationGuard(s: MemStorage, session: Session, id: Option<int>): (r: Option<Response>)
    reads s
    requires s.Valid()
    ensures SessionUserId(session).None? <==> r == Some(UNAUTHORIZED)
    ensures SessionUserId(session).Some? && Target(s, id).None? ==>
      r == Some(Response(404, Error("Conversation not found")))
    ensures SessionUserId(session).Some? && Target(s, id).Some? ==>
      (r.None? <==> IsParticipant(Target(s, id).value, SessionUserId(session).value))
      && (r.Some? ==> r == Some(FORBIDDEN))
  {
    if !IsAuthenticated(session) then Some(UNAUTHORIZED)
    else if SessionUserId(session).None? then Some(UNAUTHORIZED)
    else
      var userId := SessionUserId(session).value;
      var conversation := Target(s, id);
      if conversation.None? then Some(Response(404, Error("Conversation not found")))
      else if conversation.value.userId != userId && conversation.value.participantId != userId then Some(FORBIDDEN)
      else None
  }

  /** `GET /api/conversations`: the caller's conversations, in id order. */
  function ListConversations(s: MemStorage, session: Session): (resp: Response)
    reads s
    requires s.Valid()
    ensures SessionUserId(session).None? ==> resp == UNAUTHORIZED
    ensures SessionUserId(session).Some? ==>
      resp.status == 200 && resp.body.ConversationsBody?
      && (forall c :: c in resp.body.conversations <==>
            c.id in s.conversations && s.conversations[c.id] == c && IsParticipant(c, SessionUserId(session).value))
      && Increasing(resp.body.conversations, ConversationId)
  {
    if !IsAuthenticated(session) then UNAUTHORIZED
    else if SessionUserId(session).None? then UNAUTHORIZED
    else
      var r := s.GetConversations(SessionUserId(session).value);
      assert forall c: Conversation :: (c.id in s.conversations && s.conversations[c.id] == c
        && IsParticipant(c, SessionUserId(session).value)) ==> c in r;
      Response(200, ConversationsBody(r))
  }

  /** `POST /api/conversations` with body `{ participantId }`. */
  method CreateConversation(s: MemStorage, session: Session, body: Json, now: int) returns (resp: Response)
    requires s.Valid()
    modifies s
    ensures s.Valid()
    ensures Consistent(old(s.Contents())) ==> Consistent(s.Contents())
    ensures !IsAuthenticated(session) ==> resp == UNAUTHORIZED && s.Contents() == old(s.Contents())
    ensures IsAuthenticated(session) && ParseParticipantId(body).None? ==>
      resp == Response(400, Invalid) && s.Contents() == old(s.Contents())
    ensures ParseParticipantId(body).Some? && session.Some? && SessionUserId(session).None? ==>
      resp == UNAUTHORIZED && s.Contents() == old(s.Contents())
    ensures (ParseParticipantId(body).Some? && SessionUserId(session).Some?
      && ParseParticipantId(body).value !in old(s.users)) ==>
      resp == Response(404, Error("Participant not found")) && s.Contents() == old(s.Contents())
    ensures (ParseParticipantId(body).Some? && SessionUserId(session).Some?
      && ParseParticipantId(body).value in old(s.users)) ==>
      var userId := SessionUserId(session).value;
      var participantId := ParseParticipantId(body).value;
      var existing := old(FindExisting(s, userId, participantId));
      && (existing.Some? ==>
            resp == Response(200, ConversationBody(existing.value)) && s.Contents() == old(s.Contents()))
      && (existing.None? ==>
            var c := Conversation(old(s.currentConversationId), userId, participantId, now);
            && resp == Response(201, ConversationBody(c))
            && s.Contents() == old(s.Contents()).(conversations := old(s.conversations)[c.id := c],
                 currentConversationId := old(s.currentConversationId) + 1))
  {
    if !IsAuthenticated(session) {
      return UNAUTHORIZED;
    }
    var participantId := ParseParticipantId(body);
    if participantId.None? {
      return Response(400, Invalid);
    }
    var userId := SessionUserId(session);
    if userId.None? {
      return UNAUTHORIZED;
    }
    var participant := s.GetUser(participantId.value);
    if participant.None? {
      return Response(404, Error("Participant not found"));
    }
    var existingConversations := s.GetConversations(userId.value);
    var existingConversation := Find(existingConversations, Between(userId.value, participantId.value));
    assert existingConversation == FindExisting(s, userId.value, participantId.value);
    if existingConversation.Some? {
      return Response(200, ConversationBody(existingConversation.value));
    }
    ghost var before := s.Contents();
    var conversation := InsertConversation(userId.value, participantId.value);
    var newConversation := s.CreateConversation(conversation, now);
    assert Consistent(before) ==> Consistent(s.Contents()) by {
      if Consistent(before) {
        forall k1, k2 | k1 in s.conversations && k2 in s.conversations && k1 != k2
          ensures !Connects(s.conversations[k1], s.conversations[k2].userId, s.conversations[k2].participantId)
        {
          if k1 == newConversation.id {
            assert !Connects(before.conversations[k2], userId.value, participantId.value);
          } else if k2 == newConversation.id {
            assert !Connects(before.conversations[k1], userId.value, participantId.value);
          }
        }
      }
    }
    return Response(201, ConversationBody(newConversation));
  }

  /** `GET /api/conversations/:id/messages`: after the guards, the
      conversation's messages in `sentAt` order. */
  function ListMessages(s: MemStorage, session: Session, id: Option<int>): (resp: Response)
    reads s
    requires s.Valid()
    ensures ConversationGuard(s, session, id).Some? ==> resp == ConversationGuard(s, session, id).value
    ensures ConversationGuard(s, session, id).None? ==>
      resp.status == 200 && resp.body.MessagesBody?
      && (forall m :: m in resp.body.msgs <==>
            m.id in s.messages && s.messages[m.id] == m && m.conversationId == id.value)
      && SortedBy(resp.body.msgs, SentAt)
      && multiset(resp.body.msgs) == multiset(Filter(Listed(s.messages, s.currentMessageId), InConversation(id.value)))
  {
    match ConversationGuard(s, session, id)
    case Some(refusal) => refusal
    case None =>
      var r := s.GetMessages(id.value);
      assert forall m: Message :: m.id in s.messages && s.messages[m.id] == m && m.conversationId == id.value ==> m in r;
      Response(200, MessagesBody(r))
  }

  /** `POST /api/conversations/:id/messages` with body `{ text }`: the
      gate, then the schema (400), then the guards; then one message from
      the caller is stored, unread, and the conversation's `lastMessageAt`
      becomes its `sentAt`. */
  method SendMessage(s: MemStorage, session: Session, id: Option<int>, body: Json, now: int) returns (resp: Response)
    requires s.Valid()
    modifies s
    ensures s.Valid()
    ensures Consistent(old(s.Contents())) ==> Consistent(s.Contents())
    ensures !IsAuthenticated(session) ==> resp == UNAUTHORIZED && s.Contents() == old(s.Contents())
    ensures IsAuthenticated(session) && ParseMessageText(body).None? ==>
      resp == Response(400, Invalid) && s.Contents() == old(s.Contents())
    ensures ParseMessageText(body).Some? && old(ConversationGuard(s, session, id)).Some? ==>
      resp == old(ConversationGuard(s, session, id)).value && s.Contents() == old(s.Contents())
    ensures ParseMessageText(body).Some? && old(ConversationGuard(s, session, id)).None? ==>
      var m := Message(old(s.currentMessageId), id.value, session.value.id, ParseMessageText(body).value, now, false);
      && resp == Response(201, MessageBody(m))
      && s.Contents() == old(s.Contents()).(
           messages := old(s.messages)[m.id := m],
           currentMessageId := old(s.currentMessageId) + 1,
           conversations := old(s.conversations)[id.value := old(s.conversations[id.value]).(lastMessageAt := now)])
  {
    if !IsAuthenticated(session) {
      return UNAUTHORIZED;
    }
    var text := ParseMessageText(body);
    if text.None? {
      return Response(400, Invalid);
    }
    var refusal := ConversationGuard(s, session, id);
    if refusal.Some? {
      return refusal.value;
    }
    ghost var before := s.Contents();
    var message := InsertMessage(id.value, session.value.id, text.value, None);
    var newMessage := s.CreateMessage(message, now);
    assert Consistent(before) ==> Consistent(s.Contents()) by {
      if Consistent(before) {
        forall k1, k2 | k1 in s.conversations && k2 in s.conversations && k1 != k2
          ensures !Connects(s.conversations[k1], s.conversations[k2].userId, s.conversations[k2].participantId)
        {
          assert !Connects(before.conversations[k1], before.conversations[k2].userId, before.conversations[k2].participantId);
        }
      }
    }
    return Response(201, MessageBody(newMessage));
  }

  /** `POST /api/conversations/:id/read`: after the guards, the messages of
      the conversation sent by the other side become read; the caller's
      own messages stay as they were. */
  method MarkRead(s: MemStorage, session: Session, id: Option<int>) returns (resp: Response)
    requires s.Valid()
    modifies s
    ensures s.Valid()
    ensures Consistent(old(s.Contents())) ==> Consistent(s.Contents())
    ensures old(ConversationGuard(s, session, id)).Some? ==>
      resp == old(ConversationGuard(s, session, id)).value && s.Contents() == old(s.Contents())
    ensures old(ConversationGuard(s, session, id)).None? ==>
      && resp == Response(200, Success)
      && s.Contents() == old(s.Contents()).(messages := MarkedRead(old(s.messages), id.value, session.value.id))
      && (forall k :: k in old(s.messages) && old(s.messages[k]).senderId == session.value.id ==>
            s.messages[k] == old(s.messages[k]))
  {
    var refusal := ConversationGuard(s, session, id);
    if refusal.Some? {
      return refusal.value;
    }
    ghost var before := s.Contents();
    s.MarkMessagesAsRead(id.value, session.value.id);
    assert Consistent(before) ==> Consistent(s.Contents()) by {
      if Consistent(before) {
        forall k | k in s.messages
          ensures s.messages[k].conversationId == before.messages[k].conversationId
          ensures s.messages[k].senderId == before.messages[k].senderId
        {
          assert s.messages[k].(read := before.messages[k].read) == before.messages[k];
        }
      }
    }
    return Response(200, Success);
  }

  /** A stored conversation between `a` and `b` with no older one between
      them is what `b` finds when looking for `a`. */
  lemma OldestIsFound(s: MemStorage, a: int, b: int, c: Conversation)
    requires s.Valid()
    requires c.id in s.conversations && s.conversations[c.id] == c && Connects(c, a, b)
    requires forall k :: k in s.conversations && k < c.id ==> !Connects(s.conversations[k], a, b)
    ensures FindExisting(s, b, a) == Some(c)
  {
    var r := FindExisting(s, b, a);
    assert Connects(s.conversations[c.id], b, a);
    assert r.Some?;
    assert Connects(r.value, a, b);
    assert r.value.id == c.id;
  }

  /** The conversation A's request returned, whether found or created, is
      the oldest between A and B in the store that results. */
  lemma FirstOpenIsOldest(s: MemStorage, before: Store, a: int, b: int, c: Conversation)
    requires s.Valid()
    requires forall k :: k in before.conversations && k < c.id ==> k in s.conversations && s.conversations[k] == before.conversations[k]
    requires c.id in s.conversations && s.conversations[c.id] == c && Connects(c, a, b)
    requires forall k :: k in before.conversations && k < c.id ==> !Connects(before.conversations[k], a, b)
    requires forall k :: k in s.conversations && k < c.id ==> k in before.conversations
    ensures FindExisting(s, b, a) == Some(c)
  {
    OldestIsFound(s, a, b, c);
  }

  /** A asks for a conversation with B: the answer is 200 or 201 with a
      conversation that B, looking for A, then finds. */
  method OpenFirst(s: MemStorage, a: User, b: User, now: int) returns (first: Response)
    requires s.Valid()
    requires b.id in s.users && a.id > 0 && b.id > 0
    modifies s
    ensures s.Valid() && s.users == old(s.users)
    ensures first.status == 200 || first.status == 201
    ensures first.body.ConversationBody? && FindExisting(s, b.id, a.id) == Some(first.body.conversation)
  {
    ghost var before := s.Contents();
    ghost var existing := FindExisting(s, a.id, b.id);
    ParseParticipantIdOf(b.id);
    first := CreateConversation(s, Some(a), ParticipantBody(b.id), now);
    var c := first.body.conversation;
    assert s.conversations == before.conversations || (existing.None? && c.id == before.currentConversationId
      && s.conversations == before.conversations[c.id := c]);
    FirstOpenIsOldest(s, before, a.id, b.id, c);
  }

  /** B asks for a conversation with A while one exists: it is answered 200
      with that conversation. */
  method OpenExisting(s: MemStorage, b: User, a: User, now: int, c: Conversation) returns (second: Response)
    requires s.Valid()
    requires a.id in s.users && a.id > 0 && b.id > 0
    requires FindExisting(s, b.id, a.id) == Some(c)
    modifies s
    ensures second == Response(200, ConversationBody(c))
  {
    ParseParticipantIdOf(a.id);
    second := CreateConversation(s, Some(b), ParticipantBody(a.id), now);
  }

  /** A asks for a conversation with B, then B asks for one with A: the
      second request is answered 200 with the conversation the first one
      returned, and nothing new is created. */
  method OpenBothWays(s: MemStorage, a: User, b: User, now1: int, now2: int) returns (first: Response, second: Response)
    requires s.Valid()
    requires a.id in s.users && b.id in s.users && a.id > 0 && b.id > 0
    modifies s
    ensures first.status == 200 || first.status == 201
    ensures second == Response(200, first.body)
  {
    first := OpenFirst(s, a, b, now1);
    second := OpenExisting(s, b, a, now2, first.body.conversation);
  }
}
