/**
 * The translation endpoints: `POST /api/translate`, `GET /api/translations`,
 * `GET /api/translations/favorites` and `PATCH /api/translations/:id/favorite`.
 * A request without a session acts as the user named "test" while that
 * user exists.
 */
module TranslationRoutes {
  import opened Wrappers
  import opened Schema
  import opened JsString
  import opened Storage
  import opened Http
  import opened MockTranslator

  /** The largest accepted `text`, in UTF-16 code units. */
  const MAX_TEXT_LENGTH: nat := 500

  datatype TranslateRequest = TranslateRequest(text: string, fromLang: string, toLang: string)

  /** `z.enum(["en", "fr"])` */
  predicate IsLanguage(v: Option<Json>) {
    v == Some(JString("en")) || v == Some(JString("fr"))
  }

  /** `z.string().min(1).max(500)` */
  predicate IsTranslatableText(v: Option<Json>) {
    v.Some? && v.value.JString? && 1 <= Length(v.value.s) <= MAX_TEXT_LENGTH
  }

  /** `translateSchema.parse(req.body)`: an object whose `text` is a string
      of 1 to 500 code units and whose `fromLang` and `toLang` are "en" or
      "fr"; other keys are dropped. */
  function ParseTranslateRequest(body: Json): (r: Option<TranslateRequest>)
    ensures r.Some? <==>
      IsTranslatableText(Field(body, "text")) && IsLanguage(Field(body, "fromLang")) && IsLanguage(Field(body, "toLang"))
    ensures r.Some? ==>
      && 1 <= Length(r.value.text) <= MAX_TEXT_LENGTH
      && r.value.fromLang in {"en", "fr"} && r.value.toLang in {"en", "fr"}
      && Field(body, "text") == Some(JString(r.value.text))
      && Field(body, "fromLang") == Some(JString(r.value.fromLang))
      && Field(body, "toLang") == Some(JString(r.value.toLang))
  {
    var text := Field(body, "text");
    var fromLang := Field(body, "fromLang");
    var toLang := Field(body, "toLang");
    if IsTranslatableText(text) && IsLanguage(fromLang) && IsLanguage(toLang)
    then Some(TranslateRequest(text.value.s, fromLang.value.s, toLang.value.s))
    else None
  }

  /** The user a translation request acts for: the session user when its
      id is set; with no session at all, the user named "test" if there is
      one; otherwise nobody (401). */
  function Caller(s: MemStorage, session: Session): (r: Option<int>)
    reads s
    requires s.Valid()
    ensures session.Some? ==> r == SessionUserId(session)
    ensures session.None? ==>
      (r.None? <==> forall k :: k in s.users ==> !SameUsername(s.users[k].username, "test"))
    ensures session.None? && r.Some? ==>
      r.value in s.users && SameUsername(s.users[r.value].username, "test")
  {
    if session.Some? then SessionUserId(session)
    else
      match s.GetUserByUsername("test")
      case Some(testUser) => Some(testUser.id)
      case None => None
  }

  /** The translated text the dispatch produces. */
  function TranslatedText(fromLang: string, toLang: string, text: string): string {
    if fromLang == "en" && toLang == "fr" then Translated(EnToFr, text)
    else if fromLang == "fr" && toLang == "en" then Translated(FrToEn, text)
    else text
  }

  /** The language dispatch of `/api/translate`: the English-to-French or
      the French-to-English translator, and the text itself when both
      languages are the same. */
  method Dispatch(fromLang: string, toLang: string, text: string) returns (translatedText: string)
    ensures translatedText == TranslatedText(fromLang, toLang, text)
    ensures fromLang == toLang ==> translatedText == text
    ensures fromLang == "en" && toLang == "fr" ==> translatedText == Translated(EnToFr, text)
    ensures fromLang == "fr" && toLang == "en" ==> translatedText == Translated(FrToEn, text)
  {
    if fromLang == "en" && toLang == "fr" {
      translatedText := MockTranslate(EnToFr, text);
    } else if fromLang == "fr" && toLang == "en" {
      translatedText := MockTranslate(FrToEn, text);
    } else {
      translatedText := text;
    }
  }

  /** `POST /api/translate`. A body that fails the schema gets 400 before
      the caller is looked at; a caller that cannot be resolved gets 401;
      in both cases nothing is stored. Otherwise exactly one translation is
      stored, owned by the caller, with `favorite` false, and returned. */
  method Translate(s: MemStorage, session: Session, body: Json, now: int) returns (resp: Response)
    requires s.Valid()
    modifies s
    ensures s.Valid()
    ensures ParseTranslateRequest(body).None? ==>
      resp == Response(400, Invalid) && s.Contents() == old(s.Contents())
    ensures ParseTranslateRequest(body).Some? && old(Caller(s, session)).None? ==>
      resp == UNAUTHORIZED && s.Contents() == old(s.Contents())
    ensures ParseTranslateRequest(body).Some? && old(Caller(s, session)).Some? ==>
      var req := ParseTranslateRequest(body).value;
      var t := Translation(old(s.currentTranslationId), old(Caller(s, session)), req.text,
        TranslatedText(req.fromLang, req.toLang, req.text), req.fromLang, req.toLang, false, now);
      && resp == Response(200, TranslationBody(t))
      && s.translations == old(s.translations)[t.id := t]
      && s.currentTranslationId == old(s.currentTranslationId) + 1
      && s.users == old(s.users) && s.currentUserId == old(s.currentUserId)
      && s.conversations == old(s.conversations) && s.currentConversationId == old(s.currentConversationId)
      && s.messages == old(s.messages) && s.currentMessageId == old(s.currentMessageId)
  {
    var req := ParseTranslateRequest(body);
    if req.None? {
      return Response(400, Invalid);
    }
    var userId := Caller(s, session);
    if userId.None? {
      return UNAUTHORIZED;
    }
    var translatedText := Dispatch(req.value.fromLang, req.value.toLang, req.value.text);
    var translation := InsertTranslation(userId, req.value.text, translatedText,
      req.value.fromLang, req.value.toLang, Some(false));
    var savedTranslation := s.CreateTranslation(translation, now);
    return Response(200, TranslationBody(savedTranslation));
  }

  /** `GET /api/translations`: the caller's translations in creation order,
      or 401 when there is no caller. */
  function ListTranslations(s: MemStorage, session: Session): (resp: Response)
    reads s
    requires s.Valid()
    ensures Caller(s, session).None? ==> resp == UNAUTHORIZED
    ensures Caller(s, session).Some? ==>
      resp.status == 200 && resp.body.TranslationsBody?
      && (forall t :: t in resp.body.translations <==>
            t.id in s.translations && s.translations[t.id] == t && t.userId == Caller(s, session))
      && Lists.Increasing(resp.body.translations, TranslationId)
  {
    match Caller(s, session)
    case None => UNAUTHORIZED
    case Some(userId) =>
      var r := s.GetTranslations(userId);
      assert forall t: Schema.Translation :: t.id in s.translations && s.translations[t.id] == t && t.userId == Some(userId) ==> t in r;
      Response(200, TranslationsBody(r))
  }

  /** `GET /api/translations/favorites`: the caller's favorite translations,
      which are the caller's translations with `favorite` set. */
  function ListFavorites(s: MemStorage, session: Session): (resp: Response)
    reads s
    requires s.Valid()
    ensures Caller(s, session).None? ==> resp == UNAUTHORIZED
    ensures Caller(s, session).Some? ==>
      resp.status == 200 && resp.body.TranslationsBody?
      && resp.body.translations == Lists.Filter(ListTranslations(s, session).body.translations, IsFavorite)
      && (forall t :: t in resp.body.translations <==>
            t.id in s.translations && s.translations[t.id] == t && t.userId == Caller(s, session) && t.favorite)
  {
    match Caller(s, session)
    case None => UNAUTHORIZED
    case Some(userId) =>
      var r := s.GetFavoriteTranslations(userId);
      assert forall t: Schema.Translation :: t.id in s.translations && s.translations[t.id] == t && t.userId == Some(userId) && t.favorite ==> t in r;
      Response(200, TranslationsBody(r))
  }

  /** `PATCH /api/translations/:id/favorite` with body `{ favorite }`; `id`
      is what `parseInt` gives for the path segment, none for NaN. Without
      a caller: 401; an unknown id: 404; a translation owned by someone
      else: 403; none of these changes anything. Otherwise only that
      translation's `favorite` changes, to the supplied value. */
  method ToggleFavorite(s: MemStorage, session: Session, id: Option<int>, favorite: bool) returns (resp: Response)
    requires s.Valid()
    modifies s
    ensures s.Valid()
    ensures old(Caller(s, session)).None? ==> resp == UNAUTHORIZED && s.Contents() == old(s.Contents())
    ensures old(Caller(s, session)).Some? && (id.None? || id.value !in old(s.translations)) ==>
      resp == Response(404, Error("Translation not found")) && s.Contents() == old(s.Contents())
    ensures (old(Caller(s, session)).Some? && id.Some? && id.value in old(s.translations)
      && old(s.translations[id.value].userId) != old(Caller(s, session))) ==>
      resp == FORBIDDEN && s.Contents() == old(s.Contents())
    ensures (old(Caller(s, session)).Some? && id.Some? && id.value in old(s.translations)
      && old(s.translations[id.value].userId) == old(Caller(s, session))) ==>
      var t := old(s.translations[id.value]).(favorite := favorite);
      && resp == Response(200, TranslationBody(t))
      && s.Contents() == old(s.Contents()).(translations := old(s.translations)[id.value := t])
  {
    var userId := Caller(s, session);
    if userId.None? {
      return UNAUTHORIZED;
    }
    if id.None? {
      return Response(404, Error("Translation not found"));
    }
    var translation := s.GetTranslation(id.value);
    if translation.None? {
      return Response(404, Error("Translation not found"));
    }
    if translation.value.userId != userId {
      return FORBIDDEN;
    }
    var updatedTranslation := s.UpdateTranslation(id.value, FavoritePatch(favorite));
    return Response(200, TranslationBody(updatedTranslation.value));
  }

  /** Right after construction, an anonymous request acts as user 1, the
      fixture user "test". */
  lemma AnonymousIsTestUser(s: MemStorage)
    requires s.Valid() && s.users == SeedUsers()
    ensures Caller(s, None) == Some(1)
  {
    assert SameUsername(s.users[1].username, "test");
  }
}
