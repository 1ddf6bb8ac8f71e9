/**
 * The state of the translation tab: the text being edited, the direction,
 * the last result and its stored id, the favorite flag, the auto-translate
 * switch, and the session's translation history. Server replies are
 * parameters of the handlers that wait for them, and `new Date()` is the
 * `now` parameter.
 */
module TranslationTab {
  import opened Wrappers
  import opened JsString

  /** The longest source text the text area accepts, in UTF-16 code units. */
  const MAX_CHARS: nat := 500

  /** The number of history items kept. */
  const MAX_HISTORY: nat := 20

  datatype Direction = Direction(fromLang: string, toLang: string)

  datatype HistoryItem = HistoryItem(
    id: int, sourceText: string, translatedText: string,
    fromLang: string, toLang: string, timestamp: int)

  /** What the tab sends to `POST /api/translate`. */
  datatype TranslateRequest = TranslateRequest(text: string, fromLang: string, toLang: string)

  /** The part of the stored translation the tab reads back. */
  datatype TranslationReply = TranslationReply(id: int, translatedText: string, favorite: bool)

  /** What the tab sends to `PATCH /api/translations/:id/favorite`. */
  datatype FavoriteRequest = FavoriteRequest(id: int, favorite: bool)

  /** Two history items are duplicates when they translate the same text in
      the same direction. */
  predicate SameKey(a: HistoryItem, b: HistoryItem) {
    a.sourceText == b.sourceText && a.fromLang == b.fromLang && a.toLang == b.toLang
  }

  /** `prev.some(...)`: some item of the history has the key of `item`. */
  predicate InHistory(prev: seq<HistoryItem>, item: HistoryItem) {
    exists j :: 0 <= j < |prev| && SameKey(prev[j], item)
  }

  function Min(a: nat, b: nat): nat {
    if a < b then a else b
  }

  /** The history updater: a translation whose key is already present
      leaves the history as it is; otherwise the new item comes first, the
      previous items follow in their order, and only the first 20 are
      kept. */
  function AddToHistory(prev: seq<HistoryItem>, item: HistoryItem): (r: seq<HistoryItem>)
    ensures InHistory(prev, item) ==> r == prev
    ensures !InHistory(prev, item) ==>
      && |r| == Min(|prev| + 1, MAX_HISTORY)
      && r[0] == item
      && forall i :: 1 <= i < |r| ==> r[i] == prev[i - 1]
  {
    if InHistory(prev, item) then prev
    else ([item] + prev)[..Min(|prev| + 1, MAX_HISTORY)]
  }

  /** A history of at most 20 items, no two with the same key. */
  predicate HistoryValid(h: seq<HistoryItem>) {
    |h| <= MAX_HISTORY && forall i, j :: 0 <= i < j < |h| ==> !SameKey(h[i], h[j])
  }

  /** The updater keeps the history valid. */
  lemma AddToHistoryValid(prev: seq<HistoryItem>, item: HistoryItem)
    requires HistoryValid(prev)
    ensures HistoryValid(AddToHistory(prev, item))
  {
    var r := AddToHistory(prev, item);
    if !InHistory(prev, item) {
      forall i, j | 0 <= i < j < |r| ensures !SameKey(r[i], r[j]) {
        if i == 0 {
          assert r[j] == prev[j - 1];
        } else {
          assert r[i] == prev[i - 1] && r[j] == prev[j - 1];
        }
      }
    }
  }

  /** After the update the translation's key is in the history. */
  lemma AddToHistoryRecords(prev: seq<HistoryItem>, item: HistoryItem)
    ensures InHistory(AddToHistory(prev, item), item)
  {
    var r := AddToHistory(prev, item);
    if !InHistory(prev, item) {
      assert SameKey(r[0], item);
    }
  }

  /** The updater is idempotent: recording the same translation again
      changes nothing. */
  lemma AddToHistoryIdempotent(prev: seq<HistoryItem>, item: HistoryItem)
    ensures AddToHistory(AddToHistory(prev, item), item) == AddToHistory(prev, item)
  {
    AddToHistoryRecords(prev, item);
  }

  /** The request `handleTranslate` sends: none for empty or white-space
      text, otherwise the text as typed with the current direction. */
  function TranslateRequestFor(sourceText: string, direction: Direction): (r: Option<TranslateRequest>)
    ensures r.None? <==> AllSpace(sourceText)
    ensures r.Some? ==> r.value == TranslateRequest(sourceText, direction.fromLang, direction.toLang)
  {
    TrimEmptyIffBlank(sourceText);
    if Trim(sourceText) == "" then None
    else Some(TranslateRequest(sourceText, direction.fromLang, direction.toLang))
  }

  /** The request `handleToggleFavorite` sends: none without a current id
      (null or 0), otherwise the opposite of the current flag. */
  function FavoriteRequestFor(currentTranslationId: Option<int>, isFavorite: bool): (r: Option<FavoriteRequest>)
    ensures r.None? <==> currentTranslationId.None? || currentTranslationId.value == 0
    ensures r.Some? ==> r.value.id == currentTranslationId.value && r.value.favorite == !isFavorite
  {
    match currentTranslationId
    case Some(id) => if id != 0 then Some(FavoriteRequest(id, !isFavorite)) else None
    case None => None
  }

  /** The direction toggle: `from` and `to` trade places. */
  function Swapped(d: Direction): (r: Direction)
    ensures r.fromLang == d.toLang && r.toLang == d.fromLang
  {
    Direction(d.toLang, d.fromLang)
  }

  class TranslationTabState {
    var sourceText: string
    var direction: Direction
    var translationResult: string
    var currentTranslationId: Option<int>
    var isFavorite: bool
    var autoTranslate: bool
    var history: seq<HistoryItem>

    /** The accepted text fits the limit and the history is valid. */
    ghost predicate Valid()
      reads this
    {
      Length(sourceText) <= MAX_CHARS && HistoryValid(history)
    }

    /** The initial state: empty text, English to French, no result, no
        current translation, auto-translate off, empty history. */
    constructor()
      ensures Valid()
      ensures sourceText == "" && direction == Direction("en", "fr") && translationResult == ""
      ensures currentTranslationId.None? && !isFavorite && !autoTranslate && history == []
    {
      sourceText := "";
      direction := Direction("en", "fr");
      translationResult := "";
      currentTranslationId := None;
      isFavorite := false;
      autoTranslate := false;
      history := [];
    }

    /** `handleSourceTextChange`: text longer than 500 code units is
        ignored; accepted text replaces the source text and, with
        auto-translate off, clears the result. */
    method SourceTextChange(value: string)
      requires Valid()
      modifies this
      ensures Valid()
      ensures Length(value) > MAX_CHARS ==>
        sourceText == old(sourceText) && translationResult == old(translationResult)
      ensures Length(value) <= MAX_CHARS ==>
        sourceText == value && translationResult == (if autoTranslate then old(translationResult) else "")
      ensures direction == old(direction) && currentTranslationId == old(currentTranslationId)
      ensures isFavorite == old(isFavorite) && autoTranslate == old(autoTranslate) && history == old(history)
    {
      if Length(value) <= MAX_CHARS {
        sourceText := value;
        if !autoTranslate {
          translationResult := "";
        }
      }
    }

    /** `handleTranslate`, with `reply` the server's answer (none when the
        request fails). White-space text sends nothing and changes nothing.
        Otherwise the request carries the text and direction, and a reply
        sets the result, the current id and the favorite flag and records
        the translation in the history. */
    method Translate(reply: Option<TranslationReply>, now: int) returns (request: Option<TranslateRequest>)
      requires Valid()
      modifies this
      ensures Valid()
      ensures request == TranslateRequestFor(old(sourceText), old(direction))
      ensures request.None? || reply.None? ==>
        translationResult == old(translationResult) && currentTranslationId == old(currentTranslationId)
        && isFavorite == old(isFavorite) && history == old(history)
      ensures request.Some? && reply.Some? ==>
        && translationResult == reply.value.translatedText
        && currentTranslationId == Some(reply.value.id)
        && isFavorite == reply.value.favorite
        && history == AddToHistory(old(history), HistoryItem(reply.value.id, sourceText,
             reply.value.translatedText, direction.fromLang, direction.toLang, now))
      ensures sourceText == old(sourceText) && direction == old(direction) && autoTranslate == old(autoTranslate)
    {
      request := TranslateRequestFor(sourceText, direction);
      if request.None? || reply.None? {
        return;
      }
      TranslateSuccess(reply.value, now);
    }

    /** The `onSuccess` callback of `handleTranslate`. */
    method TranslateSuccess(data: TranslationReply, now: int)
      requires Valid()
      modifies this
      ensures Valid()
      ensures translationResult == data.translatedText && currentTranslationId == Some(data.id)
      ensures isFavorite == data.favorite
      ensures history == AddToHistory(old(history), HistoryItem(data.id, sourceText,
        data.translatedText, direction.fromLang, direction.toLang, now))
      ensures sourceText == old(sourceText) && direction == old(direction) && autoTranslate == old(autoTranslate)
    {
      var historyItem := HistoryItem(data.id, sourceText, data.translatedText,
        direction.fromLang, direction.toLang, now);
      AddToHistoryValid(history, historyItem);
      translationResult := data.translatedText;
      currentTranslationId := Some(data.id);
      isFavorite := data.favorite;
      history := AddToHistory(history, historyItem);
    }

    /** `handleToggleDirection`: the direction flips and the text, the
        result, the current id and the favorite flag are cleared. */
    method ToggleDirection()
      requires Valid()
      modifies this
      ensures Valid()
      ensures direction == Swapped(old(direction))
      ensures sourceText == "" && translationResult == "" && currentTranslationId.None? && !isFavorite
      ensures autoTranslate == old(autoTranslate) && history == old(history)
    {
      direction := Swapped(direction);
      sourceText := "";
      translationResult := "";
      currentTranslationId := None;
      isFavorite := false;
    }

    /** Toggling twice restores the direction. */
    method ToggleDirectionTwice()
      requires Valid()
      modifies this
      ensures Valid()
      ensures direction == old(direction)
    {
      ToggleDirection();
      ToggleDirection();
    }

    /** `handleToggleFavorite`, with `success` whether the server accepted
        the change. Without a current id nothing is sent and nothing
        changes; otherwise the opposite of the flag is requested, and the
        flag flips only when the request succeeds. */
    method ToggleFavorite(success: bool) returns (request: Option<FavoriteRequest>)
      requires Valid()
      modifies this
      ensures Valid()
      ensures request == FavoriteRequestFor(old(currentTranslationId), old(isFavorite))
      ensures isFavorite == (if request.Some? && success then !old(isFavorite) else old(isFavorite))
      ensures sourceText == old(sourceText) && direction == old(direction)
      ensures translationResult == old(translationResult) && currentTranslationId == old(currentTranslationId)
      ensures autoTranslate == old(autoTranslate) && history == old(history)
    {
      request := FavoriteRequestFor(currentTranslationId, isFavorite);
      if request.Some? && success {
        isFavorite := request.value.favorite;
      }
    }
  }
}
