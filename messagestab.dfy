/**
 * The conversation list of the messages tab: the search filter, the sort
 * comparator, opening a conversation and the time label. The locale
 * comparison of names is a parameter, and `Array.prototype.sort` is the
 * stable insertion sort `Lists.SortWith`.
 */
module MessagesTab {
  import opened Wrappers
  import opened JsString
  import opened Lists

  datatype ConversationSummary = ConversationSummary(
    id: int, participantName: string, participantInitials: string,
    lastMessage: string, time: string, unreadCount: int,
    languageIcon: Option<string>, lastActive: Option<string>)

  /** The search test: the name or the last message contains the query,
      both lowercased. */
  predicate MatchesQuery(c: ConversationSummary, query: string) {
    Contains(Lower(c.participantName), Lower(query)) || Contains(Lower(c.lastMessage), Lower(query))
  }

  function Matcher(query: string): ConversationSummary -> bool {
    c => MatchesQuery(c, query)
  }

  /** `filteredConversations`: exactly the conversations that match, in
      their order; an empty query keeps them all. */
  function FilterConversations(convos: seq<ConversationSummary>, query: string): (r: seq<ConversationSummary>)
    ensures forall c :: c in r <==> c in convos && MatchesQuery(c, query)
    ensures query == "" ==> r == convos
    ensures |r| <= |convos|
  {
    if query == "" then
      forall c | c in convos ensures MatchesQuery(c, query) {
        ContainsEmpty(Lower(c.participantName));
      }
      FilterAll(convos, Matcher(query));
      Filter(convos, Matcher(query))
    else Filter(convos, Matcher(query))
  }

  /** Filtering a list made of two parts filters each part in place, so the
      relative order of the kept conversations is the original one. */
  lemma FilterKeepsOrder(front: seq<ConversationSummary>, back: seq<ConversationSummary>, query: string)
    ensures FilterConversations(front + back, query) == FilterConversations(front, query) + FilterConversations(back, query)
  {
    FilterConcat(front, back, Matcher(query));
  }

  /** The comparator of `sortedConversations`. In recent mode an unread
      conversation comes before a read one, and otherwise the one whose
      time text is greater comes first; in name mode it is the locale
      comparison of the names. */
  function Compare(sortByRecent: bool, localeCompare: (string, string) -> int,
                   a: ConversationSummary, b: ConversationSummary): (r: int)
    ensures sortByRecent && a.unreadCount > 0 && b.unreadCount == 0 ==> r == -1
    ensures sortByRecent && a.unreadCount == 0 && b.unreadCount > 0 ==> r == 1
    ensures sortByRecent && !(a.unreadCount > 0 && b.unreadCount == 0) && !(a.unreadCount == 0 && b.unreadCount > 0) ==>
      (r == -1 <==> Greater(a.time, b.time)) && (r == 1 <==> !Greater(a.time, b.time))
    ensures !sortByRecent ==> r == localeCompare(a.participantName, b.participantName)
  {
    if sortByRecent then
      if a.unreadCount > 0 && b.unreadCount == 0 then -1
      else if a.unreadCount == 0 && b.unreadCount > 0 then 1
      else if Greater(a.time, b.time) then -1 else 1
    else localeCompare(a.participantName, b.participantName)
  }

  /** In recent mode two conversations with equal time texts compare as 1
      both ways, so the comparator is not antisymmetric there. */
  lemma EqualTimesNotAntisymmetric(a: ConversationSummary, b: ConversationSummary, localeCompare: (string, string) -> int)
    requires a.unreadCount == b.unreadCount && a.time == b.time
    ensures Compare(true, localeCompare, a, b) == 1 && Compare(true, localeCompare, b, a) == 1
  {
    UnitsLessIrreflexive(Utf16(a.time));
  }

  /** Between different time texts the recent-mode order is antisymmetric. */
  lemma DifferentTimesAntisymmetric(a: ConversationSummary, b: ConversationSummary, localeCompare: (string, string) -> int)
    requires a.unreadCount == b.unreadCount && Greater(a.time, b.time)
    ensures Compare(true, localeCompare, a, b) == -1 && Compare(true, localeCompare, b, a) == 1
  {
    UnitsLessAsymmetric(Utf16(a.time), Utf16(b.time));
  }

  function Comparator(sortByRecent: bool, localeCompare: (string, string) -> int)
    : (ConversationSummary, ConversationSummary) -> int
  {
    (a, b) => Compare(sortByRecent, localeCompare, a, b)
  }

  /** `[...filteredConversations].sort(...)`: a rearrangement of the
      filtered list. */
  function SortConversations(filtered: seq<ConversationSummary>, sortByRecent: bool,
                             localeCompare: (string, string) -> int): (r: seq<ConversationSummary>)
    ensures multiset(r) == multiset(filtered) && |r| == |filtered|
  {
    SortWith(filtered, Comparator(sortByRecent, localeCompare))
  }

  predicate Unread(c: ConversationSummary) {
    c.unreadCount > 0
  }

  /** No read conversation comes before an unread one. */
  predicate UnreadFirst(s: seq<ConversationSummary>) {
    forall i, j :: 0 <= i < j < |s| ==> !(s[i].unreadCount == 0 && Unread(s[j]))
  }

  predicate Counts(s: seq<ConversationSummary>) {
    forall c :: c in s ==> c.unreadCount >= 0
  }

  lemma {:induction false} InsertUnreadFirst(x: ConversationSummary, s: seq<ConversationSummary>,
                                             localeCompare: (string, string) -> int)
    requires x.unreadCount >= 0 && Counts(s) && UnreadFirst(s)
    ensures UnreadFirst(InsertWith(x, s, Comparator(true, localeCompare)))
  {
    var cmp := Comparator(true, localeCompare);
    if s == [] {
    } else if cmp(x, s[0]) < 0 {
      if x.unreadCount == 0 {
        assert !Unread(s[0]);
        forall j | 0 <= j < |s| ensures !Unread(s[j]) {
          if j > 0 {
            assert s[0].unreadCount == 0;
          }
        }
      }
    } else {
      var rest := InsertWith(x, s[1..], cmp);
      assert Counts(s[1..]) by { assert forall c :: c in s[1..] ==> c in s; }
      InsertUnreadFirst(x, s[1..], localeCompare);
      var r := [s[0]] + rest;
      if s[0].unreadCount == 0 {
        forall j | 1 <= j < |r| ensures !Unread(r[j]) {
          assert r[j] in multiset(rest);
          if r[j] != x {
            assert r[j] in multiset(s[1..]);
            var k :| 0 <= k < |s[1..]| && s[1..][k] == r[j];
            assert s[k + 1] == r[j];
          }
        }
      }
    }
  }

  /** In recent mode, with unread counts that are counts, the sorted list
      shows every unread conversation before every read one. */
  lemma {:induction false} SortedUnreadFirst(s: seq<ConversationSummary>, localeCompare: (string, string) -> int)
    requires Counts(s)
    ensures UnreadFirst(SortConversations(s, true, localeCompare))
  {
    if s != [] {
      var init := s[..|s| - 1];
      assert Counts(init) by { assert forall c :: c in init ==> c in s; }
      SortedUnreadFirst(init, localeCompare);
      var sorted := SortWith(init, Comparator(true, localeCompare));
      assert Counts(sorted) by {
        forall c | c in sorted ensures c.unreadCount >= 0 {
          assert c in multiset(sorted);
          assert c in multiset(init);
        }
      }
      InsertUnreadFirst(s[|s| - 1], sorted, localeCompare);
    }
  }

  /** `handleOpenConversation`: the opened copy has no unread messages and
      every other field as before. */
  function OpenConversation(c: ConversationSummary): (r: ConversationSummary)
    ensures r.unreadCount == 0
    ensures r.id == c.id && r.participantName == c.participantName && r.participantInitials == c.participantInitials
    ensures r.lastMessage == c.lastMessage && r.time == c.time
    ensures r.languageIcon == c.languageIcon && r.lastActive == c.lastActive
  {
    c.(unreadCount := 0)
  }

  /** `formatTime`: both of its branches return the text as given. */
  function FormatTime(timeString: string): (r: string)
    ensures r == timeString
  {
    if timeString == "Now" || timeString == "Just now" || timeString == "Yesterday"
      || Contains(timeString, "ago") || Contains(timeString, "days")
    then timeString
    else timeString
  }
}
