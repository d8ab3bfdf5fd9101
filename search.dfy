/** `filteredChats`: the rows of the chat list that match the search box,
    compared case-insensitively as substrings of the chat name. */
module Search {
  import opened Text
  import opened Data

  /** `chat.name.toLowerCase().includes(query.toLowerCase())`: the lower-cased
      query occurs somewhere in the lower-cased name; the empty query matches
      every chat. */
  function Matches(chat: Chat, query: string): (b: bool)
    ensures b <==> exists i :: OccursAt(LowerStr(chat.name), LowerStr(query), i)
    ensures query == "" ==> b
  {
    var found := Includes(LowerStr(chat.name), LowerStr(query));
    assert found ==> exists i :: OccursAt(LowerStr(chat.name), LowerStr(query), i);
    assert !found ==> !exists i :: OccursAt(LowerStr(chat.name), LowerStr(query), i);
    assert query == "" ==> OccursAt(LowerStr(chat.name), LowerStr(query), 0);
    found
  }

  /** `chats.filter(chat => Matches(chat, query))`. */
  function FilterChats(chats: seq<Chat>, query: string): (r: seq<Chat>)
    ensures |r| <= |chats|
    ensures forall c :: c in r ==> c in chats && Matches(c, query)
  {
    if chats == [] then []
    else if Matches(chats[0], query) then [chats[0]] + FilterChats(chats[1..], query)
    else FilterChats(chats[1..], query)
  }

  /** `r` can be obtained from `s` by deleting elements: same elements, same
      relative order. */
  predicate IsSubsequence<T(==)>(r: seq<T>, s: seq<T>)
    decreases |s|
  {
    if r == [] then true
    else if s == [] then false
    else if r[0] == s[0] then IsSubsequence(r[1..], s[1..])
    else IsSubsequence(r, s[1..])
  }

  /** A chat is listed if and only if it is one of `chats` and matches. */
  lemma {:induction false} FilterMembership(chats: seq<Chat>, query: string, c: Chat)
    ensures c in FilterChats(chats, query) <==> c in chats && Matches(c, query)
  {
    if chats != [] {
      FilterMembership(chats[1..], query, c);
      assert chats == [chats[0]] + chats[1..];
    }
  }

  /** The rows keep the order they have in `chats`. */
  lemma {:induction false} FilterIsSubsequence(chats: seq<Chat>, query: string)
    ensures IsSubsequence(FilterChats(chats, query), chats)
  {
    if chats != [] {
      FilterIsSubsequence(chats[1..], query);
      if !Matches(chats[0], query) {
        var r := FilterChats(chats[1..], query);
        assert r != [] ==> r[0] in r && r[0] != chats[0];
      }
    }
  }

  /** An empty search box lists every chat, in order. */
  lemma {:induction false} FilterEmptyQuery(chats: seq<Chat>)
    ensures FilterChats(chats, "") == chats
  {
    if chats != [] {
      FilterEmptyQuery(chats[1..]);
      assert LowerStr("") == "";
      IncludesEmpty(LowerStr(chats[0].name));
    }
  }

  /** A query that matches no name lists nothing. */
  lemma FilterNoMatch(chats: seq<Chat>, query: string)
    requires forall c :: c in chats ==> !Matches(c, query)
    ensures FilterChats(chats, query) == []
  {
    if FilterChats(chats, query) != [] {
      assert FilterChats(chats, query)[0] in FilterChats(chats, query);
    }
  }

  /** Case does not matter: a query that equals some piece of a chat's name
      up to letter case finds that chat. */
  lemma CaseInsensitiveHit(chats: seq<Chat>, c: Chat, query: string, i: nat, j: nat)
    requires c in chats && i <= j <= |c.name|
    requires LowerStr(query) == LowerStr(c.name[i..j])
    ensures c in FilterChats(chats, query)
  {
    var name := LowerStr(c.name);
    LowerStrSlice(c.name, i, j);
    assert OccursAt(name, LowerStr(query), i);
    FilterMembership(chats, query, c);
  }

  /** Filtering again by the same query changes nothing. */
  lemma {:induction false} FilterIdempotent(chats: seq<Chat>, query: string)
    ensures FilterChats(FilterChats(chats, query), query) == FilterChats(chats, query)
  {
    if chats != [] {
      FilterIdempotent(chats[1..], query);
    }
  }

  /** Typing more characters only narrows the list: the rows for `query + more`
      are a subsequence of the rows for `query`. */
  lemma {:induction false} FilterNarrows(chats: seq<Chat>, query: string, more: string)
    ensures IsSubsequence(FilterChats(chats, query + more), FilterChats(chats, query))
  {
    if chats != [] {
      FilterNarrows(chats[1..], query, more);
      var c := chats[0];
      assert LowerStr(query + more) == LowerStr(query) + LowerStr(more);
      if Matches(c, query + more) {
        IncludesExtension(LowerStr(c.name), LowerStr(query), LowerStr(more));
      } else if Matches(c, query) {
        SubsequenceDropHead(FilterChats(chats[1..], query + more), FilterChats(chats, query));
      }
    }
  }

  /** A subsequence of `s[1..]` is a subsequence of `s`. */
  lemma {:induction false} SubsequenceDropHead<T>(r: seq<T>, s: seq<T>)
    requires s != [] && IsSubsequence(r, s[1..])
    ensures IsSubsequence(r, s)
    decreases |s|, 0
  {
    if r != [] && r[0] == s[0] {
      SubsequenceDropFront(r, s[1..]);
    }
  }

  /** Dropping the first element of a subsequence keeps it a subsequence. */
  lemma {:induction false} SubsequenceDropFront<T>(r: seq<T>, s: seq<T>)
    requires r != [] && IsSubsequence(r, s)
    ensures IsSubsequence(r[1..], s)
    decreases |s|, 1
  {
    if r[0] == s[0] {
      if r[1..] != [] {
        SubsequenceDropHead(r[1..], s);
      }
    } else {
      SubsequenceDropFront(r, s[1..]);
      if r[1..] != [] {
        SubsequenceDropHead(r[1..], s);
      }
    }
  }

}
