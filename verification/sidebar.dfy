/**
 * The conversation list (components/Sidebar.tsx): the search filter over
 * chat names, the "No conversations found" state and the highlight of the
 * active chat.
 */
module Sidebar {
  import opened Types
  import opened Seqs
  import opened Text
  import Fixtures

  /** `chat.name?.toLowerCase().includes(query.toLowerCase())`: a chat without a name gives `undefined`. */
  predicate Matches(chat: Chat, query: string) {
    chat.name.Some? && Includes(Lower(chat.name.value), Lower(query))
  }

  /** `chats.filter(chat => Matches(chat, query))` */
  function FilterChats(chats: seq<Chat>, query: string): seq<Chat>
    decreases |chats|
  {
    if |chats| == 0 then []
    else
      var rest := FilterChats(chats[..|chats| - 1], query);
      var c := chats[|chats| - 1];
      if Matches(c, query) then rest + [c] else rest
  }

  /**
   * The filter keeps the matching chats and only those, in their original
   * order.
   */
  lemma {:induction false} FilterSpec(chats: seq<Chat>, query: string)
    ensures Subseq(FilterChats(chats, query), chats)
    ensures forall c :: c in FilterChats(chats, query) <==> c in chats && Matches(c, query)
    ensures |FilterChats(chats, query)| <= |chats|
    decreases |chats|
  {
    if |chats| > 0 {
      var p, c := chats[..|chats| - 1], chats[|chats| - 1];
      FilterSpec(p, query);
      var rest := FilterChats(p, query);
      assert chats == p + [c];
      if Matches(c, query) {
        assert (rest + [c])[..|rest|] == rest;
      }
    }
  }

  /** A kept chat is kept as many times as it occurs; a dropped one not at all. */
  lemma {:induction false} FilterCount(chats: seq<Chat>, query: string, c: Chat)
    ensures Count(FilterChats(chats, query), c) == if Matches(c, query) then Count(chats, c) else 0
    decreases |chats|
  {
    if |chats| > 0 {
      var p, last := chats[..|chats| - 1], chats[|chats| - 1];
      FilterCount(p, query, c);
      assert chats == p + [last];
      CountAppend(p, last, c);
      if Matches(last, query) {
        CountAppend(FilterChats(p, query), last, c);
      }
    }
  }

  /** "No conversations found" is shown (Sidebar.tsx:104). */
  predicate ShowsNoConversations(chats: seq<Chat>, query: string) {
    |FilterChats(chats, query)| == 0
  }

  /** The empty state is shown exactly when no chat matches the query. */
  lemma NoConversationsIff(chats: seq<Chat>, query: string)
    ensures ShowsNoConversations(chats, query) <==> forall c :: c in chats ==> !Matches(c, query)
  {
    var r := FilterChats(chats, query);
    FilterSpec(chats, query);
    if |r| > 0 {
      assert r[0] in r;
    }
  }

  /** A chat without a name is never listed, whatever the query, the empty one included. */
  lemma UnnamedNeverListed(chats: seq<Chat>, query: string, c: Chat)
    requires c.name.None?
    ensures c !in FilterChats(chats, query)
  {
    FilterSpec(chats, query);
  }

  /** The empty query lists every named chat. */
  lemma EmptyQueryListsNamed(chats: seq<Chat>)
    ensures forall c :: c in FilterChats(chats, "") <==> c in chats && c.name.Some?
  {
    FilterSpec(chats, "");
    forall c | c in chats && c.name.Some?
      ensures Matches(c, "")
    {
      IncludesEmpty(Lower(c.name.value));
    }
  }

  /** Queries that agree after lower-casing list the same chats, in the same order. */
  lemma {:induction false} LowerEquivalentQueries(chats: seq<Chat>, q1: string, q2: string)
    requires Lower(q1) == Lower(q2)
    ensures FilterChats(chats, q1) == FilterChats(chats, q2)
    decreases |chats|
  {
    if |chats| > 0 {
      LowerEquivalentQueries(chats[..|chats| - 1], q1, q2);
    }
  }

  /** The list item of `chat` is highlighted (Sidebar.tsx:78); `null` equals no id. */
  predicate IsHighlighted(chat: Chat, activeChatId: Option<string>) {
    activeChatId == Some(chat.id)
  }

  /** With distinct chat ids, at most one listed item is highlighted, and it is the active chat. */
  lemma AtMostOneHighlighted(chats: seq<Chat>, query: string, activeChatId: Option<string>)
    requires forall i, j :: 0 <= i < j < |chats| ==> chats[i].id != chats[j].id
    ensures var r := FilterChats(chats, query);
            forall i, j :: 0 <= i < j < |r| && IsHighlighted(r[i], activeChatId) ==>
                            !IsHighlighted(r[j], activeChatId)
    ensures forall c :: c in FilterChats(chats, query) && IsHighlighted(c, activeChatId) ==>
                          activeChatId.Some? && c.id == activeChatId.value
  {
    var r := FilterChats(chats, query);
    FilterSpec(chats, query);
    assert NoDup(chats);
    SubseqNoDup(r, chats);
    forall i, j | 0 <= i < j < |r| && IsHighlighted(r[i], activeChatId)
      ensures !IsHighlighted(r[j], activeChatId)
    {
      assert r[i] in chats && r[j] in chats && r[i] != r[j];
      var p :| 0 <= p < |chats| && chats[p] == r[i];
      var q :| 0 <= q < |chats| && chats[q] == r[j];
      assert p != q;
      assert chats[p].id != chats[q].id;
    }
  }

  /** No window of `hay` can spell "design" unless it starts with a 'd'. */
  lemma NoDesignWithoutD(hay: string)
    requires forall i :: 0 <= i && i + 6 <= |hay| ==> hay[i] != 'd'
    ensures !Includes(hay, "design")
  {
    forall i | 0 <= i && i + 6 <= |hay|
      ensures !OccursAt(hay, "design", i)
    {
      assert hay[i..i + 6][0] == hay[i] != "design"[0];
    }
    IncludesIff(hay, "design");
  }

  lemma SohamDoesNotMatch()
    ensures !Matches(Fixtures.InitialChats[0], "design")
  {
    assert Lower("design") == "design";
    assert Lower("Soham Burhan") == "soham burhan";
    NoDesignWithoutD("soham burhan");
  }

  lemma GauravDoesNotMatch()
    ensures !Matches(Fixtures.InitialChats[2], "design")
  {
    assert Lower("design") == "design";
    assert Lower("Gaurav Rakde") == "gaurav rakde";
    NoDesignWithoutD("gaurav rakde");
  }

  lemma ProductDesignMatches()
    ensures Matches(Fixtures.InitialChats[1], "design")
  {
    var name := "Product Design";
    assert Lower("design") == "design";
    LowerSlice(name, 8, 14);
    assert name[8..14] == "Design";
    assert Lower("Design") == "design";
    assert OccursAt(Lower(name), "design", 8);
    IncludesIff(Lower(name), "design");
  }

  /** Filtering three chats keeps the matching ones in order. */
  lemma FilterThree(a: Chat, b: Chat, c: Chat, query: string)
    ensures FilterChats([a, b, c], query)
         == (if Matches(a, query) then [a] else []) + (if Matches(b, query) then [b] else [])
            + (if Matches(c, query) then [c] else [])
  {
    assert [a][..0] == [];
    assert FilterChats([a], query) == if Matches(a, query) then [a] else [];
    assert [a, b][..1] == [a];
    assert FilterChats([a, b], query) == FilterChats([a], query) + if Matches(b, query) then [b] else [];
    assert [a, b, c][..2] == [a, b];
  }

  /** Searching the seed chats for "design" finds only "Product Design". */
  lemma SearchDesign()
    ensures FilterChats(Fixtures.InitialChats, "design") == [Fixtures.InitialChats[1]]
  {
    var cs := Fixtures.InitialChats;
    SohamDoesNotMatch();
    ProductDesignMatches();
    GauravDoesNotMatch();
    assert cs == [cs[0], cs[1], cs[2]];
    FilterThree(cs[0], cs[1], cs[2], "design");
  }
}
