/**
 * The conversation state of the root component (App.tsx). Each handler
 * there replaces the whole `AppState` through `setState` with the value of
 * a pure updater; the updaters are the functions below, and the class
 * `ChatApp` holds the state and applies one updater per handler. Message
 * ids and clock readings (`Date.now()`, `new Date()`) are parameters, and
 * the timers of the source become explicit steps: `AcknowledgeSend` is the
 * 1000 ms acknowledgement, `PeerStartsTyping` and `PeerReplies` are the two
 * stages of the simulated peer in chat "c-1".
 */
module Conversation {
  import opened Types
  import opened Seqs
  import Fixtures

  /** `dict[key] || []`: a missing entry reads as the empty list. */
  function ListOf<V>(dict: map<string, seq<V>>, key: string): seq<V> {
    if key in dict then dict[key] else []
  }

  /** The state the component starts from (App.tsx:9-15). */
  function InitialState(now: int): AppState {
    AppState(Fixtures.CurrentUser, Fixtures.InitialChats, Fixtures.InitialMessages(now),
             Some(Fixtures.InitialChats[0].id), map[])
  }

  // ---------------------------------------------------------------------------
  // addMessage (App.tsx:44-58)

  /** `chats.map(chat => chat.id === chatId ? { ...chat, lastMessage: m } : chat)` */
  function WithLastMessage(chats: seq<Chat>, chatId: string, m: Message): (r: seq<Chat>)
    ensures |r| == |chats|
    ensures forall i :: 0 <= i < |chats| ==> r[i].(lastMessage := chats[i].lastMessage) == chats[i]
    ensures forall i :: 0 <= i < |chats| ==>
              r[i].lastMessage == (if chats[i].id == chatId then Some(m) else chats[i].lastMessage)
  {
    seq(|chats|, i requires 0 <= i < |chats| =>
      if chats[i].id == chatId then chats[i].(lastMessage := Some(m)) else chats[i])
  }

  /** The state after `addMessage(chatId, m)`. */
  function AppendMessage(s: AppState, chatId: string, m: Message): (r: AppState)
    ensures ListOf(r.messages, chatId) == ListOf(s.messages, chatId) + [m]
    ensures r.messages.Keys == s.messages.Keys + {chatId}
    ensures forall c :: c in s.messages && c != chatId ==> r.messages[c] == s.messages[c]
    ensures r.chats == WithLastMessage(s.chats, chatId, m)
    ensures r.(messages := s.messages, chats := s.chats) == s
  {
    s.(messages := s.messages[chatId := ListOf(s.messages, chatId) + [m]],
       chats := WithLastMessage(s.chats, chatId, m))
  }

  // ---------------------------------------------------------------------------
  // handleTyping (App.tsx:60-71)

  /** `[...new Set([...current, userId])]` */
  function TypingOn(current: seq<string>, userId: string): (r: seq<string>)
    ensures NoDup(r) && Count(r, userId) == 1
    ensures forall u :: u in r <==> u in current || u == userId
    ensures Subseq(r, current + [userId])
    ensures NoDup(current) ==> r == if userId in current then current else current + [userId]
  {
    DedupSpec(current + [userId]);
    NoDupCountOne(Dedup(current + [userId]), userId);
    DedupAppend(current, userId);
    assert NoDup(current) ==> Dedup(current) == current by {
      if NoDup(current) {
        DedupOfNoDup(current);
      }
    }
    Dedup(current + [userId])
  }

  /**
   * The typing list keeps users in the order they first appear in the old
   * list followed by the new typist: wherever a later listed user occurs
   * there, every earlier listed user has already occurred.
   */
  lemma TypingOnOrder(current: seq<string>, userId: string)
    ensures FirstOccurrenceOrder(TypingOn(current, userId), current + [userId])
  {
    DedupOrder(current + [userId]);
  }

  /** `current.filter(id => id !== userId)` */
  function TypingOff(current: seq<string>, userId: string): (r: seq<string>)
    ensures userId !in r
    ensures Subseq(r, current)
    ensures forall u :: u != userId ==> (u in r <==> u in current)
    ensures userId !in current ==> r == current
    ensures NoDup(current) ==> NoDup(r)
  {
    var r := RemoveAll(current, userId);
    forall u | u != userId
      ensures u in r <==> u in current
    {
      CountPositiveIff(r, u);
      CountPositiveIff(current, u);
    }
    assert userId !in current ==> r == current by {
      if userId !in current {
        RemoveAllAbsent(current, userId);
      }
    }
    assert NoDup(current) ==> NoDup(r) by {
      if NoDup(current) {
        SubseqNoDup(r, current);
      }
    }
    r
  }

  /** The state after `handleTyping(chatId, userId, isTyping)`: only `typingUsers[chatId]` is written. */
  function WithTyping(s: AppState, chatId: string, userId: string, isTyping: bool): (r: AppState)
    ensures r.(typingUsers := s.typingUsers) == s
    ensures r.typingUsers.Keys == s.typingUsers.Keys + {chatId}
    ensures forall c :: c in s.typingUsers && c != chatId ==> r.typingUsers[c] == s.typingUsers[c]
    ensures forall u :: u in r.typingUsers[chatId] <==>
              if isTyping then u in ListOf(s.typingUsers, chatId) || u == userId
              else u in ListOf(s.typingUsers, chatId) && u != userId
    ensures Subseq(r.typingUsers[chatId], ListOf(s.typingUsers, chatId) + (if isTyping then [userId] else []))
    ensures isTyping ==> NoDup(r.typingUsers[chatId])
    ensures NoDup(ListOf(s.typingUsers, chatId)) ==> NoDup(r.typingUsers[chatId])
  {
    var current := ListOf(s.typingUsers, chatId);
    var updated := if isTyping then TypingOn(current, userId) else TypingOff(current, userId);
    assert !isTyping ==> current + [] == current;
    s.(typingUsers := s.typingUsers[chatId := updated])
  }

  /** Starting to type twice is starting once. */
  lemma TypingOnIdempotent(current: seq<string>, userId: string)
    ensures TypingOn(TypingOn(current, userId), userId) == TypingOn(current, userId)
  {
  }

  /** Applying the same typing update twice gives the state of applying it once. */
  lemma WithTypingIdempotent(s: AppState, chatId: string, userId: string, isTyping: bool)
    ensures WithTyping(WithTyping(s, chatId, userId, isTyping), chatId, userId, isTyping)
         == WithTyping(s, chatId, userId, isTyping)
  {
    var s1 := WithTyping(s, chatId, userId, isTyping);
    var current := ListOf(s.typingUsers, chatId);
    var once := s1.typingUsers[chatId];
    var twice := WithTyping(s1, chatId, userId, isTyping).typingUsers[chatId];
    if isTyping {
      assert once == TypingOn(current, userId);
      assert twice == TypingOn(once, userId);
    } else {
      assert once == TypingOff(current, userId);
      assert twice == TypingOff(once, userId);
    }
  }

  // ---------------------------------------------------------------------------
  // handleSendMessage (App.tsx:73-102)

  /** `if (!state.activeChatId) return;`: `null` and the empty string are both falsy. */
  predicate HasActiveChat(s: AppState) {
    s.activeChatId.Some? && s.activeChatId.value != ""
  }

  /** The message `handleSendMessage` builds (App.tsx:76-86). */
  function OutgoingMessage(s: AppState, id: string, text: string, kind: MessageKind,
                           mediaUrl: Option<string>, now: int): (m: Message)
    requires HasActiveChat(s)
  {
    Message(id, s.activeChatId.value, s.currentUser.id, text, now, Sending, [], kind, mediaUrl,
            None, None, None)
  }

  /** The state right after `handleSendMessage(text, kind, mediaUrl)`, before the acknowledgement. */
  function WithSentMessage(s: AppState, id: string, text: string, kind: MessageKind,
                           mediaUrl: Option<string>, now: int): (r: AppState)
    ensures !HasActiveChat(s) ==> r == s
    ensures HasActiveChat(s) ==>
              var c := s.activeChatId.value;
              var before := ListOf(s.messages, c);
              var after := ListOf(r.messages, c);
              && |after| == |before| + 1
              && after[..|before|] == before
              && after[|before|].id == id
              && after[|before|].chatId == c
              && after[|before|].senderId == s.currentUser.id
              && after[|before|].text == text
              && after[|before|].timestamp == now
              && after[|before|].status == Sending
              && after[|before|].reactions == []
              && after[|before|].kind == kind
              && after[|before|].mediaUrl == mediaUrl
              && c in r.messages
    ensures HasActiveChat(s) ==>
              forall c :: c != s.activeChatId.value ==> ListOf(r.messages, c) == ListOf(s.messages, c)
    ensures HasActiveChat(s) ==>
              r == AppendMessage(s, s.activeChatId.value, OutgoingMessage(s, id, text, kind, mediaUrl, now))
    ensures s.messages.Keys <= r.messages.Keys
  {
    if HasActiveChat(s) then
      var c := s.activeChatId.value;
      var r := AppendMessage(s, c, OutgoingMessage(s, id, text, kind, mediaUrl, now));
      assert ListOf(r.messages, c)[..|ListOf(s.messages, c)|] == ListOf(s.messages, c);
      r
    else
      s
  }

  /** `messages.map(m => m.id === id ? { ...m, status: 'sent' } : m)` */
  function MarkSent(msgs: seq<Message>, id: string): (r: seq<Message>)
    ensures |r| == |msgs|
    ensures forall i :: 0 <= i < |msgs| ==> r[i].(status := msgs[i].status) == msgs[i]
    ensures forall i :: 0 <= i < |msgs| ==> msgs[i].id == id ==> r[i].status == Sent
    ensures forall i :: 0 <= i < |msgs| ==> msgs[i].id != id ==> r[i] == msgs[i]
  {
    seq(|msgs|, i requires 0 <= i < |msgs| =>
      if msgs[i].id == id then msgs[i].(status := Sent) else msgs[i])
  }

  /**
   * The state after the acknowledgement timer of a send to `chatId` fires
   * (App.tsx:91-101). The source reads `prev.messages[chatId].map(...)`,
   * which has no fallback for a missing entry; the send has created it.
   */
  function WithSentStatus(s: AppState, chatId: string, id: string): (r: AppState)
    requires chatId in s.messages
    ensures r.(messages := s.messages) == s
    ensures r.messages.Keys == s.messages.Keys
    ensures r.messages[chatId] == MarkSent(s.messages[chatId], id)
    ensures forall c :: c in s.messages && c != chatId ==> r.messages[c] == s.messages[c]
  {
    s.(messages := s.messages[chatId := MarkSent(s.messages[chatId], id)])
  }

  /** A second acknowledgement of the same id changes nothing: a sent message stays sent. */
  lemma MarkSentIdempotent(msgs: seq<Message>, id: string)
    ensures MarkSent(MarkSent(msgs, id), id) == MarkSent(msgs, id)
  {
  }

  /**
   * Sending in the active chat and then acknowledging leaves the chat's
   * earlier messages (up to the status of ones sharing the id) followed
   * by the new message with status Sent.
   */
  lemma SendThenAcknowledge(s: AppState, id: string, text: string, kind: MessageKind,
                            mediaUrl: Option<string>, now: int)
    requires HasActiveChat(s)
    ensures var c := s.activeChatId.value;
            var s2 := WithSentStatus(WithSentMessage(s, id, text, kind, mediaUrl, now), c, id);
            s2.messages[c] == MarkSent(ListOf(s.messages, c), id)
                              + [OutgoingMessage(s, id, text, kind, mediaUrl, now).(status := Sent)]
  {
    var c := s.activeChatId.value;
    var s1 := WithSentMessage(s, id, text, kind, mediaUrl, now);
    var before := ListOf(s.messages, c);
    assert s1.messages[c] == before + [OutgoingMessage(s, id, text, kind, mediaUrl, now)];
  }

  // ---------------------------------------------------------------------------
  // handleToggleReaction (App.tsx:104-136)

  /** `reactions.findIndex(r => r.emoji === t.emoji && r.userId === t.userId)`, -1 when absent. */
  function FindReaction(rs: seq<Reaction>, t: Reaction): (k: int)
    ensures -1 <= k < |rs|
    ensures k == -1 <==> t !in rs
    ensures k >= 0 ==> rs[k] == t && t !in rs[..k]
    decreases |rs|
  {
    if |rs| == 0 then -1
    else if rs[0] == t then 0
    else
      var k := FindReaction(rs[1..], t);
      if k == -1 then -1
      else
        assert rs[..k + 1] == [rs[0]] + rs[1..][..k];
        k + 1
  }

  /**
   * One user's toggle of one emoji on one reaction list: the first entry
   * equal to `(emoji, userId)` is removed if there is one, otherwise such an
   * entry is appended.
   */
  function ToggleReaction(rs: seq<Reaction>, emoji: string, userId: string): (r: seq<Reaction>)
    ensures Reaction(emoji, userId) !in rs ==> r == rs + [Reaction(emoji, userId)]
    ensures Reaction(emoji, userId) in rs ==>
              exists k :: && 0 <= k < |rs| && rs[k] == Reaction(emoji, userId)
                          && Reaction(emoji, userId) !in rs[..k] && r == rs[..k] + rs[k + 1..]
  {
    var k := FindReaction(rs, Reaction(emoji, userId));
    if k > -1 then
      rs[..k] + rs[k + 1..]
    else
      rs + [Reaction(emoji, userId)]
  }

  /** As a multiset, a toggle removes one copy of a present reaction or adds one of an absent one. */
  lemma ToggleMultiset(rs: seq<Reaction>, emoji: string, userId: string)
    ensures var x := Reaction(emoji, userId);
            multiset(ToggleReaction(rs, emoji, userId))
              == if x in rs then multiset(rs) - multiset{x} else multiset(rs) + multiset{x}
  {
    var k := FindReaction(rs, Reaction(emoji, userId));
    if k > -1 {
      assert rs == rs[..k] + [rs[k]] + rs[k + 1..];
    }
  }

  /** Toggling an absent reaction twice restores the original list. */
  lemma ToggleTwiceRestores(rs: seq<Reaction>, emoji: string, userId: string)
    requires Reaction(emoji, userId) !in rs
    ensures ToggleReaction(ToggleReaction(rs, emoji, userId), emoji, userId) == rs
  {
    var t := rs + [Reaction(emoji, userId)];
    var k :| && 0 <= k < |t| && t[k] == Reaction(emoji, userId)
             && Reaction(emoji, userId) !in t[..k]
             && ToggleReaction(t, emoji, userId) == t[..k] + t[k + 1..];
    assert t[..|rs|] == rs;
  }

  /** Toggling keeps "at most one reaction per (user, emoji)" on a message. */
  lemma ToggleKeepsNoDup(rs: seq<Reaction>, emoji: string, userId: string)
    requires NoDup(rs)
    ensures NoDup(ToggleReaction(rs, emoji, userId))
  {
    var x := Reaction(emoji, userId);
    var k := FindReaction(rs, x);
    if k > -1 {
      NoDupRemoveAt(rs, k);
    } else {
      NoDupAppend(rs, x);
    }
  }

  /** `chatMessages.map(msg => msg.id !== messageId ? msg : { ...msg, reactions: toggled })` */
  function ToggleInMessages(msgs: seq<Message>, messageId: string, emoji: string,
                            userId: string): (r: seq<Message>)
    ensures |r| == |msgs|
    ensures forall i :: 0 <= i < |msgs| ==> r[i].(reactions := msgs[i].reactions) == msgs[i]
    ensures forall i :: 0 <= i < |msgs| ==> msgs[i].id != messageId ==> r[i] == msgs[i]
    ensures forall i :: 0 <= i < |msgs| ==> msgs[i].id == messageId ==>
              r[i].reactions == ToggleReaction(msgs[i].reactions, emoji, userId)
  {
    seq(|msgs|, i requires 0 <= i < |msgs| =>
      if msgs[i].id != messageId then msgs[i]
      else msgs[i].(reactions := ToggleReaction(msgs[i].reactions, emoji, userId)))
  }

  /** The state after `handleToggleReaction(messageId, emoji)` by the current user. */
  function WithToggledReaction(s: AppState, messageId: string, emoji: string): (r: AppState)
    ensures !HasActiveChat(s) ==> r == s
    ensures HasActiveChat(s) ==>
              && r.(messages := s.messages) == s
              && r.messages.Keys == s.messages.Keys + {s.activeChatId.value}
              && r.messages[s.activeChatId.value]
                 == ToggleInMessages(ListOf(s.messages, s.activeChatId.value), messageId, emoji,
                                     s.currentUser.id)
              && forall c :: c in s.messages && c != s.activeChatId.value ==>
                               r.messages[c] == s.messages[c]
    ensures s.messages.Keys <= r.messages.Keys
  {
    if HasActiveChat(s) then
      var c := s.activeChatId.value;
      s.(messages := s.messages[c := ToggleInMessages(ListOf(s.messages, c), messageId, emoji,
                                                      s.currentUser.id)])
    else
      s
  }

  /**
   * When no message with `messageId` in the active chat carries the current
   * user's `emoji`, toggling twice gives back the original messages (a
   * missing entry for the chat is left as an empty list).
   */
  lemma ToggleReactionTwiceRestores(s: AppState, messageId: string, emoji: string)
    requires HasActiveChat(s) ==>
               forall m :: m in ListOf(s.messages, s.activeChatId.value) && m.id == messageId ==>
                             Reaction(emoji, s.currentUser.id) !in m.reactions
    ensures var r := WithToggledReaction(WithToggledReaction(s, messageId, emoji), messageId, emoji);
            if HasActiveChat(s)
            then r == s.(messages := s.messages[s.activeChatId.value := ListOf(s.messages, s.activeChatId.value)])
            else r == s
  {
    if HasActiveChat(s) {
      var c := s.activeChatId.value;
      var me := s.currentUser.id;
      var msgs := ListOf(s.messages, c);
      var once := ToggleInMessages(msgs, messageId, emoji, me);
      var twice := ToggleInMessages(once, messageId, emoji, me);
      forall i | 0 <= i < |msgs|
        ensures twice[i] == msgs[i]
      {
        if msgs[i].id == messageId {
          assert msgs[i] in msgs;
          ToggleTwiceRestores(msgs[i].reactions, emoji, me);
        }
      }
      assert twice == msgs;
    }
  }

  // ---------------------------------------------------------------------------
  // Chat selection (App.tsx:147-148)

  /** The state after `onSelectChat(id)`. */
  function WithActiveChat(s: AppState, id: string): (r: AppState)
    ensures r.activeChatId == Some(id)
    ensures r.(activeChatId := s.activeChatId) == s
    ensures HasActiveChat(r) <==> id != ""
  {
    s.(activeChatId := Some(id))
  }

  // ---------------------------------------------------------------------------
  // Simulated peer in chat "c-1" (App.tsx:21-42)

  const PeerChatId := "c-1"
  const PeerUserId := "u-1"
  const PeerText := "They’re definitely shaping the future of digital interaction."

  /** The inbound message the peer's second timer appends (App.tsx:27-36). */
  function PeerMessage(id: string, now: int): Message {
    Message(id, PeerChatId, PeerUserId, PeerText, now, Sent, [], Text, None, None, None, None)
  }

  /** First timer, after 5000 ms: the peer starts typing. */
  function PeerTyping(s: AppState): AppState {
    WithTyping(s, PeerChatId, PeerUserId, true)
  }

  /** Second timer, 3000 ms later: the peer stops typing and its message is appended. */
  function PeerReply(s: AppState, id: string, now: int): AppState {
    AppendMessage(WithTyping(s, PeerChatId, PeerUserId, false), PeerChatId, PeerMessage(id, now))
  }

  /**
   * From the initial state, with "c-1" active, the peer sequence shows the
   * typing flag, then clears it and leaves three messages in "c-1".
   */
  lemma PeerScenario(now: int, later: int, id: string)
    ensures var s0 := InitialState(now);
            var s1 := PeerTyping(s0);
            var s2 := PeerReply(s1, id, later);
            && s0.activeChatId == Some(PeerChatId)
            && s1.typingUsers[PeerChatId] == [PeerUserId]
            && s2.typingUsers[PeerChatId] == []
            && |s2.messages[PeerChatId]| == 3
            && s2.messages[PeerChatId][2] == PeerMessage(id, later)
            && s2.chats[0].lastMessage == Some(PeerMessage(id, later))
  {
    var s0 := InitialState(now);
    assert |s0.messages[PeerChatId]| == 2;
    assert ListOf(s0.typingUsers, PeerChatId) == [];
    var s1 := PeerTyping(s0);
    assert s1.typingUsers[PeerChatId] == [PeerUserId];
  }

  // ---------------------------------------------------------------------------

  /** A scheduled acknowledgement: which chat was active at send time and which id was sent. */
  datatype PendingAck = PendingAck(chatId: string, messageId: string)

  /** Typing lists are sets: no user id is listed twice in any chat. */
  ghost predicate TypingListsDistinct(s: AppState) {
    forall c :: c in s.typingUsers ==> NoDup(s.typingUsers[c])
  }

  /** The root component's session state and its handlers. */
  class ChatApp {
    var state: AppState

    ghost predicate Valid()
      reads this
    {
      TypingListsDistinct(state)
    }

    constructor (now: int)
      ensures Valid() && state == InitialState(now)
    {
      state := InitialState(now);
    }

    /** `onSelectChat(id)` from the sidebar. */
    method SelectChat(id: string)
      requires Valid()
      modifies this
      ensures Valid() && state == WithActiveChat(old(state), id)
    {
      state := WithActiveChat(state, id);
    }

    method AddMessage(chatId: string, m: Message)
      requires Valid()
      modifies this
      ensures Valid() && state == AppendMessage(old(state), chatId, m)
    {
      state := AppendMessage(state, chatId, m);
    }

    method HandleTyping(chatId: string, userId: string, isTyping: bool)
      requires Valid()
      modifies this
      ensures Valid() && state == WithTyping(old(state), chatId, userId, isTyping)
      ensures old(state.messages) == state.messages
      ensures isTyping ==>
                var before := ListOf(old(state).typingUsers, chatId);
                state.typingUsers[chatId] == if userId in before then before else before + [userId]
    {
      state := WithTyping(state, chatId, userId, isTyping);
    }

    /**
     * Appends the outgoing message to the active chat and hands back the
     * acknowledgement the source schedules; nothing happens without an
     * active chat.
     */
    method HandleSendMessage(text: string, kind: MessageKind, mediaUrl: Option<string>,
                             id: string, now: int) returns (ack: Option<PendingAck>)
      requires Valid()
      modifies this
      ensures Valid() && state == WithSentMessage(old(state), id, text, kind, mediaUrl, now)
      ensures ack.Some? <==> HasActiveChat(old(state))
      ensures ack.Some? ==> ack.value == PendingAck(old(state).activeChatId.value, id)
                            && ack.value.chatId in state.messages
    {
      if HasActiveChat(state) {
        ack := Some(PendingAck(state.activeChatId.value, id));
      } else {
        ack := None;
      }
      state := WithSentMessage(state, id, text, kind, mediaUrl, now);
    }

    /** The acknowledgement timer fires: the sent id gets status Sent in the chat it was sent to. */
    method AcknowledgeSend(ack: PendingAck)
      requires Valid() && ack.chatId in state.messages
      modifies this
      ensures Valid() && state == WithSentStatus(old(state), ack.chatId, ack.messageId)
    {
      state := WithSentStatus(state, ack.chatId, ack.messageId);
    }

    method HandleToggleReaction(messageId: string, emoji: string)
      requires Valid()
      modifies this
      ensures Valid() && state == WithToggledReaction(old(state), messageId, emoji)
      ensures old(state.messages.Keys) <= state.messages.Keys
    {
      state := WithToggledReaction(state, messageId, emoji);
    }

    method PeerStartsTyping()
      requires Valid()
      modifies this
      ensures Valid() && state == PeerTyping(old(state))
    {
      state := PeerTyping(state);
    }

    method PeerReplies(id: string, now: int)
      requires Valid()
      modifies this
      ensures Valid() && state == PeerReply(old(state), id, now)
    {
      state := PeerReply(state, id, now);
    }
  }
}
