# Serenity-Chat conversation core in Dafny

A model of the state rules behind the Serenity-Chat user interface, a
React chat mockup with no network and no storage:

- **Conversation state** (`Conversation`, from App.tsx). The session record
  `AppState` holds the current user, the chats, the message lists per chat,
  the active chat and the typing lists per chat. Every handler replaces it
  with the value of a pure updater: adding a message, typing on and off,
  sending (followed by the delayed acknowledgement that marks the message
  as sent), toggling a reaction, selecting a chat, and the simulated peer
  that types and replies in chat "c-1". The class `ChatApp` holds the state
  and has one method per handler. It keeps every typing list free of
  duplicates.
- **Message grouping** (`ChatWindow`). The thread groups consecutive
  messages from the same sender that are less than two minutes apart. Each
  bubble knows whether it opens or closes its group. `GroupMessages` is the
  source's single loop. `IsGrouping` is an independent description of a
  correct split, and the model proves it has exactly one solution.
- **Conversation search** (`Sidebar`). A case-insensitive substring filter
  on chat names, the "No conversations found" state and the highlight of the
  active chat.
- **Message bubble** (`MessageBubble`). The per-emoji tally of reactions,
  the "own chip" mark, the count label, the delivery-status icon, and the
  emoji picker that requests reaction toggles.
- **Composer** (`ChatInput`). The draft text and the recording flag. Blank
  drafts are never sent. Enter without Shift sends. Stopping a recording
  sends a voice message.

Supporting modules:

- `Types`: the records of types.ts.
- `Fixtures`: the seed data of constants.ts.
- `Seqs`: duplicate-freedom, counts, subsequences, `new Set`
  de-duplication and `filter` removal.
- `Text`: ECMAScript `trim`, ASCII `toLowerCase` and `includes`.

## Model

| member | source | states |
|---|---|---|
| Seqs.Dedup | App.tsx:64 | `[...new Set(xs)]`, built by recursion on the last element; its properties are stated by `DedupSpec`, `DedupOrder` and `DedupAppend`. |
| Seqs.DedupSpec | App.tsx:64 | `[...new Set(xs)]` has no duplicates and exactly the values of `xs`, and it is an order-preserving subsequence of `xs`. |
| Seqs.DedupOrder | App.tsx:64 | The distinct values come in the order of their first occurrences: wherever a later value occurs in `xs`, every earlier value has already occurred. With `DedupSpec` this fixes the result. |
| Seqs.RemoveAll | App.tsx:65 | `filter(id => id !== x)` leaves no `x`. It is an order-preserving subsequence. Every other value keeps its count, and the length drops by the count of `x`. |
| Seqs.DedupAppend | App.tsx:64 | De-duplicating a list extended by one value appends that value exactly when it is new. |
| Seqs.DedupCountsSumToLength | components/MessageBubble.tsx:60-63 | Summing the counts of the distinct values of a list gives its length. |
| Seqs.CountAtLeastTwoIff | components/MessageBubble.tsx:156 | A value occurs at least twice exactly when two different positions hold it. |
| Text.SkipForward | components/ChatInput.tsx:22 | The scan stops at the first position that is not whitespace (or the end), and everything it skipped is whitespace. |
| Text.SkipBackward | components/ChatInput.tsx:22 | The backward scan stops just after the last character that is not whitespace (or at 0), and everything it skipped is whitespace. |
| Text.TrimStart | components/ChatInput.tsx:22 | Leading whitespace is removed: the result is a suffix, the dropped prefix is all whitespace, and the result does not start with whitespace. |
| Text.TrimEnd | components/ChatInput.tsx:22 | Trailing whitespace is removed: the result is a prefix, the dropped suffix is all whitespace, and the result does not end with whitespace. |
| Text.Trim | components/ChatInput.tsx:22 | `text.trim()` is `TrimEnd(TrimStart(text))`; its emptiness is stated by `TrimEmptyIff`. |
| Text.TrimEmptyIff | components/ChatInput.tsx:22 | `text.trim()` is empty (falsy) exactly when every character of `text` is whitespace. |
| Text.Lower | components/Sidebar.tsx:24 | Lower-casing keeps the length of the string. |
| Text.LowerIdempotent | components/Sidebar.tsx:24 | Lower-casing twice equals lower-casing once. |
| Text.IncludesIff | components/Sidebar.tsx:24 | The left-to-right `includes` search succeeds exactly when the needle occurs at some position. |
| Text.IncludesEmpty | components/Sidebar.tsx:24 | Every string includes the empty string. |
| Conversation.InitialState | App.tsx:9-15 | The seed state: the seed user, chats and messages, the first chat active and no typing lists; used by the `ChatApp` constructor and `PeerScenario`. |
| Conversation.WithLastMessage | App.tsx:53-55 | The chat list keeps its length and order. Only `lastMessage` can change, and it becomes the new message exactly on chats whose id matches. |
| Conversation.AppendMessage | App.tsx:44-58 | The new message is appended after the chat's previous list, which reads as empty when missing. Every other chat's list is unchanged. The chats get `WithLastMessage`, and no other field changes. |
| Conversation.TypingOn | App.tsx:62-64 | The list has no duplicates and holds the user exactly once. Its members are the old ones plus the user, as an order-preserving subsequence of the old list followed by the user. For a duplicate-free list it is unchanged if the user is present, and otherwise the user is appended. |
| Conversation.TypingOnOrder | App.tsx:64 | For any old list, the users come in the order of their first occurrences in the old list followed by the typist. |
| Conversation.TypingOff | App.tsx:65 | Every occurrence of the user is removed. The rest keep their order. The list is unchanged if the user was absent, and stays duplicate-free. |
| Conversation.WithTyping | App.tsx:60-71 | Only `typingUsers[chatId]` is written. Its members are the old members plus or minus the user. A missing list reads as empty. Turning typing on always gives a duplicate-free list. |
| Conversation.TypingOnIdempotent | App.tsx:62-64 | Starting to type twice is the same as starting once. |
| Conversation.WithTypingIdempotent | App.tsx:60-71 | The same typing update applied twice gives the state of applying it once. |
| Conversation.OutgoingMessage | App.tsx:76-86 | The message built for a send; its fields are stated through `WithSentMessage`. |
| Conversation.WithSentMessage | App.tsx:73-89 | Without an active chat (null or the empty string) nothing changes. Otherwise exactly one message is appended to the active chat with the given id, text, kind, media URL and time; sender = current user; status Sending; no reactions. Every other chat's list is unchanged, and the whole new state is `AppendMessage` of the outgoing message, so the chat's `lastMessage` is updated and nothing else changes. |
| Conversation.MarkSent | App.tsx:96-98 | Only the status can change: it becomes Sent on messages with the sent id, and every other message is unchanged. |
| Conversation.WithSentStatus | App.tsx:91-101 | Only the message list of the chat that was active at send time is rewritten, by `MarkSent`. Every other field and every other chat stays the same. |
| Conversation.MarkSentIdempotent | App.tsx:96-98 | A second acknowledgement of the same id changes nothing. |
| Conversation.SendThenAcknowledge | App.tsx:73-101 | Sending then acknowledging leaves the chat's earlier messages (with status marked for a shared id), followed by the new message with status Sent. |
| Conversation.FindReaction | App.tsx:112-114 | `findIndex` returns -1 exactly when the reaction is absent. Otherwise it returns the first index that holds it. |
| Conversation.ToggleReaction | App.tsx:112-123 | If `(emoji, user)` is present, exactly its first occurrence is removed. Otherwise it is appended at the end. |
| Conversation.ToggleMultiset | App.tsx:112-123 | As multisets, the toggle removes one copy of a present reaction or adds one copy of an absent one, so no other reaction changes. |
| Conversation.ToggleTwiceRestores | App.tsx:117-123 | Toggling an absent reaction twice restores the original list. |
| Conversation.ToggleKeepsNoDup | App.tsx:112-123 | Toggling keeps a duplicate-free reaction list duplicate-free. |
| Conversation.ToggleInMessages | App.tsx:109-126 | Only the reactions of messages with the given id are replaced, by the toggle. Every other message is unchanged. |
| Conversation.WithToggledReaction | App.tsx:104-136 | Without an active chat nothing changes. Otherwise only the active chat's list is rewritten, with the current user's toggle, and a missing list reads as empty. |
| Conversation.ToggleReactionTwiceRestores | App.tsx:104-136 | When the target messages lack the user's emoji, toggling twice restores the messages. The only difference is that a missing entry becomes an empty list. |
| Conversation.WithActiveChat | App.tsx:147-148 | Only the active chat id changes. The chat is active (truthy) exactly when the id is not empty. |
| Conversation.PeerMessage | App.tsx:27-36 | The peer's reply message in "c-1", status Sent; its use is stated by `PeerScenario`. |
| Conversation.PeerTyping | App.tsx:23-24 | The peer's first step, `WithTyping` on for "u-1" in "c-1"; stated by `PeerScenario`. |
| Conversation.PeerReply | App.tsx:25-37 | The peer's second step: typing off, then `AppendMessage` of the reply; stated by `PeerScenario`. |
| Conversation.PeerScenario | App.tsx:21-42 | From the initial state with "c-1" active, the peer's first step lists "u-1" as typing. The second step clears that, appends the reply as the third message of "c-1", and makes it c-1's last message. |
| Conversation.ChatApp.constructor | App.tsx:9-15 | The session starts from the seed chats and messages. The first chat is active and no one is typing. |
| Conversation.ChatApp.SelectChat | App.tsx:147-148 | The state becomes `WithActiveChat` of the old state. |
| Conversation.ChatApp.AddMessage | App.tsx:44-58 | The state becomes `AppendMessage` of the old state, and typing lists stay duplicate-free. |
| Conversation.ChatApp.HandleTyping | App.tsx:60-71 | The state becomes `WithTyping` of the old state. Typing lists stay duplicate-free, and the messages are untouched. Because the lists are duplicate-free, turning typing on leaves the list unchanged when the user is listed and otherwise appends the user. |
| Conversation.ChatApp.HandleSendMessage | App.tsx:73-91 | The state becomes `WithSentMessage` of the old state. An acknowledgement is scheduled exactly when a chat was active, and it names that chat, which now has a message list, and the sent id. |
| Conversation.ChatApp.AcknowledgeSend | App.tsx:91-101 | The state becomes `WithSentStatus` for the scheduled chat and id. |
| Conversation.ChatApp.HandleToggleReaction | App.tsx:104-136 | The state becomes `WithToggledReaction` of the old state, and no message list disappears. |
| Conversation.ChatApp.PeerStartsTyping | App.tsx:23-24 | The state becomes the peer's typing-on update. |
| Conversation.ChatApp.PeerReplies | App.tsx:25-38 | The state becomes the peer's typing-off update, followed by appending the reply. |
| ChatWindow.Joins | components/ChatWindow.tsx:41-46 | A message joins its predecessor's group: same sender and a signed gap below 120000 ms; stated by `GroupingOfPair`. |
| ChatWindow.GroupMessages | components/ChatWindow.tsx:36-55 | The groups concatenate back to the input. Every group is non-empty and chained (same sender, signed gap < 120000 ms). Each later group starts where a message does not join its predecessor. There are no groups exactly for no messages, and otherwise 1 + the number of breaks. |
| ChatWindow.LastGroupLongIff | components/ChatWindow.tsx:45-50 | The last group ends with the last message, and it has more than one message exactly when the last message joins its predecessor. |
| ChatWindow.GroupingDropLast | components/ChatWindow.tsx:40-53 | Removing the last message from a grouping gives the grouping of the shorter list. |
| ChatWindow.GroupingUnique | components/ChatWindow.tsx:36-55 | A message list has exactly one grouping into runs, so the loop's result is determined by the rule. |
| ChatWindow.GroupingOfPair | components/ChatWindow.tsx:41-46 | Two messages form one group exactly when they share a sender and the signed gap is below 120000 ms; otherwise they form two groups. A same-sender message stamped earlier joins. |
| ChatWindow.GroupPlaces | components/ChatWindow.tsx:109-110 | The first/last flags of each bubble of one group, from its index in the group; stated by `PlacesFollowBreaks`. |
| ChatWindow.Places | components/ChatWindow.tsx:102-110 | The flags of all bubbles, group after group; stated by `PlacesFollowBreaks`. |
| ChatWindow.PlacesFollowBreaks | components/ChatWindow.tsx:104-110 | There is one place per message. `isFirstInGroup` holds at index 0 and exactly where a message does not join its predecessor. `isLastInGroup` holds at the end and exactly where the next message does not join. |
| Sidebar.Matches | components/Sidebar.tsx:24 | The filter's test: the chat has a name and its lower-cased name includes the lower-cased query; stated by `FilterSpec`, `UnnamedNeverListed` and `LowerEquivalentQueries`. |
| Sidebar.FilterChats | components/Sidebar.tsx:23-25 | `chats.filter(...)`, built by recursion on the last element; stated by `FilterSpec`. |
| Sidebar.FilterSpec | components/Sidebar.tsx:23-25 | The result is an order-preserving subsequence of the chats. A chat is kept exactly when it has a name and its lower-cased name includes the lower-cased query. |
| Sidebar.FilterCount | components/Sidebar.tsx:23-25 | A matching chat is kept as many times as it occurs in the list, and a chat that does not match not at all; with `FilterSpec` this fixes the result. |
| Sidebar.ShowsNoConversations | components/Sidebar.tsx:104 | The empty state's condition, an empty filter result; stated by `NoConversationsIff`. |
| Sidebar.NoConversationsIff | components/Sidebar.tsx:104 | "No conversations found" is shown exactly when no chat matches. |
| Sidebar.UnnamedNeverListed | components/Sidebar.tsx:24 | A chat without a name is never listed, even for the empty query. |
| Sidebar.EmptyQueryListsNamed | components/Sidebar.tsx:24 | The empty query lists exactly the named chats. |
| Sidebar.LowerEquivalentQueries | components/Sidebar.tsx:24 | Queries equal after lower-casing give the same list. |
| Sidebar.IsHighlighted | components/Sidebar.tsx:78 | `activeChatId === chat.id`; stated by `AtMostOneHighlighted`. |
| Sidebar.AtMostOneHighlighted | components/Sidebar.tsx:78 | With distinct chat ids, at most one listed item is highlighted, and a highlighted item's id is the active chat id. |
| Sidebar.FilterThree | components/Sidebar.tsx:23-25 | Filtering three chats keeps, in order, exactly those among them that match. |
| Sidebar.SearchDesign | constants.ts:18-43 | Searching the seed chats for "design" lists only "Product Design". |
| MessageBubble.TallyStep | components/MessageBubble.tsx:60-63 | One step of the `reduce` keeps the object a correct tally: a new emoji is appended to the key order with count 1, and a known one has its count raised by 1. |
| MessageBubble.TallyReactions | components/MessageBubble.tsx:60-63 | The keys are the distinct emojis in first-occurrence order. Each count is the number of reactions with that emoji and is at least 1. The counts sum to the number of reactions. |
| MessageBubble.ReactionRowIff | components/MessageBubble.tsx:141 | The reaction row is shown exactly when the message has a reaction. |
| MessageBubble.IsOwnChip | components/MessageBubble.tsx:152 | The `some` scan for my reaction with the chip's emoji; stated by `OwnChipIff`. |
| MessageBubble.OwnChipIff | components/MessageBubble.tsx:152 | A chip is marked as own exactly when the reaction `(emoji, "u-me")` is present. |
| MessageBubble.ToggleFlipsOwnChip | components/MessageBubble.tsx:152 | On a duplicate-free list, the local user's toggle flips that emoji's own mark and leaves the mark of every other emoji alone. |
| MessageBubble.ShowsCountLabel | components/MessageBubble.tsx:156 | `count > 1`; stated by `CountLabelIff`. |
| MessageBubble.CountLabelIff | components/MessageBubble.tsx:156 | The count label shows exactly when two different reactions carry the emoji. |
| MessageBubble.StatusIconOf | components/MessageBubble.tsx:22-23 | No icon exactly for messages that are not mine. |
| MessageBubble.StatusIconsDistinct | components/MessageBubble.tsx:24-56 | On my messages, the four statuses get four different icons. |
| MessageBubble.Bubble.constructor | components/MessageBubble.tsx:16 | The picker starts closed. |
| MessageBubble.Bubble.ClickPickerButton | components/MessageBubble.tsx:73 | The trigger button flips the picker. |
| MessageBubble.Bubble.MouseLeave | components/MessageBubble.tsx:68 | Leaving the bubble closes the picker. |
| MessageBubble.Bubble.PickEmoji | components/MessageBubble.tsx:96-99 | Picking requests the toggle of that emoji on this message and closes the picker. |
| MessageBubble.Bubble.ClickChip | components/MessageBubble.tsx:147 | A chip requests the toggle of its emoji on this message. |
| ChatInput.SendOf | components/ChatInput.tsx:21-27 | A draft is sent exactly when it is not all whitespace, and it is sent untrimmed as a text message with no media. |
| ChatInput.ShowsSendButton | components/ChatInput.tsx:75 | `text.trim()` is truthy; stated by `SendButtonIff`. |
| ChatInput.SendButtonIff | components/ChatInput.tsx:75 | The send button shows exactly when the draft would be sent, that is, when it is not all whitespace. |
| ChatInput.SubmitsOnKey | components/ChatInput.tsx:30 | Enter without Shift; stated through `Composer.HandleKeyDown`. |
| ChatInput.VoiceOf | components/ChatInput.tsx:36-44 | The voice button sends exactly when a recording was running, and then it sends `("", voice, "mock-voice-url")`. |
| ChatInput.Composer.constructor | components/ChatInput.tsx:10-11 | The composer starts with an empty draft and no recording. |
| ChatInput.Composer.SetText | components/ChatInput.tsx:64 | The draft becomes the typed value, and the recording flag is untouched. |
| ChatInput.Composer.HandleSend | components/ChatInput.tsx:21-27 | Sends `SendOf(draft)`. The draft is cleared exactly when something was sent and otherwise stays. The recording flag is untouched. |
| ChatInput.Composer.HandleKeyDown | components/ChatInput.tsx:29-34 | Enter without Shift behaves as `HandleSend`. Any other key sends nothing and changes nothing. |
| ChatInput.Composer.HandleVoiceRecord | components/ChatInput.tsx:36-44 | Flips the recording flag and sends `VoiceOf(old flag)`. The draft is untouched. |

## Left out

- Timers: the 5000 ms and 3000 ms peer delays, the 1000 ms acknowledgement delay and the cancellation of the peer timer when another chat is selected (App.tsx:21-42, 91). Their effects are the explicit steps `PeerStartsTyping`, `PeerReplies` and `AcknowledgeSend`, which may happen in any order the caller chooses.
- Clock and id generation: `Date.now()` and `new Date()` become the `id` and `now` parameters. Ids built from the clock can collide, and the model does not assume they are unique.
- Conversation.WithSentStatus: requires the chat to have a message list. The source calls `.map` on the entry without a fallback and would throw on a missing one. The send step always creates the entry, and `HandleSendMessage` states that.
- Conversation.ChatApp.Valid: covers only duplicate-freedom of the typing lists.
- Text.Lower: maps only ASCII A-Z. Full Unicode case mapping of `toLowerCase` is not modelled.
- Locale-dependent time formatting (`toLocaleTimeString`) in the bubbles and the sidebar.
- DOM work: the window-width check that closes the sidebar, scrolling the thread, resizing the text area, `preventDefault`, and the sidebar-open flag.
- Rendering: JSX, CSS classes and SVG markup, including the exact icon drawings, which are reduced to the `StatusIcon` values. components/Avatar.tsx and components/TypingIndicator.tsx are presentational and are not part of this model.
- MessageBubble.TallyReactions: keeps keys in insertion order. A JavaScript object lists integer-like keys first, in numeric order; no emoji is integer-like, so this does not arise for the picker's emoji.
- Some string literals appear mis-decoded in the source text (the picker emoji, an apostrophe in the peer reply). The model uses the characters they evidently stand for.
- The search query and the sidebar-open flag live in App.tsx as separate component state. Only their use in the filter is modelled.
