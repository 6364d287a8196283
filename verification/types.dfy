/**
 * The records of the chat session (types.ts). Strings are `seq<char>`,
 * `Date` values are integer milliseconds since the epoch, and the optional
 * fields of the TypeScript interfaces are `Option` values.
 */
module Types {

  datatype Option<T> = None | Some(value: T)

  datatype UserStatus = Online | Offline | Away

  datatype User = User(
    id: string,
    name: string,
    avatar: string,
    status: UserStatus,
    lastSeen: Option<int>)

  /**
   * Delivery status: an outgoing message starts as Sending and its
   * acknowledgement makes it Sent; no handler sets Delivered or Read (the
   * seed messages are Read).
   */
  datatype MessageStatus = Sending | Sent | Delivered | Read

  /** One user's emoji on one message. */
  datatype Reaction = Reaction(emoji: string, userId: string)

  datatype MessageKind = Text | Image | Voice | File

  datatype Message = Message(
    id: string,
    chatId: string,
    senderId: string,
    text: string,
    timestamp: int,
    status: MessageStatus,
    reactions: seq<Reaction>,
    kind: MessageKind,
    mediaUrl: Option<string>,
    isDeleted: Option<bool>,
    isEdited: Option<bool>,
    replyToId: Option<string>)

  datatype ChatKind = Individual | Group

  datatype Chat = Chat(
    id: string,
    kind: ChatKind,
    name: Option<string>,
    participants: seq<string>,
    lastMessage: Option<Message>,
    unreadCount: int,
    avatar: Option<string>,
    isMuted: Option<bool>)

  /**
   * The session snapshot: `messages` and `typingUsers` are the
   * `Record<string, ...>` dictionaries keyed by chat id, and a missing key
   * reads as an empty list wherever the source writes `x[chatId] || []`.
   */
  datatype AppState = AppState(
    currentUser: User,
    chats: seq<Chat>,
    messages: map<string, seq<Message>>,
    activeChatId: Option<string>,
    typingUsers: map<string, seq<string>>)
}
