/**
 * The seed data of constants.ts. Timestamps there are computed from
 * `Date.now()` when the module loads; here that instant is the parameter
 * `now`. The text of the source file shows some characters (an apostrophe,
 * emoji) mis-decoded; these values use the intended characters.
 */
module Fixtures {
  import opened Types

  /** The local user: every outgoing message and own reaction carries this id. */
  const CurrentUser: User := User("u-me", "Pratik Kamble", "https://picsum.photos/seed/me/100/100", Online, None)

  function InitialUsers(now: int): seq<User> {
    [ User("u-1", "Soham Burhan", "https://picsum.photos/seed/sarah/100/100", Online, None),
      User("u-2", "Design Team", "https://picsum.photos/seed/group1/100/100", Online, None),
      User("u-3", "Gaurav Rakde", "https://picsum.photos/seed/michael/100/100", Offline, Some(now - 3600000)),
      User("u-4", "Emily Davis", "https://picsum.photos/seed/emily/100/100", Away, None) ]
  }

  const InitialChats: seq<Chat> := [
    Chat("c-1", Individual, Some("Soham Burhan"), ["u-me", "u-1"], None, 2,
         Some("https://picsum.photos/seed/sarah/100/100"), None),
    Chat("c-2", Group, Some("Product Design"), ["u-me", "u-1", "u-4"], None, 0,
         Some("https://picsum.photos/seed/group1/100/100"), None),
    Chat("c-3", Individual, Some("Gaurav Rakde"), ["u-me", "u-3"], None, 0,
         Some("https://picsum.photos/seed/michael/100/100"), None)
  ]

  /** A plain text message with no optional flags. */
  function SeedMessage(id: string, chatId: string, senderId: string, text: string, timestamp: int,
                       reactions: seq<Reaction>): Message
  {
    Message(id, chatId, senderId, text, timestamp, Read, reactions, Text, None, None, None, None)
  }

  function InitialMessages(now: int): map<string, seq<Message>> {
    map[
      "c-1" := [
        SeedMessage("m-1", "c-1", "u-1", "Hey! How’s the new design coming along?", now - 7200000, []),
        SeedMessage("m-2", "c-1", "u-me", "Yeah, totally agree. Calm interfaces just feel better to use.",
                    now - 3600000, [Reaction("👍", "u-1")])
      ],
      "c-2" := [
        SeedMessage("m-3", "c-2", "u-4", "Did you see the latest feedback from the team?", now - 86400000, [])
      ],
      "c-3" := []
    ]
  }
}
