/**
 * One message bubble (components/MessageBubble.tsx): the per-emoji tally of
 * the reactions, the "own chip" highlight, the count label, the delivery
 * status indicator and the emoji picker that requests reaction toggles.
 * The picker state is a field of the bubble that its handlers flip; the
 * chip rules are pure.
 */
module MessageBubble {
  import opened Types
  import opened Seqs
  import Conversation

  /** The user id the own-chip test compares against. */
  const MyUserId := "u-me"

  /** The six emoji the picker offers, in display order. */
  const CommonEmojis: seq<string> := ["👍", "❤️", "😂", "😮", "😢", "🔥"]

  /** The emoji of each reaction, in order. */
  function Emojis(rs: seq<Reaction>): (r: seq<string>)
    ensures |r| == |rs|
    decreases |rs|
  {
    if |rs| == 0 then [] else Emojis(rs[..|rs| - 1]) + [rs[|rs| - 1].emoji]
  }

  /** Position `i` of `Emojis(rs)` is the emoji of reaction `i`. */
  lemma {:induction false} EmojiAt(rs: seq<Reaction>, i: int)
    requires 0 <= i < |rs|
    ensures Emojis(rs)[i] == rs[i].emoji
    decreases |rs|
  {
    if i < |rs| - 1 {
      EmojiAt(rs[..|rs| - 1], i);
    }
  }

  /**
   * `order` and `counts` describe the object the `reduce` has built after the
   * emoji in `seen`: the keys in first-occurrence order, each with its
   * number of occurrences.
   */
  ghost predicate Tallied(seen: seq<string>, order: seq<string>, counts: map<string, nat>) {
    && order == Dedup(seen)
    && (forall e :: e in counts <==> e in seen)
    && (forall e :: e in counts ==> counts[e] == Count(seen, e))
  }

  /** Counting one more emoji `e`, as one step of the `reduce` does. */
  lemma TallyStep(seen: seq<string>, e: string, order: seq<string>, counts: map<string, nat>)
    requires Tallied(seen, order, counts)
    ensures Tallied(seen + [e], if e in counts then order else order + [e],
                    counts[e := (if e in counts then counts[e] else 0) + 1])
  {
    DedupAppend(seen, e);
    CountPositiveIff(seen, e);
    forall x ensures Count(seen + [e], x) == Count(seen, x) + (if e == x then 1 else 0) {
      CountAppend(seen, e, x);
    }
  }

  /** What a finished tally says about the emoji it has read. */
  lemma TallyTotals(es: seq<string>, order: seq<string>, counts: map<string, nat>)
    requires Tallied(es, order, counts)
    ensures forall e :: e in counts ==> counts[e] >= 1
    ensures SumCounts(order, es) == |es|
  {
    forall e | e in counts
      ensures counts[e] >= 1
    {
      CountPositiveIff(es, e);
    }
    DedupCountsSumToLength(es);
  }

  /**
   * The `reduce` into a fresh object: `order` is the object's key order
   * (first occurrence of each emoji) and `counts` its values. The total of
   * the counts is the number of reactions.
   */
  method TallyReactions(rs: seq<Reaction>) returns (order: seq<string>, counts: map<string, nat>)
    ensures order == Dedup(Emojis(rs))
    ensures forall e :: e in counts <==> e in Emojis(rs)
    ensures forall e :: e in counts ==> counts[e] == Count(Emojis(rs), e) && counts[e] >= 1
    ensures SumCounts(order, Emojis(rs)) == |rs|
  {
    order, counts := [], map[];
    var i := 0;
    while i < |rs|
      invariant 0 <= i <= |rs|
      invariant Tallied(Emojis(rs[..i]), order, counts)
    {
      var e := rs[i].emoji;
      ghost var seen := Emojis(rs[..i]);
      TallyStep(seen, e, order, counts);
      order, counts := (if e in counts then order else order + [e]),
                       counts[e := (if e in counts then counts[e] else 0) + 1];
      assert rs[..i + 1][..i] == rs[..i];
      i := i + 1;
    }
    assert rs[..i] == rs;
    TallyTotals(Emojis(rs), order, counts);
  }

  /** The reaction row is rendered exactly when the message has a reaction. */
  lemma ReactionRowIff(rs: seq<Reaction>)
    ensures |Dedup(Emojis(rs))| > 0 <==> |rs| > 0
  {
    DedupSpec(Emojis(rs));
    if |rs| > 0 {
      assert Emojis(rs)[0] in Dedup(Emojis(rs));
    }
  }

  /** `reactions.some(r => r.emoji === emoji && r.userId === 'u-me')`, scanned from the left. */
  predicate IsOwnChip(rs: seq<Reaction>, emoji: string)
    decreases |rs|
  {
    |rs| > 0 && ((rs[0].emoji == emoji && rs[0].userId == MyUserId) || IsOwnChip(rs[1..], emoji))
  }

  /** The chip is marked as own exactly when my reaction with that emoji is in the list. */
  lemma {:induction false} OwnChipIff(rs: seq<Reaction>, emoji: string)
    ensures IsOwnChip(rs, emoji) <==> Reaction(emoji, MyUserId) in rs
    decreases |rs|
  {
    if |rs| > 0 {
      OwnChipIff(rs[1..], emoji);
      assert rs == [rs[0]] + rs[1..];
    }
  }

  /**
   * With no duplicate reactions, toggling an emoji as the local user flips
   * that emoji's own-chip mark and leaves the mark of every other emoji alone.
   */
  lemma ToggleFlipsOwnChip(rs: seq<Reaction>, emoji: string, other: string)
    requires NoDup(rs)
    ensures IsOwnChip(Conversation.ToggleReaction(rs, emoji, MyUserId), emoji) == !IsOwnChip(rs, emoji)
    ensures other != emoji ==>
              IsOwnChip(Conversation.ToggleReaction(rs, emoji, MyUserId), other) == IsOwnChip(rs, other)
  {
    var r := Conversation.ToggleReaction(rs, emoji, MyUserId);
    OwnChipIff(rs, emoji);
    OwnChipIff(r, emoji);
    OwnChipIff(rs, other);
    OwnChipIff(r, other);
    Conversation.ToggleMultiset(rs, emoji, MyUserId);
    var x := Reaction(emoji, MyUserId);
    if other != emoji {
      assert multiset(r)[Reaction(other, MyUserId)] == multiset(rs)[Reaction(other, MyUserId)];
    }
    if x in rs {
      var k := Conversation.FindReaction(rs, x);
      assert x !in rs[k + 1..] by {
        forall j | k < j < |rs|
          ensures rs[j] != x
        {
        }
      }
    }
  }

  /** A chip shows its count only when more than one reaction carries its emoji. */
  predicate ShowsCountLabel(count: int) {
    count > 1
  }

  /** The label appears on the chip of `emoji` exactly when two different reactions carry it. */
  lemma CountLabelIff(rs: seq<Reaction>, emoji: string)
    ensures ShowsCountLabel(Count(Emojis(rs), emoji)) <==>
            exists i, j :: 0 <= i < j < |rs| && rs[i].emoji == emoji && rs[j].emoji == emoji
  {
    var es := Emojis(rs);
    CountAtLeastTwoIff(es, emoji);
    if exists i, j :: 0 <= i < j < |rs| && rs[i].emoji == emoji && rs[j].emoji == emoji {
      var i, j :| 0 <= i < j < |rs| && rs[i].emoji == emoji && rs[j].emoji == emoji;
      EmojiAt(rs, i);
      EmojiAt(rs, j);
    }
    if exists i, j :: 0 <= i < j < |es| && es[i] == emoji && es[j] == emoji {
      var i, j :| 0 <= i < j < |es| && es[i] == emoji && es[j] == emoji;
      EmojiAt(rs, i);
      EmojiAt(rs, j);
    }
  }

  /** The delivery indicator drawn next to the time. */
  datatype StatusIcon = Spinner | SingleTick | DoubleTick | BlueDoubleTick

  /** `getStatusIcon`: nothing on incoming messages; one distinct icon per status on mine. */
  function StatusIconOf(isMe: bool, status: MessageStatus): (r: Option<StatusIcon>)
    ensures r.None? <==> !isMe
  {
    if !isMe then None
    else
      match status
      case Sending => Some(Spinner)
      case Sent => Some(SingleTick)
      case Delivered => Some(DoubleTick)
      case Read => Some(BlueDoubleTick)
  }

  /** On my own messages the icon tells every status apart. */
  lemma StatusIconsDistinct(s1: MessageStatus, s2: MessageStatus)
    ensures StatusIconOf(true, s1) == StatusIconOf(true, s2) <==> s1 == s2
  {
  }

  /** What a bubble asks the conversation to do: `onToggleReaction(messageId, emoji)`. */
  datatype ToggleRequest = ToggleRequest(messageId: string, emoji: string)

  /** A rendered bubble: its message is a property, the picker visibility its own state. */
  class Bubble {
    const message: Message
    var showPicker: bool

    constructor (message: Message)
      ensures this.message == message && !showPicker
    {
      this.message := message;
      showPicker := false;
    }

    /** The floating button flips the picker. */
    method ClickPickerButton()
      modifies this
      ensures showPicker == !old(showPicker)
    {
      showPicker := !showPicker;
    }

    /** The mouse leaves the bubble: the picker closes. */
    method MouseLeave()
      modifies this
      ensures !showPicker
    {
      showPicker := false;
    }

    /**
     * An emoji button of the picker (rendered only while it is open, one per
     * entry of `CommonEmojis`): request the toggle for this message, then
     * close the picker.
     */
    method PickEmoji(emoji: string) returns (request: ToggleRequest)
      modifies this
      ensures request == ToggleRequest(message.id, emoji)
      ensures !showPicker
    {
      request := ToggleRequest(message.id, emoji);
      showPicker := false;
    }

    /** A reaction chip: request the toggle of its emoji; the picker is left as it is. */
    method ClickChip(emoji: string) returns (request: ToggleRequest)
      ensures request.messageId == message.id && request.emoji == emoji
    {
      request := ToggleRequest(message.id, emoji);
    }
  }
}
