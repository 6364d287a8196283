/**
 * Message grouping of the thread view (components/ChatWindow.tsx):
 * consecutive messages form one visual group while the sender stays the
 * same and each message follows its predecessor by less than two minutes;
 * inside a group the first and the last bubble are styled differently.
 */
module ChatWindow {
  import opened Types

  /** The two-minute window, in milliseconds. */
  const GroupWindowMs := 120000

  /**
   * `msg` joins the group of its predecessor `prev`. The gap is a signed
   * difference, so a message stamped earlier than its predecessor joins too.
   */
  predicate Joins(prev: Message, msg: Message) {
    prev.senderId == msg.senderId && msg.timestamp - prev.timestamp < GroupWindowMs
  }

  /** The groups' messages, in order. */
  function Flatten(groups: seq<seq<Message>>): seq<Message> {
    if |groups| == 0 then [] else Flatten(groups[..|groups| - 1]) + groups[|groups| - 1]
  }

  /** The number of positions where a message does not join its predecessor. */
  function BreakCount(msgs: seq<Message>): nat {
    if |msgs| <= 1 then 0
    else BreakCount(msgs[..|msgs| - 1]) + (if Joins(msgs[|msgs| - 2], msgs[|msgs| - 1]) then 0 else 1)
  }

  function Last<T>(s: seq<T>): T
    requires |s| > 0
  {
    s[|s| - 1]
  }

  /** Every message of `g` joins its predecessor in `g`. */
  predicate Chained(g: seq<Message>) {
    forall j :: 0 < j < |g| ==> Joins(g[j - 1], g[j])
  }

  /**
   * The groups are runs: none is empty, each is chained, and the first
   * message of every group after the first does not join the last message
   * of the group before it.
   */
  predicate Runs(groups: seq<seq<Message>>)
    decreases |groups|
  {
    || |groups| == 0
    || (var n := |groups|;
        && Runs(groups[..n - 1])
        && |groups[n - 1]| > 0
        && Chained(groups[n - 1])
        && (n > 1 ==> |groups[n - 2]| > 0 && !Joins(Last(groups[n - 2]), groups[n - 1][0])))
  }

  /** `groups` splits `msgs`, in order, into runs. */
  predicate IsGrouping(msgs: seq<Message>, groups: seq<seq<Message>>) {
    Flatten(groups) == msgs && Runs(groups)
  }

  lemma FlattenAppend(groups: seq<seq<Message>>, g: seq<Message>)
    ensures Flatten(groups + [g]) == Flatten(groups) + g
  {
    assert (groups + [g])[..|groups|] == groups;
  }

  /** Closing a group: appending a chained group that breaks from the last one keeps runs. */
  lemma RunsAppend(groups: seq<seq<Message>>, g: seq<Message>)
    requires Runs(groups) && |g| > 0 && Chained(g)
    requires |groups| > 0 ==> |Last(groups)| > 0 && !Joins(Last(Last(groups)), g[0])
    ensures Runs(groups + [g])
  {
    assert (groups + [g])[..|groups|] == groups;
  }

  /** `groupMessages(msgs)`: one pass that extends the current group or closes it. */
  method GroupMessages(msgs: seq<Message>) returns (groups: seq<seq<Message>>)
    ensures IsGrouping(msgs, groups)
    ensures msgs == [] <==> groups == []
    ensures msgs != [] ==> |groups| == 1 + BreakCount(msgs)
  {
    groups := [];
    var current: seq<Message> := [];
    var i := 0;
    while i < |msgs|
      invariant 0 <= i <= |msgs|
      invariant Flatten(groups) + current == msgs[..i]
      invariant i > 0 <==> |current| > 0
      invariant i > 0 ==> Last(current) == msgs[i - 1]
      invariant Runs(groups) && Chained(current)
      invariant |groups| > 0 ==> i > 0 && |Last(groups)| > 0 && !Joins(Last(Last(groups)), current[0])
      invariant i > 0 ==> |groups| == BreakCount(msgs[..i])
    {
      var msg := msgs[i];
      assert msgs[..i + 1] == msgs[..i] + [msg];
      if i > 0 && Joins(msgs[i - 1], msg) {
        current := current + [msg];
      } else {
        if |current| > 0 {
          FlattenAppend(groups, current);
          RunsAppend(groups, current);
          groups := groups + [current];
        }
        current := [msg];
      }
      assert i > 0 ==> msgs[..i + 1][..i] == msgs[..i];
      i := i + 1;
    }
    assert msgs[..i] == msgs;
    if |current| > 0 {
      FlattenAppend(groups, current);
      RunsAppend(groups, current);
      groups := groups + [current];
    }
  }

  /** The last message of the thread is the last message of the last group. */
  lemma LastOfFlatten(groups: seq<seq<Message>>)
    requires |groups| > 0 && |Last(groups)| > 0
    ensures Flatten(groups) == Flatten(groups[..|groups| - 1]) + Last(groups)
    ensures |Flatten(groups)| > 0 && Last(Flatten(groups)) == Last(Last(groups))
  {
  }

  /**
   * In a grouping of a non-empty thread, the last group holds more than the
   * last message exactly when that message joins its predecessor.
   */
  lemma LastGroupLongIff(msgs: seq<Message>, groups: seq<seq<Message>>)
    requires IsGrouping(msgs, groups) && |msgs| > 0
    ensures |groups| > 0 && |Last(groups)| > 0 && Last(Last(groups)) == Last(msgs)
    ensures |Last(groups)| > 1 <==> |msgs| > 1 && Joins(msgs[|msgs| - 2], msgs[|msgs| - 1])
  {
    var n := |msgs|;
    var g := Last(groups);
    var rest := groups[..|groups| - 1];
    LastOfFlatten(groups);
    if |g| > 1 {
      assert msgs[n - 2] == g[|g| - 2];
    } else if n > 1 {
      assert |Flatten(rest)| == n - 1;
      assert |rest| > 0;
      LastOfFlatten(rest);
      assert msgs[n - 2] == Last(Flatten(rest));
    }
  }

  /** Dropping the last message of a grouping gives a grouping of the shorter thread. */
  lemma GroupingDropLast(msgs: seq<Message>, groups: seq<seq<Message>>)
    requires IsGrouping(msgs, groups) && |msgs| > 0
    ensures |groups| > 0 && |Last(groups)| > 0
    ensures var g := Last(groups);
            var rest := groups[..|groups| - 1];
            if |g| == 1 then IsGrouping(msgs[..|msgs| - 1], rest) && groups == rest + [[Last(msgs)]]
            else IsGrouping(msgs[..|msgs| - 1], rest + [g[..|g| - 1]])
                 && groups == rest + [g[..|g| - 1] + [Last(msgs)]]
  {
    LastGroupLongIff(msgs, groups);
    var g := Last(groups);
    var rest := groups[..|groups| - 1];
    LastOfFlatten(groups);
    assert msgs[..|msgs| - 1] == Flatten(rest) + g[..|g| - 1];
    assert groups == rest + [g];
    assert g == g[..|g| - 1] + [Last(msgs)];
    if |g| > 1 {
      FlattenAppend(rest, g[..|g| - 1]);
      RunsAppend(rest, g[..|g| - 1]);
    }
  }

  /** The grouping of a thread is unique: the rules above leave no choice. */
  lemma {:induction false} GroupingUnique(msgs: seq<Message>, g1: seq<seq<Message>>, g2: seq<seq<Message>>)
    requires IsGrouping(msgs, g1) && IsGrouping(msgs, g2)
    ensures g1 == g2
    decreases |msgs|
  {
    if |msgs| == 0 {
      if |g1| > 0 { LastOfFlatten(g1); }
      if |g2| > 0 { LastOfFlatten(g2); }
    } else {
      LastGroupLongIff(msgs, g1);
      LastGroupLongIff(msgs, g2);
      GroupingDropLast(msgs, g1);
      GroupingDropLast(msgs, g2);
      var a, b := Last(g1), Last(g2);
      var ra, rb := g1[..|g1| - 1], g2[..|g2| - 1];
      if |a| == 1 {
        GroupingUnique(msgs[..|msgs| - 1], ra, rb);
      } else {
        GroupingUnique(msgs[..|msgs| - 1], ra + [a[..|a| - 1]], rb + [b[..|b| - 1]]);
        assert ra + [a[..|a| - 1]] == rb + [b[..|b| - 1]];
        assert ra == (ra + [a[..|a| - 1]])[..|ra|];
        assert rb == (rb + [b[..|b| - 1]])[..|rb|];
      }
    }
  }

  /**
   * Two messages from one sender share a group exactly when the second is
   * stamped less than 120000 ms after the first (an earlier stamp included);
   * messages from different senders never do.
   */
  lemma GroupingOfPair(a: Message, b: Message)
    ensures var expected := if Joins(a, b) then [[a, b]] else [[a], [b]];
            forall gs :: IsGrouping([a, b], gs) <==> gs == expected
    ensures Joins(a, b) <==> a.senderId == b.senderId && b.timestamp - a.timestamp < 120000
  {
    var expected := if Joins(a, b) then [[a, b]] else [[a], [b]];
    FlattenAppend([], expected[0]);
    if !Joins(a, b) {
      FlattenAppend([[a]], [b]);
      RunsAppend([], [a]);
      RunsAppend([[a]], [b]);
      assert [[a]] + [[b]] == expected;
    } else {
      RunsAppend([], [a, b]);
      assert [] + [[a, b]] == expected;
    }
    assert IsGrouping([a, b], expected);
    forall gs | IsGrouping([a, b], gs)
      ensures gs == expected
    {
      GroupingUnique([a, b], gs, expected);
    }
  }

  /** How one bubble is drawn: `isFirstInGroup` and `isLastInGroup` (ChatWindow.tsx:109-110). */
  datatype BubblePlace = BubblePlace(isFirstInGroup: bool, isLastInGroup: bool)

  /** `group.map((msg, mIdx) => ({ first: mIdx === 0, last: mIdx === group.length - 1 }))` */
  function GroupPlaces(g: seq<Message>): seq<BubblePlace> {
    seq(|g|, j requires 0 <= j < |g| => BubblePlace(j == 0, j == |g| - 1))
  }

  /** The bubbles of all groups, in thread order. */
  function Places(groups: seq<seq<Message>>): seq<BubblePlace> {
    if |groups| == 0 then [] else Places(groups[..|groups| - 1]) + GroupPlaces(groups[|groups| - 1])
  }

  /**
   * For the grouping of a thread, a bubble is drawn first in its group
   * exactly when its message opens the thread or does not join its
   * predecessor, and last exactly when it closes the thread or its
   * successor does not join it.
   */
  lemma {:induction false} PlacesFollowBreaks(msgs: seq<Message>, groups: seq<seq<Message>>)
    requires IsGrouping(msgs, groups)
    ensures |Places(groups)| == |msgs|
    ensures |msgs| > 0 ==> Places(groups)[0].isFirstInGroup && Places(groups)[|msgs| - 1].isLastInGroup
    ensures forall k :: 0 < k < |msgs| ==>
              Places(groups)[k].isFirstInGroup == !Joins(msgs[k - 1], msgs[k])
    ensures forall k :: 0 <= k < |msgs| - 1 ==>
              Places(groups)[k].isLastInGroup == !Joins(msgs[k], msgs[k + 1])
    decreases |groups|
  {
    if |groups| > 0 {
      var rest, g := groups[..|groups| - 1], Last(groups);
      var m' := Flatten(rest);
      var p', gp := Places(rest), GroupPlaces(g);
      assert msgs == m' + g;
      PlacesFollowBreaks(m', rest);
      var places := Places(groups);
      assert places == p' + gp;
      if |rest| > 0 {
        LastOfFlatten(rest);
        assert groups[|groups| - 2] == Last(rest);
        assert !Joins(Last(Last(rest)), g[0]);
      }
      forall k | 0 < k < |msgs|
        ensures places[k].isFirstInGroup == !Joins(msgs[k - 1], msgs[k])
      {
        if k < |m'| {
          assert places[k] == p'[k];
          assert msgs[k - 1] == m'[k - 1] && msgs[k] == m'[k];
        } else {
          var j := k - |m'|;
          assert places[k] == gp[j] && msgs[k] == g[j];
          if j > 0 {
            assert msgs[k - 1] == g[j - 1];
          } else {
            assert msgs[k - 1] == Last(Last(rest));
          }
        }
      }
      forall k | 0 <= k < |msgs| - 1
        ensures places[k].isLastInGroup == !Joins(msgs[k], msgs[k + 1])
      {
        if k < |m'| {
          assert places[k] == p'[k] && msgs[k] == m'[k];
          if k < |m'| - 1 {
            assert msgs[k + 1] == m'[k + 1];
          } else {
            assert msgs[k] == Last(Last(rest)) && msgs[k + 1] == g[0];
          }
        } else {
          var j := k - |m'|;
          assert places[k] == gp[j] && msgs[k] == g[j] && msgs[k + 1] == g[j + 1];
        }
      }
      if |m'| == 0 {
        assert places[0] == gp[0];
      }
    }
  }
}
