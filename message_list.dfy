/** The inbox (src/components/messaging/MessageList.tsx): loading marks every
    inbound message read, the conversation list has one entry per
    counterpart, a conversation is the pair's messages in time order, and a
    reply is sent to the other party of the selected message. */
module MessageList {
  import opened Records
  import opened Storage
  import opened Seqs
  import Text
  import Header

  /** The message was sent or received by `me`. A missing `userEmail`
      touches nothing. */
  predicate Touches(m: Msg, me: Option<Email>) {
    Some(m.sender) == me || Some(m.recipient) == me
  }

  /** The in-memory list `loadMessages` keeps: the user's messages as they
      were stored before the read flags were set. */
  function UserMessages(all: seq<Msg>, me: Option<Email>): (r: seq<Msg>)
    ensures |r| <= |all|
    ensures forall m :: m in r <==> m in all && Touches(m, me)
  {
    Filter(all, (m: Msg) => Touches(m, me))
  }

  /** What `loadMessages` writes back: every message addressed to `me`
      becomes read, whichever counterpart sent it; the rest is untouched. */
  function MarkInboundRead(all: seq<Msg>, me: Option<Email>): (r: seq<Msg>)
    ensures |r| == |all|
    ensures forall i :: 0 <= i < |all| && Some(all[i].recipient) == me ==> r[i] == all[i].(read := true)
    ensures forall i :: 0 <= i < |all| && Some(all[i].recipient) != me ==> r[i] == all[i]
  {
    seq(|all|, i requires 0 <= i < |all| =>
      if Some(all[i].recipient) == me then all[i].(read := true) else all[i])
  }

  /** After a load the header's unread-message badge is zero. */
  lemma LoadClearsHeaderBadge(all: seq<Msg>, me: Option<Email>)
    ensures Header.UnreadMessages(MarkInboundRead(all, me), me) == 0
  {
    var r := MarkInboundRead(all, me);
    forall m | m in r ensures m.read || Some(m.recipient) != me {
      var i :| 0 <= i < |r| && r[i] == m;
      assert r[i].recipient == all[i].recipient;
    }
  }

  /** `message.sender === me ? message.recipient : message.sender` */
  function OtherParty(m: Msg, me: Option<Email>): (u: Email)
    ensures Some(m.sender) == me ==> u == m.recipient
    ensures Some(m.sender) != me ==> u == m.sender
  {
    if Some(m.sender) == me then m.recipient else m.sender
  }

  // ---- getConversation ---------------------------------------------------

  /** The filter of `getConversation`: messages between `me` and `other`,
      in either direction. */
  predicate Between(m: Msg, me: Option<Email>, other: Email) {
    (Some(m.sender) == me && m.recipient == other) || (m.sender == other && Some(m.recipient) == me)
  }

  ghost predicate SortedByTime(s: seq<Msg>) {
    forall i, j :: 0 <= i < j < |s| ==> s[i].timestamp <= s[j].timestamp
  }

  /** Inserts `x` before the first message not older than it. */
  function InsertByTime(x: Msg, s: seq<Msg>): (r: seq<Msg>)
    ensures |r| == |s| + 1
    ensures multiset(r) == multiset(s) + multiset{x}
  {
    if s == [] || x.timestamp <= s[0].timestamp then [x] + s
    else
      assert s == [s[0]] + s[1..];
      [s[0]] + InsertByTime(x, s[1..])
  }

  /** A message no newer than any of a sorted list can go in front. */
  lemma PrependSortedByTime(h: Msg, s: seq<Msg>)
    requires SortedByTime(s)
    requires forall y :: y in s ==> h.timestamp <= y.timestamp
    ensures SortedByTime([h] + s)
  {
    var r := [h] + s;
    forall i, j | 0 <= i < j < |r| ensures r[i].timestamp <= r[j].timestamp {
      assert r[j] == s[j - 1];
      if i > 0 {
        assert r[i] == s[i - 1];
      }
    }
  }

  /** Inserting into a sorted list keeps it sorted. */
  lemma {:induction false} InsertKeepsSorted(x: Msg, s: seq<Msg>)
    requires SortedByTime(s)
    ensures SortedByTime(InsertByTime(x, s))
  {
    if s == [] {
    } else if x.timestamp <= s[0].timestamp {
      forall y | y in s ensures x.timestamp <= y.timestamp {
        var k :| 0 <= k < |s| && s[k] == y;
      }
      PrependSortedByTime(x, s);
    } else {
      var rest := InsertByTime(x, s[1..]);
      InsertKeepsSorted(x, s[1..]);
      forall y | y in rest ensures s[0].timestamp <= y.timestamp {
        assert y in multiset(rest);
        if y != x {
          assert y in multiset(s[1..]);
          var k :| 0 <= k < |s[1..]| && s[1..][k] == y;
          assert s[k + 1] == y;
        }
      }
      PrependSortedByTime(s[0], rest);
    }
  }

  /** `.sort((a, b) => a.timestamp - b.timestamp)`, as an insertion sort. */
  function SortByTime(s: seq<Msg>): (r: seq<Msg>)
    ensures |r| == |s|
    ensures multiset(r) == multiset(s)
    ensures SortedByTime(r)
  {
    if s == [] then []
    else
      assert s == [s[0]] + s[1..];
      var rest := SortByTime(s[1..]);
      InsertKeepsSorted(s[0], rest);
      InsertByTime(s[0], rest)
  }

  /** The messages sent at time `t`. */
  function AtTime(t: int): Msg -> bool {
    (m: Msg) => m.timestamp == t
  }

  /** Inserting `x` puts it in front of every message of its own time and
      leaves the messages of any other time as they were. */
  lemma {:induction false} InsertAtTime(x: Msg, s: seq<Msg>, t: int)
    ensures Filter(InsertByTime(x, s), AtTime(t))
            == (if x.timestamp == t then [x] else []) + Filter(s, AtTime(t))
  {
    if s == [] || x.timestamp <= s[0].timestamp {
      assert ([x] + s)[1..] == s;
    } else {
      InsertAtTime(x, s[1..], t);
      assert ([s[0]] + InsertByTime(x, s[1..]))[1..] == InsertByTime(x, s[1..]);
    }
  }

  /** The sort is stable: the messages of any one time keep their order. */
  lemma {:induction false} SortByTimeStable(s: seq<Msg>, t: int)
    ensures Filter(SortByTime(s), AtTime(t)) == Filter(s, AtTime(t))
  {
    if s != [] {
      SortByTimeStable(s[1..], t);
      InsertAtTime(s[0], SortByTime(s[1..]), t);
    }
  }

  /** `getConversation(selected)` over the in-memory list. */
  function Conversation(ms: seq<Msg>, me: Option<Email>, selected: Msg): (r: seq<Msg>)
    ensures SortedByTime(r)
    ensures multiset(r) == multiset(Filter(ms, (m: Msg) => Between(m, me, OtherParty(selected, me))))
  {
    SortByTime(Filter(ms, (m: Msg) => Between(m, me, OtherParty(selected, me))))
  }

  /** A conversation holds exactly the pair's messages, each as often as it
      is in the list. */
  lemma ConversationIsThePair(ms: seq<Msg>, me: Option<Email>, selected: Msg, m: Msg)
    ensures m in Conversation(ms, me, selected) <==> m in ms && Between(m, me, OtherParty(selected, me))
  {
    var f := Filter(ms, (x: Msg) => Between(x, me, OtherParty(selected, me)));
    var r := Conversation(ms, me, selected);
    assert m in r <==> m in multiset(r);
    assert m in f <==> m in multiset(f);
  }

  // ---- the conversation list ---------------------------------------------

  /** `getUnreadCount(u)`: unread messages from `u` to `me` in the list. */
  function UnreadFrom(ms: seq<Msg>, me: Option<Email>, u: Email): (n: nat)
    ensures n <= |ms|
    ensures n == 0 <==> forall m :: m in ms ==> m.sender != u || Some(m.recipient) != me || m.read
    ensures n == |set i | 0 <= i < |ms| && ms[i].sender == u && Some(ms[i].recipient) == me && !ms[i].read|
  {
    var p := (m: Msg) => m.sender == u && Some(m.recipient) == me && !m.read;
    assert Positions(ms, p) == set i | 0 <= i < |ms| && ms[i].sender == u && Some(ms[i].recipient) == me && !ms[i].read;
    Count(ms, p)
  }

  /** Once loaded again, the list shows nothing unread from anyone. */
  lemma ReloadShowsNothingUnread(all: seq<Msg>, me: Option<Email>, u: Email)
    ensures UnreadFrom(UserMessages(MarkInboundRead(all, me), me), me, u) == 0
  {
    var r := MarkInboundRead(all, me);
    forall m | m in UserMessages(r, me) ensures m.sender != u || Some(m.recipient) != me || m.read {
      var i :| 0 <= i < |r| && r[i] == m;
      assert r[i].recipient == all[i].recipient;
    }
  }

  /** The position where `x` first occurs in `s`. */
  ghost function FirstIndex(s: seq<Email>, x: Email): (k: nat)
    requires x in s
    ensures k < |s| && s[k] == x
    ensures forall j :: 0 <= j < k ==> s[j] != x
  {
    if s[0] == x then 0 else 1 + FirstIndex(s[1..], x)
  }

  /** Appending an element leaves the first occurrence of earlier ones. */
  lemma FirstIndexSnoc(a: seq<Email>, x: Email, y: Email)
    requires y in a
    ensures FirstIndex(a + [x], y) == FirstIndex(a, y)
  {
    var k := FirstIndex(a + [x], y);
    var k' := FirstIndex(a, y);
    assert (a + [x])[k'] == y;
  }

  /** The same, for every earlier element at once. */
  lemma FirstIndicesSnoc(a: seq<Email>, x: Email)
    ensures forall y :: y in a ==> FirstIndex(a + [x], y) == FirstIndex(a, y)
  {
    forall y | y in a ensures FirstIndex(a + [x], y) == FirstIndex(a, y) {
      FirstIndexSnoc(a, x, y);
    }
  }

  /** `Array.from(new Set(s))`: each address once, in the order of its
      first appearance in `s`. */
  function Distinct(s: seq<Email>): (r: seq<Email>)
    ensures |r| <= |s|
    ensures forall x :: x in r <==> x in s
    ensures forall i, j :: 0 <= i < j < |r| ==> r[i] != r[j]
    ensures forall i, j :: 0 <= i < j < |r| ==> FirstIndex(s, r[i]) < FirstIndex(s, r[j])
  {
    if s == [] then []
    else
      var a := s[..|s| - 1];
      var x := s[|s| - 1];
      var d := Distinct(a);
      assert s == a + [x];
      FirstIndicesSnoc(a, x);
      if x in d then d
      else
        assert FirstIndex(s, x) == |a|;
        d + [x]
  }

  /** In `ms`, a message with counterpart `u` comes before every message
      with counterpart `v`. */
  ghost predicate FirstContact(ms: seq<Msg>, me: Option<Email>, u: Email, v: Email) {
    exists k :: 0 <= k < |ms| && OtherParty(ms[k], me) == u
      && forall l :: 0 <= l <= k ==> OtherParty(ms[l], me) != v
  }

  /** The counterparts the list shows, one entry each, in the order of
      their first message. */
  function Counterparts(ms: seq<Msg>, me: Option<Email>): (r: seq<Email>)
    ensures forall i, j :: 0 <= i < j < |r| ==> r[i] != r[j]
    ensures forall u :: u in r <==> exists m :: m in ms && u == OtherParty(m, me)
    ensures forall i, j :: 0 <= i < j < |r| ==> FirstContact(ms, me, r[i], r[j])
  {
    var others := OtherParties(ms, me);
    var r := Distinct(others);
    forall i, j | 0 <= i < j < |r| ensures FirstContact(ms, me, r[i], r[j]) {
      ContactOrder(ms, me, r[i], r[j]);
    }
    r
  }

  /** The counterpart of each message, in list order. */
  function OtherParties(ms: seq<Msg>, me: Option<Email>): (r: seq<Email>)
    ensures |r| == |ms|
    ensures forall i :: 0 <= i < |ms| ==> r[i] == OtherParty(ms[i], me)
    ensures forall u :: u in r <==> exists m :: m in ms && u == OtherParty(m, me)
  {
    var others := seq(|ms|, i requires 0 <= i < |ms| => OtherParty(ms[i], me));
    assert forall u :: u in others <==> exists m :: m in ms && u == OtherParty(m, me) by {
      forall u | u in others ensures exists m :: m in ms && u == OtherParty(m, me) {
        var i :| 0 <= i < |others| && others[i] == u;
        assert ms[i] in ms;
      }
      forall u | exists m :: m in ms && u == OtherParty(m, me) ensures u in others {
        var m :| m in ms && u == OtherParty(m, me);
        var i :| 0 <= i < |ms| && ms[i] == m;
        assert others[i] == u;
      }
    }
    others
  }

  /** An earlier first occurrence among the counterparts is an earlier
      first message. */
  lemma ContactOrder(ms: seq<Msg>, me: Option<Email>, u: Email, v: Email)
    requires u in OtherParties(ms, me) && v in OtherParties(ms, me)
    requires FirstIndex(OtherParties(ms, me), u) < FirstIndex(OtherParties(ms, me), v)
    ensures FirstContact(ms, me, u, v)
  {
    var others := OtherParties(ms, me);
    var k := FirstIndex(others, u);
    assert OtherParty(ms[k], me) == u;
    forall l | 0 <= l <= k ensures OtherParty(ms[l], me) != v {
      assert others[l] == OtherParty(ms[l], me);
    }
  }

  /** The preview message of an entry: the first in the list that touches `u`. */
  function Preview(ms: seq<Msg>, u: Email): (r: Option<Msg>)
    ensures r.None? <==> forall i :: 0 <= i < |ms| ==> ms[i].sender != u && ms[i].recipient != u
    ensures r.Some? ==> r.value in ms && (r.value.sender == u || r.value.recipient == u)
    ensures r.Some? ==> exists k :: 0 <= k < |ms| && ms[k] == r.value
                                    && forall j :: 0 <= j < k ==> ms[j].sender != u && ms[j].recipient != u
  {
    Find(ms, (m: Msg) => m.sender == u || m.recipient == u)
  }

  /** Every listed counterpart has a preview: the `return null` branch of the
      list never fires. */
  lemma CounterpartHasPreview(ms: seq<Msg>, me: Option<Email>, u: Email)
    requires u in Counterparts(ms, me)
    ensures Preview(ms, u).Some?
  {
    var m :| m in ms && u == OtherParty(m, me);
    var i :| 0 <= i < |ms| && ms[i] == m;
    assert ms[i].sender == u || ms[i].recipient == u;
  }

  // ---- replies -------------------------------------------------------------

  /** The message `handleSendReply` creates. */
  function ReplyTo(selected: Msg, me: Email, content: string, nid: string, now: int): (m: Msg)
    ensures m.sender == me && m.recipient == OtherParty(selected, Some(me))
    ensures m.content == content && !m.read
  {
    Msg(nid, me, OtherParty(selected, Some(me)), content, now, false, None)
  }

  /** The store `handleSendReply` writes, as written: the in-memory list of
      the user's messages plus the reply. */
  function ReplyWriteAsWritten(shown: seq<Msg>, reply: Msg): seq<Msg> {
    shown + [reply]
  }

  /** The store a reply should leave: everything stored, plus the reply. */
  function ReplyWrite(stored: seq<Msg>, reply: Msg): (r: seq<Msg>)
    ensures |r| == |stored| + 1 && r[..|stored|] == stored && r[|stored|] == reply
    ensures forall m :: m in stored ==> m in r
  {
    stored + [reply]
  }

  /** The reply as written loses messages between other members: here a
      stored message from b to c disappears when a replies to b. */
  lemma ReplyAsWrittenDropsOthers()
    ensures var other := Msg("1", "b@x", "c@x", "hi", 1, false, None);
            var mine := Msg("2", "b@x", "a@x", "hello", 2, false, None);
            var stored := [other, mine];
            var reply := ReplyTo(mine, "a@x", "back", "3", 3);
            other in stored && other !in ReplyWriteAsWritten(UserMessages(stored, Some("a@x")), reply)
            && other in ReplyWrite(stored, reply)
  {
    var other := Msg("1", "b@x", "c@x", "hi", 1, false, None);
    var mine := Msg("2", "b@x", "a@x", "hello", 2, false, None);
    var stored := [other, mine];
    assert "b@x" != "a@x" && "c@x" != "a@x" by {
      assert "b@x"[0] != "a@x"[0] && "c@x"[0] != "a@x"[0];
    }
    assert !Touches(other, Some("a@x")) && Touches(mine, Some("a@x"));
    var p := (m: Msg) => Touches(m, Some("a@x"));
    assert stored[1..] == [mine];
    assert [mine][1..] == [];
    assert Filter([mine], p) == [mine];
    assert Filter(stored, p) == [mine];
  }

  /** The inbox's component state. */
  class Inbox {
    const me: Option<Email>
    var messages: seq<Msg>
    var selected: Option<Msg>
    var replyContent: string

    /** Everything shown and selected belongs to the user. */
    ghost predicate Valid()
      reads this
    {
      (forall m :: m in messages ==> Touches(m, me))
      && (selected.Some? ==> Touches(selected.value, me))
    }

    constructor (me: Option<Email>)
      ensures this.me == me && messages == [] && selected == None && replyContent == ""
      ensures Valid()
    {
      this.me := me;
      messages := [];
      selected := None;
      replyContent := "";
    }

    /** `loadMessages` */
    method LoadMessages(st: Store)
      requires Valid()
      modifies this`messages, st`messages
      ensures Valid()
      ensures messages == UserMessages(old(st.messages), me)
      ensures st.messages == MarkInboundRead(old(st.messages), me)
    {
      messages := UserMessages(st.messages, me);
      st.messages := MarkInboundRead(st.messages, me);
    }

    /** Clicking a counterpart's entry opens its preview message. */
    method Open(u: Email)
      requires Valid()
      modifies this`selected
      ensures Valid()
      ensures Preview(messages, u).Some? ==> selected == Preview(messages, u)
      ensures Preview(messages, u).None? ==> selected == old(selected)
    {
      var p := Preview(messages, u);
      if p.Some? {
        selected := p;
      }
    }

    /** `handleSendReply` as written: nothing without a selection or with a
        blank reply; otherwise the list plus the reply replaces the stored
        messages. */
    method SendReplyAsWritten(st: Store, nid: string, now: int)
      requires Valid()
      modifies this`messages, this`replyContent, st`messages
      ensures Valid()
      ensures selected.None? || Text.IsBlank(old(replyContent)) ==>
        st.messages == old(st.messages) && messages == old(messages) && replyContent == old(replyContent)
      ensures selected.Some? && !Text.IsBlank(old(replyContent)) ==>
        me.Some?
        && messages == old(messages) + [ReplyTo(selected.value, me.value, old(replyContent), nid, now)]
        && st.messages == ReplyWriteAsWritten(old(messages), ReplyTo(selected.value, me.value, old(replyContent), nid, now))
        && replyContent == ""
    {
      if selected.None? || Text.IsBlank(replyContent) {
        return;
      }
      var reply := ReplyTo(selected.value, me.value, replyContent, nid, now);
      var updated := ReplyWriteAsWritten(messages, reply);
      st.messages := updated;
      messages := updated;
      replyContent := "";
    }

    /** The reply as intended: appended to the stored messages, so nothing
        already stored is lost; the list gains the reply too. */
    method SendReply(st: Store, nid: string, now: int)
      requires Valid()
      modifies this`messages, this`replyContent, st`messages
      ensures Valid()
      ensures selected.None? || Text.IsBlank(old(replyContent)) ==>
        st.messages == old(st.messages) && messages == old(messages) && replyContent == old(replyContent)
      ensures selected.Some? && !Text.IsBlank(old(replyContent)) ==>
        me.Some?
        && messages == old(messages) + [ReplyTo(selected.value, me.value, old(replyContent), nid, now)]
        && st.messages == ReplyWrite(old(st.messages), ReplyTo(selected.value, me.value, old(replyContent), nid, now))
        && replyContent == ""
    {
      if selected.None? || Text.IsBlank(replyContent) {
        return;
      }
      var reply := ReplyTo(selected.value, me.value, replyContent, nid, now);
      st.messages := ReplyWrite(st.messages, reply);
      messages := messages + [reply];
      replyContent := "";
    }
  }
}
