/** The member directory (src/components/messaging/MemberDirectory.tsx): the
    list of members built from the stored credentials and profiles, with
    the two fixed accounts added, and sending a direct message. */
module MemberDirectory {
  import opened Records
  import opened Storage
  import opened Seqs
  import Text
  import Header
  import App

  datatype Member = Member(email: Email, name: string, businessName: string,
                           avatar: Option<string>, isAdmin: bool)

  const MikeName := "Mike"
  const AdminBusinessName := "Connecticut Cannabis Small Business Alliance"

  /** The entry of one credential: `profile.name || cred.email`,
      `profile.businessName || ''`, `profile.avatar`; an absent profile reads
      as `{}`. */
  function EntryOf(profiles: map<Email, Profile>, email: Email): (m: Member)
    ensures m.email == email && !m.isAdmin
    ensures email !in profiles ==> m.name == email && m.businessName == "" && m.avatar == None
    ensures email in profiles ==> m.name == Or(profiles[email].name, email)
                                  && m.businessName == profiles[email].businessName
                                  && m.avatar == profiles[email].avatar
  {
    if email in profiles then
      Member(email, Or(profiles[email].name, email), profiles[email].businessName, profiles[email].avatar, false)
    else Member(email, email, "", None, false)
  }

  /** `credentials.map(...)`: one entry per credential, in stored order. */
  function Entries(creds: seq<Cred>, profiles: map<Email, Profile>): (r: seq<Member>)
    ensures |r| == |creds|
    ensures forall i :: 0 <= i < |creds| ==> r[i] == EntryOf(profiles, creds[i].email)
  {
    seq(|creds|, i requires 0 <= i < |creds| => EntryOf(profiles, creds[i].email))
  }

  /** Mike's entry: his profile's name, else 'Mike', and his profile's
      business name and avatar; an absent profile reads as `{}`. */
  function MikeEntry(profiles: map<Email, Profile>): (m: Member)
    ensures m.email == BoardOperatorEmail && !m.isAdmin
    ensures BoardOperatorEmail !in profiles ==> m.name == MikeName && m.businessName == "" && m.avatar == None
    ensures BoardOperatorEmail in profiles ==>
      var p := profiles[BoardOperatorEmail];
      m.name == Or(p.name, MikeName) && m.businessName == p.businessName && m.avatar == p.avatar
  {
    if BoardOperatorEmail in profiles then
      var p := profiles[BoardOperatorEmail];
      Member(BoardOperatorEmail, Or(p.name, MikeName), p.businessName, p.avatar, false)
    else Member(BoardOperatorEmail, MikeName, "", None, false)
  }

  /** The fixed operator entry. */
  const AdminEntry := Member(OperatorEmail, AdminName, AdminBusinessName, None, true)

  /** The list before filtering and sorting: the credentials' entries, Mike
      when no entry has his address, and the operator unless that is who is
      looking. */
  function Collected(creds: seq<Cred>, profiles: map<Email, Profile>, me: Option<Email>): (r: seq<Member>)
    ensures |r| >= |creds| && r[..|creds|] == Entries(creds, profiles)
    ensures var mike := if exists i :: 0 <= i < |creds| && creds[i].email == BoardOperatorEmail
                        then [] else [MikeEntry(profiles)];
            var admin := if me != Some(OperatorEmail) then [AdminEntry] else [];
            r == Entries(creds, profiles) + mike + admin
  {
    var base := Entries(creds, profiles);
    var mikeExists := exists i :: 0 <= i < |base| && base[i].email == BoardOperatorEmail;
    var withMike := if mikeExists then base else base + [MikeEntry(profiles)];
    var all := if me != Some(OperatorEmail) then withMike + [AdminEntry] else withMike;
    assert all[..|creds|] == base;
    all
  }

  // ---- ordering --------------------------------------------------------------

  /** Lexicographic order on code points, standing in for `localeCompare`. */
  predicate StrLeq(a: string, b: string) {
    a == [] || (b != [] && (a[0] < b[0] || (a[0] == b[0] && StrLeq(a[1..], b[1..]))))
  }

  lemma {:induction false} StrLeqTotal(a: string, b: string)
    ensures StrLeq(a, b) || StrLeq(b, a)
  {
    if a != [] && b != [] && a[0] == b[0] {
      StrLeqTotal(a[1..], b[1..]);
    }
  }

  lemma {:induction false} StrLeqTrans(a: string, b: string, c: string)
    requires StrLeq(a, b) && StrLeq(b, c)
    ensures StrLeq(a, c)
  {
    if a != [] && b != [] && c != [] && a[0] == b[0] && b[0] == c[0] {
      StrLeqTrans(a[1..], b[1..], c[1..]);
    }
  }

  /** The sort key: `name || email`. */
  function Key(m: Member): string {
    Or(m.name, m.email)
  }

  ghost predicate SortedByKey(s: seq<Member>) {
    forall i, j :: 0 <= i < j < |s| ==> StrLeq(Key(s[i]), Key(s[j]))
  }

  function InsertByKey(x: Member, s: seq<Member>): (r: seq<Member>)
    ensures |r| == |s| + 1
    ensures multiset(r) == multiset(s) + multiset{x}
  {
    if s == [] || StrLeq(Key(x), Key(s[0])) then [x] + s
    else
      assert s == [s[0]] + s[1..];
      [s[0]] + InsertByKey(x, s[1..])
  }

  /** An element below every member of a sorted list can go in front. */
  lemma PrependSorted(h: Member, s: seq<Member>)
    requires SortedByKey(s)
    requires forall y :: y in s ==> StrLeq(Key(h), Key(y))
    ensures SortedByKey([h] + s)
  {
    var r := [h] + s;
    forall i, j | 0 <= i < j < |r| ensures StrLeq(Key(r[i]), Key(r[j])) {
      assert r[j] == s[j - 1];
      if i > 0 {
        assert r[i] == s[i - 1];
      }
    }
  }

  lemma {:induction false} InsertByKeyKeepsSorted(x: Member, s: seq<Member>)
    requires SortedByKey(s)
    ensures SortedByKey(InsertByKey(x, s))
  {
    if s == [] {
    } else if StrLeq(Key(x), Key(s[0])) {
      forall y | y in s ensures StrLeq(Key(x), Key(y)) {
        var k :| 0 <= k < |s| && s[k] == y;
        if k > 0 {
          StrLeqTrans(Key(x), Key(s[0]), Key(y));
        }
      }
      PrependSorted(x, s);
    } else {
      StrLeqTotal(Key(x), Key(s[0]));
      var rest := InsertByKey(x, s[1..]);
      InsertByKeyKeepsSorted(x, s[1..]);
      forall y | y in rest ensures StrLeq(Key(s[0]), Key(y)) {
        assert y in multiset(rest);
        if y != x {
          assert y in multiset(s[1..]);
          var k :| 0 <= k < |s[1..]| && s[1..][k] == y;
          assert s[k + 1] == y;
        }
      }
      PrependSorted(s[0], rest);
    }
  }

  /** `.sort((a, b) => (a.name || a.email).localeCompare(b.name || b.email))` */
  function SortByKey(s: seq<Member>): (r: seq<Member>)
    ensures multiset(r) == multiset(s)
    ensures SortedByKey(r)
  {
    if s == [] then []
    else
      assert s == [s[0]] + s[1..];
      var rest := SortByKey(s[1..]);
      InsertByKeyKeepsSorted(s[0], rest);
      InsertByKey(s[0], rest)
  }

  /** The mount effect's result: the collected entries without the current
      user, sorted by name (or email when the name is empty). */
  function Directory(creds: seq<Cred>, profiles: map<Email, Profile>, me: Option<Email>): (r: seq<Member>)
    ensures SortedByKey(r)
    ensures multiset(r) == multiset(Filter(Collected(creds, profiles, me), (m: Member) => Some(m.email) != me))
  {
    SortByKey(Filter(Collected(creds, profiles, me), (m: Member) => Some(m.email) != me))
  }

  /** The current user is never listed, and every listed entry is a
      credential's, Mike's or the operator's. */
  lemma DirectoryMembers(creds: seq<Cred>, profiles: map<Email, Profile>, me: Option<Email>, m: Member)
    ensures m in Directory(creds, profiles, me) <==>
      m in Collected(creds, profiles, me) && Some(m.email) != me
  {
    var f := Filter(Collected(creds, profiles, me), (x: Member) => Some(x.email) != me);
    var r := Directory(creds, profiles, me);
    assert m in r <==> m in multiset(r);
    assert m in f <==> m in multiset(f);
  }

  /** Mike is added once, and only when no credential already has his
      address; the operator entry is added whenever someone else looks. */
  lemma FixedEntries(creds: seq<Cred>, profiles: map<Email, Profile>, me: Option<Email>)
    ensures var n := |Collected(creds, profiles, me)|;
            var mikeExists := exists i :: 0 <= i < |creds| && creds[i].email == BoardOperatorEmail;
            n == |creds| + (if mikeExists then 0 else 1) + (if me != Some(OperatorEmail) then 1 else 0)
    ensures me != Some(OperatorEmail) ==> AdminEntry in Directory(creds, profiles, me)
  {
    var c := Collected(creds, profiles, me);
    if me != Some(OperatorEmail) {
      assert c[|c| - 1] == AdminEntry;
      DirectoryMembers(creds, profiles, me, AdminEntry);
    }
  }

  // ---- sendMessage -----------------------------------------------------------

  function NewMessage(me: Email, to: Member, content: string, nid: string, now: int): (m: Msg)
    ensures m.sender == me && m.recipient == to.email && m.content == content && !m.read
  {
    Msg(nid, me, to.email, content, now, false, None)
  }

  function MessageNotif(actor: string, to: Member, nid: string, now: int): (n: Notif)
    ensures n.kind == MessageKind && !n.read && n.recipient == to.email && n.actorName == actor
  {
    Notif(nid, MessageKind, "sent you a message", actor, to.email, now, false, None, None, None)
  }

  /** A sent message raises the recipient's unread-message badge by one and
      leaves everybody else's as it was. */
  lemma SendRaisesRecipientBadge(msgs: seq<Msg>, m: Msg, who: Email)
    requires !m.read
    ensures Header.UnreadMessages(msgs + [m], Some(who))
            == Header.UnreadMessages(msgs, Some(who)) + (if m.recipient == who then 1 else 0)
  {
    FilterAppend(msgs, [m], (x: Msg) => Some(x.recipient) == Some(who) && !x.read);
    assert [m][1..] == [];
  }

  /** The directory panel's component state. */
  class Panel {
    var members: seq<Member>
    var selected: Option<Member>
    var draft: string

    constructor (st: Store)
      ensures members == Directory(st.credentials, st.profiles, App.SessionEmail(st.session))
      ensures selected == None && draft == ""
    {
      members := Directory(st.credentials, st.profiles, App.SessionEmail(st.session));
      selected := None;
      draft := "";
    }

    /** `sendMessage`: ignored without a selected member or with a blank
        text. Otherwise the message is pushed onto the stored messages, one
        'message' notification is unshifted for the recipient, and the form
        is reset. */
    method SendMessage(st: Store, me: Email, nid: string, now: int)
      modifies this`selected, this`draft, st`messages, st`notifications
      ensures old(selected).None? || Text.IsBlank(old(draft)) ==>
        st.messages == old(st.messages) && st.notifications == old(st.notifications)
        && selected == old(selected) && draft == old(draft)
      ensures old(selected).Some? && !Text.IsBlank(old(draft)) ==>
        st.messages == old(st.messages) + [NewMessage(me, old(selected).value, old(draft), nid, now)]
        && st.notifications == [MessageNotif(ActorName(st.profiles, me), old(selected).value, nid, now)]
                               + old(st.notifications)
        && selected == None && draft == ""
    {
      if selected.None? || Text.IsBlank(draft) {
        return;
      }
      var to := selected.value;
      st.messages := st.messages + [NewMessage(me, to, draft, nid, now)];
      st.notifications := [MessageNotif(ActorName(st.profiles, me), to, nid, now)] + st.notifications;
      draft := "";
      selected := None;
    }
  }
}
