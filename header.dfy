/** The header bar (src/components/layout/Header.tsx): the unread-message and
    unread-notification badges, the notification panel that marks the
    current user's notifications read when it opens, the password-change
    handler, and the icon chosen per notification type. */
module Header {
  import opened Records
  import opened Storage
  import opened Seqs
  import App

  /** `checkUnreadMessages`: stored messages addressed to the current user
      and not yet read. A missing `userEmail` matches no recipient. */
  function UnreadMessages(msgs: seq<Msg>, me: Option<Email>): (n: nat)
    ensures n <= |msgs|
    ensures n == 0 <==> forall m :: m in msgs ==> m.read || Some(m.recipient) != me
    ensures me.None? ==> n == 0
    ensures n == |set i | 0 <= i < |msgs| && Some(msgs[i].recipient) == me && !msgs[i].read|
  {
    var p := (m: Msg) => Some(m.recipient) == me && !m.read;
    assert Positions(msgs, p) == set i | 0 <= i < |msgs| && Some(msgs[i].recipient) == me && !msgs[i].read;
    Count(msgs, p)
  }

  /** The list `checkNotifications` shows: the current user's notifications,
      in stored order. */
  function MyNotifications(ns: seq<Notif>, me: Option<Email>): (r: seq<Notif>)
    ensures |r| <= |ns|
    ensures forall x :: x in r <==> x in ns && Some(x.recipient) == me
  {
    Filter(ns, (x: Notif) => Some(x.recipient) == me)
  }

  /** The panel badge: unread records among those shown. */
  function UnreadShown(shown: seq<Notif>): (n: nat)
    ensures n <= |shown|
    ensures n == 0 <==> forall x :: x in shown ==> x.read
    ensures n == |set i | 0 <= i < |shown| && !shown[i].read|
  {
    var p := (x: Notif) => !x.read;
    assert Positions(shown, p) == set i | 0 <= i < |shown| && !shown[i].read;
    Count(shown, p)
  }

  /** The header badge (counted among the shown list) and the application's
      badge (counted over the whole store) always agree. */
  lemma {:induction false} BadgeAgreesWithShell(ns: seq<Notif>, me: Option<Email>)
    ensures UnreadShown(MyNotifications(ns, me)) == App.UnreadCount(ns, me)
  {
    if ns != [] {
      BadgeAgreesWithShell(ns[1..], me);
      var head := if Some(ns[0].recipient) == me then [ns[0]] else [];
      FilterAppend(head, MyNotifications(ns[1..], me), (x: Notif) => !x.read);
    }
  }

  /** The map callback of `handleNotificationClick`. */
  function MarkRead(n: Notif, me: Option<Email>): Notif {
    if Some(n.recipient) == me && !n.read then n.(read := true) else n
  }

  /** The rewritten notification list: same length, same order; each
      record of the current user is read afterwards and otherwise unchanged,
      every other record is untouched. */
  function MarkMineRead(ns: seq<Notif>, me: Option<Email>): (r: seq<Notif>)
    ensures |r| == |ns|
    ensures forall i :: 0 <= i < |ns| && Some(ns[i].recipient) == me ==> r[i] == ns[i].(read := true)
    ensures forall i :: 0 <= i < |ns| && Some(ns[i].recipient) != me ==> r[i] == ns[i]
  {
    seq(|ns|, i requires 0 <= i < |ns| => MarkRead(ns[i], me))
  }

  /** Right after opening the panel no notification of the current user is
      unread, by either badge's count. */
  lemma OpeningClearsBadge(ns: seq<Notif>, me: Option<Email>)
    ensures App.UnreadCount(MarkMineRead(ns, me), me) == 0
    ensures forall x :: x in MarkMineRead(ns, me) && Some(x.recipient) == me ==> x.read
  {
    var r := MarkMineRead(ns, me);
    forall x | x in r && Some(x.recipient) == me ensures x.read {
      var i :| 0 <= i < |r| && r[i] == x;
      assert r[i].recipient == ns[i].recipient;
    }
  }

  /** Every record marked read. */
  function ReadAll(ns: seq<Notif>): (r: seq<Notif>)
    ensures |r| == |ns|
    ensures forall i :: 0 <= i < |ns| ==> r[i] == ns[i].(read := true)
  {
    seq(|ns|, i requires 0 <= i < |ns| => ns[i].(read := true))
  }

  /** Marking works record by record: the first record, then the rest. */
  lemma MarkMineReadCons(ns: seq<Notif>, me: Option<Email>)
    requires ns != []
    ensures MarkMineRead(ns, me) == [MarkRead(ns[0], me)] + MarkMineRead(ns[1..], me)
  {
  }

  /** Marking every record read distributes over concatenation. */
  lemma ReadAllAppend(a: seq<Notif>, b: seq<Notif>)
    ensures ReadAll(a + b) == ReadAll(a) + ReadAll(b)
  {
    var l := ReadAll(a + b);
    var r := ReadAll(a) + ReadAll(b);
    forall i | 0 <= i < |l| ensures l[i] == r[i] {
      if i >= |a| {
        assert (a + b)[i] == b[i - |a|];
      }
    }
  }

  /** The list shown after opening is the list shown before, in the same
      order, with every record read. */
  lemma {:induction false} ShownAfterOpening(ns: seq<Notif>, me: Option<Email>)
    ensures MyNotifications(MarkMineRead(ns, me), me) == ReadAll(MyNotifications(ns, me))
  {
    if ns != [] {
      var q0 := MarkRead(ns[0], me);
      assert q0.recipient == ns[0].recipient;
      MarkMineReadCons(ns, me);
      assert ([q0] + MarkMineRead(ns[1..], me))[1..] == MarkMineRead(ns[1..], me);
      ShownAfterOpening(ns[1..], me);
      var h := if Some(ns[0].recipient) == me then [ns[0]] else [];
      ReadAllAppend(h, MyNotifications(ns[1..], me));
    }
  }

  /** Opening the panel touches no other user's record: what anyone else
      sees is unchanged. */
  lemma {:induction false} OpeningKeepsOthers(ns: seq<Notif>, me: Option<Email>, other: Option<Email>)
    requires other != me
    ensures MyNotifications(MarkMineRead(ns, me), other) == MyNotifications(ns, other)
  {
    if ns != [] {
      var r := MarkMineRead(ns, me);
      assert r[1..] == MarkMineRead(ns[1..], me);
      OpeningKeepsOthers(ns[1..], me, other);
    }
  }

  /** The panel's component state. */
  class Panel {
    var showNotifications: bool
    var notifications: seq<Notif>
    var unreadNotifications: nat
    var unreadMessages: nat

    constructor ()
      ensures !showNotifications && notifications == []
      ensures unreadNotifications == 0 && unreadMessages == 0
    {
      showNotifications := false;
      notifications := [];
      unreadNotifications := 0;
      unreadMessages := 0;
    }

    /** `checkUnreadMessages` */
    method CheckUnreadMessages(st: Store)
      modifies this`unreadMessages
      ensures unreadMessages == UnreadMessages(st.messages, App.SessionEmail(st.session))
    {
      unreadMessages := UnreadMessages(st.messages, App.SessionEmail(st.session));
    }

    /** `checkNotifications` */
    method CheckNotifications(st: Store)
      modifies this`notifications, this`unreadNotifications
      ensures notifications == MyNotifications(st.notifications, App.SessionEmail(st.session))
      ensures unreadNotifications == App.UnreadCount(st.notifications, App.SessionEmail(st.session))
    {
      var me := App.SessionEmail(st.session);
      notifications := MyNotifications(st.notifications, me);
      unreadNotifications := UnreadShown(notifications);
      BadgeAgreesWithShell(st.notifications, me);
    }

    /** `handleNotificationClick`: opening marks the current user's records
      read, clears the badge and shows the rewritten list; closing only
      hides the panel and writes nothing. */
    method NotificationClick(st: Store)
      modifies this`showNotifications, this`notifications, this`unreadNotifications, st`notifications
      ensures showNotifications == !old(showNotifications)
      ensures old(showNotifications) ==>
        st.notifications == old(st.notifications) && notifications == old(notifications)
        && unreadNotifications == old(unreadNotifications)
      ensures !old(showNotifications) ==>
        var me := App.SessionEmail(st.session);
        st.notifications == MarkMineRead(old(st.notifications), me)
        && notifications == ReadAll(MyNotifications(old(st.notifications), me))
        && unreadNotifications == 0
    {
      if !showNotifications {
        var me := App.SessionEmail(st.session);
        var updated := MarkMineRead(st.notifications, me);
        ShownAfterOpening(st.notifications, me);
        st.notifications := updated;
        unreadNotifications := 0;
        notifications := MyNotifications(updated, me);
      }
      showNotifications := !showNotifications;
    }
  }

  /** `{...cred, customPassword}` on every credential of `email`. */
  function SetCustomPassword(creds: seq<Cred>, email: Email, password: string): (r: seq<Cred>)
    ensures |r| == |creds|
    ensures forall i :: 0 <= i < |creds| && creds[i].email == email ==>
      r[i] == creds[i].(customPassword := password)
    ensures forall i :: 0 <= i < |creds| && creds[i].email != email ==> r[i] == creds[i]
  {
    seq(|creds|, i requires 0 <= i < |creds| =>
      if creds[i].email == email then creds[i].(customPassword := password) else creds[i])
  }

  /** After a change the new password opens every credential of that email
      (the first one is the one login consults). */
  lemma NewPasswordLogsIn(creds: seq<Cred>, email: Email, password: string)
    requires password != "" && password != AdminPass
    requires App.FindCred(creds, email).Some?
    ensures App.LoginRule(SetCustomPassword(creds, email, password), email, password)
            == Some(App.Grant(UserToken, false))
  {
    var r := SetCustomPassword(creds, email, password);
    App.FindCredSamePlace(creds, r, email);
    var k :| 0 <= k < |creds| && App.FindCred(creds, email) == Some(creds[k])
             && App.FindCred(r, email) == Some(r[k]);
  }

  /** `handlePasswordChange`: with a (non-empty) stored email, every
      credential of that email gets the new custom password; without one,
      nothing is written. */
  method PasswordChange(st: Store, newPassword: string)
    modifies st`credentials
    ensures var me := App.SessionEmail(st.session);
      if Truthy(me) then st.credentials == SetCustomPassword(old(st.credentials), me.value, newPassword)
      else st.credentials == old(st.credentials)
  {
    var me := App.SessionEmail(st.session);
    if Truthy(me) {
      st.credentials := SetCustomPassword(st.credentials, me.value, newPassword);
    }
  }

  // ---- getNotificationIcon -----------------------------------------------

  /** The six glyphs the panel draws: heart, thumbs up, speech balloon,
      warning sign, bell, and the loudspeaker used for anything else. */
  datatype Icon = Heart | ThumbsUpGlyph | SpeechBalloon | WarningSign | Bell | Loudspeaker

  const NamedTypes: set<string> := {"like", "thumbsUp", "comment", "warning", "system"}

  /** `getNotificationIcon`: a switch on the stored `type` string. */
  function NotificationIcon(t: string): (i: Icon)
    ensures i == Loudspeaker <==> t !in NamedTypes
  {
    if t == "like" then Heart
    else if t == "thumbsUp" then ThumbsUpGlyph
    else if t == "comment" then SpeechBalloon
    else if t == "warning" then WarningSign
    else if t == "system" then Bell
    else Loudspeaker
  }

  /** The five named types get five different icons; the 'message' kind the
      directory creates is not among them and falls to the default. */
  lemma IconsDistinct(a: string, b: string)
    requires a in NamedTypes && b in NamedTypes && a != b
    ensures NotificationIcon(a) != NotificationIcon(b)
  {
  }

  lemma MessageKindGetsDefaultIcon()
    ensures NotificationIcon(KindTag(MessageKind)) == Loudspeaker
    ensures forall k :: k != MessageKind ==> NotificationIcon(KindTag(k)) != Loudspeaker
  {
  }
}
