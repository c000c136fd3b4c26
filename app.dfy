/** The application shell (src/App.tsx): the login rule chain over the
    hard-coded passphrases and the stored credentials, logout, the admin flag
    derived at start-up, and the unread-notification badge. */
module App {
  import opened Records
  import opened Storage
  import opened Seqs

  /** `credentials.find(cred => cred.email === email)`: exact, case-sensitive,
      first match wins. */
  function FindCred(creds: seq<Cred>, email: Email): (r: Option<Cred>)
    ensures r.None? <==> forall i :: 0 <= i < |creds| ==> creds[i].email != email
    ensures r.Some? ==> r.value.email == email
    ensures r.Some? ==> exists i :: 0 <= i < |creds| && creds[i] == r.value
                                    && forall j :: 0 <= j < i ==> creds[j].email != email
  {
    Find(creds, (c: Cred) => c.email == email)
  }

  /** Two credential lists whose addresses agree position by position find
      the first credential of an address at the same position. */
  lemma FindCredSamePlace(a: seq<Cred>, b: seq<Cred>, email: Email)
    requires |a| == |b|
    requires forall j :: 0 <= j < |a| ==> a[j].email == b[j].email
    ensures FindCred(a, email).None? <==> FindCred(b, email).None?
    ensures FindCred(a, email).Some? ==>
      exists k :: 0 <= k < |a| && FindCred(a, email) == Some(a[k]) && FindCred(b, email) == Some(b[k])
  {
    if FindCred(a, email).Some? {
      var k :| 0 <= k < |a| && a[k] == FindCred(a, email).value
               && forall j :: 0 <= j < k ==> a[j].email != email;
      assert b[k].email == email;
      var k' :| 0 <= k' < |b| && b[k'] == FindCred(b, email).value
                && forall j :: 0 <= j < k' ==> b[j].email != email;
      assert FindCred(b, email).Some?;
      assert FindCred(b, email).value.email == email;
      assert b[k'].email == email;
      assert a[k'].email == email;
      assert k == k';
    }
  }

  /** What a successful login writes: the `authToken` value and the admin flag. */
  datatype Grant = Grant(token: string, admin: bool)

  // The four rules of `handleLogin`, in the order they are tried.

  predicate OperatorRule(email: Email, password: string) {
    IsOperator(email) && password == AdminPass
  }

  predicate BoardRule(user: Option<Cred>, password: string) {
    user.Some? && user.value.isAdmin && password == AdminPass
  }

  predicate CustomRule(user: Option<Cred>, password: string) {
    user.Some? && user.value.customPassword != "" && password == user.value.customPassword
  }

  predicate MemberRule(user: Option<Cred>, password: string) {
    user.Some? && !user.value.isAdmin && password == MemberPass
  }

  /** `handleLogin` as a value: the first rule that matches decides; no rule
      matching is the thrown 'Invalid credentials'. */
  function LoginRule(creds: seq<Cred>, email: Email, password: string): (r: Option<Grant>)
    ensures r.Some? <==>
      var user := FindCred(creds, email);
      OperatorRule(email, password) || BoardRule(user, password)
      || CustomRule(user, password) || MemberRule(user, password)
    ensures r.Some? ==> (r.value.admin <==> r.value.token != UserToken)
    ensures r.Some? && r.value.admin <==>
      OperatorRule(email, password) || BoardRule(FindCred(creds, email), password)
  {
    var user := FindCred(creds, email);
    if OperatorRule(email, password) then Some(Grant(AdminToken, true))
    else if BoardRule(user, password) then Some(Grant(BoardToken, true))
    else if CustomRule(user, password) then Some(Grant(UserToken, false))
    else if MemberRule(user, password) then Some(Grant(UserToken, false))
    else None
  }

  /** Either operator address with the admin passphrase gets the operator
      token, whatever the credentials hold. */
  lemma OperatorLogin(creds: seq<Cred>, email: Email)
    requires IsOperator(email)
    ensures LoginRule(creds, email, AdminPass) == Some(Grant(AdminToken, true))
  {
  }

  /** An admin-flagged credential with the admin passphrase gets the board
      token (unless the address is an operator's, which rule one serves). */
  lemma BoardLogin(creds: seq<Cred>, email: Email)
    requires !IsOperator(email)
    requires FindCred(creds, email).Some? && FindCred(creds, email).value.isAdmin
    ensures LoginRule(creds, email, AdminPass) == Some(Grant(BoardToken, true))
  {
  }

  /** A matching custom password logs in as a member, even on an
      admin-flagged credential. */
  lemma CustomPasswordLogin(creds: seq<Cred>, email: Email, c: Cred)
    requires FindCred(creds, email) == Some(c)
    requires c.customPassword != "" && c.customPassword != AdminPass
    ensures LoginRule(creds, email, c.customPassword) == Some(Grant(UserToken, false))
  {
  }

  /** Setting a custom password does not retire the member passphrase. */
  lemma MemberPassphraseSurvivesCustomPassword(creds: seq<Cred>, email: Email)
    requires FindCred(creds, email).Some? && !FindCred(creds, email).value.isAdmin
    ensures LoginRule(creds, email, MemberPass) == Some(Grant(UserToken, false))
  {
  }

  /** An admin-flagged credential never logs in with the member passphrase,
      unless its own custom password happens to be that passphrase. */
  lemma AdminRefusesMemberPassphrase(creds: seq<Cred>, email: Email)
    requires FindCred(creds, email).Some? && FindCred(creds, email).value.isAdmin
    requires FindCred(creds, email).value.customPassword != MemberPass
    ensures LoginRule(creds, email, MemberPass) == None
  {
  }

  /** An address with no credential and no operator role cannot log in. */
  lemma UnknownEmailRefused(creds: seq<Cred>, email: Email, password: string)
    requires !IsOperator(email)
    requires forall i :: 0 <= i < |creds| ==> creds[i].email != email
    ensures LoginRule(creds, email, password) == None
  {
  }

  /** The admin flag the start-up effect derives from the stored email. */
  predicate DerivedAdmin(creds: seq<Cred>, email: Email) {
    IsOperator(email) || (FindCred(creds, email).Some? && FindCred(creds, email).value.isAdmin)
  }

  /** Whoever logs in as admin is still admin after a reload. */
  lemma AdminLoginSurvivesReload(creds: seq<Cred>, email: Email, password: string)
    requires LoginRule(creds, email, password).Some? && LoginRule(creds, email, password).value.admin
    ensures DerivedAdmin(creds, email)
  {
  }

  /** The converse fails: a board member who logs in with a custom password
      gets a member session, and the start-up effect makes it an admin one
      on the next reload. */
  lemma CustomPasswordBoardMemberPromotedOnReload()
    ensures var creds := [Cred("board@example.org", AdminPass, 0, true, "secret-pass", true)];
            LoginRule(creds, "board@example.org", "secret-pass") == Some(Grant(UserToken, false))
            && DerivedAdmin(creds, "board@example.org")
  {
  }

  /** The stored email as the components read it (`null` when logged out). */
  function SessionEmail(s: Option<Session>): (r: Option<Email>)
    ensures r.Some? <==> s.Some?
    ensures s.Some? ==> r.value == s.value.email
  {
    if s.Some? then Some(s.value.email) else None
  }

  /** `notifications.filter(n => !n.read && n.recipient === userEmail).length` */
  function UnreadCount(notifs: seq<Notif>, me: Option<Email>): (n: nat)
    ensures n <= |notifs|
    ensures n == 0 <==> forall x :: x in notifs ==> x.read || Some(x.recipient) != me
    ensures me.None? ==> n == 0
    ensures n == |set i | 0 <= i < |notifs| && !notifs[i].read && Some(notifs[i].recipient) == me|
  {
    var p := (x: Notif) => !x.read && Some(x.recipient) == me;
    assert Positions(notifs, p) == set i | 0 <= i < |notifs| && !notifs[i].read && Some(notifs[i].recipient) == me;
    Count(notifs, p)
  }

  datatype View = FeedView | UsersView | ProfileView

  /** The component state of `App`. */
  class Shell {
    var isLoggedIn: bool
    var isAdmin: bool
    var currentView: View
    var notificationCount: nat

    constructor ()
      ensures !isLoggedIn && !isAdmin && currentView == FeedView && notificationCount == 0
    {
      isLoggedIn := false;
      isAdmin := false;
      currentView := FeedView;
      notificationCount := 0;
    }

    /** The mount effect: a stored token logs the user back in with the
        derived admin flag; the badge is loaded either way. */
    method Startup(st: Store)
      modifies this`isLoggedIn, this`isAdmin, this`notificationCount
      ensures st.session.Some? ==> isLoggedIn && isAdmin == DerivedAdmin(st.credentials, st.session.value.email)
      ensures st.session.None? ==> isLoggedIn == old(isLoggedIn) && isAdmin == old(isAdmin)
      ensures notificationCount == UnreadCount(st.notifications, SessionEmail(st.session))
    {
      if st.session.Some? {
        isLoggedIn := true;
        var email := st.session.value.email;
        var user := FindCred(st.credentials, email);
        isAdmin := IsOperator(email) || (user.Some? && user.value.isAdmin);
      }
      notificationCount := UnreadCount(st.notifications, SessionEmail(st.session));
    }

    /** `handleLogin`. Returns false where the source throws; then neither
        storage key nor component flag is written. */
    method Login(st: Store, email: Email, password: string) returns (ok: bool)
      modifies this`isLoggedIn, this`isAdmin, st`session
      ensures ok <==> LoginRule(st.credentials, email, password).Some?
      ensures ok ==> var g := LoginRule(st.credentials, email, password).value;
                     st.session == Some(Session(email, g.token)) && isLoggedIn && isAdmin == g.admin
      ensures !ok ==> st.session == old(st.session) && isLoggedIn == old(isLoggedIn)
                      && isAdmin == old(isAdmin)
    {
      var user := FindCred(st.credentials, email);
      if IsOperator(email) && password == AdminPass {
        st.session := Some(Session(email, AdminToken));
        isAdmin := true;
        isLoggedIn := true;
        return true;
      }
      if user.Some? && user.value.isAdmin && password == AdminPass {
        st.session := Some(Session(email, BoardToken));
        isAdmin := true;
        isLoggedIn := true;
        return true;
      }
      if user.Some? && user.value.customPassword != "" && password == user.value.customPassword {
        st.session := Some(Session(email, UserToken));
        isLoggedIn := true;
        isAdmin := false;
        return true;
      }
      if user.Some? && !user.value.isAdmin && password == MemberPass {
        st.session := Some(Session(email, UserToken));
        isLoggedIn := true;
        isAdmin := false;
        return true;
      }
      return false;
    }

    /** `handleLogout`: both session keys go, the flags drop, the view
        returns to the feed. */
    method Logout(st: Store)
      modifies this`isLoggedIn, this`isAdmin, this`currentView, st`session
      ensures st.session == None && !isLoggedIn && !isAdmin && currentView == FeedView
    {
      st.session := None;
      isLoggedIn := false;
      isAdmin := false;
      currentView := FeedView;
    }

    /** `handleNotification`: the badge is recomputed from the store. */
    method HandleNotification(st: Store)
      modifies this`notificationCount
      ensures notificationCount == UnreadCount(st.notifications, SessionEmail(st.session))
    {
      notificationCount := UnreadCount(st.notifications, SessionEmail(st.session));
    }
  }
}
