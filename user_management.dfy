/** Credential administration (src/components/admin/UserManagement.tsx):
    adding a member or board member, deleting one, and changing the email
    of one. Every handler validates first, returning early with an error
    message, and only then overwrites `userCredentials`. */
module UserManagement {
  import opened Records
  import opened Storage
  import opened Seqs
  import Text
  import App

  /** A row of the component's user table. */
  datatype UserRow = UserRow(email: Email, dateAdded: int, isAdmin: bool)

  /** The message line under the form. */
  datatype Notice =
    | Quiet
    | EnterEmail        // 'Please enter an email address'
    | AlreadyExists     // 'User with this email already exists'
    | Added(board: bool)
    | Deleted
    | EmailEmpty        // 'Email cannot be empty'
    | EmailTaken        // 'Email already exists'
    | EmailUpdated

  /** `existingCredentials.some(user => user.email === email)` */
  predicate Known(creds: seq<Cred>, email: Email) {
    exists i :: 0 <= i < |creds| && creds[i].email == email
  }

  /** No two credentials share an email. */
  ghost predicate UniqueEmails(creds: seq<Cred>) {
    forall i, j :: 0 <= i < j < |creds| ==> creds[i].email != creds[j].email
  }

  /** The passphrase handed to a new account: the admin one for a board
      member, the member one otherwise. */
  function InitialPassword(board: bool): (p: string)
    ensures p == AdminPass <==> board
    ensures p == MemberPass <==> !board
  {
    if board then AdminPass else MemberPass
  }

  /** The credential `validateAndAddUser` appends: the email exactly as
      typed, no custom password yet. */
  function NewCred(email: Email, board: bool, now: int): (c: Cred)
    ensures c.email == email && c.isAdmin == board && c.password == InitialPassword(board)
    ensures c.customPassword == "" && !c.isPasswordChanged
  {
    Cred(email, InitialPassword(board), now, board, "", false)
  }

  /** The welcome record unshifted for the new account. */
  function WelcomeNotif(email: Email, board: bool, nid: string, now: int): (n: Notif)
    ensures n.kind == SystemKind && !n.read && n.recipient == email && n.actorName == AdminName
    ensures n.credentials == Some((email, InitialPassword(board)))
  {
    Notif(nid, SystemKind,
          if board then "You have been added as a board member" else "Your account has been created",
          AdminName, email, now, false, None, None, Some((email, InitialPassword(board))))
  }

  /** The table the mount effect builds from the stored credentials. */
  function Rows(creds: seq<Cred>): (rows: seq<UserRow>)
    ensures |rows| == |creds|
    ensures forall i :: 0 <= i < |creds| ==>
      rows[i].email == creds[i].email && rows[i].isAdmin == creds[i].isAdmin
  {
    seq(|creds|, i requires 0 <= i < |creds| => UserRow(creds[i].email, creds[i].dateAdded, creds[i].isAdmin))
  }

  /** `handleEdit`'s rewrite: every credential of `oldEmail` gets `newEmail`;
      no other field and no other credential changes. */
  function Rename(creds: seq<Cred>, oldEmail: Email, newEmail: Email): (r: seq<Cred>)
    ensures |r| == |creds|
    ensures forall i :: 0 <= i < |creds| && creds[i].email == oldEmail ==> r[i] == creds[i].(email := newEmail)
    ensures forall i :: 0 <= i < |creds| && creds[i].email != oldEmail ==> r[i] == creds[i]
  {
    seq(|creds|, i requires 0 <= i < |creds| =>
      if creds[i].email == oldEmail then creds[i].(email := newEmail) else creds[i])
  }

  /** The same rewrite on the table rows. */
  function RenameRows(rows: seq<UserRow>, oldEmail: Email, newEmail: Email): (r: seq<UserRow>)
    ensures |r| == |rows|
    ensures forall i :: 0 <= i < |rows| && rows[i].email == oldEmail ==> r[i] == rows[i].(email := newEmail)
    ensures forall i :: 0 <= i < |rows| && rows[i].email != oldEmail ==> r[i] == rows[i]
  {
    seq(|rows|, i requires 0 <= i < |rows| =>
      if rows[i].email == oldEmail then rows[i].(email := newEmail) else rows[i])
  }

  /** The admin screen's component state. */
  class Admin {
    var newEmail: string
    var editedEmail: string
    var users: seq<UserRow>
    var message: Notice

    /** The mount effect: the table mirrors the stored credentials. */
    constructor (st: Store)
      ensures users == Rows(st.credentials) && newEmail == "" && editedEmail == "" && message == Quiet
    {
      users := Rows(st.credentials);
      newEmail := "";
      editedEmail := "";
      message := Quiet;
    }

    /** `validateAndAddUser`. A blank email (after trimming) and an email
        already present (exact match) are refused without a write. Otherwise
        the untrimmed email is appended as a new credential, a welcome
        notification is prepended, and the input is cleared. */
    method AddUser(st: Store, board: bool, nid: string, now: int)
      modifies this`users, this`message, this`newEmail, st`credentials, st`notifications
      ensures Text.IsBlank(old(newEmail)) ==>
        message == EnterEmail && st.credentials == old(st.credentials)
        && st.notifications == old(st.notifications) && users == old(users) && newEmail == old(newEmail)
      ensures !Text.IsBlank(old(newEmail)) && Known(old(st.credentials), old(newEmail)) ==>
        message == AlreadyExists && st.credentials == old(st.credentials)
        && st.notifications == old(st.notifications) && users == old(users) && newEmail == old(newEmail)
      ensures !Text.IsBlank(old(newEmail)) && !Known(old(st.credentials), old(newEmail)) ==>
        message == Added(board)
        && st.credentials == old(st.credentials) + [NewCred(old(newEmail), board, now)]
        && st.notifications == [WelcomeNotif(old(newEmail), board, nid, now)] + old(st.notifications)
        && users == old(users) + [UserRow(old(newEmail), now, board)]
        && newEmail == ""
    {
      if Text.IsBlank(newEmail) {
        message := EnterEmail;
        return;
      }
      var email := newEmail;
      if Known(st.credentials, email) {
        message := AlreadyExists;
        return;
      }
      st.credentials := st.credentials + [NewCred(email, board, now)];
      users := users + [UserRow(email, now, board)];
      st.notifications := [WelcomeNotif(email, board, nid, now)] + st.notifications;
      message := Added(board);
      newEmail := "";
    }

    /** `handleDelete`: unless the confirmation is declined, every
        credential of `email` goes and the others keep their order. */
    method Delete(st: Store, email: Email, confirmed: bool)
      modifies this`users, this`message, st`credentials
      ensures !confirmed ==> st.credentials == old(st.credentials) && users == old(users) && message == old(message)
      ensures confirmed ==>
        st.credentials == Filter(old(st.credentials), (c: Cred) => c.email != email)
        && users == Filter(old(users), (u: UserRow) => u.email != email)
        && message == Deleted
    {
      if confirmed {
        st.credentials := Filter(st.credentials, (c: Cred) => c.email != email);
        users := Filter(users, (u: UserRow) => u.email != email);
        message := Deleted;
      }
    }

    /** `handleEdit`: a blank edited email is refused; so is one that
        differs from `oldEmail` and is already present. Otherwise only the
        `email` field of the credentials of `oldEmail` changes; profiles,
        posts, messages and notifications keep the old address. */
    method Edit(st: Store, oldEmail: Email)
      modifies this`users, this`message, st`credentials
      ensures Text.IsBlank(editedEmail) ==>
        message == EmailEmpty && st.credentials == old(st.credentials) && users == old(users)
      ensures !Text.IsBlank(editedEmail) && editedEmail != oldEmail && Known(old(st.credentials), editedEmail) ==>
        message == EmailTaken && st.credentials == old(st.credentials) && users == old(users)
      ensures !Text.IsBlank(editedEmail) && (editedEmail == oldEmail || !Known(old(st.credentials), editedEmail)) ==>
        message == EmailUpdated
        && st.credentials == Rename(old(st.credentials), oldEmail, editedEmail)
        && users == RenameRows(old(users), oldEmail, editedEmail)
    {
      if Text.IsBlank(editedEmail) {
        message := EmailEmpty;
        return;
      }
      if editedEmail != oldEmail && Known(st.credentials, editedEmail) {
        message := EmailTaken;
        return;
      }
      st.credentials := Rename(st.credentials, oldEmail, editedEmail);
      users := RenameRows(users, oldEmail, editedEmail);
      message := EmailUpdated;
    }
  }

  // ---- what the handlers preserve and enable ------------------------------

  /** Adding keeps emails unique (the duplicate check is what guarantees it). */
  lemma AddKeepsEmailsUnique(creds: seq<Cred>, email: Email, board: bool, now: int)
    requires UniqueEmails(creds) && !Known(creds, email)
    ensures UniqueEmails(creds + [NewCred(email, board, now)])
  {
  }

  /** Adding the same address a second time is refused as a duplicate. */
  lemma SecondAddRefused(creds: seq<Cred>, email: Email, board: bool, now: int)
    ensures Known(creds + [NewCred(email, board, now)], email)
  {
    assert (creds + [NewCred(email, board, now)])[|creds|].email == email;
  }

  /** Renaming to an unused address (or to itself) keeps emails unique. */
  lemma RenameKeepsEmailsUnique(creds: seq<Cred>, oldEmail: Email, newEmail: Email)
    requires UniqueEmails(creds)
    requires newEmail == oldEmail || !Known(creds, newEmail)
    ensures UniqueEmails(Rename(creds, oldEmail, newEmail))
  {
    var r := Rename(creds, oldEmail, newEmail);
    forall i, j | 0 <= i < j < |r| ensures r[i].email != r[j].email {
      if creds[i].email == oldEmail {
        assert creds[j].email != oldEmail;
        assert creds[j].email != newEmail || newEmail == oldEmail;
      } else if creds[j].email == oldEmail {
        assert creds[i].email != newEmail || newEmail == oldEmail;
      }
    }
  }

  /** Deleting keeps emails unique. */
  lemma {:induction false} DeleteKeepsEmailsUnique(creds: seq<Cred>, email: Email)
    requires UniqueEmails(creds)
    ensures UniqueEmails(Filter(creds, (c: Cred) => c.email != email))
  {
    if creds != [] {
      DeleteKeepsEmailsUnique(creds[1..], email);
      var rest := Filter(creds[1..], (c: Cred) => c.email != email);
      forall x | x in rest ensures x.email != creds[0].email {
        var k :| 0 <= k < |creds[1..]| && creds[1..][k] == x;
        assert creds[k + 1] == x;
      }
    }
  }

  /** A member just added logs in with the member passphrase and not with
      the admin one (unless the address is an operator's). */
  lemma AddedMemberLogsIn(creds: seq<Cred>, email: Email, now: int)
    requires !Known(creds, email) && !IsOperator(email)
    ensures App.LoginRule(creds + [NewCred(email, false, now)], email, MemberPass)
            == Some(App.Grant(UserToken, false))
    ensures App.LoginRule(creds + [NewCred(email, false, now)], email, AdminPass) == None
  {
    AddedIsFound(creds, email, false, now);
  }

  /** A board member just added logs in with the admin passphrase as a
      board member, and never with the member one. */
  lemma AddedBoardMemberLogsIn(creds: seq<Cred>, email: Email, now: int)
    requires !Known(creds, email) && !IsOperator(email)
    ensures App.LoginRule(creds + [NewCred(email, true, now)], email, AdminPass)
            == Some(App.Grant(BoardToken, true))
    ensures App.LoginRule(creds + [NewCred(email, true, now)], email, MemberPass) == None
  {
    AddedIsFound(creds, email, true, now);
  }

  lemma AddedIsFound(creds: seq<Cred>, email: Email, board: bool, now: int)
    requires !Known(creds, email)
    ensures App.FindCred(creds + [NewCred(email, board, now)], email) == Some(NewCred(email, board, now))
  {
    var all := creds + [NewCred(email, board, now)];
    assert all[|creds|].email == email;
    assert forall j :: 0 <= j < |creds| ==> all[j].email != email;
  }

  /** After a delete the address can no longer log in (unless it is an
      operator's, whose login needs no credential). */
  lemma DeletedCannotLogIn(creds: seq<Cred>, email: Email, password: string)
    requires !IsOperator(email)
    ensures App.LoginRule(Filter(creds, (c: Cred) => c.email != email), email, password) == None
  {
    var r := Filter(creds, (c: Cred) => c.email != email);
    forall i | 0 <= i < |r| ensures r[i].email != email {
      assert r[i] in r;
    }
    App.UnknownEmailRefused(r, email, password);
  }
}
