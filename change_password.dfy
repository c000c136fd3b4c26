/** The password form (src/components/auth/ChangePassword.tsx): the ordered
    validation of the two new-password fields, then the header's handler,
    then every credential of the current user flagged as changed. */
module ChangePassword {
  import opened Records
  import opened Storage
  import App
  import Header
  import Text

  const MinLength := 8

  datatype PwError = Mismatch | TooShort

  function ErrorText(e: PwError): string {
    match e
    case Mismatch => "New passwords do not match"
    case TooShort => "Password must be at least 8 characters long"
  }

  /** The checks of `handleSubmit`, in order: the two fields must agree, and
      only then is the length looked at, in UTF-16 code units. The
      current-password field plays no part. */
  function Validate(newPassword: string, confirmPassword: string): (r: Option<PwError>)
    ensures r.None? <==> newPassword == confirmPassword && Text.Utf16Length(newPassword) >= MinLength
    ensures newPassword != confirmPassword ==> r == Some(Mismatch)
    ensures newPassword == confirmPassword && Text.Utf16Length(newPassword) < MinLength ==> r == Some(TooShort)
  {
    if newPassword != confirmPassword then Some(Mismatch)
    else if Text.Utf16Length(newPassword) < MinLength then Some(TooShort)
    else None
  }

  /** An accepted password is never one of the shared passphrases, so the
      custom-password rule cannot be confused with them. */
  lemma AcceptedIsNoPassphrase(password: string)
    requires Validate(password, password).None?
    ensures password != "" && password != AdminPass && password != MemberPass
  {
  }

  /** Four code points above U+FFFF are eight code units, so the length
      check passes a password that is four characters to the eye. */
  lemma FourAstralCharsAccepted()
    ensures var pw := "\U{1F600}\U{1F600}\U{1F600}\U{1F600}";
      |pw| == 4 && Validate(pw, pw).None?
  {
  }

  /** Seven characters of the Basic Multilingual Plane stay too short. */
  lemma SevenBmpCharsRejected(pw: string)
    requires |pw| == 7 && forall i :: 0 <= i < |pw| ==> pw[i] as int < 0x10000
    ensures Validate(pw, pw) == Some(TooShort)
  {
  }

  /** The credential rewrite after the callback: every credential whose
      email is the stored one is flagged as changed, nothing else moves. A
      missing stored email matches no credential. */
  function MarkChanged(creds: seq<Cred>, me: Option<Email>): (r: seq<Cred>)
    ensures |r| == |creds|
    ensures forall i :: 0 <= i < |creds| && Some(creds[i].email) == me ==>
      r[i] == creds[i].(isPasswordChanged := true)
    ensures forall i :: 0 <= i < |creds| && Some(creds[i].email) != me ==> r[i] == creds[i]
  {
    seq(|creds|, i requires 0 <= i < |creds| =>
      if Some(creds[i].email) == me then creds[i].(isPasswordChanged := true) else creds[i])
  }

  /** The changed flag plays no part in logging in: flagging changes no
      outcome of the login rule, for any address and password. */
  lemma MarkChangedKeepsLogin(creds: seq<Cred>, me: Option<Email>, email: Email, password: string)
    ensures App.LoginRule(MarkChanged(creds, me), email, password) == App.LoginRule(creds, email, password)
  {
    var r := MarkChanged(creds, me);
    App.FindCredSamePlace(creds, r, email);
    if App.FindCred(creds, email).Some? {
      var k :| 0 <= k < |creds| && App.FindCred(creds, email) == Some(creds[k])
               && App.FindCred(r, email) == Some(r[k]);
    }
  }

  /** After a successful change the member logs in with the new password
      as a member, whatever the credential's admin flag, and even under one
      of the two operator addresses. */
  lemma ChangedPasswordLogsIn(creds: seq<Cred>, email: Email, password: string)
    requires Validate(password, password).None?
    requires App.FindCred(creds, email).Some?
    ensures var after := MarkChanged(Header.SetCustomPassword(creds, email, password), Some(email));
      App.LoginRule(after, email, password) == Some(App.Grant(UserToken, false))
  {
    Header.NewPasswordLogsIn(creds, email, password);
    MarkChangedKeepsLogin(Header.SetCustomPassword(creds, email, password), Some(email), email, password);
  }

  /** The form's component state. */
  class Form {
    var currentPassword: string
    var newPassword: string
    var confirmPassword: string
    var error: string
    var isLoading: bool

    constructor ()
      ensures currentPassword == "" && newPassword == "" && confirmPassword == ""
      ensures error == "" && !isLoading
    {
      currentPassword := "";
      newPassword := "";
      confirmPassword := "";
      error := "";
      isLoading := false;
    }

    /** `handleSubmit`: a validation failure shows its message and writes
        nothing. Otherwise the header's handler sets the custom password,
        every credential of the stored email is flagged as changed, and the
        form closes (`done`). */
    method Submit(st: Store) returns (done: bool)
      modifies this`error, this`isLoading, st`credentials
      ensures var v := Validate(newPassword, confirmPassword);
        v.Some? ==> !done && error == ErrorText(v.value) && isLoading == old(isLoading)
                    && st.credentials == old(st.credentials)
      ensures var me := App.SessionEmail(st.session);
        Validate(newPassword, confirmPassword).None? ==>
          done && error == "" && !isLoading
          && st.credentials == MarkChanged(
               if Truthy(me) then Header.SetCustomPassword(old(st.credentials), me.value, newPassword)
               else old(st.credentials), me)
    {
      var v := Validate(newPassword, confirmPassword);
      if v.Some? {
        error := ErrorText(v.value);
        return false;
      }
      isLoading := true;
      error := "";
      Header.PasswordChange(st, newPassword);
      st.credentials := MarkChanged(st.credentials, App.SessionEmail(st.session));
      isLoading := false;
      done := true;
    }
  }
}
