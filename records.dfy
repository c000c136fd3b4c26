/** The records kept in the member community's key-value store, and the
    fixed strings the application compares against. Every collection is a
    JSON array in the browser's storage; here it is a typed sequence. */
module Records {

  datatype Option<+T> = None | Some(value: T)

  type Email = string

  /** JavaScript truthiness of an optional string read from storage:
      a missing key and the empty string are both false. */
  predicate Truthy(s: Option<string>) {
    s.Some? && s.value != ""
  }

  /** `a || b` on strings: the first non-empty one, else `b`. */
  function Or(a: string, b: string): (r: string)
    ensures a != "" ==> r == a
    ensures a == "" ==> r == b
  {
    if a != "" then a else b
  }

  // ---- constants ---------------------------------------------------------

  const OperatorEmail: Email := "info@ctcannabisalliance.org"
  const BoardOperatorEmail: Email := "mike@sweetheal.com"
  /** Passphrase of the admin tier (operators and admin-flagged credentials). */
  const AdminPass := "THC"
  /** Passphrase of the member tier. */
  const MemberPass := "CBD"
  const AdminToken := "admin-token"
  const BoardToken := "board-member-token"
  const UserToken := "user-token"
  const DefaultAvatar := "https://images.unsplash.com/photo-1472099645785-5658abf4ff4e?ixlib=rb-1.2.1&auto=format&fit=facearea&facepad=2&w=256&h=256&q=80"
  const AdminName := "CCSBA Admin"

  predicate IsOperator(email: Email) {
    email == OperatorEmail || email == BoardOperatorEmail
  }

  // ---- userCredentials ---------------------------------------------------

  /** One entry of `userCredentials`. `customPassword` is "" when no custom
      password was ever set. */
  datatype Cred = Cred(
    email: Email,
    password: string,
    dateAdded: int,
    isAdmin: bool,
    customPassword: string,
    isPasswordChanged: bool)

  // ---- profile_<email> ---------------------------------------------------

  datatype Profile = Profile(
    name: string,
    email: Email,
    businessName: string,
    phoneNumber: string,
    website: string,
    avatar: Option<string>,
    banner: Option<string>)

  /** The display name every snapshot uses: businessName || name || email. */
  function DisplayName(p: Profile, email: Email): (r: string)
    ensures p.businessName != "" ==> r == p.businessName
    ensures p.businessName == "" && p.name != "" ==> r == p.name
    ensures p.businessName == "" && p.name == "" ==> r == email
    ensures r == "" ==> email == ""
  {
    Or(p.businessName, Or(p.name, email))
  }

  // ---- ccsba_all_posts ---------------------------------------------------

  datatype Author = Author(name: string, email: Email, avatar: Option<string>)

  datatype Comment = Comment(id: string, author: Author, content: string, timestamp: int)

  datatype LinkPreview = LinkPreview(title: string, description: string, image: string, url: string)

  datatype Post = Post(
    id: string,
    author: Author,
    content: string,
    image: Option<string>,
    video: Option<string>,
    link: Option<string>,
    linkPreview: Option<LinkPreview>,
    timestamp: int,
    likes: nat,
    thumbsUp: nat,
    comments: seq<Comment>)

  // ---- ccsba_messages ----------------------------------------------------

  datatype SenderProfile = SenderProfile(name: string, avatar: Option<string>)

  datatype Msg = Msg(
    id: string,
    sender: Email,
    recipient: Email,
    content: string,
    timestamp: int,
    read: bool,
    senderProfile: Option<SenderProfile>)

  // ---- ccsba_notification_details ----------------------------------------

  datatype NotifKind = LikeKind | ThumbsUpKind | CommentKind | MessageKind | WarningKind | SystemKind

  /** The `type` string stored for each kind. */
  function KindTag(k: NotifKind): string {
    match k
    case LikeKind => "like"
    case ThumbsUpKind => "thumbsUp"
    case CommentKind => "comment"
    case MessageKind => "message"
    case WarningKind => "warning"
    case SystemKind => "system"
  }

  datatype Notif = Notif(
    id: string,
    kind: NotifKind,
    text: string,
    actorName: string,
    recipient: Email,
    timestamp: int,
    read: bool,
    postContent: Option<string>,
    postId: Option<string>,
    credentials: Option<(Email, string)>)

  // ---- session (userEmail / authToken) -----------------------------------

  datatype Session = Session(email: Email, token: string)
}
