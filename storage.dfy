/** The browser key-value store every component reads and writes whole.
    Each field is one storage key; a handler reads the collections it needs,
    transforms them and writes them back. */
module Storage {
  import opened Records

  class Store {
    /** `userCredentials` */
    var credentials: seq<Cred>
    /** `ccsba_all_posts`; `postsStored` says whether the key exists at all.
        While it does not, `posts` is empty (every reader falls back to `[]`):
        the constructor starts so, and every writer sets `postsStored`. */
    var posts: seq<Post>
    var postsStored: bool
    /** `ccsba_messages` */
    var messages: seq<Msg>
    /** `ccsba_notification_details`, newest first */
    var notifications: seq<Notif>
    /** `profile_<email>` for every email that has one */
    var profiles: map<Email, Profile>
    /** `userEmail` and `authToken` */
    var session: Option<Session>

    /** A browser with nothing stored yet. */
    constructor ()
      ensures credentials == [] && posts == [] && !postsStored
      ensures messages == [] && notifications == []
      ensures profiles == map[] && session == None
    {
      credentials := [];
      posts := [];
      postsStored := false;
      messages := [];
      notifications := [];
      profiles := map[];
      session := None;
    }
  }

  /** The storage key under which the profile of `email` is kept. */
  function ProfileKey(email: Email): (k: string)
    ensures |k| == 8 + |email| && k[..8] == "profile_" && k[8..] == email
  {
    "profile_" + email
  }

  /** Profiles are keyed by email: distinct emails never share a key. */
  lemma ProfileKeyInjective(a: Email, b: Email)
    ensures ProfileKey(a) == ProfileKey(b) ==> a == b
  {
    if ProfileKey(a) == ProfileKey(b) {
      assert a == ProfileKey(a)[8..];
    }
  }

  /** The actor name put on a notification the current user causes:
      businessName || name || email of their stored profile, or the bare
      email when no profile is stored (an absent profile reads as `{}`). */
  function ActorName(profiles: map<Email, Profile>, me: Email): (r: string)
    ensures me !in profiles ==> r == me
    ensures me in profiles ==> r == DisplayName(profiles[me], me)
  {
    if me in profiles then DisplayName(profiles[me], me) else me
  }

  /** `profile.avatar || default` */
  function AvatarOrDefault(avatar: Option<string>): (r: string)
    ensures Truthy(avatar) ==> r == avatar.value
    ensures !Truthy(avatar) ==> r == DefaultAvatar
  {
    if Truthy(avatar) then avatar.value else DefaultAvatar
  }

  /** The feed's `getUserProfile`: the author snapshot put on new posts and
      comments. */
  function CurrentAuthor(profiles: map<Email, Profile>, me: Email): (a: Author)
    ensures a.email == me && a.name == ActorName(profiles, me)
    ensures a.avatar.Some? && a.avatar.value != ""
    ensures me in profiles ==> a.avatar == Some(AvatarOrDefault(profiles[me].avatar))
    ensures me !in profiles ==> a.avatar == Some(DefaultAvatar)
  {
    if me in profiles then
      Author(DisplayName(profiles[me], me), me, Some(AvatarOrDefault(profiles[me].avatar)))
    else Author(me, me, Some(DefaultAvatar))
  }
}
