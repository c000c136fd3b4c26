/** The profile page (src/components/profile/ProfileArea.tsx): loading the
    current user's profile or a default one, saving an edited profile (which
    also re-stamps the author snapshot of the user's posts and the sender
    snapshot of the user's messages), posting from the page, and the phone
    field's formatting. */
module ProfileArea {
  import opened Records
  import opened Storage
  import opened Seqs
  import Text
  import Header
  import App
  import Feed

  const DefaultPhone := "999-999-9999"
  const SavedNotice := "Profile updated successfully!"

  /** `defaultProfile` with the given email: everything empty except the
      placeholder phone number, no avatar and no banner. */
  function DefaultProfile(email: Email): (p: Profile)
    ensures p.email == email && p.phoneNumber == DefaultPhone
    ensures p.name == "" && p.businessName == "" && p.website == ""
    ensures p.avatar == None && p.banner == None
  {
    Profile("", email, "", DefaultPhone, "", None, None)
  }

  /** `loadProfile`: the stored profile of `me`, or the default one carrying
      `me` as its email. */
  function LoadedProfile(profiles: map<Email, Profile>, me: Email): (p: Profile)
    ensures me in profiles ==> p == profiles[me]
    ensures me !in profiles ==> p == DefaultProfile(me)
  {
    if me in profiles then profiles[me] else DefaultProfile(me)
  }

  /** Without a stored profile the page shows the member's own address and
      the placeholder phone, and its display name falls back to the address. */
  lemma UnsavedProfileShowsEmail(profiles: map<Email, Profile>, me: Email)
    requires me !in profiles
    ensures LoadedProfile(profiles, me).email == me
    ensures LoadedProfile(profiles, me).phoneNumber == DefaultPhone
    ensures DisplayName(LoadedProfile(profiles, me), me) == me
  {
  }

  /** The `messages.map` of `handleSave`: same length and order, every
      message sent by `email` gets a sender snapshot of the saved profile,
      every other message is untouched. */
  function StampSenders(msgs: seq<Msg>, email: Email, prof: Profile): (r: seq<Msg>)
    ensures |r| == |msgs|
    ensures forall i :: 0 <= i < |msgs| && msgs[i].sender == email ==>
      r[i] == msgs[i].(senderProfile := Some(SenderProfile(DisplayName(prof, email), prof.avatar)))
    ensures forall i :: 0 <= i < |msgs| && msgs[i].sender != email ==> r[i] == msgs[i]
  {
    seq(|msgs|, i requires 0 <= i < |msgs| =>
      if msgs[i].sender == email
      then msgs[i].(senderProfile := Some(SenderProfile(DisplayName(prof, email), prof.avatar)))
      else msgs[i])
  }

  /** Re-stamping senders touches no read flag and no recipient, so nobody's
      unread-message badge moves. */
  lemma {:induction false} StampKeepsUnreadBadges(msgs: seq<Msg>, email: Email, prof: Profile, who: Option<Email>)
    ensures Header.UnreadMessages(StampSenders(msgs, email, prof), who) == Header.UnreadMessages(msgs, who)
  {
    if msgs != [] {
      var r := StampSenders(msgs, email, prof);
      assert r[1..] == StampSenders(msgs[1..], email, prof);
      assert r[0].recipient == msgs[0].recipient && r[0].read == msgs[0].read;
      StampKeepsUnreadBadges(msgs[1..], email, prof, who);
    }
  }

  /** After a save, a post the feed creates for the member carries the same
      name as the re-stamped older posts. */
  lemma SaveAgreesWithNewPosts(profiles: map<Email, Profile>, me: Email, edited: Profile)
    ensures CurrentAuthor(profiles[me := edited], me).name == DisplayName(edited, me)
    ensures ActorName(profiles[me := edited], me) == DisplayName(edited, me)
  {
  }

  /** A post written on this page lands in front of the member's own posts. */
  lemma NewPostHeadsOwnPosts(post: Post, ps: seq<Post>, me: Email)
    requires post.author.email == me
    ensures Feed.PostsBy([post] + ps, me) == [post] + Feed.PostsBy(ps, me)
  {
    assert ([post] + ps)[1..] == ps;
  }

  /** `userEmail || ''` */
  function EmailOrEmpty(me: Option<Email>): Email {
    if me.Some? then me.value else ""
  }

  /** The page's component state. */
  class Editor {
    var isEditing: bool
    var profile: Profile
    var edited: Profile
    var userPosts: seq<Post>
    var saveMessage: string

    /** The initial state: the module-level default profile, whose email was
        read from the session when the module loaded. */
    constructor (st: Store)
      ensures profile == DefaultProfile(EmailOrEmpty(App.SessionEmail(st.session)))
      ensures edited == profile
      ensures !isEditing && userPosts == [] && saveMessage == ""
    {
      profile := DefaultProfile(EmailOrEmpty(App.SessionEmail(st.session)));
      edited := DefaultProfile(EmailOrEmpty(App.SessionEmail(st.session)));
      isEditing := false;
      userPosts := [];
      saveMessage := "";
    }

    /** `loadProfile`: with a (non-empty) session email, the shown and the
        edited profile are the loaded one and the post list is the member's
        own posts; without one nothing changes. */
    method Load(st: Store)
      modifies this`profile, this`edited, this`userPosts
      ensures var me := App.SessionEmail(st.session);
        if Truthy(me) then
          profile == LoadedProfile(st.profiles, me.value) && edited == profile
          && userPosts == Feed.PostsBy(st.posts, me.value)
        else
          profile == old(profile) && edited == old(edited) && userPosts == old(userPosts)
    {
      var me := App.SessionEmail(st.session);
      if Truthy(me) {
        profile := LoadedProfile(st.profiles, me.value);
        edited := profile;
        userPosts := Feed.PostsBy(st.posts, me.value);
      }
    }

    /** The phone field's `onChange`: the edited phone number is the
        formatted input. */
    method EditPhone(value: string)
      modifies this`edited
      ensures edited == old(edited).(phoneNumber := Text.FormatPhoneNumber(value))
    {
      edited := edited.(phoneNumber := Text.FormatPhoneNumber(value));
    }

    /** `handleSave`: with a (non-empty) session email the edited profile is
        stored under that email, every post by the member is re-stamped,
        every message the member sent gets the new sender snapshot, and
        editing ends. Comments keep the snapshots they were written with.
        Without a session email nothing changes. */
    method Save(st: Store)
      modifies this`profile, this`isEditing, this`saveMessage
      modifies st`profiles, st`posts, st`postsStored, st`messages
      ensures var me := App.SessionEmail(st.session);
        if Truthy(me) then
          profile == edited && st.profiles == old(st.profiles)[me.value := edited]
          && st.posts == Feed.ProfileUpdate(old(st.posts), me.value, edited) && st.postsStored
          && st.messages == StampSenders(old(st.messages), me.value, edited)
          && !isEditing && saveMessage == SavedNotice
        else
          profile == old(profile) && isEditing == old(isEditing) && saveMessage == old(saveMessage)
          && st.profiles == old(st.profiles) && st.posts == old(st.posts)
          && st.postsStored == old(st.postsStored) && st.messages == old(st.messages)
    {
      var me := App.SessionEmail(st.session);
      if Truthy(me) {
        profile := edited;
        st.profiles := st.profiles[me.value := edited];
        st.posts := Feed.ProfileUpdate(st.posts, me.value, edited);
        st.postsStored := true;
        st.messages := StampSenders(st.messages, me.value, edited);
        isEditing := false;
        saveMessage := SavedNotice;
      }
    }

    /** `handleNewPost`: with a (non-empty) session email a post authored by
        the page's profile (display name and avatar as shown, not defaulted)
        goes in front of the stored posts and of the page's own list. */
    method NewPost(st: Store, id: string, content: string, image: Option<string>, now: int)
      modifies st`posts, st`postsStored, this`userPosts
      ensures var me := App.SessionEmail(st.session);
        if Truthy(me) then
          var post := Feed.FreshPost(id, Author(DisplayName(profile, me.value), me.value, profile.avatar),
                                     content, image, None, None, None, now);
          st.posts == [post] + old(st.posts) && st.postsStored && userPosts == [post] + old(userPosts)
        else
          st.posts == old(st.posts) && st.postsStored == old(st.postsStored) && userPosts == old(userPosts)
    {
      var me := App.SessionEmail(st.session);
      if Truthy(me) {
        var post := Feed.FreshPost(id, Author(DisplayName(profile, me.value), me.value, profile.avatar),
                                   content, image, None, None, None, now);
        st.posts := [post] + st.posts;
        st.postsStored := true;
        userPosts := [post] + userPosts;
      }
    }
  }
}
