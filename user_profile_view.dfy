/** Another member's profile page (src/components/profile/UserProfileView.tsx):
    the viewed profile with its fallbacks, the member's posts, and likes and
    thumbs-up given from the page. */
module UserProfileView {
  import opened Records
  import opened Storage
  import opened Seqs
  import Feed
  import MemberDirectory

  /** The page's profile before (or without) a stored one: the email doubles
      as the name, everything else is empty. */
  function Placeholder(email: Email): (p: Profile)
    ensures p.email == email && p.name == email
    ensures p.businessName == "" && p.phoneNumber == "" && p.website == ""
    ensures p.avatar == None && p.banner == None
  {
    Profile(email, email, "", "", "", None, None)
  }

  /** The profile the page shows for `email`: a stored profile with its name
      falling back to the email (and its text fields to ''), else the
      placeholder. The email shown is always the viewed one. */
  function ViewedProfile(profiles: map<Email, Profile>, email: Email): (p: Profile)
    ensures p.email == email
    ensures email != "" ==> p.name != ""
    ensures email !in profiles ==> p == Placeholder(email)
    ensures email in profiles ==>
      var s := profiles[email];
      p.name == Or(s.name, email) && p.businessName == s.businessName
      && p.phoneNumber == s.phoneNumber && p.website == s.website
      && p.avatar == s.avatar && p.banner == s.banner
  {
    if email in profiles then
      var s := profiles[email];
      Profile(Or(s.name, email), email, s.businessName, s.phoneNumber, s.website, s.avatar, s.banner)
    else Placeholder(email)
  }

  /** The page and the directory entry that led to it show the same name and
      business name for a member. */
  lemma ViewAgreesWithDirectory(profiles: map<Email, Profile>, email: Email)
    ensures ViewedProfile(profiles, email).name == MemberDirectory.EntryOf(profiles, email).name
    ensures ViewedProfile(profiles, email).businessName == MemberDirectory.EntryOf(profiles, email).businessName
  {
  }

  /** Bumping works post by post, so it distributes over concatenation. */
  lemma ReactAllAppend(a: seq<Post>, b: seq<Post>, id: string, r: Feed.Reaction)
    ensures Feed.ReactAll(a + b, id, r) == Feed.ReactAll(a, id, r) + Feed.ReactAll(b, id, r)
  {
    var l := Feed.ReactAll(a + b, id, r);
    var rr := Feed.ReactAll(a, id, r) + Feed.ReactAll(b, id, r);
    forall i | 0 <= i < |l| ensures l[i] == rr[i] {
      if i >= |a| {
        assert (a + b)[i] == b[i - |a|];
      }
    }
  }

  /** The first post is bumped, then the rest. */
  lemma ReactAllCons(ps: seq<Post>, id: string, r: Feed.Reaction)
    requires ps != []
    ensures Feed.ReactAll(ps, id, r) == [Feed.ReactOne(ps[0], id, r)] + Feed.ReactAll(ps[1..], id, r)
  {
    assert ps == [ps[0]] + ps[1..];
    ReactAllAppend([ps[0]], ps[1..], id, r);
  }

  /** The page bumps its own list the way the store is bumped: the list
      after a reaction is what a reload would show. */
  lemma {:induction false} ReactAllPostsBy(ps: seq<Post>, id: string, r: Feed.Reaction, who: Email)
    ensures Feed.PostsBy(Feed.ReactAll(ps, id, r), who) == Feed.ReactAll(Feed.PostsBy(ps, who), id, r)
  {
    if ps != [] {
      var h := if ps[0].author.email == who then [ps[0]] else [];
      var q0 := Feed.ReactOne(ps[0], id, r);
      assert q0.author == ps[0].author;
      ReactAllCons(ps, id, r);
      assert ([q0] + Feed.ReactAll(ps[1..], id, r))[1..] == Feed.ReactAll(ps[1..], id, r);
      ReactAllPostsBy(ps[1..], id, r, who);
      ReactAllAppend(h, Feed.PostsBy(ps[1..], who), id, r);
    }
  }

  /** The page's component state for one viewed member. */
  class Viewer {
    const userEmail: Email
    var profile: Profile
    var posts: seq<Post>
    var isLoading: bool

    constructor (userEmail: Email)
      ensures this.userEmail == userEmail
      ensures profile == Placeholder(userEmail) && posts == [] && isLoading
    {
      this.userEmail := userEmail;
      profile := Placeholder(userEmail);
      posts := [];
      isLoading := true;
    }

    /** The mount effect: the stored profile when there is one (the
        placeholder otherwise stays), and exactly the viewed member's stored
        posts in stored order. */
    method Load(st: Store)
      modifies this`profile, this`posts, this`isLoading
      ensures userEmail in st.profiles ==> profile == ViewedProfile(st.profiles, userEmail)
      ensures userEmail !in st.profiles ==> profile == old(profile)
      ensures posts == Feed.PostsBy(st.posts, userEmail) && !isLoading
    {
      if userEmail in st.profiles {
        profile := ViewedProfile(st.profiles, userEmail);
      }
      posts := Feed.PostsBy(st.posts, userEmail);
      isLoading := false;
    }

    /** `handleLike` and `handleThumbsUp`: reacting to one's own post does
        nothing. Otherwise the stored posts are bumped and notified about as
        on the feed, and the page's own list is bumped the same way. */
    method React(st: Store, me: Email, id: string, authorEmail: Email, r: Feed.Reaction, nid: string, now: int)
      modifies st`posts, st`postsStored, st`notifications, this`posts
      ensures me == authorEmail ==>
        st.posts == old(st.posts) && st.postsStored == old(st.postsStored)
        && st.notifications == old(st.notifications) && posts == old(posts)
      ensures me != authorEmail ==>
        st.posts == Feed.ReactAll(old(st.posts), id, r) && st.postsStored
        && st.notifications == Feed.ReactNotifs(old(st.posts), id, r, authorEmail, ActorName(st.profiles, me), nid, now)
                               + old(st.notifications)
        && posts == Feed.ReactAll(old(posts), id, r)
    {
      if me == authorEmail {
        return;
      }
      var updated, added := Feed.MapReact(st.posts, id, r, authorEmail, ActorName(st.profiles, me), nid, now);
      st.notifications := added + st.notifications;
      st.posts := updated;
      st.postsStored := true;
      posts := Feed.ReactAll(posts, id, r);
    }
  }
}
