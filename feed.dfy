/** The feed (src/components/feed/Feed.tsx): seeding an empty store, new
    posts, reactions, comments, deletion and moderation warnings. Each
    handler reads `ccsba_all_posts`, maps or filters it, writes it back, and
    prepends to `ccsba_notification_details` once per post it notifies about. */
module Feed {
  import opened Records
  import opened Storage
  import opened Seqs
  import App

  const WelcomeContent := "Welcome to the CCSBA platform! Stay connected with the Connecticut cannabis community."

  /** The post `loadPosts` stores when the posts key is missing. */
  function WelcomePost(now: int): (p: Post)
    ensures p.id == "1" && p.likes == 0 && p.thumbsUp == 0 && p.comments == []
    ensures p.author == Author(AdminName, OperatorEmail, Some(DefaultAvatar))
  {
    Post("1", Author(AdminName, OperatorEmail, Some(DefaultAvatar)), WelcomeContent,
         None, None, None, None, now, 0, 0, [])
  }

  /** A post as the composers create it: no reactions and no comments yet. */
  function FreshPost(id: string, author: Author, content: string, image: Option<string>,
                     video: Option<string>, link: Option<string>, preview: Option<LinkPreview>,
                     now: int): (p: Post)
    ensures p.id == id && p.author == author && p.content == content
    ensures p.likes == 0 && p.thumbsUp == 0 && p.comments == []
  {
    Post(id, author, content, image, video, link, preview, now, 0, 0, [])
  }

  /** The repository's intended invariant: no two posts share an id. */
  ghost predicate UniqueIds(ps: seq<Post>) {
    forall i, j :: 0 <= i < j < |ps| ==> ps[i].id != ps[j].id
  }

  /** The feed's own admin test on mount: false unless a non-empty email
      is stored (`if (email)`), otherwise one of the two operator addresses
      or an admin-flagged credential. For a non-empty email it is the test
      the shell applies on start-up; the shell gates on the token instead,
      so the two part only on an empty stored email. */
  function FeedAdmin(creds: seq<Cred>, me: Option<Email>): (r: bool)
    ensures r <==> Truthy(me) && App.DerivedAdmin(creds, me.value)
    ensures !Truthy(me) ==> !r
  {
    if !Truthy(me) then false
    else
      var user := App.FindCred(creds, me.value);
      IsOperator(me.value) || (user.Some? && user.value.isAdmin)
  }

  /** Management controls (delete, warn) on `p`: the `isAdmin` prop each
      post receives, the feed's admin flag or the post's own author. A
      missing stored email equals no author. */
  predicate ShowsManagement(creds: seq<Cred>, me: Option<Email>, p: Post) {
    FeedAdmin(creds, me) || Some(p.author.email) == me
  }

  /** Who sees the controls on a post: nobody while logged out; with a
      non-empty email, an operator or an admin-flagged credential on every
      post; anyone else, and an empty stored email whatever its
      credential, exactly on their own posts. */
  lemma ManagementVisibility(creds: seq<Cred>, me: Option<Email>, p: Post)
    ensures me.None? ==> !ShowsManagement(creds, me, p)
    ensures Truthy(me) && App.DerivedAdmin(creds, me.value) ==> ShowsManagement(creds, me, p)
    ensures me == Some("") ==> (ShowsManagement(creds, me, p) <==> p.author.email == "")
    ensures me.Some? && !IsOperator(me.value) && App.FindCred(creds, me.value).None? ==>
      (ShowsManagement(creds, me, p) <==> p.author.email == me.value)
    ensures me.Some? && !IsOperator(me.value) && App.FindCred(creds, me.value).Some?
            && !App.FindCred(creds, me.value).value.isAdmin ==>
      (ShowsManagement(creds, me, p) <==> p.author.email == me.value)
  {
  }

  /** Whoever logged in under a non-empty email with an admin grant gets
      the controls on every post once the feed mounts. */
  lemma AdminLoginManagesEveryPost(creds: seq<Cred>, email: Email, password: string, p: Post)
    requires email != ""
    requires App.LoginRule(creds, email, password).Some? && App.LoginRule(creds, email, password).value.admin
    ensures ShowsManagement(creds, Some(email), p)
  {
    App.AdminLoginSurvivesReload(creds, email, password);
  }

  /** The empty email is where the feed and the shell part: a board login
      under an admin-flagged credential with email '' is admin in the shell,
      yet the feed offers it the controls only on posts by ''. */
  lemma EmptyEmailAdminGetsNoControls()
    ensures var creds := [Cred("", AdminPass, 0, true, "", false)];
      var p := WelcomePost(0);
      App.LoginRule(creds, "", AdminPass) == Some(App.Grant(BoardToken, true))
      && App.DerivedAdmin(creds, "") && !ShowsManagement(creds, Some(""), p)
  {
  }

  // ---- reactions -------------------------------------------------------------

  datatype Reaction = Like | ThumbsUp

  function ReactionKind(r: Reaction): NotifKind {
    if r == Like then LikeKind else ThumbsUpKind
  }

  function ReactionText(r: Reaction): string {
    if r == Like then "liked your post" else "gave a thumbs up to your post"
  }

  /** One reaction on `p`: its counter for `r` goes up by one, nothing else
      about the post changes. */
  function Bump(p: Post, r: Reaction): (q: Post)
    ensures r == Like ==> q.likes == p.likes + 1 && q == p.(likes := q.likes)
    ensures r == ThumbsUp ==> q.thumbsUp == p.thumbsUp + 1 && q == p.(thumbsUp := q.thumbsUp)
  {
    match r
    case Like => p.(likes := p.likes + 1)
    case ThumbsUp => p.(thumbsUp := p.thumbsUp + 1)
  }

  /** The map callback of the reaction handlers. */
  function ReactOne(p: Post, id: string, r: Reaction): Post {
    if p.id == id then Bump(p, r) else p
  }

  /** `posts.map(post => post.id === id ? bumped : post)` */
  function ReactAll(ps: seq<Post>, id: string, r: Reaction): (qs: seq<Post>)
    ensures |qs| == |ps|
    ensures forall i :: 0 <= i < |ps| && ps[i].id == id ==> qs[i] == Bump(ps[i], r)
    ensures forall i :: 0 <= i < |ps| && ps[i].id != id ==> qs[i] == ps[i]
  {
    seq(|ps|, i requires 0 <= i < |ps| => ReactOne(ps[i], id, r))
  }

  /** A list that agrees with the callback at every position is the map. */
  lemma ReactAllPointwise(ps: seq<Post>, qs: seq<Post>, id: string, r: Reaction)
    requires |qs| == |ps|
    requires forall k :: 0 <= k < |ps| ==> qs[k] == ReactOne(ps[k], id, r)
    ensures qs == ReactAll(ps, id, r)
  {
  }

  /** The notification a reaction to `p` leaves for its author. */
  function ReactionNotif(p: Post, r: Reaction, authorEmail: Email, actor: string,
                         nid: string, now: int): (n: Notif)
    ensures n.recipient == authorEmail && !n.read && n.kind == ReactionKind(r)
    ensures n.postContent == Some(p.content) && n.actorName == actor
  {
    Notif(nid, ReactionKind(r), ReactionText(r), actor, authorEmail, now, false,
          Some(p.content), None, None)
  }

  /** What the reaction handlers prepend to the notifications: one record per
      matching post, each unshifted in turn, so the last match comes first. */
  function ReactNotifs(ps: seq<Post>, id: string, r: Reaction, authorEmail: Email,
                       actor: string, nid: string, now: int): (ns: seq<Notif>)
    ensures |ns| <= |ps|
    ensures forall n :: n in ns ==> n.recipient == authorEmail && !n.read && n.kind == ReactionKind(r)
  {
    if ps == [] then []
    else
      var last := ps[|ps| - 1];
      (if last.id == id then [ReactionNotif(last, r, authorEmail, actor, nid, now)] else [])
      + ReactNotifs(ps[..|ps| - 1], id, r, authorEmail, actor, nid, now)
  }

  /** One more post examined: its notification, if any, goes in front. */
  lemma ReactNotifsStep(ps: seq<Post>, i: nat, id: string, r: Reaction, authorEmail: Email,
                        actor: string, nid: string, now: int)
    requires i < |ps|
    ensures ReactNotifs(ps[..i + 1], id, r, authorEmail, actor, nid, now)
            == (if ps[i].id == id then [ReactionNotif(ps[i], r, authorEmail, actor, nid, now)] else [])
               + ReactNotifs(ps[..i], id, r, authorEmail, actor, nid, now)
  {
    assert ps[..i + 1][..i] == ps[..i];
  }

  /** No post with that id: no notification. */
  lemma {:induction false} ReactNotifsNone(ps: seq<Post>, id: string, r: Reaction,
                                           authorEmail: Email, actor: string, nid: string, now: int)
    requires forall i :: 0 <= i < |ps| ==> ps[i].id != id
    ensures ReactNotifs(ps, id, r, authorEmail, actor, nid, now) == []
  {
    if ps != [] {
      ReactNotifsNone(ps[..|ps| - 1], id, r, authorEmail, actor, nid, now);
    }
  }

  /** With unique ids, a reaction to an existing post leaves exactly one
      notification, about that post. */
  lemma {:induction false} ReactNotifsUnique(ps: seq<Post>, k: nat, r: Reaction,
                                             authorEmail: Email, actor: string, nid: string, now: int)
    requires UniqueIds(ps) && k < |ps|
    ensures ReactNotifs(ps, ps[k].id, r, authorEmail, actor, nid, now)
            == [ReactionNotif(ps[k], r, authorEmail, actor, nid, now)]
  {
    var n := |ps| - 1;
    var prefix := ps[..n];
    if k == n {
      ReactNotifsNone(prefix, ps[k].id, r, authorEmail, actor, nid, now);
    } else {
      assert prefix[k] == ps[k];
      ReactNotifsUnique(prefix, k, r, authorEmail, actor, nid, now);
    }
  }

  /** `n` reactions by non-authors: a post's counter rises by exactly `n`
      (repeat reactions by the same user all count). */
  function ReactTimes(ps: seq<Post>, id: string, r: Reaction, n: nat): seq<Post> {
    if n == 0 then ps else ReactAll(ReactTimes(ps, id, r, n - 1), id, r)
  }

  lemma {:induction false} ReactTimesCounts(ps: seq<Post>, id: string, r: Reaction, n: nat, i: nat)
    requires i < |ps| && ps[i].id == id
    ensures |ReactTimes(ps, id, r, n)| == |ps|
    ensures ReactTimes(ps, id, r, n)[i].id == id
    ensures r == Like ==> ReactTimes(ps, id, r, n)[i].likes == ps[i].likes + n
    ensures r == ThumbsUp ==> ReactTimes(ps, id, r, n)[i].thumbsUp == ps[i].thumbsUp + n
  {
    if n > 0 {
      ReactTimesCounts(ps, id, r, n - 1, i);
    }
  }

  /** Reactions never change ids, so they keep the ids unique. */
  lemma ReactAllKeepsIdsUnique(ps: seq<Post>, id: string, r: Reaction)
    requires UniqueIds(ps)
    ensures UniqueIds(ReactAll(ps, id, r))
  {
    var qs := ReactAll(ps, id, r);
    assert forall i :: 0 <= i < |ps| ==> qs[i].id == ps[i].id;
  }

  // ---- comments ---------------------------------------------------------------

  /** `posts.map(post => post.id === id ? {...post, comments: [...comments, c]} : post)` */
  function CommentAll(ps: seq<Post>, id: string, c: Comment): (qs: seq<Post>)
    ensures |qs| == |ps|
    ensures forall i :: 0 <= i < |ps| && ps[i].id == id ==>
      qs[i] == ps[i].(comments := ps[i].comments + [c])
    ensures forall i :: 0 <= i < |ps| && ps[i].id != id ==> qs[i] == ps[i]
  {
    seq(|ps|, i requires 0 <= i < |ps| =>
      if ps[i].id == id then ps[i].(comments := ps[i].comments + [c]) else ps[i])
  }

  function CommentNotif(p: Post, actor: string, nid: string, now: int): (n: Notif)
    ensures n.recipient == p.author.email && !n.read && n.kind == CommentKind
  {
    Notif(nid, CommentKind, "commented on your post", actor, p.author.email, now, false,
          Some(p.content), None, None)
  }

  /** What commenting prepends: one record per matching post whose author is
      not the commenter, the last such post first. */
  function CommentNotifs(ps: seq<Post>, id: string, me: Email, actor: string,
                         nid: string, now: int): (ns: seq<Notif>)
    ensures |ns| <= |ps|
    ensures forall n :: n in ns ==> n.recipient != me && !n.read && n.kind == CommentKind
  {
    if ps == [] then []
    else
      var last := ps[|ps| - 1];
      (if last.id == id && last.author.email != me then [CommentNotif(last, actor, nid, now)] else [])
      + CommentNotifs(ps[..|ps| - 1], id, me, actor, nid, now)
  }

  lemma CommentNotifsStep(ps: seq<Post>, i: nat, id: string, me: Email, actor: string,
                          nid: string, now: int)
    requires i < |ps|
    ensures CommentNotifs(ps[..i + 1], id, me, actor, nid, now)
            == (if ps[i].id == id && ps[i].author.email != me then [CommentNotif(ps[i], actor, nid, now)] else [])
               + CommentNotifs(ps[..i], id, me, actor, nid, now)
  {
    assert ps[..i + 1][..i] == ps[..i];
  }

  /** Commenting on one's own posts notifies nobody. */
  lemma {:induction false} OwnPostCommentSilent(ps: seq<Post>, id: string, me: Email,
                                                actor: string, nid: string, now: int)
    requires forall i :: 0 <= i < |ps| && ps[i].id == id ==> ps[i].author.email == me
    ensures CommentNotifs(ps, id, me, actor, nid, now) == []
  {
    if ps != [] {
      OwnPostCommentSilent(ps[..|ps| - 1], id, me, actor, nid, now);
    }
  }

  /** With unique ids, a comment on someone else's post notifies its author once. */
  lemma {:induction false} CommentNotifiesAuthorOnce(ps: seq<Post>, k: nat, me: Email,
                                                     actor: string, nid: string, now: int)
    requires UniqueIds(ps) && k < |ps| && ps[k].author.email != me
    ensures CommentNotifs(ps, ps[k].id, me, actor, nid, now) == [CommentNotif(ps[k], actor, nid, now)]
  {
    var n := |ps| - 1;
    var prefix := ps[..n];
    if k == n {
      OwnPostCommentSilent(prefix, ps[k].id, me, actor, nid, now);
    } else {
      assert prefix[k] == ps[k];
      CommentNotifiesAuthorOnce(prefix, k, me, actor, nid, now);
    }
  }

  // ---- warnings ---------------------------------------------------------------

  function WarningNotif(p: Post, id: string, authorEmail: Email, nid: string, now: int): (n: Notif)
    ensures n.kind == WarningKind && !n.read && n.recipient == authorEmail
    ensures n.postContent == Some(p.content) && n.postId == Some(id) && n.actorName == AdminName
  {
    Notif(nid, WarningKind, "Your post has been flagged as potentially inappropriate by an admin",
          AdminName, authorEmail, now, false, Some(p.content), Some(id), None)
  }

  /** `posts.find(p => p.id === id)` */
  function FindPost(ps: seq<Post>, id: string): (r: Option<Post>)
    ensures r.None? <==> forall i :: 0 <= i < |ps| ==> ps[i].id != id
    ensures r.Some? ==> r.value in ps && r.value.id == id
    ensures r.Some? ==> exists k :: 0 <= k < |ps| && ps[k] == r.value
                                    && forall j :: 0 <= j < k ==> ps[j].id != id
  {
    Find(ps, (p: Post) => p.id == id)
  }

  // ---- the handlers -------------------------------------------------------------

  /** `loadPosts`: the stored posts, or a freshly seeded welcome post when the
      key is missing. */
  method LoadPosts(st: Store, now: int) returns (shown: seq<Post>)
    modifies st`posts, st`postsStored
    ensures st.postsStored
    ensures old(st.postsStored) ==> st.posts == old(st.posts)
    ensures !old(st.postsStored) ==> st.posts == [WelcomePost(now)]
    ensures shown == st.posts
  {
    if st.postsStored {
      shown := st.posts;
    } else {
      st.posts := [WelcomePost(now)];
      st.postsStored := true;
      shown := st.posts;
    }
  }

  /** `handleNewPost`: the new post goes in front, authored by the current
      user's profile snapshot; every older post follows in order. */
  method NewPost(st: Store, me: Email, id: string, content: string, image: Option<string>,
                 video: Option<string>, link: Option<string>, preview: Option<LinkPreview>, now: int)
    modifies st`posts, st`postsStored
    ensures st.postsStored
    ensures st.posts == [FreshPost(id, CurrentAuthor(st.profiles, me), content, image, video, link, preview, now)]
                        + old(st.posts)
  {
    var post := FreshPost(id, CurrentAuthor(st.profiles, me), content, image, video, link, preview, now);
    st.posts := [post] + st.posts;
    st.postsStored := true;
  }

  /** The `posts.map` of the reaction handlers, with what its callback
      unshifts onto the notifications: the new posts and the new records. */
  method MapReact(ps: seq<Post>, id: string, r: Reaction, authorEmail: Email, actor: string,
                  nid: string, now: int) returns (updated: seq<Post>, added: seq<Notif>)
    ensures updated == ReactAll(ps, id, r)
    ensures added == ReactNotifs(ps, id, r, authorEmail, actor, nid, now)
  {
    updated, added := [], [];
    var i := 0;
    while i < |ps|
      invariant 0 <= i <= |ps|
      invariant |updated| == i
      invariant forall k :: 0 <= k < i ==> updated[k] == ReactOne(ps[k], id, r)
      invariant added == ReactNotifs(ps[..i], id, r, authorEmail, actor, nid, now)
    {
      ReactNotifsStep(ps, i, id, r, authorEmail, actor, nid, now);
      if ps[i].id == id {
        added := [ReactionNotif(ps[i], r, authorEmail, actor, nid, now)] + added;
      }
      updated := updated + [ReactOne(ps[i], id, r)];
      i := i + 1;
    }
    assert ps[..i] == ps;
    ReactAllPointwise(ps, updated, id, r);
  }

  /** `handleLike` and `handleThumbsUp`. Reacting to one's own post writes
      nothing. Otherwise every post with the id is bumped and, for each, one
      unread notification to `authorEmail` is unshifted onto the stored list.
      The source re-reads and re-writes the notifications key inside the map
      callback; nothing runs in between, so the records are prepended at once. */
  method React(st: Store, me: Email, id: string, authorEmail: Email, r: Reaction, nid: string, now: int)
    modifies st`posts, st`postsStored, st`notifications
    ensures me == authorEmail ==>
      st.posts == old(st.posts) && st.postsStored == old(st.postsStored)
      && st.notifications == old(st.notifications)
    ensures me != authorEmail ==>
      st.posts == ReactAll(old(st.posts), id, r) && st.postsStored
      && st.notifications == ReactNotifs(old(st.posts), id, r, authorEmail, ActorName(st.profiles, me), nid, now)
                             + old(st.notifications)
  {
    if me == authorEmail {
      return;
    }
    var updated, added := MapReact(st.posts, id, r, authorEmail, ActorName(st.profiles, me), nid, now);
    st.notifications := added + st.notifications;
    st.posts := updated;
    st.postsStored := true;
  }

  /** The `posts.map` of `handleComment`: the comment appended to every post
      with the id, and the records its callback unshifts. */
  method MapComment(ps: seq<Post>, postId: string, c: Comment, me: Email, actor: string,
                    nid: string, now: int) returns (updated: seq<Post>, added: seq<Notif>)
    ensures updated == CommentAll(ps, postId, c)
    ensures added == CommentNotifs(ps, postId, me, actor, nid, now)
  {
    updated, added := [], [];
    var i := 0;
    while i < |ps|
      invariant 0 <= i <= |ps|
      invariant |updated| == i
      invariant forall k :: 0 <= k < i ==>
        updated[k] == if ps[k].id == postId then ps[k].(comments := ps[k].comments + [c]) else ps[k]
      invariant added == CommentNotifs(ps[..i], postId, me, actor, nid, now)
    {
      CommentNotifsStep(ps, i, postId, me, actor, nid, now);
      if ps[i].id == postId {
        if ps[i].author.email != me {
          added := [CommentNotif(ps[i], actor, nid, now)] + added;
        }
        updated := updated + [ps[i].(comments := ps[i].comments + [c])];
      } else {
        updated := updated + [ps[i]];
      }
      i := i + 1;
    }
    assert ps[..i] == ps;
  }

  /** `handleComment`: the comment, by the current user's profile snapshot,
      is appended to every post with the id; a notification is prepended for
      each such post the commenter did not write. */
  method AddComment(st: Store, me: Email, postId: string, content: string, nid: string, now: int)
    modifies st`posts, st`postsStored, st`notifications
    ensures st.postsStored
    ensures st.posts == CommentAll(old(st.posts), postId,
                                   Comment(nid, CurrentAuthor(st.profiles, me), content, now))
    ensures st.notifications == CommentNotifs(old(st.posts), postId, me, ActorName(st.profiles, me), nid, now)
                                + old(st.notifications)
  {
    var author := CurrentAuthor(st.profiles, me);
    var updated, added := MapComment(st.posts, postId, Comment(nid, author, content, now), me, author.name, nid, now);
    st.notifications := added + st.notifications;
    st.posts := updated;
    st.postsStored := true;
  }

  /** `handleDeletePost`: every post with the id goes, the rest keep their
      order; no notification, and no permission check of its own. */
  method DeletePost(st: Store, postId: string)
    modifies st`posts, st`postsStored
    ensures st.postsStored
    ensures st.posts == Filter(old(st.posts), (p: Post) => p.id != postId)
    ensures forall p :: p in st.posts <==> p in old(st.posts) && p.id != postId
  {
    st.posts := Filter(st.posts, (p: Post) => p.id != postId);
    st.postsStored := true;
  }

  /** `handleWarnUser`: an unknown id does nothing; otherwise one unread
      warning quoting the first matching post goes to `authorEmail`. Posts are
      not touched. */
  method WarnUser(st: Store, postId: string, authorEmail: Email, nid: string, now: int)
    modifies st`notifications
    ensures FindPost(st.posts, postId).None? ==> st.notifications == old(st.notifications)
    ensures FindPost(st.posts, postId).Some? ==>
      st.notifications == [WarningNotif(FindPost(st.posts, postId).value, postId, authorEmail, nid, now)]
                          + old(st.notifications)
  {
    var post := FindPost(st.posts, postId);
    if post.None? {
      return;
    }
    st.notifications := [WarningNotif(post.value, postId, authorEmail, nid, now)] + st.notifications;
  }

  // ---- author snapshots ---------------------------------------------------

  /** `allPosts.filter(post => post.author.email === email)`: the posts one
      member wrote, in stored order. */
  function PostsBy(ps: seq<Post>, email: Email): (r: seq<Post>)
    ensures |r| <= |ps|
    ensures forall p :: p in r <==> p in ps && p.author.email == email
  {
    Filter(ps, (p: Post) => p.author.email == email)
  }

  /** The post after `email` saved `prof`: its author snapshot takes the
      profile's display name and avatar; the author email, the content, the
      counters and the comments (whose own author snapshots included) stay. */
  function Restamp(p: Post, email: Email, prof: Profile): Post {
    if p.author.email == email
    then p.(author := p.author.(name := DisplayName(prof, email), avatar := prof.avatar))
    else p
  }

  /** The `profileUpdate` listener's rewrite of the shown posts, and the
      rewrite saving a profile writes to the store: same length and order,
      each post of `email` re-stamped, every other post untouched. */
  function ProfileUpdate(ps: seq<Post>, email: Email, prof: Profile): (r: seq<Post>)
    ensures |r| == |ps|
    ensures forall i :: 0 <= i < |ps| && ps[i].author.email == email ==>
      r[i] == ps[i].(author := Author(DisplayName(prof, email), email, prof.avatar))
    ensures forall i :: 0 <= i < |ps| && ps[i].author.email != email ==> r[i] == ps[i]
  {
    seq(|ps|, i requires 0 <= i < |ps| => Restamp(ps[i], email, prof))
  }

  /** Only the last save shows: re-stamping with `p1` and then `p2` is
      re-stamping with `p2` (so saving the same profile twice is saving it
      once). */
  lemma ProfileUpdateLastWins(ps: seq<Post>, email: Email, p1: Profile, p2: Profile)
    ensures ProfileUpdate(ProfileUpdate(ps, email, p1), email, p2) == ProfileUpdate(ps, email, p2)
  {
    var once := ProfileUpdate(ps, email, p1);
    assert forall i :: 0 <= i < |ps| ==> once[i].author.email == ps[i].author.email;
  }

  /** Re-stamping works post by post, so it distributes over concatenation. */
  lemma ProfileUpdateAppend(a: seq<Post>, b: seq<Post>, email: Email, prof: Profile)
    ensures ProfileUpdate(a + b, email, prof) == ProfileUpdate(a, email, prof) + ProfileUpdate(b, email, prof)
  {
    var l := ProfileUpdate(a + b, email, prof);
    var r := ProfileUpdate(a, email, prof) + ProfileUpdate(b, email, prof);
    forall i | 0 <= i < |l| ensures l[i] == r[i] {
      if i >= |a| {
        assert (a + b)[i] == b[i - |a|];
      }
    }
  }

  /** Re-stamping commutes with selecting one member's posts: the posts a
      profile page shows after a save are the ones it showed before, with the
      new snapshot where the owner is `email`. */
  lemma {:induction false} ProfileUpdatePostsBy(ps: seq<Post>, email: Email, prof: Profile, who: Email)
    ensures PostsBy(ProfileUpdate(ps, email, prof), who) == ProfileUpdate(PostsBy(ps, who), email, prof)
  {
    if ps != [] {
      var h := if ps[0].author.email == who then [ps[0]] else [];
      var r := ProfileUpdate(ps, email, prof);
      assert r[1..] == ProfileUpdate(ps[1..], email, prof);
      assert r[0].author.email == ps[0].author.email;
      ProfileUpdatePostsBy(ps[1..], email, prof, who);
      ProfileUpdateAppend(h, PostsBy(ps[1..], who), email, prof);
    }
  }
}
